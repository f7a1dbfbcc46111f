/** The event pipeline: senders put messages on three bounded queues, one batcher drains them.

    Every send is numbered, and a queue holds the numbers of the sends whose messages wait in it. A step is one
    channel operation; the steps of the senders and of the batcher interleave freely. */
module MessagePipeline {

  const MESSAGE_BATCH_SIZE := 32
  const MESSAGE_QUEUE_SIZE := 256
  const MESSAGE_PRIORITY_BURST := 8
  const MESSAGE_EVICT_ATTEMPTS := 4

  datatype MessageType =
    | Log | Delay | Request | Dns | Loaded | GeoUpdate | RouteChanged | DialerLoop | RequestTraffic | Other

  datatype Message = Message(kind: MessageType, data: int)

  datatype Class = StateClass | PriorityClass | BulkClass | YieldingBulkClass

  function ClassOf(m: Message): Class {
    match m.kind
    case Loaded | GeoUpdate | RouteChanged => StateClass
    case Log | Request => BulkClass
    case Dns | RequestTraffic => YieldingBulkClass
    case Delay | DialerLoop | Other => PriorityClass
  }

  datatype Queue = StateQueue | PriorityQueue | BulkQueue

  function QueueOf(m: Message): Queue {
    match ClassOf(m)
    case StateClass => StateQueue
    case PriorityClass => PriorityQueue
    case BulkClass => BulkQueue
    case YieldingBulkClass => BulkQueue
  }

  /** Only these sends make room for themselves. */
  predicate Evicts(m: Message) {
    ClassOf(m) == PriorityClass || ClassOf(m) == BulkClass
  }

  // ----- State -----

  /** How a message left its queue. */
  datatype Fate = Taken | Evicted(sender: nat)

  /** queue is the channel; accepted and fates are its history: every send it took, in order, and how each of
      those that left it did. */
  datatype Channel = Channel(queue: seq<nat>, closed: bool, accepted: seq<nat>, fates: seq<Fate>)

  datatype CallAt = Sending(attempt: nat) | Evicting(attempt: nat) | Returned(queued: bool)

  datatype Call = Call(message: Message, at: CallAt, evictions: nat)

  /** The batcher's place in its loop: the polls of one turn, then the blocking select. */
  datatype Pc = Top | PollBulk | PollPriority | WaitAny | Finished

  /** A queue the batcher found closed is nil to it. armed: the deadline is set. */
  datatype Batcher = Batcher(
    pc: Pc, stateNil: bool, priorityNil: bool, bulkNil: bool,
    batch: seq<nat>, armed: bool, burst: nat, sent: seq<seq<nat>>)

  /** starved counts the priority messages taken since bulk was last empty or last served. */
  datatype State = State(
    state: Channel, priority: Channel, bulk: Channel, calls: seq<Call>, b: Batcher, starved: nat)

  const EMPTY_CHANNEL := Channel([], false, [], [])

  const INIT := State(EMPTY_CHANNEL, EMPTY_CHANNEL, EMPTY_CHANNEL, [],
                      Batcher(Top, false, false, false, [], false, 0, []), 0)

  function Chan(s: State, q: Queue): Channel {
    match q case StateQueue => s.state case PriorityQueue => s.priority case BulkQueue => s.bulk
  }

  function SetChan(s: State, q: Queue, c: Channel): State {
    match q
    case StateQueue => s.(state := c)
    case PriorityQueue => s.(priority := c)
    case BulkQueue => s.(bulk := c)
  }

  function IsNil(b: Batcher, q: Queue): bool {
    match q case StateQueue => b.stateNil case PriorityQueue => b.priorityNil case BulkQueue => b.bulkNil
  }

  function SetNil(b: Batcher, q: Queue): Batcher {
    match q
    case StateQueue => b.(stateNil := true)
    case PriorityQueue => b.(priorityNil := true)
    case BulkQueue => b.(bulkNil := true)
  }

  // ----- Senders -----

  function Push(c: Channel, id: nat): Channel {
    c.(queue := c.queue + [id], accepted := c.accepted + [id])
  }

  function Drop(c: Channel, fate: Fate): Channel
    requires c.queue != []
  {
    c.(queue := c.queue[1..], fates := c.fates + [fate])
  }

  /** One channel operation of a send: a try to queue, or the eviction of the oldest message. */
  function SendStep(c: Channel, id: nat, call: Call): (Channel, Call) {
    match call.at
    case Sending(attempt) =>
      if |c.queue| < MESSAGE_QUEUE_SIZE then (Push(c, id), call.(at := Returned(true)))
      else if Evicts(call.message) then (c, call.(at := Evicting(attempt)))
      else (c, call.(at := Returned(false)))
    case Evicting(attempt) =>
      var at := if attempt + 1 < MESSAGE_EVICT_ATTEMPTS then Sending(attempt + 1) else Returned(false);
      if c.queue == [] then (c, call.(at := at))
      else (Drop(c, Evicted(id)), call.(at := at, evictions := call.evictions + 1))
    case Returned(_) => (c, call)
  }

  // ----- Batcher -----

  function Flush(b: Batcher): Batcher {
    if b.batch == [] then b else b.(batch := [], armed := false, sent := b.sent + [b.batch])
  }

  function Take(b: Batcher, id: nat): Batcher {
    var b' := b.(batch := b.batch + [id], armed := true);
    if |b'.batch| >= MESSAGE_BATCH_SIZE then Flush(b') else b'
  }

  /** A receive on q is ready: a message waits, or the queue is closed. A nil queue never is. */
  predicate Ready(s: State, q: Queue) {
    !IsNil(s.b, q) && (Chan(s, q).queue != [] || Chan(s, q).closed)
  }

  function Starve(s: State, q: Queue, starved: nat): nat {
    if s.bulk.queue == [] || q == BulkQueue then 0 else if q == PriorityQueue then starved + 1 else starved
  }

  /** The receive on a ready queue, and what the batcher does with it. */
  function Receive(s: State, q: Queue): State
    requires Ready(s, q)
  {
    var c := Chan(s, q);
    var b := s.b.(pc := Top, burst := if q == BulkQueue then 0 else s.b.burst);
    if c.queue == [] then s.(b := SetNil(b, q))
    else
      var b' := if q == PriorityQueue then b.(burst := b.burst + 1) else b;
      var s' := SetChan(s, q, Drop(c, Taken)).(b := Take(b', c.queue[0]));
      s'.(starved := Starve(s', q, s.starved))
  }

  datatype Pick = PickQueue(q: Queue) | PickDeadline

  predicate PickReady(s: State, pick: Pick) {
    match pick case PickQueue(q) => Ready(s, q) case PickDeadline => s.b.armed
  }

  predicate CanBatch(s: State, pick: Pick) {
    s.b.pc != Finished && (s.b.pc == WaitAny ==> PickReady(s, pick))
  }

  /** One channel operation of the batcher; pick is what the blocking select chose. */
  function BatchStep(s: State, pick: Pick): State
    requires CanBatch(s, pick)
  {
    var b := s.b;
    match b.pc
    case Top =>
      if b.stateNil && b.priorityNil && b.bulkNil then s.(b := Flush(b).(pc := Finished))
      else if Ready(s, StateQueue) then Receive(s, StateQueue)
      else s.(b := b.(pc := PollBulk))
    case PollBulk =>
      if b.burst >= MESSAGE_PRIORITY_BURST && !b.bulkNil then
        if Ready(s, BulkQueue) then Receive(s, BulkQueue) else s.(b := b.(burst := 0, pc := PollPriority))
      else s.(b := b.(pc := PollPriority))
    case PollPriority =>
      if Ready(s, PriorityQueue) then Receive(s, PriorityQueue) else s.(b := b.(pc := WaitAny))
    case WaitAny =>
      (match pick
       case PickQueue(q) => Receive(s, q)
       case PickDeadline => s.(b := Flush(b).(pc := Top)))
    case Finished => s
  }

  // ----- Runs -----

  datatype Event =
    | NewSend(message: Message)
    | Step(id: nat)
    | Close(q: Queue)
    | Batch(pick: Pick)

  predicate IsActive(call: Call, q: Queue) {
    QueueOf(call.message) == q && !call.at.Returned?
  }

  /** A queue is closed once, when no send to it is or will be under way. */
  ghost predicate CanApply(s: State, e: Event) {
    match e
    case NewSend(m) => !Chan(s, QueueOf(m)).closed
    case Step(id) => id < |s.calls| && !s.calls[id].at.Returned?
    case Close(q) => forall i :: 0 <= i < |s.calls| ==> !IsActive(s.calls[i], q)
    case Batch(pick) => CanBatch(s, pick)
  }

  ghost function Apply(s: State, e: Event): State
    requires CanApply(s, e)
  {
    match e
    case NewSend(m) => s.(calls := s.calls + [Call(m, Sending(0), 0)])
    case Step(id) =>
      var q := QueueOf(s.calls[id].message);
      var (c, call) := SendStep(Chan(s, q), id, s.calls[id]);
      var s' := SetChan(s, q, c).(calls := s.calls[id := call]);
      s'.(starved := if s'.bulk.queue == [] then 0 else s.starved)
    case Close(q) => SetChan(s, q, Chan(s, q).(closed := true))
    case Batch(pick) => BatchStep(s, pick)
  }
}
