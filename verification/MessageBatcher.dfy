/** The batcher's loop itself, on queues that were filled and closed before it starts: every queue is then ready
    until it is nil, so the polls always find it, and only the deadline is left to chance. The loop is a run of the
    batcher's steps in the pipeline. */
module MessageBatcher {
  import opened Wrappers
  import opened MessagePipeline
  import opened PipelineInvariants

  /** State is drained by the turn's first poll, so what remains is priority in bursts of 8 with one bulk message
      after each, and what is left of either at the end. */
  function Interleave(priority: seq<nat>, bulk: seq<nat>, burst: nat): seq<nat>
    decreases |priority| + |bulk|
  {
    if burst >= MESSAGE_PRIORITY_BURST && bulk != [] then [bulk[0]] + Interleave(priority, bulk[1..], 0)
    else if priority != [] then [priority[0]] + Interleave(priority[1..], bulk, burst + 1)
    else bulk
  }

  /** What a queue still holds; a nil queue holds nothing. */
  function Rest(queue: Option<seq<nat>>): seq<nat> {
    match queue case Some(q) => q case None => []
  }

  function Weight(queue: Option<seq<nat>>): nat {
    match queue case Some(q) => |q| + 1 case None => 0
  }

  function First(q: seq<nat>): seq<nat> {
    if q == [] then [] else [q[0]]
  }

  function Next(q: seq<nat>): Option<seq<nat>> {
    if q == [] then None else Some(q[1..])
  }

  /** The batch and what was sent after the oldest message of a queue was taken. */
  function BatchAfter(queue: seq<nat>, batch: seq<nat>): seq<nat> {
    if queue == [] then batch else if |batch| + 1 >= MESSAGE_BATCH_SIZE then [] else batch + [queue[0]]
  }

  function SentAfter(queue: seq<nat>, batch: seq<nat>, sent: seq<seq<nat>>): seq<seq<nat>> {
    if queue != [] && |batch| + 1 >= MESSAGE_BATCH_SIZE then sent + [batch + [queue[0]]] else sent
  }

  // ----- The loop and the pipeline's batcher -----

  /** The pipeline with these queues filled and closed, before its batcher's first step. */
  function Filled(state: seq<nat>, priority: seq<nat>, bulk: seq<nat>): State {
    INIT.(state := Channel(state, true, state, []), priority := Channel(priority, true, priority, []),
          bulk := Channel(bulk, true, bulk, []))
  }

  /** s' is reached from s by steps of the batcher. */
  ghost predicate Batches(s: State, picks: seq<Pick>, s': State)
    decreases |picks|
  {
    if picks == [] then s' == s else CanBatch(s, picks[0]) && Batches(BatchStep(s, picks[0]), picks[1..], s')
  }

  /** So many messages are sent in these batches by a whole run of the batcher, from s to its end. */
  ghost predicate RunsTo(s: State, sent: seq<seq<nat>>) {
    exists picks, s' :: Batches(s, picks, s') && s'.b.pc == Finished && s'.b.sent == sent
  }

  lemma {:induction false} OneBatchStep(s: State, picks: seq<Pick>, s': State, pick: Pick)
    requires Batches(s, picks, s') && CanBatch(s', pick)
    ensures Batches(s, picks + [pick], BatchStep(s', pick))
    decreases |picks|
  {
    if picks == [] {
      assert [pick][1..] == [];
    } else {
      assert (picks + [pick])[1..] == picks[1..] + [pick];
      OneBatchStep(BatchStep(s, picks[0]), picks[1..], s', pick);
    }
  }

  /** The queue as the loop has it. */
  predicate IsQueue(s: State, q: Queue, queue: Option<seq<nat>>) {
    && Chan(s, q).closed && (IsNil(s.b, q) <==> queue.None?) && (queue.Some? ==> Chan(s, q).queue == queue.value)
  }

  /** The pipeline's batcher is where the loop is. */
  predicate IsLoop(s: State, state: Option<seq<nat>>, priority: Option<seq<nat>>, bulk: Option<seq<nat>>,
                   batch: seq<nat>, burst: nat, sent: seq<seq<nat>>) {
    && s.b.pc == Top && IsQueue(s, StateQueue, state) && IsQueue(s, PriorityQueue, priority)
    && IsQueue(s, BulkQueue, bulk) && s.b.batch == batch && (s.b.armed <==> batch != [])
    && |batch| < MESSAGE_BATCH_SIZE && s.b.burst == burst && s.b.sent == sent
  }

  /** Receiving does what the loop does with a message. */
  lemma Received(s: State, q: Queue, queue: seq<nat>)
    requires IsQueue(s, q, Some(queue)) && (s.b.armed <==> s.b.batch != []) && |s.b.batch| < MESSAGE_BATCH_SIZE
    ensures Ready(s, q)
    ensures var s' := Receive(s, q);
            && s'.b.pc == Top && IsQueue(s', q, Next(queue))
            && (forall q' :: q' != q ==> Chan(s', q') == Chan(s, q') && IsNil(s'.b, q') == IsNil(s.b, q'))
            && s'.b.batch == BatchAfter(queue, s.b.batch) && s'.b.sent == SentAfter(queue, s.b.batch, s.b.sent)
            && (s'.b.armed <==> s'.b.batch != []) && |s'.b.batch| < MESSAGE_BATCH_SIZE
            && s'.b.burst == if q == BulkQueue then 0
                             else if q == PriorityQueue && queue != [] then s.b.burst + 1 else s.b.burst
  {
  }

  /** The batcher stands at its loop's head, after these steps. */
  ghost predicate Follows(s0: State, picks: seq<Pick>, s: State, state: Option<seq<nat>>,
                          priority: Option<seq<nat>>, bulk: Option<seq<nat>>, batch: seq<nat>, burst: nat,
                          sent: seq<seq<nat>>) {
    Batches(s0, picks, s) && IsLoop(s, state, priority, bulk, batch, burst, sent)
  }

  lemma StateStep(s0: State, picks: seq<Pick>, s: State, q: seq<nat>, priority: Option<seq<nat>>,
                  bulk: Option<seq<nat>>, batch: seq<nat>, burst: nat, sent: seq<seq<nat>>)
    returns (picks': seq<Pick>, s': State)
    requires Follows(s0, picks, s, Some(q), priority, bulk, batch, burst, sent)
    ensures Follows(s0, picks', s', Next(q), priority, bulk, BatchAfter(q, batch), burst, SentAfter(q, batch, sent))
  {
    Received(s, StateQueue, q);
    OneBatchStep(s0, picks, s, PickDeadline);
    picks', s' := picks + [PickDeadline], BatchStep(s, PickDeadline);
  }

  /** Past the poll of the state queue, once that is nil. */
  lemma PastState(s0: State, picks: seq<Pick>, s: State, priority: Option<seq<nat>>, bulk: Option<seq<nat>>,
                  batch: seq<nat>, burst: nat, sent: seq<seq<nat>>)
    returns (picks': seq<Pick>, s': State)
    requires Follows(s0, picks, s, None, priority, bulk, batch, burst, sent) && (priority.Some? || bulk.Some?)
    ensures Batches(s0, picks', s') && s' == s.(b := s.b.(pc := PollBulk))
  {
    OneBatchStep(s0, picks, s, PickDeadline);
    picks', s' := picks + [PickDeadline], BatchStep(s, PickDeadline);
  }

  lemma BulkPoll(s0: State, picks: seq<Pick>, s: State, priority: Option<seq<nat>>, q: seq<nat>, batch: seq<nat>,
                 burst: nat, sent: seq<seq<nat>>)
    returns (picks': seq<Pick>, s': State)
    requires Follows(s0, picks, s, None, priority, Some(q), batch, burst, sent) && burst >= MESSAGE_PRIORITY_BURST
    ensures Follows(s0, picks', s', None, priority, Next(q), BatchAfter(q, batch), 0, SentAfter(q, batch, sent))
  {
    var picks1, s1 := PastState(s0, picks, s, priority, Some(q), batch, burst, sent);
    Received(s1, BulkQueue, q);
    OneBatchStep(s0, picks1, s1, PickDeadline);
    picks', s' := picks1 + [PickDeadline], BatchStep(s1, PickDeadline);
  }

  /** Past the poll of the bulk queue as well. */
  lemma PastBulk(s0: State, picks: seq<Pick>, s: State, priority: Option<seq<nat>>, bulk: Option<seq<nat>>,
                 batch: seq<nat>, burst: nat, sent: seq<seq<nat>>)
    returns (picks': seq<Pick>, s': State)
    requires Follows(s0, picks, s, None, priority, bulk, batch, burst, sent) && (priority.Some? || bulk.Some?)
    requires burst < MESSAGE_PRIORITY_BURST || bulk.None?
    ensures Batches(s0, picks', s') && s' == s.(b := s.b.(pc := PollPriority))
  {
    var picks1, s1 := PastState(s0, picks, s, priority, bulk, batch, burst, sent);
    OneBatchStep(s0, picks1, s1, PickDeadline);
    picks', s' := picks1 + [PickDeadline], BatchStep(s1, PickDeadline);
  }

  lemma PriorityPoll(s0: State, picks: seq<Pick>, s: State, q: seq<nat>, bulk: Option<seq<nat>>, batch: seq<nat>,
                     burst: nat, sent: seq<seq<nat>>)
    returns (picks': seq<Pick>, s': State)
    requires Follows(s0, picks, s, None, Some(q), bulk, batch, burst, sent)
    requires burst < MESSAGE_PRIORITY_BURST || bulk.None?
    ensures Follows(s0, picks', s', None, Next(q), bulk, BatchAfter(q, batch), if q == [] then burst else burst + 1,
                    SentAfter(q, batch, sent))
  {
    var picks1, s1 := PastBulk(s0, picks, s, Some(q), bulk, batch, burst, sent);
    Received(s1, PriorityQueue, q);
    OneBatchStep(s0, picks1, s1, PickDeadline);
    picks', s' := picks1 + [PickDeadline], BatchStep(s1, PickDeadline);
  }

  /** To the blocking select, with the bulk queue alone left. */
  lemma ToSelect(s0: State, picks: seq<Pick>, s: State, q: seq<nat>, batch: seq<nat>, burst: nat,
                 sent: seq<seq<nat>>)
    returns (picks': seq<Pick>, s': State)
    requires Follows(s0, picks, s, None, None, Some(q), batch, burst, sent) && burst < MESSAGE_PRIORITY_BURST
    ensures Batches(s0, picks', s') && s' == s.(b := s.b.(pc := WaitAny))
  {
    var picks1, s1 := PastBulk(s0, picks, s, None, Some(q), batch, burst, sent);
    OneBatchStep(s0, picks1, s1, PickDeadline);
    picks', s' := picks1 + [PickDeadline], BatchStep(s1, PickDeadline);
  }

  lemma DeadlinePick(s0: State, picks: seq<Pick>, s: State, q: seq<nat>, batch: seq<nat>, burst: nat,
                     sent: seq<seq<nat>>)
    returns (picks': seq<Pick>, s': State)
    requires Follows(s0, picks, s, None, None, Some(q), batch, burst, sent) && burst < MESSAGE_PRIORITY_BURST
    requires batch != []
    ensures Follows(s0, picks', s', None, None, Some(q), [], burst, sent + [batch])
  {
    var picks1, s1 := ToSelect(s0, picks, s, q, batch, burst, sent);
    OneBatchStep(s0, picks1, s1, PickDeadline);
    picks', s' := picks1 + [PickDeadline], BatchStep(s1, PickDeadline);
  }

  lemma BulkPick(s0: State, picks: seq<Pick>, s: State, q: seq<nat>, batch: seq<nat>, burst: nat,
                 sent: seq<seq<nat>>)
    returns (picks': seq<Pick>, s': State)
    requires Follows(s0, picks, s, None, None, Some(q), batch, burst, sent) && burst < MESSAGE_PRIORITY_BURST
    ensures Follows(s0, picks', s', None, None, Next(q), BatchAfter(q, batch), 0, SentAfter(q, batch, sent))
  {
    var picks1, s1 := ToSelect(s0, picks, s, q, batch, burst, sent);
    Received(s1, BulkQueue, q);
    OneBatchStep(s0, picks1, s1, PickQueue(BulkQueue));
    picks', s' := picks1 + [PickQueue(BulkQueue)], BatchStep(s1, PickQueue(BulkQueue));
  }

  lemma LastFlush(s0: State, picks: seq<Pick>, s: State, batch: seq<nat>, burst: nat, sent: seq<seq<nat>>)
    requires Follows(s0, picks, s, None, None, None, batch, burst, sent)
    ensures RunsTo(s0, if batch == [] then sent else sent + [batch])
  {
    OneBatchStep(s0, picks, s, PickDeadline);
    var s' := BatchStep(s, PickDeadline);
    assert Batches(s0, picks + [PickDeadline], s');
  }

  // ----- The loop -----

  ghost predicate BatchesOk(sent: seq<seq<nat>>) {
    forall i :: 0 <= i < |sent| ==> 1 <= |sent[i]| <= MESSAGE_BATCH_SIZE
  }

  method FlushBatch(batch: seq<nat>, sent: seq<seq<nat>>) returns (sent': seq<seq<nat>>)
    requires BatchesOk(sent) && |batch| <= MESSAGE_BATCH_SIZE
    ensures sent' == if batch == [] then sent else sent + [batch]
    ensures Flatten(sent') == Flatten(sent) + batch
    ensures BatchesOk(sent')
  {
    sent' := sent;
    if batch != [] {
      sent' := sent + [batch];
      assert sent'[..|sent|] == sent;
    }
  }

  lemma JoinsBatch(flat: seq<nat>, batch: seq<nat>, id: nat, later: seq<nat>)
    ensures flat + (batch + [id]) + later == flat + batch + ([id] + later)
    ensures flat + (batch + [id]) + [] + later == flat + batch + ([id] + later)
  {
  }

  /** What is sent and what is in the batch make up what they did, and the message. */
  lemma FlatAfter(queue: seq<nat>, batch: seq<nat>, sent: seq<seq<nat>>, later: seq<nat>)
    ensures Flatten(SentAfter(queue, batch, sent)) + BatchAfter(queue, batch) + later ==
            Flatten(sent) + batch + (First(queue) + later)
  {
    if queue == [] {
      assert [] + later == later;
    } else {
      JoinsBatch(Flatten(sent), batch, queue[0], later);
      assert (sent + [batch + [queue[0]]])[..|sent|] == sent;
    }
  }

  /** Receives from a closed queue: its oldest message joins the batch, or the queue becomes nil. */
  method TakeFrom(queue: seq<nat>, batch: seq<nat>, sent: seq<seq<nat>>, ghost later: seq<nat>)
    returns (queue': Option<seq<nat>>, batch': seq<nat>, sent': seq<seq<nat>>, took: bool)
    requires |batch| < MESSAGE_BATCH_SIZE && BatchesOk(sent)
    ensures took <==> queue != []
    ensures queue' == Next(queue) && batch' == BatchAfter(queue, batch) && sent' == SentAfter(queue, batch, sent)
    ensures Flatten(sent') + batch' + later == Flatten(sent) + batch + (First(queue) + later)
    ensures |batch'| < MESSAGE_BATCH_SIZE && BatchesOk(sent')
  {
    FlatAfter(queue, batch, sent, later);
    batch', sent', took := batch, sent, queue != [];
    if !took {
      return None, batch, sent, false;
    }
    queue' := Some(queue[1..]);
    batch' := batch + [queue[0]];
    if |batch'| >= MESSAGE_BATCH_SIZE {
      sent' := FlushBatch(batch', sent);
      batch' := [];
    }
  }

  /** What the loop has still to send. */
  function Pending(state: Option<seq<nat>>, priority: Option<seq<nat>>, bulk: Option<seq<nat>>, burst: nat): seq<nat> {
    Rest(state) + Interleave(Rest(priority), Rest(bulk), burst)
  }

  lemma StateTurn(q: seq<nat>, priority: Option<seq<nat>>, bulk: Option<seq<nat>>, burst: nat)
    ensures Pending(Some(q), priority, bulk, burst) == First(q) + Pending(Next(q), priority, bulk, burst)
  {
  }

  lemma BulkTurn(priority: Option<seq<nat>>, q: seq<nat>, burst: nat)
    requires burst >= MESSAGE_PRIORITY_BURST || priority.None?
    ensures Pending(None, priority, Some(q), burst) == First(q) + Pending(None, priority, Next(q), 0)
  {
    if q == [] {
      BurstIsForgotten(Rest(priority), burst);
      BurstIsForgotten(Rest(priority), 0);
    } else if burst < MESSAGE_PRIORITY_BURST {
      OnlyBulkIsLeft(q, burst);
      OnlyBulkIsLeft(q[1..], 0);
    }
  }

  lemma PriorityTurn(q: seq<nat>, bulk: Option<seq<nat>>, burst: nat)
    requires burst < MESSAGE_PRIORITY_BURST || bulk.None?
    ensures Pending(None, Some(q), bulk, burst) ==
            First(q) + Pending(None, Next(q), bulk, if q == [] then burst else burst + 1)
  {
  }

  /** With bulk empty the burst no longer matters. */
  lemma {:induction false} BurstIsForgotten(priority: seq<nat>, burst: nat)
    ensures Interleave(priority, [], burst) == priority
  {
    if priority == [] {
    } else {
      BurstIsForgotten(priority[1..], burst + 1);
    }
  }

  lemma {:induction false} OnlyBulkIsLeft(bulk: seq<nat>, burst: nat)
    ensures Interleave([], bulk, burst) == bulk
  {
    if burst >= MESSAGE_PRIORITY_BURST && bulk != [] {
      OnlyBulkIsLeft(bulk[1..], 0);
    }
  }

  /** What has been sent, what is in the batch and what is pending make up everything. */
  ghost predicate Accounts(sent: seq<seq<nat>>, batch: seq<nat>, pending: seq<nat>, all: seq<nat>) {
    && |batch| < MESSAGE_BATCH_SIZE && BatchesOk(sent)
    && Flatten(sent) + batch + pending == all
  }

  /** One receive of the loop; later is what is pending after it. */
  method Turn(queue: seq<nat>, batch: seq<nat>, sent: seq<seq<nat>>, ghost later: seq<nat>, ghost all: seq<nat>)
    returns (queue': Option<seq<nat>>, batch': seq<nat>, sent': seq<seq<nat>>)
    requires Accounts(sent, batch, First(queue) + later, all)
    ensures queue' == Next(queue) && Weight(queue') < Weight(Some(queue))
    ensures batch' == BatchAfter(queue, batch) && sent' == SentAfter(queue, batch, sent)
    ensures Accounts(sent', batch', later, all)
  {
    var took;
    queue', batch', sent', took := TakeFrom(queue, batch, sent, later);
  }

  /** Everything is sent once, in batches of 1 to 32: state first, then the interleaving, whatever the deadline does.
      These batches are what a run of the pipeline's batcher sends. */
  method RunMessageBatcher(state: seq<nat>, priority: seq<nat>, bulk: seq<nat>) returns (sent: seq<seq<nat>>)
    ensures Flatten(sent) == state + Interleave(priority, bulk, 0)
    ensures BatchesOk(sent) && RunsTo(Filled(state, priority, bulk), sent)
  {
    var stateQ, priorityQ, bulkQ := Some(state), Some(priority), Some(bulk);
    var batch: seq<nat> := [];
    var burst: nat := 0;
    sent := [];
    ghost var all := state + Interleave(priority, bulk, 0);
    ghost var s0 := Filled(state, priority, bulk);
    ghost var s, picks: seq<Pick> := s0, [];
    while stateQ.Some? || priorityQ.Some? || bulkQ.Some?
      invariant Accounts(sent, batch, Pending(stateQ, priorityQ, bulkQ, burst), all)
      invariant Follows(s0, picks, s, stateQ, priorityQ, bulkQ, batch, burst, sent)
      decreases Weight(stateQ) + Weight(priorityQ) + Weight(bulkQ), batch != []
    {
      if stateQ.Some? {
        ghost var later := Pending(Next(stateQ.value), priorityQ, bulkQ, burst);
        StateTurn(stateQ.value, priorityQ, bulkQ, burst);
        picks, s := StateStep(s0, picks, s, stateQ.value, priorityQ, bulkQ, batch, burst, sent);
        stateQ, batch, sent := Turn(stateQ.value, batch, sent, later, all);
        continue;
      }
      if burst >= MESSAGE_PRIORITY_BURST && bulkQ.Some? {
        ghost var later := Pending(None, priorityQ, Next(bulkQ.value), 0);
        BulkTurn(priorityQ, bulkQ.value, burst);
        picks, s := BulkPoll(s0, picks, s, priorityQ, bulkQ.value, batch, burst, sent);
        burst := 0;
        bulkQ, batch, sent := Turn(bulkQ.value, batch, sent, later, all);
        continue;
      }
      if priorityQ.Some? {
        var burst' := if priorityQ.value == [] then burst else burst + 1;
        ghost var later := Pending(None, Next(priorityQ.value), bulkQ, burst');
        PriorityTurn(priorityQ.value, bulkQ, burst);
        picks, s := PriorityPoll(s0, picks, s, priorityQ.value, bulkQ, batch, burst, sent);
        priorityQ, batch, sent := Turn(priorityQ.value, batch, sent, later, all);
        burst := burst';
        continue;
      }
      bulkQ, batch, burst, sent, picks, s := Select(bulkQ.value, batch, burst, sent, all, s0, picks, s);
    }
    LastFlush(s0, picks, s, batch, burst, sent);
    sent, batch := Deadline(batch, sent, [], all);
  }

  /** The blocking select with the bulk queue alone left: its oldest message, or the deadline of the batch. */
  method Select(bulk: seq<nat>, batch: seq<nat>, burst: nat, sent: seq<seq<nat>>, ghost all: seq<nat>, ghost s0: State,
                ghost picks: seq<Pick>, ghost s: State)
    returns (bulk': Option<seq<nat>>, batch': seq<nat>, burst': nat, sent': seq<seq<nat>>, ghost picks': seq<Pick>,
             ghost s': State)
    requires Accounts(sent, batch, Pending(None, None, Some(bulk), burst), all) && burst < MESSAGE_PRIORITY_BURST
    requires Follows(s0, picks, s, None, None, Some(bulk), batch, burst, sent)
    ensures Accounts(sent', batch', Pending(None, None, bulk', burst'), all)
    ensures Follows(s0, picks', s', None, None, bulk', batch', burst', sent')
    ensures Weight(bulk') < Weight(Some(bulk)) || (bulk' == Some(bulk) && batch' == [] != batch)
  {
    var deadline: bool := *;
    if batch != [] && deadline {
      picks', s' := DeadlinePick(s0, picks, s, bulk, batch, burst, sent);
      bulk', burst' := Some(bulk), burst;
      sent', batch' := Deadline(batch, sent, Pending(None, None, Some(bulk), burst), all);
    } else {
      BulkTurn(None, bulk, burst);
      picks', s' := BulkPick(s0, picks, s, bulk, batch, burst, sent);
      bulk', batch', sent' := Turn(bulk, batch, sent, Pending(None, None, Next(bulk), 0), all);
      burst' := 0;
    }
  }

  /** The flush sends the batch and leaves what is pending alone. */
  method Deadline(batch: seq<nat>, sent: seq<seq<nat>>, ghost pending: seq<nat>, ghost all: seq<nat>)
    returns (sent': seq<seq<nat>>, batch': seq<nat>)
    requires Accounts(sent, batch, pending, all)
    ensures batch' == [] && Accounts(sent', batch', pending, all)
    ensures sent' == if batch == [] then sent else sent + [batch]
  {
    sent' := FlushBatch(batch, sent);
    batch' := [];
  }
}
