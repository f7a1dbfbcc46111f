/** What every step of the event pipeline keeps: conservation, order, bounds and fairness. */
module PipelineInvariants {
  import opened MessagePipeline

  // ----- Conservation -----

  function Flatten(batches: seq<seq<nat>>): seq<nat> {
    if batches == [] then [] else Flatten(batches[..|batches| - 1]) + batches[|batches| - 1]
  }

  /** Everything the batcher has taken, in the order it took it. */
  function Delivered(b: Batcher): seq<nat> {
    Flatten(b.sent) + b.batch
  }

  /** The sends among ids whose messages belong on queue q. */
  function Only(calls: seq<Call>, q: Queue, ids: seq<nat>): seq<nat> {
    if ids == [] then []
    else
      var last := ids[|ids| - 1];
      Only(calls, q, ids[..|ids| - 1]) +
      (if last < |calls| && QueueOf(calls[last].message) == q then [last] else [])
  }

  /** The accepted sends that were taken rather than evicted, in order. */
  function TakenOf(accepted: seq<nat>, fates: seq<Fate>): seq<nat>
    requires |fates| <= |accepted|
  {
    if fates == [] then []
    else
      var n := |fates| - 1;
      TakenOf(accepted, fates[..n]) + (if fates[n].Taken? then [accepted[n]] else [])
  }

  /** How many messages send id evicted. */
  function EvictionsBy(fates: seq<Fate>, id: nat): nat {
    if fates == [] then 0
    else EvictionsBy(fates[..|fates| - 1], id) + (if fates[|fates| - 1] == Evicted(id) then 1 else 0)
  }

  /** What is queued is what was accepted and has not left, and the queue is bounded. */
  ghost predicate ChannelOk(c: Channel) {
    && |c.fates| <= |c.accepted|
    && c.queue == c.accepted[|c.fates|..]
    && |c.queue| <= MESSAGE_QUEUE_SIZE
    && forall i, j :: 0 <= i < j < |c.accepted| ==> c.accepted[i] != c.accepted[j]
  }

  /** A queue accepted exactly the sends to it that report success. */
  ghost predicate AcceptedOk(s: State, q: Queue) {
    && (forall id :: id in Chan(s, q).accepted ==>
          id < |s.calls| && QueueOf(s.calls[id].message) == q && s.calls[id].at == Returned(true))
    && (forall id :: 0 <= id < |s.calls| && QueueOf(s.calls[id].message) == q && s.calls[id].at == Returned(true) ==>
                       id in Chan(s, q).accepted)
  }

  predicate CallOk(call: Call) {
    && call.evictions <= (match call.at
                          case Sending(attempt) => attempt
                          case Evicting(attempt) => attempt
                          case Returned(_) => MESSAGE_EVICT_ATTEMPTS)
    && (call.at.Sending? ==> call.at.attempt < MESSAGE_EVICT_ATTEMPTS)
    && (call.at.Evicting? ==> call.at.attempt < MESSAGE_EVICT_ATTEMPTS)
    && (!Evicts(call.message) ==> call.evictions == 0 && !call.at.Evicting?)
  }

  /** Every eviction from q is the doing of a send to q, which counts it. */
  ghost predicate EvictionsOk(s: State, q: Queue) {
    && (forall id :: 0 <= id < |s.calls| ==>
          EvictionsBy(Chan(s, q).fates, id) ==
          if QueueOf(s.calls[id].message) == q then s.calls[id].evictions else 0)
    && (forall i :: 0 <= i < |Chan(s, q).fates| && Chan(s, q).fates[i].Evicted? ==>
                      Chan(s, q).fates[i].sender < |s.calls|)
  }

  /** What the batcher took from q is what left q without being evicted, in the order q accepted it. */
  ghost predicate Conserved(s: State, q: Queue) {
    |Chan(s, q).fates| <= |Chan(s, q).accepted| &&
    Only(s.calls, q, Delivered(s.b)) == TakenOf(Chan(s, q).accepted, Chan(s, q).fates)
  }

  // ----- The batcher -----

  ghost predicate BatcherOk(s: State) {
    var b := s.b;
    && |b.batch| < MESSAGE_BATCH_SIZE
    && (b.armed <==> b.batch != [])
    && (forall i :: 0 <= i < |b.sent| ==> 1 <= |b.sent[i]| <= MESSAGE_BATCH_SIZE)
    && (!b.bulkNil ==> b.burst <= MESSAGE_PRIORITY_BURST)
    && (!b.bulkNil && (b.pc == PollPriority || b.pc == WaitAny) ==> b.burst < MESSAGE_PRIORITY_BURST)
    && (forall q :: IsNil(b, q) ==> Chan(s, q).closed && Chan(s, q).queue == [])
    && (forall i :: 0 <= i < |Delivered(b)| ==> Delivered(b)[i] < |s.calls|)
    && (b.pc == PollBulk || b.pc == PollPriority || b.pc == WaitAny ==> !(b.stateNil && b.priorityNil && b.bulkNil))
    && (b.pc == Finished ==> b.batch == [] && b.stateNil && b.priorityNil && b.bulkNil)
  }

  /** Since bulk last had nothing waiting or was last served, priority has been taken at most burst times. */
  ghost predicate FairnessOk(s: State) {
    && (s.bulk.queue == [] ==> s.starved == 0)
    && (s.bulk.queue != [] ==> s.starved <= s.b.burst)
  }

  /** No send to a closed queue is under way. */
  ghost predicate ClosedOk(s: State) {
    forall id :: 0 <= id < |s.calls| && !s.calls[id].at.Returned? ==> !Chan(s, QueueOf(s.calls[id].message)).closed
  }

  ghost predicate QueueInv(s: State, q: Queue) {
    ChannelOk(Chan(s, q)) && AcceptedOk(s, q) && EvictionsOk(s, q) && Conserved(s, q)
  }

  ghost predicate CallsOk(s: State) {
    forall id :: 0 <= id < |s.calls| ==> CallOk(s.calls[id])
  }

  ghost predicate Inv(s: State) {
    && (forall q :: QueueInv(s, q))
    && CallsOk(s) && BatcherOk(s) && FairnessOk(s) && ClosedOk(s)
  }

  lemma InitHolds()
    ensures Inv(INIT)
  {
    forall q ensures QueueInv(INIT, q) {
      assert Chan(INIT, q) == EMPTY_CHANNEL;
    }
    assert Delivered(INIT.b) == [];
  }

  // ----- Sequence lemmas -----

  lemma {:induction false} OnlyAppend(calls: seq<Call>, q: Queue, ids: seq<nat>, id: nat)
    ensures Only(calls, q, ids + [id]) ==
            Only(calls, q, ids) + (if id < |calls| && QueueOf(calls[id].message) == q then [id] else [])
  {
    assert (ids + [id])[..|ids|] == ids;
  }

  /** Moving the batch to the list of sent batches takes and loses nothing. */
  lemma FlushDelivers(b: Batcher)
    ensures Delivered(Flush(b)) == Delivered(b)
  {
    assert (b.sent + [b.batch])[..|b.sent|] == b.sent;
  }

  lemma TakeDelivers(b: Batcher, id: nat)
    ensures Delivered(Take(b, id)) == Delivered(b) + [id]
  {
    var b' := b.(batch := b.batch + [id], armed := true);
    FlushDelivers(b');
    assert Delivered(b') == Delivered(b) + [id];
  }

  lemma {:induction false} OnlyGrows(calls: seq<Call>, call: Call, q: Queue, ids: seq<nat>)
    requires forall i :: 0 <= i < |ids| ==> ids[i] < |calls|
    ensures Only(calls + [call], q, ids) == Only(calls, q, ids)
  {
    if ids == [] {
    } else {
      OnlyGrows(calls, call, q, ids[..|ids| - 1]);
    }
  }

  /** What a send message says does not change while it runs. */
  lemma {:induction false} OnlySameMessages(calls: seq<Call>, calls': seq<Call>, q: Queue, ids: seq<nat>)
    requires |calls'| == |calls| && forall i :: 0 <= i < |calls| ==> calls'[i].message == calls[i].message
    ensures Only(calls', q, ids) == Only(calls, q, ids)
  {
    if ids == [] {
    } else {
      OnlySameMessages(calls, calls', q, ids[..|ids| - 1]);
    }
  }

  lemma {:induction false} TakenOfPush(accepted: seq<nat>, fates: seq<Fate>, id: nat)
    requires |fates| <= |accepted|
    ensures TakenOf(accepted + [id], fates) == TakenOf(accepted, fates)
  {
    if fates == [] {
    } else {
      TakenOfPush(accepted, fates[..|fates| - 1], id);
    }
  }

  lemma TakenOfDrop(accepted: seq<nat>, fates: seq<Fate>, fate: Fate)
    requires |fates| < |accepted|
    ensures TakenOf(accepted, fates + [fate]) ==
            TakenOf(accepted, fates) + (if fate.Taken? then [accepted[|fates|]] else [])
  {
    assert (fates + [fate])[..|fates|] == fates;
  }

  lemma EvictionsByDrop(fates: seq<Fate>, fate: Fate, id: nat)
    ensures EvictionsBy(fates + [fate], id) == EvictionsBy(fates, id) + (if fate == Evicted(id) then 1 else 0)
  {
    assert (fates + [fate])[..|fates|] == fates;
  }

  lemma {:induction false} NoEvictions(fates: seq<Fate>, id: nat)
    requires forall i :: 0 <= i < |fates| ==> fates[i] != Evicted(id)
    ensures EvictionsBy(fates, id) == 0
  {
    if fates == [] {
    } else {
      NoEvictions(fates[..|fates| - 1], id);
    }
  }

  // ----- A new send -----

  lemma NewSendKeepsInv(s: State, m: Message)
    requires Inv(s) && CanApply(s, NewSend(m))
    ensures Inv(Apply(s, NewSend(m)))
  {
    var call := Call(m, Sending(0), 0);
    var s' := Apply(s, NewSend(m));
    forall q ensures QueueInv(s', q) {
      assert QueueInv(s, q) && Chan(s', q) == Chan(s, q);
      OnlyGrows(s.calls, call, q, Delivered(s.b));
      NoEvictions(Chan(s, q).fates, |s.calls|);
    }
    forall q ensures Chan(s', q) == Chan(s, q) {
    }
  }

  // ----- A step of a send -----

  /** The send's step is legal and takes s to s'; q is its queue. */
  ghost predicate IsStep(s: State, id: nat, q: Queue, s': State) {
    CanApply(s, Step(id)) && s' == Apply(s, Step(id)) && q == QueueOf(s.calls[id].message)
  }

  lemma PushKeepsQueue(s: State, id: nat, q: Queue, s': State)
    requires Inv(s) && IsStep(s, id, q, s')
    requires s.calls[id].at.Sending? && |Chan(s, q).queue| < MESSAGE_QUEUE_SIZE
    ensures QueueInv(s', q)
  {
    var c, c' := Chan(s, q), Chan(s', q);
    assert QueueInv(s, q) && c' == Push(c, id);
    OnlySameMessages(s.calls, s'.calls, q, Delivered(s.b));
    TakenOfPush(c.accepted, c.fates, id);
    PushedIsAccepted(s, id, q, s');
  }

  lemma PushedIsAccepted(s: State, id: nat, q: Queue, s': State)
    requires Inv(s) && IsStep(s, id, q, s')
    requires s.calls[id].at.Sending? && |Chan(s, q).queue| < MESSAGE_QUEUE_SIZE
    ensures ChannelOk(Chan(s', q)) && AcceptedOk(s', q)
  {
    assert QueueInv(s, q);
    var c, c' := Chan(s, q), Chan(s', q);
    assert id !in c.accepted;
    assert c'.accepted[|c.accepted|] == id;
    assert forall x :: x in c'.accepted <==> x in c.accepted || x == id;
  }

  lemma EvictionKeepsQueue(s: State, id: nat, q: Queue, s': State)
    requires Inv(s) && IsStep(s, id, q, s')
    requires s.calls[id].at.Evicting? && Chan(s, q).queue != []
    ensures QueueInv(s', q)
  {
    var c, c' := Chan(s, q), Chan(s', q);
    assert QueueInv(s, q) && c' == Drop(c, Evicted(id));
    OnlySameMessages(s.calls, s'.calls, q, Delivered(s.b));
    TakenOfDrop(c.accepted, c.fates, Evicted(id));
    forall x { EvictionsByDrop(c.fates, Evicted(id), x); }
  }

  lemma RefusalKeepsQueue(s: State, id: nat, q: Queue, s': State)
    requires Inv(s) && IsStep(s, id, q, s')
    requires s.calls[id].at.Sending? ==> |Chan(s, q).queue| >= MESSAGE_QUEUE_SIZE
    requires s.calls[id].at.Evicting? ==> Chan(s, q).queue == []
    ensures QueueInv(s', q)
  {
    assert QueueInv(s, q) && Chan(s', q) == Chan(s, q);
    OnlySameMessages(s.calls, s'.calls, q, Delivered(s.b));
  }

  lemma OtherQueueKept(s: State, id: nat, s': State, q: Queue)
    requires Inv(s) && CanApply(s, Step(id)) && s' == Apply(s, Step(id))
    requires q != QueueOf(s.calls[id].message)
    ensures QueueInv(s', q)
  {
    assert QueueInv(s, q) && Chan(s', q) == Chan(s, q);
    OnlySameMessages(s.calls, s'.calls, q, Delivered(s.b));
  }

  lemma StepKeepsInv(s: State, id: nat)
    requires Inv(s) && CanApply(s, Step(id))
    ensures Inv(Apply(s, Step(id)))
  {
    var s' := Apply(s, Step(id));
    forall q ensures QueueInv(s', q) {
      if q != QueueOf(s.calls[id].message) { OtherQueueKept(s, id, s', q); }
      else if s.calls[id].at.Sending? && |Chan(s, q).queue| < MESSAGE_QUEUE_SIZE { PushKeepsQueue(s, id, q, s'); }
      else if s.calls[id].at.Evicting? && Chan(s, q).queue != [] { EvictionKeepsQueue(s, id, q, s'); }
      else { RefusalKeepsQueue(s, id, q, s'); }
    }
    assert CallOk(s.calls[id]);
    StepKeepsBatcher(s, id, s');
  }

  /** A send touches no closed queue, and lets bulk grow or shrink without serving it. */
  lemma StepKeepsBatcher(s: State, id: nat, s': State)
    requires Inv(s) && CanApply(s, Step(id)) && s' == Apply(s, Step(id))
    ensures BatcherOk(s') && FairnessOk(s') && ClosedOk(s') && CallsOk(s')
  {
    assert CallOk(s.calls[id]);
    assert !Chan(s, QueueOf(s.calls[id].message)).closed;
    assert s'.b == s.b;
    forall q ensures Chan(s', q).closed == Chan(s, q).closed {
    }
    forall q | IsNil(s.b, q) ensures Chan(s', q) == Chan(s, q) {
    }
  }

  // ----- Closing a queue -----

  lemma CloseKeepsInv(s: State, q: Queue)
    requires Inv(s) && CanApply(s, Close(q))
    ensures Inv(Apply(s, Close(q)))
  {
    var s' := Apply(s, Close(q));
    forall r ensures QueueInv(s', r) && Chan(s', r) == Chan(s, r).(closed := Chan(s, r).closed || r == q) {
      assert QueueInv(s, r);
    }
    forall id | 0 <= id < |s.calls| && !s.calls[id].at.Returned? ensures QueueOf(s.calls[id].message) != q {
      assert !IsActive(s.calls[id], q);
    }
  }

  // ----- The batcher's steps -----

  /** Only the batcher's own bookkeeping changes, and it delivers the same. */
  lemma QuietBatchKeepsQueues(s: State, b: Batcher)
    requires Inv(s) && Delivered(b) == Delivered(s.b)
    ensures forall q :: QueueInv(s.(b := b), q)
  {
    forall q ensures QueueInv(s.(b := b), q) {
      assert QueueInv(s, q) && Chan(s.(b := b), q) == Chan(s, q);
    }
  }

  /** What receiving a message does: the oldest message of q joins what is delivered. */
  lemma ReceiveEffects(s: State, q: Queue)
    requires Ready(s, q) && Chan(s, q).queue != []
    ensures var s' := Receive(s, q);
            && Chan(s', q) == Drop(Chan(s, q), Taken)
            && (forall r :: r != q ==> Chan(s', r) == Chan(s, r))
            && s'.calls == s.calls
            && Delivered(s'.b) == Delivered(s.b) + [Chan(s, q).queue[0]]
  {
    var b := s.b.(pc := Top, burst := if q == BulkQueue then 0 else s.b.burst);
    var b' := if q == PriorityQueue then b.(burst := b.burst + 1) else b;
    TakeDelivers(b', Chan(s, q).queue[0]);
    assert Delivered(b') == Delivered(s.b);
    forall r | r != q ensures Chan(Receive(s, q), r) == Chan(s, r) {
    }
  }

  /** s' is s with the oldest message of q delivered. */
  ghost predicate DeliversFrom(s: State, q: Queue, s': State) {
    && Chan(s, q).queue != []
    && Chan(s', q) == Drop(Chan(s, q), Taken)
    && (forall r :: r != q ==> Chan(s', r) == Chan(s, r))
    && s'.calls == s.calls
    && Delivered(s'.b) == Delivered(s.b) + [Chan(s, q).queue[0]]
  }

  lemma DeliveryKeepsOwnQueue(s: State, q: Queue, s': State)
    requires QueueInv(s, q) && DeliversFrom(s, q, s')
    ensures QueueInv(s', q)
  {
    var c := Chan(s, q);
    assert c.queue[0] == c.accepted[|c.fates|] && c.queue[0] in c.accepted;
    OnlyAppend(s.calls, q, Delivered(s.b), c.queue[0]);
    TakenOfDrop(c.accepted, c.fates, Taken);
    forall x { EvictionsByDrop(c.fates, Taken, x); }
  }

  lemma DeliveryKeepsOtherQueue(s: State, q: Queue, s': State, r: Queue)
    requires QueueInv(s, q) && QueueInv(s, r) && DeliversFrom(s, q, s') && r != q
    ensures QueueInv(s', r)
  {
    var c := Chan(s, q);
    assert c.queue[0] == c.accepted[|c.fates|] && c.queue[0] in c.accepted;
    OnlyAppend(s.calls, r, Delivered(s.b), c.queue[0]);
  }

  lemma ReceiveKeepsQueues(s: State, q: Queue)
    requires Inv(s) && Ready(s, q) && Chan(s, q).queue != []
    ensures forall r :: QueueInv(Receive(s, q), r)
  {
    ReceiveEffects(s, q);
    forall r ensures QueueInv(Receive(s, q), r) {
      assert QueueInv(s, q) && QueueInv(s, r);
      if r == q {
        DeliveryKeepsOwnQueue(s, q, Receive(s, q));
      } else {
        DeliveryKeepsOtherQueue(s, q, Receive(s, q), r);
      }
    }
  }

  /** The counters after a message from q. */
  lemma ReceiveKeepsFairness(s: State, q: Queue)
    requires BatcherOk(s) && FairnessOk(s) && Ready(s, q)
    ensures FairnessOk(Receive(s, q))
  {
  }

  /** The order of the polls bounds the burst before a priority message is received. */
  lemma ReceiveKeepsBatch(s: State, q: Queue)
    requires BatcherOk(s) && Ready(s, q) && Chan(s, q).queue != []
    requires q == PriorityQueue && !s.b.bulkNil ==> s.b.burst < MESSAGE_PRIORITY_BURST
    ensures var b := Receive(s, q).b;
            && |b.batch| < MESSAGE_BATCH_SIZE && (b.armed <==> b.batch != []) && b.pc == Top
            && (forall i :: 0 <= i < |b.sent| ==> 1 <= |b.sent[i]| <= MESSAGE_BATCH_SIZE)
            && (!b.bulkNil ==> b.burst <= MESSAGE_PRIORITY_BURST)
            && (forall r :: IsNil(b, r) == IsNil(s.b, r))
  {
    forall r ensures IsNil(Receive(s, q).b, r) == IsNil(s.b, r) {
    }
  }

  /** Deliveries are sends that were made, and closed queues stay closed and empty. */
  lemma DeliveryKeepsBounds(s: State, q: Queue, s': State)
    requires QueueInv(s, q) && BatcherOk(s) && ClosedOk(s) && DeliversFrom(s, q, s')
    ensures forall i :: 0 <= i < |Delivered(s'.b)| ==> Delivered(s'.b)[i] < |s'.calls|
    ensures forall r :: IsNil(s.b, r) ==> Chan(s', r) == Chan(s, r)
    ensures ClosedOk(s')
  {
    assert Chan(s, q).queue[0] in Chan(s, q).accepted;
    forall r ensures Chan(s', r).closed == Chan(s, r).closed {
      assert r == q || r != q;
    }
  }

  lemma ReceiveMessageKeepsBatcher(s: State, q: Queue)
    requires QueueInv(s, q) && BatcherOk(s) && ClosedOk(s) && Ready(s, q) && Chan(s, q).queue != []
    requires q == PriorityQueue && !s.b.bulkNil ==> s.b.burst < MESSAGE_PRIORITY_BURST
    ensures BatcherOk(Receive(s, q)) && ClosedOk(Receive(s, q))
  {
    var s' := Receive(s, q);
    ReceiveEffects(s, q);
    ReceiveKeepsBatch(s, q);
    DeliveryKeepsBounds(s, q, s');
    forall r | IsNil(s'.b, r) ensures Chan(s', r).closed && Chan(s', r).queue == [] {
      assert IsNil(s.b, r);
    }
  }

  lemma ReceiveCloseKeepsBatcher(s: State, q: Queue)
    requires Inv(s) && Ready(s, q) && Chan(s, q).queue == []
    ensures BatcherOk(Receive(s, q)) && ClosedOk(Receive(s, q))
  {
    var s' := Receive(s, q);
    assert Delivered(s'.b) == Delivered(s.b);
    forall r ensures Chan(s', r) == Chan(s, r) && IsNil(s'.b, r) == (IsNil(s.b, r) || r == q) {
    }
  }

  lemma ReceiveKeepsInv(s: State, q: Queue)
    requires Inv(s) && Ready(s, q) && s.b.pc != Finished
    requires q == PriorityQueue && !s.b.bulkNil ==> s.b.burst < MESSAGE_PRIORITY_BURST
    ensures Inv(Receive(s, q))
  {
    ReceiveKeepsFairness(s, q);
    if Chan(s, q).queue != [] {
      assert QueueInv(s, q);
      ReceiveMessageKeepsBatcher(s, q);
      ReceiveKeepsQueues(s, q);
    } else {
      ReceiveCloseKeepsBatcher(s, q);
      QuietBatchKeepsQueues(s, Receive(s, q).b);
    }
  }

  lemma FlushKeepsInv(s: State, pc: Pc)
    requires Inv(s) && (pc == Top || (pc == Finished && s.b.stateNil && s.b.priorityNil && s.b.bulkNil))
    ensures Inv(s.(b := Flush(s.b).(pc := pc)))
  {
    var b := Flush(s.b).(pc := pc);
    FlushDelivers(s.b);
    assert Delivered(b) == Delivered(Flush(s.b));
    FlushKeepsBatcher(s, pc);
    QuietBatchKeepsInv(s, b);
  }

  /** A change of the batcher that neither takes nor loses a message. */
  lemma QuietBatchKeepsInv(s: State, b: Batcher)
    requires Inv(s) && Delivered(b) == Delivered(s.b) && b.burst == s.b.burst && BatcherOk(s.(b := b))
    ensures Inv(s.(b := b))
  {
    QuietBatchKeepsQueues(s, b);
  }

  lemma FlushKeepsBatcher(s: State, pc: Pc)
    requires BatcherOk(s) && (pc == Top || (pc == Finished && s.b.stateNil && s.b.priorityNil && s.b.bulkNil))
    ensures BatcherOk(s.(b := Flush(s.b).(pc := pc)))
  {
    var b := Flush(s.b).(pc := pc);
    FlushDelivers(s.b);
    assert Delivered(b) == Delivered(Flush(s.b));
    forall q ensures IsNil(b, q) == IsNil(s.b, q) && Chan(s.(b := b), q) == Chan(s, q) {
    }
  }

  /** A poll that finds nothing moves on to the next one. */
  lemma PollKeepsInv(s: State, b: Batcher)
    requires Inv(s)
    requires b == s.b.(pc := b.pc, burst := b.burst) && b.pc != Finished
    requires b.burst == s.b.burst || (b.burst == 0 && s.bulk.queue == [])
    requires (b.pc == PollPriority || b.pc == WaitAny) && !b.bulkNil ==> b.burst < MESSAGE_PRIORITY_BURST
    requires !(b.stateNil && b.priorityNil && b.bulkNil)
    ensures Inv(s.(b := b))
  {
    QuietBatchKeepsQueues(s, b);
    forall q ensures IsNil(b, q) == IsNil(s.b, q) && Chan(s.(b := b), q) == Chan(s, q) {
    }
  }

  lemma BatchKeepsInv(s: State, pick: Pick)
    requires Inv(s) && CanBatch(s, pick)
    ensures Inv(BatchStep(s, pick))
  {
    var b := s.b;
    match b.pc {
      case Top =>
        if b.stateNil && b.priorityNil && b.bulkNil { FlushKeepsInv(s, Finished); }
        else if Ready(s, StateQueue) { ReceiveKeepsInv(s, StateQueue); }
        else { PollKeepsInv(s, b.(pc := PollBulk)); }
      case PollBulk =>
        if b.burst >= MESSAGE_PRIORITY_BURST && !b.bulkNil {
          if Ready(s, BulkQueue) { ReceiveKeepsInv(s, BulkQueue); }
          else { PollKeepsInv(s, b.(burst := 0, pc := PollPriority)); }
        } else {
          PollKeepsInv(s, b.(pc := PollPriority));
        }
      case PollPriority =>
        if Ready(s, PriorityQueue) { ReceiveKeepsInv(s, PriorityQueue); }
        else { PollKeepsInv(s, b.(pc := WaitAny)); }
      case WaitAny =>
        match pick {
          case PickQueue(q) => ReceiveKeepsInv(s, q);
          case PickDeadline => FlushKeepsInv(s, Top);
        }
      case Finished =>
    }
  }

  /** Every step of the pipeline keeps the invariant. */
  lemma ApplyKeepsInv(s: State, e: Event)
    requires Inv(s) && CanApply(s, e)
    ensures Inv(Apply(s, e))
  {
    match e
    case NewSend(m) => NewSendKeepsInv(s, m);
    case Step(id) => StepKeepsInv(s, id);
    case Close(q) => CloseKeepsInv(s, q);
    case Batch(pick) => BatchKeepsInv(s, pick);
  }
}
