/** What the event pipeline promises over every run. */
module PipelineTheorems {
  import opened Wrappers
  import opened MessagePipeline
  import opened PipelineInvariants

  ghost predicate StepsTo(s: State, s': State) {
    exists e :: CanApply(s, e) && s' == Apply(s, e)
  }

  ghost predicate IsRun(run: seq<State>) {
    && run != [] && run[0] == INIT
    && forall k :: 0 <= k < |run| - 1 ==> StepsTo(run[k], run[k + 1])
  }

  lemma {:induction false} RunsKeepInv(run: seq<State>, k: nat)
    requires IsRun(run) && k < |run|
    ensures Inv(run[k])
  {
    if k == 0 {
      InitHolds();
    } else {
      RunsKeepInv(run, k - 1);
      assert StepsTo(run[k - 1], run[k]);
      var e :| CanApply(run[k - 1], e) && run[k] == Apply(run[k - 1], e);
      ApplyKeepsInv(run[k - 1], e);
    }
  }

  // ----- Loss -----

  lemma {:induction false} EvictionCounts(fates: seq<Fate>, i: nat)
    requires i < |fates| && fates[i].Evicted?
    ensures EvictionsBy(fates, fates[i].sender) >= 1
  {
    if i < |fates| - 1 {
      EvictionCounts(fates[..|fates| - 1], i);
    }
  }

  lemma {:induction false} AllTaken(accepted: seq<nat>, fates: seq<Fate>)
    requires |fates| <= |accepted| && forall i :: 0 <= i < |fates| ==> fates[i].Taken?
    ensures TakenOf(accepted, fates) == accepted[..|fates|]
  {
    if fates == [] {
    } else {
      AllTaken(accepted, fates[..|fates| - 1]);
    }
  }

  /** A message is evicted only by a send to the same queue, at most four by one send, and never by a DNS or
      request-traffic message nor by one of a state. */
  lemma EvictionsAreBounded(run: seq<State>, k: nat, q: Queue, i: nat)
    requires IsRun(run) && k < |run|
    requires i < |Chan(run[k], q).fates| && Chan(run[k], q).fates[i].Evicted?
    ensures var id := Chan(run[k], q).fates[i].sender;
            && id < |run[k].calls|
            && Evicts(run[k].calls[id].message) && QueueOf(run[k].calls[id].message) == q
            && EvictionsBy(Chan(run[k], q).fates, id) <= MESSAGE_EVICT_ATTEMPTS
            && run[k].calls[id].message.kind !in {Dns, RequestTraffic, Loaded, GeoUpdate, RouteChanged}
  {
    var s := run[k];
    RunsKeepInv(run, k);
    assert QueueInv(s, q);
    var id := Chan(s, q).fates[i].sender;
    EvictionCounts(Chan(s, q).fates, i);
    assert CallOk(s.calls[id]);
  }

  /** State messages: everything the queue accepted is delivered, in the batch or still queued, in order. */
  lemma StateMessagesAreConserved(run: seq<State>, k: nat)
    requires IsRun(run) && k < |run|
    ensures Only(run[k].calls, StateQueue, Delivered(run[k].b)) + run[k].state.queue == run[k].state.accepted
  {
    var s := run[k];
    RunsKeepInv(run, k);
    assert QueueInv(s, StateQueue) && Chan(s, StateQueue) == s.state;
    forall i | 0 <= i < |s.state.fates| ensures s.state.fates[i].Taken? {
      if s.state.fates[i].Evicted? {
        EvictionsAreBounded(run, k, StateQueue, i);
      }
    }
    AllTaken(s.state.accepted, s.state.fates);
  }

  /** Every queue: what was delivered is the accepted messages in order without the evicted ones, and those left
      from the front. */
  lemma EveryQueueIsConserved(run: seq<State>, k: nat, q: Queue)
    requires IsRun(run) && k < |run|
    ensures var c := Chan(run[k], q);
            && |c.fates| <= |c.accepted|
            && Only(run[k].calls, q, Delivered(run[k].b)) == TakenOf(c.accepted, c.fates)
            && c.queue == c.accepted[|c.fates|..]
            && |c.queue| <= MESSAGE_QUEUE_SIZE
  {
    RunsKeepInv(run, k);
    assert QueueInv(run[k], q);
  }

  lemma {:induction false} OnlyCounts(calls: seq<Call>, q: Queue, ids: seq<nat>, id: nat)
    requires id < |calls| && QueueOf(calls[id].message) == q
    ensures multiset(Only(calls, q, ids))[id] == multiset(ids)[id]
  {
    if ids == [] {
    } else {
      OnlyCounts(calls, q, ids[..|ids| - 1], id);
      assert ids == ids[..|ids| - 1] + [ids[|ids| - 1]];
    }
  }

  lemma {:induction false} TakenCounts(accepted: seq<nat>, fates: seq<Fate>, id: nat)
    requires |fates| <= |accepted|
    ensures multiset(TakenOf(accepted, fates))[id] <= multiset(accepted[..|fates|])[id]
  {
    if fates == [] {
    } else {
      var n := |fates| - 1;
      TakenCounts(accepted, fates[..n], id);
      assert accepted[..n + 1] == accepted[..n] + [accepted[n]];
    }
  }

  lemma {:induction false} DistinctCounts(s: seq<nat>, id: nat)
    requires forall i, j :: 0 <= i < j < |s| ==> s[i] != s[j]
    ensures multiset(s)[id] <= 1
  {
    if s == [] {
    } else {
      DistinctCounts(s[..|s| - 1], id);
      assert s == s[..|s| - 1] + [s[|s| - 1]];
      assert id == s[|s| - 1] ==> id !in s[..|s| - 1];
    }
  }

  /** Nothing is delivered twice, and nothing that was not accepted is delivered. */
  lemma DeliveredAtMostOnce(run: seq<State>, k: nat, id: nat)
    requires IsRun(run) && k < |run|
    ensures multiset(Delivered(run[k].b))[id] <= 1
    ensures id in Delivered(run[k].b) ==> id < |run[k].calls| && run[k].calls[id].at == Returned(true)
  {
    var s := run[k];
    RunsKeepInv(run, k);
    if id in Delivered(s.b) {
      var q := QueueOf(s.calls[id].message);
      var c := Chan(s, q);
      assert QueueInv(s, q);
      OnlyCounts(s.calls, q, Delivered(s.b), id);
      TakenCounts(c.accepted, c.fates, id);
      DistinctCounts(c.accepted[..|c.fates|], id);
      assert multiset(c.accepted[..|c.fates|])[id] > 0;
      assert id in c.accepted;
    }
  }

  // ----- Batches -----

  /** Every batch sent holds 1 to 32 messages, the one being filled fewer, and its deadline is set exactly
      while it holds any. */
  lemma BatchesAreBounded(run: seq<State>, k: nat)
    requires IsRun(run) && k < |run|
    ensures forall i :: 0 <= i < |run[k].b.sent| ==> 1 <= |run[k].b.sent[i]| <= MESSAGE_BATCH_SIZE
    ensures |run[k].b.batch| < MESSAGE_BATCH_SIZE
    ensures run[k].b.armed <==> run[k].b.batch != []
  {
    RunsKeepInv(run, k);
  }

  // ----- Fairness -----

  function TakenCount(fates: seq<Fate>): nat {
    if fates == [] then 0
    else TakenCount(fates[..|fates| - 1]) + (if fates[|fates| - 1].Taken? then 1 else 0)
  }

  lemma TakenCountDrop(fates: seq<Fate>, fate: Fate)
    ensures TakenCount(fates + [fate]) == TakenCount(fates) + (if fate.Taken? then 1 else 0)
  {
    assert (fates + [fate])[..|fates|] == fates;
  }

  /** A message the batcher receives counts once, for its own queue. */
  lemma ReceiveCounts(s: State, q: Queue)
    requires Ready(s, q)
    ensures var s' := Receive(s, q);
            && TakenCount(s'.bulk.fates) - TakenCount(s.bulk.fates) ==
               (if q == BulkQueue && s.bulk.queue != [] then 1 else 0)
            && TakenCount(s'.priority.fates) - TakenCount(s.priority.fates) ==
               (if q == PriorityQueue && s.priority.queue != [] then 1 else 0)
  {
    TakenCountDrop(s.bulk.fates, Taken);
    TakenCountDrop(s.priority.fates, Taken);
  }

  /** The batcher's receive, or nothing on the queues. */
  lemma BatchReceivesOrNot(s: State, pick: Pick)
    requires CanBatch(s, pick)
    ensures var s' := BatchStep(s, pick);
            || (exists q :: Ready(s, q) && s' == Receive(s, q))
            || (s'.bulk == s.bulk && s'.priority == s.priority && s'.starved == s.starved)
  {
  }

  lemma SendTakesNothing(c: Channel, id: nat, call: Call)
    ensures TakenCount(SendStep(c, id, call).0.fates) == TakenCount(c.fates)
  {
    TakenCountDrop(c.fates, Evicted(id));
  }

  /** A step of a send, its arrival and the end of its queue take nothing. */
  lemma SendersTakeNothing(s: State, e: Event)
    requires CanApply(s, e) && !e.Batch?
    ensures var s' := Apply(s, e);
            && TakenCount(s'.bulk.fates) == TakenCount(s.bulk.fates)
            && TakenCount(s'.priority.fates) == TakenCount(s.priority.fates)
            && (s'.bulk.queue != [] ==> s'.starved == s.starved)
  {
    if e.Step? {
      SendTakesNothing(Chan(s, QueueOf(s.calls[e.id].message)), e.id, s.calls[e.id]);
    }
  }

  lemma BulkTakenStep(s: State, e: Event)
    requires CanApply(s, e)
    ensures TakenCount(Apply(s, e).bulk.fates) >= TakenCount(s.bulk.fates)
  {
    if e.Batch? {
      BatchReceivesOrNot(s, e.pick);
      if q :| Ready(s, q) && BatchStep(s, e.pick) == Receive(s, q) {
        ReceiveCounts(s, q);
      }
    } else {
      SendersTakeNothing(s, e);
    }
  }

  lemma ReceiveStarves(s: State, q: Queue)
    requires Ready(s, q) && s.bulk.queue != [] && q != BulkQueue
    ensures Receive(s, q).starved == s.starved + (if q == PriorityQueue && s.priority.queue != [] then 1 else 0)
  {
  }

  /** While bulk is neither empty nor served, starved counts the priority messages taken. */
  lemma StarvedCounts(s: State, e: Event)
    requires CanApply(s, e)
    requires s.bulk.queue != [] && Apply(s, e).bulk.queue != []
    requires TakenCount(Apply(s, e).bulk.fates) == TakenCount(s.bulk.fates)
    ensures Apply(s, e).starved - s.starved == TakenCount(Apply(s, e).priority.fates) - TakenCount(s.priority.fates)
  {
    if e.Batch? {
      BatchReceivesOrNot(s, e.pick);
      if q :| Ready(s, q) && BatchStep(s, e.pick) == Receive(s, q) {
        ReceiveCounts(s, q);
        ReceiveStarves(s, q);
      }
    } else {
      SendersTakeNothing(s, e);
    }
  }

  /** While bulk messages wait all the time, at most 8 priority messages are taken before a bulk one is. */
  lemma {:induction false} BulkIsNotStarved(run: seq<State>, a: nat, b: nat)
    requires IsRun(run) && a <= b < |run|
    requires forall k :: a <= k <= b ==> run[k].bulk.queue != []
    requires TakenCount(run[b].bulk.fates) == TakenCount(run[a].bulk.fates)
    ensures TakenCount(run[b].priority.fates) - TakenCount(run[a].priority.fates) == run[b].starved - run[a].starved
    ensures TakenCount(run[b].priority.fates) - TakenCount(run[a].priority.fates) <= MESSAGE_PRIORITY_BURST
    decreases b - a
  {
    if a < b {
      assert StepsTo(run[a], run[a + 1]);
      var e :| CanApply(run[a], e) && run[a + 1] == Apply(run[a], e);
      BulkTakenStep(run[a], e);
      BulkTakenGrows(run, a + 1, b);
      StarvedCounts(run[a], e);
      BulkIsNotStarved(run, a + 1, b);
    }
    RunsKeepInv(run, b);
    assert QueueInv(run[b], BulkQueue);
    assert IsNil(run[b].b, BulkQueue) ==> Chan(run[b], BulkQueue).queue == [];
  }

  lemma {:induction false} BulkTakenGrows(run: seq<State>, a: nat, b: nat)
    requires IsRun(run) && a <= b < |run|
    ensures TakenCount(run[a].bulk.fates) <= TakenCount(run[b].bulk.fates)
    decreases b - a
  {
    if a >= b {
    } else {
      assert StepsTo(run[a], run[a + 1]);
      var e :| CanApply(run[a], e) && run[a + 1] == Apply(run[a], e);
      BulkTakenStep(run[a], e);
      BulkTakenGrows(run, a + 1, b);
    }
  }

  // ----- Draining -----

  ghost predicate AllClosed(s: State) {
    s.state.closed && s.priority.closed && s.bulk.closed
  }

  function OpenCount(b: Batcher): nat {
    (if b.stateNil then 0 else 1) + (if b.priorityNil then 0 else 1) + (if b.bulkNil then 0 else 1)
  }

  function PcRank(pc: Pc): nat {
    match pc case Top => 4 case PollBulk => 3 case PollPriority => 2 case WaitAny => 1 case Finished => 0
  }

  /** Queued messages and open queues weigh most, then the deadline, then the place in the turn. */
  function Work(s: State): nat {
    10 * (|s.state.queue| + |s.priority.queue| + |s.bulk.queue| + OpenCount(s.b)) +
    (if s.b.armed then 5 else 0) + PcRank(s.b.pc)
  }

  /** Once every queue is closed, nobody but the batcher moves. */
  lemma OnlyTheBatcherMoves(s: State, e: Event)
    requires Inv(s) && AllClosed(s) && CanApply(s, e)
    ensures e.Batch? || (e.Close? && Apply(s, e) == s)
  {
    assert forall q :: Chan(s, q).closed;
  }

  lemma ReceiveLowersWork(s: State, q: Queue)
    requires AllClosed(s) && Ready(s, q)
    ensures Work(Receive(s, q)) < Work(s.(b := s.b.(pc := WaitAny))) && AllClosed(Receive(s, q))
  {
  }

  /** The queue this step receives from, if it receives. */
  function ReceivesFrom(s: State, pick: Pick): Option<Queue>
    requires CanBatch(s, pick)
  {
    var b := s.b;
    match b.pc
    case Top => if !(b.stateNil && b.priorityNil && b.bulkNil) && Ready(s, StateQueue) then Some(StateQueue) else None
    case PollBulk =>
      if b.burst >= MESSAGE_PRIORITY_BURST && !b.bulkNil && Ready(s, BulkQueue) then Some(BulkQueue) else None
    case PollPriority => if Ready(s, PriorityQueue) then Some(PriorityQueue) else None
    case WaitAny => if pick.PickQueue? then Some(pick.q) else None
    case Finished => None
  }

  lemma ReceivingStep(s: State, pick: Pick)
    requires CanBatch(s, pick) && ReceivesFrom(s, pick).Some?
    ensures Ready(s, ReceivesFrom(s, pick).value) && BatchStep(s, pick) == Receive(s, ReceivesFrom(s, pick).value)
  {
  }

  lemma WaitingIsLeastWork(s: State)
    requires s.b.pc != Finished
    ensures Work(s.(b := s.b.(pc := WaitAny))) <= Work(s)
  {
  }

  lemma BatchLowersWork(s: State, pick: Pick)
    requires BatcherOk(s) && AllClosed(s) && CanBatch(s, pick)
    ensures Work(BatchStep(s, pick)) < Work(s) && AllClosed(BatchStep(s, pick))
  {
    if ReceivesFrom(s, pick).Some? {
      ReceivingStep(s, pick);
      ReceiveLowersWork(s, ReceivesFrom(s, pick).value);
      WaitingIsLeastWork(s);
    } else {
      QuietBatchLowersWork(s, pick);
    }
  }

  lemma QuietBatchLowersWork(s: State, pick: Pick)
    requires BatcherOk(s) && AllClosed(s) && CanBatch(s, pick) && ReceivesFrom(s, pick).None?
    ensures Work(BatchStep(s, pick)) < Work(s) && AllClosed(BatchStep(s, pick))
  {
  }

  /** The batcher is never stuck before it has finished. */
  lemma SomePickIsReady(s: State)
    requires Inv(s) && AllClosed(s) && s.b.pc != Finished
    ensures exists pick :: CanBatch(s, pick)
  {
    if s.b.pc != WaitAny {
      assert CanBatch(s, PickDeadline);
    } else if !s.b.stateNil {
      assert CanBatch(s, PickQueue(StateQueue));
    } else if !s.b.priorityNil {
      assert CanBatch(s, PickQueue(PriorityQueue));
    } else if !s.b.bulkNil {
      assert CanBatch(s, PickQueue(BulkQueue));
    }
  }

  /** The state after these choices of the batcher, if each can be made. */
  ghost function Drained(s: State, picks: seq<Pick>): Option<State>
    decreases |picks|
  {
    if picks == [] then Some(s)
    else if CanBatch(s, picks[0]) then Drained(BatchStep(s, picks[0]), picks[1..])
    else None
  }

  /** Once every queue is closed the loop ends, whatever its selects choose. */
  lemma {:induction false} DrainingEnds(s: State, picks: seq<Pick>)
    requires Inv(s) && AllClosed(s) && Drained(s, picks).Some?
    ensures |picks| <= Work(s)
    ensures Inv(Drained(s, picks).value) && AllClosed(Drained(s, picks).value)
    decreases |picks|
  {
    if picks == [] {
    } else {
      BatchLowersWork(s, picks[0]);
      BatchKeepsInv(s, picks[0]);
      DrainingEnds(BatchStep(s, picks[0]), picks[1..]);
    }
  }

  /** Where it has ended, everything accepted and not evicted has been sent. */
  lemma FinishedMeansFlushed(s: State, q: Queue)
    requires Inv(s) && s.b.pc == Finished
    ensures var c := Chan(s, q);
            && c.queue == [] && |c.fates| == |c.accepted|
            && Only(s.calls, q, Flatten(s.b.sent)) == TakenOf(c.accepted, c.fates)
  {
    assert QueueInv(s, q);
    assert IsNil(s.b, q);
    assert Delivered(s.b) == Flatten(s.b.sent);
  }
}
