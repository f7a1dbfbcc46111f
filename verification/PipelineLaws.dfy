/** What becomes of the messages of every kind, and which of those that wait goes first. */
module PipelineLaws {
  import opened MessagePipeline
  import opened PipelineInvariants
  import opened PipelineTheorems

  // ----- Kinds -----

  /** The kinds of messages a queue takes. */
  function Kinds(q: Queue): set<MessageType> {
    match q
    case StateQueue => {Loaded, GeoUpdate, RouteChanged}
    case PriorityQueue => {Delay, DialerLoop, Other}
    case BulkQueue => {Log, Request, Dns, RequestTraffic}
  }

  /** These give up at once where there is no room. */
  const NEVER_EVICT: set<MessageType> := {Loaded, GeoUpdate, RouteChanged, Dns, RequestTraffic}

  lemma KindsOfQueues(m: Message)
    ensures forall q :: QueueOf(m) == q <==> m.kind in Kinds(q)
    ensures Evicts(m) <==> m.kind !in NEVER_EVICT
  {
  }

  /** In every run a queue holds messages of its kinds alone. */
  lemma AcceptedByKind(run: seq<State>, k: nat, q: Queue, id: nat)
    requires IsRun(run) && k < |run| && id in Chan(run[k], q).accepted
    ensures id < |run[k].calls| && run[k].calls[id].message.kind in Kinds(q)
  {
    RunsKeepInv(run, k);
    assert QueueInv(run[k], q);
    KindsOfQueues(run[k].calls[id].message);
  }

  /** And a message of these kinds never makes room for itself. */
  lemma YieldersNeverEvict(run: seq<State>, k: nat, id: nat)
    requires IsRun(run) && k < |run| && id < |run[k].calls| && run[k].calls[id].message.kind in NEVER_EVICT
    ensures !run[k].calls[id].at.Evicting? && run[k].calls[id].evictions == 0
  {
    RunsKeepInv(run, k);
    KindsOfQueues(run[k].calls[id].message);
    assert CallOk(run[k].calls[id]);
  }

  // ----- One try of a send -----

  /** A try is taken at the queue's end exactly if there is room. Without room a message that never evicts is refused,
      and any other goes on to evict. */
  lemma TrySucceedsExactly(s: State, id: nat, q: Queue)
    requires CanApply(s, Step(id)) && s.calls[id].at.Sending? && s.calls[id].message.kind in Kinds(q)
    ensures var c, s' := Chan(s, q), Apply(s, Step(id));
            if |c.queue| < MESSAGE_QUEUE_SIZE
            then s'.calls[id].at == Returned(true) && Chan(s', q).queue == c.queue + [id]
            else
              && Chan(s', q) == c
              && s'.calls[id].at == if s.calls[id].message.kind in NEVER_EVICT then Returned(false)
                                    else Evicting(s.calls[id].at.attempt)
  {
    KindsOfQueues(s.calls[id].message);
  }

  /** An eviction takes the oldest message that waits, if one still does, and after the fourth the send gives up. */
  lemma EvictionTakesOldest(s: State, id: nat, q: Queue)
    requires CanApply(s, Step(id)) && s.calls[id].at.Evicting? && s.calls[id].message.kind in Kinds(q)
    ensures var c, s', attempt := Chan(s, q), Apply(s, Step(id)), s.calls[id].at.attempt;
            && Chan(s', q).queue == (if c.queue == [] then [] else c.queue[1..])
            && s'.calls[id].at == if attempt < 3 then Sending(attempt + 1) else Returned(false)
  {
    KindsOfQueues(s.calls[id].message);
  }

  /** At some moment before k the send found its queue full and went on to evict for this attempt. */
  ghost predicate FoundFull(run: seq<State>, k: nat, id: nat, attempt: nat) {
    exists j: nat ::
      && j + 1 <= k < |run| && id < |run[j].calls| && id < |run[j + 1].calls|
      && run[j].calls[id].at == Sending(attempt) && run[j + 1].calls[id].at == Evicting(attempt)
      && |Chan(run[j], QueueOf(run[j].calls[id].message)).queue| >= MESSAGE_QUEUE_SIZE
  }

  /** How often a send that may evict has found its queue full. */
  function Rounds(at: CallAt): nat {
    match at
    case Sending(attempt) => attempt
    case Evicting(attempt) => attempt + 1
    case Returned(queued) => if queued then 0 else MESSAGE_EVICT_ATTEMPTS
  }

  /** How a step changes one call. */
  lemma CallMoves(s: State, e: Event, id: nat)
    requires CanApply(s, e) && id < |s.calls|
    ensures id < |Apply(s, e).calls| && Apply(s, e).calls[id].message == s.calls[id].message
    ensures e != Step(id) ==> Apply(s, e).calls[id] == s.calls[id]
  {
  }

  /** A step that adds a round is a try that finds the queue full. */
  lemma RoundsStep(s: State, e: Event, id: nat)
    requires CanApply(s, e) && id < |s.calls| && s.calls[id].message.kind !in NEVER_EVICT && CallOk(s.calls[id])
    ensures var at, at' := s.calls[id].at, Apply(s, e).calls[id].at;
            Rounds(at') > Rounds(at) ==>
              && at.Sending? && at' == Evicting(at.attempt) && Rounds(at') == Rounds(at) + 1
              && |Chan(s, QueueOf(s.calls[id].message)).queue| >= MESSAGE_QUEUE_SIZE
  {
    CallMoves(s, e, id);
    KindsOfQueues(s.calls[id].message);
  }

  lemma FoundFullBefore(run: seq<State>, k: nat, id: nat, attempt: nat)
    requires k + 1 < |run| && FoundFull(run, k, id, attempt)
    ensures FoundFull(run, k + 1, id, attempt)
  {
  }

  lemma RoundAdded(run: seq<State>, k: nat, e: Event, id: nat, attempt: nat)
    requires k + 1 < |run| && CanApply(run[k], e) && run[k + 1] == Apply(run[k], e)
    requires id < |run[k].calls| && CallOk(run[k].calls[id]) && run[k].calls[id].message.kind !in NEVER_EVICT
    requires id < |run[k + 1].calls|
    requires Rounds(run[k].calls[id].at) <= attempt < Rounds(run[k + 1].calls[id].at)
    ensures FoundFull(run, k + 1, id, attempt)
  {
    RoundsStep(run[k], e, id);
  }

  lemma NewCallBegins(s: State, e: Event, id: nat)
    requires CanApply(s, e) && |s.calls| <= id < |Apply(s, e).calls|
    ensures Apply(s, e).calls[id].at == Sending(0)
  {
  }

  lemma {:induction false} EveryRoundWasFull(run: seq<State>, k: nat, id: nat, attempt: nat)
    requires IsRun(run) && k < |run| && id < |run[k].calls| && run[k].calls[id].message.kind !in NEVER_EVICT
    requires attempt < Rounds(run[k].calls[id].at)
    ensures FoundFull(run, k, id, attempt)
  {
    if k == 0 {
    } else {
      assert StepsTo(run[k - 1], run[k]);
      var e :| CanApply(run[k - 1], e) && run[k] == Apply(run[k - 1], e);
      CallsAreOk(run, k - 1);
      if id >= |run[k - 1].calls| {
        NewCallBegins(run[k - 1], e, id);
      } else {
        CallMoves(run[k - 1], e, id);
        if attempt < Rounds(run[k - 1].calls[id].at) {
          EveryRoundWasFull(run, k - 1, id, attempt);
          FoundFullBefore(run, k - 1, id, attempt);
        } else {
          RoundAdded(run, k - 1, e, id, attempt);
        }
      }
    }
  }

  lemma CallsAreOk(run: seq<State>, k: nat)
    requires IsRun(run) && k < |run|
    ensures CallsOk(run[k])
  {
    RunsKeepInv(run, k);
  }

  /** A log, request or priority message is given up only after it has found its queue full four times, and evicted or
      found it emptied after each. */
  lemma GivesUpAfterFour(run: seq<State>, k: nat, id: nat, attempt: nat)
    requires IsRun(run) && k < |run| && id < |run[k].calls| && run[k].calls[id].at == Returned(false)
    requires run[k].calls[id].message.kind in {Log, Request, Delay, DialerLoop, Other} && attempt < 4
    ensures FoundFull(run, k, id, attempt)
  {
    EveryRoundWasFull(run, k, id, attempt);
  }

  // ----- Which queue goes first -----

  /** Step k of a run, from a state that keeps the invariant. */
  ghost predicate StepAt(run: seq<State>, k: nat) {
    k + 1 < |run| && Inv(run[k]) && StepsTo(run[k], run[k + 1])
  }

  ghost predicate IsWalk(run: seq<State>) {
    forall k: nat :: k + 1 < |run| ==> StepAt(run, k)
  }

  lemma RunIsWalk(run: seq<State>)
    requires IsRun(run)
    ensures IsWalk(run)
  {
    forall k: nat | k + 1 < |run| ensures StepAt(run, k) {
      RunsKeepInv(run, k);
    }
  }

  /** While state messages wait the batcher is on its way to them. */
  function Detour(s: State): nat {
    if s.b.pc == Top then 0 else 1
  }

  lemma DeliveredOneMore(s: State, q: Queue)
    requires Ready(s, q)
    ensures |Delivered(Receive(s, q).b)| == |Delivered(s.b)| + (if Chan(s, q).queue == [] then 0 else 1)
  {
    if Chan(s, q).queue != [] {
      ReceiveEffects(s, q);
    }
  }

  /** With a state message waiting, a turn of the loop takes it first. */
  lemma TurnTakesState(s: State, pick: Pick)
    requires CanBatch(s, pick) && s.b.pc == Top && s.state.queue != [] && !s.b.stateNil
    ensures var s' := BatchStep(s, pick);
            s'.state.queue == s.state.queue[1..] && s'.priority == s.priority && s'.bulk == s.bulk
            && TakenCount(s'.state.fates) == TakenCount(s.state.fates) + 1
  {
    TakenCountDrop(s.state.fates, Taken);
  }

  /** A step that receives nothing leaves the batcher's messages as they are, sent or not. */
  lemma QuietStep(s: State, pick: Pick)
    requires CanBatch(s, pick) && ReceivesFrom(s, pick).None?
    ensures var b, b' := s.b, BatchStep(s, pick).b;
            (b'.sent == b.sent && b'.batch == b.batch) || (b'.sent == Flush(b).sent && b'.batch == Flush(b).batch)
    ensures BatchStep(s, pick).state == s.state && BatchStep(s, pick).priority == s.priority
            && BatchStep(s, pick).bulk == s.bulk
  {
  }

  lemma QuietDelivers(s: State, pick: Pick)
    requires CanBatch(s, pick) && ReceivesFrom(s, pick).None?
    ensures Delivered(BatchStep(s, pick).b) == Delivered(s.b)
  {
    QuietStep(s, pick);
    FlushDelivers(s.b);
  }

  lemma DeliversOrNot(s: State, pick: Pick)
    requires CanBatch(s, pick) && (s.b.pc == Top ==> s.state.queue == [] || s.b.stateNil)
    ensures var s' := BatchStep(s, pick);
            s.b.pc != Top ==> |Delivered(s'.b)| + Detour(s') <= |Delivered(s.b)| + Detour(s)
  {
    if ReceivesFrom(s, pick).Some? {
      ReceivingStep(s, pick);
      DeliveredOneMore(s, ReceivesFrom(s, pick).value);
    } else {
      QuietDelivers(s, pick);
    }
  }

  /** What left a queue stays gone. */
  lemma FatesGrow(s: State, e: Event, q: Queue)
    requires CanApply(s, e)
    ensures var fates, fates' := Chan(s, q).fates, Chan(Apply(s, e), q).fates;
            fates' == fates || exists fate :: fates' == fates + [fate]
  {
    if e.Batch? {
      if ReceivesFrom(s, e.pick).Some? {
        ReceivingStep(s, e.pick);
      } else {
        QuietStep(s, e.pick);
      }
    }
  }

  lemma TakenStep(s: State, e: Event, q: Queue)
    requires CanApply(s, e)
    ensures TakenCount(Chan(Apply(s, e), q).fates) >= TakenCount(Chan(s, q).fates)
  {
    FatesGrow(s, e, q);
    if fate :| Chan(Apply(s, e), q).fates == Chan(s, q).fates + [fate] {
      TakenCountDrop(Chan(s, q).fates, fate);
    }
  }

  lemma TakenInStep(s: State, s': State, q: Queue)
    requires StepsTo(s, s')
    ensures TakenCount(Chan(s, q).fates) <= TakenCount(Chan(s', q).fates)
  {
    var e :| CanApply(s, e) && s' == Apply(s, e);
    TakenStep(s, e, q);
  }

  lemma {:induction false} TakenGrows(run: seq<State>, a: nat, b: nat, q: Queue)
    requires IsWalk(run) && a <= b < |run|
    ensures TakenCount(Chan(run[a], q).fates) <= TakenCount(Chan(run[b], q).fates)
    decreases b - a
  {
    if a >= b {
    } else {
      TakenGrows(run, a, b - 1, q);
      assert StepAt(run, b - 1);
      TakenInStep(run[b - 1], run[b], q);
    }
  }

  lemma SendersDeliverNothing(s: State, e: Event)
    requires CanApply(s, e) && !e.Batch?
    ensures Apply(s, e).b == s.b
  {
  }

  lemma WaitingStateStep(s: State, e: Event)
    requires Inv(s) && CanApply(s, e) && s.state.queue != []
    requires TakenCount(Apply(s, e).state.fates) == TakenCount(s.state.fates)
    ensures |Delivered(Apply(s, e).b)| + Detour(Apply(s, e)) <= |Delivered(s.b)| + Detour(s)
  {
    assert IsNil(s.b, StateQueue) ==> Chan(s, StateQueue).queue == [];
    if !e.Batch? {
      SendersDeliverNothing(s, e);
    } else if s.b.pc == Top {
      TurnTakesState(s, e.pick);
    } else {
      DeliversOrNot(s, e.pick);
    }
  }

  lemma WaitingStateInStep(s: State, s': State)
    requires Inv(s) && StepsTo(s, s') && s.state.queue != [] && TakenCount(s'.state.fates) == TakenCount(s.state.fates)
    ensures |Delivered(s'.b)| + Detour(s') <= |Delivered(s.b)| + Detour(s)
  {
    var e :| CanApply(s, e) && s' == Apply(s, e);
    WaitingStateStep(s, e);
  }

  lemma NoneTakenSoFar(run: seq<State>, a: nat, b: nat)
    requires IsWalk(run) && a < b < |run| && TakenCount(run[b].state.fates) == TakenCount(run[a].state.fates)
    ensures TakenCount(run[b - 1].state.fates) == TakenCount(run[a].state.fates)
  {
    TakenGrows(run, a, b - 1, StateQueue);
    assert StepAt(run, b - 1);
    TakenInStep(run[b - 1], run[b], StateQueue);
  }

  lemma {:induction false} DetourShortens(run: seq<State>, a: nat, b: nat)
    requires IsWalk(run) && a <= b < |run| && forall k :: a <= k <= b ==> run[k].state.queue != []
    requires TakenCount(run[b].state.fates) == TakenCount(run[a].state.fates)
    ensures |Delivered(run[b].b)| + Detour(run[b]) <= |Delivered(run[a].b)| + Detour(run[a])
    decreases b - a
  {
    if a >= b {
    } else {
      NoneTakenSoFar(run, a, b);
      DetourShortens(run, a, b - 1);
      assert StepAt(run, b - 1);
      WaitingStateInStep(run[b - 1], run[b]);
    }
  }

  /** State messages go first: while they wait and none is taken, at most one message of another queue is. */
  lemma StateGoesFirst(run: seq<State>, a: nat, b: nat)
    requires IsRun(run) && a <= b < |run| && forall k :: a <= k <= b ==> run[k].state.queue != []
    requires TakenCount(run[b].state.fates) == TakenCount(run[a].state.fates)
    ensures |Delivered(run[b].b)| <= |Delivered(run[a].b)| + 1
  {
    RunIsWalk(run);
    DetourShortens(run, a, b);
  }

  /** Bulk messages taken weigh 8 each, priority messages taken pay for them. */
  function Debt(s: State): int {
    8 * TakenCount(s.bulk.fates) - TakenCount(s.priority.fates) + s.b.burst + (if s.b.pc == WaitAny then 8 else 0)
  }

  lemma ReceiveKeepsDebt(s: State, q: Queue)
    requires Ready(s, q) && (q == BulkQueue ==> s.b.burst >= MESSAGE_PRIORITY_BURST || s.b.pc == WaitAny)
    ensures Debt(Receive(s, q)) <= Debt(s)
  {
    ReceiveCounts(s, q);
  }

  lemma QuietKeepsDebt(s: State, pick: Pick)
    requires CanBatch(s, pick) && ReceivesFrom(s, pick).None? && Ready(s, PriorityQueue)
    ensures Debt(BatchStep(s, pick)) <= Debt(s)
  {
    QuietStep(s, pick);
  }

  lemma WaitingPriorityStep(s: State, e: Event)
    requires Inv(s) && CanApply(s, e) && s.priority.queue != []
    ensures Debt(Apply(s, e)) <= Debt(s)
  {
    assert IsNil(s.b, PriorityQueue) ==> Chan(s, PriorityQueue).queue == [];
    if !e.Batch? {
      SendersDeliverNothing(s, e);
      SendersTakeNothing(s, e);
    } else if ReceivesFrom(s, e.pick).Some? {
      ReceivingStep(s, e.pick);
      ReceiveKeepsDebt(s, ReceivesFrom(s, e.pick).value);
    } else {
      QuietKeepsDebt(s, e.pick);
    }
  }

  lemma WaitingPriorityInStep(s: State, s': State)
    requires Inv(s) && StepsTo(s, s') && s.priority.queue != []
    ensures Debt(s') <= Debt(s)
  {
    var e :| CanApply(s, e) && s' == Apply(s, e);
    WaitingPriorityStep(s, e);
  }

  lemma {:induction false} DebtFalls(run: seq<State>, a: nat, b: nat)
    requires IsWalk(run) && a <= b < |run| && forall k :: a <= k <= b ==> run[k].priority.queue != []
    ensures Debt(run[b]) <= Debt(run[a])
    decreases b - a
  {
    if a >= b {
    } else {
      DebtFalls(run, a, b - 1);
      assert StepAt(run, b - 1);
      WaitingPriorityInStep(run[b - 1], run[b]);
    }
  }

  /** Priority goes before bulk: while priority messages wait, each bulk message taken is paid for by 8 of them, those
      of the burst under way counted, and one more bulk message aside if the batcher was already at its blocking
      select. */
  lemma PriorityGoesBeforeBulk(run: seq<State>, a: nat, b: nat)
    requires IsRun(run) && a <= b < |run| && forall k :: a <= k <= b ==> run[k].priority.queue != []
    ensures 8 * (TakenCount(run[b].bulk.fates) - TakenCount(run[a].bulk.fates)) <=
            TakenCount(run[b].priority.fates) - TakenCount(run[a].priority.fates)
            + run[a].b.burst + (if run[a].b.pc == WaitAny then 8 else 0)
  {
    RunIsWalk(run);
    DebtFalls(run, a, b);
  }
}
