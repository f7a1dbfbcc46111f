/** What holds of every run of the run-intent state machine once nothing is in flight. */
module RunStateTheorems {
  import opened Wrappers
  import opened RunStateMachine
  import opened RunStateInvariants

  ghost predicate StepsTo(s: State, s': State) {
    exists e :: CanApply(s, e) && s' == Apply(s, e)
  }

  /** A run: from the initial state, one step of the world or of a task after the other. */
  ghost predicate IsRun(run: seq<State>) {
    && run != [] && run[0] == INIT
    && forall k :: 0 <= k < |run| - 1 ==> StepsTo(run[k], run[k + 1])
  }

  lemma {:induction false} RunsKeepInv(run: seq<State>, k: nat)
    requires IsRun(run) && k < |run|
    ensures Inv(run[k])
  {
    if k == 0 {
      InitHolds();
    } else {
      RunsKeepInv(run, k - 1);
      assert StepsTo(run[k - 1], run[k]);
      var e :| CanApply(run[k - 1], e) && run[k] == Apply(run[k - 1], e);
      StepKeepsInv(run[k - 1], e);
    }
  }

  ghost predicate Quiescent(s: State) {
    forall i :: 0 <= i < |s.tasks| ==> IsDone(s.tasks[i])
  }

  /** With nothing in flight what is shown is what runs: nothing after a stop or a failed start; after a start
      something, unless it was lost or that start crashed, and it was answered with success unless it crashed. */
  lemma AtRest(run: seq<State>, k: nat)
    requires IsRun(run) && k < |run| && Quiescent(run[k])
    ensures RestFollows(run[k])
  {
    var s := run[k];
    RunsKeepInv(run, k);
    assert forall i :: 0 <= i < |s.tasks| ==> !HoldsTransitionLock(s.tasks[i]);
    assert forall i :: 0 <= i < |s.tasks| ==> !WillStop(s.g, s.tasks[i]) && !WillPublish(s.g, s.tasks[i]);
    if RunRequested(s.g) {
      var i :| 0 <= i < |s.tasks| && IsNewestStart(s.g, s.tasks[i]);
      assert TokenFits(s.g.tokens, s.tasks[i]) && IsDone(s.tasks[i]);
      assert s.tasks[i] == Start(Newest(s.g), Done(s.tasks[i].at.outcome));
      forall j | 0 <= j < |s.tasks| && j != i ensures !IsNewestStart(s.g, s.tasks[j]) {
        assert if j < i then !SameRequest(s.tasks[j], s.tasks[i]) else !SameRequest(s.tasks[i], s.tasks[j]);
      }
    }
  }

  ghost predicate RestFollows(s: State) {
    && (!RunRequested(s.g) ==> s.g.runtime.None? && s.g.published == STOPPED)
    && (RunRequested(s.g) && s.g.runtime.Some? ==> s.g.published == STARTED)
    && (RunRequested(s.g) && s.g.runtime.None? ==>
          s.g.published == STOPPED && (s.g.lost || IsAnswered(s, Newest(s.g), Crashed)))
    && (RunRequested(s.g) ==>
          (IsAnswered(s, Newest(s.g), Started) <==> !IsAnswered(s, Newest(s.g), Crashed)))
  }

  /** The start request of this number ended so. */
  ghost predicate IsAnswered(s: State, req: nat, outcome: Outcome) {
    exists i :: 0 <= i < |s.tasks| && s.tasks[i] == Start(req, Done(outcome))
  }

  /** A start whose preferences cannot be loaded leaves its intent standing: nothing runs or is on its way, and still a
      run counts as asked for. */
  lemma CrashedStartStands()
    ensures exists run :: IsRun(run) && var s := run[|run| - 1];
              Quiescent(s) && RunRequested(s.g) && s.g.runtime.None? && !s.g.lost && s.g.published == STOPPED
  {
    var prompted := Choice(true, Up);
    var crash := Choice(true, Threw(None));
    var s1 := Apply(INIT, RequestStart);
    var s2 := Apply(s1, Move(0, prompted));
    var s3 := Apply(s2, Move(0, crash));
    var run := [INIT, s1, s2, s3];
    assert StepsTo(run[0], run[1]) && StepsTo(run[1], run[2]) && StepsTo(run[2], run[3]);
    assert s3.tasks == [Start(1, Done(Crashed))];
    assert IsRun(run);
  }

  /** At every moment of every run, a service that nobody asks for is about to be taken down. */
  lemma NoServiceIsLeftUnasked(run: seq<State>, k: nat)
    requires IsRun(run) && k < |run|
    requires run[k].g.runtime.Some? && !RunRequested(run[k].g)
    ensures exists i :: 0 <= i < |run[k].tasks| && !IsDone(run[k].tasks[i]) && WillStop(run[k].g, run[k].tasks[i])
  {
    RunsKeepInv(run, k);
    var i :| 0 <= i < |run[k].tasks| && WillStop(run[k].g, run[k].tasks[i]);
    assert !IsDone(run[k].tasks[i]);
  }

  /** At most one task is between deciding on a host call and the end of its transition. */
  lemma OneTransitionAtATime(run: seq<State>, k: nat, i: nat, j: nat)
    requires IsRun(run) && k < |run| && i < |run[k].tasks| && j < |run[k].tasks|
    requires HoldsTransitionLock(run[k].tasks[i]) && HoldsTransitionLock(run[k].tasks[j])
    ensures i == j
  {
    RunsKeepInv(run, k);
  }

  // ----- Progress -----

  /** The locks cannot deadlock: while anything is in flight, some task can move. */
  lemma SomeTaskCanMove(s: State)
    requires Inv(s) && !Quiescent(s)
    ensures exists i :: 0 <= i < |s.tasks| && CanMove(s.g, s.tasks[i])
  {
    if s.g.transitionLock.Some? {
      assert HoldsTransitionLock(s.tasks[s.g.transitionLock.value]);
      assert CanMove(s.g, s.tasks[s.g.transitionLock.value]);
    } else if s.g.preparationLock.Some? {
      assert HoldsPreparationLock(s.tasks[s.g.preparationLock.value]);
      assert CanMove(s.g, s.tasks[s.g.preparationLock.value]);
    } else {
      var i :| 0 <= i < |s.tasks| && !IsDone(s.tasks[i]);
      assert CanMove(s.g, s.tasks[i]);
    }
  }

  function StartRank(at: StartAt): nat {
    match at
    case Minted => 26
    case Prompting => 25
    case WantPreparation => 24
    case Checking => 23
    case Opening => 22
    case Preparing(_) => 21
    case WantTransition(_) => 20
    case Deciding(_) => 19
    case Matching(_) => 18
    case StartPublish(_) => 17
    case Calling(_) => 16
    case Returned(_) => 15
    case Clearing(_) => 14
    case EndPublish(_) => 13
    case Leaving(_) => 12
    case LeavingPreparation(_) => 11
    case Abandoning => 10
    case WantReconcile(_) => 9
    case Reconciling(_) => 8
    case ReconcileChecking(_) => 7
    case ReconcileStopPublish(_) => 6
    case ReconcileStopping(_) => 5
    case ReconcileClearing(_) => 4
    case QuietStopping(_) => 3
    case ReconcilePublish(_) => 2
    case ReconcileLeaving(_) => 1
    case Done(_) => 0
  }

  /** An upper bound on the steps a task still takes. */
  function Rank(t: Task): nat {
    match t
    case Start(_, at) => StartRank(at)
    case Stop(_, at) =>
      (match at
       case StopMinted => 10
       case StopWantTransition => 9
       case StopDeciding => 8
       case StopCancelling => 7
       case StopChecking => 6
       case StopPublish => 5
       case StopCalling => 4
       case StopClearing => 3
       case StopEndPublish => 2
       case StopLeaving => 1
       case StopDone => 0)
    case Loss(_, at) =>
      (match at
       case Observed => 6
       case LossWantTransition => 5
       case Settling => 4
       case Resetting => 3
       case SettlePublish => 2
       case LossLeaving => 1
       case LossDone => 0)
  }

  function TotalRank(tasks: seq<Task>): nat {
    if tasks == [] then 0 else Rank(tasks[0]) + TotalRank(tasks[1..])
  }

  lemma {:induction false} TotalRankUpdate(tasks: seq<Task>, i: nat, t: Task)
    requires i < |tasks|
    ensures TotalRank(tasks[i := t]) == TotalRank(tasks) - Rank(tasks[i]) + Rank(t)
  {
    if i > 0 {
      assert tasks[i := t][1..] == tasks[1..][i - 1 := t];
      TotalRankUpdate(tasks[1..], i - 1, t);
    } else {
      assert tasks[i := t][1..] == tasks[1..];
    }
  }

  lemma MoveLowersRank(g: Shared, i: nat, t: Task, c: Choice)
    requires !IsDone(t)
    ensures Rank(MoveTask(g, i, t, c).1) < Rank(t)
  {
  }

  lemma RefusalLowersRank(g: Shared, t: Task)
    requires IsPreparing(t)
    ensures Rank(Refused(g, t).1) < Rank(t)
  {
  }

  lemma CancelLowersTotal(s: State)
    requires Inv(s)
    ensures TotalRank(CancelPrompt(s).tasks) <= TotalRank(s.tasks)
  {
    if s.g.pending.Some? {
      var p := s.g.pending.value;
      RefusalLowersRank(s.g, s.tasks[p]);
      TotalRankUpdate(s.tasks, p, Refused(s.g, s.tasks[p]).1);
    }
  }

  lemma MovesLowerTotal(s: State, i: nat, c: Choice)
    requires Inv(s) && CanApply(s, Move(i, c))
    ensures TotalRank(Apply(s, Move(i, c)).tasks) < TotalRank(s.tasks)
  {
    var s1 := s;
    if Cancels(s.tasks[i]) {
      s1 := CancelPrompt(s);
      CancelKeepsInv(s, i);
      CancelLowersTotal(s);
    }
    MoveLowersRank(s1.g, i, s1.tasks[i], c);
    TotalRankUpdate(s1.tasks, i, MoveTask(s1.g, i, s1.tasks[i], c).1);
  }

  /** The state after these steps of tasks alone, if each of them can be taken. */
  ghost function After(s: State, moves: seq<(nat, Choice)>): Option<State>
    decreases |moves|
  {
    if moves == [] then Some(s)
    else if CanApply(s, Move(moves[0].0, moves[0].1)) then After(Apply(s, Move(moves[0].0, moves[0].1)), moves[1..])
    else None
  }

  /** Without new requests what is in flight takes finitely many steps, in whatever order. */
  lemma {:induction false} MovesAreBounded(s: State, moves: seq<(nat, Choice)>)
    requires Inv(s) && After(s, moves).Some?
    ensures |moves| <= TotalRank(s.tasks)
    decreases |moves|
  {
    if moves == [] {
    } else {
      MovesLowerTotal(s, moves[0].0, moves[0].1);
      StepKeepsInv(s, Move(moves[0].0, moves[0].1));
      MovesAreBounded(Apply(s, Move(moves[0].0, moves[0].1)), moves[1..]);
    }
  }

  lemma OneMove(s: State, m: (nat, Choice))
    ensures After(s, [m]).Some? <==> CanApply(s, Move(m.0, m.1))
  {
    assert [m][1..] == [];
  }

  /** And when they can take no more, nothing is in flight. */
  lemma {:induction false} MovesEndQuiescent(s: State, moves: seq<(nat, Choice)>)
    requires Inv(s) && After(s, moves).Some?
    requires forall i, c :: After(s, moves + [(i, c)]).None?
    ensures Quiescent(After(s, moves).value) && Inv(After(s, moves).value)
    decreases |moves|
  {
    if moves == [] {
      forall i: nat | i < |s.tasks| ensures !CanMove(s.g, s.tasks[i]) {
        var m := (i, Choice(true, Up));
        assert moves + [m] == [m];
        OneMove(s, m);
      }
      if !Quiescent(s) {
        SomeTaskCanMove(s);
      }
    } else {
      var s' := Apply(s, Move(moves[0].0, moves[0].1));
      StepKeepsInv(s, Move(moves[0].0, moves[0].1));
      forall i, c ensures After(s', moves[1..] + [(i, c)]).None? {
        assert (moves + [(i, c)])[1..] == moves[1..] + [(i, c)];
        assert After(s, moves + [(i, c)]).None?;
      }
      MovesEndQuiescent(s', moves[1..]);
    }
  }
}
