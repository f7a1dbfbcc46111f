/** What each request gets: which service a start brings up, when it is turned down, and what is shown meanwhile. */
module RunStateLaws {
  import opened Wrappers
  import opened RunStateMachine
  import opened RunStateInvariants
  import opened RunStateTheorems

  /** A run and the events that made it. */
  ghost predicate IsRunOf(run: seq<State>, events: seq<Event>) {
    && |run| == |events| + 1 && run[0] == INIT
    && forall k: nat :: k < |events| ==> StepAt(run, events, k)
  }

  ghost predicate StepAt(run: seq<State>, events: seq<Event>, k: nat) {
    && k < |events| && k + 1 < |run| && Inv(run[k])
    && CanApply(run[k], events[k]) && run[k + 1] == Apply(run[k], events[k])
  }

  /** Every run is one of those. */
  lemma {:induction false} RunHasEvents(run: seq<State>) returns (events: seq<Event>)
    requires IsRun(run)
    ensures IsRunOf(run, events)
    decreases |run|
  {
    if |run| == 1 {
      events := [];
    } else {
      var n := |run| - 1;
      assert IsRun(run[..n]);
      events := RunHasEvents(run[..n]);
      assert StepsTo(run[n - 1], run[n]);
      var e :| CanApply(run[n - 1], e) && run[n] == Apply(run[n - 1], e);
      RunsKeepInv(run, n - 1);
      forall k: nat | k < n ensures StepAt(run, events + [e], k) {
        assert k < n - 1 ==> StepAt(run[..n], events, k);
      }
      events := events + [e];
    }
  }

  // ----- One step, seen from one task -----

  /** The task whose step this is, or whose prompt the step cancels. */
  predicate Touches(s: State, e: Event, i: nat) {
    e.Move? && (e.i == i || (e.i < |s.tasks| && Cancels(s.tasks[e.i]) && s.g.pending == Some(i)))
  }

  lemma OthersStay(s: State, e: Event, i: nat)
    requires CanApply(s, e) && i < |s.tasks| && !Touches(s, e, i)
    ensures i < |Apply(s, e).tasks| && Apply(s, e).tasks[i] == s.tasks[i]
  {
  }

  /** The prompt of a start is cancelled by an older stop. */
  predicate CancelsPromptOf(s: State, e: Event, i: nat) {
    e.Move? && e.i < |s.tasks| && Cancels(s.tasks[e.i]) && s.g.pending == Some(i)
  }

  lemma CancelledStart(s: State, e: Event, i: nat)
    requires Inv(s) && CanApply(s, e) && i < |s.tasks| && CancelsPromptOf(s, e, i)
    ensures s.tasks[i].Start? && s.tasks[i].at.Preparing? && e.i != i
    ensures var s' := Apply(s, e);
            i < |s'.tasks| && s'.tasks[i] == Start(s.tasks[i].req, LeavingPreparation(false)) && s'.g.pending.None?
  {
  }

  lemma OwnStep(s: State, e: Event)
    requires Inv(s) && CanApply(s, e) && e.Move?
    ensures var s' := Apply(s, e);
            e.i < |s'.tasks|
            && s'.tasks[e.i] == MoveTask(s.g, e.i, s.tasks[e.i], e.choice).1
            && (!Cancels(s.tasks[e.i]) ==> s'.g == MoveTask(s.g, e.i, s.tasks[e.i], e.choice).0)
  {
    if Cancels(s.tasks[e.i]) {
      CancelKeepsInv(s, e.i);
    }
  }

  // ----- When a start is turned down -----

  /** The start has been turned down, and will not be answered with success. */
  predicate TurnedDown(at: StartAt) {
    || PastReset(at) || at.Abandoning? || at == Done(Crashed)
    || at == Returned(false) || at == Clearing(false) || at == EndPublish(false) || at == Leaving(false)
    || at == LeavingPreparation(false)
  }

  /** This event turns start i down, in a step of its own or as an older stop cancels its prompt. */
  predicate Refuses(s: State, e: Event, i: nat)
    requires i < |s.tasks| && s.tasks[i].Start?
  {
    || CancelsPromptOf(s, e, i)
    || (e.Move? && e.i == i && RefusesOwn(s.g, s.tasks[i].req, s.tasks[i].at, e.choice))
  }

  /** Its prompt is refused or its preferences cannot be loaded, it is no longer the newest request when it looks, there
      are no options, or the host does not come up. */
  predicate RefusesOwn(g: Shared, req: nat, at: StartAt, c: Choice) {
    || (at.Prompting? && (!c.yes || c.host.Threw?))
    || (at.Preparing? && !c.yes)
    || (at.Opening? && g.options.None?)
    || (at.Calling? && !c.host.Up?)
    || ((at.Checking? || at.Deciding? || at == Returned(true)) && !IsCurrent(g, req))
  }

  lemma DownStaysDown(g: Shared, i: nat, req: nat, at: StartAt, c: Choice)
    requires TurnedDown(at)
    ensures TurnedDown(MoveStart(g, i, req, at, c).1)
  {
  }

  lemma PreparationTurnsDown(g: Shared, i: nat, req: nat, at: StartAt, c: Choice)
    requires !TurnedDown(at) && (IsPrelude(at) || IsChecking(at) || IsPreparation(at) || IsLeavingPreparation(at))
    ensures TurnedDown(MoveStart(g, i, req, at, c).1) <==> RefusesOwn(g, req, at, c)
  {
  }

  lemma DecisionTurnsDown(g: Shared, i: nat, req: nat, at: StartAt, c: Choice)
    requires !TurnedDown(at)
    requires !IsPrelude(at) && !IsChecking(at) && !IsPreparation(at) && !IsLeavingPreparation(at)
    ensures TurnedDown(MoveStart(g, i, req, at, c).1) <==> RefusesOwn(g, req, at, c)
  {
  }

  lemma OwnStepTurnsDown(g: Shared, i: nat, req: nat, at: StartAt, c: Choice)
    ensures TurnedDown(MoveStart(g, i, req, at, c).1) <==> TurnedDown(at) || RefusesOwn(g, req, at, c)
  {
    if TurnedDown(at) {
      DownStaysDown(g, i, req, at, c);
    } else if IsPrelude(at) || IsChecking(at) || IsPreparation(at) || IsLeavingPreparation(at) {
      PreparationTurnsDown(g, i, req, at, c);
    } else {
      DecisionTurnsDown(g, i, req, at, c);
    }
  }

  lemma StepTurnsDown(s: State, e: Event, i: nat)
    requires Inv(s) && CanApply(s, e) && i < |s.tasks| && s.tasks[i].Start?
    ensures var s' := Apply(s, e);
            && i < |s'.tasks| && s'.tasks[i].Start? && s'.tasks[i].req == s.tasks[i].req
            && (TurnedDown(s'.tasks[i].at) <==> TurnedDown(s.tasks[i].at) || Refuses(s, e, i))
  {
    if CancelsPromptOf(s, e, i) {
      CancelledStart(s, e, i);
    } else if e.Move? && e.i == i {
      OwnStep(s, e);
      OwnStepTurnsDown(s.g, i, s.tasks[i].req, s.tasks[i].at, e.choice);
    } else {
      OthersStay(s, e, i);
    }
  }

  /** Some event so far turned the start down. */
  ghost predicate WasRefused(run: seq<State>, events: seq<Event>, k: nat, i: nat) {
    exists j: nat :: j < k && RefusedAt(run, events, j, i)
  }

  ghost predicate RefusedAt(run: seq<State>, events: seq<Event>, j: nat, i: nat) {
    j < |events| && j < |run| && i < |run[j].tasks| && run[j].tasks[i].Start? && Refuses(run[j], events[j], i)
  }

  lemma NewTask(s: State, e: Event, i: nat)
    requires CanApply(s, e) && |s.tasks| <= i < |Apply(s, e).tasks|
    ensures Apply(s, e).tasks[i].Start? ==> Apply(s, e).tasks[i].at == Minted
  {
  }

  lemma {:induction false} TurnedDownExactly(run: seq<State>, events: seq<Event>, k: nat, i: nat)
    requires IsRunOf(run, events) && k < |run| && i < |run[k].tasks| && run[k].tasks[i].Start?
    ensures TurnedDown(run[k].tasks[i].at) <==> WasRefused(run, events, k, i)
  {
    if k == 0 {
    } else {
      assert StepAt(run, events, k - 1);
      var s, e := run[k - 1], events[k - 1];
      if i >= |s.tasks| {
        NewTask(s, e, i);
        NotThereBefore(run, events, k - 1, i);
      } else {
        TaskKeepsItsKind(s, e, i);
        TurnedDownExactly(run, events, k - 1, i);
        StepTurnsDown(s, e, i);
        RefusedOneMore(run, events, k - 1, i);
      }
    }
  }

  lemma TaskKeepsItsKind(s: State, e: Event, i: nat)
    requires Inv(s) && CanApply(s, e) && i < |s.tasks|
    ensures i < |Apply(s, e).tasks| && Apply(s, e).tasks[i].Start? == s.tasks[i].Start?
  {
    if CancelsPromptOf(s, e, i) {
      CancelledStart(s, e, i);
    } else if e.Move? && e.i == i {
      OwnStep(s, e);
    } else {
      OthersStay(s, e, i);
    }
  }

  lemma {:induction false} TasksGrow(run: seq<State>, events: seq<Event>, j: nat, k: nat)
    requires IsRunOf(run, events) && j <= k < |run|
    ensures |run[j].tasks| <= |run[k].tasks|
    decreases k - j
  {
    if j >= k {
    } else {
      TasksGrow(run, events, j, k - 1);
      assert StepAt(run, events, k - 1);
    }
  }

  lemma NotThereBefore(run: seq<State>, events: seq<Event>, k: nat, i: nat)
    requires IsRunOf(run, events) && k < |run| && i >= |run[k].tasks|
    ensures !WasRefused(run, events, k + 1, i)
  {
    forall j: nat | j < k + 1 ensures !RefusedAt(run, events, j, i) {
      TasksGrow(run, events, j, k);
    }
  }

  lemma RefusedOneMore(run: seq<State>, events: seq<Event>, k: nat, i: nat)
    requires k < |events| && k < |run| && i < |run[k].tasks| && run[k].tasks[i].Start?
    ensures WasRefused(run, events, k + 1, i) <==> WasRefused(run, events, k, i) || Refuses(run[k], events[k], i)
  {
    if Refuses(run[k], events[k], i) {
      assert RefusedAt(run, events, k, i);
    }
  }

  /** A start that has ended was answered with success if and only if nothing turned it down. */
  lemma AnsweredExactly(run: seq<State>, events: seq<Event>, k: nat, i: nat)
    requires IsRunOf(run, events) && k < |run| && i < |run[k].tasks| && run[k].tasks[i].Start?
    requires run[k].tasks[i].at.Done?
    ensures run[k].tasks[i].at == Done(Started) <==> !WasRefused(run, events, k, i)
  {
    TurnedDownExactly(run, events, k, i);
  }

  /** Whether a start that gave up dropped its own intent. */
  function DroppedOf(at: StartAt): Option<bool> {
    match at
    case WantReconcile(dropped) => Some(dropped)
    case Reconciling(dropped) => Some(dropped)
    case ReconcileChecking(dropped) => Some(dropped)
    case ReconcileStopPublish(dropped) => Some(dropped)
    case ReconcileStopping(dropped) => Some(dropped)
    case ReconcileClearing(dropped) => Some(dropped)
    case QuietStopping(dropped) => Some(dropped)
    case ReconcilePublish(dropped) => Some(dropped)
    case ReconcileLeaving(dropped) => Some(dropped)
    case Done(outcome) =>
      if outcome == Failed then Some(true) else if outcome == Superseded then Some(false) else None
    case _ => None
  }

  /** At step j start i gave up, being still the newest request or not. */
  ghost predicate GaveUpAt(run: seq<State>, events: seq<Event>, j: nat, i: nat, newest: bool) {
    && j < |events| && j < |run| && i < |run[j].tasks| && run[j].tasks[i].Start? && run[j].tasks[i].at.Abandoning?
    && events[j].Move? && events[j].i == i && IsCurrent(run[j].g, run[j].tasks[i].req) == newest
  }

  lemma OwnStepDrops(g: Shared, i: nat, req: nat, at: StartAt, c: Choice)
    ensures DroppedOf(MoveStart(g, i, req, at, c).1) ==
            if at.Abandoning? then Some(IsCurrent(g, req)) else DroppedOf(at)
  {
  }

  lemma StepDrops(s: State, e: Event, i: nat)
    requires Inv(s) && CanApply(s, e) && i < |s.tasks| && s.tasks[i].Start?
    ensures var s', at := Apply(s, e), s.tasks[i].at;
            && i < |s'.tasks| && s'.tasks[i].Start?
            && DroppedOf(s'.tasks[i].at) ==
               if e.Move? && e.i == i && at.Abandoning? then Some(IsCurrent(s.g, s.tasks[i].req)) else DroppedOf(at)
  {
    if CancelsPromptOf(s, e, i) {
      CancelledStart(s, e, i);
    } else if e.Move? && e.i == i {
      OwnStep(s, e);
      OwnStepDrops(s.g, i, s.tasks[i].req, s.tasks[i].at, e.choice);
    } else {
      OthersStay(s, e, i);
    }
  }

  lemma {:induction false} GivingUpTells(run: seq<State>, events: seq<Event>, k: nat, i: nat) returns (j: nat)
    requires IsRunOf(run, events) && k < |run| && i < |run[k].tasks| && run[k].tasks[i].Start?
    requires DroppedOf(run[k].tasks[i].at).Some?
    ensures j < k && GaveUpAt(run, events, j, i, DroppedOf(run[k].tasks[i].at).value)
  {
    j := 0;
    if k == 0 {
    } else {
      assert StepAt(run, events, k - 1);
      var s, e := run[k - 1], events[k - 1];
      if i >= |s.tasks| {
        NewTask(s, e, i);
      } else {
        TaskKeepsItsKind(s, e, i);
        StepDrops(s, e, i);
        if e.Move? && e.i == i && s.tasks[i].at.Abandoning? {
          j := k - 1;
        } else {
          j := GivingUpTells(run, events, k - 1, i);
        }
      }
    }
  }

  /** A start is answered as failed if it gave up while it was the newest request, and as superseded if it was not. */
  lemma FailedOrSuperseded(run: seq<State>, events: seq<Event>, k: nat, i: nat) returns (j: nat)
    requires IsRunOf(run, events) && k < |run| && i < |run[k].tasks| && run[k].tasks[i].Start?
    requires run[k].tasks[i].at == Done(Failed) || run[k].tasks[i].at == Done(Superseded)
    ensures j < k && GaveUpAt(run, events, j, i, run[k].tasks[i].at.outcome == Failed)
  {
    j := GivingUpTells(run, events, k, i);
  }

  // ----- Which service a start brings up -----

  /** The service a start is about to bring up. */
  function EnableOf(at: StartAt): Option<bool> {
    match at
    case Preparing(enable) => Some(enable)
    case WantTransition(enable) => Some(enable)
    case Deciding(enable) => Some(enable)
    case Matching(enable) => Some(enable)
    case StartPublish(enable) => Some(enable)
    case Calling(enable) => Some(enable)
    case _ => None
  }

  /** asked tells of some starts which option they read. */
  type Asked = map<nat, bool>

  function AskedOf(asked: Asked, i: nat): Option<bool> {
    if i in asked then Some(asked[i]) else None
  }

  /** A start goes for the option it read; and once the newest has its service, that one runs until it is lost. */
  ghost predicate KindOk(g: Shared, t: Task, asked: Option<bool>) {
    && (t.Start? && EnableOf(t.at).Some? ==> asked == EnableOf(t.at))
    && (IsNewestStart(g, t) && (DecidedUp(t) || BroughtUp(t)) ==> g.lost || (asked.Some? && g.runtime == asked))
  }

  ghost predicate KindsOk(s: State, asked: Asked) {
    forall i :: 0 <= i < |s.tasks| ==> KindOk(s.g, s.tasks[i], AskedOf(asked, i))
  }

  /** This event is start i reading its option. */
  predicate Reads(s: State, e: Event, i: nat) {
    e.Move? && e.i == i && i < |s.tasks| && s.tasks[i].Start? && s.tasks[i].at.Opening? && s.g.options.Some?
  }

  function NextAsked(s: State, e: Event, asked: Asked): Asked {
    if e.Move? && Reads(s, e, e.i) then asked[e.i := s.g.options.value] else asked
  }

  /** The start's own step. */
  lemma OwnKindStep(g: Shared, i: nat, t: Task, c: Choice, asked: Option<bool>)
    requires Local(g, i, t) && t.Start? && CanMove(g, t) && KindOk(g, t, asked)
    ensures var moved := MoveTask(g, i, t, c);
            KindOk(moved.0, moved.1, if t.at.Opening? && g.options.Some? then g.options else asked)
  {
  }

  /** Another task's step does not take the service of the newest start away, but for a loss. */
  lemma OtherKindStep(g: Shared, m: nat, u: Task, c: Choice, i: nat, t: Task, asked: Option<bool>)
    requires Local(g, m, u) && Local(g, i, t) && m != i && CanMove(g, u) && KindOk(g, t, asked)
    requires TokenFits(MoveTask(g, m, u, c).0.tokens, t)
    requires IsNewestStart(g, t) && DecidedUp(t) ==> !Committed(u)
    ensures KindOk(MoveTask(g, m, u, c).0, t, asked)
  {
  }

  lemma StepKeepsKind(s: State, e: Event, asked: Asked, i: nat)
    requires Inv(s) && KindsOk(s, asked) && CanApply(s, e) && i < |s.tasks|
    ensures var s' := Apply(s, e);
            i < |s'.tasks| && KindOk(s'.g, s'.tasks[i], AskedOf(NextAsked(s, e, asked), i))
  {
    if CancelsPromptOf(s, e, i) {
      CancelledStart(s, e, i);
    } else if e.Move? {
      InvIsLocal(s, i);
      InvIsLocal(s, e.i);
      MoveKeepsKind(s, e, asked, i);
    } else {
      OthersStay(s, e, i);
      ArrivalKeepsKind(s, e, asked, i);
    }
  }

  /** A new request is the newest from then on. */
  lemma ArrivalKeepsKind(s: State, e: Event, asked: Asked, i: nat)
    requires Inv(s) && KindsOk(s, asked) && CanApply(s, e) && !e.Move? && i < |s.tasks|
    ensures KindOk(Apply(s, e).g, s.tasks[i], AskedOf(asked, i))
  {
    assert TokenFits(s.g.tokens, s.tasks[i]);
    assert KindOk(s.g, s.tasks[i], AskedOf(asked, i));
  }

  lemma MoveKeepsKind(s: State, e: Event, asked: Asked, i: nat)
    requires Inv(s) && KindsOk(s, asked) && CanApply(s, e) && e.Move? && i < |s.tasks| && !CancelsPromptOf(s, e, i)
    requires Local(s.g, i, s.tasks[i]) && Local(s.g, e.i, s.tasks[e.i])
    ensures var s' := Apply(s, e);
            i < |s'.tasks| && KindOk(s'.g, s'.tasks[i], AskedOf(NextAsked(s, e, asked), i))
  {
    OwnStep(s, e);
    assert KindOk(s.g, s.tasks[i], AskedOf(asked, i));
    if e.i == i {
      if s.tasks[i].Start? {
        OwnKindStep(s.g, i, s.tasks[i], e.choice, AskedOf(asked, i));
      }
    } else {
      OthersStay(s, e, i);
      if !Cancels(s.tasks[e.i]) {
        StepKeepsInv(s, e);
        InvIsLocal(Apply(s, e), i);
        OtherKindStep(s.g, e.i, s.tasks[e.i], e.choice, i, s.tasks[i], AskedOf(asked, i));
      } else {
        CancelKeepsInv(s, e.i);
        assert AskedOf(NextAsked(s, e, asked), i) == AskedOf(asked, i);
      }
    }
  }

  lemma StepKeepsKinds(s: State, e: Event, asked: Asked)
    requires Inv(s) && KindsOk(s, asked) && CanApply(s, e)
    ensures KindsOk(Apply(s, e), NextAsked(s, e, asked))
  {
    var s' := Apply(s, e);
    forall i: nat | i < |s'.tasks| ensures KindOk(s'.g, s'.tasks[i], AskedOf(NextAsked(s, e, asked), i)) {
      if i < |s.tasks| {
        StepKeepsKind(s, e, asked, i);
      } else {
        NewTask(s, e, i);
      }
    }
  }

  /** What every start read in the first k steps. */
  ghost function AskedIn(run: seq<State>, events: seq<Event>, k: nat): Asked
    requires k <= |events| && k <= |run|
  {
    if k == 0 then map[] else NextAsked(run[k - 1], events[k - 1], AskedIn(run, events, k - 1))
  }

  lemma {:induction false} RunKeepsKinds(run: seq<State>, events: seq<Event>, k: nat)
    requires IsRunOf(run, events) && k < |run|
    ensures KindsOk(run[k], AskedIn(run, events, k))
  {
    if k == 0 {
    } else {
      RunKeepsKinds(run, events, k - 1);
      assert StepAt(run, events, k - 1);
      StepKeepsKinds(run[k - 1], events[k - 1], AskedIn(run, events, k - 1));
    }
  }

  /** At step j start i read this option of the shared state. */
  ghost predicate ReadAt(run: seq<State>, events: seq<Event>, j: nat, i: nat, enable: bool) {
    j < |events| && j < |run| && Reads(run[j], events[j], i) && run[j].g.options == Some(enable)
  }

  lemma {:induction false} WasRead(run: seq<State>, events: seq<Event>, k: nat, i: nat) returns (j: nat)
    requires k <= |events| && k <= |run| && i in AskedIn(run, events, k)
    ensures j < k && ReadAt(run, events, j, i, AskedIn(run, events, k)[i])
  {
    if Reads(run[k - 1], events[k - 1], i) {
      j := k - 1;
    } else {
      j := WasRead(run, events, k - 1, i);
    }
  }

  /** A start answered with success has brought up, or found, the very service that the options asked for when it read
      them: with the newest request answered so, that service runs until it is lost. */
  lemma StartsWhatWasAsked(run: seq<State>, events: seq<Event>, k: nat, i: nat) returns (j: nat, enable: bool)
    requires IsRunOf(run, events) && k < |run| && i < |run[k].tasks|
    requires run[k].tasks[i] == Start(Newest(run[k].g), Done(Started)) && !run[k].g.lost
    ensures j < k && ReadAt(run, events, j, i, enable) && run[k].g.runtime == Some(enable)
  {
    RunKeepsKinds(run, events, k);
    assert KindOk(run[k].g, run[k].tasks[i], AskedOf(AskedIn(run, events, k), i));
    j := WasRead(run, events, k, i);
    enable := AskedIn(run, events, k)[i];
  }

  lemma {:induction false} RequestStays(run: seq<State>, events: seq<Event>, j: nat, k: nat, i: nat)
    requires IsRunOf(run, events) && j <= k < |run| && i < |run[j].tasks| && run[j].tasks[i].Start?
    ensures i < |run[k].tasks| && run[k].tasks[i].Start? && run[k].tasks[i].req == run[j].tasks[i].req
    decreases k - j
  {
    if j >= k {
    } else {
      RequestStays(run, events, j, k - 1, i);
      assert StepAt(run, events, k - 1);
      StepTurnsDown(run[k - 1], events[k - 1], i);
    }
  }

  /** At step j the start of this request read its option. */
  ghost predicate ReadBy(run: seq<State>, j: nat, i: nat, req: nat, enable: bool) {
    && j + 1 < |run| && i < |run[j].tasks| && i < |run[j + 1].tasks| && run[j].g.options == Some(enable)
    && run[j].tasks[i] == Start(req, Opening) && run[j + 1].tasks[i] == Start(req, Preparing(enable))
  }

  /** The option that the start of this request read in the run. */
  ghost predicate HasRead(run: seq<State>, req: nat, enable: bool) {
    exists j: nat, i: nat :: ReadBy(run, j, i, req, enable)
  }

  lemma ReadIsStep(run: seq<State>, events: seq<Event>, j: nat, i: nat, enable: bool)
    requires IsRunOf(run, events) && ReadAt(run, events, j, i, enable)
    ensures ReadBy(run, j, i, run[j].tasks[i].req, enable)
  {
    assert StepAt(run, events, j);
    OwnStep(run[j], events[j]);
  }

  /** The newest request always wins: in every run, once no request and no loss is in flight,
      - with a stop or a failed start as the newest intent there is no service and the state says so;
      - with a start as the newest intent, that start was answered with success, and the very service that the options
        asked for when it read them runs and is shown as running, unless it was lost after it last came up;
      - or that start crashed while its preferences were loaded, and what is shown is what runs. */
  lemma NewestRequestWins(run: seq<State>, k: nat)
    requires IsRun(run) && k < |run| && Quiescent(run[k])
    ensures RestFollows(run[k])
    ensures var s := run[k];
            RunRequested(s.g) && !s.g.lost && IsAnswered(s, Newest(s.g), Started) ==>
              && s.g.runtime.Some? && HasRead(run, Newest(s.g), s.g.runtime.value) && s.g.published == STARTED
  {
    AtRest(run, k);
    var s := run[k];
    if RunRequested(s.g) && !s.g.lost && IsAnswered(s, Newest(s.g), Started) {
      var i :| 0 <= i < |s.tasks| && s.tasks[i] == Start(Newest(s.g), Done(Started));
      var events := RunHasEvents(run);
      var j, enable := StartsWhatWasAsked(run, events, k, i);
      ReadIsStep(run, events, j, i, enable);
      RequestStays(run, events, j, k, i);
      assert ReadBy(run, j, i, Newest(s.g), enable);
    }
  }

  // ----- What is shown while the host is called -----

  /** What the state must say while t has the host start or stop the service. */
  function Announced(t: Task): Option<RunState> {
    match t
    case Start(_, at) =>
      if at.Calling? || at.Returned? || at.Clearing? then Some(STARTING)
      else if at.ReconcileStopping? || at.ReconcileClearing? then Some(STOPPING)
      else None
    case Stop(_, at) => if at.StopCalling? || at.StopClearing? then Some(STOPPING) else None
    case Loss(_, _) => None
  }

  predicate IsShown(g: Shared, t: Task) {
    Announced(t).Some? ==> g.published == Announced(t).value
  }

  lemma StartShowStep(g: Shared, i: nat, t: Task, c: Choice)
    requires Local(g, i, t) && t.Start? && !PastReset(t.at) && IsShown(g, t)
    ensures IsShown(MoveTask(g, i, t, c).0, MoveTask(g, i, t, c).1)
  {
    if !IsDecision(t.at) && !IsConclusion(t.at) {
      EarlyStepIsQuiet(g, i, t, c);
    }
  }

  /** Outside the transition lock nothing is announced. */
  lemma EarlyStepIsQuiet(g: Shared, i: nat, t: Task, c: Choice)
    requires t.Start? && !PastReset(t.at) && !IsDecision(t.at) && !IsConclusion(t.at)
    ensures Announced(MoveTask(g, i, t, c).1).None?
  {
  }

  lemma ReconcileShowStep(g: Shared, i: nat, t: Task, c: Choice)
    requires Local(g, i, t) && t.Start? && PastReset(t.at) && IsShown(g, t)
    ensures IsShown(MoveTask(g, i, t, c).0, MoveTask(g, i, t, c).1)
  {
  }

  lemma StopShowStep(g: Shared, i: nat, t: Task, c: Choice)
    requires Local(g, i, t) && t.Stop? && IsShown(g, t)
    ensures IsShown(MoveTask(g, i, t, c).0, MoveTask(g, i, t, c).1)
  {
  }

  lemma OwnShowStep(g: Shared, i: nat, t: Task, c: Choice)
    requires Local(g, i, t) && IsShown(g, t)
    ensures IsShown(MoveTask(g, i, t, c).0, MoveTask(g, i, t, c).1)
  {
    match t
    case Start(_, at) =>
      if PastReset(at) { ReconcileShowStep(g, i, t, c); } else { StartShowStep(g, i, t, c); }
    case Stop(_, _) => StopShowStep(g, i, t, c);
    case Loss(_, _) =>
  }

  lemma NewTaskIsQuiet(s: State, e: Event, i: nat)
    requires CanApply(s, e) && |s.tasks| <= i < |Apply(s, e).tasks|
    ensures Announced(Apply(s, e).tasks[i]).None?
  {
  }

  lemma OtherShowStep(g: Shared, m: nat, u: Task, c: Choice, i: nat, t: Task)
    requires Local(g, m, u) && Local(g, i, t) && m != i && CanMove(g, u) && IsShown(g, t)
    ensures IsShown(MoveTask(g, m, u, c).0, t)
  {
  }

  lemma StepShows(s: State, e: Event, i: nat)
    requires Inv(s) && CanApply(s, e) && i < |s.tasks| && IsShown(s.g, s.tasks[i])
    ensures i < |Apply(s, e).tasks| && IsShown(Apply(s, e).g, Apply(s, e).tasks[i])
  {
    InvIsLocal(s, i);
    if CancelsPromptOf(s, e, i) {
      CancelledStart(s, e, i);
    } else if !e.Move? {
      OthersStay(s, e, i);
    } else {
      InvIsLocal(s, e.i);
      OwnStep(s, e);
      if e.i == i {
        OwnShowStep(s.g, i, s.tasks[i], e.choice);
      } else {
        OthersStay(s, e, i);
        OtherShowStep(s.g, e.i, s.tasks[e.i], e.choice, i, s.tasks[i]);
      }
      if Cancels(s.tasks[e.i]) {
        CancelKeepsInv(s, e.i);
      }
    }
  }

  /** While a request has the host start the service the state says so, and so it does while one has it stopped. */
  lemma {:induction false} TransitionsAreShown(run: seq<State>, events: seq<Event>, k: nat, i: nat)
    requires IsRunOf(run, events) && k < |run| && i < |run[k].tasks|
    ensures IsShown(run[k].g, run[k].tasks[i])
  {
    if k == 0 {
    } else {
      assert StepAt(run, events, k - 1);
      var s, e := run[k - 1], events[k - 1];
      if i < |s.tasks| {
        TransitionsAreShown(run, events, k - 1, i);
        StepShows(s, e, i);
      } else {
        NewTaskIsQuiet(s, e, i);
      }
    }
  }

  // ----- Whose intent is dropped -----

  lemma TokensChange(g: Shared, i: nat, t: Task, c: Choice)
    requires MoveTask(g, i, t, c).0.tokens != g.tokens
    ensures MoveTask(g, i, t, c).0.tokens == g.tokens + [false] && IsCurrent(g, RequestOf(t))
    ensures (t.Start? && t.at.Abandoning?) || IsResetting(t)
  {
  }

  /** Nobody drops an intent but its own start, and the loss of a service that was observed under it: one that raced
      ahead of a loss stays. */
  lemma OnlyOwnIntentIsDropped(s: State, e: Event)
    requires Inv(s) && CanApply(s, e) && e.Move? && Apply(s, e).g.tokens != s.g.tokens
    ensures Apply(s, e).g.tokens == s.g.tokens + [false] && IsCurrent(s.g, RequestOf(s.tasks[e.i]))
    ensures (s.tasks[e.i].Start? && s.tasks[e.i].at.Abandoning?) || IsResetting(s.tasks[e.i])
  {
    if Cancels(s.tasks[e.i]) {
      CancelKeepsInv(s, e.i);
      TokensChange(CancelPrompt(s).g, e.i, s.tasks[e.i], e.choice);
    } else {
      TokensChange(s.g, e.i, s.tasks[e.i], e.choice);
    }
  }

  /** A loss that finds no service drops the intent it was observed under, if that is still the newest. */
  lemma LossDropsIntent(s: State, e: Event)
    requires Inv(s) && CanApply(s, e) && e.Move? && IsResetting(s.tasks[e.i])
    ensures var current := IsCurrent(s.g, s.tasks[e.i].token);
            Apply(s, e).g.tokens == if current then s.g.tokens + [false] else s.g.tokens
  {
    OwnStep(s, e);
  }

  /** Never two VPN prompts at once. */
  lemma OnePromptAtATime(run: seq<State>, k: nat, i: nat, j: nat)
    requires IsRun(run) && k < |run| && i < |run[k].tasks| && j < |run[k].tasks|
    requires IsPreparing(run[k].tasks[i]) && IsPreparing(run[k].tasks[j])
    ensures i == j
  {
    RunsKeepInv(run, k);
  }

  /** A stop that found itself the newest closes the open prompt, and the start that waits for it is turned down. */
  lemma StopClosesPrompt(s: State, e: Event, i: nat)
    requires Inv(s) && CanApply(s, e) && e.Move? && s.tasks[e.i].Stop? && s.tasks[e.i].stopAt.StopCancelling?
    ensures Apply(s, e).g.pending.None?
    ensures s.g.pending == Some(i) ==>
              && i < |s.tasks| && s.tasks[i].Start? && i < |Apply(s, e).tasks|
              && Apply(s, e).tasks[i] == Start(s.tasks[i].req, LeavingPreparation(false))
  {
    CancelKeepsInv(s, e.i);
    if s.g.pending == Some(i) {
      CancelledStart(s, e, i);
    }
  }
}
