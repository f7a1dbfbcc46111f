/** What every step of the run-intent state machine keeps. */
module RunStateInvariants {
  import opened Wrappers
  import opened RunStateMachine

  // ----- Who holds what -----

  predicate HoldsTransitionLock(t: Task) {
    match t
    case Start(_, at) =>
      || at.Deciding? || at.Matching? || at.StartPublish? || at.Calling? || at.Returned? || at.Clearing?
      || at.EndPublish? || at.Leaving? || at.Reconciling? || at.ReconcileChecking? || at.ReconcileStopPublish?
      || at.ReconcileStopping? || at.ReconcileClearing? || at.QuietStopping? || at.ReconcilePublish?
      || at.ReconcileLeaving?
    case Stop(_, at) => !at.StopMinted? && !at.StopWantTransition? && !at.StopDone?
    case Loss(_, at) => at.Settling? || at.Resetting? || at.SettlePublish? || at.LossLeaving?
  }

  predicate HoldsPreparationLock(t: Task) {
    && t.Start?
    && (t.at.Checking? || t.at.Opening? || t.at.Preparing? || t.at.WantTransition? || t.at.Deciding?
        || t.at.Matching? || t.at.StartPublish?
        || t.at.Calling? || t.at.Returned? || t.at.Clearing? || t.at.EndPublish? || t.at.Leaving?
        || t.at.LeavingPreparation?)
  }

  /** The transition in flight while t is at this point. */
  function TransitionOf(t: Task): Option<RunState> {
    match t
    case Start(_, at) =>
      if at.StartPublish? || at.Calling? || at.Returned? || at.Clearing? then Some(STARTING)
      else if at.ReconcileStopPublish? || at.ReconcileStopping? || at.ReconcileClearing? then Some(STOPPING)
      else None
    case Stop(_, at) =>
      if at.StopPublish? || at.StopCalling? || at.StopClearing? then Some(STOPPING) else None
    case Loss(_, _) => None
  }

  ghost predicate Locks(s: State) {
    && (forall i :: 0 <= i < |s.tasks| ==> (HoldsTransitionLock(s.tasks[i]) <==> s.g.transitionLock == Some(i)))
    && (forall i :: 0 <= i < |s.tasks| ==> (HoldsPreparationLock(s.tasks[i]) <==> s.g.preparationLock == Some(i)))
    && (s.g.transitionLock.Some? ==> s.g.transitionLock.value < |s.tasks|)
    && (s.g.preparationLock.Some? ==> s.g.preparationLock.value < |s.tasks|)
    && (s.g.pending.Some? ==> s.g.pending.value < |s.tasks| && IsPreparing(s.tasks[s.g.pending.value]))
  }

  predicate IsPreparing(t: Task) {
    t.Start? && t.at.Preparing?
  }

  ghost predicate TransitionTracked(s: State) {
    s.g.transition == if s.g.transitionLock.Some? && s.g.transitionLock.value < |s.tasks|
                      then TransitionOf(s.tasks[s.g.transitionLock.value]) else None
  }

  // ----- Intents -----

  /** The start has tried to roll its intent back. */
  predicate PastReset(at: StartAt) {
    || at.WantReconcile? || at.Reconciling? || at.ReconcileChecking? || at.ReconcileStopPublish?
    || at.ReconcileStopping? || at.ReconcileClearing? || at.QuietStopping? || at.ReconcilePublish?
    || at.ReconcileLeaving?
    || (at.Done? && (at.outcome == Failed || at.outcome == Superseded))
  }

  predicate TokenFits(tokens: seq<bool>, t: Task) {
    match t
    case Start(req, at) => req < |tokens| && tokens[req] && (PastReset(at) ==> req < |tokens| - 1)
    case Stop(req, _) => req < |tokens| && !tokens[req]
    case Loss(token, _) => token < |tokens|
  }

  predicate SameRequest(t: Task, u: Task) {
    !t.Loss? && !u.Loss? && t.Start? == u.Start? && RequestOf(t) == RequestOf(u)
  }

  function RequestOf(t: Task): nat {
    match t case Start(req, _) => req case Stop(req, _) => req case Loss(token, _) => token
  }

  ghost predicate Tokens(s: State) {
    && s.g.tokens != []
    && (forall i :: 0 <= i < |s.tasks| ==> TokenFits(s.g.tokens, s.tasks[i]))
    && (forall i, j :: 0 <= i < j < |s.tasks| ==> !SameRequest(s.tasks[i], s.tasks[j]))
    && (RunRequested(s.g) ==> exists i :: 0 <= i < |s.tasks| && IsNewestStart(s.g, s.tasks[i]))
  }

  predicate IsNewestStart(g: Shared, t: Task) {
    t.Start? && IsCurrent(g, t.req)
  }

  // ----- Who sees to what -----

  /** The start has found or brought the service up while it was the newest. */
  predicate DecidedUp(t: Task) {
    && t.Start?
    && ((t.at.Clearing? && t.at.ok) || (t.at.EndPublish? && t.at.ok) || (t.at.Leaving? && t.at.ok)
        || (t.at.LeavingPreparation? && t.at.ok) || (t.at.Done? && t.at.outcome == Started))
  }

  /** The host has just brought the service up for the start. */
  predicate BroughtUp(t: Task) {
    t.Start? && t.at.Returned? && t.at.up
  }

  /** t will still look for a runtime nobody asks for, and stop it. A start that still prompts does not count, as it may
      crash; nor one that has found itself the newest: it may take the runtime for its own, and then whoever asked
      otherwise meanwhile is to stop it. */
  predicate WillStop(g: Shared, t: Task) {
    match t
    case Start(_, at) =>
      && !DecidedUp(t) && !at.Minted? && !at.Prompting? && !at.Matching? && !at.Done?
      && !at.ReconcileClearing? && !at.ReconcilePublish? && !at.ReconcileLeaving?
    case Stop(req, at) =>
      && IsCurrent(g, req)
      && (at.StopMinted? || at.StopWantTransition? || at.StopDeciding? || at.StopCancelling? || at.StopChecking?
          || at.StopPublish? || at.StopCalling?)
    case Loss(_, _) => false
  }

  /** t changes what the state shows, or has, and will publish after that. */
  predicate WillPublish(g: Shared, t: Task) {
    match t
    case Start(_, at) =>
      || at.Minted? || at.StartPublish? || at.Calling? || at.Returned? || at.Clearing? || at.EndPublish?
      || (PastReset(at) && !at.ReconcileLeaving? && !at.Done?)
    case Stop(_, at) =>
      at.StopMinted? || at.StopPublish? || at.StopCalling? || at.StopClearing? || at.StopEndPublish?
    case Loss(_, at) =>
      at.SettlePublish? || at.Resetting? || (g.runtime.None? && (at.LossWantTransition? || at.Settling?))
  }

  /** t is about to have the host start or stop the service. */
  predicate CallsHost(t: Task) {
    match t
    case Start(_, at) =>
      at.StartPublish? || at.Calling? || at.ReconcileStopPublish? || at.ReconcileStopping? || at.QuietStopping?
    case Stop(_, at) => at.StopPublish? || at.StopCalling?
    case Loss(_, _) => false
  }

  /** t has looked at the intents and may have the host start or stop the service on what it saw. */
  predicate Committed(t: Task) {
    || CallsHost(t)
    || (t.Start? && (t.at.Matching? || t.at.ReconcileChecking?))
    || (t.Stop? && (t.stopAt.StopCancelling? || t.stopAt.StopChecking?))
  }

  predicate IsResetting(t: Task) {
    t.Loss? && t.lossAt.Resetting?
  }

  ghost predicate SomeoneStops(s: State) {
    s.g.runtime.Some? && !RunRequested(s.g) ==> exists i :: 0 <= i < |s.tasks| && WillStop(s.g, s.tasks[i])
  }

  ghost predicate SomeonePublishes(s: State) {
    s.g.published != Derived(s.g) ==> exists i :: 0 <= i < |s.tasks| && WillPublish(s.g, s.tasks[i])
  }

  /** Once the newest start has decided that the service is up, only a lost service takes the runtime away:
      no host call decided on before that is still to come. */
  ghost predicate NewestKeepsRuntime(s: State) {
    forall i :: 0 <= i < |s.tasks| && IsNewestStart(s.g, s.tasks[i]) ==>
                  && (DecidedUp(s.tasks[i]) || BroughtUp(s.tasks[i]) ==> s.g.runtime.Some? || s.g.lost)
                  && (DecidedUp(s.tasks[i]) ==> forall j :: 0 <= j < |s.tasks| ==> !Committed(s.tasks[j]))
  }

  /** A lost service is not there again before its loss has settled. */
  ghost predicate LossesSettle(s: State) {
    forall i :: 0 <= i < |s.tasks| && IsResetting(s.tasks[i]) ==> s.g.runtime.None?
  }

  ghost predicate Inv(s: State) {
    Locks(s) && TransitionTracked(s) && Tokens(s) && SomeoneStops(s) && SomeonePublishes(s) && NewestKeepsRuntime(s)
    && LossesSettle(s)
  }

  lemma InitHolds()
    ensures Inv(INIT)
  {
  }

  // ----- What one task's step must do -----

  predicate LockMoves(held: bool, held': bool, lock: Option<nat>, lock': Option<nat>, i: nat) {
    || (held == held' && lock' == lock)
    || (!held && held' && lock.None? && lock' == Some(i))
    || (held && !held' && lock'.None?)
  }

  predicate LocksMove(g: Shared, i: nat, t: Task, g': Shared, t': Task) {
    && LockMoves(HoldsTransitionLock(t), HoldsTransitionLock(t'), g.transitionLock, g'.transitionLock, i)
    && LockMoves(HoldsPreparationLock(t), HoldsPreparationLock(t'), g.preparationLock, g'.preparationLock, i)
    && g'.transition == (if HoldsTransitionLock(t') then TransitionOf(t')
                         else if HoldsTransitionLock(t) then None else g.transition)
    && (g'.pending.None? || (g'.pending == Some(i) && IsPreparing(t'))
        || (g'.pending == g.pending && g.pending != Some(i)))
  }

  predicate TokensMove(g: Shared, t: Task, g': Shared, t': Task) {
    && (g'.tokens == g.tokens || g'.tokens == g.tokens + [false])
    && TokenFits(g'.tokens, t')
    && RequestOf(t') == RequestOf(t) && t'.Start? == t.Start? && t'.Stop? == t.Stop?
  }

  predicate StopDutyMoves(g: Shared, t: Task, g': Shared, t': Task) {
    g'.runtime.Some? && !RunRequested(g') ==>
      || WillStop(g', t')
      || (g.runtime.Some? && !RunRequested(g) && g'.tokens == g.tokens && !WillStop(g, t))
  }

  predicate PublishDutyMoves(g: Shared, t: Task, g': Shared, t': Task) {
    g'.published != Derived(g') ==>
      || WillPublish(g', t')
      || (g.published != Derived(g) && !WillPublish(g, t) && (g'.runtime == g.runtime || g'.runtime.None?))
  }

  predicate RuntimeMoves(g: Shared, t: Task, g': Shared, t': Task) {
    && (g'.runtime.None? && !g'.lost ==> (g.runtime.None? && !g.lost) || CallsHost(t))
    && (Committed(t') ==> Committed(t) || IsNewestStart(g, t) || !RunRequested(g))
    && (g'.runtime.Some? && g.runtime.None? ==> HoldsTransitionLock(t) && !IsResetting(t'))
    && (IsResetting(t') ==> g'.runtime.None?)
    && (BroughtUp(t') ==> g'.runtime.Some?)
    && (DecidedUp(t') && !DecidedUp(t) ==>
          && HoldsTransitionLock(t')
          && (g'.runtime.Some? || (BroughtUp(t) && g'.runtime == g.runtime && g'.lost == g.lost)))
  }

  predicate GoodMove(g: Shared, i: nat, t: Task, moved: (Shared, Task)) {
    && LocksMove(g, i, t, moved.0, moved.1)
    && TokensMove(g, t, moved.0, moved.1)
    && StopDutyMoves(g, t, moved.0, moved.1)
    && PublishDutyMoves(g, t, moved.0, moved.1)
    && RuntimeMoves(g, t, moved.0, moved.1)
  }

  // ----- Such a step keeps every conjunct -----

  lemma LocksKept(s: State, i: nat, moved: (Shared, Task))
    requires i < |s.tasks| && Inv(s) && GoodMove(s.g, i, s.tasks[i], moved)
    ensures Locks(With(s, i, moved)) && TransitionTracked(With(s, i, moved))
  {
  }

  lemma TokensKept(s: State, i: nat, moved: (Shared, Task))
    requires i < |s.tasks| && Inv(s) && GoodMove(s.g, i, s.tasks[i], moved)
    ensures Tokens(With(s, i, moved))
  {
    var s' := With(s, i, moved);
    forall j | 0 <= j < |s'.tasks| ensures TokenFits(s'.g.tokens, s'.tasks[j]) {
      assert j != i ==> TokenFits(s.g.tokens, s.tasks[j]);
    }
    forall j, k | 0 <= j < k < |s'.tasks| ensures !SameRequest(s'.tasks[j], s'.tasks[k]) {
      assert !SameRequest(s.tasks[j], s.tasks[k]);
    }
    if RunRequested(s'.g) {
      var j :| 0 <= j < |s.tasks| && IsNewestStart(s.g, s.tasks[j]);
      assert IsNewestStart(s'.g, s'.tasks[j]);
    }
  }

  lemma DutiesKept(s: State, i: nat, moved: (Shared, Task))
    requires i < |s.tasks| && Inv(s) && GoodMove(s.g, i, s.tasks[i], moved)
    ensures SomeoneStops(With(s, i, moved)) && SomeonePublishes(With(s, i, moved))
  {
    var s' := With(s, i, moved);
    if s'.g.runtime.Some? && !RunRequested(s'.g) && !WillStop(s'.g, s'.tasks[i]) {
      var j :| 0 <= j < |s.tasks| && WillStop(s.g, s.tasks[j]);
      assert WillStop(s'.g, s'.tasks[j]);
    }
    if s'.g.published != Derived(s'.g) && !WillPublish(s'.g, s'.tasks[i]) {
      var j :| 0 <= j < |s.tasks| && WillPublish(s.g, s.tasks[j]);
      assert WillPublish(s'.g, s'.tasks[j]);
    }
  }

  lemma RuntimeKept(s: State, i: nat, moved: (Shared, Task))
    requires i < |s.tasks| && Inv(s) && GoodMove(s.g, i, s.tasks[i], moved)
    ensures NewestKeepsRuntime(With(s, i, moved))
  {
    var s' := With(s, i, moved);
    LocksKept(s, i, moved);
    TokensKept(s, i, moved);
    forall k | 0 <= k < |s'.tasks| && IsNewestStart(s'.g, s'.tasks[k])
      ensures DecidedUp(s'.tasks[k]) || BroughtUp(s'.tasks[k]) ==> s'.g.runtime.Some? || s'.g.lost
      ensures DecidedUp(s'.tasks[k]) ==> forall j :: 0 <= j < |s'.tasks| ==> !Committed(s'.tasks[j])
    {
      NewestIsUntouched(s, i, moved, k);
    }
  }

  lemma NewestIsUntouched(s: State, i: nat, moved: (Shared, Task), k: nat)
    requires i < |s.tasks| && Inv(s) && GoodMove(s.g, i, s.tasks[i], moved)
    requires Locks(With(s, i, moved)) && Tokens(With(s, i, moved))
    requires k < |s.tasks| && IsNewestStart(moved.0, With(s, i, moved).tasks[k])
    ensures var s' := With(s, i, moved);
            && (DecidedUp(s'.tasks[k]) || BroughtUp(s'.tasks[k]) ==> s'.g.runtime.Some? || s'.g.lost)
            && (DecidedUp(s'.tasks[k]) ==> forall j :: 0 <= j < |s'.tasks| ==> !Committed(s'.tasks[j]))
  {
    var s' := With(s, i, moved);
    assert TokenFits(s'.g.tokens, s'.tasks[k]);
    assert s'.g.tokens == s.g.tokens;
  }

  lemma LossesKept(s: State, i: nat, moved: (Shared, Task))
    requires i < |s.tasks| && Inv(s) && GoodMove(s.g, i, s.tasks[i], moved)
    ensures LossesSettle(With(s, i, moved))
  {
    var s' := With(s, i, moved);
    forall j | 0 <= j < |s'.tasks| && IsResetting(s'.tasks[j]) ensures s'.g.runtime.None? {
      assert j != i ==> HoldsTransitionLock(s.tasks[j]) && s.g.runtime.None?;
    }
  }

  lemma GoodMoveKeepsInv(s: State, i: nat, moved: (Shared, Task))
    requires i < |s.tasks| && Inv(s) && GoodMove(s.g, i, s.tasks[i], moved)
    ensures Inv(With(s, i, moved))
  {
    LocksKept(s, i, moved);
    TokensKept(s, i, moved);
    DutiesKept(s, i, moved);
    RuntimeKept(s, i, moved);
    LossesKept(s, i, moved);
  }

  // ----- Every step is such a step -----

  /** What the invariant says of task i alone. */
  predicate Local(g: Shared, i: nat, t: Task) {
    && g.tokens != []
    && TokenFits(g.tokens, t)
    && (HoldsTransitionLock(t) <==> g.transitionLock == Some(i))
    && (HoldsPreparationLock(t) <==> g.preparationLock == Some(i))
    && (g.transitionLock.None? ==> g.transition.None?)
    && (HoldsTransitionLock(t) ==> g.transition == TransitionOf(t))
    && (g.pending == Some(i) ==> IsPreparing(t))
    && (IsResetting(t) ==> g.runtime.None?)
  }

  lemma InvIsLocal(s: State, i: nat)
    requires Inv(s) && i < |s.tasks|
    ensures Local(s.g, i, s.tasks[i])
  {
  }

  predicate IsPrelude(at: StartAt) {
    at.Minted? || at.Prompting? || at.WantPreparation?
  }

  predicate IsChecking(at: StartAt) {
    at.Checking? || at.Opening?
  }

  predicate IsPreparation(at: StartAt) {
    at.Preparing? || at.WantTransition?
  }

  predicate IsLeavingPreparation(at: StartAt) {
    at.LeavingPreparation? || at.Abandoning?
  }

  /** Under the transition lock, on the way to a run. */
  predicate IsDecision(at: StartAt) {
    at.Deciding? || at.Matching? || at.StartPublish? || at.Calling?
  }

  /** Still under that lock, once the host has answered or there was nothing to ask of it. */
  predicate IsConclusion(at: StartAt) {
    at.Returned? || at.Clearing? || at.EndPublish? || at.Leaving?
  }

  predicate IsReconcileStop(at: StartAt) {
    || at.Reconciling? || at.ReconcileChecking? || at.ReconcileStopPublish? || at.ReconcileStopping?
    || at.ReconcileClearing?
  }

  /** From the request to the preparation lock. */
  lemma PreludeMoves(g: Shared, i: nat, t: Task, c: Choice)
    requires Local(g, i, t) && t.Start? && CanMove(g, t) && IsPrelude(t.at)
    ensures GoodMove(g, i, t, MoveTask(g, i, t, c))
  {
  }

  lemma CheckingMoves(g: Shared, i: nat, t: Task, c: Choice)
    requires Local(g, i, t) && t.Start? && CanMove(g, t) && IsChecking(t.at)
    ensures GoodMove(g, i, t, MoveTask(g, i, t, c))
  {
  }

  lemma LeavingPreparationMoves(g: Shared, i: nat, t: Task, c: Choice)
    requires Local(g, i, t) && t.Start? && CanMove(g, t) && IsLeavingPreparation(t.at)
    ensures GoodMove(g, i, t, MoveTask(g, i, t, c))
  {
  }

  /** The VPN prompt. */
  lemma PreparationMoves(g: Shared, i: nat, t: Task, c: Choice)
    requires Local(g, i, t) && t.Start? && CanMove(g, t) && IsPreparation(t.at)
    ensures GoodMove(g, i, t, MoveTask(g, i, t, c))
  {
  }

  /** Under the transition lock. */
  lemma DecisionMoves(g: Shared, i: nat, t: Task, c: Choice)
    requires Local(g, i, t) && t.Start? && CanMove(g, t) && IsDecision(t.at)
    ensures GoodMove(g, i, t, MoveTask(g, i, t, c))
  {
  }

  lemma ConclusionMoves(g: Shared, i: nat, t: Task, c: Choice)
    requires Local(g, i, t) && t.Start? && CanMove(g, t) && IsConclusion(t.at)
    ensures GoodMove(g, i, t, MoveTask(g, i, t, c))
  {
  }

  /** Taking down a service nobody asks for. */
  lemma ReconcileStopMoves(g: Shared, i: nat, t: Task, c: Choice)
    requires Local(g, i, t) && t.Start? && CanMove(g, t) && IsReconcileStop(t.at)
    ensures GoodMove(g, i, t, MoveTask(g, i, t, c))
  {
  }

  /** The other steps of a start that gave up. */
  lemma ReconcileMoves(g: Shared, i: nat, t: Task, c: Choice)
    requires Local(g, i, t) && t.Start? && CanMove(g, t) && PastReset(t.at) && !IsReconcileStop(t.at)
    ensures GoodMove(g, i, t, MoveTask(g, i, t, c))
  {
  }

  predicate IsLooking(at: StopAt) {
    at.StopDeciding? || at.StopCancelling? || at.StopChecking?
  }

  lemma StopLooks(g: Shared, i: nat, t: Task, c: Choice)
    requires Local(g, i, t) && t.Stop? && IsLooking(t.stopAt)
    ensures GoodMove(g, i, t, MoveTask(g, i, t, c))
  {
  }

  predicate IsStopping(at: StopAt) {
    at.StopPublish? || at.StopCalling? || at.StopClearing?
  }

  lemma StopActs(g: Shared, i: nat, t: Task, c: Choice)
    requires Local(g, i, t) && t.Stop? && CanMove(g, t) && IsStopping(t.stopAt)
    ensures GoodMove(g, i, t, MoveTask(g, i, t, c))
  {
  }

  lemma StopWaitsOrEnds(g: Shared, i: nat, t: Task, c: Choice)
    requires Local(g, i, t) && t.Stop? && CanMove(g, t) && !IsLooking(t.stopAt) && !IsStopping(t.stopAt)
    ensures GoodMove(g, i, t, MoveTask(g, i, t, c))
  {
  }

  lemma LossMoves(g: Shared, i: nat, t: Task, c: Choice)
    requires Local(g, i, t) && t.Loss? && CanMove(g, t)
    ensures GoodMove(g, i, t, MoveTask(g, i, t, c))
  {
  }

  /** Resolving the prompt a stop cancels is a step of the start that waits for it. */
  lemma RefusalMoves(g: Shared, i: nat, t: Task)
    requires Local(g, i, t) && g.pending == Some(i)
    ensures GoodMove(g, i, t, Refused(g, t))
  {
  }

  /** One step of one task, the cancelled prompt aside. */
  lemma TaskMoves(s: State, i: nat, c: Choice)
    requires Inv(s) && i < |s.tasks| && CanMove(s.g, s.tasks[i])
    ensures Inv(With(s, i, MoveTask(s.g, i, s.tasks[i], c)))
  {
    var g, t := s.g, s.tasks[i];
    InvIsLocal(s, i);
    match t {
      case Start(_, at) =>
        if IsPrelude(at) { PreludeMoves(g, i, t, c); }
        else if IsChecking(at) { CheckingMoves(g, i, t, c); }
        else if IsPreparation(at) { PreparationMoves(g, i, t, c); }
        else if IsLeavingPreparation(at) { LeavingPreparationMoves(g, i, t, c); }
        else if IsDecision(at) { DecisionMoves(g, i, t, c); }
        else if IsConclusion(at) { ConclusionMoves(g, i, t, c); }
        else if IsReconcileStop(at) { ReconcileStopMoves(g, i, t, c); }
        else { ReconcileMoves(g, i, t, c); }
      case Stop(_, at) =>
        if IsLooking(at) { StopLooks(g, i, t, c); }
        else if IsStopping(at) { StopActs(g, i, t, c); }
        else { StopWaitsOrEnds(g, i, t, c); }
      case Loss(_, _) => LossMoves(g, i, t, c);
    }
    GoodMoveKeepsInv(s, i, MoveTask(g, i, t, c));
  }

  lemma CancelKeepsInv(s: State, i: nat)
    requires Inv(s) && i < |s.tasks| && !s.tasks[i].Start?
    ensures var s1 := CancelPrompt(s);
            && Inv(s1) && s1.g == s.g.(pending := None)
            && |s1.tasks| == |s.tasks| && s1.tasks[i] == s.tasks[i]
  {
    if s.g.pending.Some? {
      var p := s.g.pending.value;
      InvIsLocal(s, p);
      RefusalMoves(s.g, p, s.tasks[p]);
      GoodMoveKeepsInv(s, p, Refused(s.g, s.tasks[p]));
    } else {
      assert CancelPrompt(s) == s;
    }
  }

  /** A new request is a task of its own, which owes the rest. */
  lemma ArrivalKeepsInv(s: State, t: Task, running: bool)
    requires Inv(s)
    requires t == if running then Start(|s.g.tokens|, Minted) else Stop(|s.g.tokens|, StopMinted)
    ensures Inv(State(Mint(s.g, running), s.tasks + [t]))
  {
    var s' := State(Mint(s.g, running), s.tasks + [t]);
    assert s'.tasks[|s.tasks|] == t;
    assert WillPublish(s'.g, t) && (running ==> IsNewestStart(s'.g, t)) && (!running ==> WillStop(s'.g, t));
    forall j | 0 <= j < |s'.tasks| ensures TokenFits(s'.g.tokens, s'.tasks[j]) {
      assert j < |s.tasks| ==> TokenFits(s.g.tokens, s.tasks[j]);
    }
    forall j, k | 0 <= j < k < |s'.tasks| ensures !SameRequest(s'.tasks[j], s'.tasks[k]) {
      assert TokenFits(s.g.tokens, s.tasks[j]);
      assert k < |s.tasks| ==> !SameRequest(s.tasks[j], s.tasks[k]);
    }
    forall j | 0 <= j < |s.tasks| ensures !IsNewestStart(s'.g, s'.tasks[j]) {
      assert TokenFits(s.g.tokens, s.tasks[j]);
    }
  }

  lemma LossArrivalKeepsInv(s: State)
    requires Inv(s)
    ensures Inv(State(s.g, s.tasks + [Loss(Newest(s.g), Observed)]))
  {
    var s' := State(s.g, s.tasks + [Loss(Newest(s.g), Observed)]);
    assert s'.tasks[|s.tasks|] == Loss(Newest(s.g), Observed);
    assert forall j :: 0 <= j < |s.tasks| ==> s'.tasks[j] == s.tasks[j];
    LossFits(s, s');
  }

  lemma LossFits(s: State, s': State)
    requires Tokens(s) && s' == State(s.g, s.tasks + [Loss(Newest(s.g), Observed)])
    ensures Tokens(s')
  {
    assert forall j :: 0 <= j < |s.tasks| ==> s'.tasks[j] == s.tasks[j];
    forall j | 0 <= j < |s'.tasks| ensures TokenFits(s'.g.tokens, s'.tasks[j]) {
      assert j < |s.tasks| ==> TokenFits(s.g.tokens, s.tasks[j]);
    }
    if RunRequested(s.g) {
      var j :| 0 <= j < |s.tasks| && IsNewestStart(s.g, s.tasks[j]);
      assert IsNewestStart(s'.g, s'.tasks[j]);
    }
  }

  /** Every step of the machine keeps the invariant. */
  lemma StepKeepsInv(s: State, e: Event)
    requires Inv(s) && CanApply(s, e)
    ensures Inv(Apply(s, e))
  {
    match e {
      case RequestStart => ArrivalKeepsInv(s, Start(|s.g.tokens|, Minted), true);
      case RequestStop => ArrivalKeepsInv(s, Stop(|s.g.tokens|, StopMinted), false);
      case LoseService => LossArrivalKeepsInv(s);
      case SyncOptions(options) => OptionsKeepInv(s, options);
      case Move(i, c) =>
        if Cancels(s.tasks[i]) {
          CancelKeepsInv(s, i);
          TaskMoves(CancelPrompt(s), i, c);
        } else {
          TaskMoves(s, i, c);
        }
    }
  }

  lemma OptionsKeepInv(s: State, options: Option<bool>)
    requires Inv(s)
    ensures Inv(State(s.g.(options := options), s.tasks))
  {
  }
}
