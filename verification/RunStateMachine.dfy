/** The Android run-intent state machine, cut into steps at its locks and suspension points.

    Any number of start requests, stop requests and service losses are in flight at once; each is a task with a
    program counter. A step of a task is what it does between two points at which another task may run. */
module RunStateMachine {
  import opened Wrappers

  datatype RunState = STARTED | STARTING | STOPPING | STOPPED

  /** Crashed: nothing is answered, as loading the preferences threw. */
  datatype Outcome = Started | Failed | Superseded | Crashed

  /** Where a start request stands. */
  datatype StartAt =
    | Minted                        // the request is the newest intent, not published yet
    | Prompting                     // permissions asked, preferences loaded, Core set up
    | WantPreparation               // waits for the preparation lock
    | Checking                      // holds the preparation lock from here to LeavingPreparation
    | Opening                       // was the newest; reads the options
    | Preparing(enable: bool)       // the VPN prompt is open
    | WantTransition(enable: bool)  // waits for the transition lock
    | Deciding(enable: bool)        // holds the transition lock from here to Leaving
    | Matching(enable: bool)        // was the newest; looks at the runtime
    | StartPublish(enable: bool)
    | Calling(enable: bool)         // the host starts the service
    | Returned(up: bool)
    | Clearing(ok: bool)
    | EndPublish(ok: bool)
    | Leaving(ok: bool)
    | LeavingPreparation(ok: bool)
    | Abandoning                    // rolls the intent back if it is still the newest
    | WantReconcile(dropped: bool)  // waits for the transition lock
    | Reconciling(dropped: bool)    // holds the transition lock from here to ReconcileLeaving
    | ReconcileChecking(dropped: bool) // nobody asked for a run; looks at the runtime
    | ReconcileStopPublish(dropped: bool)
    | ReconcileStopping(dropped: bool)
    | ReconcileClearing(dropped: bool)
    | QuietStopping(dropped: bool)  // no runtime, but listeners may be open
    | ReconcilePublish(dropped: bool)
    | ReconcileLeaving(dropped: bool)
    | Done(outcome: Outcome)

  /** Where a stop request stands. */
  datatype StopAt =
    | StopMinted
    | StopWantTransition
    | StopDeciding                  // holds the transition lock from here to StopLeaving
    | StopCancelling                // was the newest; cancels the open prompt, whosever it is
    | StopChecking                  // looks at the runtime
    | StopPublish
    | StopCalling                   // the host stops the service
    | StopClearing
    | StopEndPublish
    | StopLeaving
    | StopDone

  /** Where the handling of a lost service stands. */
  datatype LossAt =
    | Observed                      // the binding died; the request current then is captured
    | LossWantTransition            // the controller let go of the runtime
    | Settling                      // holds the transition lock from here to LossLeaving
    | Resetting                     // found no runtime; rolls back the request captured
    | SettlePublish
    | LossLeaving
    | LossDone

  datatype Task =
    | Start(req: nat, at: StartAt)
    | Stop(req: nat, stopAt: StopAt)
    | Loss(token: nat, lossAt: LossAt)

  /** What they share. tokens lists every intent ever requested, the newest last: whether it asks for a run.
      lost says that the service was lost after it last came up. */
  datatype Shared = Shared(
    tokens: seq<bool>,
    runtime: Option<bool>,          // the running service, and whether it is the VPN one
    transitionLock: Option<nat>,
    preparationLock: Option<nat>,
    transition: Option<RunState>,
    published: RunState,
    options: Option<bool>,          // the shared state's VPN options
    pending: Option<nat>,           // whose VPN prompt a stop would cancel
    lost: bool)

  datatype State = State(g: Shared, tasks: seq<Task>)

  const INIT := State(Shared([false], None, None, None, None, STOPPED, None, None, false), [])

  function Newest(g: Shared): nat {
    if g.tokens == [] then 0 else |g.tokens| - 1
  }

  predicate IsCurrent(g: Shared, req: nat) {
    req == Newest(g)
  }

  predicate RunRequested(g: Shared) {
    |g.tokens| > 0 && g.tokens[Newest(g)]
  }

  /** What is to be shown: a transition while there is one, otherwise whether the host has a service, and whether the
      newest request is for one. */
  function Derived(g: Shared): RunState {
    if g.transition.Some? then g.transition.value
    else if g.runtime.None? then STOPPED
    else if RunRequested(g) then STARTED
    else STOPPING
  }

  function Publish(g: Shared): Shared {
    g.(published := Derived(g))
  }

  function Mint(g: Shared, running: bool): Shared {
    g.(tokens := g.tokens + [running])
  }

  /** Compare-and-set on the newest intent. */
  function ResetToStopped(g: Shared, token: nat): Shared {
    if IsCurrent(g, token) then Mint(g, false) else g
  }

  // ----- Steps -----

  /** What became of a call that starts the service. */
  datatype HostStart = Up | Down | Threw(left: Option<bool>)

  /** What the world answers: yes or no to a prompt, and the outcome of a host call, or of loading what a start
      needs. */
  datatype Choice = Choice(yes: bool, host: HostStart)

  predicate IsDone(t: Task) {
    match t
    case Start(_, at) => at.Done?
    case Stop(_, at) => at.StopDone?
    case Loss(_, at) => at.LossDone?
  }

  predicate WantsTransitionLock(t: Task) {
    match t
    case Start(_, at) => at.WantTransition? || at.WantReconcile?
    case Stop(_, at) => at.StopWantTransition?
    case Loss(_, at) => at.LossWantTransition?
  }

  predicate WantsPreparationLock(t: Task) {
    t.Start? && t.at.WantPreparation?
  }

  /** A task moves unless it is done or waits for a lock another task holds. */
  predicate CanMove(g: Shared, t: Task) {
    && !IsDone(t)
    && (WantsTransitionLock(t) ==> g.transitionLock.None?)
    && (WantsPreparationLock(t) ==> g.preparationLock.None?)
  }

  function HostStarts(g: Shared, enable: bool, host: HostStart): Shared {
    match host
    case Up => g.(runtime := Some(enable), lost := false)
    case Down => g.(runtime := None)
    case Threw(left) => g.(runtime := left)
  }

  /** The step of start request req, which is task i. */
  function MoveStart(g: Shared, i: nat, req: nat, at: StartAt, c: Choice): (Shared, StartAt) {
    match at
    case Minted => (Publish(g), Prompting)
    case Prompting =>
      (g, if c.host.Threw? then Done(Crashed) else if c.yes then WantPreparation else Abandoning)
    case WantPreparation => (g.(preparationLock := Some(i)), Checking)
    case Checking => (g, if IsCurrent(g, req) then Opening else LeavingPreparation(false))
    case Opening =>
      if g.options.None? then (g, LeavingPreparation(false))
      else (g.(pending := if c.yes then Some(i) else g.pending), Preparing(g.options.value))
    case Preparing(enable) =>
      (g.(pending := if g.pending == Some(i) then None else g.pending),
       if c.yes then WantTransition(enable) else LeavingPreparation(false))
    case WantTransition(enable) => (g.(transitionLock := Some(i)), Deciding(enable))
    case Deciding(enable) => (g, if IsCurrent(g, req) then Matching(enable) else Leaving(false))
    case Matching(enable) =>
      if g.runtime == Some(enable) then (g.(lost := false), Leaving(true))
      else (g.(transition := Some(STARTING)), StartPublish(enable))
    case StartPublish(enable) => (Publish(g), Calling(enable))
    case Calling(enable) => (HostStarts(g, enable, c.host), Returned(c.host.Up?))
    case Returned(up) => (g, Clearing(up && IsCurrent(g, req)))
    case Clearing(ok) => (g.(transition := None), EndPublish(ok))
    case EndPublish(ok) => (Publish(g), Leaving(ok))
    case Leaving(ok) => (g.(transitionLock := None), LeavingPreparation(ok))
    case LeavingPreparation(ok) => (g.(preparationLock := None), if ok then Done(Started) else Abandoning)
    case Abandoning => (ResetToStopped(g, req), WantReconcile(IsCurrent(g, req)))
    case WantReconcile(dropped) => (g.(transitionLock := Some(i)), Reconciling(dropped))
    case Reconciling(dropped) =>
      (g, if RunRequested(g) then ReconcilePublish(dropped) else ReconcileChecking(dropped))
    case ReconcileChecking(dropped) =>
      if g.runtime.Some? then (g.(transition := Some(STOPPING)), ReconcileStopPublish(dropped))
      else (g, QuietStopping(dropped))
    case ReconcileStopPublish(dropped) => (Publish(g), ReconcileStopping(dropped))
    case ReconcileStopping(dropped) => (g.(runtime := None), ReconcileClearing(dropped))
    case ReconcileClearing(dropped) => (g.(transition := None), ReconcilePublish(dropped))
    case QuietStopping(dropped) => (g.(runtime := None), ReconcilePublish(dropped))
    case ReconcilePublish(dropped) => (Publish(g), ReconcileLeaving(dropped))
    case ReconcileLeaving(dropped) => (g.(transitionLock := None), Done(if dropped then Failed else Superseded))
    case Done(_) => (g, at)
  }

  function MoveStop(g: Shared, i: nat, req: nat, at: StopAt): (Shared, StopAt) {
    match at
    case StopMinted => (Publish(g), StopWantTransition)
    case StopWantTransition => (g.(transitionLock := Some(i)), StopDeciding)
    case StopDeciding => (g, if IsCurrent(g, req) then StopCancelling else StopLeaving)
    case StopCancelling => (g, StopChecking)
    case StopChecking =>
      if g.runtime.None? then (g, StopLeaving)
      else (g.(transition := Some(STOPPING)), StopPublish)
    case StopPublish => (Publish(g), StopCalling)
    case StopCalling => (g.(runtime := None), StopClearing)
    case StopClearing => (g.(transition := None), StopEndPublish)
    case StopEndPublish => (Publish(g), StopLeaving)
    case StopLeaving => (g.(transitionLock := None), StopDone)
    case StopDone => (g, at)
  }

  function MoveLoss(g: Shared, i: nat, token: nat, at: LossAt, c: Choice): (Shared, LossAt) {
    match at
    case Observed => if c.yes then (g.(runtime := None, lost := true), LossWantTransition) else (g, LossDone)
    case LossWantTransition => (g.(transitionLock := Some(i)), Settling)
    case Settling => (g, if g.runtime.Some? then LossLeaving else Resetting)
    case Resetting => (ResetToStopped(g, token), SettlePublish)
    case SettlePublish => (Publish(g), LossLeaving)
    case LossLeaving => (g.(transitionLock := None), LossDone)
    case LossDone => (g, at)
  }

  function MoveTask(g: Shared, i: nat, t: Task, c: Choice): (Shared, Task) {
    match t
    case Start(req, at) => var (g', at') := MoveStart(g, i, req, at, c); (g', Start(req, at'))
    case Stop(req, at) => var (g', at') := MoveStop(g, i, req, at); (g', Stop(req, at'))
    case Loss(token, at) => var (g', at') := MoveLoss(g, i, token, at, c); (g', Loss(token, at'))
  }

  function With(s: State, i: nat, moved: (Shared, Task)): State
    requires i < |s.tasks|
  {
    State(moved.0, s.tasks[i := moved.1])
  }

  /** The waiting start takes a cancelled prompt as refused. */
  function Refused(g: Shared, t: Task): (Shared, Task) {
    (g.(pending := None), if t.Start? then Start(t.req, LeavingPreparation(false)) else t)
  }

  function CancelPrompt(s: State): State {
    if s.g.pending.Some? && s.g.pending.value < |s.tasks|
    then With(s, s.g.pending.value, Refused(s.g, s.tasks[s.g.pending.value]))
    else s.(g := s.g.(pending := None))
  }

  /** A stop that was the newest request when it looked cancels the open prompt, by then perhaps that of a newer
      start. */
  predicate Cancels(t: Task) {
    t.Stop? && t.stopAt.StopCancelling?
  }

  datatype Event =
    | RequestStart
    | RequestStop
    | LoseService
    | SyncOptions(options: Option<bool>)
    | Move(i: nat, choice: Choice)

  predicate CanApply(s: State, e: Event) {
    e.Move? ==> e.i < |s.tasks| && CanMove(s.g, s.tasks[e.i])
  }

  function Apply(s: State, e: Event): State
    requires CanApply(s, e)
  {
    match e
    case RequestStart => State(Mint(s.g, true), s.tasks + [Start(|s.g.tokens|, Minted)])
    case RequestStop => State(Mint(s.g, false), s.tasks + [Stop(|s.g.tokens|, StopMinted)])
    case LoseService => State(s.g, s.tasks + [Loss(Newest(s.g), Observed)])
    case SyncOptions(options) => State(s.g.(options := options), s.tasks)
    case Move(i, c) =>
      var s1 := if Cancels(s.tasks[i]) then CancelPrompt(s) else s;
      With(s1, i, MoveTask(s1.g, i, s1.tasks[i], c))
  }
}
