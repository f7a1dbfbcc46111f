/** Every interleaving of announced requests with the runners that collect their traffic. */
module TrafficRuns {
  import opened RequestTraffic

  /** A runner is owed from the moment an add finds none running, and gone from the moment it is told to end. */
  datatype Runner = Owed | Ticking | WillClear | Gone

  /** told is what the host last heard of each request: its opening totals, or its last report that was taken. */
  datatype State = State(requests: Requests, running: bool, runners: seq<Runner>, told: map<string, Totals>)

  const INIT := State(map[], false, [], map[])

  datatype Event =
    | Add(id: string, opening: Totals)
    | Launch(i: nat)
    | TickAlone(i: nat)             // no listener is left
    | Clear(i: nat)
    | Collect(i: nat, open: set<string>, reading: map<string, Totals>, accepts: bool)

  predicate CanApply(s: State, e: Event) {
    match e
    case Add(_, _) => true
    case Launch(i) => i < |s.runners| && s.runners[i].Owed?
    case TickAlone(i) => i < |s.runners| && s.runners[i].Ticking?
    case Clear(i) => i < |s.runners| && s.runners[i].WillClear?
    case Collect(i, _, reading, _) => i < |s.runners| && s.runners[i].Ticking? && s.requests.Keys <= reading.Keys
  }

  /** Whether a collect's report reached the queue, or there was nothing to report. */
  predicate Queued(s: State, e: Event)
    requires e.Collect? && CanApply(s, e)
  {
    Changed(s.requests, e.reading) == map[] || e.accepts
  }

  function Apply(s: State, e: Event): State
    requires CanApply(s, e)
  {
    match e
    case Add(id, opening) =>
      State(s.requests[id := WatchedRequest(opening, true, 0)], true,
            if s.running then s.runners else s.runners + [Owed], s.told[id := opening])
    case Launch(i) => s.(runners := s.runners[i := Ticking])
    case TickAlone(i) => s.(runners := s.runners[i := WillClear])
    case Clear(i) => s.(requests := map[], running := false, runners := s.runners[i := Gone])
    case Collect(i, open, reading, accepts) =>
      var queued := Queued(s, e);
      var requests := Collected(s.requests, open, reading, queued);
      State(requests, requests != map[], s.runners[i := if requests != map[] then Ticking else Gone],
            if queued then s.told + Changed(s.requests, reading) else s.told)
  }

  ghost predicate IsRun(run: seq<State>, events: seq<Event>) {
    && |run| == |events| + 1 && run[0] == INIT
    && forall k :: 0 <= k < |events| ==> CanApply(run[k], events[k]) && run[k + 1] == Apply(run[k], events[k])
  }

  ghost predicate RequestsOk(requests: Requests, told: map<string, Totals>) {
    forall id :: id in requests ==>
      && id in told && requests[id].totals == told[id]
      && (requests[id].isFresh ==> requests[id].closedReports == 0)
      && requests[id].closedReports <= CLOSE_RETRIES
  }

  /** A runner lives exactly while requests are watched, and never two of them. */
  ghost predicate RunnersOk(running: bool, runners: seq<Runner>) {
    && (forall i, j :: 0 <= i < |runners| && 0 <= j < |runners| && !runners[i].Gone? && !runners[j].Gone? ==> i == j)
    && (running <==> exists i :: 0 <= i < |runners| && !runners[i].Gone?)
  }

  ghost predicate Inv(s: State) {
    RequestsOk(s.requests, s.told) && RunnersOk(s.running, s.runners) && s.running == (s.requests != map[])
  }

  lemma CollectKeepsRequests(s: State, e: Event)
    requires e.Collect? && CanApply(s, e) && RequestsOk(s.requests, s.told)
    ensures RequestsOk(Apply(s, e).requests, Apply(s, e).told)
  {
  }

  lemma RunnerMoves(running: bool, runners: seq<Runner>, i: nat, next: Runner)
    requires RunnersOk(running, runners) && i < |runners| && !runners[i].Gone?
    ensures RunnersOk(!next.Gone?, runners[i := next])
  {
    if !next.Gone? {
      assert !runners[i := next][i].Gone?;
    }
  }

  lemma RunnerOwed(runners: seq<Runner>)
    requires RunnersOk(false, runners)
    ensures RunnersOk(true, runners + [Owed])
  {
    assert !(runners + [Owed])[|runners|].Gone?;
  }

  lemma StepKeepsInv(s: State, e: Event)
    requires Inv(s) && CanApply(s, e)
    ensures Inv(Apply(s, e))
  {
    match e
    case Add(id, opening) =>
      if !s.running {
        RunnerOwed(s.runners);
      }
      assert id in Apply(s, e).requests;
    case Launch(i) => RunnerMoves(s.running, s.runners, i, Ticking);
    case TickAlone(i) => RunnerMoves(s.running, s.runners, i, WillClear);
    case Clear(i) => RunnerMoves(s.running, s.runners, i, Gone);
    case Collect(i, _, _, _) =>
      CollectKeepsRequests(s, e);
      RunnerMoves(s.running, s.runners, i, Apply(s, e).runners[i]);
  }

  lemma {:induction false} RunsKeepInv(run: seq<State>, events: seq<Event>, k: nat)
    requires IsRun(run, events) && k < |run|
    ensures Inv(run[k])
  {
    if k == 0 {
    } else {
      RunsKeepInv(run, events, k - 1);
      StepKeepsInv(run[k - 1], events[k - 1]);
    }
  }

  // ----- Reports -----

  /** At every moment the stored totals of a request are what the host last heard of it. */
  lemma StoredIsLastTold(run: seq<State>, events: seq<Event>, k: nat, id: string)
    requires IsRun(run, events) && k < |run| && id in run[k].requests
    ensures id in run[k].told && run[k].told[id] == run[k].requests[id].totals
  {
    RunsKeepInv(run, events, k);
  }

  /** A collect reports a request exactly if what it reads differs from what the host last heard of it. */
  lemma ReportsExactlyNews(run: seq<State>, events: seq<Event>, k: nat, id: string)
    requires IsRun(run, events) && k < |events| && events[k].Collect? && id in run[k].requests
    ensures id in run[k].told
    ensures id in Changed(run[k].requests, events[k].reading) <==> events[k].reading[id] != run[k].told[id]
  {
    StoredIsLastTold(run, events, k, id);
  }

  /** After a collect whose report was taken, the host has heard what that collect read of every request watched then,
      those it lets go included. */
  lemma LastReportIsComplete(run: seq<State>, events: seq<Event>, k: nat, id: string)
    requires IsRun(run, events) && k < |events| && events[k].Collect? && id in run[k].requests
    requires Queued(run[k], events[k])
    ensures id in run[k + 1].told && run[k + 1].told[id] == events[k].reading[id]
  {
    RunsKeepInv(run, events, k);
  }

  /** Nothing about this request but collects happens in events[a..b]. */
  ghost predicate Undisturbed(events: seq<Event>, a: nat, b: nat, id: string)
    requires a <= b <= |events|
  {
    forall k :: a <= k < b ==> !events[k].Clear? && !(events[k].Add? && events[k].id == id)
  }

  function Collects(events: seq<Event>, a: nat, b: nat): nat
    requires a <= b <= |events|
    decreases b - a
  {
    if a == b then 0 else Collects(events, a, b - 1) + (if events[b - 1].Collect? then 1 else 0)
  }

  lemma SurvivalStep(s: State, e: Event, id: string)
    requires CanApply(s, e) && !e.Clear? && !(e.Add? && e.id == id)
    requires id in s.requests && s.requests[id].closedReports == 0 && (e.Collect? ==> s.requests[id].isFresh)
    ensures id in Apply(s, e).requests && Apply(s, e).requests[id].closedReports == 0
    ensures Apply(s, e).requests[id].isFresh <==> s.requests[id].isFresh && !e.Collect?
  {
  }

  /** A request survives its first collect whatever that collect sees of it, since it may still be opening. */
  lemma {:induction false} SurvivesFirstCollect(run: seq<State>, events: seq<Event>, a: nat, b: nat, id: string)
    requires IsRun(run, events) && a < b <= |events| && events[a].Add? && events[a].id == id
    requires Undisturbed(events, a + 1, b, id) && Collects(events, a + 1, b) <= 1
    ensures id in run[b].requests && run[b].requests[id].closedReports == 0
    ensures run[b].requests[id].isFresh <==> Collects(events, a + 1, b) == 0
    decreases b - a
  {
    if b <= a + 1 {
    } else {
      SurvivesFirstCollect(run, events, a, b - 1, id);
      SurvivalStep(run[b - 1], events[b - 1], id);
    }
  }

  lemma ClosedStep(s: State, e: Event, id: string)
    requires CanApply(s, e) && !e.Clear? && !(e.Add? && e.id == id) && id in Apply(s, e).requests
    ensures id in s.requests
    ensures s.requests[id].closedReports > 0 ==>
              Apply(s, e).requests[id].closedReports == s.requests[id].closedReports + (if e.Collect? then 1 else 0)
  {
  }

  /** Once seen closed, a request is watched for at most CLOSE_RETRIES collects, the one that saw it closed included:
      if it is still watched then, each of them counted. */
  lemma {:induction false} ClosedIsLetGo(run: seq<State>, events: seq<Event>, a: nat, b: nat, id: string)
    requires IsRun(run, events) && a <= b <= |events| && id in run[a].requests && run[a].requests[id].closedReports > 0
    requires Undisturbed(events, a, b, id) && id in run[b].requests
    ensures run[b].requests[id].closedReports == run[a].requests[id].closedReports + Collects(events, a, b)
    ensures run[a].requests[id].closedReports + Collects(events, a, b) <= CLOSE_RETRIES
    decreases b - a
  {
    RetriesBounded(run, events, b, id);
    if b > a {
      ClosedStep(run[b - 1], events[b - 1], id);
      ClosedIsLetGo(run, events, a, b - 1, id);
    }
  }

  lemma RetriesBounded(run: seq<State>, events: seq<Event>, k: nat, id: string)
    requires IsRun(run, events) && k < |run| && id in run[k].requests
    ensures run[k].requests[id].closedReports <= CLOSE_RETRIES
  {
    RunsKeepInv(run, events, k);
  }

  /** A collect lets go of a request exactly if it was seen closed, now or before, and its report was taken or the
      retries are used up; in particular never of one that is open and was not seen closed. */
  lemma LetGoExactly(run: seq<State>, events: seq<Event>, k: nat, id: string)
    requires IsRun(run, events) && k < |events| && events[k].Collect? && id in run[k].requests
    ensures var r := run[k].requests[id];
            id !in run[k + 1].requests <==>
              || (r.closedReports == 0 && !r.isFresh && id !in events[k].open && Queued(run[k], events[k]))
              || (r.closedReports > 0 && (Queued(run[k], events[k]) || r.closedReports == CLOSE_RETRIES))
  {
    RunsKeepInv(run, events, k);
  }

  /** At every moment the watch says it runs exactly if one runner lives, and then something is watched. */
  lemma OneRunnerWhileWatching(run: seq<State>, events: seq<Event>, k: nat)
    requires IsRun(run, events) && k < |run|
    ensures run[k].running <==> exists i :: 0 <= i < |run[k].runners| && !run[k].runners[i].Gone?
    ensures forall i, j :: (0 <= i < |run[k].runners| && 0 <= j < |run[k].runners|
                            && !run[k].runners[i].Gone? && !run[k].runners[j].Gone?) ==> i == j
    ensures run[k].running <==> run[k].requests != map[]
  {
    RunsKeepInv(run, events, k);
  }
}
