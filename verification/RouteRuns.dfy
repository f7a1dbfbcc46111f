/** Every interleaving of refreshes, watch calls and stops.

    A refresh reads its snapshot, then updates the tracker, then publishes, all of it under the selection lock; the
    tracker has a lock of its own, so watch calls and stops run between these steps. */
module RouteRuns {
  import opened Wrappers
  import opened RouteTracker

  /** Who holds the selection lock, and how far it is. */
  datatype Selection = Free | Read(change: RouteChange, seen: Snapshot) | Publishing(state: RouteState)

  /** A watch request under the number it was stamped with in dispatch order; a stop has a number once it ran. */
  datatype Request = Request(num: nat, watch: bool, ran: bool)

  /** One refresh: what it was asked, what it read, the stamp it left and whether the route was watched then. */
  datatype Refresh = Refresh(change: RouteChange, seen: Snapshot, stamp: RouteState, watched: bool)

  datatype State = State(
    t: Tracker,
    selection: Selection,
    counter: nat,
    requests: seq<Request>,
    published: seq<RouteState>,
    refreshes: seq<Refresh>)

  const INIT := State(FRESH, Free, 0, [], [], [])

  datatype Event =
    | BeginRefresh(change: RouteChange, seen: Snapshot)
    | CommitRefresh
    | Publish
    | DispatchWatch(watch: bool)
    | DispatchOther
    | RunWatch(k: nat)
    | StopWatch

  predicate CanApply(s: State, e: Event) {
    match e
    case BeginRefresh(_, _) => s.selection.Free?
    case CommitRefresh => s.selection.Read?
    case Publish => s.selection.Publishing?
    case RunWatch(k) => k < |s.requests| && !s.requests[k].ran && PollerFits(s.t)
    case StopWatch => PollerFits(s.t)
    case _ => true
  }

  function Apply(s: State, e: Event): State
    requires CanApply(s, e)
  {
    match e
    case BeginRefresh(change, seen) => s.(selection := Read(change, seen))
    case CommitRefresh =>
      var Read(change, seen) := s.selection;
      var t' := Refreshed(s.t, change, seen);
      var sent := ToPublish(s.t, change, seen);
      s.(t := t', selection := if sent.Some? then Publishing(sent.value) else Free,
         refreshes := s.refreshes + [Refresh(change, seen, StateOf(t'), s.t.watched)])
    case Publish => s.(selection := Free, published := s.published + [s.selection.state])
    case DispatchWatch(watch) =>
      s.(counter := s.counter + 1, requests := s.requests + [Request(s.counter + 1, watch, false)])
    case DispatchOther => s.(counter := s.counter + 1)
    case RunWatch(k) =>
      s.(t := Watched(s.t, s.requests[k].watch, s.requests[k].num),
         requests := s.requests[k := s.requests[k].(ran := true)])
    case StopWatch =>
      s.(t := Stopped(s.t, s.counter + 1), counter := s.counter + 1,
         requests := s.requests + [Request(s.counter + 1, false, true)])
  }

  ghost predicate StepsTo(s: State, s': State) {
    exists e :: CanApply(s, e) && s' == Apply(s, e)
  }

  ghost predicate IsRun(run: seq<State>) {
    && run != [] && run[0] == INIT
    && forall k :: 0 <= k < |run| - 1 ==> StepsTo(run[k], run[k + 1])
  }

  // ----- What every step keeps -----

  /** A stamp either stays, and then the refresh read what the one before it read, or its version moves up by one;
      an epoch moves only with a version. */
  predicate Follows(r: Refresh, r': Refresh) {
    var same := r'.change == RouteUnchanged && r'.seen == r.seen;
    && r'.stamp.version == r.stamp.version + (if same then 0 else 1)
    && r'.stamp.epoch == r.stamp.epoch + (if r'.change == RouteReset then 1 else 0)
  }

  ghost predicate RefreshesOk(t: Tracker, refreshes: seq<Refresh>) {
    && (forall i {:trigger refreshes[i]} :: 0 <= i < |refreshes| - 1 ==> Follows(refreshes[i], refreshes[i + 1]))
    && (refreshes == [] ==> StateOf(t) == RouteState(0, 0) && t.providerVersions.None? && t.ruleSets.None?)
    && (refreshes != [] ==>
      var last := refreshes[|refreshes| - 1];
      && last.stamp == StateOf(t)
      && t.picks == last.seen.picks && t.providerVersions == Some(last.seen.versions)
      && t.ruleSets == Some(last.seen.ruleSets))
  }

  /** What was published is in strict order of versions, and what is about to be published is the newest. */
  ghost predicate PublishedOk(t: Tracker, selection: Selection, published: seq<RouteState>) {
    && (forall i, j :: 0 <= i < j < |published| ==> published[i].version < published[j].version)
    && (forall i :: 0 <= i < |published| ==> published[i].version <= t.version)
    && (selection.Publishing? ==> selection.state.version == t.version)
    && (selection.Publishing? ==> forall i :: 0 <= i < |published| ==> published[i].version < t.version)
  }

  ghost predicate NumbersOk(counter: nat, requests: seq<Request>) {
    && (forall i :: 0 <= i < |requests| ==> 0 < requests[i].num <= counter)
    && (forall i, j :: 0 <= i < j < |requests| ==> requests[i].num < requests[j].num)
  }

  /** The flag is that of the latest request among those that ran. */
  ghost predicate Settled(t: Tracker, requests: seq<Request>) {
    && (forall i :: 0 <= i < |requests| && requests[i].ran ==> requests[i].num <= t.watchSeq)
    && (t.watchSeq == 0 ==> !t.watched)
    && (t.watchSeq != 0 ==> exists i :: 0 <= i < |requests| && requests[i] == Request(t.watchSeq, t.watched, true))
  }

  /** The poller the tracker would stop is the only one that runs. */
  ghost predicate PollOk(t: Tracker) {
    && PollerFits(t)
    && (t.stopPoll.Some? <==> t.watched)
    && (forall p :: 0 <= p < |t.pollers| ==> (t.pollers[p] <==> t.stopPoll == Some(p)))
  }

  ghost predicate Inv(s: State) {
    && RefreshesOk(s.t, s.refreshes)
    && PublishedOk(s.t, s.selection, s.published)
    && NumbersOk(s.counter, s.requests)
    && Settled(s.t, s.requests)
    && PollOk(s.t)
  }

  lemma CommitKeepsRefreshes(s: State)
    requires Inv(s) && s.selection.Read?
    ensures RefreshesOk(Apply(s, CommitRefresh).t, Apply(s, CommitRefresh).refreshes)
  {
    var Read(change, seen) := s.selection;
    var r := Refresh(change, seen, StateOf(Refreshed(s.t, change, seen)), s.t.watched);
    if s.refreshes != [] {
      assert Follows(s.refreshes[|s.refreshes| - 1], r);
    }
  }

  lemma CommitKeepsPublished(s: State)
    requires PublishedOk(s.t, s.selection, s.published) && s.selection.Read?
    ensures PublishedOk(Apply(s, CommitRefresh).t, Apply(s, CommitRefresh).selection, s.published)
  {
  }

  lemma PublishKeepsPublished(s: State)
    requires PublishedOk(s.t, s.selection, s.published) && s.selection.Publishing?
    ensures PublishedOk(s.t, Free, s.published + [s.selection.state])
  {
  }

  lemma CommitKeepsInv(s: State)
    requires Inv(s) && s.selection.Read?
    ensures Inv(Apply(s, CommitRefresh))
  {
    CommitKeepsRefreshes(s);
    CommitKeepsPublished(s);
    var t' := Apply(s, CommitRefresh).t;
    assert t'.watchSeq == s.t.watchSeq && t'.watched == s.t.watched;
  }

  /** A watch call touches nothing a refresh reads or writes. */
  lemma WatchKeepsStamps(t: Tracker, t': Tracker, selection: Selection, published: seq<RouteState>,
                         refreshes: seq<Refresh>)
    requires RefreshesOk(t, refreshes) && PublishedOk(t, selection, published)
    requires StateOf(t') == StateOf(t) && t'.picks == t.picks
    requires t'.providerVersions == t.providerVersions && t'.ruleSets == t.ruleSets
    ensures RefreshesOk(t', refreshes) && PublishedOk(t', selection, published)
  {
  }

  lemma WatchSettles(t: Tracker, requests: seq<Request>, k: nat)
    requires Settled(t, requests) && PollOk(t) && k < |requests| && !requests[k].ran && requests[k].num > 0
    requires forall i, j :: 0 <= i < j < |requests| ==> requests[i].num < requests[j].num
    ensures Settled(Watched(t, requests[k].watch, requests[k].num), requests[k := requests[k].(ran := true)])
    ensures PollOk(Watched(t, requests[k].watch, requests[k].num))
  {
    var t' := Watched(t, requests[k].watch, requests[k].num);
    var requests' := requests[k := requests[k].(ran := true)];
    if requests[k].num < t.watchSeq {
      var i :| 0 <= i < |requests| && requests[i] == Request(t.watchSeq, t.watched, true);
      assert requests'[i] == Request(t'.watchSeq, t'.watched, true);
    } else {
      assert requests'[k] == Request(t'.watchSeq, t'.watched, true);
    }
  }

  lemma StopSettles(t: Tracker, counter: nat, requests: seq<Request>)
    requires Settled(t, requests) && PollOk(t) && NumbersOk(counter, requests)
    ensures Settled(Stopped(t, counter + 1), requests + [Request(counter + 1, false, true)])
    ensures PollOk(Stopped(t, counter + 1))
  {
    var requests' := requests + [Request(counter + 1, false, true)];
    assert t.watchSeq <= counter by {
      if t.watchSeq != 0 {
        var i :| 0 <= i < |requests| && requests[i] == Request(t.watchSeq, t.watched, true);
      }
    }
    assert requests'[|requests|] == Request(Stopped(t, counter + 1).watchSeq, false, true);
  }

  lemma DispatchSettles(t: Tracker, requests: seq<Request>, request: Request)
    requires Settled(t, requests) && !request.ran
    ensures Settled(t, requests + [request])
  {
    if t.watchSeq != 0 {
      var i :| 0 <= i < |requests| && requests[i] == Request(t.watchSeq, t.watched, true);
      assert (requests + [request])[i] == Request(t.watchSeq, t.watched, true);
    }
  }

  lemma PublishKeepsInv(s: State)
    requires Inv(s) && s.selection.Publishing?
    ensures Inv(Apply(s, Publish))
  {
    PublishKeepsPublished(s);
  }

  lemma DispatchKeepsInv(s: State, watch: bool)
    requires Inv(s)
    ensures Inv(Apply(s, DispatchWatch(watch)))
  {
    DispatchSettles(s.t, s.requests, Request(s.counter + 1, watch, false));
  }

  lemma RunWatchKeepsInv(s: State, k: nat)
    requires Inv(s) && CanApply(s, RunWatch(k))
    ensures Inv(Apply(s, RunWatch(k)))
  {
    WatchSettles(s.t, s.requests, k);
    WatchKeepsStamps(s.t, Apply(s, RunWatch(k)).t, s.selection, s.published, s.refreshes);
  }

  lemma StopKeepsInv(s: State)
    requires Inv(s)
    ensures Inv(Apply(s, StopWatch))
  {
    StopSettles(s.t, s.counter, s.requests);
    WatchKeepsStamps(s.t, Apply(s, StopWatch).t, s.selection, s.published, s.refreshes);
  }

  lemma StepKeepsInv(s: State, e: Event)
    requires Inv(s) && CanApply(s, e)
    ensures Inv(Apply(s, e))
  {
    match e
    case BeginRefresh(_, _) =>
    case CommitRefresh => CommitKeepsInv(s);
    case Publish => PublishKeepsInv(s);
    case DispatchWatch(watch) => DispatchKeepsInv(s, watch);
    case DispatchOther =>
    case RunWatch(k) => RunWatchKeepsInv(s, k);
    case StopWatch => StopKeepsInv(s);
  }

  lemma {:induction false} RunsKeepInv(run: seq<State>, k: nat)
    requires IsRun(run) && k < |run|
    ensures Inv(run[k])
  {
    if k == 0 {
    } else {
      RunsKeepInv(run, k - 1);
      assert StepsTo(run[k - 1], run[k]);
      var e :| CanApply(run[k - 1], e) && run[k] == Apply(run[k - 1], e);
      StepKeepsInv(run[k - 1], e);
    }
  }

  // ----- Stamps stand for routes -----

  lemma {:induction false} StampsGrow(refreshes: seq<Refresh>, a: nat, b: nat)
    requires forall i {:trigger refreshes[i]} :: 0 <= i < |refreshes| - 1 ==> Follows(refreshes[i], refreshes[i + 1])
    requires a <= b < |refreshes|
    ensures refreshes[a].stamp.version <= refreshes[b].stamp.version
    ensures refreshes[a].stamp.epoch <= refreshes[b].stamp.epoch
    ensures var sa, sb := refreshes[a].stamp, refreshes[b].stamp; sb.epoch - sa.epoch <= sb.version - sa.version
    ensures refreshes[a].stamp.version == refreshes[b].stamp.version ==>
      forall c :: a <= c <= b ==> refreshes[c].seen == refreshes[a].seen && refreshes[c].stamp == refreshes[a].stamp
    decreases b - a
  {
    if a >= b {
    } else {
      assert Follows(refreshes[b - 1], refreshes[b]) by {
        assert 0 <= b - 1 < |refreshes| - 1 && refreshes[b - 1] == refreshes[b - 1];
      }
      StampsGrow(refreshes, a, b - 1);
    }
  }

  /** From the first refresh on, a version stands for one routing snapshot: two refreshes that leave the same version
      read the same picks, provider versions and rule sets, and so did every refresh between them; the epoch is the
      same too. Versions and epochs never go back, and an epoch never moves without the version. */
  lemma SameVersionSameRoute(run: seq<State>, k: nat, a: nat, b: nat)
    requires IsRun(run) && k < |run| && a <= b < |run[k].refreshes|
    ensures var rs := run[k].refreshes;
            && rs[a].stamp.version <= rs[b].stamp.version && rs[a].stamp.epoch <= rs[b].stamp.epoch
            && (rs[a].stamp.epoch < rs[b].stamp.epoch ==> rs[a].stamp.version < rs[b].stamp.version)
            && (rs[a].stamp.version == rs[b].stamp.version ==>
                forall c :: a <= c <= b ==> rs[c].seen == rs[a].seen && rs[c].stamp == rs[a].stamp)
  {
    RunsKeepInv(run, k);
    StampsGrow(run[k].refreshes, a, b);
  }

  /** And versions tell routes apart no more than that: a refresh steps the version exactly when it was asked to or
      read something else than the refresh before it. */
  lemma VersionStepsExactlyOnMoves(run: seq<State>, k: nat, b: nat)
    requires IsRun(run) && k < |run| && 0 < b < |run[k].refreshes|
    ensures var rs := run[k].refreshes;
            rs[b - 1].stamp.version < rs[b].stamp.version <==>
              rs[b].change != RouteUnchanged || rs[b].seen != rs[b - 1].seen
  {
    RunsKeepInv(run, k);
    var rs := run[k].refreshes;
    assert 0 <= b - 1 < |rs| - 1 && rs[b - 1] == rs[b - 1];
    assert Follows(rs[b - 1], rs[b]);
  }

  /** The host hears of versions in strict order, none of them twice. */
  lemma PublishedInOrder(run: seq<State>, k: nat, i: nat, j: nat)
    requires IsRun(run) && k < |run| && i < j < |run[k].published|
    ensures run[k].published[i].version < run[k].published[j].version
  {
    RunsKeepInv(run, k);
  }

  // ----- What the host hears -----

  /** The stamps of the refreshes that stepped the version while the route was watched. */
  function Heard(refreshes: seq<Refresh>): seq<RouteState> {
    if refreshes == [] then []
    else
      var n := |refreshes| - 1;
      var before := if n == 0 then 0 else refreshes[n - 1].stamp.version;
      Heard(refreshes[..n]) +
      (if refreshes[n].watched && refreshes[n].stamp.version > before then [refreshes[n].stamp] else [])
  }

  ghost predicate Hears(s: State) {
    s.published + (if s.selection.Publishing? then [s.selection.state] else []) == Heard(s.refreshes)
  }

  lemma StepKeepsHearing(s: State, e: Event)
    requires Inv(s) && Hears(s) && CanApply(s, e)
    ensures Hears(Apply(s, e))
  {
    if e.CommitRefresh? {
      var s' := Apply(s, e);
      LastVersion(s);
      HeardOneMore(s.refreshes, s'.refreshes[|s.refreshes|], s.t.version);
    }
  }

  /** The host hears exactly the moves that were seen while it watched: in every run the published states, with the one
      about to be published, are the stamps of those refreshes, in order. */
  lemma {:induction false} PublishedExactly(run: seq<State>, k: nat)
    requires IsRun(run) && k < |run|
    ensures Hears(run[k])
  {
    if k == 0 {
    } else {
      PublishedExactly(run, k - 1);
      RunsKeepInv(run, k - 1);
      assert StepsTo(run[k - 1], run[k]);
      var e :| CanApply(run[k - 1], e) && run[k] == Apply(run[k - 1], e);
      StepKeepsHearing(run[k - 1], e);
    }
  }

  /** Until the selection lock is free again no other refresh commits. */
  lemma {:induction false} NoRefreshUntilFree(run: seq<State>, k: nat, m: nat)
    requires IsRun(run) && k < m < |run| && !run[k + 1].selection.Read?
    requires forall c :: k < c < m ==> !run[c].selection.Free?
    ensures run[m].refreshes == run[k + 1].refreshes && !run[m].selection.Read?
    decreases m - k
  {
    if m == k + 1 {
    } else {
      NoRefreshUntilFree(run, k, m - 1);
      assert StepsTo(run[m - 1], run[m]);
    }
  }

  /** The step of a commit. */
  lemma CommitAdds(s: State, s': State)
    requires StepsTo(s, s') && s.selection.Read? && !s'.selection.Read?
    ensures var change, seen := s.selection.change, s.selection.seen;
            s'.refreshes == s.refreshes + [Refresh(change, seen, StateOf(s'.t), s.t.watched)]
  {
  }

  lemma HeardOneMore(refreshes: seq<Refresh>, r: Refresh, version: nat)
    requires version == if refreshes == [] then 0 else refreshes[|refreshes| - 1].stamp.version
    ensures Heard(refreshes + [r]) ==
            Heard(refreshes) + (if r.watched && r.stamp.version > version then [r.stamp] else [])
  {
    assert (refreshes + [r])[..|refreshes|] == refreshes;
  }

  lemma LastVersion(s: State)
    requires Inv(s)
    ensures s.t.version == if s.refreshes == [] then 0 else s.refreshes[|s.refreshes| - 1].stamp.version
  {
  }

  /** A refresh that steps the version of a watched route publishes the stamp it leaves before the next one begins, and
      any other publishes nothing. */
  lemma RefreshPublishesExactly(run: seq<State>, k: nat, m: nat)
    requires IsRun(run) && k < m < |run| && run[k].selection.Read? && !run[k + 1].selection.Read?
    requires run[m].selection.Free? && forall c :: k < c < m ==> !run[c].selection.Free?
    ensures run[m].published == run[k].published +
              (if run[k].t.watched && run[k + 1].t.version > run[k].t.version then [StateOf(run[k + 1].t)] else [])
  {
    var s, s' := run[k], run[k + 1];
    RunsKeepInv(run, k);
    LastVersion(s);
    PublishedExactly(run, k);
    PublishedExactly(run, m);
    assert s.published + [] == s.published && run[m].published + [] == run[m].published;
    NoRefreshUntilFree(run, k, m);
    CommitAdds(s, s');
    HeardOneMore(s.refreshes, Refresh(s.selection.change, s.selection.seen, StateOf(s'.t), s.t.watched), s.t.version);
  }

  lemma {:induction false} RefreshesOnlyGrow(run: seq<State>, a: nat, b: nat)
    requires IsRun(run) && a <= b < |run|
    ensures run[a].refreshes <= run[b].refreshes
    decreases b - a
  {
    if a >= b {
    } else {
      RefreshesOnlyGrow(run, a, b - 1);
      assert StepsTo(run[b - 1], run[b]);
    }
  }

  lemma NothingMovedBetween(rs: seq<Refresh>, a: nat, c: nat)
    requires forall i {:trigger rs[i]} :: 0 <= i < |rs| - 1 ==> Follows(rs[i], rs[i + 1])
    requires a < c < |rs| && rs[|rs| - 1].stamp == rs[a].stamp
    ensures rs[c].change == RouteUnchanged && rs[c].stamp == rs[a].stamp && rs[c].seen == rs[a].seen
  {
    StampsGrow(rs, a, |rs| - 1);
    assert rs[c - 1].stamp == rs[a].stamp;
    assert Follows(rs[c - 1], rs[c]);
  }

  /** A route check answers with the stamp read at a. If that is still the stamp at b, no refresh between the two
      moved: each of them read what the last refresh before a had read. */
  lemma SameStampNoMove(run: seq<State>, a: nat, b: nat, c: nat)
    requires IsRun(run) && a <= b < |run| && StateOf(run[a].t) == StateOf(run[b].t)
    requires 0 < |run[a].refreshes| <= c < |run[b].refreshes|
    ensures var r := run[b].refreshes[c];
            && r.change == RouteUnchanged && r.stamp == StateOf(run[a].t)
            && r.seen == run[a].refreshes[|run[a].refreshes| - 1].seen
  {
    RunsKeepInv(run, a);
    RunsKeepInv(run, b);
    RefreshesOnlyGrow(run, a, b);
    NothingMovedBetween(run[b].refreshes, |run[a].refreshes| - 1, c);
  }

  // ----- Watch calls settle -----

  /** However watch calls overtake each other, once every request has run the flag is that of the one dispatched
      last. */
  lemma LastRequestWins(run: seq<State>, k: nat)
    requires IsRun(run) && k < |run| && run[k].requests != []
    requires forall i :: 0 <= i < |run[k].requests| ==> run[k].requests[i].ran
    ensures run[k].t.watched == run[k].requests[|run[k].requests| - 1].watch
  {
    RunsKeepInv(run, k);
    var s := run[k];
    var last := |s.requests| - 1;
    assert s.requests[last].ran && s.requests[last].num <= s.t.watchSeq;
    var i :| 0 <= i < |s.requests| && s.requests[i] == Request(s.t.watchSeq, s.t.watched, true);
  }

  /** At every moment a poller runs exactly while the route is watched, and never two of them. */
  lemma OnePollerWhileWatched(run: seq<State>, k: nat)
    requires IsRun(run) && k < |run|
    ensures run[k].t.watched <==> exists p :: 0 <= p < |run[k].t.pollers| && run[k].t.pollers[p]
    ensures var pollers := run[k].t.pollers;
            forall p, q :: 0 <= p < |pollers| && 0 <= q < |pollers| && pollers[p] && pollers[q] ==> p == q
  {
    RunsKeepInv(run, k);
    if run[k].t.watched {
      assert run[k].t.pollers[run[k].t.stopPoll.value];
    }
  }

  /** Right after a stop nothing is watched and no poller runs, whatever watch calls still wait. */
  lemma StopEndsPolling(run: seq<State>, k: nat, p: nat)
    requires IsRun(run) && k + 1 < |run| && CanApply(run[k], StopWatch) && run[k + 1] == Apply(run[k], StopWatch)
    requires p < |run[k + 1].t.pollers|
    ensures !run[k + 1].t.watched && !run[k + 1].t.pollers[p]
  {
    RunsKeepInv(run, k + 1);
  }
}
