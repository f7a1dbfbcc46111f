/** The version stamps of the routing snapshot, and the watch that publishes and polls them. */
module RouteTracker {
  import opened Wrappers

  datatype RouteChange = RouteUnchanged | RouteMoved | RouteReset

  /** What one refresh reads: the pick of every group, the version of every provider and the strategy of every rule
      set. */
  datatype Snapshot = Snapshot(picks: map<string, string>, versions: map<string, nat>, ruleSets: map<string, nat>)

  datatype RouteState = RouteState(epoch: nat, version: nat)

  /** The tracker under its lock. pollers tells of every poller ever started whether it still runs. */
  datatype Tracker = Tracker(
    epoch: nat,
    version: nat,
    picks: map<string, string>,
    providerVersions: Option<map<string, nat>>,
    ruleSets: Option<map<string, nat>>,
    watched: bool,
    watchSeq: nat,
    stopPoll: Option<nat>,
    pollers: seq<bool>)

  const FRESH := Tracker(0, 0, map[], None, None, false, 0, None, [])

  function StateOf(t: Tracker): RouteState {
    RouteState(t.epoch, t.version)
  }

  /** What a refresh makes of a requested change: before the first refresh only picks can differ. */
  function Effective(t: Tracker, change: RouteChange, seen: Snapshot): RouteChange {
    if change != RouteUnchanged then change
    else if (t.providerVersions.Some? && t.providerVersions.value != seen.versions)
            || (t.ruleSets.Some? && t.ruleSets.value != seen.ruleSets)
            || t.picks != seen.picks then RouteMoved
    else RouteUnchanged
  }

  function Refreshed(t: Tracker, change: RouteChange, seen: Snapshot): Tracker {
    var c := Effective(t, change, seen);
    t.(picks := seen.picks,
       providerVersions := Some(seen.versions),
       ruleSets := Some(seen.ruleSets),
       epoch := t.epoch + (if c == RouteReset then 1 else 0),
       version := t.version + (if c == RouteUnchanged then 0 else 1))
  }

  /** The state a refresh publishes, if it publishes. */
  function ToPublish(t: Tracker, change: RouteChange, seen: Snapshot): Option<RouteState> {
    if Effective(t, change, seen) != RouteUnchanged && t.watched then Some(StateOf(Refreshed(t, change, seen)))
    else None
  }

  predicate PollerFits(t: Tracker) {
    t.stopPoll.Some? ==> t.stopPoll.value < |t.pollers|
  }

  function PollStopped(t: Tracker): Tracker
    requires PollerFits(t)
  {
    if t.stopPoll.Some? then t.(pollers := t.pollers[t.stopPoll.value := false], stopPoll := None) else t
  }

  /** A watch request is taken unless a later one was. */
  function Watched(t: Tracker, watch: bool, num: nat): Tracker
    requires PollerFits(t)
  {
    if num < t.watchSeq then t
    else
      var t1 := t.(watchSeq := num, watched := watch);
      if !watch then PollStopped(t1)
      else if t1.stopPoll.None? then t1.(pollers := t1.pollers + [true], stopPoll := Some(|t1.pollers|))
      else t1
  }

  /** A stop takes the next number in the call order. */
  function Stopped(t: Tracker, num: nat): Tracker
    requires PollerFits(t)
  {
    PollStopped(t.(watchSeq := if num > t.watchSeq then num else t.watchSeq, watched := false))
  }

  /** The tracker as the program keeps it, with the messages it sent. */
  class RouteTracker {
    var epoch: nat
    var version: nat
    var picks: map<string, string>
    var providerVersions: Option<map<string, nat>>
    var ruleSets: Option<map<string, nat>>
    var watched: bool
    var watchSeq: nat
    var stopPoll: Option<nat>
    var pollers: seq<bool>
    var published: seq<RouteState>

    ghost function Value(): Tracker
      reads this
    {
      Tracker(epoch, version, picks, providerVersions, ruleSets, watched, watchSeq, stopPoll, pollers)
    }

    constructor ()
      ensures Value() == FRESH && published == []
    {
      epoch, version, picks, providerVersions, ruleSets := 0, 0, map[], None, None;
      watched, watchSeq, stopPoll, pollers, published := false, 0, None, [], [];
    }

    /** The stronger of the requested change and the one the snapshot shows. */
    method Compare(requested: RouteChange, seen: Snapshot) returns (change: RouteChange)
      ensures change == Effective(Value(), requested, seen)
    {
      change := requested;
      if (providerVersions.Some? && seen.versions != providerVersions.value)
         || (ruleSets.Some? && seen.ruleSets != ruleSets.value)
         || seen.picks != picks {
        if change == RouteUnchanged {
          change := RouteMoved;
        }
      }
    }

    /** The snapshot shows what was stored; before the first refresh only the picks are compared. */
    ghost predicate Shows(seen: Snapshot)
      reads this
    {
      && (providerVersions.Some? ==> seen.versions == providerVersions.value)
      && (ruleSets.Some? ==> seen.ruleSets == ruleSets.value)
      && seen.picks == picks
    }

    /** The version steps exactly if that was asked for or something moved, and a step is published exactly while the
        route is watched, with the stamp it leaves. */
    method RefreshRouteLocked(requested: RouteChange, seen: Snapshot)
      modifies this
      ensures version == old(version) + (if requested == RouteUnchanged && old(Shows(seen)) then 0 else 1)
      ensures epoch == old(epoch) + (if requested == RouteReset then 1 else 0)
      ensures published == old(published) +
                           (if old(watched) && version > old(version) then [RouteState(epoch, version)] else [])
      ensures Value() == Refreshed(old(Value()), requested, seen)
      ensures var sent := ToPublish(old(Value()), requested, seen);
              published == old(published) + (if sent.Some? then [sent.value] else [])
    {
      var change := Compare(requested, seen);
      providerVersions, ruleSets, picks := Some(seen.versions), Some(seen.ruleSets), seen.picks;
      if change == RouteReset {
        epoch := epoch + 1;
      }
      if change == RouteUnchanged {
        return;
      }
      version := version + 1;
      if !watched {
        return;
      }
      published := published + [RouteState(epoch, version)];
    }

    method StopRoutePollLocked()
      requires PollerFits(Value())
      modifies this
      ensures Value() == PollStopped(old(Value())) && published == old(published)
    {
      if stopPoll.Some? {
        pollers := pollers[stopPoll.value := false];
        stopPoll := None;
      }
    }

    /** Refreshes before the request is looked at, so the answer carries what the watch starts from. */
    method HandleWatchRoute(watch: bool, num: nat, seen: Snapshot) returns (state: RouteState)
      requires PollerFits(Value())
      modifies this
      ensures Value() == Watched(Refreshed(old(Value()), RouteUnchanged, seen), watch, num)
      ensures state == RouteState(epoch, version)
      ensures version == old(version) + (if old(Shows(seen)) then 0 else 1) && epoch == old(epoch)
      ensures published == old(published) +
                           (if old(watched) && version > old(version) then [RouteState(epoch, version)] else [])
      ensures var sent := ToPublish(old(Value()), RouteUnchanged, seen);
              published == old(published) + (if sent.Some? then [sent.value] else [])
    {
      RefreshRouteLocked(RouteUnchanged, seen);
      if num < watchSeq {
        return RouteState(epoch, version);
      }
      watchSeq, watched := num, watch;
      if watch && stopPoll.None? {
        stopPoll := Some(|pollers|);
        pollers := pollers + [true];
      }
      if !watch {
        StopRoutePollLocked();
      }
      state := RouteState(epoch, version);
    }

    method StopRouteWatch(num: nat)
      requires PollerFits(Value())
      modifies this
      ensures Value() == Stopped(old(Value()), num) && published == old(published)
    {
      if num > watchSeq {
        watchSeq := num;
      }
      watched := false;
      StopRoutePollLocked();
    }
  }
}
