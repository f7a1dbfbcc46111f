/** The watch that reports the traffic of requests until they close. */
module RequestTraffic {
  const CLOSE_RETRIES := 5

  datatype Totals = Totals(upload: int, download: int)

  datatype Report = Report(id: string, totals: Totals)

  /** totals are those of the last report the queue took; isFresh until the first collect; closedReports counts the
      collects since the request was first seen closed. */
  datatype WatchedRequest = WatchedRequest(totals: Totals, isFresh: bool, closedReports: nat)

  type Requests = map<string, WatchedRequest>

  // ----- What one collect does -----

  function Counted(r: WatchedRequest, isOpen: bool): WatchedRequest {
    r.(closedReports := r.closedReports + (if r.closedReports > 0 || (!r.isFresh && !isOpen) then 1 else 0),
       isFresh := false)
  }

  /** A closed request goes once its report was taken, or after the last retry. */
  predicate IsDropped(r: WatchedRequest, queued: bool) {
    r.closedReports > 0 && (queued || r.closedReports > CLOSE_RETRIES)
  }

  /** What moved since the last report that was taken. */
  function Changed(requests: Requests, reading: map<string, Totals>): map<string, Totals>
    requires requests.Keys <= reading.Keys
  {
    map id | id in requests && reading[id] != requests[id].totals :: reading[id]
  }

  function Collected(requests: Requests, open: set<string>, reading: map<string, Totals>, queued: bool): Requests
    requires requests.Keys <= reading.Keys
  {
    map id | id in requests && !IsDropped(Counted(requests[id], id in open), queued) ::
      Counted(requests[id], id in open).(totals := if queued then reading[id] else requests[id].totals)
  }

  /** The list holds each entry of the map once. */
  ghost predicate Lists(list: seq<Report>, entries: map<string, Totals>) {
    && (forall i :: 0 <= i < |list| ==> list[i].id in entries && entries[list[i].id] == list[i].totals)
    && (forall i, j :: 0 <= i < j < |list| ==> list[i].id != list[j].id)
    && (forall id :: id in entries ==> exists i :: 0 <= i < |list| && list[i].id == id)
  }

  /** Each report tells totals that were read and are not those stored. */
  ghost predicate IsNews(list: seq<Report>, requests: Requests, reading: map<string, Totals>) {
    forall i :: 0 <= i < |list| ==>
      && list[i].id in requests && list[i].id in reading
      && list[i].totals == reading[list[i].id] != requests[list[i].id].totals
  }

  lemma ListedIsNews(list: seq<Report>, requests: Requests, reading: map<string, Totals>)
    requires requests.Keys <= reading.Keys && Lists(list, Changed(requests, reading))
    ensures IsNews(list, requests, reading)
  {
  }

  /** Once every listed change is stored, every total is the one read. */
  lemma EveryTotalIsRead(requests: Requests, changed: seq<Report>, before: Requests, reading: map<string, Totals>)
    requires requests.Keys == before.Keys <= reading.Keys && Lists(changed, Changed(before, reading))
    requires forall id :: id in before ==>
               requests[id].totals == reading[id] || requests[id].totals == before[id].totals
    requires forall j :: 0 <= j < |changed| ==>
               changed[j].id in requests && requests[changed[j].id].totals == reading[changed[j].id]
    ensures forall id :: id in before ==> requests[id].totals == reading[id]
  {
    forall id | id in before ensures requests[id].totals == reading[id] {
      if id in Changed(before, reading) {
        var i :| 0 <= i < |changed| && changed[i].id == id;
      }
    }
  }

  class RequestTrafficWatch {
    var requests: Requests
    var running: bool

    constructor ()
      ensures requests == map[] && !running
    {
      requests, running := map[], false;
    }

    method Add(id: string, opening: Totals) returns (start: bool)
      modifies this
      ensures requests == old(requests)[id := WatchedRequest(opening, true, 0)]
      ensures running && start == !old(running)
    {
      requests := requests[id := WatchedRequest(opening, true, 0)];
      start := !running;
      running := true;
    }

    /** The first pass: counts closed requests and finds what moved, in any order. */
    method Read(open: set<string>, reading: map<string, Totals>) returns (changed: seq<Report>)
      requires requests.Keys <= reading.Keys
      modifies this`requests
      ensures requests == map id | id in old(requests) :: Counted(old(requests)[id], id in open)
      ensures Lists(changed, Changed(old(requests), reading))
    {
      ghost var before := requests;
      changed := [];
      var left := requests.Keys;
      while left != {}
        invariant left <= before.Keys && requests.Keys == before.Keys
        invariant forall id :: id in before ==>
          requests[id] == if id in left then before[id] else Counted(before[id], id in open)
        invariant Lists(changed,
          map id | id in before && id !in left && reading[id] != before[id].totals :: reading[id])
        decreases left
      {
        var id :| id in left;
        var request := requests[id];
        if request.closedReports > 0 || (!request.isFresh && id !in open) {
          request := request.(closedReports := request.closedReports + 1);
        }
        request := request.(isFresh := false);
        ghost var listed := changed;
        if reading[id] != request.totals {
          changed := changed + [Report(id, reading[id])];
        }
        requests := requests[id := request];
        ListedMore(before, reading, left, id, listed, changed);
        left := left - {id};
      }
      assert (map id | id in before && id !in left && reading[id] != before[id].totals :: reading[id])
          == Changed(before, reading);
    }

    /** One tick: reports what moved, and lets go of closed requests. */
    method Collect(open: set<string>, reading: map<string, Totals>, accepts: bool)
      returns (watching: bool, changed: seq<Report>)
      requires requests.Keys <= reading.Keys
      modifies this
      ensures Lists(changed, Changed(old(requests), reading))
      ensures IsNews(changed, old(requests), reading)
      ensures requests == Collected(old(requests), open, reading, changed == [] || accepts)
      ensures watching == running == (requests != map[])
    {
      ghost var before := requests;
      changed := Read(open, reading);
      ListedIsNews(changed, before, reading);
      var queued := |changed| == 0 || accepts;
      if queued {
        Store(changed, before, open, reading);
      }
      Drop(queued);
      running := |requests| > 0;
      watching := running;
    }

    method Store(changed: seq<Report>, ghost before: Requests, ghost open: set<string>,
                 ghost reading: map<string, Totals>)
      requires before.Keys == requests.Keys <= reading.Keys && Lists(changed, Changed(before, reading))
      requires forall id :: id in before ==> requests[id] == Counted(before[id], id in open)
      modifies this`requests
      ensures requests.Keys == before.Keys
      ensures forall id :: id in before ==> requests[id] == Counted(before[id], id in open).(totals := reading[id])
    {
      for i := 0 to |changed|
        invariant requests.Keys == before.Keys
        invariant forall id :: id in before ==>
          && requests[id] == Counted(before[id], id in open).(totals := requests[id].totals)
          && (requests[id].totals == reading[id] || requests[id].totals == before[id].totals)
        invariant forall j :: 0 <= j < i ==> requests[changed[j].id].totals == reading[changed[j].id]
      {
        requests := requests[changed[i].id := requests[changed[i].id].(totals := changed[i].totals)];
      }
      EveryTotalIsRead(requests, changed, before, reading);
    }

    method Drop(queued: bool)
      modifies this`requests
      ensures requests == map id | id in old(requests) && !IsDropped(old(requests)[id], queued) :: old(requests)[id]
    {
      ghost var before := requests;
      var left := requests.Keys;
      while left != {}
        invariant left <= requests.Keys <= before.Keys
        invariant forall id :: id in before ==> (id in requests <==> id in left || !IsDropped(before[id], queued))
        invariant forall id :: id in requests ==> requests[id] == before[id]
        decreases left
      {
        var id :| id in left;
        if requests[id].closedReports > 0 && (queued || requests[id].closedReports > CLOSE_RETRIES) {
          requests := requests - {id};
        }
        left := left - {id};
      }
    }

    method Clear()
      modifies this
      ensures requests == map[] && !running
    {
      requests, running := map[], false;
    }
  }

  lemma ListedMore(before: Requests, reading: map<string, Totals>, left: set<string>, id: string,
                   listed: seq<Report>, changed: seq<Report>)
    requires before.Keys <= reading.Keys && id in left && left <= before.Keys
    requires Lists(listed, map x | x in before && x !in left && reading[x] != before[x].totals :: reading[x])
    requires changed == if reading[id] != before[id].totals then listed + [Report(id, reading[id])] else listed
    ensures Lists(changed, map x | x in before && x !in left - {id} && reading[x] != before[x].totals :: reading[x])
  {
    var entries := map x | x in before && x !in left && reading[x] != before[x].totals :: reading[x];
    var more := map x | x in before && x !in left - {id} && reading[x] != before[x].totals :: reading[x];
    forall x | x in more ensures exists i :: 0 <= i < |changed| && changed[i].id == x {
      if x == id {
        assert changed[|changed| - 1].id == id;
      } else {
        assert x in entries;
        var i :| 0 <= i < |listed| && listed[i].id == x;
        assert changed[i].id == x;
      }
    }
  }
}
