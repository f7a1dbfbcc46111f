/** The exit of a route, computed twice: by unwrapping the proxy, and from the chain of names a connection left. */
module RouteExits {
  import opened Wrappers

  datatype Proxy = Proxy(name: string, kind: string, addr: string) {
    predicate IsLoadBalance() {
      kind == "LoadBalance"
    }
  }

  /** What is printed of a proxy as an exit; the empty string of the program is None. */
  datatype Exit = Exit(name: string, kind: string, addr: string)

  function ExitName(p: Proxy): Exit {
    Exit(p.name, p.kind, p.addr)
  }

  /** Unwrapping the head of the path yields its hops one by one and ends at the last. */
  ghost predicate IsUnwrapPath(path: seq<Proxy>, unwrap: Proxy -> Option<Proxy>) {
    && path != []
    && (forall i :: 0 <= i < |path| - 1 ==> unwrap(path[i]) == Some(path[i + 1]))
    && unwrap(path[|path| - 1]).None?
  }

  /** Hop e is the exit: the outermost load balancer, or the leaf if there is none. */
  predicate IsExit(path: seq<Proxy>, e: nat) {
    && e < |path|
    && (forall i :: 0 <= i < e ==> !path[i].IsLoadBalance())
    && (path[e].IsLoadBalance() || e == |path| - 1)
  }

  lemma {:induction false} ExitExists(path: seq<Proxy>) returns (e: nat)
    requires path != []
    ensures IsExit(path, e)
  {
    if path[0].IsLoadBalance() || |path| == 1 {
      e := 0;
    } else {
      var e' := ExitExists(path[1..]);
      e := e' + 1;
      assert forall i :: 0 < i < |path| ==> path[i] == path[1..][i - 1];
    }
  }

  /** From hop to hop until the first load balancer, or a proxy that wraps no other. */
  ghost predicate LeadsToExit(path: seq<Proxy>, unwrap: Proxy -> Option<Proxy>) {
    && path != []
    && (forall i :: 0 <= i < |path| - 1 ==> !path[i].IsLoadBalance() && unwrap(path[i]) == Some(path[i + 1]))
    && (path[|path| - 1].IsLoadBalance() || unwrap(path[|path| - 1]).None?)
  }

  method ExitThrough(root: Option<Proxy>, unwrap: Proxy -> Option<Proxy>, ghost path: seq<Proxy>)
    returns (r: Option<Exit>)
    requires root.Some? ==> LeadsToExit(path, unwrap) && path[0] == root.value
    ensures r == if root.None? then None else Some(ExitName(path[|path| - 1]))
  {
    var proxy := root;
    ghost var at := 0;
    while proxy.Some?
      invariant root.None? ==> proxy.None?
      invariant root.Some? ==> proxy.Some? && at < |path| && proxy.value == path[at]
      decreases if proxy.Some? then |path| - at else 0
    {
      if proxy.value.IsLoadBalance() {
        return Some(ExitName(proxy.value));
      }
      var next := unwrap(proxy.value);
      assert at < |path| - 1 ==> next == Some(path[at + 1]);
      if next.None? {
        return Some(ExitName(proxy.value));
      }
      proxy := next;
      at := at + 1;
    }
    r := None;
  }

  /** On a whole path that is its exit. */
  lemma ExitEndsPath(path: seq<Proxy>, unwrap: Proxy -> Option<Proxy>, e: nat)
    requires IsUnwrapPath(path, unwrap) && IsExit(path, e)
    ensures LeadsToExit(path[..e + 1], unwrap) && path[..e + 1][e] == path[e]
  {
  }

  /** The exit found within so many hops. */
  function ExitWithin(p: Proxy, unwrap: Proxy -> Option<Proxy>, fuel: nat): Option<Exit>
    decreases fuel
  {
    if fuel == 0 then None
    else if p.IsLoadBalance() || unwrap(p).None? then Some(ExitName(p))
    else ExitWithin(unwrap(p).value, unwrap, fuel - 1)
  }

  lemma {:induction false} PathWithin(p: Proxy, unwrap: Proxy -> Option<Proxy>, fuel: nat) returns (path: seq<Proxy>)
    requires ExitWithin(p, unwrap, fuel).Some?
    ensures LeadsToExit(path, unwrap) && path[0] == p
    decreases fuel
  {
    if p.IsLoadBalance() || unwrap(p).None? {
      path := [p];
    } else {
      var rest := PathWithin(unwrap(p).value, unwrap, fuel - 1);
      path := [p] + rest;
      assert forall i :: 0 < i < |path| ==> path[i] == rest[i - 1];
    }
  }

  lemma {:induction false} WithinPath(path: seq<Proxy>, unwrap: Proxy -> Option<Proxy>)
    requires LeadsToExit(path, unwrap)
    ensures ExitWithin(path[0], unwrap, |path|) == Some(ExitName(path[|path| - 1]))
    decreases |path|
  {
    if |path| == 1 {
    } else {
      assert path[0] == path[..|path| - 1][0] && unwrap(path[0]) == Some(path[1]);
      assert forall i :: 0 <= i < |path[1..]| ==> path[1..][i] == path[i + 1];
      WithinPath(path[1..], unwrap);
    }
  }

  /** Unwrapping ends if and only if such a path leads to an exit: there is no cycle of proxies in front of the first
      load balancer. */
  lemma ExitEndsExactly(p: Proxy, unwrap: Proxy -> Option<Proxy>)
    ensures (exists fuel: nat :: ExitWithin(p, unwrap, fuel).Some?) <==>
            exists path :: LeadsToExit(path, unwrap) && path[0] == p
  {
    if fuel: nat :| ExitWithin(p, unwrap, fuel).Some? {
      var path := PathWithin(p, unwrap, fuel);
    }
    if path :| LeadsToExit(path, unwrap) && path[0] == p {
      WithinPath(path, unwrap);
    }
  }

  /** A group that wraps itself is unwrapped forever. */
  lemma {:induction false} SelfWrapNeverEnds(p: Proxy, unwrap: Proxy -> Option<Proxy>, fuel: nat)
    requires unwrap(p) == Some(p) && !p.IsLoadBalance()
    ensures ExitWithin(p, unwrap, fuel).None?
  {
    if fuel == 0 {
    } else {
      SelfWrapNeverEnds(p, unwrap, fuel - 1);
    }
  }

  predicate NamesLoadBalance(proxies: map<string, Proxy>, name: string) {
    name in proxies && proxies[name].IsLoadBalance()
  }

  /** What a chain of names says: read from its end, the first name of a load balancer, else its first name. */
  function ChainExit(chains: seq<string>, proxies: map<string, Proxy>): Option<Exit> {
    if chains == [] then None
    else if |chains| == 1 then (if chains[0] in proxies then Some(ExitName(proxies[chains[0]])) else None)
    else
      var last := chains[|chains| - 1];
      if NamesLoadBalance(proxies, last) then Some(ExitName(proxies[last]))
      else ChainExit(chains[..|chains| - 1], proxies)
  }

  method ExitOfChains(chains: seq<string>, proxies: map<string, Proxy>) returns (r: Option<Exit>)
    ensures r == ChainExit(chains, proxies)
  {
    if |chains| == 0 {
      return None;
    }
    var i := |chains|;
    assert chains[..i] == chains;
    while i > 1
      invariant 1 <= i <= |chains|
      invariant ChainExit(chains, proxies) == ChainExit(chains[..i], proxies)
    {
      i := i - 1;
      assert chains[..i + 1][..i] == chains[..i];
      if chains[i] in proxies && proxies[chains[i]].IsLoadBalance() {
        return Some(ExitName(proxies[chains[i]]));
      }
    }
    if chains[0] in proxies {
      return Some(ExitName(proxies[chains[0]]));
    }
    r := None;
  }

  /** The names a connection over this path leaves, the hop that dialed out first. */
  function ChainsOf(path: seq<Proxy>): (chains: seq<string>)
    ensures |chains| == |path|
    ensures forall i :: 0 <= i < |path| ==> chains[i] == path[|path| - 1 - i].name
  {
    if path == [] then [] else ChainsOf(path[1..]) + [path[0].name]
  }

  /** Hop d is the exit the names of the path tell: the first whose name is that of a load balancer, or the leaf. */
  predicate IsNamedExit(path: seq<Proxy>, d: nat, proxies: map<string, Proxy>) {
    && d < |path|
    && (forall i :: 0 <= i < d ==> !NamesLoadBalance(proxies, path[i].name))
    && (d == |path| - 1 || NamesLoadBalance(proxies, path[d].name))
  }

  lemma {:induction false} NamedExitExists(path: seq<Proxy>, proxies: map<string, Proxy>) returns (d: nat)
    requires path != []
    ensures IsNamedExit(path, d, proxies)
  {
    if |path| == 1 || NamesLoadBalance(proxies, path[0].name) {
      d := 0;
    } else {
      var d' := NamedExitExists(path[1..], proxies);
      d := d' + 1;
      assert forall i :: 0 < i < |path| ==> path[i] == path[1..][i - 1];
    }
  }

  lemma NamedExitOfTail(path: seq<Proxy>, d: nat, proxies: map<string, Proxy>)
    requires IsNamedExit(path, d, proxies) && d > 0
    ensures IsNamedExit(path[1..], d - 1, proxies) && path[1..][d - 1] == path[d]
    ensures !NamesLoadBalance(proxies, path[0].name)
  {
    assert forall i :: 0 <= i < |path| - 1 ==> path[1..][i] == path[i + 1];
  }

  lemma ChainsOfTail(path: seq<Proxy>)
    requires path != []
    ensures ChainsOf(path)[..|path| - 1] == ChainsOf(path[1..])
    ensures ChainsOf(path)[|path| - 1] == path[0].name
  {
  }

  /** The chain of names tells what the table holds under the name of that hop. */
  lemma {:induction false} ChainStopsAtNamedExit(path: seq<Proxy>, d: nat, proxies: map<string, Proxy>)
    requires IsNamedExit(path, d, proxies)
    ensures ChainExit(ChainsOf(path), proxies) ==
            if path[d].name in proxies then Some(ExitName(proxies[path[d].name])) else None
    decreases path
  {
    ChainsOfTail(path);
    if d > 0 {
      NamedExitOfTail(path, d, proxies);
      ChainStopsAtNamedExit(path[1..], d - 1, proxies);
    }
  }

  /** Both computations agree if and only if the hop that the names tell stands, in the table, for the exit of the
      path. */
  lemma ExitsAgreeExactly(path: seq<Proxy>, e: nat, d: nat, proxies: map<string, Proxy>)
    requires IsExit(path, e) && IsNamedExit(path, d, proxies)
    ensures ChainExit(ChainsOf(path), proxies) == Some(ExitName(path[e])) <==>
            path[d].name in proxies && proxies[path[d].name] == path[e]
  {
    ChainStopsAtNamedExit(path, d, proxies);
  }

  /** The proxies by name hold what the hops up to the exit need: none of them but the exit is the name of a load
      balancer, and the exit's name is that of the exit. */
  predicate NamesResolve(path: seq<Proxy>, e: nat, proxies: map<string, Proxy>)
    requires e < |path|
  {
    && (forall i :: 0 <= i < e ==> !NamesLoadBalance(proxies, path[i].name))
    && path[e].name in proxies && proxies[path[e].name] == path[e]
  }

  /** They agree on every path whose names resolve to its hops up to the exit: then that hop is the exit. */
  lemma ExitsAgree(path: seq<Proxy>, e: nat, proxies: map<string, Proxy>)
    requires IsExit(path, e) && NamesResolve(path, e, proxies)
    ensures ChainExit(ChainsOf(path), proxies) == Some(ExitName(path[e]))
  {
    ExitsAgreeExactly(path, e, e, proxies);
  }

  /** In particular when every hop is the proxy its name stands for. */
  lemma ExitsAgreeOnKnownHops(path: seq<Proxy>, proxies: map<string, Proxy>)
    requires path != [] && forall i :: 0 <= i < |path| ==> path[i].name in proxies && proxies[path[i].name] == path[i]
    ensures forall e: nat :: IsExit(path, e) ==> ChainExit(ChainsOf(path), proxies) == Some(ExitName(path[e]))
  {
    forall e: nat | IsExit(path, e) ensures ChainExit(ChainsOf(path), proxies) == Some(ExitName(path[e])) {
      ExitsAgree(path, e, proxies);
    }
  }

  /** Without that they may not: a provider's node behind a group is taken for the node of that name the table holds. */
  lemma ShadowedNameDisagrees()
    ensures var group, node := Proxy("Auto", "URLTest", ""), Proxy("HK 1", "Trojan", "a:443");
            var other := Proxy("HK 1", "Trojan", "b:443");
            && IsExit([group, node], 1)
            && ChainExit(ChainsOf([group, node]), map["Auto" := group, "HK 1" := other]) != Some(ExitName(node))
  {
    var group, node := Proxy("Auto", "URLTest", ""), Proxy("HK 1", "Trojan", "a:443");
    var proxies := map["Auto" := group, "HK 1" := Proxy("HK 1", "Trojan", "b:443")];
    var chains := ChainsOf([group, node]);
    assert chains == ["HK 1", "Auto"];
    assert chains[..1] == ["HK 1"];
    assert ChainExit(["HK 1"], proxies) == Some(Exit("HK 1", "Trojan", "b:443"));
  }

  // ----- Checking held routes -----

  datatype RouteHit = RouteHit(host: string, proxy: string, exit: string)

  /** The exits found so far are those a fresh look-up finds. */
  ghost predicate Remembers(exits: map<(string, string), string>, resolve: (string, string) -> string) {
    forall key :: key in exits ==> exits[key] == resolve(key.0, key.1)
  }

  /** A route is held if it has hits and each of them still leaves by the exit it was recorded with. */
  ghost predicate Holds(route: seq<RouteHit>, resolve: (string, string) -> string) {
    route != [] && forall j :: 0 <= j < |route| ==> resolve(route[j].host, route[j].proxy) == route[j].exit
  }

  method CheckRoute(route: seq<RouteHit>, known: map<(string, string), string>, resolve: (string, string) -> string)
    returns (held: bool, exits: map<(string, string), string>)
    requires Remembers(known, resolve)
    ensures Remembers(exits, resolve)
    ensures held <==> Holds(route, resolve)
  {
    exits := known;
    held := |route| > 0;
    for j := 0 to |route|
      invariant Remembers(exits, resolve) && held == (route != [])
      invariant forall i :: 0 <= i < j ==> resolve(route[i].host, route[i].proxy) == route[i].exit
    {
      var key := (route[j].host, route[j].proxy);
      if key !in exits {
        exits := exits[key := resolve(key.0, key.1)];
      }
      if exits[key] != route[j].exit {
        held := false;
        return;
      }
    }
  }

  /** Remembering exits across routes decides as if each hit were resolved afresh; an empty route is never held. */
  method HandleCheckRoutes(routes: seq<seq<RouteHit>>, resolve: (string, string) -> string) returns (held: seq<bool>)
    ensures |held| == |routes|
    ensures forall i :: 0 <= i < |routes| ==> (held[i] <==> Holds(routes[i], resolve))
  {
    var exits := map[];
    held := [];
    for i := 0 to |routes|
      invariant |held| == i && Remembers(exits, resolve)
      invariant forall k :: 0 <= k < i ==> (held[k] <==> Holds(routes[k], resolve))
    {
      var ok;
      ok, exits := CheckRoute(routes[i], exits, resolve);
      held := held + [ok];
    }
  }
}
