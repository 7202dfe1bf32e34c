/** Host ports: the least free one, and what reloading apps keeps of them
    (kelso/lib/store.py, kelso/lib/lifecycle/load.py). */
module Ports {
  import opened Wrappers
  import opened LogTable
  import opened LogObject
  import opened KelsoDb
  import Text

  const PORT_RANGE_SIZE: int := 1000
  const ROUTES: string := "routes/"

  function AppPrefix(app: string): string { ROUTES + app + "/" }

  function RouteKey(app: string, name: string): string { AppPrefix(app) + name }

  /** An app id is a name without slashes. */
  predicate AppId(app: string) { '/' !in app }

  /** Everything filed under routes/ is a route. */
  predicate RoutesOnly(t: Table<KelsoValue>) {
    forall k :: k in t && ROUTES <= k ==> t[k].value.Route?
  }

  function Occupied(t: Table<KelsoValue>): set<int> {
    set k | k in t && ROUTES <= k && t[k].value.Route? :: t[k].value.hostPort
  }

  /** The least port from `p` on that is not taken. */
  function LeastFree(occupied: set<int>, p: int): (r: int)
    ensures p <= r && r !in occupied
    ensures forall q :: p <= q < r ==> q in occupied
    decreases |set q | q in occupied && p <= q|
  {
    if p !in occupied then p
    else
      FewerLeft(occupied, p);
      LeastFree(occupied, p + 1)
  }

  lemma FewerLeft(occupied: set<int>, p: int)
    requires p in occupied
    ensures |set q | q in occupied && p + 1 <= q| < |set q | q in occupied && p <= q|
  {
    var more, fewer := set q | q in occupied && p <= q, set q | q in occupied && p + 1 <= q;
    assert more == fewer + {p} && p !in fewer;
  }

  /** The least free port, if it is in the range. */
  function NextIn(occupied: set<int>, base: int): Option<int> {
    var p := LeastFree(occupied, base);
    if p > base + PORT_RANGE_SIZE then None else Some(p)
  }

  function NextPort(t: Table<KelsoValue>, base: int): Option<int> { NextIn(Occupied(t), base) }

  /** next_free_port: the least port from the base on that is on no route; it fails
      exactly when all 1001 of the range are taken. */
  method NextFreePort(log: LogTab<KelsoValue>, base: int) returns (r: Option<int>)
    requires RoutesOnly(Load(log.records))
    ensures r == NextPort(Load(log.records), base)
    ensures r.Some? ==> base <= r.value <= base + 1000 && r.value !in Occupied(Load(log.records))
    ensures r.Some? ==> forall q :: base <= q < r.value ==> q in Occupied(Load(log.records))
    ensures r == None <==> forall q :: base <= q <= base + 1000 ==> q in Occupied(Load(log.records))
  {
    var found := log.Scan(ROUTES, "");
    var routes := found.value;
    EveryKeyEnds();
    var occupied := set k | k in routes && routes[k].value.Route? :: routes[k].value.hostPort;
    OccupiedIs(Load(log.records), routes);
    var port := base;
    while port in occupied
      invariant base <= port && forall q :: base <= q < port ==> q in occupied
      decreases |set q | q in occupied && port <= q|
    {
      FewerLeft(occupied, port);
      port := port + 1;
    }
    LeastIs(occupied, base, port);
    r := if port > base + PORT_RANGE_SIZE then None else Some(port);
  }

  lemma OccupiedIs(t: Table<KelsoValue>, routes: Table<KelsoValue>)
    requires routes == map k | k in t && ROUTES <= k :: t[k]
    ensures Occupied(t) == set k | k in routes && routes[k].value.Route? :: routes[k].value.hostPort
  {
    var occupied := set k | k in routes && routes[k].value.Route? :: routes[k].value.hostPort;
    forall p | p in Occupied(t) ensures p in occupied {
      var k :| k in t && ROUTES <= k && t[k].value.Route? && t[k].value.hostPort == p;
      assert k in routes;
    }
  }

  lemma LeastIs(occupied: set<int>, base: int, p: int)
    requires base <= p && p !in occupied && forall q :: base <= q < p ==> q in occupied
    ensures LeastFree(occupied, base) == p
  {
    assert LeastFree(occupied, base) !in occupied;
  }

  // --- one app's routes -----------------------------------------------------------------

  /** A route of a manifest; its port is pinned unless it asks for one. */
  datatype RouteSpec = RouteSpec(name: string, pinned: Option<int>)

  /** The table once the routes have ports, and whether there were enough. */
  function Allocate(t: Table<KelsoValue>, base: int, app: string, routes: seq<RouteSpec>, ts: string): (Table<KelsoValue>, bool)
    decreases |routes|
  {
    if routes == [] then (t, true)
    else
      match (if routes[0].pinned.Some? then routes[0].pinned else NextPort(t, base))
      case None => (t, false)
      case Some(port) => Allocate(t[RouteKey(app, routes[0].name) := Entry(ts, Route(port))], base, app, routes[1..], ts)
  }

  function Cleared(t: Table<KelsoValue>, app: string): Table<KelsoValue> {
    map k | k in t && !(AppPrefix(app) <= k) :: t[k]
  }

  /** What a load goes by: the app's network mode, whether it has a subdomain, its routes. */
  datatype Spec = Spec(app: string, hostNetwork: bool, subdomain: bool, routes: seq<RouteSpec>)

  /** An app on the host's network or without routes has none to allocate. */
  predicate Allocates(spec: Spec) { !spec.hostNetwork && spec.routes != [] }

  /** Two ways to fail with a ValueError: before anything is written, or with the routes
      written that there were ports for. */
  datatype Loading = Loaded | NoSubdomain | NoPort

  function Reload(t: Table<KelsoValue>, base: int, spec: Spec, ts: string): (Table<KelsoValue>, Loading) {
    if !Allocates(spec) then (t, Loaded)
    else if !spec.subdomain then (t, NoSubdomain)
    else
      var (t', enough) := Allocate(Cleared(t, spec.app), base, spec.app, spec.routes, ts);
      (t', if enough then Loaded else NoPort)
  }

  /** A route's record is within the length of a value, as is an empty comment. */
  ghost predicate RoutesFit(log: LogTab<KelsoValue>) {
    log.fits(Plain("")) && forall p: int :: log.fits(Route(p))
  }

  /** _clear_and_reallocate_ports. */
  method ClearAndReallocate(log: LogTab<KelsoValue>, base: int, spec: Spec, ts: string) returns (r: Loading)
    requires RoutesOnly(Load(log.records)) && ValidKey(AppPrefix(spec.app)) && RoutesFit(log)
    requires forall i :: 0 <= i < |spec.routes| ==> ValidKey(RouteKey(spec.app, spec.routes[i].name))
    modifies log`records
    ensures (Load(log.records), r) == Reload(old(Load(log.records)), base, spec, ts)
    ensures RoutesOnly(Load(log.records))
  {
    if spec.hostNetwork || spec.routes == [] {
      return Loaded;
    }
    if !spec.subdomain {
      return NoSubdomain;
    }
    var enough := AllocateRoutes(log, base, spec.app, spec.routes, ts);
    r := if enough then Loaded else NoPort;
  }

  method AllocateRoutes(log: LogTab<KelsoValue>, base: int, app: string, routes: seq<RouteSpec>, ts: string)
      returns (enough: bool)
    requires RoutesOnly(Load(log.records)) && ValidKey(AppPrefix(app)) && RoutesFit(log)
    requires forall i :: 0 <= i < |routes| ==> ValidKey(RouteKey(app, routes[i].name))
    modifies log`records
    ensures (Load(log.records), enough) == Allocate(Cleared(old(Load(log.records)), app), base, app, routes, ts)
    ensures RoutesOnly(Load(log.records))
  {
    ghost var t := Load(log.records);
    var ok := log.Clear(ts, AppPrefix(app), Plain(""));
    assert Load(log.records) == Cleared(t, app);
    for i := 0 to |routes|
      invariant RoutesOnly(Load(log.records))
      invariant Allocate(Load(log.records), base, app, routes[i..], ts) == Allocate(Cleared(t, app), base, app, routes, ts)
    {
      assert routes[i..][0] == routes[i] && routes[i..][1..] == routes[i + 1..];
      var port := routes[i].pinned;
      if port == None {
        port := NextFreePort(log, base);
        if port == None {
          return false;
        }
      }
      ok := log.Write(ts, RouteKey(app, routes[i].name), Route(port.value));
    }
    assert routes[|routes|..] == [];
    enough := true;
  }

  // --- what is kept ---------------------------------------------------------------------

  lemma FirstSlash(a: string, rest: string)
    requires '/' !in a
    ensures Text.IndexOf(a + "/" + rest, '/') == |a|
  {
    var s := a + "/" + rest;
    assert s[|a|] == '/' && forall i :: 0 <= i < |a| ==> s[i] == a[i];
  }

  /** Routes are told apart by their app, for ids without slashes. */
  lemma PrefixIsApp(app: string, other: string, name: string)
    requires AppId(app) && AppId(other)
    ensures RouteKey(other, name) == "routes/" + other + "/" + name
    ensures AppPrefix(app) <= RouteKey(other, name) <==> app == other
  {
    var key := RouteKey(other, name);
    assert key == ROUTES + (other + "/" + name);
    if AppPrefix(app) <= key {
      var rest := key[|AppPrefix(app)|..];
      assert key == AppPrefix(app) + rest == ROUTES + (app + "/" + rest);
      var k := key[|ROUTES|..];
      assert k == app + "/" + rest && k == other + "/" + name;
      FirstSlash(app, rest);
      FirstSlash(other, name);
      assert k[..|app|] == app && k[..|other|] == other;
    }
    if app == other {
      assert key == AppPrefix(app) + name;
    }
  }

  /** No host port is on two routes. */
  predicate PortsDistinct(t: Table<KelsoValue>) {
    forall j, k :: j in t && k in t && ROUTES <= j && ROUTES <= k && j != k &&
                   t[j].value.Route? && t[k].value.Route? ==>
                   t[j].value.hostPort != t[k].value.hostPort
  }

  /** Allocating touches only the app's own routes, and what is filed stays routes. */
  lemma {:induction false} AllocateKeepsOthers(t: Table<KelsoValue>, base: int, app: string, routes: seq<RouteSpec>, ts: string)
    requires RoutesOnly(t)
    ensures RoutesOnly(Allocate(t, base, app, routes, ts).0)
    ensures forall k :: !(AppPrefix(app) <= k) ==> Get(Allocate(t, base, app, routes, ts).0, k) == Get(t, k)
    decreases |routes|
  {
    if routes != [] {
      var port := if routes[0].pinned.Some? then routes[0].pinned else NextPort(t, base);
      if port.Some? {
        var key := RouteKey(app, routes[0].name);
        assert key[..|AppPrefix(app)|] == AppPrefix(app);
        AllocateKeepsOthers(t[key := Entry(ts, Route(port.value))], base, app, routes[1..], ts);
      }
    }
  }

  /** Without pinned ports, no port is given twice. */
  lemma {:induction false} AllocateKeepsDistinct(t: Table<KelsoValue>, base: int, app: string, routes: seq<RouteSpec>, ts: string)
    requires PortsDistinct(t) && forall i :: 0 <= i < |routes| ==> routes[i].pinned == None
    ensures PortsDistinct(Allocate(t, base, app, routes, ts).0)
    decreases |routes|
  {
    if routes != [] && NextPort(t, base).Some? {
      var key, port := RouteKey(app, routes[0].name), NextPort(t, base).value;
      assert port !in Occupied(t);
      var t' := t[key := Entry(ts, Route(port))];
      assert PortsDistinct(t');
      AllocateKeepsDistinct(t', base, app, routes[1..], ts);
    }
  }

  /** Loads and purges of apps, one after another. */
  datatype Change = LoadApp(spec: Spec, ts: string) | PurgeApp(name: string)
  {
    function App(): string { if LoadApp? then spec.app else name }
  }

  function Changed(t: Table<KelsoValue>, base: int, c: Change): Table<KelsoValue> {
    match c
    case LoadApp(spec, ts) => Reload(t, base, spec, ts).0
    case PurgeApp(app) => Cleared(t, app)
  }

  function AllChanged(t: Table<KelsoValue>, base: int, cs: seq<Change>): Table<KelsoValue> {
    if cs == [] then t else Changed(AllChanged(t, base, cs[..|cs| - 1]), base, cs[|cs| - 1])
  }

  predicate Unpinned(c: Change) {
    c.LoadApp? ==> forall i :: 0 <= i < |c.spec.routes| ==> c.spec.routes[i].pinned == None
  }

  /** Across any loads, reloads and purges of apps without pinned ports, also ones that
      run out of ports half-way, no host port is on two routes. */
  lemma {:induction false} PortsStayDistinct(t: Table<KelsoValue>, base: int, cs: seq<Change>)
    requires PortsDistinct(t) && forall i :: 0 <= i < |cs| ==> Unpinned(cs[i])
    ensures PortsDistinct(AllChanged(t, base, cs))
  {
    if cs != [] {
      var before, c := AllChanged(t, base, cs[..|cs| - 1]), cs[|cs| - 1];
      PortsStayDistinct(t, base, cs[..|cs| - 1]);
      assert PortsDistinct(Cleared(before, c.App()));
      if c.LoadApp? {
        AllocateKeepsDistinct(Cleared(before, c.spec.app), base, c.spec.app, c.spec.routes, c.ts);
      }
    }
  }

  /** Loading or purging one app touches no other app's routes. */
  lemma OtherAppsUntouched(t: Table<KelsoValue>, base: int, c: Change, other: string, name: string)
    requires RoutesOnly(t) && AppId(c.App()) && AppId(other) && other != c.App()
    ensures Get(Changed(t, base, c), RouteKey(other, name)) == Get(t, RouteKey(other, name))
  {
    PrefixIsApp(c.App(), other, name);
    if c.LoadApp? {
      assert RoutesOnly(Cleared(t, c.spec.app));
      AllocateKeepsOthers(Cleared(t, c.spec.app), base, c.spec.app, c.spec.routes, c.ts);
    }
  }

  // --- pinned ports -------------------------------------------------------------------------

  /** The ports that routes are given in turn: their pinned ones, and for the others the
      least that is free; up to where there is none. */
  function Given(occupied: set<int>, base: int, routes: seq<RouteSpec>): (ports: seq<int>)
    ensures |ports| <= |routes|
    ensures forall i :: 0 <= i < |ports| && routes[i].pinned.Some? ==> ports[i] == routes[i].pinned.value
    decreases |routes|
  {
    if routes == [] then []
    else
      match (if routes[0].pinned.Some? then routes[0].pinned else NextIn(occupied, base))
      case None => []
      case Some(port) => [port] + Given(occupied + {port}, base, routes[1..])
  }

  /** Each pinned port is on no other app's route, and no earlier route is given it. */
  predicate PinsApart(occupied: set<int>, base: int, routes: seq<RouteSpec>) {
    var ports := Given(occupied, base, routes);
    forall i :: 0 <= i < |ports| && routes[i].pinned.Some? ==> ports[i] !in occupied && ports[i] !in ports[..i]
  }

  lemma PinsApartStep(occupied: set<int>, base: int, routes: seq<RouteSpec>, port: int)
    requires routes != [] && Some(port) == if routes[0].pinned.Some? then routes[0].pinned else NextIn(occupied, base)
    ensures PinsApart(occupied, base, routes) <==> port !in occupied && PinsApart(occupied + {port}, base, routes[1..])
  {
    var ports, rest, more := Given(occupied, base, routes), Given(occupied + {port}, base, routes[1..]), occupied + {port};
    assert ports == [port] + rest;
    if PinsApart(occupied, base, routes) {
      forall i | 0 <= i < |rest| && routes[1..][i].pinned.Some? ensures rest[i] !in more && rest[i] !in rest[..i] {
        assert ports[i + 1] == rest[i] && ports[..i + 1] == [port] + rest[..i];
      }
    }
    if port !in occupied && PinsApart(more, base, routes[1..]) {
      forall i | 0 <= i < |ports| && routes[i].pinned.Some? ensures ports[i] !in occupied && ports[i] !in ports[..i] {
        if i > 0 {
          assert routes[1..][i - 1] == routes[i];
          assert ports[i] == rest[i - 1] && ports[..i] == [port] + rest[..i - 1];
        }
      }
    }
  }

  /** Routes of different names that the table does not have yet. */
  predicate FreshRoutes(t: Table<KelsoValue>, app: string, routes: seq<RouteSpec>) {
    && (forall i, j :: 0 <= i < j < |routes| ==> routes[i].name != routes[j].name)
    && (forall i :: 0 <= i < |routes| ==> RouteKey(app, routes[i].name) !in t)
  }

  lemma RouteKeyInjective(app: string, a: string, b: string)
    requires RouteKey(app, a) == RouteKey(app, b)
    ensures a == b
  {
    assert RouteKey(app, a)[|AppPrefix(app)|..] == a && RouteKey(app, b)[|AppPrefix(app)|..] == b;
  }

  lemma FreshAfter(t: Table<KelsoValue>, app: string, routes: seq<RouteSpec>, e: Entry<KelsoValue>)
    requires routes != [] && FreshRoutes(t, app, routes)
    ensures FreshRoutes(t[RouteKey(app, routes[0].name) := e], app, routes[1..])
  {
    forall i | 0 <= i < |routes[1..]| ensures RouteKey(app, routes[1..][i].name) != RouteKey(app, routes[0].name) {
      if RouteKey(app, routes[i + 1].name) == RouteKey(app, routes[0].name) {
        RouteKeyInjective(app, routes[i + 1].name, routes[0].name);
        assert false;
      }
    }
  }

  /** A port on a new route keeps ports distinct exactly when it is on no other. */
  lemma NewRouteDistinct(t: Table<KelsoValue>, key: string, port: int, ts: string)
    requires RoutesOnly(t) && PortsDistinct(t) && key !in t && ROUTES <= key
    ensures PortsDistinct(t[key := Entry(ts, Route(port))]) <==> port !in Occupied(t)
  {
    var t' := t[key := Entry(ts, Route(port))];
    if port in Occupied(t) {
      var k :| k in t && ROUTES <= k && t[k].value.Route? && t[k].value.hostPort == port;
      assert k in t' && key in t' && t'[k].value.hostPort == t'[key].value.hostPort;
    }
  }

  /** New routes leave two routes on one port as they are. */
  lemma {:induction false} ClashStays(t: Table<KelsoValue>, base: int, app: string, routes: seq<RouteSpec>, ts: string)
    requires !PortsDistinct(t) && FreshRoutes(t, app, routes)
    ensures !PortsDistinct(Allocate(t, base, app, routes, ts).0)
    decreases |routes|
  {
    var port := if routes == [] then None else if routes[0].pinned.Some? then routes[0].pinned else NextPort(t, base);
    if port.Some? {
      var key := RouteKey(app, routes[0].name);
      var e := Entry(ts, Route(port.value));
      FreshAfter(t, app, routes, e);
      ClashKept(t, key, e);
      ClashStays(t[key := e], base, app, routes[1..], ts);
    }
  }

  lemma ClashKept(t: Table<KelsoValue>, key: string, e: Entry<KelsoValue>)
    requires !PortsDistinct(t) && key !in t
    ensures !PortsDistinct(t[key := e])
  {
    var j, k :| j in t && k in t && ROUTES <= j && ROUTES <= k && j != k && t[j].value.Route? && t[k].value.Route? &&
                t[j].value.hostPort == t[k].value.hostPort;
    var t' := t[key := e];
    assert j in t' && k in t' && t'[j] == t[j] && t'[k] == t[k];
  }

  lemma OccupiedGrows(t: Table<KelsoValue>, key: string, port: int, ts: string)
    requires RoutesOnly(t) && key !in t && ROUTES <= key
    ensures Occupied(t[key := Entry(ts, Route(port))]) == Occupied(t) + {port}
  {
    var t' := t[key := Entry(ts, Route(port))];
    forall p | p in Occupied(t) ensures p in Occupied(t') {
      var k :| k in t && ROUTES <= k && t[k].value.Route? && t[k].value.hostPort == p;
      assert k in t' && t'[k] == t[k];
    }
    assert key in t' && t'[key].value.hostPort == port;
  }

  lemma {:induction false} AllocateDistinctExactly(t: Table<KelsoValue>, base: int, app: string, routes: seq<RouteSpec>, ts: string)
    requires RoutesOnly(t) && PortsDistinct(t) && FreshRoutes(t, app, routes)
    ensures PortsDistinct(Allocate(t, base, app, routes, ts).0) <==> PinsApart(Occupied(t), base, routes)
    decreases |routes|
  {
    var port := if routes == [] then None else if routes[0].pinned.Some? then routes[0].pinned else NextPort(t, base);
    if port.Some? {
      var key := RouteKey(app, routes[0].name);
      var e := Entry(ts, Route(port.value));
      assert ROUTES <= key by { assert key[..|ROUTES|] == ROUTES; }
      NewRouteDistinct(t, key, port.value, ts);
      FreshAfter(t, app, routes, e);
      OccupiedGrows(t, key, port.value, ts);
      PinsApartStep(Occupied(t), base, routes, port.value);
      if port.value in Occupied(t) {
        ClashStays(t[key := e], base, app, routes[1..], ts);
      } else {
        AllocateDistinctExactly(t[key := e], base, app, routes[1..], ts);
      }
    }
  }

  /** Loading an app, pinned ports and all, keeps ports distinct exactly when it allocates
      nothing or each pinned port is on no other app's route and given to no route before. */
  lemma LoadDistinctExactly(t: Table<KelsoValue>, base: int, spec: Spec, ts: string)
    requires RoutesOnly(t) && PortsDistinct(t)
    requires forall i, j :: 0 <= i < j < |spec.routes| ==> spec.routes[i].name != spec.routes[j].name
    ensures PortsDistinct(Reload(t, base, spec, ts).0) <==>
            !Allocates(spec) || !spec.subdomain || PinsApart(Occupied(Cleared(t, spec.app)), base, spec.routes)
  {
    var c := Cleared(t, spec.app);
    forall i | 0 <= i < |spec.routes| ensures RouteKey(spec.app, spec.routes[i].name) !in c {
      assert RouteKey(spec.app, spec.routes[i].name)[..|AppPrefix(spec.app)|] == AppPrefix(spec.app);
    }
    AllocateDistinctExactly(c, base, spec.app, spec.routes, ts);
  }

  /** A pinned port is not checked: it can be one that another app already has. */
  lemma PinnedPortsCanClash() returns (t: Table<KelsoValue>, c: Change)
    ensures PortsDistinct(t) && !Unpinned(c) && !PortsDistinct(Changed(t, 20000, c))
  {
    var k1, k2 := RouteKey("a", "web"), RouteKey("b", "web");
    PrefixIsApp("b", "a", "web");
    t := map[k1 := Entry("1", Route(20000))];
    var routes := [RouteSpec("web", Some(20000))];
    c := LoadApp(Spec("b", false, true, routes), "2");
    assert Cleared(t, "b") == t;
    var t' := t[k2 := Entry("2", Route(20000))];
    assert routes[1..] == [] && Allocate(t', 20000, "b", [], "2") == (t', true);
    assert Changed(t, 20000, c) == t';
    assert k1 != k2 by { assert k1[|ROUTES|] == 'a' && k2[|ROUTES|] == 'b'; }
    assert ROUTES <= k1 by { assert k1[..|ROUTES|] == ROUTES; }
    assert ROUTES <= k2 by { assert k2[..|ROUTES|] == ROUTES; }
    assert k1 in t' && k2 in t';
  }
}
