/** The domains table (internal/store/domains.go): the rows of every app, in the order they were put in. */
module Domains {
  import opened Collections
  import opened Text

  /** A row of the domains table; port 0 routes to the app itself. */
  datatype Domain = Domain(app: nat, host: string, port: nat)

  /** A hostname routed straight to a published port. */
  datatype Route = Route(host: string, port: nat)

  // ---- rows ----

  function Others(domains: seq<Domain>, app: nat): seq<Domain> {
    if domains == [] then []
    else
      var init, last := domains[..|domains| - 1], domains[|domains| - 1];
      Others(init, app) + if last.app == app then [] else [last]
  }

  /** AppServiceDomains. */
  function Routes(domains: seq<Domain>, app: nat): seq<Route> {
    if domains == [] then []
    else
      var init, last := domains[..|domains| - 1], domains[|domains| - 1];
      Routes(init, app) + if last.app == app && last.port > 0 then [Route(last.host, last.port)] else []
  }

  function OwnRows(app: nat, hosts: seq<string>): seq<Domain> {
    if hosts == [] then []
    else
      var init, last := hosts[..|hosts| - 1], hosts[|hosts| - 1];
      OwnRows(app, init) + if last == "" then [] else [Domain(app, last, 0)]
  }

  function RouteRows(app: nat, routes: seq<Route>): seq<Domain> {
    if routes == [] then []
    else
      var init, last := routes[..|routes| - 1], routes[|routes| - 1];
      RouteRows(app, init) + [Domain(app, last.host, last.port)]
  }

  function PortsOf(routes: seq<Route>): seq<nat> {
    if routes == [] then [] else PortsOf(routes[..|routes| - 1]) + [routes[|routes| - 1].port]
  }

  predicate HasHost(domains: seq<Domain>, host: string) {
    exists i :: 0 <= i < |domains| && domains[i].host == host
  }

  // ---- recorded ports ----

  function DomainPorts(domains: seq<Domain>): set<nat> {
    if domains == [] then {}
    else
      var init, last := domains[..|domains| - 1], domains[|domains| - 1];
      DomainPorts(init) + if last.port > 0 then {last.port} else {}
  }

  ghost predicate DomainsApart(domains: seq<Domain>) {
    domains == []
    || (DomainsApart(domains[..|domains| - 1])
        && domains[|domains| - 1].port !in DomainPorts(domains[..|domains| - 1]))
  }

  lemma {:induction false} DomainPortsAre(domains: seq<Domain>, p: nat)
    ensures p in DomainPorts(domains) <==> exists i :: 0 <= i < |domains| && domains[i].port == p > 0
  {
    if domains != [] {
      var n := |domains| - 1;
      var init := domains[..n];
      DomainPortsAre(init, p);
      assert forall i :: 0 <= i < n ==> init[i] == domains[i];
    }
  }

  /** Apart, row by row. */
  lemma {:induction false} DomainsApartMeans(domains: seq<Domain>)
    ensures DomainsApart(domains) <==>
            forall i, j :: 0 <= i < j < |domains| && domains[i].port > 0 ==> domains[i].port != domains[j].port
  {
    hide DomainPorts;
    if domains != [] {
      var n := |domains| - 1;
      var init := domains[..n];
      DomainsApartMeans(init);
      DomainPortsAre(init, domains[n].port);
      assert forall i :: 0 <= i < n ==> init[i] == domains[i];
    }
  }

  lemma Snoc(domains: seq<Domain>, d: Domain, b: nat)
    ensures var more := domains + [d];
      && Routes(more, b) == (if d.app == b && d.port > 0 then Routes(domains, b) + [Route(d.host, d.port)]
                             else Routes(domains, b))
      && DomainPorts(more) == DomainPorts(domains) + (if d.port > 0 then {d.port} else {})
      && (DomainsApart(more) <==> DomainsApart(domains) && d.port !in DomainPorts(domains))
      && Others(more, b) == (if d.app == b then Others(domains, b) else Others(domains, b) + [d])
  {
    assert (domains + [d])[..|domains|] == domains;
  }

  lemma Split1<T>(s: seq<T>)
    requires s != []
    ensures s == s[..|s| - 1] + [s[|s| - 1]]
  {
  }

  lemma {:induction false} ZeroNotRecorded(domains: seq<Domain>)
    ensures 0 !in DomainPorts(domains)
  {
    if domains != [] {
      ZeroNotRecorded(domains[..|domains| - 1]);
    }
  }

  lemma {:induction false} OthersLaw(domains: seq<Domain>, app: nat, b: nat)
    ensures Routes(Others(domains, app), b) == if b == app then [] else Routes(domains, b)
    ensures DomainPorts(Others(domains, app)) <= DomainPorts(domains)
    ensures DomainsApart(domains) ==> DomainsApart(Others(domains, app))
  {
    if domains == [] {
      assert Others(domains, app) == domains;
    } else {
      var init, last := domains[..|domains| - 1], domains[|domains| - 1];
      OthersLaw(init, app, b);
      Split1(domains);
      Snoc(init, last, b);
      Snoc(init, last, app);
      Snoc(Others(init, app), last, b);
    }
  }

  /** The rows of one app are not among the others'. */
  lemma {:induction false} OthersApps(domains: seq<Domain>, app: nat)
    ensures forall d :: d in Others(domains, app) <==> d in domains && d.app != app
  {
    if domains != [] {
      OthersApps(domains[..|domains| - 1], app);
      Split1(domains);
    }
  }

  lemma {:induction false} OwnLaw(domains: seq<Domain>, app: nat, hosts: seq<string>, b: nat)
    ensures var more := domains + OwnRows(app, hosts);
      Routes(more, b) == Routes(domains, b) && DomainPorts(more) == DomainPorts(domains)
      && (DomainsApart(more) <==> DomainsApart(domains))
  {
    if hosts == [] {
      assert domains + OwnRows(app, hosts) == domains;
    } else {
      var init, last := hosts[..|hosts| - 1], hosts[|hosts| - 1];
      OwnLaw(domains, app, init, b);
      if last != "" {
        Regroup(domains, OwnRows(app, init), [Domain(app, last, 0)]);
        Snoc(domains + OwnRows(app, init), Domain(app, last, 0), b);
        ZeroNotRecorded(domains + OwnRows(app, init));
      } else {
        assert OwnRows(app, hosts) == OwnRows(app, init);
      }
    }
  }

  /** Routes to real, distinct ports. */
  ghost predicate RealRoutes(routes: seq<Route>) {
    && (forall i :: 0 <= i < |routes| ==> routes[i].port > 0)
    && (forall i, j :: 0 <= i < j < |routes| ==> routes[i].port != routes[j].port)
  }

  function RoutePorts(routes: seq<Route>): set<nat> {
    set i | 0 <= i < |routes| :: routes[i].port
  }

  lemma {:induction false} RoutesAppend(domains: seq<Domain>, app: nat, routes: seq<Route>, b: nat)
    requires forall i :: 0 <= i < |routes| ==> routes[i].port > 0
    ensures Routes(domains + RouteRows(app, routes), b) == Routes(domains, b) + (if b == app then routes else [])
  {
    if routes == [] {
      assert domains + RouteRows(app, routes) == domains;
      assert Routes(domains, b) + [] == Routes(domains, b);
    } else {
      var init, last := routes[..|routes| - 1], routes[|routes| - 1];
      RoutesAppend(domains, app, init, b);
      var row := Domain(app, last.host, last.port);
      Regroup(domains, RouteRows(app, init), [row]);
      Snoc(domains + RouteRows(app, init), row, b);
      Split1(routes);
      Regroup(Routes(domains, b), init, [last]);
      assert b != app ==> Routes(domains, b) + [] == Routes(domains, b);
    }
  }

  lemma {:induction false} RoutesApart(domains: seq<Domain>, app: nat, routes: seq<Route>)
    requires RealRoutes(routes)
    ensures var more := domains + RouteRows(app, routes);
      && DomainPorts(more) == DomainPorts(domains) + RoutePorts(routes)
      && (DomainsApart(more) <==> DomainsApart(domains) && RoutePorts(routes) !! DomainPorts(domains))
  {
    if routes == [] {
      assert domains + RouteRows(app, routes) == domains;
    } else {
      var init, last := routes[..|routes| - 1], routes[|routes| - 1];
      RoutePortsSnoc(routes);
      RoutesApart(domains, app, init);
      var row := Domain(app, last.host, last.port);
      Regroup(domains, RouteRows(app, init), [row]);
      Snoc(domains + RouteRows(app, init), row, app);
    }
  }

  lemma RoutePortsSnoc(routes: seq<Route>)
    requires RealRoutes(routes) && routes != []
    ensures var init, last := routes[..|routes| - 1], routes[|routes| - 1];
      RoutePorts(routes) == RoutePorts(init) + {last.port} && last.port !in RoutePorts(init) && RealRoutes(init)
  {
    var init, last := routes[..|routes| - 1], routes[|routes| - 1];
    forall p ensures p in RoutePorts(routes) <==> p in RoutePorts(init) + {last.port} {
      if p in RoutePorts(routes) {
        var i :| 0 <= i < |routes| && routes[i].port == p;
        assert i < |init| ==> init[i].port == p;
      }
      if p in RoutePorts(init) {
        var i :| 0 <= i < |init| && init[i].port == p;
        assert routes[i].port == p;
      }
      assert routes[|routes| - 1].port == last.port;
    }
  }

  /** An app's routes are real, and its ports are not among the others'. */
  lemma {:induction false} RoutesAreReal(domains: seq<Domain>, app: nat)
    ensures forall i :: 0 <= i < |Routes(domains, app)| ==> Routes(domains, app)[i].port > 0
    ensures DomainsApart(domains) ==> RealRoutes(Routes(domains, app))
    ensures RoutePorts(Routes(domains, app)) + DomainPorts(Others(domains, app)) == DomainPorts(domains)
    ensures DomainsApart(domains) ==> RoutePorts(Routes(domains, app)) !! DomainPorts(Others(domains, app))
  {
    hide Routes, Others, DomainPorts, DomainsApart, RoutePorts, RealRoutes;
    if domains == [] {
      EmptyTable(app);
    } else {
      var init, last := domains[..|domains| - 1], domains[|domains| - 1];
      RoutesAreReal(init, app);
      Split1(domains);
      Snoc(init, last, app);
      Snoc(Others(init, app), last, app);
      ZeroNotRecorded(init);
      if last.app == app && last.port > 0 {
        RoutePortsGrow(Routes(init, app), Route(last.host, last.port));
      }
    }
  }

  lemma EmptyTable(app: nat)
    ensures Routes([], app) == [] && Others([], app) == [] && DomainPorts([]) == {} && DomainsApart([])
    ensures RoutePorts([]) == {} && RealRoutes([])
  {
  }

  lemma RoutePortsGrow(routes: seq<Route>, r: Route)
    ensures RoutePorts(routes + [r]) == RoutePorts(routes) + {r.port}
    ensures RealRoutes(routes) && r.port > 0 && r.port !in RoutePorts(routes) ==> RealRoutes(routes + [r])
  {
    var more := routes + [r];
    forall p ensures p in RoutePorts(more) <==> p in RoutePorts(routes) + {r.port} {
      if p in RoutePorts(routes) {
        var i :| 0 <= i < |routes| && routes[i].port == p;
        assert more[i].port == p;
      }
      assert more[|routes|].port == r.port;
    }
    forall i | 0 <= i < |routes| ensures more[i] == routes[i] && routes[i].port in RoutePorts(routes) {
    }
  }

  lemma NoPorts()
    ensures PortsOf([]) == []
  {
  }

  lemma {:induction false} PortsOfAre(routes: seq<Route>)
    ensures |PortsOf(routes)| == |routes| && forall i :: 0 <= i < |routes| ==> PortsOf(routes)[i] == routes[i].port
  {
    if routes != [] {
      PortsOfAre(routes[..|routes| - 1]);
    }
  }

  lemma RenamedApart(domains: seq<Domain>, id: nat, host: string)
    requires Routes(domains, id) != []
    ensures var was := Routes(domains, id); var now := was[0 := was[0].(host := host)];
      && (forall i :: 0 <= i < |now| ==> now[i].port == was[i].port > 0)
      && RoutePorts(now) == RoutePorts(was)
      && (DomainsApart(domains) ==> RealRoutes(now))
  {
    RoutesAreReal(domains, id);
    var was := Routes(domains, id);
    var now := was[0 := was[0].(host := host)];
    forall p ensures p in RoutePorts(now) <==> p in RoutePorts(was) {
      if i :| 0 <= i < |was| && was[i].port == p {
        assert now[i].port == p;
      }
      if i :| 0 <= i < |now| && now[i].port == p {
        assert was[i].port == p;
      }
    }
  }

  // ---- replacing an app's rows ----

  function Replaced(domains: seq<Domain>, app: nat, hosts: seq<string>, routes: seq<Route>): seq<Domain> {
    Others(domains, app) + OwnRows(app, hosts) + RouteRows(app, routes)
  }

  predicate HostsDistinct(domains: seq<Domain>) {
    forall i, j :: 0 <= i < j < |domains| ==> domains[i].host != domains[j].host
  }

  /** The rows read back as what was put in, and every other app's as before. */
  lemma ReplacedRoutes(domains: seq<Domain>, app: nat, hosts: seq<string>, routes: seq<Route>, b: nat)
    requires forall i :: 0 <= i < |routes| ==> routes[i].port > 0
    ensures Routes(Replaced(domains, app, hosts, routes), b) == if b == app then routes else Routes(domains, b)
  {
    hide Routes, Others, OwnRows, RouteRows;
    OthersLaw(domains, app, b);
    OwnLaw(Others(domains, app), app, hosts, b);
    RoutesAppend(Others(domains, app) + OwnRows(app, hosts), app, routes, b);
  }

  lemma {:induction false} OwnRowsOf(app: nat, hosts: seq<string>)
    ensures forall d :: d in OwnRows(app, hosts) ==> d.app == app && d.host in hosts
  {
    if hosts != [] {
      OwnRowsOf(app, hosts[..|hosts| - 1]);
    }
  }

  lemma {:induction false} RouteRowsOf(app: nat, routes: seq<Route>)
    ensures forall d :: d in RouteRows(app, routes) ==> d.app == app
  {
    if routes != [] {
      RouteRowsOf(app, routes[..|routes| - 1]);
    }
  }

  lemma ReplacedApps(domains: seq<Domain>, app: nat, hosts: seq<string>, routes: seq<Route>)
    ensures forall d :: d in Replaced(domains, app, hosts, routes) ==> d.app == app || d in domains
  {
    OthersApps(domains, app);
    OwnRowsOf(app, hosts);
    RouteRowsOf(app, routes);
  }

  /** Somebody but `self` answers on this name. */
  predicate OwnedElsewhere(domains: seq<Domain>, host: string, self: nat) {
    exists i :: 0 <= i < |domains| && domains[i].host == host && domains[i].app != self
  }

  lemma StillAbsent(domains: seq<Domain>, app: nat, hosts: seq<string>, host: string)
    requires host !in hosts && !HasHost(domains, host)
    ensures !HasHost(Replaced(domains, app, hosts, []), host)
  {
    OthersApps(domains, app);
    OwnRowsOf(app, hosts);
    var rows := Replaced(domains, app, hosts, []);
    assert rows == Others(domains, app) + OwnRows(app, hosts);
    forall i | 0 <= i < |rows| ensures rows[i].host != host {
      assert rows[i] in Others(domains, app) || rows[i] in OwnRows(app, hosts);
    }
  }

  lemma BaseSame(domains: seq<Domain>, app: nat, hosts: seq<string>)
    requires Others(domains, app) == domains
    ensures var base := Replaced(domains, app, hosts, []);
      DomainPorts(base) == DomainPorts(domains) && (DomainsApart(base) <==> DomainsApart(domains))
  {
    OwnLaw(domains, app, hosts, app);
    assert Replaced(domains, app, hosts, []) == domains + OwnRows(app, hosts);
  }

  lemma RouteRowsSnoc(base: seq<Domain>, app: nat, routes: seq<Route>, i: nat)
    requires i < |routes|
    ensures base + RouteRows(app, routes[..i + 1])
            == base + RouteRows(app, routes[..i]) + [Domain(app, routes[i].host, routes[i].port)]
    ensures routes[..i + 1] == routes[..i] + [routes[i]]
  {
    assert routes[..i + 1][..i] == routes[..i];
    Regroup(base, RouteRows(app, routes[..i]), [Domain(app, routes[i].host, routes[i].port)]);
  }

  lemma HasHostSnoc(domains: seq<Domain>, d: Domain, host: string)
    ensures HasHost(domains + [d], host) <==> HasHost(domains, host) || d.host == host
  {
    var more := domains + [d];
    assert more[|domains|] == d && forall i :: 0 <= i < |domains| ==> more[i] == domains[i];
  }

  lemma AbsentIsFree(domains: seq<Domain>, host: string, app: nat)
    requires !HasHost(domains, host)
    ensures !OwnedElsewhere(domains, host, app)
    ensures forall d: Domain :: d.host == host ==> Upserted(domains, d) == domains + [d]
  {
  }

  lemma AbsentIsNoName(domains: seq<Domain>, host: string, app: nat)
    requires !HasHost(domains, host)
    ensures Without(OwnHosts(domains, app), host) == OwnHosts(domains, app)
  {
    hide OwnHosts, Without;
    OwnHostsAre(domains, app);
    WithoutIs(OwnHosts(domains, app), host);
    HasHostIs(domains, host);
  }

  /** With an app's rows replaced, a name that was free before is still no other app's. */
  lemma FreeAfter(domains: seq<Domain>, app: nat, hosts: seq<string>, host: string)
    requires !HasHost(domains, host)
    ensures !OwnedElsewhere(Replaced(domains, app, hosts, []), host, app) && !OwnedElsewhere(domains, host, app)
  {
    OthersApps(domains, app);
    OwnRowsOf(app, hosts);
    var rows := Replaced(domains, app, hosts, []);
    assert rows == Others(domains, app) + OwnRows(app, hosts);
    forall i | 0 <= i < |rows| ensures rows[i].app == app || rows[i].host != host {
      assert rows[i] in Others(domains, app) || rows[i] in OwnRows(app, hosts);
    }
  }

  lemma {:induction false} NoRoutesYet(domains: seq<Domain>, app: nat)
    requires forall i :: 0 <= i < |domains| ==> domains[i].app != app
    ensures Routes(domains, app) == [] && Others(domains, app) == domains && OwnHosts(domains, app) == []
  {
    hide Routes, Others, OwnHosts;
    if domains == [] {
      EmptyTable(app);
      NoNames(app);
    } else {
      NoRoutesYet(domains[..|domains| - 1], app);
      Split1(domains);
      Snoc(domains[..|domains| - 1], domains[|domains| - 1], app);
      NameSnoc(domains[..|domains| - 1], domains[|domains| - 1], app);
    }
  }

  // ---- one row put in for another ----

  /** The row of d's name turned into `d`. */
  function Turned(domains: seq<Domain>, d: Domain): seq<Domain> {
    if domains == [] then []
    else
      var init, last := domains[..|domains| - 1], domains[|domains| - 1];
      if last.host == d.host then init + [d] else Turned(init, d) + [last]
  }

  /** INSERT ... ON CONFLICT(hostname) DO UPDATE. */
  function Upserted(domains: seq<Domain>, d: Domain): seq<Domain> {
    if HasHost(domains, d.host) then Turned(domains, d) else domains + [d]
  }

  /** Turning a row of d's own app touches no other app's, and at most trades its port for d's. */
  lemma {:induction false} TurnedLaw(domains: seq<Domain>, d: Domain, b: nat)
    requires !OwnedElsewhere(domains, d.host, d.app)
    ensures b != d.app ==> Routes(Turned(domains, d), b) == Routes(domains, b)
    ensures HasHost(domains, d.host) && Routes(domains, d.app) == [] ==>
              Routes(Turned(domains, d), d.app) == if d.port > 0 then [Route(d.host, d.port)] else []
    ensures DomainPorts(Turned(domains, d)) <= DomainPorts(domains) + if d.port > 0 then {d.port} else {}
    ensures DomainsApart(domains) && d.port !in DomainPorts(domains) ==> DomainsApart(Turned(domains, d))
    ensures forall i :: 0 <= i < |Turned(domains, d)| ==> Turned(domains, d)[i] == d || Turned(domains, d)[i] in domains
  {
    hide Routes, DomainPorts, DomainsApart, HasHost, OwnedElsewhere;
    if domains == [] {
      NoRows(d.host, d.app);
    } else {
      var init, last := domains[..|domains| - 1], domains[|domains| - 1];
      Split1(domains);
      OwnedInit(init, last, d.host, d.app);
      HasHostSnoc(init, last, d.host);
      TurnedLaw(init, d, b);
      Snoc(init, last, b);
      Snoc(init, last, d.app);
      if last.host == d.host {
        Snoc(init, d, b);
        Snoc(init, d, d.app);
        NoPortLost(init, last, d);
      } else {
        Snoc(Turned(init, d), last, b);
        Snoc(Turned(init, d), last, d.app);
        ZeroNotRecorded(domains);
      }
    }
  }

  lemma NoRows(host: string, app: nat)
    ensures !HasHost([], host) && Routes([], app) == [] && DomainPorts([]) == {} && DomainsApart([])
  {
  }

  lemma NoPortLost(init: seq<Domain>, last: Domain, d: Domain)
    ensures DomainsApart(init + [last]) && d.port !in DomainPorts(init + [last]) ==> DomainsApart(init + [d])
  {
    hide DomainPorts, DomainsApart;
    Snoc(init, last, last.app);
    Snoc(init, d, d.app);
  }

  lemma OwnedInit(init: seq<Domain>, last: Domain, host: string, app: nat)
    requires !OwnedElsewhere(init + [last], host, app)
    ensures !OwnedElsewhere(init, host, app) && (last.host == host ==> last.app == app)
  {
    var more := init + [last];
    assert more[|init|] == last && forall i :: 0 <= i < |init| ==> more[i] == init[i];
  }

  // ---- an app's own names ----

  /** AppHostnames. */
  function OwnHosts(domains: seq<Domain>, app: nat): seq<string> {
    if domains == [] then []
    else
      var init, last := domains[..|domains| - 1], domains[|domains| - 1];
      OwnHosts(init, app) + if last.app == app && last.port == 0 then [last.host] else []
  }

  /** The names that get a row. */
  function Solid(hosts: seq<string>): seq<string> {
    if hosts == [] then []
    else
      var init, last := hosts[..|hosts| - 1], hosts[|hosts| - 1];
      if last == "" then Solid(init) else Solid(init) + [last]
  }

  function Without(hosts: seq<string>, host: string): seq<string> {
    if hosts == [] then []
    else
      var init, last := hosts[..|hosts| - 1], hosts[|hosts| - 1];
      if last == host then Without(init, host) else Without(init, host) + [last]
  }

  lemma {:induction false} SolidAre(hosts: seq<string>)
    ensures forall h :: h in Solid(hosts) <==> h in hosts && h != ""
    ensures "" !in hosts ==> Solid(hosts) == hosts
  {
    if hosts != [] {
      SolidAre(hosts[..|hosts| - 1]);
      Split1(hosts);
    }
  }

  lemma {:induction false} WithoutIs(hosts: seq<string>, host: string)
    ensures forall h :: h in Without(hosts, host) <==> h in hosts && h != host
    ensures host !in hosts ==> Without(hosts, host) == hosts
  {
    if hosts != [] {
      WithoutIs(hosts[..|hosts| - 1], host);
      Split1(hosts);
    }
  }

  /** An app's own names are the hosts of its rows without a port. */
  lemma {:induction false} OwnHostsAre(domains: seq<Domain>, app: nat)
    ensures forall h :: h in OwnHosts(domains, app) <==> Domain(app, h, 0) in domains
  {
    if domains != [] {
      OwnHostsAre(domains[..|domains| - 1], app);
      Split1(domains);
    }
  }

  /** Its service domains are those with one. */
  lemma {:induction false} RoutesAre(domains: seq<Domain>, app: nat)
    ensures forall h, p: nat :: Route(h, p) in Routes(domains, app) <==> p > 0 && Domain(app, h, p) in domains
  {
    if domains != [] {
      RoutesAre(domains[..|domains| - 1], app);
      Split1(domains);
    }
  }

  /** In the order of the rows. */
  lemma NameSnoc(domains: seq<Domain>, d: Domain, b: nat)
    ensures OwnHosts(domains + [d], b)
            == if d.app == b && d.port == 0 then OwnHosts(domains, b) + [d.host] else OwnHosts(domains, b)
  {
    assert (domains + [d])[..|domains|] == domains;
  }

  lemma {:induction false} OthersNames(domains: seq<Domain>, app: nat, b: nat)
    ensures OwnHosts(Others(domains, app), b) == if b == app then [] else OwnHosts(domains, b)
  {
    if domains == [] {
      assert Others(domains, app) == domains;
    } else {
      var init, last := domains[..|domains| - 1], domains[|domains| - 1];
      OthersNames(init, app, b);
      Split1(domains);
      NameSnoc(init, last, b);
      NameSnoc(Others(init, app), last, b);
      assert last.app == app ==> Others(domains, app) == Others(init, app);
    }
  }

  lemma {:induction false} OwnNames(domains: seq<Domain>, app: nat, hosts: seq<string>, b: nat)
    ensures OwnHosts(domains + OwnRows(app, hosts), b) == OwnHosts(domains, b) + if b == app then Solid(hosts) else []
  {
    if hosts == [] {
      assert domains + OwnRows(app, hosts) == domains;
    } else {
      var init, last := hosts[..|hosts| - 1], hosts[|hosts| - 1];
      OwnNames(domains, app, init, b);
      if last == "" {
        assert OwnRows(app, hosts) == OwnRows(app, init);
      } else {
        Regroup(domains, OwnRows(app, init), [Domain(app, last, 0)]);
        NameSnoc(domains + OwnRows(app, init), Domain(app, last, 0), b);
      }
    }
  }

  lemma {:induction false} RouteNames(domains: seq<Domain>, app: nat, routes: seq<Route>, b: nat)
    requires forall i :: 0 <= i < |routes| ==> routes[i].port > 0
    ensures OwnHosts(domains + RouteRows(app, routes), b) == OwnHosts(domains, b)
  {
    if routes == [] {
      assert domains + RouteRows(app, routes) == domains;
    } else {
      var init, last := routes[..|routes| - 1], routes[|routes| - 1];
      RouteNames(domains, app, init, b);
      Regroup(domains, RouteRows(app, init), [Domain(app, last.host, last.port)]);
      NameSnoc(domains + RouteRows(app, init), Domain(app, last.host, last.port), b);
    }
  }

  /** The app's own names are these, blank ones left out, in this order. */
  ghost predicate Holds(domains: seq<Domain>, app: nat, hosts: seq<string>) {
    && (forall h :: Domain(app, h, 0) in domains <==> h in hosts && h != "")
    && ("" !in hosts ==> OwnHosts(domains, app) == hosts)
    && OwnHosts(domains, app) == Solid(hosts)
  }

  /** A replacement gives the app the names it was given, blank ones left out, in their order, and leaves
      every other app its own. */
  lemma ReplacedNames(domains: seq<Domain>, app: nat, hosts: seq<string>, routes: seq<Route>, b: nat)
    requires forall i :: 0 <= i < |routes| ==> routes[i].port > 0
    ensures b != app ==> OwnHosts(Replaced(domains, app, hosts, routes), b) == OwnHosts(domains, b)
    ensures b == app ==> Holds(Replaced(domains, app, hosts, routes), app, hosts)
  {
    hide OwnHosts, Others, OwnRows, RouteRows, Solid;
    OthersNames(domains, app, b);
    OwnNames(Others(domains, app), app, hosts, b);
    RouteNames(Others(domains, app) + OwnRows(app, hosts), app, routes, b);
    SolidAre(hosts);
    OwnHostsAre(Replaced(domains, app, hosts, routes), app);
  }

  // ---- no name twice, none blank ----

  ghost predicate NoBlankName(domains: seq<Domain>) {
    forall d :: d in domains && d.port == 0 ==> d.host != ""
  }

  lemma BlankNames(domains: seq<Domain>, app: nat)
    requires NoBlankName(domains)
    ensures "" !in OwnHosts(domains, app)
  {
    OwnHostsAre(domains, app);
  }

  lemma ReplacedSolid(domains: seq<Domain>, app: nat, hosts: seq<string>, routes: seq<Route>)
    requires NoBlankName(domains) && forall i :: 0 <= i < |routes| ==> routes[i].port > 0
    ensures NoBlankName(Replaced(domains, app, hosts, routes))
  {
    hide OwnHosts, Routes, Solid;
    ReplacedNames(domains, app, hosts, routes, app);
    ReplacedApps(domains, app, hosts, routes);
    forall d | d in Replaced(domains, app, hosts, routes) && d.port == 0 ensures d.host != "" {
      assert d.app == app ==> d == Domain(app, d.host, 0);
    }
  }

  function Names(domains: seq<Domain>): seq<string> {
    seq(|domains|, i requires 0 <= i < |domains| => domains[i].host)
  }

  function HostsOf(routes: seq<Route>): seq<string> {
    seq(|routes|, i requires 0 <= i < |routes| => routes[i].host)
  }

  /** What the unique index on hostnames asks of a replacement: no name is given twice, and none is
      another app's. */
  ghost predicate CanHold(domains: seq<Domain>, app: nat, hosts: seq<string>, routes: seq<Route>) {
    && Distinct(Solid(hosts) + HostsOf(routes))
    && forall h :: h in Solid(hosts) + HostsOf(routes) ==> !OwnedElsewhere(domains, h, app)
  }

  /** What a create gives a new app of the names it asked for: all, or none where one is listed twice. */
  ghost function Granted(hosts: seq<string>): seq<string> {
    if Distinct(Solid(hosts)) then Solid(hosts) else []
  }

  /** Where no name is another app's, a replacement by names alone only has to list none twice. */
  lemma FreeHold(domains: seq<Domain>, app: nat, hosts: seq<string>)
    requires forall i :: 0 <= i < |hosts| ==> !OwnedElsewhere(domains, hosts[i], app)
    ensures CanHold(domains, app, hosts, []) <==> Distinct(Solid(hosts))
  {
    hide OwnedElsewhere, Solid, Distinct;
    SolidAre(hosts);
    assert Solid(hosts) + HostsOf([]) == Solid(hosts);
  }

  lemma DistinctAppend(a: seq<string>, b: seq<string>)
    ensures Distinct(a + b) <==> Distinct(a) && Distinct(b) && forall h :: h in a ==> h !in b
  {
    var both := a + b;
    assert forall i :: 0 <= i < |a| ==> both[i] == a[i];
    assert forall j :: 0 <= j < |b| ==> both[|a| + j] == b[j];
    if Distinct(both) {
      forall i, j | 0 <= i < j < |b| ensures b[i] != b[j] {
        assert both[|a| + i] == b[i] && both[|a| + j] == b[j];
      }
    }
    if Distinct(a) && Distinct(b) && forall h :: h in a ==> h !in b {
      forall i, j | 0 <= i < j < |both| ensures both[i] != both[j] {
        if i < |a| <= j {
          assert a[i] in a && b[j - |a|] in b;
        }
      }
    }
  }

  lemma {:induction false} OwnRowNames(app: nat, hosts: seq<string>)
    ensures Names(OwnRows(app, hosts)) == Solid(hosts)
  {
    if hosts != [] {
      OwnRowNames(app, hosts[..|hosts| - 1]);
    }
  }

  lemma {:induction false} RouteRowNames(app: nat, routes: seq<Route>)
    ensures Names(RouteRows(app, routes)) == HostsOf(routes)
  {
    if routes != [] {
      var init, last := routes[..|routes| - 1], routes[|routes| - 1];
      RouteRowNames(app, init);
      assert HostsOf(routes) == HostsOf(init) + [last.host];
      NamesAppend(RouteRows(app, init), [Domain(app, last.host, last.port)]);
    }
  }

  lemma {:induction false} OthersDistinct(domains: seq<Domain>, app: nat)
    requires HostsDistinct(domains)
    ensures HostsDistinct(Others(domains, app))
  {
    if domains != [] {
      var init, last := domains[..|domains| - 1], domains[|domains| - 1];
      OthersDistinct(init, app);
      OthersApps(init, app);
    }
  }

  lemma {:induction false} OthersOwn(domains: seq<Domain>, app: nat, host: string)
    ensures host in Names(Others(domains, app)) <==> OwnedElsewhere(domains, host, app)
  {
    OthersApps(domains, app);
    var others := Others(domains, app);
    if host in Names(others) {
      var i :| 0 <= i < |Names(others)| && Names(others)[i] == host;
      assert others[i] in others;
    }
    if OwnedElsewhere(domains, host, app) {
      var i :| 0 <= i < |domains| && domains[i].host == host && domains[i].app != app;
      assert domains[i] in domains;
      var j :| 0 <= j < |others| && others[j] == domains[i];
      assert Names(others)[j] == host;
    }
  }

  lemma NamesAppend(a: seq<Domain>, b: seq<Domain>)
    ensures Names(a + b) == Names(a) + Names(b)
  {
  }

  lemma DistinctNames(domains: seq<Domain>)
    ensures HostsDistinct(domains) <==> Distinct(Names(domains))
  {
    assert forall i :: 0 <= i < |domains| ==> Names(domains)[i] == domains[i].host;
  }

  lemma ReplacedDistinct(domains: seq<Domain>, app: nat, hosts: seq<string>, routes: seq<Route>)
    requires HostsDistinct(domains)
    ensures HostsDistinct(Replaced(domains, app, hosts, routes)) <==> CanHold(domains, app, hosts, routes)
  {
    hide HostsDistinct, Distinct, OwnRows, RouteRows, Others, Names, OwnedElsewhere, Solid, HostsOf;
    var others, own, more := Others(domains, app), OwnRows(app, hosts), RouteRows(app, routes);
    OthersDistinct(domains, app);
    DistinctNames(others);
    DistinctNames(others + own + more);
    NamesAppend(others + own, more);
    NamesAppend(others, own);
    OwnRowNames(app, hosts);
    RouteRowNames(app, routes);
    Regroup(Names(others), Solid(hosts), HostsOf(routes));
    DistinctAppend(Names(others), Solid(hosts) + HostsOf(routes));
    forall h ensures h in Names(others) <==> OwnedElsewhere(domains, h, app) {
      OthersOwn(domains, app, h);
    }
  }

  // ---- what an upsert leaves ----

  lemma DistinctSnoc(domains: seq<Domain>, d: Domain)
    ensures HostsDistinct(domains + [d]) <==> HostsDistinct(domains) && !HasHost(domains, d.host)
  {
    var more := domains + [d];
    assert more[|domains|] == d && forall i :: 0 <= i < |domains| ==> more[i] == domains[i];
  }

  lemma HasHostIs(domains: seq<Domain>, host: string)
    ensures HasHost(domains, host) <==> exists d :: d in domains && d.host == host
  {
    if d :| d in domains && d.host == host {
      var i :| 0 <= i < |domains| && domains[i] == d;
      assert domains[i].host == host;
    }
  }

  /** The row is there in the place of the one of its name, every row of another name is as it was, and no
      name is there twice. */
  lemma {:induction false} TurnedRows(domains: seq<Domain>, d: Domain)
    requires HostsDistinct(domains) && HasHost(domains, d.host)
    ensures forall r :: r in Turned(domains, d) <==> r == d || (r in domains && r.host != d.host)
    ensures HostsDistinct(Turned(domains, d))
  {
    hide HostsDistinct, HasHost;
    HasHostIs(domains, d.host);
    var init, last := domains[..|domains| - 1], domains[|domains| - 1];
    Split1(domains);
    DistinctSnoc(init, last);
    HasHostIs(init, last.host);
    if last.host == d.host {
      DistinctSnoc(init, d);
    } else {
      HasHostSnoc(init, last, d.host);
      TurnedRows(init, d);
      HasHostIs(Turned(init, d), last.host);
      DistinctSnoc(Turned(init, d), last);
    }
  }

  /** No name is there twice, and the names of an app are what is left of them. */
  lemma UpsertedRows(domains: seq<Domain>, d: Domain)
    requires HostsDistinct(domains)
    ensures forall r :: r in Upserted(domains, d) <==> r == d || (r in domains && r.host != d.host)
    ensures HostsDistinct(Upserted(domains, d))
  {
    hide HostsDistinct, HasHost, Turned;
    HasHostIs(domains, d.host);
    if HasHost(domains, d.host) {
      TurnedRows(domains, d);
    } else {
      DistinctSnoc(domains, d);
    }
  }

  lemma {:induction false} TurnedNames(domains: seq<Domain>, d: Domain, b: nat)
    requires HostsDistinct(domains) && !OwnedElsewhere(domains, d.host, d.app)
    ensures b != d.app ==> OwnHosts(Turned(domains, d), b) == OwnHosts(domains, b)
    ensures b == d.app && d.port > 0 ==> OwnHosts(Turned(domains, d), b) == Without(OwnHosts(domains, b), d.host)
  {
    hide OwnHosts, OwnedElsewhere;
    if domains == [] {
      NoNames(b);
    } else {
      var init, last := domains[..|domains| - 1], domains[|domains| - 1];
      Split1(domains);
      OwnedInit(init, last, d.host, d.app);
      TurnedNames(init, d, b);
      NameSnoc(init, last, b);
      NameSnoc(init, d, b);
      NameSnoc(Turned(init, d), last, b);
      WithoutSnoc(OwnHosts(init, b), last.host, d.host);
      if last.host == d.host {
        OwnHostsAre(init, b);
        WithoutIs(OwnHosts(init, b), d.host);
      }
    }
  }

  lemma NoNames(app: nat)
    ensures OwnHosts([], app) == [] && forall h :: Without([], h) == []
  {
  }

  lemma WithoutSnoc(hosts: seq<string>, last: string, host: string)
    ensures Without(hosts + [last], host)
            == if last == host then Without(hosts, host) else Without(hosts, host) + [last]
  {
    assert (hosts + [last])[..|hosts|] == hosts;
  }

  /** A name given a port is no longer one of the app's own, and nobody else's names change. */
  lemma UpsertedNames(domains: seq<Domain>, d: Domain, b: nat)
    requires HostsDistinct(domains) && !OwnedElsewhere(domains, d.host, d.app)
    ensures b != d.app ==> OwnHosts(Upserted(domains, d), b) == OwnHosts(domains, b)
    ensures b == d.app && d.port > 0 ==> OwnHosts(Upserted(domains, d), b) == Without(OwnHosts(domains, b), d.host)
  {
    hide OwnHosts, Turned, Without;
    if HasHost(domains, d.host) {
      TurnedNames(domains, d, b);
    } else {
      NameSnoc(domains, d, b);
      OwnHostsAre(domains, b);
      WithoutIs(OwnHosts(domains, b), d.host);
    }
  }
}
