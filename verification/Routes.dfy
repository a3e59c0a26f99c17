/** What the reconciler publishes (internal/platform/reconcile.go, internal/store/domains.go): the
    rows of the domains table joined with their apps become route infos, those become Caddy routes,
    and the deploy endpoints go in front of them. */
module Routes {
  import opened Text
  import opened Wrappers

  datatype Kind = Mail | Proxy | Static | Other

  /** A domain with its app. `dir` is the directory a static app is served from, `site` the folder
      of a shared WordPress site. */
  datatype Row = Row(host: string, domainPort: nat, appPort: nat, local: bool, kind: Kind, serve: bool,
                     shared: bool, running: bool, upstream: string, dir: string, site: string)

  /** The wp-host settings: where its sites are, and its PHP port. */
  datatype WPHost = WPHost(dir: string, port: nat)

  datatype Info = Info(host: string, local: bool, upstream: string, root: string, fcgi: nat, port: nat)

  /** An app with its deploy endpoints: the webhook's id and the push token's hash, "" when off. */
  datatype Endpoint = Endpoint(domain: string, hook: string, token: string)

  datatype Route = Route(host: string, internal: bool, paths: seq<string>, upstream: string, root: string, fcgi: nat)

  const PUSH_PATH := "/_xdev/deploy"
  const HOOK_PREFIX := "/_xdev/hook/"

  // ---- the case split over a row ----

  /** The WHERE clause of ProxyRoutes. */
  predicate Published(row: Row) {
    || row.domainPort > 0
    || row.appPort > 0
    || (row.kind == Static && row.serve)
    || (row.kind == Proxy && row.running)
    || (row.shared && row.running)
  }

  function InfoOf(row: Row, wp: WPHost): Option<Info> {
    var none := Info(row.host, row.local, "", "", 0, 0);
    if !Published(row) then None
    else if row.domainPort > 0 && row.kind == Mail then
      Some(none.(upstream := "https://127.0.0.1:" + Itoa(row.domainPort)))
    else if row.domainPort > 0 then Some(none.(port := row.domainPort))
    else if row.kind == Proxy then Some(none.(upstream := row.upstream))
    else if row.shared then
      if wp.dir == "" || wp.port == 0 then None
      else Some(none.(root := wp.dir + "/sites/" + row.site, fcgi := wp.port))
    else if row.kind == Static && row.serve then Some(none.(root := row.dir))
    else Some(none.(port := row.appPort))
  }

  function Infos(rows: seq<Row>, wp: WPHost): seq<Info> {
    if rows == [] then []
    else
      var rest := Infos(rows[1..], wp);
      match InfoOf(rows[0], wp) { case Some(info) => [info] + rest case None => rest }
  }

  function RouteOf(info: Info): Route {
    if info.upstream != "" then Route(info.host, info.local, [], info.upstream, "", 0)
    else if info.root != "" then Route(info.host, info.local, [], "", info.root, info.fcgi)
    else Route(info.host, info.local, [], "127.0.0.1:" + Itoa(info.port), "", 0)
  }

  // ---- the whole configuration ----

  function Paths(e: Endpoint): seq<string> {
    (if e.hook != "" then [HOOK_PREFIX + e.hook] else []) + (if e.token != "" then [PUSH_PATH] else [])
  }

  function EndpointRoutes(endpoints: seq<Endpoint>, self: string): seq<Route> {
    if endpoints == [] || self == "" then []
    else
      var e, rest := endpoints[0], EndpointRoutes(endpoints[1..], self);
      if Paths(e) == [] || e.domain == "" then rest
      else [Route(e.domain, false, Paths(e), self, "", 0)] + rest
  }

  function AppRoutes(infos: seq<Info>): seq<Route> {
    seq(|infos|, i requires 0 <= i < |infos| => RouteOf(infos[i]))
  }

  function Config(infos: seq<Info>, endpoints: seq<Endpoint>, self: string): seq<Route> {
    EndpointRoutes(endpoints, self) + AppRoutes(infos)
  }

  predicate NeedsHosts(info: Info) {
    info.local && !HasSuffix(info.host, ".localhost")
  }

  function Hostnames(infos: seq<Info>): seq<string> {
    if infos == [] then []
    else
      var init, last := infos[..|infos| - 1], infos[|infos| - 1];
      Hostnames(init) + if NeedsHosts(last) then [last.host] else []
  }

  /** endpointRoutes. */
  method BuildEndpointRoutes(endpoints: seq<Endpoint>, self: string) returns (routes: seq<Route>)
    ensures routes == EndpointRoutes(endpoints, self)
  {
    hide Paths;
    if self == "" {
      return [];
    }
    routes := [];
    for i := 0 to |endpoints|
      invariant routes + EndpointRoutes(endpoints[i..], self) == EndpointRoutes(endpoints, self)
    {
      var e := endpoints[i];
      assert endpoints[i..][1..] == endpoints[i + 1..];
      var paths := Paths(e);
      if |paths| == 0 || e.domain == "" {
        continue;
      }
      routes := routes + [Route(e.domain, false, paths, self, "", 0)];
    }
  }

  /** The loop of Sync that turns infos into routes behind the endpoints', and collects the names
      that need a hosts entry. */
  method BuildRoutes(infos: seq<Info>, endpoints: seq<Endpoint>, self: string)
    returns (routes: seq<Route>, hostnames: seq<string>)
    ensures routes == Config(infos, endpoints, self)
    ensures hostnames == Hostnames(infos)
  {
    hide RouteOf, NeedsHosts, EndpointRoutes;
    routes := BuildEndpointRoutes(endpoints, self);
    hostnames := [];
    for i := 0 to |infos|
      invariant routes == EndpointRoutes(endpoints, self) + AppRoutes(infos[..i])
      invariant hostnames == Hostnames(infos[..i])
    {
      assert infos[..i + 1][..i] == infos[..i];
      assert AppRoutes(infos[..i + 1]) == AppRoutes(infos[..i]) + [RouteOf(infos[i])];
      routes := routes + [RouteOf(infos[i])];
      if NeedsHosts(infos[i]) {
        hostnames := hostnames + [infos[i].host];
      }
    }
    assert infos[..|infos|] == infos;
  }

  // ---- what a request reaches ----

  predicate Matches(route: Route, host: string, path: string) {
    route.host == host && (route.paths == [] || path in route.paths)
  }

  /** Caddy takes the first route that matches. */
  function Dispatch(routes: seq<Route>, host: string, path: string): Option<Route> {
    if routes == [] then None
    else if Matches(routes[0], host, path) then Some(routes[0])
    else Dispatch(routes[1..], host, path)
  }

  /** The app's own webhook path, or the push path once it has a token. */
  predicate Asked(e: Endpoint, path: string) {
    (e.hook != "" && path == "/_xdev/hook/" + e.hook) || (e.token != "" && path == "/_xdev/deploy")
  }

  lemma AskedPaths(e: Endpoint, path: string)
    ensures path in Paths(e) <==> Asked(e, path)
  {
    assert PUSH_PATH == "/_xdev/deploy" && HOOK_PREFIX == "/_xdev/hook/";
  }

  /** Somebody switched this very endpoint on for an app on this host. */
  ghost predicate SwitchedOn(endpoints: seq<Endpoint>, self: string, host: string, path: string) {
    self != "" && host != "" && exists e :: e in endpoints && e.domain == host && Asked(e, path)
  }

  predicate First(infos: seq<Info>, host: string, i: int) {
    0 <= i < |infos| && infos[i].host == host && forall j :: 0 <= j < i ==> infos[j].host != host
  }

  lemma {:induction false} DispatchAppend(a: seq<Route>, b: seq<Route>, host: string, path: string)
    ensures Dispatch(a + b, host, path)
            == if Dispatch(a, host, path).Some? then Dispatch(a, host, path) else Dispatch(b, host, path)
  {
    hide Matches;
    if a == [] {
      assert a + b == b;
    } else {
      DispatchAppend(a[1..], b, host, path);
      assert (a + b)[1..] == a[1..] + b;
    }
  }

  lemma {:induction false} EndpointDispatch(endpoints: seq<Endpoint>, self: string, host: string, path: string)
    ensures var d := Dispatch(EndpointRoutes(endpoints, self), host, path);
      && (d.Some? <==> SwitchedOn(endpoints, self, host, path))
      && (d.Some? ==> d.value == Route(host, false, d.value.paths, self, "", 0) && path in d.value.paths)
  {
    hide Paths, Asked;
    if endpoints != [] && self != "" {
      AskedPaths(endpoints[0], path);
      EndpointDispatch(endpoints[1..], self, host, path);
      assert endpoints == [endpoints[0]] + endpoints[1..];
    }
  }

  lemma {:induction false} AppDispatch(infos: seq<Info>, host: string, path: string)
    ensures Dispatch(AppRoutes(infos), host, path).Some? <==> exists i :: 0 <= i < |infos| && infos[i].host == host
    ensures forall i :: First(infos, host, i) ==> Dispatch(AppRoutes(infos), host, path) == Some(RouteOf(infos[i]))
  {
    if infos != [] {
      AppDispatch(infos[1..], host, path);
      assert AppRoutes(infos)[1..] == AppRoutes(infos[1..]);
      if infos[0].host != host {
        forall i | First(infos, host, i)
          ensures Dispatch(AppRoutes(infos), host, path) == Some(RouteOf(infos[i]))
        {
          assert infos[1..][i - 1] == infos[i];
          assert forall j :: 0 <= j < i - 1 ==> infos[1..][j] == infos[j + 1];
        }
        if exists i :: 0 <= i < |infos| && infos[i].host == host {
          var i :| 0 <= i < |infos| && infos[i].host == host;
          assert infos[1..][i - 1].host == host;
        }
      }
    }
  }

  /** A request reaches the control plane exactly where that path was switched on for that host; any
      other request on a host reaches the host's own route, whatever its path. */
  lemma RequestGoes(infos: seq<Info>, endpoints: seq<Endpoint>, self: string, host: string, path: string, i: nat)
    requires First(infos, host, i)
    ensures var d := Dispatch(Config(infos, endpoints, self), host, path);
      && d.Some?
      && (SwitchedOn(endpoints, self, host, path) ==>
            d.value == Route(host, false, d.value.paths, self, "", 0) && path in d.value.paths)
      && (!SwitchedOn(endpoints, self, host, path) ==> d.value == RouteOf(infos[i]))
      && (SwitchedOn(endpoints, self, host, path) <==> d.value.paths != [])
  {
    hide RouteOf, EndpointRoutes, SwitchedOn;
    DispatchAppend(EndpointRoutes(endpoints, self), AppRoutes(infos), host, path);
    EndpointDispatch(endpoints, self, host, path);
    AppDispatch(infos, host, path);
    WholeHost(infos[i]);
  }

  lemma WholeHost(info: Info)
    ensures RouteOf(info).paths == []
  {
  }

  // ---- where a row of the table sends its host ----

  /** The row is for something that can be reached: a port of a service or of the app, a proxy's upstream
      once started, the files of a static app, or a shared site while the shared PHP is set up. */
  ghost predicate Answers(row: Row, wp: WPHost) {
    || row.domainPort > 0
    || (row.kind == Proxy && (row.running || row.appPort > 0))
    || (row.kind != Proxy && !row.shared && ((row.kind == Static && row.serve) || row.appPort > 0))
    || (row.kind != Proxy && row.shared && wp.dir != "" && wp.port > 0
        && (row.running || row.appPort > 0 || (row.kind == Static && row.serve)))
  }

  ghost predicate ToPort(route: Route, port: nat) {
    route.upstream == "127.0.0.1:" + Itoa(port) && route.root == "" && route.fcgi == 0
  }

  /** The row's whole host goes to its own service's port, else to the proxy's upstream, else to the
      docroot of the shared site or of the static app, else to the app's port. */
  ghost predicate GoesTo(route: Route, row: Row, wp: WPHost) {
    && route.host == row.host && route.internal == row.local && route.paths == []
    && (row.domainPort > 0 && row.kind != Mail ==> ToPort(route, row.domainPort))
    && (row.domainPort > 0 && row.kind == Mail ==>
          route.upstream == "https://127.0.0.1:" + Itoa(row.domainPort) && route.root == "" && route.fcgi == 0)
    && (row.domainPort == 0 && row.kind == Proxy && row.upstream != "" ==>
          route.upstream == row.upstream && route.root == "" && route.fcgi == 0)
    && (row.domainPort == 0 && row.kind != Proxy && row.shared ==>
          route.upstream == "" && route.root == wp.dir + "/sites/" + row.site && route.fcgi == wp.port)
    && (row.domainPort == 0 && !row.shared && row.kind == Static && row.serve && row.dir != "" ==>
          route.upstream == "" && route.root == row.dir && route.fcgi == 0)
    && (row.domainPort == 0 && !row.shared && row.kind != Proxy && !(row.kind == Static && row.serve) ==>
          ToPort(route, row.appPort))
    && (row.domainPort == 0 && row.kind == Proxy && row.upstream == "" ==> ToPort(route, 0))
    && (row.domainPort == 0 && !row.shared && row.kind == Static && row.serve && row.dir == "" ==> ToPort(route, 0))
  }

  /** The first row of a host that answers. */
  ghost predicate FirstRow(rows: seq<Row>, wp: WPHost, host: string, k: int) {
    && 0 <= k < |rows| && rows[k].host == host && Answers(rows[k], wp)
    && forall j :: 0 <= j < k && rows[j].host == host ==> !Answers(rows[j], wp)
  }

  lemma AnswersInfo(row: Row, wp: WPHost)
    ensures InfoOf(row, wp).Some? <==> Answers(row, wp)
    ensures InfoOf(row, wp).Some? ==> InfoOf(row, wp).value.host == row.host && InfoOf(row, wp).value.local == row.local
    ensures InfoOf(row, wp).Some? ==> GoesTo(RouteOf(InfoOf(row, wp).value), row, wp)
  {
    hide Itoa;
  }

  lemma FirstCons(info: Info, rest: seq<Info>, host: string, j: nat)
    requires info.host != host && First(rest, host, j)
    ensures First([info] + rest, host, j + 1) && ([info] + rest)[j + 1] == rest[j]
  {
  }

  lemma FirstRowTail(rows: seq<Row>, wp: WPHost, host: string, k: nat)
    requires FirstRow(rows, wp, host, k) && k > 0
    ensures FirstRow(rows[1..], wp, host, k - 1) && rows[1..][k - 1] == rows[k]
    ensures rows[0].host == host ==> !Answers(rows[0], wp)
  {
    hide Answers;
    var rest := rows[1..];
    assert forall j :: 0 <= j < |rest| ==> rest[j] == rows[j + 1];
  }

  /** The first row that answers for a host is the first info of it. */
  lemma {:induction false} FirstInfo(rows: seq<Row>, wp: WPHost, host: string, k: nat) returns (i: nat)
    requires FirstRow(rows, wp, host, k)
    ensures First(Infos(rows, wp), host, i) && InfoOf(rows[k], wp) == Some(Infos(rows, wp)[i])
  {
    hide InfoOf, Answers, GoesTo, RouteOf;
    AnswersInfo(rows[0], wp);
    if k == 0 {
      i := 0;
    } else {
      hide FirstRow, First;
      FirstRowTail(rows, wp, host, k);
      i := FirstInfo(rows[1..], wp, host, k - 1);
      if InfoOf(rows[0], wp).Some? {
        FirstCons(InfoOf(rows[0], wp).value, Infos(rows[1..], wp), host, i);
        i := i + 1;
      }
    }
  }

  /** A request for a path nobody switched on goes where the first row that answers for its host says,
      whatever the path and whatever the other rows are. */
  lemma RowGoes(rows: seq<Row>, wp: WPHost, endpoints: seq<Endpoint>, self: string, host: string, path: string, k: nat)
    requires FirstRow(rows, wp, host, k)
    ensures var d := Dispatch(Config(Infos(rows, wp), endpoints, self), host, path);
      && d.Some?
      && (SwitchedOn(endpoints, self, host, path) ==>
            d.value == Route(host, false, d.value.paths, self, "", 0) && path in d.value.paths)
      && (!SwitchedOn(endpoints, self, host, path) ==> GoesTo(d.value, rows[k], wp))
  {
    hide Dispatch, Config, Infos, First, SwitchedOn, InfoOf, RouteOf, GoesTo, Answers;
    var i := FirstInfo(rows, wp, host, k);
    RequestGoes(Infos(rows, wp), endpoints, self, host, path, i);
    AnswersInfo(rows[k], wp);
  }

  /** Where no row answers for the host, only the paths switched on for it reach anything. */
  lemma NoRowNoRoute(rows: seq<Row>, wp: WPHost, endpoints: seq<Endpoint>, self: string, host: string, path: string)
    requires forall row :: row in rows && row.host == host ==> !Answers(row, wp)
    ensures Dispatch(Config(Infos(rows, wp), endpoints, self), host, path).Some?
            <==> SwitchedOn(endpoints, self, host, path)
  {
    hide EndpointRoutes, Infos, SwitchedOn, InfoOf, RouteOf, GoesTo, Answers, Dispatch;
    var infos := Infos(rows, wp);
    DispatchAppend(EndpointRoutes(endpoints, self), AppRoutes(infos), host, path);
    EndpointDispatch(endpoints, self, host, path);
    AppDispatch(infos, host, path);
    if exists i :: 0 <= i < |infos| && infos[i].host == host {
      var i: nat :| i < |infos| && infos[i].host == host;
      var row := RowOf(rows, wp, i);
      AnswersInfo(row, wp);
    }
  }

  /** The docroot of a shared site, behind its PHP handler. */
  predicate SharedRoute(route: Route, row: Row, wp: WPHost) {
    row.shared && route.host == row.host && route.root == wp.dir + "/sites/" + row.site && route.fcgi == wp.port != 0
  }

  /** The directory of a static app that serves files. */
  predicate StaticRoute(route: Route, row: Row) {
    !row.shared && row.kind == Static && row.serve && route.host == row.host && route.root == row.dir && route.fcgi == 0
  }

  /** Whatever Caddy is told to serve files from is the docroot of a shared site with its PHP handler, or
      the directory of a static app: a shared docroot is never served without the handler, whatever the
      settings hold, which would make its configuration file readable as source. */
  lemma NoBareDocroot(rows: seq<Row>, wp: WPHost, endpoints: seq<Endpoint>, self: string, route: Route)
    requires route in Config(Infos(rows, wp), endpoints, self) && route.root != ""
    ensures exists row :: row in rows && (SharedRoute(route, row, wp) || StaticRoute(route, row))
  {
    hide Itoa, Infos, RouteOf, EndpointRoutes, InfoOf;
    var infos := Infos(rows, wp);
    EndpointsServeNothing(endpoints, self);
    assert route in AppRoutes(infos);
    var i :| 0 <= i < |infos| && AppRoutes(infos)[i] == route;
    var row := RowOf(rows, wp, i);
    Served(row, wp);
  }

  lemma {:induction false} EndpointsServeNothing(endpoints: seq<Endpoint>, self: string)
    ensures forall route :: route in EndpointRoutes(endpoints, self) ==> route.root == ""
  {
    hide Paths;
    if endpoints != [] && self != "" {
      EndpointsServeNothing(endpoints[1..], self);
    }
  }

  /** The row an info was made from. */
  lemma {:induction false} RowOf(rows: seq<Row>, wp: WPHost, i: nat) returns (row: Row)
    requires i < |Infos(rows, wp)|
    ensures row in rows && InfoOf(row, wp) == Some(Infos(rows, wp)[i])
  {
    hide InfoOf;
    if InfoOf(rows[0], wp).Some? && i == 0 {
      row := rows[0];
    } else {
      row := RowOf(rows[1..], wp, if InfoOf(rows[0], wp).Some? then i - 1 else i);
    }
  }

  lemma Served(row: Row, wp: WPHost)
    requires InfoOf(row, wp).Some?
    ensures var route := RouteOf(InfoOf(row, wp).value);
      route.root != "" ==> SharedRoute(route, row, wp) || StaticRoute(route, row)
  {
    hide Itoa;
  }

  /** Browsers resolve such a name by themselves. */
  ghost predicate UnderLocalhost(host: string) {
    exists name :: host == name + ".localhost"
  }

  lemma SuffixIs(host: string)
    ensures HasSuffix(host, ".localhost") <==> UnderLocalhost(host)
  {
    if HasSuffix(host, ".localhost") {
      assert host == host[..|host| - |".localhost"|] + ".localhost";
    }
  }

  /** The hosts file is asked for exactly the local names outside .localhost that are routed. */
  lemma {:induction false} HostnamesAre(infos: seq<Info>, host: string)
    ensures host in Hostnames(infos)
            <==> !UnderLocalhost(host) && exists i :: 0 <= i < |infos| && infos[i].host == host && infos[i].local
  {
    hide HasSuffix, UnderLocalhost;
    SuffixIs(host);
    if infos != [] {
      var n := |infos| - 1;
      var init := infos[..n];
      HostnamesAre(init, host);
      if exists i :: 0 <= i < |infos| && infos[i].host == host && infos[i].local {
        var i :| 0 <= i < |infos| && infos[i].host == host && infos[i].local;
        assert i < n ==> init[i] == infos[i];
      }
    }
  }

  /** Over the rows: a name is asked for exactly when some row that answers for it is a local one. */
  lemma RowHostnames(rows: seq<Row>, wp: WPHost, host: string)
    ensures host in Hostnames(Infos(rows, wp))
            <==> !UnderLocalhost(host)
                 && exists row :: row in rows && row.host == host && row.local && Answers(row, wp)
  {
    hide Hostnames, UnderLocalhost, InfoOf, RouteOf, GoesTo, Answers, Infos;
    var infos := Infos(rows, wp);
    HostnamesAre(infos, host);
    if exists i :: 0 <= i < |infos| && infos[i].host == host && infos[i].local {
      var i: nat :| i < |infos| && infos[i].host == host && infos[i].local;
      var row := RowOf(rows, wp, i);
      AnswersInfo(row, wp);
    }
    if exists row :: row in rows && row.host == host && row.local && Answers(row, wp) {
      var row :| row in rows && row.host == host && row.local && Answers(row, wp);
      var i := InfoIn(rows, wp, row);
      AnswersInfo(row, wp);
    }
  }

  lemma {:induction false} InfoIn(rows: seq<Row>, wp: WPHost, row: Row) returns (i: nat)
    requires row in rows && Answers(row, wp)
    ensures i < |Infos(rows, wp)| && InfoOf(row, wp) == Some(Infos(rows, wp)[i])
  {
    hide InfoOf, Answers, GoesTo, RouteOf;
    AnswersInfo(row, wp);
    if row == rows[0] {
      i := 0;
    } else {
      assert rows == [rows[0]] + rows[1..];
      i := InfoIn(rows[1..], wp, row);
      if InfoOf(rows[0], wp).Some? {
        i := i + 1;
      }
    }
  }
}
