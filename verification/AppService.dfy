/** Ports, domains and env files over the life of apps (internal/apps, internal/store/domains.go): no recorded
    port is given twice, and a compose stack's env file names the ports its domains are routed to. */
module AppService {
  import opened Collections
  import opened Text
  import opened Wrappers
  import opened Ports
  import opened Domains
  import CP = ComposePorts
  import Env = ComposeEnv
  import Blocks = ComposeBlocks

  datatype Kind = Container | Compose | HostProc | Proxy | SharedWP

  datatype App = App(kind: Kind, port: nat)

  /** The compose service a bundled Adminer runs as. */
  const ADMINER := "adminer"

  // ---- recorded ports ----

  function AppPorts(apps: map<nat, App>): set<nat> {
    set a | a in apps && apps[a].port > 0 :: apps[a].port
  }

  /** UsedPorts. */
  function Used(apps: map<nat, App>, domains: seq<Domain>, wpPort: nat): set<nat> {
    AppPorts(apps) + DomainPorts(domains) + if wpPort > 0 then {wpPort} else {}
  }

  ghost predicate AppsApart(apps: map<nat, App>) {
    forall a, b :: a in apps && b in apps && a != b && apps[a].port > 0 ==> apps[a].port != apps[b].port
  }

  /** No port is recorded twice. */
  ghost predicate PortsApart(apps: map<nat, App>, domains: seq<Domain>, wpPort: nat) {
    && AppsApart(apps) && DomainsApart(domains)
    && AppPorts(apps) !! DomainPorts(domains)
    && (wpPort > 0 ==> wpPort !in AppPorts(apps) && wpPort !in DomainPorts(domains))
  }

  lemma SetAppApart(apps: map<nat, App>, domains: seq<Domain>, wpPort: nat, id: nat, a: App)
    requires PortsApart(apps, domains, wpPort)
    requires a.port > 0 ==> a.port !in Used(apps, domains, wpPort) || (id in apps && a.port == apps[id].port)
    ensures PortsApart(apps[id := a], domains, wpPort)
  {
  }

  lemma RestOfAgreed(content: string, ports: seq<nat>)
    requires ports != [] && Env.Agrees(content, ports)
    ensures Env.RestAgrees(content, ports)
  {
  }

  /** A start that writes the first slot alone settles a stack exactly when its file already agreed on
      the rest. */
  lemma StartedAgreement(laid: string, content: string, port: nat, ports: seq<nat>)
    requires ports != [] && content == Env.Rewritten(laid, [port])
    ensures var slots := [port] + ports[1..];
      && (Env.Agrees(content, slots) <==> Env.RestAgrees(laid, slots))
      && (Env.RestAgrees(laid, slots) <==> Env.RestAgrees(laid, ports))
  {
    hide Env.AssignedIn, Env.Rewritten, Itoa, Env.Key;
    var slots := [port] + ports[1..];
    assert slots[..1] == [port];
    Env.FirstRewritten(laid, slots);
    assert forall n: nat :: 2 <= n <= |ports| ==> Env.PortAt(slots, n) == Env.PortAt(ports, n);
  }

  // ---- agreement over the table ----

  /** The ports behind an app's slots: its own, then one per service domain in the order of its rows. */
  function SlotsOf(apps: map<nat, App>, domains: seq<Domain>, id: nat): seq<nat>
    requires id in apps
  {
    [apps[id].port] + PortsOf(Routes(domains, id))
  }

  /** Each of these apps is a compose app whose env file names, once per spelling, the port every slot
      is routed to. */
  ghost predicate Settled(apps: map<nat, App>, domains: seq<Domain>, envs: map<nat, string>, ids: set<nat>) {
    forall id :: id in ids ==>
      id in apps && apps[id].kind == Compose && id in envs && Env.Agrees(envs[id], SlotsOf(apps, domains, id))
  }

  lemma SettledLess(apps: map<nat, App>, domains: seq<Domain>, envs: map<nat, string>, ids: set<nat>, some: set<nat>)
    requires Settled(apps, domains, envs, ids)
    ensures ids <= apps.Keys && Settled(apps, domains, envs, ids - some)
  {
  }

  lemma SettledMore(apps: map<nat, App>, domains: seq<Domain>, envs: map<nat, string>, ids: set<nat>, id: nat)
    requires Settled(apps, domains, envs, ids)
    requires id in apps && apps[id].kind == Compose && id in envs && Env.Agrees(envs[id], SlotsOf(apps, domains, id))
    ensures Settled(apps, domains, envs, ids + {id})
  {
  }

  lemma SettledKinds(apps: map<nat, App>, domains: seq<Domain>, envs: map<nat, string>, ids: set<nat>)
    requires Settled(apps, domains, envs, ids)
    ensures forall id :: id in ids ==> id in apps && apps[id].kind == Compose
  {
  }

  /** In the words of the file: each spelling of the first slot is assigned once, to the app's own port, and
      each spelling of a later one once, to the port of the service domain it stands for. */
  lemma SettledMeans(apps: map<nat, App>, domains: seq<Domain>, envs: map<nat, string>, ids: set<nat>, id: nat)
    requires Settled(apps, domains, envs, ids) && id in ids
    ensures id in apps && apps[id].kind == Compose && id in envs
    ensures forall key :: key in ["PORT", "XDEV_PORT", "PORT_1", "XDEV_PORT_1"] ==>
              Env.AssignedIn(envs[id], key) == [Itoa(apps[id].port)]
    ensures var routes := Routes(domains, id);
      forall i: nat :: i < |routes| ==>
        && Env.AssignedIn(envs[id], "PORT_" + Itoa(i + 2)) == [Itoa(routes[i].port)]
        && Env.AssignedIn(envs[id], "XDEV_PORT_" + Itoa(i + 2)) == [Itoa(routes[i].port)]
  {
    hide Routes, PortsOf, Env.AssignedIn, Itoa;
    var routes := Routes(domains, id);
    var slots := SlotsOf(apps, domains, id);
    PortsOfAre(routes);
    FirstKeys();
    assert forall n: nat :: n <= 1 ==> Env.PortAt(slots, n) == apps[id].port;
    forall key | key in ["PORT", "XDEV_PORT", "PORT_1", "XDEV_PORT_1"]
      ensures Env.AssignedIn(envs[id], key) == [Itoa(apps[id].port)]
    {
    }
    forall i: nat | i < |routes|
      ensures Env.AssignedIn(envs[id], "PORT_" + Itoa(i + 2)) == [Itoa(routes[i].port)]
      ensures Env.AssignedIn(envs[id], "XDEV_PORT_" + Itoa(i + 2)) == [Itoa(routes[i].port)]
    {
      LaterKeys(i + 2);
      assert Env.PortAt(slots, i + 2) == routes[i].port;
    }
  }

  lemma FirstKeys()
    ensures Env.Key(false, 0) == "PORT" && Env.Key(true, 0) == "XDEV_PORT"
    ensures Env.Key(false, 1) == "PORT_1" && Env.Key(true, 1) == "XDEV_PORT_1"
  {
    assert Itoa(1) == "1";
  }

  lemma LaterKeys(n: nat)
    requires n > 0
    ensures Env.Key(false, n) == "PORT_" + Itoa(n) && Env.Key(true, n) == "XDEV_PORT_" + Itoa(n)
  {
  }

  /** Nothing about an app's slots changed. */
  ghost predicate Untouched(apps: map<nat, App>, domains: seq<Domain>, envs: map<nat, string>,
                            apps': map<nat, App>, domains': seq<Domain>, envs': map<nat, string>, id: nat) {
    && (id in apps <==> id in apps') && (id in apps ==> apps'[id] == apps[id])
    && (id in envs <==> id in envs') && (id in envs ==> envs'[id] == envs[id])
    && Routes(domains', id) == Routes(domains, id)
  }

  lemma SettledStays(apps: map<nat, App>, domains: seq<Domain>, envs: map<nat, string>,
                     apps': map<nat, App>, domains': seq<Domain>, envs': map<nat, string>, ids: set<nat>)
    requires Settled(apps, domains, envs, ids)
    requires forall id :: id in ids ==> Untouched(apps, domains, envs, apps', domains', envs', id)
    ensures Settled(apps', domains', envs', ids)
  {
    hide Env.Agrees;
  }

  lemma ReplacedApart(apps: map<nat, App>, domains: seq<Domain>, wpPort: nat, app: nat, hosts: seq<string>,
                      routes: seq<Route>)
    requires PortsApart(apps, domains, wpPort) && RealRoutes(routes)
    requires RoutePorts(routes) !! Used(apps, Others(domains, app), wpPort)
    ensures PortsApart(apps, Replaced(domains, app, hosts, routes), wpPort)
  {
    hide AppPorts, AppsApart, RouteRows, OwnRows;
    OthersLaw(domains, app, app);
    OwnLaw(Others(domains, app), app, hosts, app);
    RoutesApart(Others(domains, app) + OwnRows(app, hosts), app, routes);
  }

  /** The names asked for beside an app's own are free, new and not too many. */
  ghost predicate ExtrasFit(domains: seq<Domain>, extras: seq<string>, hosts: seq<string>, self: nat) {
    && |extras| + 1 <= 5
    && (forall j :: 0 <= j < |extras|
         ==> extras[j] != "" && extras[j] !in hosts && !OwnedElsewhere(domains, extras[j], self))
    && (forall j, k :: 0 <= j < k < |extras| ==> extras[j] != extras[k])
  }

  lemma NewRowsFree(domains: seq<Domain>, extras: seq<string>, hosts: seq<string>, self: nat)
    requires ExtrasFit(domains, extras, hosts, self)
    requires forall i :: 0 <= i < |domains| ==> domains[i].app != self
    ensures forall i :: 0 <= i < |extras| ==> extras[i] !in hosts && !HasHost(domains, extras[i])
    ensures forall i, j :: 0 <= i < j < |extras| ==> extras[i] != extras[j]
  {
    forall i | 0 <= i < |extras| ensures !HasHost(domains, extras[i]) {
      assert !OwnedElsewhere(domains, extras[i], self);
    }
  }

  lemma NoPortsApart(used: set<nat>)
    ensures RealRoutes([]) && RoutePorts([]) !! used
  {
  }

  lemma ReplacedUsed(apps: map<nat, App>, domains: seq<Domain>, wpPort: nat, app: nat, hosts: seq<string>)
    ensures Used(apps, Replaced(domains, app, hosts, []), wpPort) <= Used(apps, domains, wpPort)
  {
    OthersLaw(domains, app, app);
    OwnLaw(Others(domains, app), app, hosts, app);
    assert Replaced(domains, app, hosts, []) == Others(domains, app) + OwnRows(app, hosts);
  }

  lemma AttachedApart(apps: map<nat, App>, domains: seq<Domain>, base: seq<Domain>, wpPort: nat, app: nat,
                      routes: seq<Route>)
    requires PortsApart(apps, domains, wpPort) && RealRoutes(routes)
    requires DomainPorts(base) == DomainPorts(domains) && (DomainsApart(base) <==> DomainsApart(domains))
    ensures PortsApart(apps, base + RouteRows(app, routes), wpPort)
            <==> RoutePorts(routes) !! Used(apps, domains, wpPort)
  {
    hide AppPorts, AppsApart, RouteRows;
    RoutesApart(base, app, routes);
  }

  lemma ZeroUnused(apps: map<nat, App>, domains: seq<Domain>, wpPort: nat)
    ensures 0 !in Used(apps, domains, wpPort)
  {
    ZeroNotRecorded(domains);
  }

  lemma AddedApart(apps: map<nat, App>, domains: seq<Domain>, wpPort: nat, d: Domain)
    requires PortsApart(apps, domains, wpPort) && d.port !in Used(apps, domains, wpPort)
    ensures PortsApart(apps, domains + [d], wpPort)
  {
    Snoc(domains, d, d.app);
  }

  lemma TurnedApart(apps: map<nat, App>, domains: seq<Domain>, wpPort: nat, d: Domain)
    requires PortsApart(apps, domains, wpPort) && d.port !in Used(apps, domains, wpPort)
    requires !OwnedElsewhere(domains, d.host, d.app)
    ensures PortsApart(apps, Turned(domains, d), wpPort)
  {
    hide AppPorts, AppsApart, DomainPorts, DomainsApart, OwnedElsewhere, Turned;
    TurnedLaw(domains, d, d.app);
  }

  // ---- the service ----

  function Zip(hosts: seq<string>, ports: seq<nat>): seq<Route>
    requires |hosts| == |ports|
  {
    seq(|hosts|, i requires 0 <= i < |hosts| => Route(hosts[i], ports[i]))
  }

  lemma ZipLaw(hosts: seq<string>, ports: seq<nat>)
    requires |hosts| == |ports|
    ensures PortsOf(Zip(hosts, ports)) == ports
    ensures RoutePorts(Zip(hosts, ports)) == set p | p in ports
    ensures Fresh(ports, {}) ==> RealRoutes(Zip(hosts, ports))
  {
    var z := Zip(hosts, ports);
    PortsOfAre(z);
    forall p ensures p in RoutePorts(z) <==> p in ports {
      if p in ports {
        var i :| 0 <= i < |ports| && ports[i] == p;
        assert z[i].port == p;
      }
    }
  }

  /** Ports no recorded one clashes with: real, distinct, and none of `taken`. */
  ghost predicate Fresh(ports: seq<nat>, taken: set<nat>) {
    && (forall i :: 0 <= i < |ports| ==> ports[i] > 0 && ports[i] !in taken)
    && (forall i, j :: 0 <= i < j < |ports| ==> ports[i] != ports[j])
  }

  /** A port a user may choose. */
  predicate Usable(port: nat, used: set<nat>, free: nat -> bool) {
    1024 <= port <= 65535 && port !in used && free(port)
  }

  /** The `n` ports a new app gets: the one the user chose, if any, then the smallest free ones clear of
      what is recorded and of `avoid`. */
  ghost predicate Chosen(ports: seq<nat>, n: nat, want: nat, used: set<nat>, avoid: set<nat>, free: nat -> bool) {
    if want == 0 then Smallest(ports, n, used + avoid, free) && |ports| == n > 0
    else |ports| == n > 0 && ports[0] == want && Usable(want, used, free) && want !in avoid
         && Smallest(ports[1..], n - 1, used + avoid + {want}, free)
  }

  ghost predicate Choosable(n: nat, want: nat, used: set<nat>, avoid: set<nat>, free: nat -> bool) {
    exists ports :: Chosen(ports, n, want, used, avoid, free)
  }

  lemma CanChoose(ports: seq<nat>, n: nat, want: nat, used: set<nat>, avoid: set<nat>, free: nat -> bool)
    requires Chosen(ports, n, want, used, avoid, free)
    ensures Choosable(n, want, used, avoid, free)
  {
  }

  lemma OneChosen(a: seq<nat>, b: seq<nat>, n: nat, want: nat, used: set<nat>, avoid: set<nat>, free: nat -> bool)
    requires Chosen(a, n, want, used, avoid, free) && Chosen(b, n, want, used, avoid, free)
    ensures a == b
  {
    hide Smallest, Usable;
    if want == 0 {
      OneSmallest(a, b, n, used + avoid, free);
    } else {
      OneSmallest(a[1..], b[1..], n - 1, used + avoid + {want}, free);
      assert a == [a[0]] + a[1..] && b == [b[0]] + b[1..];
    }
  }

  lemma NotUsable(n: nat, want: nat, used: set<nat>, avoid: set<nat>, free: nat -> bool)
    requires want != 0 && (!Usable(want, used, free) || want in avoid)
    ensures !Choosable(n, want, used, avoid, free)
  {
    hide Usable, Smallest;
  }

  /** Fewer than `n` acceptable ports are left. */
  ghost predicate TooFew(n: nat, taken: set<nat>, free: nat -> bool) {
    exists few :: |few| < n && Smallest(few, n, taken, free)
  }

  lemma NotTooFew(ports: seq<nat>, n: nat, taken: set<nat>, free: nat -> bool)
    requires Smallest(ports, n, taken, free) && |ports| == n
    ensures !TooFew(n, taken, free)
  {
    hide Smallest;
    if few :| |few| < n && Smallest(few, n, taken, free) {
      OneSmallest(few, ports, n, taken, free);
      assert false;
    }
  }

  /** With too few ports for `n`, there is nothing to choose. */
  lemma NoneChosen(n: nat, want: nat, used: set<nat>, avoid: set<nat>, free: nat -> bool)
    requires n > 0
    requires if want == 0 then TooFew(n, used + avoid, free) else TooFew(n - 1, used + avoid + {want}, free)
    ensures !Choosable(n, want, used, avoid, free)
  {
    hide Smallest, Usable;
    if ports :| Chosen(ports, n, want, used, avoid, free) {
      if want == 0 {
        var few :| |few| < n && Smallest(few, n, used + avoid, free);
        OneSmallest(few, ports, n, used + avoid, free);
      } else {
        var few :| |few| < n - 1 && Smallest(few, n - 1, used + avoid + {want}, free);
        OneSmallest(few, ports[1..], n - 1, used + avoid + {want}, free);
      }
      assert false;
    }
  }

  /** The port a start goes by: the app's own, or the smallest free one for an app that has none. It
      stays 0 when the file cannot be read or no port is left. */
  ghost predicate Based(port: nat, base: nat, readable: bool, used: set<nat>, free: nat -> bool) {
    if port > 0 || !readable then base == port
    else Smallest(if base > 0 then [base] else [], 1, used, free)
  }

  /** A hard-coded port a start may take over. */
  predicate Unrecorded(port: nat, used: set<nat>) {
    0 < port <= 65535 && port !in used
  }

  /** The first port a compose file hard-codes. */
  function FirstFixedPort(file: seq<CP.ComposePort>): (r: Option<nat>)
    ensures r == None <==> forall i :: 0 <= i < |file| ==> file[i].slot != 0
    ensures r.Some? ==> exists i :: 0 <= i < |file| && file[i] == CP.ComposePort(r.value, 0, file[i].service)
                                    && forall j :: 0 <= j < i ==> file[j].slot != 0
  {
    if file == [] then None
    else if file[0].slot == 0 then Some(file[0].port)
    else
      var rest := file[1..];
      assert forall i :: 0 <= i < |rest| ==> rest[i] == file[i + 1];
      FirstFixedPort(rest)
  }

  lemma {:induction false} FirstFixedAt(file: seq<CP.ComposePort>, i: nat)
    requires i < |file| && file[i].slot == 0 && forall j :: 0 <= j < i ==> file[j].slot != 0
    ensures FirstFixedPort(file) == Some(file[i].port)
  {
    if i > 0 {
      FirstFixedAt(file[1..], i - 1);
    }
  }

  /** The file hard-codes a single-domain app's port, at another number than the app's. */
  predicate FollowsFile(file: seq<CP.ComposePort>, port: nat, slots: nat) {
    slots == 1 && !CP.HasSlot(file, 1) && !CP.HasPort(file, port) && FirstFixedPort(file).Some?
  }

  /** When the file is followed, its port is nobody else's. */
  predicate MayFollow(file: seq<CP.ComposePort>, port: nat, slots: nat, used: set<nat>) {
    FollowsFile(file, port, slots) ==> Unrecorded(FirstFixedPort(file).value, used)
  }

  /** The port of an app on `port` after a start that finds `file`. */
  function Followed(file: seq<CP.ComposePort>, port: nat, slots: nat, used: set<nat>): nat {
    if FollowsFile(file, port, slots) && Unrecorded(FirstFixedPort(file).value, used)
    then FirstFixedPort(file).value
    else port
  }

  /** A start of a single-domain app on `port` finds a port to publish. */
  predicate Starts(file: seq<CP.ComposePort>, port: nat, used: set<nat>) {
    CP.HasSlot(file, 1) || CP.HasPort(file, port)
    || (FirstFixedPort(file).Some? && Unrecorded(FirstFixedPort(file).value, used))
  }

  /** Whether a stack's file has a port for every slot: its variable, or that very number. */
  predicate EverySlotPublished(file: seq<CP.ComposePort>, slots: seq<nat>) {
    forall i :: 0 <= i < |slots| ==> CP.HasSlot(file, i + 1) || CP.HasPort(file, slots[i])
  }

  /** What prepareCompose asks of a single-domain app's file comes to this: the first slot or the app's
      port is published, or there is a hard-coded port to take over. `used` are the ports of others. */
  lemma StartsIff(file: seq<CP.ComposePort>, port: nat, used: set<nat>, now: nat)
    requires now == Followed(file, port, 1, used + {port})
    ensures Starts(file, port, used)
            <==> MayFollow(file, port, 1, used + {port}) && EverySlotPublished(file, [now])
    ensures FollowsFile(file, port, 1)
            ==> FirstFixedPort(file).value != port && CP.HasPort(file, FirstFixedPort(file).value)
    ensures Starts(file, port, used) ==> now == if FollowsFile(file, port, 1) then FirstFixedPort(file).value else port
  {
    hide FirstFixedPort;
    var slots := [now];
    assert EverySlotPublished(file, slots) <==> CP.HasSlot(file, 1) || CP.HasPort(file, now) by {
      assert slots[0] == now;
    }
  }

  /** The hard-coded ports that a new stack's own must stay clear of. */
  function Avoided(starter: bool, file: seq<CP.ComposePort>): set<nat> {
    if starter then {} else FixedPorts(file)
  }

  /** What layoutCompose asks of the extra names and of the file. */
  ghost predicate CanLay(domains: seq<Domain>, used: set<nat>, hosts: seq<string>, extras: seq<string>, self: nat,
                         starter: bool, file: seq<CP.ComposePort>) {
    && ExtrasFit(domains, extras, hosts, self)
    && if starter then extras == [] else CP.SlotsFit(file, |extras| + 1) && FixedPorts(file) !! used
  }

  function FixedPorts(file: seq<CP.ComposePort>): set<nat> {
    set i | 0 <= i < |file| && file[i].slot == 0 :: file[i].port
  }

  /** A new app that is no stack can be laid out: a port is only chosen for one that listens on one, and
      there are enough to choose from; the shared PHP gets one with the first site. */
  ghost predicate CanLayOut(kind: Kind, want: nat, runs: bool, second: bool, used: set<nat>, wpPort: nat,
                            free: nat -> bool) {
    && (want != 0 ==> kind == Container || (kind == HostProc && runs))
    && (kind == Container ==> Choosable(if second then 2 else 1, want, used, {}, free))
    && (kind == HostProc && runs ==> Choosable(1, want, used, {}, free))
    && (kind == SharedWP && wpPort == 0 ==> !TooFew(1, used, free))
  }

  /** An app's own port and its second UI's, 0 for none. */
  datatype Ports2 = Ports2(own: nat, second: nat)

  /** A new stack's extra ports clash with nothing recorded but, perhaps, the port its own row has now. */
  lemma NewPortsApart(apps: map<nat, App>, domains: seq<Domain>, wpPort: nat, id: nat, port: nat,
                      extras: seq<string>, ports: seq<nat>)
    requires id !in apps && |ports| == |extras| + 1 && Fresh(ports, Used(apps, domains, wpPort))
    ensures var mine := RoutePorts(Zip(extras, ports[1..]));
      && (mine !! Used(apps[id := App(Compose, port)], domains, wpPort) <==> port !in mine)
      && (port in mine <==> port in ports[1..])
      && (port == ports[0] ==> port !in mine)
  {
    ZipLaw(extras, ports[1..]);
    var mine := RoutePorts(Zip(extras, ports[1..]));
    assert forall p :: p in mine ==> p in ports[1..];
    forall p | p in ports[1..] ensures p > 0 && p !in Used(apps, domains, wpPort) && p != ports[0] {
      var i :| 0 <= i < |ports[1..]| && ports[1..][i] == p;
      assert ports[i + 1] == p;
    }
    UsedInserted(apps, domains, wpPort, id, App(Compose, port));
  }

  lemma UsedInserted(apps: map<nat, App>, domains: seq<Domain>, wpPort: nat, id: nat, a: App)
    requires id in apps ==> apps[id].port == 0
    ensures Used(apps[id := a], domains, wpPort) == Used(apps, domains, wpPort) + if a.port > 0 then {a.port} else {}
  {
    var more := apps[id := a];
    forall p ensures p in AppPorts(more) <==> p in AppPorts(apps) || (p == a.port && p > 0) {
      if p in AppPorts(apps) {
        var x :| x in apps && apps[x].port > 0 && apps[x].port == p;
        assert more[x].port == p;
      }
      assert more[id].port == a.port;
    }
  }

  /** A slot there before and after an edit has the port it had. */
  ghost predicate PortsKept(was: seq<Route>, now: seq<Route>) {
    forall i :: 0 <= i < |was| && i < |now| ==> now[i].port == was[i].port
  }

  /** An app's service domains with the first one under another name, none given leaves it. */
  function Renamed(routes: seq<Route>, host: string): (r: seq<Route>)
    ensures |r| == |routes| && forall i :: 0 <= i < |r| ==>
              r[i].port == routes[i].port && r[i].host == if i == 0 && host != "" then host else routes[i].host
  {
    if routes == [] || host == "" then routes else routes[0 := routes[0].(host := host)]
  }

  /** Rows can only be held when the first service domain is no other app's. */
  lemma FirstFree(domains: seq<Domain>, id: nat, hosts: seq<string>, routes: seq<Route>)
    requires routes != []
    ensures CanHold(domains, id, hosts, routes) ==> !OwnedElsewhere(domains, routes[0].host, id)
  {
    assert (Solid(hosts) + HostsOf(routes))[|Solid(hosts)|] == routes[0].host;
  }

  /** A port that Adminer can be put on: the smallest free one, with a block that goes into the file. */
  ghost predicate AdminerOn(port: nat, yaml: string, render: nat -> Option<string>, taken: set<nat>,
                            free: nat -> bool) {
    && Smallest([port], 1, taken, free)
    && render(port).Some?
    && Blocks.AddText(Blocks.RemoveText(yaml, ADMINER).rest, render(port).value).Some?
  }

  lemma OneAdminer(port: nat, yaml: string, render: nat -> Option<string>, taken: set<nat>, free: nat -> bool)
    requires Smallest([port], 1, taken, free)
    ensures forall other :: AdminerOn(other, yaml, render, taken, free) ==> other == port
  {
    hide Smallest, Blocks.AddText, Blocks.RemoveText;
    forall other | AdminerOn(other, yaml, render, taken, free) ensures other == port {
      OneSmallest([other], [port], 1, taken, free);
      assert [other][0] == [port][0];
    }
  }

  lemma NoAdminer(yaml: string, render: nat -> Option<string>, taken: set<nat>, free: nat -> bool)
    requires TooFew(1, taken, free)
    ensures forall port :: !AdminerOn(port, yaml, render, taken, free)
  {
    hide Smallest, Blocks.AddText, Blocks.RemoveText, TooFew;
    forall port ensures !AdminerOn(port, yaml, render, taken, free) {
      if AdminerOn(port, yaml, render, taken, free) {
        NotTooFew([port], 1, taken, free);
      }
    }
  }

  /** What an edit makes of a stack's service domains: the slots that stay keep their ports, the new ones
      get the smallest free ones. */
  ghost predicate Edited(routes: seq<Route>, was: seq<Route>, extras: seq<string>, taken: set<nat>, free: nat -> bool) {
    && |routes| == |extras|
    && (forall i :: 0 <= i < |extras| ==> routes[i].host == extras[i])
    && PortsKept(was, routes)
    && (|routes| > |was| ==> Smallest(PortsOf(routes[|was|..]), |routes| - |was|, taken, free))
  }

  ghost predicate Editable(was: seq<Route>, extras: seq<string>, taken: set<nat>, free: nat -> bool) {
    exists routes :: Edited(routes, was, extras, taken, free)
  }

  lemma NoneEdited(was: seq<Route>, extras: seq<string>, taken: set<nat>, free: nat -> bool)
    requires |extras| > |was| && TooFew(|extras| - |was|, taken, free)
    ensures !Editable(was, extras, taken, free)
  {
    hide Smallest, PortsOf;
    if routes :| Edited(routes, was, extras, taken, free) {
      var few :| |few| < |extras| - |was| && Smallest(few, |extras| - |was|, taken, free);
      OneSmallest(few, PortsOf(routes[|was|..]), |extras| - |was|, taken, free);
      PortsOfAre(routes[|was|..]);
      assert false;
    }
  }

  /** What was free settles the edit. */
  lemma OneEdited(a: seq<Route>, b: seq<Route>, was: seq<Route>, extras: seq<string>, taken: set<nat>,
                  free: nat -> bool)
    requires Edited(a, was, extras, taken, free) && Edited(b, was, extras, taken, free)
    ensures a == b
  {
    hide Smallest, PortsOf;
    if |extras| > |was| {
      var n := |was|;
      OneSmallest(PortsOf(a[n..]), PortsOf(b[n..]), |extras| - n, taken, free);
      PortsOfAre(a[n..]);
      PortsOfAre(b[n..]);
      forall i | n <= i < |a| ensures a[i].port == b[i].port {
        assert a[n..][i - n] == a[i] && b[n..][i - n] == b[i];
      }
    }
  }

  lemma PortsAre(routes: seq<Route>, ports: seq<nat>)
    requires |routes| == |ports| && forall i :: 0 <= i < |ports| ==> routes[i].port == ports[i]
    ensures PortsOf(routes) == ports
  {
    PortsOfAre(routes);
  }

  lemma BuiltEdit(out: seq<Route>, was: seq<Route>, extras: seq<string>, added: seq<nat>, taken: set<nat>,
                  free: nat -> bool)
    requires |out| == |extras|
    requires |extras| > |was| ==> |added| == |extras| - |was| && Smallest(added, |added|, taken, free)
    requires forall j :: 0 <= j < |extras| ==>
               out[j] == Route(extras[j], if j < |was| then was[j].port else added[j - |was|])
    ensures Edited(out, was, extras, taken, free) && Editable(was, extras, taken, free)
  {
    hide Smallest, PortsOf;
    if |extras| > |was| {
      PortsAre(out[|was|..], added);
    }
    assert Edited(out, was, extras, taken, free);
  }

  /** The compose file an edit brings: it publishes exactly the slots, and hard-codes no port of another
      app's. */
  ghost predicate FileFits(file: Option<seq<CP.ComposePort>>, routes: seq<Route>, port: nat, used: set<nat>) {
    file.Some? ==>
      && CP.SlotsFit(file.value, |routes| + 1)
      && forall p :: p in FixedPorts(file.value) && p in used ==> p == port || p in RoutePorts(routes)
  }

  /** Everything that an edit of a stack is checked for. */
  ghost predicate EditFits(routes: seq<Route>, domains: seq<Domain>, id: nat, hosts: seq<string>, extras: seq<string>,
                           file: Option<seq<CP.ComposePort>>, port: nat, used: set<nat>, free: nat -> bool) {
    && (forall i :: 0 <= i < |hosts| ==> !OwnedElsewhere(domains, hosts[i], id))
    && ExtrasFit(domains, extras, hosts, id)
    && Edited(routes, Routes(domains, id), extras, used + ({port} + RoutePorts(Routes(domains, id))), free)
    && FileFits(file, routes, port, used)
    && CanHold(domains, id, hosts, routes)
  }

  lemma NoFit(domains: seq<Domain>, id: nat, hosts: seq<string>, extras: seq<string>,
              file: Option<seq<CP.ComposePort>>, port: nat, used: set<nat>, free: nat -> bool)
    requires !Editable(Routes(domains, id), extras, used + ({port} + RoutePorts(Routes(domains, id))), free)
    ensures forall other :: !EditFits(other, domains, id, hosts, extras, file, port, used, free)
  {
    hide Edited, Routes, RoutePorts, FileFits, CanHold, ExtrasFit, OwnedElsewhere;
  }

  lemma OneFit(routes: seq<Route>, domains: seq<Domain>, id: nat, hosts: seq<string>, extras: seq<string>,
               file: Option<seq<CP.ComposePort>>, port: nat, used: set<nat>, free: nat -> bool)
    requires Edited(routes, Routes(domains, id), extras, used + ({port} + RoutePorts(Routes(domains, id))), free)
    ensures forall other :: EditFits(other, domains, id, hosts, extras, file, port, used, free) ==> other == routes
  {
    hide Edited, Routes, RoutePorts, FileFits, CanHold, ExtrasFit, OwnedElsewhere;
    forall other | EditFits(other, domains, id, hosts, extras, file, port, used, free) ensures other == routes {
      OneEdited(other, routes, Routes(domains, id), extras, used + ({port} + RoutePorts(Routes(domains, id))), free);
    }
  }

  lemma RoutesRealApart(apps: map<nat, App>, domains: seq<Domain>, wpPort: nat, id: nat)
    requires PortsApart(apps, domains, wpPort)
    ensures RealRoutes(Routes(domains, id))
            && RoutePorts(Routes(domains, id)) !! Used(apps, Others(domains, id), wpPort)
    ensures DomainsApart(domains)
  {
    RoutesAreReal(domains, id);
    OwnRoutesApart(apps, domains, wpPort, id);
  }

  lemma OthersUsed(apps: map<nat, App>, domains: seq<Domain>, wpPort: nat, id: nat)
    ensures Used(apps, Others(domains, id), wpPort) <= Used(apps, domains, wpPort)
  {
    OthersLaw(domains, id, id);
  }

  lemma RemovedApart(apps: map<nat, App>, domains: seq<Domain>, wpPort: nat, id: nat)
    requires PortsApart(apps, domains, wpPort)
    ensures PortsApart(apps - {id}, Others(domains, id), wpPort)
  {
    OthersLaw(domains, id, id);
    assert AppPorts(apps - {id}) <= AppPorts(apps);
  }

  /** An app's own routes clash with nothing else's. */
  lemma OwnRoutesApart(apps: map<nat, App>, domains: seq<Domain>, wpPort: nat, id: nat)
    requires PortsApart(apps, domains, wpPort)
    ensures RoutePorts(Routes(domains, id)) !! Used(apps, Others(domains, id), wpPort)
  {
    hide AppPorts, AppsApart;
    RoutesAreReal(domains, id);
    OthersLaw(domains, id, id);
  }

  /** Kept and added ports are apart, and nobody else's. */
  lemma EditedApart(apps: map<nat, App>, domains: seq<Domain>, wpPort: nat, id: nat, extras: seq<string>,
                    added: seq<nat>, out: seq<Route>)
    requires PortsApart(apps, domains, wpPort) && id in apps
    requires Fresh(added, Used(apps, domains, wpPort)) && |out| == |extras|
            && |added| >= |extras| - |Routes(domains, id)|
    requires forall j :: 0 <= j < |out| ==>
               out[j].port == if j < |Routes(domains, id)| then Routes(domains, id)[j].port
                              else added[j - |Routes(domains, id)|]
    ensures RealRoutes(out) && RoutePorts(out) !! Used(apps, Others(domains, id), wpPort)
  {
    hide Routes, AppPorts, AppsApart, DomainsApart, DomainPorts, Others, RealRoutes, RoutePorts;
    RoutesAreReal(domains, id);
    OwnRoutesApart(apps, domains, wpPort, id);
    OthersUsed(apps, domains, wpPort, id);
    MixedApart(Routes(domains, id), added, out, Used(apps, domains, wpPort), Used(apps, Others(domains, id), wpPort));
  }

  lemma MixedApart(existing: seq<Route>, added: seq<nat>, out: seq<Route>, used: set<nat>, others: set<nat>)
    requires RealRoutes(existing) && RoutePorts(existing) <= used && others <= used && RoutePorts(existing) !! others
    requires Fresh(added, used) && |added| >= |out| - |existing|
    requires forall j :: 0 <= j < |out| ==>
               out[j].port == if j < |existing| then existing[j].port else added[j - |existing|]
    ensures RealRoutes(out) && RoutePorts(out) !! others
  {
    forall j | 0 <= j < |existing| ensures existing[j].port in used && existing[j].port !in others {
      assert existing[j].port in RoutePorts(existing);
    }
  }

  class Service {
    var apps: map<nat, App>
    var domains: seq<Domain>
    var wpPort: nat
    var envs: map<nat, string>
    var nextApp: nat
    /** The comment a new env file starts with. */
    const header: seq<string>
    /** The compose apps whose last create, update or start succeeded. */
    ghost var settled: set<nat>

    ghost predicate Valid()
      reads this
    {
      && (forall i :: 0 <= i < |header| ==> Env.Plain(header[i]))
      && (forall id :: id in apps ==> id < nextApp)
      && (forall i :: 0 <= i < |domains| ==> domains[i].app in apps)
      && HostsDistinct(domains) && NoBlankName(domains)
      && Settled(apps, domains, envs, settled)
    }

    /** No two of all recorded ports are the same. */
    ghost predicate Apart()
      reads `apps, `domains, `wpPort
    {
      PortsApart(apps, domains, wpPort)
    }

    constructor (header: seq<string>)
      requires forall i :: 0 <= i < |header| ==> Env.Plain(header[i])
      ensures Valid() && Apart() && apps == map[] && domains == [] && wpPort == 0
    {
      this.header := header;
      apps, domains, wpPort, envs, nextApp, settled := map[], [], 0, map[], 1, {};
    }

    // -- ports --

    /** allocPorts. */
    method AllocPorts(n: nat, avoid: set<nat>, free: nat -> bool) returns (r: Result<seq<nat>, string>)
      ensures r.Ok? ==> |r.value| == n && Smallest(r.value, n, Used(apps, domains, wpPort) + avoid, free)
                        && Fresh(r.value, Used(apps, domains, wpPort) + avoid)
                        && Fresh(r.value, Used(apps, domains, wpPort))
      ensures r.Err? <==> TooFew(n, Used(apps, domains, wpPort) + avoid, free)
    {
      var ports := PickPorts(n, Used(apps, domains, wpPort) + avoid, free);
      if |ports| < n {
        return Err("no free host port available in range");
      }
      NotTooFew(ports, n, Used(apps, domains, wpPort) + avoid, free);
      return Ok(ports);
    }

    /** portTaken. */
    method PortTaken(port: nat, own: set<nat>) returns (taken: bool)
      ensures taken <==> port == 0 || port > 65535 || (port in Used(apps, domains, wpPort) && port !in own)
    {
      if port == 0 || port > 65535 {
        return true;
      }
      taken := port !in own && port in Used(apps, domains, wpPort);
    }

    /** checkChosenPort. */
    method CheckChosenPort(p: nat, free: nat -> bool) returns (ok: bool)
      ensures ok <==> Usable(p, Used(apps, domains, wpPort), free)
      ensures ok <==> 1024 <= p <= 65535 && p !in Used(apps, domains, wpPort) && free(p)
    {
      if p < 1024 || p > 65535 {
        return false;
      }
      var taken := PortTaken(p, {});
      ok := !taken && free(p);
    }

    /** appPorts: the port the user chose, if any, and the smallest free ones around it. */
    method ChoosePorts(n: nat, want: nat, avoid: set<nat>, free: nat -> bool) returns (r: Result<seq<nat>, string>)
      requires n > 0
      ensures r.Ok? ==> Chosen(r.value, n, want, Used(apps, domains, wpPort), avoid, free)
      ensures r.Ok? ==> |r.value| == n && Fresh(r.value, Used(apps, domains, wpPort) + avoid)
      ensures r.Err? ==> !Choosable(n, want, Used(apps, domains, wpPort), avoid, free)
    {
      hide Used, Smallest, TooFew, Choosable;
      var used := Used(apps, domains, wpPort);
      if want == 0 {
        r := AllocPorts(n, avoid, free);
        if r.Err? {
          NoneChosen(n, want, used, avoid, free);
        }
        return;
      }
      var ok := CheckChosenPort(want, free);
      if !ok {
        NotUsable(n, want, used, avoid, free);
        return Err("port is not usable or taken");
      }
      if want in avoid {
        NotUsable(n, want, used, avoid, free);
        return Err("port is already published elsewhere in this app");
      }
      var rest := AllocPorts(n - 1, avoid + {want}, free);
      assert used + (avoid + {want}) == used + avoid + {want};
      if rest.Err? {
        NoneChosen(n, want, used, avoid, free);
        return rest;
      }
      assert ([want] + rest.value)[1..] == rest.value;
      return Ok([want] + rest.value);
    }

    /** The port part of ensureWPHost. */
    method EnsureWPHost(free: nat -> bool) returns (ok: bool)
      requires Valid()
      modifies this`wpPort
      ensures Valid() && (old(Apart()) ==> Apart())
      ensures ok <==> old(wpPort) > 0 || !TooFew(1, Used(apps, domains, old(wpPort)), free)
      ensures old(wpPort) > 0 || !ok ==> wpPort == old(wpPort)
      ensures old(wpPort) == 0 && ok ==> wpPort > 0 && Smallest([wpPort], 1, Used(apps, domains, 0), free)
    {
      hide HostsDistinct, NoBlankName, Smallest, TooFew;
      if wpPort == 0 {
        var r := AllocPorts(1, {}, free);
        assert Used(apps, domains, wpPort) + {} == Used(apps, domains, wpPort);
        if r.Err? {
          return false;
        }
        assert r.value == [r.value[0]];
        wpPort := r.value[0];
      }
      return true;
    }

    // -- env files --

    /** ensureComposeEnv on an app's stack. */
    method WriteEnv(id: nat, ports: seq<nat>)
      requires ports != [] && forall i :: 0 <= i < |header| ==> Env.Plain(header[i])
      modifies this`envs
      ensures id in envs && envs == old(envs)[id := envs[id]] && Env.Agrees(envs[id], ports)
      ensures id in old(envs) ==> envs[id] == Env.Rewritten(old(envs)[id], ports)
    {
      hide Env.Agrees, Env.Rewritten, Env.Managed, Env.Render, Unlines;
      var existing := if id in envs then Some(envs[id]) else None;
      var written := Env.EnsureComposeEnv(existing, header, ports);
      if id in envs {
        Env.RewrittenAgrees(envs[id], ports);
      } else {
        Env.FreshAgrees(ports, header);
      }
      envs := envs[id := written];
    }

    /** firstFixedPort. */
    static method FirstFixed(file: seq<CP.ComposePort>) returns (port: Option<nat>)
      ensures port == FirstFixedPort(file)
      ensures port == None <==> forall i :: 0 <= i < |file| ==> file[i].slot != 0
      ensures port.Some? ==> exists i :: 0 <= i < |file| && file[i].slot == 0 && file[i].port == port.value
                                         && forall j :: 0 <= j < i ==> file[j].slot != 0
    {
      for i := 0 to |file|
        invariant forall j :: 0 <= j < i ==> file[j].slot != 0
      {
        if file[i].slot == 0 {
          FirstFixedAt(file, i);
          return Some(file[i].port);
        }
      }
      return None;
    }

    /** The slots the file has no port for. */
    static method FirstUnpublished(file: seq<CP.ComposePort>, slots: seq<nat>) returns (wrong: Option<nat>)
      ensures wrong == None <==> EverySlotPublished(file, slots)
    {
      for i := 0 to |slots|
        invariant forall j :: 0 <= j < i ==> CP.HasSlot(file, j + 1) || CP.HasPort(file, slots[j])
      {
        if CP.HasSlot(file, i + 1) || CP.HasPort(file, slots[i]) {
          continue;
        }
        return Some(i + 1);
      }
      return None;
    }

    /** The part of prepareCompose that may give the app another port: one when it has none, and the
        file's own when that is hard-coded and nobody else's. `base` is the port between the two. */
    method Refresh(id: nat, file: Result<seq<CP.ComposePort>, string>, free: nat -> bool)
      returns (ok: bool, ghost base: nat)
      requires Valid() && id in apps && apps[id].kind == Compose && id !in settled
      modifies this`apps
      ensures Valid() && (old(Apart()) ==> Apart())
      ensures apps.Keys == old(apps).Keys && apps == old(apps)[id := App(Compose, apps[id].port)]
      ensures file.Err? ==> !ok && apps == old(apps)
      ensures Based(old(apps)[id].port, base, file.Ok?, Used(old(apps), domains, wpPort), free)
      ensures file.Ok? ==> var used, n := Used(old(apps), domains, wpPort), |SlotsOf(old(apps), domains, id)|;
                           && apps[id].port == (if base == 0 then 0 else Followed(file.value, base, n, used))
                           && (ok <==> base > 0 && MayFollow(file.value, base, n, used))
    {
      hide Valid, Apart, Used, Smallest, Routes, PortsOf, FirstFixedPort;
      base := apps[id].port;
      if file.Err? {
        return false, base;
      }
      if apps[id].port == 0 {
        var r := AllocPorts(1, {}, free);
        assert Used(apps, domains, wpPort) + {} == Used(apps, domains, wpPort);
        if r.Err? {
          return false, base;
        }
        SetPort(id, r.value[0]);
        base := r.value[0];
        assert r.value == [base];
        UsedInserted(old(apps), domains, wpPort, id, App(Compose, base));
        assert apps == old(apps)[id := App(Compose, base)];
      }
      var port := apps[id].port;
      if |SlotsOf(apps, domains, id)| == 1 && !CP.HasSlot(file.value, 1) && !CP.HasPort(file.value, port) {
        var moved := FirstFixed(file.value);
        if moved.Some? {
          assert CP.HasPort(file.value, moved.value);
          var taken := PortTaken(moved.value, {});
          assert taken <==> !Unrecorded(moved.value, Used(old(apps), domains, wpPort));
          if taken {
            return false, base;
          }
          SetPort(id, moved.value);
        }
      }
      return true, base;
    }

    /** SetAppPort. */
    method SetPort(id: nat, port: nat)
      requires Valid() && id in apps && id !in settled && port > 0 && port !in Used(apps, domains, wpPort)
      modifies this`apps
      ensures Valid() && (old(Apart()) ==> Apart())
      ensures apps == old(apps)[id := App(old(apps)[id].kind, port)]
    {
      if PortsApart(apps, domains, wpPort) {
        SetAppApart(apps, domains, wpPort, id, apps[id].(port := port));
      }
      SettledStays(apps, domains, envs, apps[id := apps[id].(port := port)], domains, envs, settled);
      apps := apps[id := apps[id].(port := port)];
    }

    /** prepareCompose: what every start of a bring-your-own stack does first. `file` is what the compose
        file publishes now, or why it cannot be read. */
    method PrepareCompose(id: nat, file: Result<seq<CP.ComposePort>, string>, envOk: bool, free: nat -> bool)
      returns (ok: bool, ghost base: nat)
      requires Valid() && id in apps && apps[id].kind == Compose
      modifies this`apps, this`envs, this`settled
      ensures Valid() && (old(Apart()) ==> Apart())
      ensures apps.Keys == old(apps).Keys && apps == old(apps)[id := App(Compose, apps[id].port)]
      ensures forall b :: b != id ==> (b in envs <==> b in old(envs)) && (b in envs ==> envs[b] == old(envs)[b])
      ensures ok ==> settled == old(settled) + {id} && file.Ok?
                     && EverySlotPublished(file.value, SlotsOf(apps, domains, id))
      ensures ok ==> id in envs && Env.Agrees(envs[id], SlotsOf(apps, domains, id))
      ensures ok && id in old(envs) ==> envs[id] == Env.Rewritten(old(envs)[id], SlotsOf(apps, domains, id))
      ensures file.Err? ==> !ok && apps == old(apps)
      ensures Based(old(apps)[id].port, base, file.Ok?, Used(old(apps), domains, wpPort), free)
      ensures file.Ok? ==> var used, n := Used(old(apps), domains, wpPort), |SlotsOf(old(apps), domains, id)|;
                           && apps[id].port == (if base == 0 then 0 else Followed(file.value, base, n, used))
                           && (ok <==> base > 0 && MayFollow(file.value, base, n, used)
                                       && EverySlotPublished(file.value, SlotsOf(apps, domains, id)) && envOk)
      ensures !ok ==> settled == old(settled) - {id} && envs == old(envs)
    {
      hide Env.Agrees, Env.Rewritten, Apart, Used, Routes, PortsOf, Env.Plain, FollowsFile, Based, Followed,
           FirstFixedPort, Unrecorded;
      settled := settled - {id};
      var refreshed;
      refreshed, base := Refresh(id, file, free);
      if !refreshed {
        return false, base;
      }
      var slots := SlotsOf(apps, domains, id);
      var wrong := FirstUnpublished(file.value, slots);
      if wrong.Some? || !envOk {
        return false, base;
      }
      ghost var before := envs;
      WriteEnv(id, slots);
      SettledStays(apps, domains, before, apps, domains, envs, settled);
      settled := settled + {id};
      return true, base;
    }

    // -- domains --

    /** ReplaceAppDomains: all or nothing, refused when a hostname would be there twice. */
    method ReplaceAppDomains(id: nat, hosts: seq<string>, routes: seq<Route>) returns (ok: bool)
      requires Valid() && id in apps && id !in settled
      requires forall i :: 0 <= i < |routes| ==> routes[i].port > 0
      modifies this`domains
      ensures Valid()
      ensures ok <==> CanHold(old(domains), id, hosts, routes)
      ensures domains == if ok then Replaced(old(domains), id, hosts, routes) else old(domains)
      ensures ok ==> Routes(domains, id) == routes && Holds(domains, id, hosts)
      ensures forall b :: b != id ==> Routes(domains, b) == Routes(old(domains), b)
                                      && OwnHosts(domains, b) == OwnHosts(old(domains), b)
      ensures old(Apart()) && RealRoutes(routes) && RoutePorts(routes) !! Used(apps, Others(old(domains), id), wpPort)
              ==> Apart()
    {
      hide Replaced, Routes, OwnHosts, Env.Agrees, Env.Plain, PortsApart, Used, RealRoutes, RoutePorts, HostsDistinct,
           NoBlankName, Holds, CanHold;
      var rows := Replaced(domains, id, hosts, routes);
      ReplacedDistinct(domains, id, hosts, routes);
      ok := HostsDistinct(rows);
      if ok {
        forall b: nat ensures Routes(rows, b) == if b == id then routes else Routes(domains, b) {
          ReplacedRoutes(domains, id, hosts, routes, b);
        }
        forall b: nat ensures b != id ==> OwnHosts(rows, b) == OwnHosts(domains, b) {
          ReplacedNames(domains, id, hosts, routes, b);
        }
        ReplacedNames(domains, id, hosts, routes, id);
        ReplacedSolid(domains, id, hosts, routes);
        if Apart() && RealRoutes(routes) && RoutePorts(routes) !! Used(apps, Others(domains, id), wpPort) {
          ReplacedApart(apps, domains, wpPort, id, hosts, routes);
        }
        SettledStays(apps, domains, envs, apps, rows, envs, settled);
        ReplacedApps(domains, id, hosts, routes);
        domains := rows;
      }
    }

    /** CreateDomain, for a name no other app answers on: a row for a new name, the row of one that is
        the app's own turned to the port. */
    method CreateDomain(id: nat, host: string, port: nat)
      requires Valid() && id in apps && id !in settled && !OwnedElsewhere(domains, host, id)
      requires port > 0 || host != ""
      modifies this`domains
      ensures Valid() && domains == Upserted(old(domains), Domain(id, host, port))
      ensures forall d :: d in domains <==> d == Domain(id, host, port) || (d in old(domains) && d.host != host)
      ensures port > 0 ==> OwnHosts(domains, id) == Without(OwnHosts(old(domains), id), host)
      ensures !HasHost(old(domains), host) ==>
                Routes(domains, id) == Routes(old(domains), id) + (if port > 0 then [Route(host, port)] else [])
      ensures Routes(old(domains), id) == [] ==> Routes(domains, id) == if port > 0 then [Route(host, port)] else []
      ensures forall b :: b != id ==> Routes(domains, b) == Routes(old(domains), b)
                                      && OwnHosts(domains, b) == OwnHosts(old(domains), b)
      ensures old(Apart()) && port !in Used(apps, old(domains), wpPort) ==> Apart()
    {
      hide Routes, OwnHosts, Without, Env.Agrees, Env.Plain, PortsApart, Used, HasHost, OwnedElsewhere, Settled,
           HostsDistinct, Turned;
      var d := Domain(id, host, port);
      ghost var before := domains;
      UpsertedRows(domains, d);
      UpsertedNames(domains, d, id);
      forall b: nat ensures b != id ==> OwnHosts(Upserted(domains, d), b) == OwnHosts(domains, b) {
        UpsertedNames(domains, d, b);
      }
      if HasHost(domains, host) {
        forall b: nat ensures b != id ==> Routes(Turned(domains, d), b) == Routes(domains, b) {
          TurnedLaw(domains, d, b);
        }
        TurnedLaw(domains, d, id);
        if Apart() && port !in Used(apps, domains, wpPort) {
          TurnedApart(apps, domains, wpPort, d);
        }
        domains := Turned(domains, d);
      } else {
        forall b: nat
          ensures Routes(domains + [d], b)
                  == if b == id && port > 0 then Routes(domains, b) + [Route(host, port)] else Routes(domains, b)
        {
          Snoc(domains, d, b);
        }
        assert Routes(domains, id) + [] == Routes(domains, id);
        assert [] + [Route(host, port)] == [Route(host, port)];
        if Apart() && port !in Used(apps, domains, wpPort) {
          AddedApart(apps, domains, wpPort, d);
        }
        domains := domains + [d];
      }
      SettledStays(apps, before, envs, apps, domains, envs, settled);
    }

    /** Whether one of these names is somebody else's. */
    method AnyOwned(hosts: seq<string>, self: nat) returns (owned: bool)
      ensures owned <==> exists i :: 0 <= i < |hosts| && OwnedElsewhere(domains, hosts[i], self)
    {
      for i := 0 to |hosts|
        invariant forall j :: 0 <= j < i ==> !OwnedElsewhere(domains, hosts[j], self)
      {
        if OwnedElsewhere(domains, hosts[i], self) {
          return true;
        }
      }
      return false;
    }

    /** CreateApp's row. */
    method InsertApp(a: App) returns (id: nat)
      requires Valid()
      modifies this`apps, this`nextApp
      ensures Valid() && id == old(nextApp) && id !in old(apps) && apps == old(apps)[id := a] && id !in settled
      ensures old(Apart()) && a.port !in Used(old(apps), domains, wpPort) ==> Apart()
      ensures forall i :: 0 <= i < |domains| ==> domains[i].app != id
    {
      hide Env.Agrees, Env.Plain, Routes;
      id := nextApp;
      if Apart() && a.port !in Used(apps, domains, wpPort) {
        SetAppApart(apps, domains, wpPort, id, a);
      }
      SettledStays(apps, domains, envs, apps[id := a], domains, envs, settled);
      apps, nextApp := apps[id := a], nextApp + 1;
    }

    // -- the life of an app --

    /** An app that listens on a host port. */
    static predicate TakesPort(kind: Kind, runs: bool) {
      kind == Container || (kind == HostProc && runs)
    }

    /** The ports a new app is laid out with: its own, and its second UI's. */
    method Layout(kind: Kind, want: nat, runs: bool, second: bool, free: nat -> bool)
      returns (r: Result<Ports2, string>)
      requires Valid()
      modifies this`wpPort
      ensures Valid() && (old(Apart()) ==> Apart())
      ensures r.Ok? <==> CanLayOut(kind, want, runs, second, Used(apps, domains, old(wpPort)), old(wpPort), free)
      ensures r.Ok? && (kind == Container || (kind == HostProc && runs)) ==>
                Chosen([r.value.own] + (if kind == Container && second then [r.value.second] else []),
                       if kind == Container && second then 2 else 1, want, Used(apps, domains, old(wpPort)), {}, free)
      ensures r.Ok? ==> (r.value.own > 0 <==> kind == Container || (kind == HostProc && runs))
                        && (want != 0 ==> r.value.own == want)
                        && (r.value.second > 0 <==> kind == Container && second)
                        && r.value.own !in Used(apps, domains, wpPort) && r.value.second !in Used(apps, domains, wpPort)
                        && (r.value.second > 0 ==> r.value.own != r.value.second)
    {
      hide Env.Agrees, Env.Plain, PortsApart, Smallest, Settled, HostsDistinct, NoBlankName, TooFew, Choosable, Usable;
      var takes := TakesPort(kind, runs);
      var n := if kind == Container && second then 2 else 1;
      if want != 0 {
        if !takes {
          return Err("app has no port of its own to choose");
        }
        var ok := CheckChosenPort(want, free);
        if !ok {
          NotUsable(n, want, Used(apps, domains, wpPort), {}, free);
          return Err("port is not usable or taken");
        }
      }
      if kind == SharedWP {
        var ok := EnsureWPHost(free);
        if !ok {
          return Err("no free host port available in range");
        }
      }
      ZeroUnused(apps, domains, wpPort);
      if !takes {
        return Ok(Ports2(0, 0));
      }
      var ports := ChoosePorts(n, want, {}, free);
      if ports.Err? {
        return Err(ports.error);
      }
      CanChoose(ports.value, n, want, Used(apps, domains, wpPort), {}, free);
      assert ports.value == [ports.value[0]] + if n == 2 then [ports.value[1]] else [];
      return Ok(Ports2(ports.value[0], if n == 2 then ports.value[1] else 0));
    }

    /** Create, for every kind of app but a bring-your-own stack. `runs` tells a command-mode static app,
        `second` an app with a bundled second UI, and `secondHost` its name, "" for none. `laid` are the
        ports it was laid out with. */
    method CreateApp(kind: Kind, want: nat, runs: bool, second: bool, secondHost: string, hosts: seq<string>,
                     startOk: bool, free: nat -> bool) returns (r: Result<nat, string>, ghost laid: seq<nat>)
      requires Valid() && kind != Compose
      modifies this`apps, this`domains, this`wpPort, this`nextApp
      ensures Valid() && (old(Apart()) ==> Apart())
      ensures r.Ok? ==> r.value !in old(apps) && r.value in apps
                        && apps == old(apps)[r.value := App(kind, apps[r.value].port)]
      ensures r.Ok? <==>
                && (forall i :: 0 <= i < |hosts| ==> !OwnedElsewhere(old(domains), hosts[i], old(nextApp)))
                && CanLayOut(kind, want, runs, second, Used(old(apps), old(domains), old(wpPort)), old(wpPort), free)
                && !(kind == Container && second && secondHost != "" && HasHost(old(domains), secondHost))
                && startOk
      ensures r.Ok? ==>
                && (apps[r.value].port > 0 <==> kind == Container || (kind == HostProc && runs))
                && (want != 0 ==> apps[r.value].port == want)
      ensures r.Ok? && (kind == Container || (kind == HostProc && runs)) ==>
                && Chosen(laid, if kind == Container && second then 2 else 1, want,
                          Used(old(apps), old(domains), old(wpPort)), {}, free)
                && apps[r.value].port == laid[0]
                && (kind == Container && second && secondHost != "" ==>
                      Routes(domains, r.value) == [Route(secondHost, laid[1])])
      ensures r.Ok? && !(kind == Container && second && secondHost != "") ==> Routes(domains, r.value) == []
      ensures r.Ok? ==> OwnHosts(domains, r.value) == if kind == Container && second && secondHost != ""
                                                      then Without(Granted(hosts), secondHost)
                                                      else Granted(hosts)
      ensures r.Err? ==> domains == old(domains)
      ensures forall b :: b in old(apps)
               ==> b in apps && apps[b] == old(apps)[b] && Routes(domains, b) == Routes(old(domains), b)
                   && OwnHosts(domains, b) == OwnHosts(old(domains), b)
    {
      hide Routes, OwnHosts, Env.Agrees, Env.Plain, PortsApart, HasHost, OwnedElsewhere, Replaced, Settled, CanLayOut,
           Chosen, CanHold, HostsDistinct, NoBlankName, Distinct, Solid, Without, Used;
      laid := [];
      var owned := AnyOwned(hosts, nextApp);
      if owned {
        return Err("domain is already in use"), laid;
      }
      var layout := Layout(kind, want, runs, second, free);
      if layout.Err? {
        return Err(layout.error), laid;
      }
      var ports := layout.value;
      laid := [ports.own] + if kind == Container && second then [ports.second] else [];
      if ports.second > 0 && secondHost != "" && HasHost(domains, secondHost) {
        return Err("domain is already in use"), laid;
      }
      var id := InsertApp(App(kind, ports.own));
      if !startOk {
        return Err("the app did not start"), laid;
      }
      FreeHold(domains, id, hosts);
      UsedInserted(old(apps), domains, wpPort, id, App(kind, ports.own));
      AttachSecond(id, hosts, secondHost, ports.second);
      return Ok(id), laid;
    }

    /** The app's own names, if they can all be held. */
    method AttachHosts(id: nat, hosts: seq<string>)
      requires Valid() && id in apps && id !in settled
      requires forall i :: 0 <= i < |domains| ==> domains[i].app != id
      modifies this`domains
      ensures Valid() && Routes(domains, id) == []
      ensures if CanHold(old(domains), id, hosts, [])
              then domains == Replaced(old(domains), id, hosts, []) && Holds(domains, id, hosts)
              else domains == old(domains) && OwnHosts(domains, id) == []
      ensures forall b :: b != id ==> Routes(domains, b) == Routes(old(domains), b)
                                      && OwnHosts(domains, b) == OwnHosts(old(domains), b)
      ensures (old(Apart()) ==> Apart()) && Used(apps, domains, wpPort) <= Used(apps, old(domains), wpPort)
    {
      hide Routes, OwnHosts, Env.Agrees, Env.Plain, PortsApart, HasHost, Replaced, Settled, Used, CanHold, Holds,
           HostsDistinct;
      NoRoutesYet(domains, id);
      ReplacedUsed(apps, domains, wpPort, id, hosts);
      OthersUsed(apps, domains, wpPort, id);
      NoPortsApart(Used(apps, Others(domains, id), wpPort));
      var _ := ReplaceAppDomains(id, hosts, []);
    }

    /** The last step of Create for these kinds: the app's own names, then a row for its second UI, which
        takes one of those names over when it is the same. */
    method AttachSecond(id: nat, hosts: seq<string>, secondHost: string, port: nat)
      requires Valid() && id in apps && id !in settled
      requires forall i :: 0 <= i < |domains| ==> domains[i].app != id
      requires port > 0 && secondHost != "" ==> !HasHost(domains, secondHost)
      modifies this`domains
      ensures Valid()
      ensures Routes(domains, id) == if port > 0 && secondHost != "" then [Route(secondHost, port)] else []
      ensures var own := if CanHold(old(domains), id, hosts, []) then Solid(hosts) else [];
        OwnHosts(domains, id) == if port > 0 && secondHost != "" then Without(own, secondHost) else own
      ensures forall b :: b != id ==> Routes(domains, b) == Routes(old(domains), b)
                                      && OwnHosts(domains, b) == OwnHosts(old(domains), b)
      ensures old(Apart()) && port !in Used(apps, old(domains), wpPort) ==> Apart()
    {
      hide Routes, OwnHosts, Env.Agrees, Env.Plain, PortsApart, HasHost, Replaced, Settled, Used, OwnedElsewhere,
           CanHold, Solid, Without, HostsDistinct, Upserted;
      ghost var before := domains;
      AttachHosts(id, hosts);
      if port > 0 && secondHost != "" {
        FreeAfter(before, id, hosts, secondHost);
        CreateDomain(id, secondHost, port);
      }
    }

    /** The last step of Create: the app's own names, then a row for each service domain. */
    method Attach(id: nat, hosts: seq<string>, routes: seq<Route>)
      requires Valid() && id in apps && id !in settled
      requires forall i :: 0 <= i < |domains| ==> domains[i].app != id
      requires forall i :: 0 <= i < |routes|
                ==> routes[i].port > 0 && routes[i].host !in hosts && !HasHost(domains, routes[i].host)
      requires forall i, j :: 0 <= i < j < |routes| ==> routes[i].host != routes[j].host
      modifies this`domains
      ensures Valid()
      ensures Routes(domains, id) == routes
      ensures OwnHosts(domains, id) == if CanHold(old(domains), id, hosts, []) then Solid(hosts) else []
      ensures forall b :: b != id ==> Routes(domains, b) == Routes(old(domains), b)
                                      && OwnHosts(domains, b) == OwnHosts(old(domains), b)
      ensures old(Apart()) && RealRoutes(routes)
              ==> (Apart() <==> RoutePorts(routes) !! Used(apps, old(domains), wpPort))
    {
      hide Routes, OwnHosts, Env.Agrees, Env.Plain, PortsApart, HasHost, Replaced, Settled, Used, RealRoutes,
           RoutePorts, CanHold, Solid, Without, HostsDistinct, Upserted;
      NoRoutesYet(domains, id);
      ghost var before := domains;
      var _ := ReplaceAppDomains(id, hosts, []);
      ghost var base := domains;
      BaseSame(before, id, hosts);
      forall j | 0 <= j < |routes| ensures !HasHost(base, routes[j].host) {
        StillAbsent(before, id, hosts, routes[j].host);
      }
      for i := 0 to |routes|
        invariant Valid() && Routes(domains, id) == routes[..i]
        invariant domains == base + RouteRows(id, routes[..i])
        invariant OwnHosts(domains, id) == OwnHosts(base, id)
        invariant forall b :: b != id ==> Routes(domains, b) == Routes(old(domains), b)
                                          && OwnHosts(domains, b) == OwnHosts(old(domains), b)
        invariant forall j :: i <= j < |routes| ==> !HasHost(domains, routes[j].host)
      {
        ghost var row := Domain(id, routes[i].host, routes[i].port);
        forall j | i < j < |routes| ensures !HasHost(domains + [row], routes[j].host) {
          HasHostSnoc(domains, row, routes[j].host);
        }
        RouteRowsSnoc(base, id, routes, i);
        AbsentIsFree(domains, routes[i].host, id);
        AbsentIsNoName(domains, routes[i].host, id);
        CreateDomain(id, routes[i].host, routes[i].port);
      }
      assert routes[..|routes|] == routes;
      if PortsApart(apps, before, wpPort) && RealRoutes(routes) {
        AttachedApart(apps, before, base, wpPort, id, routes);
      }
    }

    // -- bring-your-own stacks --

    /** composeExtraHosts: the names for domains 2 to n, already in normal form. */
    method CheckExtras(extras: seq<string>, hosts: seq<string>, self: nat) returns (ok: bool)
      ensures ok <==> ExtrasFit(domains, extras, hosts, self)
    {
      if |extras| + 1 > CP.MAX_SLOTS {
        return false;
      }
      for i := 0 to |extras|
        invariant forall j :: 0 <= j < i
                   ==> extras[j] != "" && extras[j] !in hosts && !OwnedElsewhere(domains, extras[j], self)
        invariant forall j, k :: 0 <= j < k < i ==> extras[j] != extras[k]
      {
        if extras[i] == "" || extras[i] in hosts || OwnedElsewhere(domains, extras[i], self)
          || extras[i] in extras[..i] {
          return false;
        }
        assert forall j :: 0 <= j < i ==> extras[..i][j] == extras[j];
      }
      return true;
    }

    /** What layoutCompose checks of a supplied file, and the fixed ports it must stay clear of. */
    method CheckFile(file: seq<CP.ComposePort>, slots: nat) returns (r: Result<set<nat>, string>)
      requires CP.WellFormed(file)
      ensures r.Ok? ==>
                CP.SlotsFit(file, slots) && r.value == FixedPorts(file) && r.value !! Used(apps, domains, wpPort)
      ensures r.Err? ==> !CP.SlotsFit(file, slots) || !(FixedPorts(file) !! Used(apps, domains, wpPort))
    {
      var wrong := CP.CheckSlots(file, slots);
      if wrong.Some? {
        return Err("the file does not publish exactly its domains");
      }
      var avoid: set<nat> := {};
      for i := 0 to |file|
        invariant avoid == set j | 0 <= j < i && file[j].slot == 0 :: file[j].port
        invariant avoid !! Used(apps, domains, wpPort)
      {
        if file[i].slot > 0 {
          continue;
        }
        var taken := PortTaken(file[i].port, {});
        if taken {
          assert file[i].port in FixedPorts(file);
          return Err("host port is already used by another app");
        }
        avoid := avoid + {file[i].port};
      }
      return Ok(avoid);
    }

    /** layoutCompose: the ports a new stack gets, one per domain. */
    method LayoutCompose(want: nat, hosts: seq<string>, extras: seq<string>, starter: bool, file: seq<CP.ComposePort>,
                         free: nat -> bool) returns (r: Result<seq<nat>, string>)
      requires Valid() && CP.WellFormed(file)
      ensures r.Ok? ==> var used := Used(apps, domains, wpPort);
                        && CanLay(domains, used, hosts, extras, nextApp, starter, file)
                        && Chosen(r.value, |extras| + 1, want, used, Avoided(starter, file), free)
                        && |r.value| == |extras| + 1 && Fresh(r.value, used + Avoided(starter, file))
      ensures r.Err? ==> var used := Used(apps, domains, wpPort);
                         CanLay(domains, used, hosts, extras, nextApp, starter, file)
                         ==> !Choosable(|extras| + 1, want, used, Avoided(starter, file), free)
    {
      hide CP.WellFormed, CP.SlotsFit, Used, ExtrasFit, Smallest, Chosen, Choosable;
      var fit := CheckExtras(extras, hosts, nextApp);
      if !fit {
        return Err("the extra domains are not usable");
      }
      var avoid: set<nat> := {};
      if starter {
        if |extras| > 0 {
          return Err("the starter compose file publishes a single service");
        }
      } else {
        var checked := CheckFile(file, |extras| + 1);
        if checked.Err? {
          return Err(checked.error);
        }
        avoid := checked.value;
      }
      r := ChoosePorts(|extras| + 1, want, avoid, free);
    }

    /** The env file a new stack is laid out with, over what its folder may still hold, and what an
        imported archive puts in its place. */
    method LayoutEnv(id: nat, ports: seq<nat>, existing: Option<string>, imported: Option<string>)
      requires Valid() && id !in settled && ports != []
      modifies this`envs
      ensures Valid() && id in envs && envs == old(envs)[id := envs[id]]
      ensures imported.Some? ==> envs[id] == imported.value
      ensures imported == None ==> Env.Agrees(envs[id], ports)
    {
      hide Env.Agrees, Env.RestAgrees, Env.Plain, Routes, Settled;
      ghost var before := envs;
      PutEnv(id, ports, existing, imported);
      SettledStays(apps, domains, before, apps, domains, envs, settled);
    }

    /** The writes alone. */
    method PutEnv(id: nat, ports: seq<nat>, existing: Option<string>, imported: Option<string>)
      requires ports != [] && forall i :: 0 <= i < |header| ==> Env.Plain(header[i])
      modifies this`envs
      ensures id in envs && envs == old(envs)[id := envs[id]]
      ensures imported.Some? ==> envs[id] == imported.value
      ensures imported == None ==> Env.Agrees(envs[id], ports)
    {
      hide Env.Agrees, Env.Plain;
      envs := if existing.Some? then envs[id := existing.value] else envs - {id};
      WriteEnv(id, ports);
      if imported.Some? {
        envs := envs[id := imported.value];
      }
    }

    /** Create for a bring-your-own stack. `imported` is the env file an imported archive brought, if one
        did, and `atStart` what the compose file publishes when the stack is started. `laid` are the ports
        the stack was laid out with, none when it could not be. */
    method CreateCompose(want: nat, hosts: seq<string>, extras: seq<string>, starter: bool, file: seq<CP.ComposePort>,
                         existing: Option<string>, imported: Option<string>,
                         atStart: Result<seq<CP.ComposePort>, string>, envOk: bool, startOk: bool, free: nat -> bool)
      returns (r: Result<nat, string>, ghost laid: seq<nat>)
      requires Valid() && CP.WellFormed(file)
      modifies this`apps, this`domains, this`envs, this`nextApp, this`settled
      ensures Valid()
      ensures var used, avoid := Used(old(apps), old(domains), wpPort), Avoided(starter, file);
        && (laid != [] ==> Chosen(laid, |extras| + 1, want, used, avoid, free))
        && (laid != [] <==>
            && (forall i :: 0 <= i < |hosts| ==> !OwnedElsewhere(old(domains), hosts[i], old(nextApp)))
            && CanLay(old(domains), used, hosts, extras, old(nextApp), starter, file)
            && Choosable(|extras| + 1, want, used, avoid, free))
      ensures r.Ok? <==>
                && laid != [] && atStart.Ok?
                && Starts(atStart.value, laid[0], Used(old(apps), old(domains), wpPort))
                && envOk && startOk
      ensures r.Ok? ==> r.value !in old(apps) && r.value in apps && r.value in envs
                        && apps == old(apps)[r.value := App(Compose, apps[r.value].port)]
                        && apps[r.value].port == if FollowsFile(atStart.value, laid[0], 1)
                                                 then FirstFixedPort(atStart.value).value
                                                 else laid[0]
      ensures r.Ok? ==> |laid| == |extras| + 1 && Routes(domains, r.value) == Zip(extras, laid[1..])
      ensures r.Ok? ==> var now := Routes(domains, r.value);
                        |now| == |extras| && forall i :: 0 <= i < |now| ==> now[i] == Route(extras[i], laid[i + 1])
      ensures r.Ok? ==> OwnHosts(domains, r.value) == Granted(hosts)
      ensures r.Err? ==> domains == old(domains)
      ensures r.Ok? ==> (Env.Agrees(envs[r.value], SlotsOf(apps, domains, r.value))
                         <==> imported == None || Env.RestAgrees(imported.value, laid))
      ensures r.Ok? && (imported == None || Env.RestAgrees(imported.value, laid))
              ==> settled == old(settled) + {r.value}
      ensures r.Ok? && old(Apart()) ==>
                (Apart() <==>
                 (FollowsFile(atStart.value, laid[0], 1) ==> FirstFixedPort(atStart.value).value !in laid[1..]))
      ensures r.Err? ==> (old(Apart()) ==> Apart()) && settled == old(settled)
      ensures forall b :: b in old(apps)
               ==> b in apps && apps[b] == old(apps)[b] && Routes(domains, b) == Routes(old(domains), b)
                   && OwnHosts(domains, b) == OwnHosts(old(domains), b)
    {
      hide OwnHosts, CanHold, Solid, Distinct, HostsDistinct, NoBlankName;
      hide Routes, PortsOf, Env.Agrees, Env.RestAgrees, Env.Rewritten, Env.Plain, PortsApart, HasHost, OwnedElsewhere,
           Replaced, Settled, Used, RealRoutes, RoutePorts, CP.WellFormed, CP.SlotsFit, CP.HasSlot, CP.HasPort,
           Smallest, Usable, Chosen, Choosable, FirstFixedPort, Unrecorded, FollowsFile, Starts, ExtrasFit, Avoided;
      laid := [];
      var owned := AnyOwned(hosts, nextApp);
      if owned {
        return Err("domain is already in use"), laid;
      }
      if want != 0 {
        var ok := CheckChosenPort(want, free);
        if !ok {
          NotUsable(|extras| + 1, want, Used(apps, domains, wpPort), Avoided(starter, file), free);
          return Err("port is not usable or taken"), laid;
        }
      }
      var layout := LayoutCompose(want, hosts, extras, starter, file, free);
      if layout.Err? {
        return Err(layout.error), laid;
      }
      var ports := layout.value;
      laid := ports;
      CanChoose(laid, |extras| + 1, want, Used(apps, domains, wpPort), Avoided(starter, file), free);
      NewRowsFree(domains, extras, hosts, nextApp);
      var id, started, found := StartNew(ports, existing, imported, atStart, envOk, free);
      if !started || !startOk {
        return Err("the stack did not start"), laid;
      }
      if imported == None {
        RestOfAgreed(found, ports);
      }
      NewPortsApart(old(apps), domains, wpPort, id, apps[id].port, extras, ports);
      FreeHold(domains, id, hosts);
      Publish(id, hosts, extras, ports, found);
      return Ok(id), laid;
    }

    /** Create's middle: the env file, the row, and the first start, which knows of one slot only. `found`
        is the env file the start found. */
    method StartNew(ports: seq<nat>, existing: Option<string>, imported: Option<string>,
                    atStart: Result<seq<CP.ComposePort>, string>, envOk: bool, free: nat -> bool)
      returns (id: nat, started: bool, ghost found: string)
      requires Valid() && ports != [] && ports[0] > 0
      modifies this`apps, this`envs, this`nextApp, this`settled
      ensures Valid() && settled == old(settled)
      ensures id == old(nextApp) && id !in old(apps) && id in apps && id !in settled
      ensures apps == old(apps)[id := App(Compose, apps[id].port)]
      ensures forall i :: 0 <= i < |domains| ==> domains[i].app != id
      ensures if imported.Some? then found == imported.value else Env.Agrees(found, ports)
      ensures started <==> atStart.Ok? && Starts(atStart.value, ports[0], Used(old(apps), domains, wpPort)) && envOk
      ensures started ==> id in envs && envs[id] == Env.Rewritten(found, [apps[id].port])
      ensures started ==> apps[id].port == if FollowsFile(atStart.value, ports[0], 1)
                                           then FirstFixedPort(atStart.value).value
                                           else ports[0]
      ensures old(Apart()) && ports[0] !in Used(old(apps), domains, wpPort) ==> Apart()
    {
      hide Routes, PortsOf, Env.Agrees, Env.RestAgrees, Env.Rewritten, Env.Plain, PortsApart, Settled, Used, CP.HasSlot,
           CP.HasPort, EverySlotPublished, FollowsFile, Apart, FirstFixedPort, Followed, Starts, Unrecorded, Smallest;
      id, found := EnterNew(ports, existing, imported);
      ghost var base;
      started, base := PrepareCompose(id, atStart, envOk, free);
      NoPorts();
      assert base == ports[0] && SlotsOf(apps, domains, id) == [apps[id].port];
      if atStart.Ok? {
        StartsIff(atStart.value, ports[0], Used(old(apps), domains, wpPort), apps[id].port);
      }
      SettledLess(apps, domains, envs, settled, {id});
      settled := settled - {id};
    }

    /** The env file and the row of a new stack. */
    method EnterNew(ports: seq<nat>, existing: Option<string>, imported: Option<string>)
      returns (id: nat, ghost found: string)
      requires Valid() && ports != [] && ports[0] > 0
      modifies this`apps, this`envs, this`nextApp
      ensures Valid() && id == old(nextApp) && id !in old(apps) && id !in settled && id in envs && envs[id] == found
      ensures apps == old(apps)[id := App(Compose, ports[0])]
      ensures forall i :: 0 <= i < |domains| ==> domains[i].app != id
      ensures SlotsOf(apps, domains, id) == [ports[0]] && Routes(domains, id) == []
      ensures Used(apps, domains, wpPort) == Used(old(apps), domains, wpPort) + {ports[0]}
      ensures if imported.Some? then found == imported.value else Env.Agrees(found, ports)
      ensures old(Apart()) && ports[0] !in Used(old(apps), domains, wpPort) ==> Apart()
    {
      hide Routes, PortsOf, Env.Agrees, Env.Plain, PortsApart, Settled, Used;
      SettledLess(apps, domains, envs, settled, {});
      LayoutEnv(nextApp, ports, existing, imported);
      id := InsertApp(App(Compose, ports[0]));
      found := envs[id];
      NoRoutesYet(domains, id);
      NoPorts();
      UsedInserted(old(apps), domains, wpPort, id, App(Compose, ports[0]));
    }

    /** Create's end: the rows, which settle the stack when the file already agreed on them. */
    method Publish(id: nat, hosts: seq<string>, extras: seq<string>, ports: seq<nat>, ghost found: string)
      requires Valid() && id in apps && apps[id].kind == Compose && id !in settled
      requires |ports| == |extras| + 1 && Fresh(ports[1..], {})
      requires id in envs && envs[id] == Env.Rewritten(found, [apps[id].port])
      requires forall i :: 0 <= i < |domains| ==> domains[i].app != id
      requires forall i :: 0 <= i < |extras| ==> extras[i] !in hosts && !HasHost(domains, extras[i])
      requires forall i, j :: 0 <= i < j < |extras| ==> extras[i] != extras[j]
      modifies this`domains, this`settled
      ensures Valid()
      ensures Routes(domains, id) == Zip(extras, ports[1..])
      ensures OwnHosts(domains, id) == if CanHold(old(domains), id, hosts, []) then Solid(hosts) else []
      ensures Env.Agrees(envs[id], SlotsOf(apps, domains, id)) <==> Env.RestAgrees(found, SlotsOf(apps, domains, id))
      ensures Env.RestAgrees(found, SlotsOf(apps, domains, id)) <==> Env.RestAgrees(found, ports)
      ensures settled == if Env.Agrees(envs[id], SlotsOf(apps, domains, id)) then old(settled) + {id} else old(settled)
      ensures old(Apart()) ==> (Apart() <==> RoutePorts(Routes(domains, id)) !! Used(apps, old(domains), wpPort))
      ensures forall b :: b != id ==> Routes(domains, b) == Routes(old(domains), b)
                                      && OwnHosts(domains, b) == OwnHosts(old(domains), b)
    {
      hide OwnHosts, CanHold, Solid, HostsDistinct, NoBlankName;
      hide Routes, PortsOf, Env.Agrees, Env.RestAgrees, Env.Rewritten, Env.Plain, PortsApart, HasHost, Settled, Used,
           RealRoutes, RoutePorts;
      var routes := Zip(extras, ports[1..]);
      ZipLaw(extras, ports[1..]);
      Attach(id, hosts, routes);
      StartedAgreement(found, envs[id], apps[id].port, ports);
      if Env.Agrees(envs[id], SlotsOf(apps, domains, id)) {
        SettledMore(apps, domains, envs, settled, id);
        settled := settled + {id};
      }
    }

    // -- edits --

    /** editServiceDomains for a stack: the slots that stay keep their ports, new ones get fresh ones. */
    method EditRoutes(id: nat, extras: seq<string>, free: nat -> bool) returns (r: Result<seq<Route>, string>)
      requires Valid() && id in apps
      ensures var was := Routes(domains, id);
        var taken := Used(apps, domains, wpPort) + ({apps[id].port} + RoutePorts(was));
        && (r.Ok? <==> Editable(was, extras, taken, free))
        && (r.Ok? ==> Edited(r.value, was, extras, taken, free))
      ensures r.Ok? ==> |r.value| == |extras| && forall i :: 0 <= i < |extras| ==> r.value[i].port > 0
      ensures r.Ok? && Apart() ==> RealRoutes(r.value) && RoutePorts(r.value) !! Used(apps, Others(domains, id), wpPort)
    {
      hide Routes, Env.Agrees, Env.Plain, Settled, Used, Smallest, PortsApart, RoutePorts, HostsDistinct, NoBlankName,
           PortsOf, TooFew, Editable, Edited;
      var existing := Routes(domains, id);
      ghost var taken := Used(apps, domains, wpPort) + ({apps[id].port} + RoutePorts(existing));
      RoutesAreReal(domains, id);
      var added: seq<nat> := [];
      if |extras| > |existing| {
        var more := AllocPorts(|extras| - |existing|, {apps[id].port} + RoutePorts(existing), free);
        if more.Err? {
          NoneEdited(existing, extras, taken, free);
          return Err(more.error);
        }
        added := more.value;
      }
      var out: seq<Route> := [];
      for i := 0 to |extras|
        invariant |out| == i
        invariant forall j :: 0 <= j < i ==>
                    out[j] == Route(extras[j], if j < |existing| then existing[j].port else added[j - |existing|])
      {
        var port := if i < |existing| then existing[i].port else added[i - |existing|];
        out := out + [Route(extras[i], port)];
      }
      if Apart() {
        EditedApart(apps, domains, wpPort, id, extras, added, out);
      }
      BuiltEdit(out, existing, extras, added, taken, free);
      return Ok(out);
    }

    /** checkComposeEdit: the file has exactly the slots, and no fixed port of another app's. */
    method CheckEdit(file: seq<CP.ComposePort>, slots: nat, own: set<nat>) returns (ok: bool)
      requires CP.WellFormed(file)
      ensures ok <==> CP.SlotsFit(file, slots)
                      && forall p :: p in FixedPorts(file) && p in Used(apps, domains, wpPort) ==> p in own
    {
      var wrong := CP.CheckSlots(file, slots);
      if wrong.Some? {
        return false;
      }
      for i := 0 to |file|
        invariant forall j :: 0 <= j < i && file[j].slot == 0 && file[j].port in Used(apps, domains, wpPort)
                   ==> file[j].port in own
      {
        if file[i].slot > 0 {
          continue;
        }
        var taken := PortTaken(file[i].port, own);
        if taken {
          assert file[i].port in FixedPorts(file);
          return false;
        }
      }
      return true;
    }

    /** Update for a bring-your-own stack: everything is checked, then the rows and the env file are
        rewritten together. */
    method UpdateCompose(id: nat, hosts: seq<string>, extras: seq<string>, file: Option<seq<CP.ComposePort>>,
                         envOk: bool, free: nat -> bool) returns (ok: bool)
      requires Valid() && id in apps && apps[id].kind == Compose && (file.Some? ==> CP.WellFormed(file.value))
      modifies this`domains, this`envs, this`settled
      ensures Valid() && (old(Apart()) ==> Apart())
      ensures ok ==> settled == old(settled) + {id} && id in envs && Env.Agrees(envs[id], SlotsOf(apps, domains, id))
      ensures var used, port := Used(apps, old(domains), wpPort), apps[id].port;
        && (domains != old(domains) || ok ==>
              Holds(domains, id, hosts)
              && EditFits(Routes(domains, id), old(domains), id, hosts, extras, file, port, used, free))
        && (ok <==> envOk && exists routes :: EditFits(routes, old(domains), id, hosts, extras, file, port, used, free))
      ensures !ok && envOk ==> domains == old(domains)
      ensures !ok ==> old(settled) - {id} <= settled <= old(settled) && envs == old(envs)
      ensures forall b :: b != id ==> Routes(domains, b) == Routes(old(domains), b)
                                      && OwnHosts(domains, b) == OwnHosts(old(domains), b)
                                      && (b in envs <==> b in old(envs)) && (b in envs ==> envs[b] == old(envs)[b])
    {
      hide Routes, PortsOf, Env.Agrees, Env.Rewritten, Env.Plain, Settled, Used, Smallest, PortsApart, RoutePorts,
           RealRoutes, CP.WellFormed, CP.SlotsFit, Replaced, OwnedElsewhere, OwnHosts, Holds, CanHold, HostsDistinct,
           NoBlankName, Edited, Editable, ExtrasFit;
      ghost var used, port, was := Used(apps, domains, wpPort), apps[id].port, domains;
      var owned := AnyOwned(hosts, id);
      if owned {
        return false;
      }
      var fit := CheckExtras(extras, hosts, id);
      if !fit {
        return false;
      }
      var routes := EditRoutes(id, extras, free);
      if routes.Err? {
        NoFit(was, id, hosts, extras, file, port, used, free);
        return false;
      }
      OneFit(routes.value, was, id, hosts, extras, file, port, used, free);
      if file.Some? {
        var fits := CheckEdit(file.value, |routes.value| + 1, {apps[id].port} + RoutePorts(routes.value));
        if !fits {
          return false;
        }
      }
      SettledLess(apps, domains, envs, settled, {id});
      settled := settled - {id};
      var replaced := ReplaceAppDomains(id, hosts, routes.value);
      if !replaced || !envOk {
        return false;
      }
      Rewrite(id);
      return true;
    }

    /** The env file brought in step with the rows. */
    method Rewrite(id: nat)
      requires Valid() && id in apps && apps[id].kind == Compose && id !in settled
      modifies this`envs, this`settled
      ensures Valid() && settled == old(settled) + {id} && id in envs
              && Env.Agrees(envs[id], SlotsOf(apps, domains, id))
      ensures forall b :: b != id ==> (b in envs <==> b in old(envs)) && (b in envs ==> envs[b] == old(envs)[b])
    {
      hide Routes, Env.Agrees, Env.Rewritten, Env.Plain, PortsOf;
      ghost var before := envs;
      WriteEnv(id, SlotsOf(apps, domains, id));
      SettledStays(apps, domains, before, apps, domains, envs, settled);
      SettledMore(apps, domains, envs, settled, id);
      settled := settled + {id};
    }

    /** Update for every other kind: the names, the second UI's name when there is one, and a port for a
        host app that now runs a command. */
    method UpdateApp(id: nat, hosts: seq<string>, secondHost: string, runs: bool, free: nat -> bool) returns (ok: bool)
      requires Valid() && id in apps && apps[id].kind != Compose
      modifies this`apps, this`domains
      ensures Valid() && (old(Apart()) ==> Apart())
      ensures id in apps && apps == old(apps)[id := App(old(apps)[id].kind, apps[id].port)]
      ensures old(apps)[id].port > 0 ==> apps[id].port == old(apps)[id].port
      ensures apps[id].port != old(apps)[id].port ==>
                && apps[id].kind == HostProc && runs
                && Smallest([apps[id].port], 1, Used(old(apps), old(domains), wpPort), free)
      ensures ok && apps[id].kind == HostProc && runs ==> apps[id].port > 0
      ensures var was := Routes(old(domains), id); var named := Renamed(was, secondHost);
        ok <==>
        && (forall i :: 0 <= i < |hosts| ==> !OwnedElsewhere(old(domains), hosts[i], id))
        && (was != [] ==> named[0].host !in hosts)
        && (apps[id].kind == HostProc && runs && old(apps)[id].port == 0 ==>
              !TooFew(1, Used(old(apps), old(domains), wpPort), free))
        && CanHold(old(domains), id, hosts, named)
      ensures ok ==> Holds(domains, id, hosts) && Routes(domains, id) == Renamed(Routes(old(domains), id), secondHost)
      ensures ok ==> PortsKept(Routes(old(domains), id), Routes(domains, id))
      ensures ok && secondHost != "" && Routes(domains, id) != [] ==> Routes(domains, id)[0].host == secondHost
      ensures !ok ==> domains == old(domains)
      ensures forall b :: b != id ==> Routes(domains, b) == Routes(old(domains), b)
                                      && OwnHosts(domains, b) == OwnHosts(old(domains), b)
    {
      hide Routes, Env.Agrees, Env.Plain, Settled, Used, Smallest, PortsApart, RoutePorts, RealRoutes, Replaced,
           OwnedElsewhere, Others, OwnHosts, Holds, CanHold, HostsDistinct, NoBlankName, TooFew;
      SettledKinds(apps, domains, envs, settled);
      var owned := AnyOwned(hosts, id);
      if owned {
        return false;
      }
      RoutesAreReal(domains, id);
      var routes := Routes(domains, id);
      if routes != [] {
        var host := if secondHost == "" then routes[0].host else secondHost;
        if OwnedElsewhere(domains, host, id) || host in hosts {
          FirstFree(domains, id, hosts, Renamed(routes, secondHost));
          return false;
        }
        RenamedApart(domains, id, host);
        routes := routes[0 := routes[0].(host := host)];
      }
      assert routes == Renamed(Routes(domains, id), secondHost);
      if apps[id].kind == HostProc && runs && apps[id].port == 0 {
        var more := AllocPorts(1, {}, free);
        assert Used(apps, domains, wpPort) + {} == Used(apps, domains, wpPort);
        if more.Err? {
          return false;
        }
        assert more.value == [more.value[0]];
        SetPort(id, more.value[0]);
      }
      if Apart() {
        RoutesRealApart(apps, domains, wpPort, id);
      }
      ok := ReplaceAppDomains(id, hosts, routes);
    }

    /** SetAdminer: a bundled Adminer switched on or off. `yaml` is the app's compose file as read
        and `file` the same file afterwards; `render` is the template's block for a port, which may
        fail, `writable` whether the file can be written, and `domain` the app row's own name. */
    method SetAdminer(id: nat, on: bool, host: string, domain: string, yaml: string,
                      render: nat -> Option<string>, writable: bool, free: nat -> bool)
      returns (ok: bool, file: string)
      requires Valid() && id in apps && apps[id].kind == Container
      modifies this`domains
      ensures Valid() && (old(Apart()) ==> Apart())
      ensures (Routes(old(domains), id) != []) == on ==> ok && domains == old(domains) && file == yaml
      ensures (Routes(old(domains), id) != []) != on && TrimSpace(yaml) == "" ==> !ok
      ensures ok && on ==> Routes(domains, id) != []
      ensures (Routes(old(domains), id) != []) != on ==>
        var own := OwnHosts(old(domains), id); var names := if own == [] then [domain] else own;
        ok <==> TrimSpace(yaml) != "" && writable
                && if !on then CanHold(old(domains), id, names, [])
                   else !OwnedElsewhere(old(domains), host, id)
                        && exists port ::
                          && AdminerOn(port, yaml, render, Used(apps, old(domains), wpPort) + {apps[id].port}, free)
                          && CanHold(old(domains), id, names, [Route(host, port)])
      ensures ok ==> var own := OwnHosts(old(domains), id);
                     && (own != [] ==> OwnHosts(domains, id) == own)
                     && (own == [] && (Routes(old(domains), id) != []) != on ==> Holds(domains, id, [domain]))
      ensures ok && on && Routes(old(domains), id) == [] ==>
        var r := Routes(domains, id);
        && |r| == 1 && r[0].host == host
        && Smallest([r[0].port], 1, Used(apps, old(domains), wpPort) + {apps[id].port}, free)
        && render(r[0].port).Some?
        && Blocks.AddText(Blocks.RemoveText(yaml, ADMINER).rest, render(r[0].port).value) == Some(file)
      ensures ok && !on ==> Routes(domains, id) == []
      ensures ok && !on && Routes(old(domains), id) != [] ==> file == Blocks.RemoveText(yaml, ADMINER).rest
      ensures !ok ==> domains == old(domains)
      ensures !writable || TrimSpace(yaml) == "" ==> file == yaml
      ensures forall b :: b != id ==> Routes(domains, b) == Routes(old(domains), b)
                                      && OwnHosts(domains, b) == OwnHosts(old(domains), b)
    {
      hide Routes, OwnHosts, Env.Agrees, Env.Plain, Settled, Used, Smallest, PortsApart, Replaced, OwnedElsewhere,
           HostsDistinct, NoBlankName, CanHold, TooFew, Solid;
      hide Blocks.AddText, Blocks.RemoveText, TrimLeftSpace, TrimRightSpace;
      file := yaml;
      SettledKinds(apps, domains, envs, settled);
      if (Routes(domains, id) != []) == on {
        return true, file;
      }
      BlankNames(domains, id);
      var own := OwnHosts(domains, id);
      var hosts := if own == [] then [domain] else own;
      if TrimSpace(yaml) == "" {
        return false, file;
      }
      var routes: seq<Route> := [];
      var edited: string, found: bool;
      if on {
        if OwnedElsewhere(domains, host, id) {
          return false, file;
        }
        var ports := AllocPorts(1, {apps[id].port}, free);
        if ports.Err? {
          NoAdminer(yaml, render, Used(apps, domains, wpPort) + {apps[id].port}, free);
          return false, file;
        }
        assert ports.value == [ports.value[0]];
        OneAdminer(ports.value[0], yaml, render, Used(apps, domains, wpPort) + {apps[id].port}, free);
        var block := render(ports.value[0]);
        if block.None? {
          return false, file;
        }
        edited, found := Blocks.RemoveService(yaml, ADMINER);
        var added := Blocks.AddService(edited, block.value);
        if added.Err? {
          return false, file;
        }
        edited := added.value;
        assert AdminerOn(ports.value[0], yaml, render, Used(apps, domains, wpPort) + {apps[id].port}, free);
        routes := [Route(host, ports.value[0])];
        OthersUsed(apps, domains, wpPort, id);
      } else {
        edited, found := Blocks.RemoveService(yaml, ADMINER);
      }
      if !writable {
        return false, file;
      }
      file := edited;
      ok := ReplaceAppDomains(id, hosts, routes);
    }

    /** Delete. */
    method Delete(id: nat)
      requires Valid() && id in apps
      modifies this`apps, this`domains, this`envs, this`settled
      ensures Valid() && (old(Apart()) ==> Apart())
      ensures apps == old(apps) - {id} && settled == old(settled) - {id} && envs == old(envs) - {id}
      ensures forall d :: d in domains <==> d in old(domains) && d.app != id
      ensures Routes(domains, id) == [] && OwnHosts(domains, id) == []
      ensures forall b :: b != id ==> Routes(domains, b) == Routes(old(domains), b)
                                      && OwnHosts(domains, b) == OwnHosts(old(domains), b)
    {
      hide Routes, OwnHosts, Env.Agrees, Env.Plain, Others, Settled, PortsApart, Used, HostsDistinct;
      var left := Others(domains, id);
      forall b: nat ensures Routes(left, b) == if b == id then [] else Routes(domains, b) {
        OthersLaw(domains, id, b);
      }
      forall b: nat ensures OwnHosts(left, b) == if b == id then [] else OwnHosts(domains, b) {
        OthersNames(domains, id, b);
      }
      OthersApps(domains, id);
      OthersDistinct(domains, id);
      if Apart() {
        RemovedApart(apps, domains, wpPort, id);
      }
      SettledLess(apps, domains, envs, settled, {id});
      SettledStays(apps, domains, envs, apps - {id}, left, envs - {id}, settled - {id});
      apps, domains, envs, settled := apps - {id}, left, envs - {id}, settled - {id};
    }
  }

  // ---- where Create falls short ----

  /** A file that publishes two slots, and one that an archive may put in its place. */
  const TWO_SLOTS := [CP.ComposePort(0, 1, "web"), CP.ComposePort(0, 2, "api")]
  const NEXT_PORT := [CP.ComposePort(20001, 0, "web")]

  const ALL_FREE: nat -> bool := _ => true

  lemma TwoLaid(laid: seq<nat>)
    ensures Chosen(laid, 2, 0, {}, {}, ALL_FREE) <==> laid == [20000, 20001]
  {
    var two := [20000, 20001];
    assert Acceptable(two[0], {}, ALL_FREE) && Acceptable(two[1], {}, ALL_FREE);
    var none: set<nat> := {};
    assert none + none == none;
    assert Chosen(two, 2, 0, {}, {}, ALL_FREE);
    if Chosen(laid, 2, 0, {}, {}, ALL_FREE) {
      OneChosen(laid, two, 2, 0, {}, {}, ALL_FREE);
    }
  }

  lemma TwoFit(self: nat)
    ensures Used(map[], [], 0) == {} && Avoided(false, TWO_SLOTS) == {}
    ensures CP.WellFormed(TWO_SLOTS) && CanLay([], {}, ["a.test"], ["b.test"], self, false, TWO_SLOTS)
    ensures Starts(TWO_SLOTS, 20000, {}) && !FollowsFile(TWO_SLOTS, 20000, 1)
  {
    assert TWO_SLOTS[0].slot == 1 && TWO_SLOTS[1].slot == 2;
    assert CP.HasSlot(TWO_SLOTS, 1) && CP.HasSlot(TWO_SLOTS, 2);
  }

  lemma ZipOne(host: string, port: nat)
    ensures Zip([host], [port]) == [Route(host, port)]
  {
  }

  lemma NoneOwned(hosts: seq<string>, self: nat)
    ensures !exists i :: 0 <= i < |hosts| && OwnedElsewhere([], hosts[i], self)
  {
  }

  lemma NextFollowed()
    ensures FirstFixedPort(NEXT_PORT) == Some(20001) && FollowsFile(NEXT_PORT, 20000, 1) && Starts(NEXT_PORT, 20000, {})
  {
    FirstFixedAt(NEXT_PORT, 0);
  }

  /** A stack of two domains is laid out on 20000 and 20001. Its archive brings a file that hard-codes
      20001, so the first start moves the app itself there: one port is recorded twice. */
  method FollowedPortCollides() returns (s: Service, r: Result<nat, string>)
    ensures r.Ok? && s.Valid() && !s.Apart() && r.value in s.apps
    ensures s.apps[r.value].port == 20001 && Routes(s.domains, r.value) == [Route("b.test", 20001)]
  {
    hide *;
    s := new Service([]);
    ghost var laid;
    TwoLaid([20000, 20001]);
    TwoFit(s.nextApp);
    NoneOwned(["a.test"], s.nextApp);
    NextFollowed();
    CanChoose([20000, 20001], 2, 0, {}, {}, ALL_FREE);
    r, laid := s.CreateCompose(0, ["a.test"], ["b.test"], false, TWO_SLOTS, None, None, Ok(NEXT_PORT), true, true,
      ALL_FREE);
    TwoLaid(laid);
    assert laid[1..] == [20001];
    ZipOne("b.test", 20001);
  }

  /** The same stack, with an archive that brings an empty env file: started, and out of step with its
      second domain. */
  method ImportedEnvDisagrees() returns (s: Service, r: Result<nat, string>)
    ensures r.Ok? && s.Valid() && s.Apart() && r.value in s.apps && r.value in s.envs
    ensures !Env.Agrees(s.envs[r.value], SlotsOf(s.apps, s.domains, r.value))
  {
    hide *;
    s := new Service([]);
    ghost var laid;
    TwoLaid([20000, 20001]);
    TwoFit(s.nextApp);
    NoneOwned(["a.test"], s.nextApp);
    CanChoose([20000, 20001], 2, 0, {}, {}, ALL_FREE);
    r, laid := s.CreateCompose(0, ["a.test"], ["b.test"], false, TWO_SLOTS, None, Some(""), Ok(TWO_SLOTS), true, true,
      ALL_FREE);
    TwoLaid(laid);
    Env.EmptyFileDisagrees(laid);
  }
}
