/** The hand-arranged lists (internal/store/apps.go, internal/store/projects.go): positions kept in
    rows stand for one sequence of projects and one sequence of apps per project. */
module Ordering {
  import opened Collections
  import opened Wrappers

  // ---- rows in the order their keys give ----

  /** What a listing sorts by. */
  datatype Key = Key(first: int, second: int, third: int)

  predicate Less(a: Key, b: Key) {
    a.first < b.first || (a.first == b.first && (a.second < b.second || (a.second == b.second && a.third < b.third)))
  }

  /** `ids` are the keys' ids, each once, in key order. */
  ghost predicate IsList(keys: map<nat, Key>, ids: seq<nat>) {
    && (forall i :: 0 <= i < |ids| ==> ids[i] in keys)
    && (forall i, j :: 0 <= i < j < |ids| ==> Less(keys[ids[i]], keys[ids[j]]))
    && (forall id :: id in keys ==> id in ids)
  }

  function Without(ids: seq<nat>, id: nat): seq<nat> {
    if ids == [] then []
    else if ids[0] == id then Without(ids[1..], id)
    else [ids[0]] + Without(ids[1..], id)
  }

  /** There is one list. */
  lemma {:induction false} OneList(keys: map<nat, Key>, a: seq<nat>, b: seq<nat>)
    requires IsList(keys, a) && IsList(keys, b)
    ensures a == b
    decreases |a|
  {
    Nonempty(keys, a, b);
    Nonempty(keys, b, a);
    if a != [] {
      FirstSame(keys, a, b);
      Tail(keys, a);
      Tail(keys, b);
      hide IsList;
      OneList(keys - {a[0]}, a[1..], b[1..]);
      assert a == [a[0]] + a[1..] && b == [b[0]] + b[1..];
    }
  }

  lemma FirstSame(keys: map<nat, Key>, a: seq<nat>, b: seq<nat>)
    requires IsList(keys, a) && IsList(keys, b) && a != [] && b != []
    ensures a[0] == b[0]
  {
    var j :| 0 <= j < |b| && b[j] == a[0];
    var i :| 0 <= i < |a| && a[i] == b[0];
    assert i > 0 ==> Less(keys[a[0]], keys[a[i]]);
    assert j > 0 ==> Less(keys[b[0]], keys[b[j]]);
  }

  lemma Nonempty(keys: map<nat, Key>, a: seq<nat>, b: seq<nat>)
    requires IsList(keys, a) && IsList(keys, b)
    ensures a != [] ==> b != []
  {
    if a != [] {
      assert a[0] in b;
    }
  }

  lemma Tail(keys: map<nat, Key>, ids: seq<nat>)
    requires IsList(keys, ids) && ids != []
    ensures IsList(keys - {ids[0]}, ids[1..])
  {
    var rest := keys - {ids[0]};
    forall i | 0 <= i < |ids[1..]| ensures ids[1..][i] in rest {
      assert Less(keys[ids[0]], keys[ids[i + 1]]);
    }
    forall id | id in rest ensures id in ids[1..] {
      var i :| 0 <= i < |ids| && ids[i] == id;
      assert ids[1..][i - 1] == id;
    }
  }

  lemma ListDistinct(keys: map<nat, Key>, ids: seq<nat>)
    requires IsList(keys, ids)
    ensures Distinct(ids) && forall id :: id in ids <==> id in keys
  {
    forall i, j | 0 <= i < j < |ids| ensures ids[i] != ids[j] {
      assert Less(keys[ids[i]], keys[ids[j]]);
    }
  }

  lemma Appended(keys: map<nat, Key>, ids: seq<nat>, id: nat, k: Key)
    requires IsList(keys, ids) && id !in keys && forall x :: x in keys ==> Less(keys[x], k)
    ensures IsList(keys[id := k], ids + [id])
  {
    var more, keys' := ids + [id], keys[id := k];
    forall x | x in keys' ensures x in more {
      if x == id {
        assert more[|ids|] == id;
      } else {
        var i :| 0 <= i < |ids| && ids[i] == x;
        assert more[i] == x;
      }
    }
  }

  lemma Prepended(keys: map<nat, Key>, ids: seq<nat>, id: nat, k: Key)
    requires IsList(keys, ids) && id !in keys && forall x :: x in keys ==> Less(k, keys[x])
    ensures IsList(keys[id := k], [id] + ids)
  {
    var more, keys' := [id] + ids, keys[id := k];
    forall x | x in keys' ensures x in more {
      if x == id {
        assert more[0] == id;
      } else {
        var i :| 0 <= i < |ids| && ids[i] == x;
        assert more[i + 1] == x;
      }
    }
  }

  lemma {:induction false} WithoutLaw(ids: seq<nat>, id: nat)
    ensures forall x :: x in Without(ids, id) <==> x in ids && x != id
  {
    if ids != [] {
      WithoutLaw(ids[1..], id);
      assert ids == [ids[0]] + ids[1..];
    }
  }

  lemma {:induction false} Removed(keys: map<nat, Key>, ids: seq<nat>, id: nat)
    requires IsList(keys, ids)
    ensures IsList(keys - {id}, Without(ids, id))
    decreases |ids|
  {
    hide IsList, Less;
    if ids == [] {
      NothingListed(keys, id);
    } else {
      var head, tail := ids[0], ids[1..];
      Tail(keys, ids);
      Removed(keys - {head}, tail, id);
      if head == id {
        assert keys - {head} - {id} == keys - {id};
      } else {
        HeadFirst(keys, ids);
        WithoutLaw(tail, id);
        assert keys - {id} - {head} == keys - {head} - {id};
        HeadBack(keys - {id}, Without(tail, id), head);
      }
    }
  }

  lemma NothingListed(keys: map<nat, Key>, id: nat)
    requires IsList(keys, [])
    ensures IsList(keys - {id}, [])
  {
  }

  lemma HeadFirst(keys: map<nat, Key>, ids: seq<nat>)
    requires IsList(keys, ids) && ids != []
    ensures ids[0] in keys && forall x :: x in ids[1..] ==> x in keys && Less(keys[ids[0]], keys[x])
  {
    forall x | x in ids[1..] ensures x in keys && Less(keys[ids[0]], keys[x]) {
      var i :| 0 <= i < |ids[1..]| && ids[1..][i] == x;
      assert ids[i + 1] == x;
    }
  }

  lemma HeadBack(keys: map<nat, Key>, rest: seq<nat>, head: nat)
    requires head in keys && IsList(keys - {head}, rest)
    requires forall x :: x in rest ==> x in keys && Less(keys[head], keys[x])
    ensures IsList(keys, [head] + rest)
  {
    Prepended(keys - {head}, rest, head, keys[head]);
    assert (keys - {head})[head := keys[head]] == keys;
  }

  /** Positions counting up along `ids` list them. */
  lemma Numbered(keys: map<nat, Key>, ids: seq<nat>)
    requires Distinct(ids) && forall id :: id in ids <==> id in keys
    requires forall i :: 0 <= i < |ids| ==> keys[ids[i]].first == i + 1
    ensures IsList(keys, ids)
  {
  }

  // ---- permutations ----

  lemma {:induction false} DistinctCounts(ids: seq<nat>, x: nat)
    requires Distinct(ids)
    ensures multiset(ids)[x] == if x in ids then 1 else 0
  {
    if ids != [] {
      DistinctCounts(ids[1..], x);
      assert ids == [ids[0]] + ids[1..];
      assert forall i :: 0 < i < |ids| ==> ids[1..][i - 1] == ids[i];
    }
  }

  /** The three checks of the order setters accept exactly the permutations of what is there. */
  lemma PermutationIff(ids: seq<nat>, current: seq<nat>, s: set<nat>)
    requires Distinct(current) && forall id :: id in current <==> id in s
    ensures multiset(ids) == multiset(current)
            <==> |ids| == |s| && (forall id :: id in ids ==> id in s) && Distinct(ids)
  {
    DistinctSize(current, s);
    if multiset(ids) == multiset(current) {
      assert |multiset(ids)| == |multiset(current)|;
      forall id | id in ids ensures id in s {
        assert id in multiset(ids) && id in multiset(current);
      }
      forall i, j | 0 <= i < j < |ids| ensures ids[i] != ids[j] {
        TwiceCounts(ids, i, j);
        DistinctCounts(current, ids[i]);
      }
    }
    if |ids| == |s| && (forall id :: id in ids ==> id in s) && Distinct(ids) {
      DistinctSize(ids, s);
      forall x: nat ensures multiset(ids)[x] == multiset(current)[x] {
        DistinctCounts(ids, x);
        DistinctCounts(current, x);
      }
    }
  }

  lemma TwiceCounts(ids: seq<nat>, i: nat, j: nat)
    requires i < j < |ids|
    ensures ids[i] == ids[j] ==> multiset(ids)[ids[i]] >= 2
  {
    assert ids == ids[..j] + [ids[j]] + ids[j + 1..];
    assert ids[..j][i] == ids[i] && ids[i] in multiset(ids[..j]);
  }

  // ---- the tables ----

  datatype App = App(project: nat, position: int)

  datatype Project = Project(position: int, created: int)

  /** ORDER BY position, id. */
  function AppKey(a: App, id: nat): Key {
    Key(a.position, id, 0)
  }

  /** ORDER BY position, created_at DESC, id DESC. */
  function ProjectKey(p: Project, id: nat): Key {
    Key(p.position, -p.created, -(id as int))
  }

  function AppKeys(apps: map<nat, App>, project: nat): map<nat, Key> {
    map id | id in apps && apps[id].project == project :: AppKey(apps[id], id)
  }

  function ProjectKeys(projects: map<nat, Project>): map<nat, Key> {
    map id | id in projects :: ProjectKey(projects[id], id)
  }

  /** A sort by insertion, standing for the engine's ORDER BY. */
  method SortRows(keys: map<nat, Key>) returns (ids: seq<nat>)
    requires forall a, b :: a in keys && b in keys && a != b ==> keys[a] != keys[b]
    ensures IsList(keys, ids)
  {
    ids := [];
    var todo := keys.Keys;
    ghost var done: map<nat, Key> := map[];
    while todo != {}
      invariant todo <= keys.Keys && done == keys - todo && IsList(done, ids)
      decreases |todo|
    {
      var id :| id in todo;
      var i := 0;
      while i < |ids| && Less(keys[ids[i]], keys[id])
        invariant 0 <= i <= |ids| && forall j :: 0 <= j < i ==> Less(keys[ids[j]], keys[id])
      {
        i := i + 1;
      }
      RowInserted(done, ids, i, id, keys[id]);
      ids := ids[..i] + [id] + ids[i..];
      todo := todo - {id};
      done := done[id := keys[id]];
    }
    assert done == keys;
  }

  lemma RowInserted(keys: map<nat, Key>, ids: seq<nat>, at: nat, id: nat, k: Key)
    requires IsList(keys, ids) && id !in keys && at <= |ids|
    requires forall x :: x in keys ==> keys[x] != k
    requires forall j :: 0 <= j < at ==> Less(keys[ids[j]], k)
    requires at < |ids| ==> !Less(keys[ids[at]], k)
    ensures IsList(keys[id := k], ids[..at] + [id] + ids[at..])
  {
    Inserted(ids, at, id);
    forall j | at <= j < |ids| ensures Less(k, keys[ids[j]]) {
      assert j > at ==> Less(keys[ids[at]], keys[ids[j]]);
    }
  }

  // ---- the store ----

  function AppsIn(orders: map<nat, seq<nat>>, project: nat): seq<nat> {
    if project in orders then orders[project] else []
  }

  class Store {
    var projects: map<nat, Project>
    var apps: map<nat, App>
    var nextProject: nat
    var nextApp: nat
    /** What the positions stand for. */
    ghost var projectOrder: seq<nat>
    ghost var appOrder: map<nat, seq<nat>>

    ghost predicate Valid()
      reads this
    {
      && (forall id :: id in projects ==> id < nextProject)
      && (forall id :: id in apps ==> id < nextApp && apps[id].project in projects)
      && IsList(ProjectKeys(projects), projectOrder)
      && appOrder.Keys == projects.Keys
      && forall p :: p in projects ==> IsList(AppKeys(apps, p), appOrder[p])
    }

    constructor ()
      ensures Valid() && projectOrder == [] && appOrder == map[]
    {
      projects, apps, nextProject, nextApp := map[], map[], 1, 1;
      projectOrder, appOrder := [], map[];
    }

    /** ListProjects. */
    method ListProjects() returns (ids: seq<nat>)
      requires Valid()
      ensures ids == projectOrder
      ensures forall id :: id in ids <==> id in projects
      ensures forall i, j :: 0 <= i < j < |ids| ==>
                var a, b := projects[ids[i]], projects[ids[j]];
                a.position < b.position
                || (a.position == b.position && (a.created > b.created || (a.created == b.created && ids[i] > ids[j])))
    {
      ids := SortRows(ProjectKeys(projects));
      OneList(ProjectKeys(projects), ids, projectOrder);
    }

    /** ListAppsByProject; a project that is not there has no apps. */
    method ListApps(project: nat) returns (ids: seq<nat>)
      requires Valid()
      ensures ids == AppsIn(appOrder, project)
      ensures forall id :: id in ids <==> id in apps && apps[id].project == project
      ensures forall i, j :: 0 <= i < j < |ids| ==>
                var a, b := apps[ids[i]], apps[ids[j]];
                a.position < b.position || (a.position == b.position && ids[i] < ids[j])
    {
      ids := SortRows(AppKeys(apps, project));
      if project in projects {
        OneList(AppKeys(apps, project), ids, appOrder[project]);
      } else {
        assert AppKeys(apps, project) == map[];
        OneList(map[], ids, []);
      }
    }

    /** SELECT COALESCE(MIN(position), 1) FROM projects. */
    method LowestPosition() returns (lowest: int)
      ensures forall x :: x in projects ==> lowest <= projects[x].position
      ensures if projects == map[] then lowest == 1 else exists x :: x in projects && projects[x].position == lowest
    {
      lowest := 1;
      var todo, none := projects.Keys, true;
      while todo != {}
        invariant todo <= projects.Keys
        invariant none ==> todo == projects.Keys && lowest == 1
        invariant !none ==> exists x :: x in projects && projects[x].position == lowest
        invariant !none ==> forall x :: x in projects && x !in todo ==> lowest <= projects[x].position
        decreases |todo|
      {
        var x :| x in todo;
        if none || projects[x].position < lowest {
          lowest, none := projects[x].position, false;
        }
        todo := todo - {x};
      }
      assert projects == map[] <==> projects.Keys == {};
    }

    /** SELECT COALESCE(MAX(position), 0) FROM apps WHERE project_id = project. */
    method HighestPosition(project: nat) returns (highest: int)
      ensures forall x :: x in apps && apps[x].project == project ==> apps[x].position <= highest
      ensures if forall x :: x in apps ==> apps[x].project != project then highest == 0
              else exists x :: x in apps && apps[x].project == project && apps[x].position == highest
    {
      highest := 0;
      var todo: set<nat> := set x | x in apps && apps[x].project == project;
      var none := true;
      while todo != {}
        invariant forall x :: x in todo ==> x in apps && apps[x].project == project
        invariant none ==> highest == 0 && forall x :: x in apps && apps[x].project == project ==> x in todo
        invariant !none ==> exists x :: x in apps && apps[x].project == project && apps[x].position == highest
        invariant !none ==> forall x :: x in apps && apps[x].project == project && x !in todo
                             ==> apps[x].position <= highest
        decreases |todo|
      {
        var x :| x in todo;
        if none || apps[x].position > highest {
          highest, none := apps[x].position, false;
        }
        todo := todo - {x};
      }
    }

    /** CreateProject: a new project comes first. */
    method CreateProject(created: int) returns (id: nat)
      requires Valid()
      modifies this
      ensures Valid() && id !in old(projects)
      ensures projectOrder == [id] + old(projectOrder)
      ensures appOrder == old(appOrder)[id := []]
    {
      hide IsList;
      id := nextProject;
      var lowest := LowestPosition();
      var p := Project(lowest - 1, created);
      ProjectAdded(projects, projectOrder, id, p);
      assert AppKeys(apps, id) == map[];
      NoList();
      projects, nextProject := projects[id := p], nextProject + 1;
      projectOrder, appOrder := [id] + projectOrder, appOrder[id := []];
    }

    /** CreateApp: a new app comes last in its project, which must exist. */
    method CreateApp(project: nat) returns (r: Result<nat, string>)
      requires Valid()
      modifies this
      ensures Valid() && projectOrder == old(projectOrder)
      ensures r.Ok? <==> project in old(projects)
      ensures r.Ok? ==> r.value !in old(apps)
      ensures r.Ok? ==> appOrder == old(appOrder)[project := old(appOrder)[project] + [r.value]]
      ensures r.Err? ==> apps == old(apps) && projects == old(projects) && appOrder == old(appOrder)
    {
      hide IsList;
      if project !in projects {
        return Err("FOREIGN KEY constraint failed");
      }
      var id := nextApp;
      var highest := HighestPosition(project);
      var a := App(project, highest + 1);
      AppAdded(apps, appOrder[project], id, a);
      assert forall p :: p != project ==> AppKeys(apps[id := a], p) == AppKeys(apps, p);
      apps, nextApp := apps[id := a], nextApp + 1;
      appOrder := appOrder[project := appOrder[project] + [id]];
      return Ok(id);
    }

    /** DeleteApp: the others keep their order. */
    method DeleteApp(id: nat)
      requires Valid()
      modifies this
      ensures Valid() && projects == old(projects) && projectOrder == old(projectOrder) && apps == old(apps) - {id}
      ensures appOrder == if id in old(apps)
                          then var p := old(apps)[id].project; old(appOrder)[p := Without(old(appOrder)[p], id)]
                          else old(appOrder)
    {
      hide IsList;
      if id in apps {
        var p := apps[id].project;
        AppRemoved(apps, appOrder[p], id);
        forall q | q in projects && q != p ensures IsList(AppKeys(apps - {id}, q), appOrder[q]) {
          SameKeys(apps, apps - {id}, q);
        }
        appOrder := appOrder[p := Without(appOrder[p], id)];
      } else {
        assert apps - {id} == apps;
      }
      apps := apps - {id};
    }

    /** The updates SetAppOrder commits. */
    method RenumberApps(project: nat, ids: seq<nat>)
      requires Distinct(ids) && forall id :: id in ids ==> id in apps && apps[id].project == project
      modifies this`apps
      ensures apps.Keys == old(apps).Keys
      ensures forall j :: 0 <= j < |ids| ==> apps[ids[j]] == App(project, j + 1)
      ensures forall x :: x in apps && x !in ids ==> apps[x] == old(apps)[x]
    {
      for i := 0 to |ids|
        invariant apps.Keys == old(apps).Keys
        invariant forall j :: 0 <= j < |ids|
                   ==> apps[ids[j]] == if j < i then App(project, j + 1) else old(apps)[ids[j]]
        invariant forall x :: x in apps && x !in ids ==> apps[x] == old(apps)[x]
      {
        apps := apps[ids[i] := apps[ids[i]].(position := i + 1)];
      }
    }

    /** The updates SetProjectOrder commits. */
    method RenumberProjects(ids: seq<nat>)
      requires Distinct(ids) && forall id :: id in ids ==> id in projects
      modifies this`projects
      ensures projects.Keys == old(projects).Keys
      ensures forall j :: 0 <= j < |ids| ==> projects[ids[j]].position == j + 1
    {
      for i := 0 to |ids|
        invariant projects.Keys == old(projects).Keys
        invariant forall j :: 0 <= j < i ==> projects[ids[j]].position == j + 1
      {
        projects := projects[ids[i] := projects[ids[i]].(position := i + 1)];
      }
    }

    /** The checks SetAppOrder makes. */
    method CheckApps(project: nat, ids: seq<nat>) returns (ok: bool)
      requires Valid()
      ensures ok <==> multiset(ids) == multiset(AppsIn(appOrder, project))
      ensures ok ==> Distinct(ids) && forall id :: id in ids <==> id in apps && apps[id].project == project
    {
      hide IsList, Distinct, AppKeys, ProjectKeys;
      ghost var order := AppsIn(appOrder, project);
      NoApps(apps, project);
      var current := set x | x in apps && apps[x].project == project;
      CurrentApps(apps, project, order);
      ok := CheckOrder(ids, current, order);
    }

    /** And SetProjectOrder. */
    method CheckProjects(ids: seq<nat>) returns (ok: bool)
      requires Valid()
      ensures ok <==> multiset(ids) == multiset(projectOrder)
      ensures ok ==> Distinct(ids) && forall id :: id in ids <==> id in projects
    {
      hide IsList, Distinct, AppKeys, ProjectKeys;
      CurrentProjects(projects, projectOrder);
      ok := CheckOrder(ids, projects.Keys, projectOrder);
    }

    /** SetAppOrder: the list is saved exactly when it is a permutation of the project's apps, and a
        list that is not changes nothing. */
    method SetAppOrder(project: nat, ids: seq<nat>) returns (ok: bool)
      requires Valid()
      modifies this
      ensures Valid() && projects == old(projects) && projectOrder == old(projectOrder)
      ensures ok <==> multiset(ids) == multiset(AppsIn(old(appOrder), project))
      ensures ok && project in projects ==> appOrder == old(appOrder)[project := ids]
      ensures ok && project !in projects ==> apps == old(apps) && appOrder == old(appOrder)
      ensures !ok ==> apps == old(apps) && appOrder == old(appOrder)
    {
      hide IsList, Distinct, AppKeys, ProjectKeys;
      ok := CheckApps(project, ids);
      if !ok {
        return;
      }
      ghost var before := apps;
      RenumberApps(project, ids);
      Rearranged(before, apps, appOrder, project, ids);
      if project in projects {
        appOrder := appOrder[project := ids];
      }
    }

    /** SetProjectOrder, likewise over every project. */
    method SetProjectOrder(ids: seq<nat>) returns (ok: bool)
      requires Valid()
      modifies this
      ensures Valid() && apps == old(apps) && appOrder == old(appOrder)
      ensures ok <==> multiset(ids) == multiset(old(projectOrder))
      ensures projectOrder == if ok then ids else old(projectOrder)
      ensures !ok ==> projects == old(projects)
    {
      hide IsList, Distinct, AppKeys, ProjectKeys;
      ok := CheckProjects(ids);
      if !ok {
        return;
      }
      RenumberProjects(ids);
      ProjectsNumbered(projects, ids);
      projectOrder := ids;
    }

    /** DeleteProject: its apps go with it, and the other projects keep their order. */
    method DeleteProject(id: nat)
      requires Valid()
      modifies this
      ensures Valid() && projects == old(projects) - {id}
      ensures projectOrder == Without(old(projectOrder), id) && appOrder == old(appOrder) - {id}
      ensures apps == map a | a in old(apps) && old(apps)[a].project != id :: old(apps)[a]
    {
      hide IsList, AppKeys, ProjectKeys;
      ProjectRemoved(projects, projectOrder, id);
      var left := map a | a in apps && apps[a].project != id :: apps[a];
      forall p | p in projects && p != id ensures IsList(AppKeys(left, p), appOrder[p]) {
        SameKeys(apps, left, p);
      }
      projects, apps := projects - {id}, left;
      projectOrder, appOrder := Without(projectOrder, id), appOrder - {id};
    }
  }

  /** The checks both order setters make before they touch a row. */
  method CheckOrder(ids: seq<nat>, current: set<nat>, ghost order: seq<nat>) returns (ok: bool)
    requires Distinct(order) && forall id :: id in order <==> id in current
    ensures ok <==> multiset(ids) == multiset(order)
    ensures ok ==> Distinct(ids) && forall id :: id in ids <==> id in current
  {
    PermutationIff(ids, order, current);
    ok := CheckIds(ids, current);
    if ok {
      DistinctSize(ids, current);
    }
  }

  method CheckIds(ids: seq<nat>, current: set<nat>) returns (ok: bool)
    ensures ok <==> |ids| == |current| && (forall id :: id in ids ==> id in current) && Distinct(ids)
  {
    if |ids| != |current| {
      return false;
    }
    var seen: set<nat> := {};
    for i := 0 to |ids|
      invariant forall x :: x in seen <==> x in ids[..i]
      invariant Distinct(ids[..i]) && forall x :: x in ids[..i] ==> x in current
    {
      var id := ids[i];
      assert forall x :: x in ids[..i + 1] <==> x in ids[..i] || x == id;
      if id !in current {
        return false;
      }
      if id in seen {
        var j :| 0 <= j < i && ids[..i][j] == id;
        assert ids[j] == ids[i];
        return false;
      }
      seen := seen + {id};
    }
    assert ids[..|ids|] == ids;
    return true;
  }

  lemma SameKeys(apps: map<nat, App>, left: map<nat, App>, project: nat)
    requires forall a :: a in left ==> a in apps && left[a] == apps[a]
    requires forall a :: a in apps && apps[a].project == project ==> a in left
    ensures AppKeys(left, project) == AppKeys(apps, project)
  {
  }

  lemma AppRemoved(apps: map<nat, App>, order: seq<nat>, id: nat)
    requires id in apps && IsList(AppKeys(apps, apps[id].project), order)
    ensures IsList(AppKeys(apps - {id}, apps[id].project), Without(order, id))
  {
    hide IsList;
    var p := apps[id].project;
    Removed(AppKeys(apps, p), order, id);
    assert AppKeys(apps - {id}, p) == AppKeys(apps, p) - {id};
  }

  lemma NoApps(apps: map<nat, App>, project: nat)
    ensures (forall id :: id in apps ==> apps[id].project != project) ==> AppKeys(apps, project) == map[]
  {
  }

  lemma CurrentApps(apps: map<nat, App>, project: nat, order: seq<nat>)
    requires IsList(AppKeys(apps, project), order) || (order == [] && AppKeys(apps, project) == map[])
    ensures Distinct(order)
    ensures forall id :: id in order <==> id in apps && apps[id].project == project
  {
    if order == [] && AppKeys(apps, project) == map[] {
      assert forall id :: id in apps && apps[id].project == project ==> id in AppKeys(apps, project);
    } else {
      ListDistinct(AppKeys(apps, project), order);
    }
  }

  lemma CurrentProjects(projects: map<nat, Project>, order: seq<nat>)
    requires IsList(ProjectKeys(projects), order)
    ensures Distinct(order) && forall id :: id in order <==> id in projects
  {
    ListDistinct(ProjectKeys(projects), order);
    assert ProjectKeys(projects).Keys == projects.Keys;
  }

  lemma ProjectsNumbered(projects: map<nat, Project>, ids: seq<nat>)
    requires Distinct(ids) && forall id :: id in ids <==> id in projects
    requires forall j :: 0 <= j < |ids| ==> projects[ids[j]].position == j + 1
    ensures IsList(ProjectKeys(projects), ids)
  {
    Numbered(ProjectKeys(projects), ids);
  }

  /** A renumbering moves nothing but the one list. */
  lemma Rearranged(before: map<nat, App>, apps: map<nat, App>, orders: map<nat, seq<nat>>, project: nat, ids: seq<nat>)
    requires apps.Keys == before.Keys && Distinct(ids)
    requires forall id :: id in ids <==> id in before && before[id].project == project
    requires forall j :: 0 <= j < |ids| ==> apps[ids[j]] == App(project, j + 1)
    requires forall x :: x in apps && x !in ids ==> apps[x] == before[x]
    requires forall x :: x in before ==> before[x].project in orders
    requires forall p :: p in orders ==> IsList(AppKeys(before, p), orders[p])
    ensures forall x :: x in apps ==> apps[x].project == before[x].project
    ensures project in orders ==> forall p :: p in orders ==> IsList(AppKeys(apps, p), orders[project := ids][p])
    ensures project !in orders ==> apps == before
  {
    hide IsList, Distinct, AppKeys;
    AppsNumbered(before, apps, project, ids);
    forall p | p in orders && p != project ensures IsList(AppKeys(apps, p), orders[p]) {
      OtherKeys(before, apps, project, p);
    }
  }

  lemma OtherKeys(before: map<nat, App>, apps: map<nat, App>, project: nat, p: nat)
    requires apps.Keys == before.Keys && p != project
    requires forall x :: x in apps ==> apps[x].project == before[x].project
    requires forall x :: x in apps && apps[x].project != project ==> apps[x] == before[x]
    ensures AppKeys(apps, p) == AppKeys(before, p)
  {
  }

  lemma AppsNumbered(before: map<nat, App>, apps: map<nat, App>, project: nat, ids: seq<nat>)
    requires apps.Keys == before.Keys && Distinct(ids)
    requires forall id :: id in ids <==> id in before && before[id].project == project
    requires forall j :: 0 <= j < |ids| ==> apps[ids[j]] == App(project, j + 1)
    requires forall x :: x in apps && x !in ids ==> apps[x] == before[x]
    ensures IsList(AppKeys(apps, project), ids)
    ensures forall x :: x in apps ==> apps[x].project == before[x].project
    ensures forall x :: x in apps && apps[x].project != project ==> apps[x] == before[x]
  {
    Numbered(AppKeys(apps, project), ids);
  }

  lemma ProjectRemoved(projects: map<nat, Project>, order: seq<nat>, id: nat)
    requires IsList(ProjectKeys(projects), order)
    ensures IsList(ProjectKeys(projects - {id}), Without(order, id))
  {
    hide IsList;
    Removed(ProjectKeys(projects), order, id);
    assert ProjectKeys(projects - {id}) == ProjectKeys(projects) - {id};
  }

  lemma NoList()
    ensures IsList(map[], [])
  {
  }

  lemma ProjectAdded(projects: map<nat, Project>, order: seq<nat>, id: nat, p: Project)
    requires IsList(ProjectKeys(projects), order) && id !in projects
    requires forall x :: x in projects ==> p.position < projects[x].position
    ensures IsList(ProjectKeys(projects[id := p]), [id] + order)
  {
    Prepended(ProjectKeys(projects), order, id, ProjectKey(p, id));
    assert ProjectKeys(projects[id := p]) == ProjectKeys(projects)[id := ProjectKey(p, id)];
  }

  lemma AppAdded(apps: map<nat, App>, order: seq<nat>, id: nat, a: App)
    requires IsList(AppKeys(apps, a.project), order) && id !in apps
    requires forall x :: x in apps && apps[x].project == a.project ==> apps[x].position < a.position
    ensures IsList(AppKeys(apps[id := a], a.project), order + [id])
  {
    Appended(AppKeys(apps, a.project), order, id, AppKey(a, id));
    assert AppKeys(apps[id := a], a.project) == AppKeys(apps, a.project)[id := AppKey(a, id)];
  }
}
