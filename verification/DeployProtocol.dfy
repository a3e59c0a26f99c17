/** Deploys as threads over shared state (internal/apps/deploy.go, internal/store/deployments.go): they claim an
    app, open a row, build, close the row, prune and release, while histories are cleared and processes stop. */
module DeployProtocol {
  import opened Wrappers

  datatype Status = Running | Succeeded | Failed

  datatype Row = Row(id: nat, app: nat, status: Status)

  datatype Kind = Async | Waited | Pushed

  /** How far a deploy is. A waited-for deploy has no row. */
  datatype Pc =
    | Idle
    | Claimed(app: nat, kind: Kind)
    | Working(app: nat, dep: Option<nat>)
    | Worked(app: nat, row: nat, ok: bool)
    | Closed(app: nat)
    | Leaving(app: nat)

  /** The deployments table in id order with its next id, the claimed apps, the threads, and whether
      the process is up. */
  datatype State = State(rows: seq<Row>, nextId: nat, claimed: set<nat>, pcs: map<nat, Pc>, up: bool)

  datatype Step =
    | Begin(t: nat, kind: Kind, app: nat)
    | OpenRow(t: nat, ok: bool)
    | Work(t: nat, ok: bool)
    | Finish(t: nat)
    | Prune(t: nat)
    | Release(t: nat)
    | Clear(app: nat)
    | Crash
    | Reap

  const KEEP: nat := 20

  // ---- the table ----

  /** The update FinishDeployment makes. */
  function Close(rows: seq<Row>, id: nat, status: Status): seq<Row> {
    seq(|rows|, i requires 0 <= i < |rows| => if rows[i].id == id then rows[i].(status := status) else rows[i])
  }

  /** ReapRunningDeployments. */
  function Reaped(rows: seq<Row>): seq<Row> {
    seq(|rows|, i requires 0 <= i < |rows| => if rows[i].status == Running then rows[i].(status := Failed) else rows[i])
  }

  /** ClearDeployments. */
  function Cleared(rows: seq<Row>, app: nat): seq<Row> {
    if rows == [] then []
    else
      var init, last := rows[..|rows| - 1], rows[|rows| - 1];
      if last.app == app && last.status != Running then Cleared(init, app) else Cleared(init, app) + [last]
  }

  /** PruneDeployments, keeping the newest `keep` rows of the app. */
  function Pruned(rows: seq<Row>, app: nat, keep: nat): seq<Row> {
    if rows == [] then []
    else
      var init, last := rows[..|rows| - 1], rows[|rows| - 1];
      if last.app != app then Pruned(init, app, keep) + [last]
      else if keep == 0 then Pruned(init, app, 0)
      else Pruned(init, app, keep - 1) + [last]
  }

  function OfApp(rows: seq<Row>, app: nat): seq<Row> {
    if rows == [] then []
    else
      var init, last := rows[..|rows| - 1], rows[|rows| - 1];
      OfApp(init, app) + if last.app == app then [last] else []
  }

  function Newest<T>(s: seq<T>, keep: nat): seq<T> {
    if |s| <= keep then s else s[|s| - keep..]
  }

  /** Pruning leaves an app its newest rows and no other app is touched; nothing is reordered. */
  lemma {:induction false} PrunedIs(rows: seq<Row>, app: nat, keep: nat, other: nat)
    ensures OfApp(Pruned(rows, app, keep), app) == Newest(OfApp(rows, app), keep)
    ensures other != app ==> OfApp(Pruned(rows, app, keep), other) == OfApp(rows, other)
  {
    hide OfApp, Newest;
    if rows == [] {
      NoneOfApp(app, keep);
      NoneOfApp(other, keep);
    } else {
      var init, last := rows[..|rows| - 1], rows[|rows| - 1];
      var k := if last.app == app && keep > 0 then keep - 1 else keep;
      PrunedIs(init, app, k, other);
      var p := Pruned(init, app, k);
      OfAppSnoc(p, last, app);
      OfAppSnoc(p, last, other);
      assert rows == init + [last];
      OfAppSnoc(init, last, app);
      OfAppSnoc(init, last, other);
      NewestSnoc(OfApp(init, app), last, k);
    }
  }

  lemma NoneOfApp(app: nat, keep: nat)
    ensures OfApp([], app) == [] && Newest<Row>([], keep) == []
  {
  }

  lemma OfAppSnoc(rows: seq<Row>, r: Row, app: nat)
    ensures OfApp(rows + [r], app) == if r.app == app then OfApp(rows, app) + [r] else OfApp(rows, app)
  {
    assert (rows + [r])[..|rows|] == rows;
  }

  lemma NewestSnoc<T>(s: seq<T>, x: T, keep: nat)
    ensures Newest(s + [x], keep + 1) == Newest(s, keep) + [x]
    ensures Newest(s + [x], 0) == Newest(s, 0) == []
  {
  }

  // ---- the steps ----

  function At(s: State, t: nat): Pc {
    if t in s.pcs then s.pcs[t] else Idle
  }

  function Go(s: State, t: nat, pc: Pc): State {
    s.(pcs := s.pcs[t := pc])
  }

  /** The app a deploy stands on. */
  function AppOf(pc: Pc): Option<nat> {
    if pc.Idle? then None else Some(pc.app)
  }

  /** The row a deploy will close. */
  function DepOf(pc: Pc): Option<nat> {
    match pc
    case Working(_, dep) => dep
    case Worked(_, dep, _) => Some(dep)
    case _ => None
  }

  function Opened(s: State, t: nat, app: nat): State {
    Go(s, t, Working(app, Some(s.nextId))).(rows := s.rows + [Row(s.nextId, app, Running)], nextId := s.nextId + 1)
  }

  /** One step of one thread, or None where the thread is not at that step. A claim on a claimed app
      is refused, which changes nothing. */
  function Next(s: State, step: Step): Option<State> {
    match step
    case Begin(t, kind, app) =>
      if !s.up || !At(s, t).Idle? then None
      else if app in s.claimed then Some(s)
      else Some(Go(s, t, Claimed(app, kind)).(claimed := s.claimed + {app}))
    case OpenRow(t, ok) =>
      (match At(s, t)
       case Claimed(app, kind) =>
         if kind == Waited then Some(Go(s, t, Working(app, None)))
         else if !ok then Some(Go(s, t, Leaving(app)))
         else Some(Opened(s, t, app))
       case _ => None)
    case Work(t, ok) =>
      (match At(s, t)
       case Working(app, dep) => Some(Go(s, t, if dep.Some? then Worked(app, dep.value, ok) else Leaving(app)))
       case _ => None)
    case Finish(t) =>
      (match At(s, t)
       case Worked(app, dep, ok) =>
         Some(Go(s, t, Closed(app)).(rows := Close(s.rows, dep, if ok then Succeeded else Failed)))
       case _ => None)
    case Prune(t) =>
      (match At(s, t)
       case Closed(app) => Some(Go(s, t, Leaving(app)).(rows := Pruned(s.rows, app, KEEP)))
       case _ => None)
    case Release(t) =>
      (match At(s, t)
       case Leaving(app) => Some(Go(s, t, Idle).(claimed := s.claimed - {app}))
       case _ => None)
    case Clear(app) => if s.up then Some(s.(rows := Cleared(s.rows, app))) else None
    case Crash => Some(s.(up := false, pcs := map[], claimed := {}))
    case Reap => if s.up then None else Some(s.(up := true, rows := Reaped(s.rows)))
  }

  ghost predicate Init(s: State) {
    s == State([], 1, {}, map[], true)
  }

  ghost predicate Execution(run: seq<State>, steps: seq<Step>) {
    && |run| == |steps| + 1
    && Init(run[0])
    && forall i :: 0 <= i < |steps| ==> Moves(run[i], steps[i], run[i + 1])
  }

  ghost predicate Moves(s: State, step: Step, s': State) {
    Next(s, step) == Some(s')
  }

  // ---- what every state keeps ----

  ghost predicate Ids(rows: seq<Row>, nextId: nat) {
    && (forall i, j :: 0 <= i < j < |rows| ==> rows[i].id < rows[j].id)
    && (forall i :: 0 <= i < |rows| ==> rows[i].id < nextId)
  }

  /** A claim is a thread's, and no app has two. */
  ghost predicate ClaimsAreThreads(s: State) {
    && (forall t: nat :: AppOf(At(s, t)).Some? ==> AppOf(At(s, t)).value in s.claimed)
    && (forall app :: app in s.claimed ==> exists t: nat :: AppOf(At(s, t)) == Some(app))
    && (forall t: nat, u: nat :: AppOf(At(s, t)).Some? && AppOf(At(s, t)) == AppOf(At(s, u)) ==> t == u)
    && (!s.up ==> s.pcs == map[])
  }

  /** The thread at work on a row. */
  ghost predicate Owns(s: State, t: nat, r: Row) {
    DepOf(At(s, t)) == Some(r.id) && AppOf(At(s, t)) == Some(r.app)
  }

  ghost predicate RunningOwned(s: State) {
    s.up ==> forall r :: r in s.rows && r.status == Running ==> exists t: nat :: Owns(s, t, r)
  }

  ghost predicate DepsRunning(s: State) {
    forall t: nat :: DepOf(At(s, t)).Some? ==> Row(DepOf(At(s, t)).value, At(s, t).app, Running) in s.rows
  }

  ghost predicate Inv(s: State) {
    Ids(s.rows, s.nextId) && ClaimsAreThreads(s) && RunningOwned(s) && DepsRunning(s)
  }

  lemma IdsSnoc(init: seq<Row>, last: Row, nextId: nat)
    requires Ids(init, nextId) && last.id < nextId && forall r :: r in init ==> r.id < last.id
    ensures Ids(init + [last], nextId)
    ensures forall r :: r in init + [last] <==> r in init || r == last
  {
    var rows := init + [last];
    forall i, j | 0 <= i < j < |rows| ensures rows[i].id < rows[j].id {
      assert rows[i] == init[i] && init[i] in init;
    }
  }

  lemma {:induction false} ClearedKeeps(rows: seq<Row>, app: nat, nextId: nat)
    requires Ids(rows, nextId)
    ensures Ids(Cleared(rows, app), nextId)
    ensures forall r :: r in Cleared(rows, app) <==> r in rows && !(r.app == app && r.status != Running)
  {
    if rows != [] {
      hide Ids;
      var init, last := rows[..|rows| - 1], rows[|rows| - 1];
      assert forall r :: r in rows <==> r in init || r == last;
      ClearedKeeps(init, app, nextId);
      IdsSnoc(Cleared(init, app), last, nextId);
    }
  }

  lemma {:induction false} PrunedKeeps(rows: seq<Row>, app: nat, keep: nat, nextId: nat)
    requires Ids(rows, nextId)
    ensures Ids(Pruned(rows, app, keep), nextId)
    ensures forall r :: r in Pruned(rows, app, keep) ==> r in rows
    ensures forall r :: r in rows && r.app != app ==> r in Pruned(rows, app, keep)
  {
    if rows != [] {
      hide Ids;
      var init, last := rows[..|rows| - 1], rows[|rows| - 1];
      var k := if last.app == app && keep > 0 then keep - 1 else keep;
      PrunedKeeps(init, app, k, nextId);
      IdsSnoc(Pruned(init, app, k), last, nextId);
    }
  }

  lemma OneRow(rows: seq<Row>, nextId: nat, r: Row, q: Row)
    requires Ids(rows, nextId) && r in rows && q in rows && r.id == q.id
    ensures r == q
  {
    var i :| 0 <= i < |rows| && rows[i] == r;
    var j :| 0 <= j < |rows| && rows[j] == q;
  }

  lemma ClosedRows(rows: seq<Row>, nextId: nat, id: nat, status: Status)
    requires Ids(rows, nextId)
    ensures Ids(Close(rows, id, status), nextId)
    ensures forall r :: r in Close(rows, id, status) ==> if r.id == id then r.status == status else r in rows
    ensures forall r :: r in rows ==> (if r.id == id then r.(status := status) else r) in Close(rows, id, status)
  {
    var c := Close(rows, id, status);
    forall r: Row | r in rows ensures (if r.id == id then r.(status := status) else r) in c {
      var i :| 0 <= i < |rows| && rows[i] == r;
      assert c[i] == if r.id == id then r.(status := status) else r;
    }
  }

  lemma ReapedRows(rows: seq<Row>, nextId: nat)
    requires Ids(rows, nextId)
    ensures Ids(Reaped(rows), nextId)
    ensures forall r :: r in Reaped(rows) ==> r.status != Running
  {
  }

  // ---- one step ----

  lemma ClaimsKept(s: State, step: Step)
    requires Inv(s) && Next(s, step).Some?
    ensures ClaimsAreThreads(Next(s, step).value)
  {
    hide Ids, RunningOwned, DepsRunning, Pruned, Cleared, Close, Reaped;
    var s' := Next(s, step).value;
    if step.Crash? {
      assert forall t: nat :: At(s', t) == Idle;
    } else if !step.Clear? && !step.Reap? {
      var t := step.t;
      assert forall u: nat :: u != t ==> At(s', u) == At(s, u);
      forall app | app in s'.claimed ensures exists u: nat :: AppOf(At(s', u)) == Some(app) {
        if app in s.claimed {
          var u: nat :| AppOf(At(s, u)) == Some(app);
          assert u != t || AppOf(At(s', t)) == Some(app);
          assert AppOf(At(s', u)) == Some(app);
        } else {
          assert AppOf(At(s', t)) == Some(app);
        }
      }
    } else {
      assert forall u: nat :: At(s', u) == At(s, u);
    }
  }

  lemma IdsKept(s: State, step: Step)
    requires Inv(s) && Next(s, step).Some?
    ensures Ids(Next(s, step).value.rows, Next(s, step).value.nextId)
  {
    hide Pruned, Cleared, Close, Reaped;
    match step {
      case Finish(t) => ClosedRows(s.rows, s.nextId, DepOf(At(s, t)).value, if At(s, t).ok then Succeeded else Failed);
      case Prune(t) => PrunedKeeps(s.rows, At(s, t).app, KEEP, s.nextId);
      case Clear(app) => ClearedKeeps(s.rows, app, s.nextId);
      case Reap => ReapedRows(s.rows, s.nextId);
      case _ =>
    }
  }

  /** No step takes away a running row: only the deploy that owns it, or a restart, gives it another
      status, and it stays in the table. */
  lemma RunningStays(s: State, step: Step, r: Row)
    requires Inv(s) && Next(s, step).Some? && r in s.rows && r.status == Running
    ensures var s' := Next(s, step).value;
      || r in s'.rows
      || (step.Finish? && Owns(s, step.t, r) && r.(status := if At(s, step.t).ok then Succeeded else Failed) in s'.rows)
      || (step.Reap? && r.(status := Failed) in s'.rows)
  {
    hide Pruned, Cleared, Close, Reaped, Ids;
    match step {
      case Finish(t) =>
        var dep := DepOf(At(s, t)).value;
        var status := if At(s, t).ok then Succeeded else Failed;
        ClosedRows(s.rows, s.nextId, dep, status);
        if r.id == dep {
          OneRow(s.rows, s.nextId, r, Row(dep, At(s, t).app, Running));
        }
      case Prune(t) =>
        PrunedKeeps(s.rows, At(s, t).app, KEEP, s.nextId);
        if s.up {
          var u: nat :| Owns(s, u, r);
          assert r.app != At(s, t).app;
        }
      case Clear(app) => ClearedKeeps(s.rows, app, s.nextId);
      case Reap =>
        var i :| 0 <= i < |s.rows| && s.rows[i] == r;
        ReapedAt(s.rows, i);
      case _ =>
    }
  }

  lemma ReapedAt(rows: seq<Row>, i: nat)
    requires i < |rows| && rows[i].status == Running
    ensures rows[i].(status := Failed) in Reaped(rows)
  {
    assert Reaped(rows)[i] == rows[i].(status := Failed);
  }

  lemma OwnersKept(s: State, step: Step)
    requires Inv(s) && Next(s, step).Some?
    ensures RunningOwned(Next(s, step).value)
  {
    hide Pruned, Cleared, Close, Reaped, DepsRunning;
    var s' := Next(s, step).value;
    if step.Reap? {
      ReapedRows(s.rows, s.nextId);
    } else if s'.up {
      forall r | r in s'.rows && r.status == Running ensures exists u: nat :: Owns(s', u, r) {
        RunningBefore(s, step, r);
        if r in s.rows {
          var u: nat :| Owns(s, u, r);
          assert Owns(s', u, r);
        } else {
          assert Owns(s', step.t, r);
        }
      }
    }
  }

  /** A running row was running before, and its deploy did not just finish, unless it was just opened. */
  lemma RunningBefore(s: State, step: Step, r: Row)
    requires Inv(s) && Next(s, step).Some? && !step.Reap?
    requires r in Next(s, step).value.rows && r.status == Running
    ensures r in s.rows ==> !(step.Finish? && DepOf(At(s, step.t)) == Some(r.id))
    ensures r !in s.rows ==> step.OpenRow? && Owns(Next(s, step).value, step.t, r)
  {
    hide Pruned, Cleared, Close, Reaped, DepsRunning, RunningOwned, ClaimsAreThreads;
    match step {
      case Finish(t) =>
        ClosedRows(s.rows, s.nextId, DepOf(At(s, t)).value, if At(s, t).ok then Succeeded else Failed);
      case Prune(t) => PrunedKeeps(s.rows, At(s, t).app, KEEP, s.nextId);
      case Clear(app) => ClearedKeeps(s.rows, app, s.nextId);
      case _ =>
    }
  }

  lemma DepsKept(s: State, step: Step)
    requires Inv(s) && Next(s, step).Some?
    ensures DepsRunning(Next(s, step).value)
  {
    hide Pruned, Cleared, Close, Reaped, RunningOwned;
    var s' := Next(s, step).value;
    forall u: nat | DepOf(At(s', u)).Some?
      ensures Row(DepOf(At(s', u)).value, At(s', u).app, Running) in s'.rows
    {
      if step.OpenRow? && u == step.t {
        assert s'.rows[|s.rows|] == Row(s.nextId, At(s', u).app, Running);
      } else {
        assert DepOf(At(s, u)) == DepOf(At(s', u)) && At(s, u).app == At(s', u).app;
        var r := Row(DepOf(At(s, u)).value, At(s, u).app, Running);
        RunningStays(s, step, r);
        assert AppOf(At(s, u)) == Some(r.app);
      }
    }
  }

  lemma {:induction false} EveryState(run: seq<State>, steps: seq<Step>, i: nat)
    requires Execution(run, steps) && i <= |steps|
    ensures Inv(run[i])
  {
    hide Next, Ids, ClaimsAreThreads, RunningOwned, DepsRunning;
    if i == 0 {
      InitHolds(run[0]);
    } else {
      EveryState(run, steps, i - 1);
      assert Moves(run[i - 1], steps[i - 1], run[i - 1 + 1]);
      var s, step := run[i - 1], steps[i - 1];
      IdsKept(s, step);
      ClaimsKept(s, step);
      OwnersKept(s, step);
      DepsKept(s, step);
    }
  }

  lemma InitHolds(s: State)
    requires Init(s)
    ensures Inv(s)
  {
    assert forall t: nat :: At(s, t) == Idle;
  }

  // ---- over every run ----

  /** At most one deploy of an app stands between its claim and its release. */
  lemma OneDeployPerApp(run: seq<State>, steps: seq<Step>, i: nat, t: nat, u: nat)
    requires Execution(run, steps) && i <= |steps|
    requires AppOf(At(run[i], t)).Some? && AppOf(At(run[i], t)) == AppOf(At(run[i], u))
    ensures t == u && AppOf(At(run[i], t)).value in run[i].claimed
  {
    hide Next;
    EveryState(run, steps, i);
  }

  /** While the process is up, a running row belongs to a claimed app, one thread is at work on it, and
      the app has no other. */
  lemma RunningRowIsClaimed(run: seq<State>, steps: seq<Step>, i: nat, r: Row)
    requires Execution(run, steps) && i <= |steps| && run[i].up && r in run[i].rows && r.status == Running
    ensures r.app in run[i].claimed
    ensures exists t: nat :: Owns(run[i], t, r) && forall u: nat :: Owns(run[i], u, r) ==> u == t
    ensures forall q :: q in run[i].rows && q.status == Running && q.app == r.app ==> q == r
  {
    hide Next;
    EveryState(run, steps, i);
    var s := run[i];
    var t: nat :| Owns(s, t, r);
    forall q | q in s.rows && q.status == Running && q.app == r.app ensures q == r {
      var u: nat :| Owns(s, u, q);
      OneRow(s.rows, s.nextId, q, r);
    }
  }

  /** Neither pruning, clearing, nor anything else but its own deploy's end and a restart touches a
      running row. */
  lemma RunningRowStays(run: seq<State>, steps: seq<Step>, i: nat, r: Row)
    requires Execution(run, steps) && i < |steps| && r in run[i].rows && r.status == Running
    ensures r in run[i + 1].rows
            || (steps[i].Finish? && Owns(run[i], steps[i].t, r))
            || steps[i].Reap?
    ensures exists q :: q in run[i + 1].rows && q.id == r.id && q.app == r.app
  {
    hide Next, Inv;
    EveryState(run, steps, i);
    assert Moves(run[i], steps[i], run[i + 1]);
    RunningStays(run[i], steps[i], r);
  }

  /** So every deploy that finishes finds its row open, and closes it with its outcome. */
  lemma FinishFindsItsRow(run: seq<State>, steps: seq<Step>, i: nat)
    requires Execution(run, steps) && i < |steps| && steps[i].Finish?
    ensures var pc := At(run[i], steps[i].t);
      && pc.Worked?
      && Row(pc.row, pc.app, Running) in run[i].rows
      && Row(pc.row, pc.app, if pc.ok then Succeeded else Failed) in run[i + 1].rows
      && forall r :: r in run[i].rows && r.id != pc.row ==> r in run[i + 1].rows
  {
    hide Inv;
    EveryState(run, steps, i);
    assert Moves(run[i], steps[i], run[i + 1]);
    FinishStep(run[i], steps[i].t);
  }

  lemma FinishStep(s: State, t: nat)
    requires Inv(s) && Next(s, Finish(t)).Some?
    ensures var pc, s' := At(s, t), Next(s, Finish(t)).value;
      && pc.Worked?
      && Row(pc.row, pc.app, Running) in s.rows
      && Row(pc.row, pc.app, if pc.ok then Succeeded else Failed) in s'.rows
      && forall r :: r in s.rows && r.id != pc.row ==> r in s'.rows
  {
    hide Close, RunningOwned, ClaimsAreThreads;
    var pc := At(s, t);
    var status := if pc.ok then Succeeded else Failed;
    ClosedRows(s.rows, s.nextId, pc.row, status);
    var r := Row(pc.row, pc.app, Running);
    assert r in s.rows && r.(status := status) == Row(pc.row, pc.app, status);
  }

  // ---- what the history holds after each step ----

  /** The rows of an app are those in the table with its id, oldest first. */
  lemma {:induction false} OfAppIs(rows: seq<Row>, app: nat, nextId: nat)
    requires Ids(rows, nextId)
    ensures forall r :: r in OfApp(rows, app) <==> r in rows && r.app == app
    ensures Ids(OfApp(rows, app), nextId)
  {
    if rows != [] {
      hide Ids;
      var init, last := rows[..|rows| - 1], rows[|rows| - 1];
      InitIds(rows, nextId);
      OfAppIs(init, app, nextId);
      IdsSnoc(OfApp(init, app), last, nextId);
      assert rows == init + [last];
    }
  }

  lemma InitIds(rows: seq<Row>, nextId: nat)
    requires rows != [] && Ids(rows, nextId)
    ensures var init, last := rows[..|rows| - 1], rows[|rows| - 1];
      Ids(init, nextId) && last.id < nextId && forall r :: r in init ==> r.id < last.id
  {
  }

  /** A deploy that prunes leaves its app the newest 20 rows, all of them where there are no more, in the
      order they had, and every other app all of its own. */
  lemma PruneLeaves(run: seq<State>, steps: seq<Step>, i: nat)
    requires Execution(run, steps) && i < |steps| && steps[i].Prune?
    ensures At(run[i], steps[i].t).Closed?
    ensures var app, before, after := At(run[i], steps[i].t).app, run[i].rows, run[i + 1].rows;
      var mine := OfApp(before, app);
      && OfApp(after, app) == (if |mine| <= 20 then mine else mine[|mine| - 20..])
      && (forall other: nat :: other != app ==> OfApp(after, other) == OfApp(before, other))
      && (forall r :: r in after ==> r in before)
      && (forall j, k :: 0 <= j < k < |after| ==> after[j].id < after[k].id)
  {
    hide Inv, Pruned, OfApp;
    EveryState(run, steps, i);
    EveryState(run, steps, i + 1);
    assert Moves(run[i], steps[i], run[i + 1]);
    IdsOf(run[i]);
    IdsOf(run[i + 1]);
    var app := At(run[i], steps[i].t).app;
    PrunedKeeps(run[i].rows, app, KEEP, run[i].nextId);
    PrunedIs(run[i].rows, app, KEEP, app);
    forall other: nat | other != app ensures OfApp(run[i + 1].rows, other) == OfApp(run[i].rows, other) {
      PrunedIs(run[i].rows, app, KEEP, other);
    }
  }

  lemma IdsOf(s: State)
    requires Inv(s)
    ensures Ids(s.rows, s.nextId)
  {
  }

  /** Clearing an app's history leaves exactly the rows of other apps and the app's running one, in the
      order they had. */
  lemma ClearLeaves(run: seq<State>, steps: seq<Step>, i: nat, app: nat)
    requires Execution(run, steps) && i < |steps| && steps[i] == Clear(app)
    ensures forall r :: r in run[i + 1].rows <==> r in run[i].rows && (r.app != app || r.status == Running)
    ensures var after := run[i + 1].rows; forall j, k :: 0 <= j < k < |after| ==> after[j].id < after[k].id
  {
    hide Inv, Cleared;
    EveryState(run, steps, i);
    assert Moves(run[i], steps[i], run[i + 1]);
    IdsOf(run[i]);
    ClearedKeeps(run[i].rows, app, run[i].nextId);
  }

  /** The other steps take no row away: a restart fails the running ones, an opened row comes last under
      a new id, a finish changes the status of its own row, and nothing else changes any. */
  lemma OthersLeave(run: seq<State>, steps: seq<Step>, i: nat)
    requires Execution(run, steps) && i < |steps| && !steps[i].Prune? && !steps[i].Clear?
    ensures var s, step, before, after := run[i], steps[i], run[i].rows, run[i + 1].rows;
      && (step.Reap? ==>
        && |after| == |before|
        && forall k :: 0 <= k < |before| ==>
          after[k] == if before[k].status == Running then before[k].(status := Failed) else before[k])
      && (step.OpenRow? && step.ok && At(s, step.t).kind != Waited ==>
        after == before + [Row(s.nextId, At(s, step.t).app, Running)] && forall r :: r in before ==> r.id < s.nextId)
      && (step.Finish? ==>
        && |after| == |before|
        && forall k :: 0 <= k < |before| ==>
          after[k] == if before[k].id != At(s, step.t).row then before[k]
                      else before[k].(status := if At(s, step.t).ok then Succeeded else Failed))
      && (!step.Reap? && !step.Finish? && !(step.OpenRow? && step.ok && At(s, step.t).kind != Waited) ==>
        after == before)
  {
    hide Inv;
    EveryState(run, steps, i);
    assert Moves(run[i], steps[i], run[i + 1]);
    IdsOf(run[i]);
  }

  /** Between two steps the thread took none and the process stayed up. */
  ghost predicate Rested(steps: seq<Step>, i: nat, j: nat, t: nat) {
    forall k :: i <= k < j && k < |steps| ==> !IsOwn(steps[k], t) && !steps[k].Crash?
  }

  /** The step that brought a thread to where it is. */
  lemma {:induction false} LastOwn(run: seq<State>, steps: seq<Step>, i: nat, t: nat) returns (j: nat)
    requires Execution(run, steps) && i <= |steps| && !At(run[i], t).Idle?
    ensures j < i && Rested(steps, j + 1, i, t)
    ensures IsOwn(steps[j], t) || (steps[j].Begin? && steps[j].t == t)
    ensures At(run[j + 1], t) == At(run[i], t) != At(run[j], t)
  {
    hide Next;
    assert At(run[0], t) == Idle;
    var n := i - 1;
    assert Moves(run[n], steps[n], run[n + 1]);
    Mover(run[n], steps[n], t);
    if At(run[n], t) == At(run[i], t) {
      j := LastOwn(run, steps, n, t);
    } else {
      j := n;
    }
  }

  lemma Mover(s: State, step: Step, t: nat)
    requires Next(s, step).Some?
    ensures var s' := Next(s, step).value;
      !At(s', t).Idle? ==>
        && (At(s', t) != At(s, t) ==> IsOwn(step, t) || (step.Begin? && step.t == t))
        && (At(s', t) == At(s, t) ==> !IsOwn(step, t) && !step.Crash?)
  {
    hide Pruned, Close, Cleared, Reaped;
  }

  /** What a finish writes is the outcome of its own build, into the row its own deploy opened for the
      app it claimed, whatever other deploys did in between. */
  lemma OutcomeIsTheBuilds(run: seq<State>, steps: seq<Step>, i: nat) returns (b: nat, o: nat, w: nat)
    requires Execution(run, steps) && i < |steps| && steps[i].Finish?
    ensures b < o < w < i
    ensures var t, pc := steps[i].t, At(run[i], steps[i].t);
      && pc.Worked?
      && steps[b].Begin? && steps[b].t == t && steps[b].app == pc.app && steps[b].kind != Waited
      && steps[o] == OpenRow(t, true) && run[o].nextId == pc.row
      && run[o + 1].rows == run[o].rows + [Row(pc.row, pc.app, Running)]
      && steps[w] == Work(t, pc.ok)
      && Rested(steps, b + 1, o, t) && Rested(steps, o + 1, w, t) && Rested(steps, w + 1, i, t)
  {
    hide Pruned, Close, Cleared, Reaped;
    var t := steps[i].t;
    assert Moves(run[i], steps[i], run[i + 1]);
    w := LastOwn(run, steps, i, t);
    assert Moves(run[w], steps[w], run[w + 1]);
    o := LastOwn(run, steps, w, t);
    assert Moves(run[o], steps[o], run[o + 1]);
    b := LastOwn(run, steps, o, t);
    assert Moves(run[b], steps[b], run[b + 1]);
  }

  // ---- every claim is released once ----

  predicate Claims(s: State, step: Step, app: nat) {
    step.Begin? && step.app == app && s.up && At(s, step.t).Idle? && app !in s.claimed
  }

  predicate Releases(s: State, step: Step, app: nat) {
    step.Release? && At(s, step.t) == Leaving(app)
  }

  /** Claims of the app less releases of it, since the process last came up. */
  function Open(run: seq<State>, steps: seq<Step>, app: nat): int
    requires |run| == |steps| + 1
  {
    if steps == [] then 0
    else
      var n := |steps| - 1;
      if steps[n].Crash? then 0
      else
        Open(run[..n + 1], steps[..n], app)
        + (if Claims(run[n], steps[n], app) then 1 else 0) - (if Releases(run[n], steps[n], app) then 1 else 0)
  }

  /** An app is claimed exactly while one more claim than release has been made: claims and releases
      alternate, and nothing is released twice. */
  lemma {:induction false} ClaimsBalance(run: seq<State>, steps: seq<Step>, app: nat)
    requires Execution(run, steps)
    ensures Open(run, steps, app) == if app in run[|steps|].claimed then 1 else 0
    decreases |steps|
  {
    if steps != [] {
      var n := |steps| - 1;
      var run', steps' := run[..n + 1], steps[..n];
      forall i | 0 <= i < |steps'| ensures Moves(run'[i], steps'[i], run'[i + 1]) {
        assert Moves(run[i], steps[i], run[i + 1]);
      }
      ClaimsBalance(run', steps', app);
      EveryState(run, steps, n);
      assert Moves(run[n], steps[n], run[n + 1]);
      if !steps[n].Crash? {
        BalanceStep(run[n], steps[n], app);
      }
    }
  }

  lemma BalanceStep(s: State, step: Step, app: nat)
    requires Inv(s) && Next(s, step).Some? && !step.Crash?
    ensures (if app in Next(s, step).value.claimed then 1 else 0)
            == (if app in s.claimed then 1 else 0)
               + (if Claims(s, step, app) then 1 else 0) - (if Releases(s, step, app) then 1 else 0)
  {
    hide Pruned, Cleared, Close, Reaped, Ids, RunningOwned, DepsRunning;
    if step.Release? {
      assert AppOf(At(s, step.t)).Some?;
    }
  }

  /** How many steps of its own a deploy is from its release. */
  function Left(pc: Pc): nat {
    match pc
    case Idle => 0
    case Leaving(_) => 1
    case Closed(_) => 2
    case Worked(_, _, _) => 3
    case Working(_, _) => 4
    case Claimed(_, _) => 5
  }

  function OwnStep(t: nat, pc: Pc, ok: bool): Step {
    match pc
    case Claimed(_, _) => OpenRow(t, ok)
    case Working(_, _) => Work(t, ok)
    case Worked(_, _, _) => Finish(t)
    case Closed(_) => Prune(t)
    case _ => Release(t)
  }

  lemma OwnStepOpen(s: State, t: nat, ok: bool)
    requires !At(s, t).Idle?
    ensures Next(s, OwnStep(t, At(s, t), ok)).Some?
  {
    hide Pruned, Close;
  }

  /** How many of the steps are caller t's own. */
  function Own(steps: seq<Step>, t: nat): nat {
    if steps == [] then 0
    else
      var last := steps[|steps| - 1];
      Own(steps[..|steps| - 1], t) + if IsOwn(last, t) then 1 else 0
  }

  predicate IsOwn(step: Step, t: nat) {
    (step.OpenRow? || step.Work? || step.Finish? || step.Prune? || step.Release?) && step.t == t
  }

  /** Since step `i` the deploy was let go, by its own release or with the process. */
  ghost predicate LetGo(steps: seq<Step>, i: nat, j: nat, t: nat)
    requires i <= j <= |steps|
  {
    exists k :: i <= k < j && (steps[k] == Release(t) || steps[k].Crash?)
  }

  /** A deploy under way is never stuck, whatever the others do: until it is let go its next step is open
      to it, whether the row opens and the build works or not, and of its own steps it has taken no more
      than bring it to its release, which is at most five away. */
  lemma {:induction false} NeverStuck(run: seq<State>, steps: seq<Step>, i: nat, j: nat, t: nat)
    requires Execution(run, steps) && i <= j <= |steps| && !At(run[i], t).Idle?
    ensures LetGo(steps, i, j, t)
            || (!At(run[j], t).Idle?
                && Own(steps[i..j], t) + Left(At(run[j], t)) <= Left(At(run[i], t)) <= 5
                && forall ok :: Next(run[j], OwnStep(t, At(run[j], t), ok)).Some?)
    ensures Own(steps[i..j], t) >= Left(At(run[i], t)) ==> LetGo(steps, i, j, t)
    decreases j
  {
    hide Next, Left;
    LeftBounds(At(run[i], t));
    if i < j {
      var n := j - 1;
      NeverStuck(run, steps, i, n, t);
      assert steps[i..j][..n - i] == steps[i..n] && steps[i..j][n - i] == steps[n];
      if !LetGo(steps, i, j, t) {
        assert !LetGo(steps, i, n, t);
        assert Moves(run[n], steps[n], run[n + 1]);
        Nearer(run[n], steps[n], t);
      }
    }
    if !At(run[j], t).Idle? {
      LeftBounds(At(run[j], t));
      forall ok ensures Next(run[j], OwnStep(t, At(run[j], t), ok)).Some? {
        OwnStepOpen(run[j], t, ok);
      }
    }
  }

  lemma LeftBounds(pc: Pc)
    ensures Left(pc) <= 5 && (Left(pc) == 0 <==> pc.Idle?)
  {
  }

  /** Its own step brings a deploy nearer, another's leaves it where it is. */
  lemma Nearer(s: State, step: Step, t: nat)
    requires Next(s, step).Some? && !At(s, t).Idle? && step != Release(t) && !step.Crash?
    ensures var pc := At(Next(s, step).value, t);
      && !pc.Idle? && (IsOwn(step, t) ==> Left(pc) < Left(At(s, t))) && (!IsOwn(step, t) ==> pc == At(s, t))
  {
    hide Pruned, Close, Cleared, Reaped;
  }
}
