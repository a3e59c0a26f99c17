/** The reconciler as threads over shared state (internal/platform/reconcile.go): whoever changes the database
    calls Sync, a loop retries while routing is down, and one lock covers the reads, the push and the flag. */
module Reconciler {
  import opened Routes
  import opened Wrappers

  datatype Db = Db(infos: seq<Info>, endpoints: seq<Endpoint>)

  /** Where a thread is in Sync. A read is recorded as the number of the database version it saw. */
  datatype Pc =
    | Idle
    | Waiting
    | Locked
    | Reading
    | HasRoutes(routesAt: nat)
    | Ready(seen: Seen)
    | Pushed(ok: bool)
    | Leaving

  /** The versions a configuration was built from; `whole` is false when the endpoints could not be
      read and were left out. */
  datatype Seen = Seen(routesAt: nat, endpointsAt: nat, whole: bool)

  /** `history` is every version of the database, the current one last. `live` is what Caddy serves.
      `lastOk`, `pushed` and `sound` only record the run: whether the last attempted push succeeded,
      what the last successful one was built from, and whether the last Sync that read the database
      could read all of it. */
  datatype State = State(self: string, history: seq<Db>, pcs: map<nat, Pc>, lock: Option<nat>, enabled: bool,
                         live: seq<Route>, lastOk: bool, pushed: Seen, sound: bool)

  datatype Step =
    | Mutate(t: nat, db: Db)
    | Call(t: nat)
    | Retry(t: nat)
    | Acquire(t: nat)
    | Probe(t: nat, reachable: bool)
    | ReadRoutes(t: nat, ok: bool)
    | ReadEndpoints(t: nat, ok: bool)
    | Push(t: nat, ok: bool, left: seq<Route>)
    | Store(t: nat)
    | Release(t: nat)

  function At(s: State, t: nat): Pc {
    if t in s.pcs then s.pcs[t] else Idle
  }

  function Go(s: State, t: nat, pc: Pc): State {
    s.(pcs := s.pcs[t := pc])
  }

  function Latest(s: State): int {
    |s.history| - 1
  }

  /** The configuration built from what was read. */
  function Built(s: State, r: Seen): seq<Route>
    requires r.routesAt < |s.history| && r.endpointsAt < |s.history|
  {
    Config(s.history[r.routesAt].infos, if r.whole then s.history[r.endpointsAt].endpoints else [], s.self)
  }

  ghost predicate Init(s: State) {
    |s.history| == 1 && s.pcs == map[] && s.lock == None && !s.enabled && !s.lastOk && s.sound
    && s.pushed == Seen(0, 0, true)
  }

  /** One step of one thread, or None where the thread is not at that step. A failed push leaves Caddy
      with anything at all. */
  function Next(s: State, step: Step): Option<State>
    requires s.history != []
  {
    var t := step.t;
    match (step, At(s, t))
    case (Mutate(_, db), Idle) => Some(Go(s, t, Waiting).(history := s.history + [db]))
    case (Mutate(_, db), Waiting) => Some(s.(history := s.history + [db]))
    case (Call(_), Idle) => Some(Go(s, t, Waiting))
    case (Retry(_), Idle) => if s.enabled then None else Some(Go(s, t, Waiting))
    case (Acquire(_), Waiting) => if s.lock.Some? then None else Some(Go(s, t, Locked).(lock := Some(t)))
    case (Probe(_, reachable), Locked) => Some(Go(s, t, if !s.enabled && !reachable then Leaving else Reading))
    case (ReadRoutes(_, ok), Reading) =>
      Some(if ok then Go(s, t, HasRoutes(|s.history| - 1)) else Go(s, t, Leaving).(sound := false))
    case (ReadEndpoints(_, ok), HasRoutes(at)) =>
      Some(Go(s, t, Ready(Seen(at, |s.history| - 1, ok))).(sound := ok))
    case (Push(_, ok, left), Ready(seen)) =>
      if seen.routesAt >= |s.history| || seen.endpointsAt >= |s.history| then None
      else
        var s' := Go(s, t, Pushed(ok)).(lastOk := ok);
        Some(if ok then s'.(live := Built(s, seen), pushed := seen) else s'.(live := left))
    case (Store(_), Pushed(ok)) => Some(Go(s, t, Leaving).(enabled := ok))
    case (Release(_), Leaving) => Some(Go(s, t, Idle).(lock := None))
    case _ => None
  }

  /** Every interleaving is one of these: the states passed through and the steps between them. */
  ghost predicate Execution(run: seq<State>, steps: seq<Step>) {
    Path(run, steps) && Init(run[0])
  }

  ghost predicate Path(run: seq<State>, steps: seq<Step>) {
    |run| == |steps| + 1 && forall i :: 0 <= i < |steps| ==> Moves(run[i], steps[i], run[i + 1])
  }

  ghost predicate Moves(s: State, step: Step, s': State) {
    s.history != [] && Next(s, step) == Some(s')
  }

  /** Whether the last push attempted in `steps` succeeded. */
  predicate LastPushOk(steps: seq<Step>) {
    steps != []
    && var last := steps[|steps| - 1];
       if last.Push? then last.ok else LastPushOk(steps[..|steps| - 1])
  }

  /** Whether the last Sync in `steps` that read the database read all of it. */
  predicate LastReadWhole(steps: seq<Step>) {
    steps == []
    || var last := steps[|steps| - 1];
       if last.ReadEndpoints? || (last.ReadRoutes? && !last.ok) then last.ok
       else LastReadWhole(steps[..|steps| - 1])
  }

  /** How many times the database changed. */
  function Versions(steps: seq<Step>): nat {
    if steps == [] then 0 else Versions(steps[..|steps| - 1]) + if steps[|steps| - 1].Mutate? then 1 else 0
  }

  /** The version the last good read of the routes saw. */
  function RoutesSeen(steps: seq<Step>): nat {
    if steps == [] then 0
    else
      var init, last := steps[..|steps| - 1], steps[|steps| - 1];
      if last.ReadRoutes? && last.ok then Versions(init) else RoutesSeen(init)
  }

  /** The versions the last pair of reads saw. */
  function ReadsSaw(steps: seq<Step>): Seen {
    if steps == [] then Seen(0, 0, true)
    else
      var init, last := steps[..|steps| - 1], steps[|steps| - 1];
      if last.ReadEndpoints? then Seen(RoutesSeen(init), Versions(init), last.ok) else ReadsSaw(init)
  }

  /** The versions the last good push was made from. */
  function PushSaw(steps: seq<Step>): Seen {
    if steps == [] then Seen(0, 0, true)
    else
      var init, last := steps[..|steps| - 1], steps[|steps| - 1];
      if last.Push? && last.ok then ReadsSaw(init) else PushSaw(init)
  }

  predicate Quiet(s: State) {
    forall t :: t in s.pcs ==> s.pcs[t] == Idle
  }

  // ---- what every state keeps ----

  predicate Holding(pc: Pc) {
    !pc.Idle? && !pc.Waiting?
  }

  predicate ToRead(pc: Pc) {
    pc.Waiting? || pc.Locked? || pc.Reading? || pc.HasRoutes? || pc.Ready?
  }

  ghost predicate SomebodyWaits(s: State) {
    exists t: nat :: At(s, t) == Waiting
  }

  ghost predicate SomebodyReads(s: State) {
    exists t: nat :: ToRead(At(s, t))
  }

  ghost predicate OneHolder(s: State) {
    forall t: nat :: Holding(At(s, t)) <==> s.lock == Some(t)
  }

  /** The flag is the outcome of the last attempted push, but for the moment between the two. */
  ghost predicate FlagTrue(s: State) {
    && (s.lock.Some? && At(s, s.lock.value).Pushed? ==> At(s, s.lock.value).ok == s.lastOk)
    && (!(s.lock.Some? && At(s, s.lock.value).Pushed?) ==> s.enabled == s.lastOk)
  }

  ghost predicate ReadsOrdered(s: State) {
    s.pushed.routesAt <= s.pushed.endpointsAt <= Latest(s) && forall t: nat :: Ordered(s, At(s, t))
  }

  /** What a thread there has read is no older than what was pushed. */
  ghost predicate Ordered(s: State, pc: Pc) {
    match pc
    case HasRoutes(at) => s.pushed.endpointsAt <= at <= Latest(s)
    case Ready(r) => s.pushed.endpointsAt <= r.routesAt <= r.endpointsAt <= Latest(s) && r.whole == s.sound
    case _ => true
  }

  /** What was read is current, or somebody is waiting to read again. */
  ghost predicate ReadsFresh(s: State) {
    forall t: nat ::
      match At(s, t)
      case HasRoutes(at) => at == Latest(s) || SomebodyWaits(s)
      case Ready(r) => (r.routesAt == Latest(s) && r.endpointsAt == Latest(s)) || SomebodyWaits(s)
      case _ => true
  }

  ghost predicate LiveIsBuilt(s: State)
    requires ReadsOrdered(s)
  {
    s.lastOk ==> s.live == Built(s, s.pushed)
  }

  ghost predicate LiveFresh(s: State) {
    s.lastOk && s.sound ==>
      (s.pushed.whole && s.pushed.routesAt == Latest(s) && s.pushed.endpointsAt == Latest(s)) || SomebodyReads(s)
  }

  ghost predicate Inv(s: State) {
    s.history != [] && OneHolder(s) && FlagTrue(s) && ReadsOrdered(s) && ReadsFresh(s) && LiveIsBuilt(s) && LiveFresh(s)
  }

  lemma HolderKept(s: State, step: Step)
    requires Inv(s) && Next(s, step).Some?
    ensures OneHolder(Next(s, step).value) && FlagTrue(Next(s, step).value)
  {
    hide Built, Config, LiveIsBuilt, LiveFresh, ReadsFresh, ReadsOrdered;
    var t, s' := step.t, Next(s, step).value;
    assert forall u: nat :: u != t ==> At(s', u) == At(s, u);
    assert Holding(At(s, t)) <==> s.lock == Some(t);
  }

  /** The other threads stay where they are, so whoever waited or was about to read still does,
      unless it is the one that moved. */
  lemma OthersStay(s: State, step: Step)
    requires Inv(s) && Next(s, step).Some?
    ensures SomebodyWaits(s) && !step.Acquire? ==> SomebodyWaits(Next(s, step).value)
    ensures SomebodyReads(s) && !ToRead(At(s, step.t)) ==> SomebodyReads(Next(s, step).value)
    ensures SomebodyWaits(Next(s, step).value) ==> SomebodyReads(Next(s, step).value)
    ensures step.Mutate? || step.Call? || step.Retry? ==> SomebodyWaits(Next(s, step).value)
  {
    hide Built, Config, LiveIsBuilt, LiveFresh, ReadsFresh, ReadsOrdered, FlagTrue, OneHolder;
    var t, s' := step.t, Next(s, step).value;
    assert forall u: nat :: u != t ==> At(s', u) == At(s, u);
    if SomebodyWaits(s) && !step.Acquire? {
      var u: nat :| At(s, u) == Waiting;
      assert At(s', u) == Waiting;
    }
    if SomebodyReads(s) && !ToRead(At(s, t)) {
      var u: nat :| ToRead(At(s, u));
      assert ToRead(At(s', u));
    }
    if SomebodyWaits(s') {
      var u: nat :| At(s', u) == Waiting;
      assert ToRead(At(s', u));
    }
    if step.Mutate? || step.Call? || step.Retry? {
      assert At(s', t) == Waiting;
    }
  }

  lemma OrderKept(s: State, step: Step)
    requires Inv(s) && Next(s, step).Some?
    ensures ReadsOrdered(Next(s, step).value)
  {
    hide Built, Config, LiveIsBuilt, LiveFresh, FlagTrue, ReadsFresh, OneHolder, Ordered;
    var s' := Next(s, step).value;
    PushedOrdered(s, step);
    forall u: nat ensures Ordered(s', At(s', u)) {
      if u == step.t {
        MoverOrdered(s, step);
      } else {
        OtherOrdered(s, step, u);
      }
    }
  }

  lemma PushedOrdered(s: State, step: Step)
    requires Inv(s) && Next(s, step).Some?
    ensures var s' := Next(s, step).value; s'.pushed.routesAt <= s'.pushed.endpointsAt <= Latest(s')
  {
    hide Built, Config, LiveIsBuilt, LiveFresh, FlagTrue, ReadsFresh, OneHolder;
    assert Ordered(s, At(s, step.t));
  }

  lemma MoverOrdered(s: State, step: Step)
    requires Inv(s) && Next(s, step).Some?
    ensures var s' := Next(s, step).value; Ordered(s', At(s', step.t))
  {
    hide Built, Config, LiveIsBuilt, LiveFresh, FlagTrue, ReadsFresh, OneHolder;
    assert Ordered(s, At(s, step.t));
  }

  /** While one thread reads and pushes, no other is past its reads. */
  lemma OtherOrdered(s: State, step: Step, u: nat)
    requires Inv(s) && Next(s, step).Some? && u != step.t
    ensures var s' := Next(s, step).value; Ordered(s', At(s', u))
  {
    hide Built, Config, LiveIsBuilt, LiveFresh, FlagTrue, ReadsFresh;
    var t, s' := step.t, Next(s, step).value;
    assert At(s', u) == At(s, u) && Ordered(s, At(s, u));
    assert Holding(At(s, u)) <==> s.lock == Some(u);
    assert Holding(At(s, t)) <==> s.lock == Some(t);
  }

  lemma FreshKept(s: State, step: Step)
    requires Inv(s) && Next(s, step).Some?
    ensures ReadsFresh(Next(s, step).value)
  {
    hide Built, Config, LiveIsBuilt, LiveFresh, FlagTrue, SomebodyWaits, SomebodyReads;
    var t, s' := step.t, Next(s, step).value;
    OthersStay(s, step);
    forall u: nat
      ensures match At(s', u)
        case HasRoutes(at) => at == Latest(s') || SomebodyWaits(s')
        case Ready(r) => (r.routesAt == Latest(s') && r.endpointsAt == Latest(s')) || SomebodyWaits(s')
        case _ => true
    {
      assert u != t ==> At(s', u) == At(s, u);
      assert Holding(At(s, u)) <==> s.lock == Some(u);
      assert Holding(At(s, t)) <==> s.lock == Some(t);
    }
  }

  lemma LiveKept(s: State, step: Step)
    requires Inv(s) && Next(s, step).Some?
    ensures ReadsOrdered(Next(s, step).value)
    ensures LiveIsBuilt(Next(s, step).value) && LiveFresh(Next(s, step).value)
  {
    hide Config, SomebodyWaits, SomebodyReads;
    var t, s' := step.t, Next(s, step).value;
    OthersStay(s, step);
    OrderKept(s, step);
    assert forall i :: 0 <= i < |s.history| ==> s'.history[i] == s.history[i];
    assert Holding(At(s, t)) <==> s.lock == Some(t);
    if ToRead(At(s', t)) {
      ReaderThere(s', t);
    }
  }

  lemma ReaderThere(s: State, t: nat)
    requires ToRead(At(s, t))
    ensures SomebodyReads(s)
  {
  }

  lemma {:induction false} EveryState(run: seq<State>, steps: seq<Step>, i: nat)
    requires Execution(run, steps) && i <= |steps|
    ensures Inv(run[i])
    ensures run[i].lastOk == LastPushOk(steps[..i]) && run[i].sound == LastReadWhole(steps[..i])
  {
    hide Next, OneHolder, FlagTrue, ReadsFresh, LiveFresh, LiveIsBuilt;
    if i == 0 {
      InitHolds(run[0]);
    } else {
      EveryState(run, steps, i - 1);
      assert Moves(run[i - 1], steps[i - 1], run[i - 1 + 1]);
      var s, step := run[i - 1], steps[i - 1];
      HolderKept(s, step);
      OrderKept(s, step);
      FreshKept(s, step);
      LiveKept(s, step);
      Recorded(run[i - 1], steps[i - 1]);
      assert steps[..i][..i - 1] == steps[..i - 1];
    }
  }

  lemma InitHolds(s: State)
    requires Init(s)
    ensures Inv(s)
  {
    assert forall t: nat :: At(s, t) == Idle;
  }

  /** What the recording fields record. */
  lemma Recorded(s: State, step: Step)
    requires s.history != [] && Next(s, step).Some?
    ensures var s' := Next(s, step).value;
      && s'.lastOk == (if step.Push? then step.ok else s.lastOk)
      && s'.sound == (if step.ReadEndpoints? || (step.ReadRoutes? && !step.ok) then step.ok else s.sound)
  {
    hide Built;
  }

  lemma Advances(s: State, step: Step)
    requires Inv(s) && Next(s, step).Some?
    ensures var s' := Next(s, step).value;
      && s.history <= s'.history
      && s.pushed.endpointsAt <= s'.pushed.endpointsAt
      && (s'.pushed == s.pushed || s.pushed.endpointsAt <= s'.pushed.routesAt)
  {
    hide Built, OneHolder, FlagTrue, ReadsFresh, LiveFresh, LiveIsBuilt;
  }

  // ---- the promises ----

  /** Routing is reported live exactly while the last attempted push succeeded: the two differ only
      between a push and the store of its outcome, under the lock. */
  lemma EnabledIsLastPush(run: seq<State>, steps: seq<Step>, i: nat)
    requires Execution(run, steps) && i <= |steps|
    ensures run[i].enabled == LastPushOk(steps[..i])
            || (run[i].lock.Some? && At(run[i], run[i].lock.value) == Pushed(LastPushOk(steps[..i])))
  {
    hide Next;
    EveryState(run, steps, i);
  }

  /** Two Syncs never overlap. */
  lemma OneSyncAtATime(run: seq<State>, steps: seq<Step>, i: nat, t: nat, u: nat)
    requires Execution(run, steps) && i <= |steps|
    requires Holding(At(run[i], t)) && Holding(At(run[i], u))
    ensures t == u
  {
    hide Next;
    EveryState(run, steps, i);
  }

  /** No older read ever overwrites a newer one: what Caddy was last given was read entirely after
      anything it was given before. */
  lemma {:induction false} ReadsOnlyAdvance(run: seq<State>, steps: seq<Step>, i: nat, j: nat)
    requires Execution(run, steps) && i <= j <= |steps|
    ensures run[i].history <= run[j].history
    ensures run[j].pushed == run[i].pushed || run[i].pushed.endpointsAt <= run[j].pushed.routesAt
    ensures run[i].pushed.endpointsAt <= run[j].pushed.endpointsAt
    decreases j
  {
    hide Next, Inv;
    if i < j {
      ReadsOnlyAdvance(run, steps, i, j - 1);
      EveryState(run, steps, j - 1);
      assert Moves(run[j - 1], steps[j - 1], run[j - 1 + 1]);
      Advances(run[j - 1], steps[j - 1]);
    }
  }

  /** The numbers a state holds are the ones the steps so far tell. */
  ghost predicate Tells(s: State, steps: seq<Step>) {
    && Latest(s) == Versions(steps) && s.pushed == PushSaw(steps)
    && forall t: nat ::
         match At(s, t)
         case HasRoutes(at) => at == RoutesSeen(steps)
         case Ready(r) => r == ReadsSaw(steps)
         case _ => true
  }

  lemma TellsOn(s: State, steps: seq<Step>, step: Step)
    requires OneHolder(s) && Tells(s, steps) && s.history != [] && Next(s, step).Some?
    ensures Tells(Next(s, step).value, steps + [step])
  {
    hide Built, Versions, RoutesSeen, ReadsSaw, PushSaw;
    SnocTells(steps, step);
    TellsReads(s, steps, step);
  }

  lemma TellsReads(s: State, steps: seq<Step>, step: Step)
    requires OneHolder(s) && Tells(s, steps) && s.history != [] && Next(s, step).Some?
    ensures forall u: nat ::
              match At(Next(s, step).value, u)
              case HasRoutes(at) => at == RoutesSeen(steps + [step])
              case Ready(r) => r == ReadsSaw(steps + [step])
              case _ => true
  {
    hide Built, Versions, RoutesSeen, ReadsSaw, PushSaw;
    var t, s' := step.t, Next(s, step).value;
    SnocTells(steps, step);
    forall u: nat
      ensures match At(s', u)
        case HasRoutes(at) => at == RoutesSeen(steps + [step])
        case Ready(r) => r == ReadsSaw(steps + [step])
        case _ => true
    {
      assert u != t ==> At(s', u) == At(s, u);
      assert Holding(At(s, u)) <==> s.lock == Some(u);
      assert Holding(At(s, t)) <==> s.lock == Some(t);
    }
  }

  lemma SnocTells(steps: seq<Step>, step: Step)
    ensures Versions(steps + [step]) == Versions(steps) + if step.Mutate? then 1 else 0
    ensures RoutesSeen(steps + [step]) == if step.ReadRoutes? && step.ok then Versions(steps) else RoutesSeen(steps)
    ensures ReadsSaw(steps + [step])
            == if step.ReadEndpoints? then Seen(RoutesSeen(steps), Versions(steps), step.ok) else ReadsSaw(steps)
    ensures PushSaw(steps + [step]) == if step.Push? && step.ok then ReadsSaw(steps) else PushSaw(steps)
  {
    assert (steps + [step])[..|steps|] == steps;
  }

  lemma {:induction false} EveryStateTells(run: seq<State>, steps: seq<Step>, i: nat)
    requires Execution(run, steps) && i <= |steps|
    ensures Tells(run[i], steps[..i])
  {
    hide Next, Tells, Inv;
    if i == 0 {
      InitTells(run[0]);
      assert steps[..0] == [];
    } else {
      EveryStateTells(run, steps, i - 1);
      EveryState(run, steps, i - 1);
      assert Moves(run[i - 1], steps[i - 1], run[i - 1 + 1]);
      HoldersOf(run[i - 1]);
      TellsOn(run[i - 1], steps[..i - 1], steps[i - 1]);
      assert steps[..i] == steps[..i - 1] + [steps[i - 1]];
    }
  }

  lemma InitTells(s: State)
    requires Init(s)
    ensures Tells(s, [])
  {
  }

  lemma HoldersOf(s: State)
    requires Inv(s)
    ensures OneHolder(s)
  {
  }

  /** Once every Sync has finished, an enabled reconciler has Caddy serving what is built from the
      versions its last good push saw, and so the final database exactly when those amount to the same.
      It is enough that the last Sync that read the database could read all of it. */
  lemma QuietMeansLive(run: seq<State>, steps: seq<Step>, i: nat)
    requires Execution(run, steps) && i <= |steps| && Quiet(run[i])
    ensures run[i].enabled == LastPushOk(steps[..i])
    ensures var saw, history, self := PushSaw(steps[..i]), run[i].history, run[i].self;
      && |history| == Versions(steps[..i]) + 1 && saw.routesAt <= saw.endpointsAt < |history|
      && var db := history[|history| - 1];
         var endpoints := if saw.whole then history[saw.endpointsAt].endpoints else [];
         var served := Config(history[saw.routesAt].infos, endpoints, self);
         && (run[i].enabled ==> run[i].live == served)
         && (run[i].enabled ==>
               (run[i].live == Config(db.infos, db.endpoints, self)
                <==> served == Config(db.infos, db.endpoints, self)))
         && (run[i].enabled && LastReadWhole(steps[..i]) ==>
               saw == Seen(|history| - 1, |history| - 1, true) && run[i].live == Config(db.infos, db.endpoints, self))
  {
    hide Next, Config;
    EveryState(run, steps, i);
    EveryStateTells(run, steps, i);
    assert run[i].lock.Some? ==> Holding(At(run[i], run[i].lock.value));
  }

  // ---- one Sync on its own, and what a failed read leaves behind ----

  function SyncSteps(t: nat, whole: bool): seq<Step> {
    [Acquire(t), Probe(t, true), ReadRoutes(t, true), ReadEndpoints(t, whole), Push(t, true, []), Store(t), Release(t)]
  }

  /** The first half of an undisturbed Sync. */
  lemma ReadAlone(s: State, t: nat, whole: bool) returns (run: seq<State>)
    requires s.history != [] && At(s, t) == Waiting && s.lock == None
    ensures Path(run, SyncSteps(t, whole)[..4]) && run[0] == s
    ensures var r := run[4];
      && At(r, t) == Ready(Seen(Latest(s), Latest(s), whole))
      && r.history == s.history && r.self == s.self
      && forall u: nat :: u != t ==> At(r, u) == At(s, u)
  {
    var s1 := Go(s, t, Locked).(lock := Some(t));
    var s2 := Go(s1, t, Reading);
    var s3 := Go(s2, t, HasRoutes(Latest(s)));
    var s4 := Go(s3, t, Ready(Seen(Latest(s), Latest(s), whole))).(sound := whole);
    assert Moves(s, Acquire(t), s1);
    assert Moves(s1, Probe(t, true), s2);
    assert Moves(s2, ReadRoutes(t, true), s3);
    assert Moves(s3, ReadEndpoints(t, whole), s4);
    hide Next, Moves;
    run := [s, s1, s2, s3, s4];
  }

  /** The second half. */
  lemma PushAlone(s: State, t: nat, whole: bool, seen: Seen) returns (run: seq<State>)
    requires At(s, t) == Ready(seen) && seen.routesAt < |s.history| && seen.endpointsAt < |s.history|
    ensures Path(run, SyncSteps(t, whole)[4..]) && run[0] == s
    ensures var r := run[3];
      && r.enabled && r.lock == None && r.history == s.history && r.self == s.self && r.live == Built(s, seen)
      && forall u: nat :: At(r, u) == if u == t then Idle else At(s, u)
  {
    hide Built;
    var s5 := Go(s, t, Pushed(true)).(lastOk := true, live := Built(s, seen), pushed := seen);
    var s6 := Go(s5, t, Leaving).(enabled := true);
    var s7 := Go(s6, t, Idle).(lock := None);
    assert Moves(s5, Store(t), s6);
    assert Moves(s6, Release(t), s7);
    hide Next, Moves;
    run := [s, s5, s6, s7];
  }

  /** A Sync that finds Caddy up and the lock free turns routing on, and leaves Caddy with the
      database as it is (without the endpoints, when those could not be read). */
  lemma SyncAlone(s: State, t: nat, whole: bool) returns (run: seq<State>)
    requires s.history != [] && At(s, t) == Waiting && s.lock == None
    ensures Path(run, SyncSteps(t, whole)) && run[0] == s
    ensures var r := run[7];
      && r.enabled && r.lock == None && r.history == s.history && r.self == s.self
      && r.live == Built(s, Seen(Latest(s), Latest(s), whole))
      && forall u: nat :: At(r, u) == if u == t then Idle else At(s, u)
  {
    hide Built, Next, Moves;
    var seen := Seen(Latest(s), Latest(s), whole);
    var first := ReadAlone(s, t, whole);
    var second := PushAlone(first[4], t, whole, seen);
    BuiltSame(s, first[4], seen);
    assert SyncSteps(t, whole)[..4] + SyncSteps(t, whole)[4..] == SyncSteps(t, whole);
    run := first + second[1..];
  }

  lemma BuiltSame(s: State, s': State, seen: Seen)
    requires s.history == s'.history && s.self == s'.self
    requires seen.routesAt < |s.history| && seen.endpointsAt < |s.history|
    ensures Built(s, seen) == Built(s', seen)
  {
  }

  /** The first Sync after start-up. */
  lemma FirstSync(db: Db, self: string, whole: bool) returns (run: seq<State>, steps: seq<Step>)
    ensures Execution(run, steps) && steps == [Call(0)] + SyncSteps(0, whole)
    ensures var r := run[8];
      && r.enabled && r.lock == None && r.history == [db] && r.self == self
      && r.live == Config(db.infos, if whole then db.endpoints else [], self)
      && forall u: nat :: At(r, u) == Idle
  {
    hide Config;
    var s := State(self, [db], map[], None, false, [], false, Seen(0, 0, true), true);
    var s' := Go(s, 0, Waiting);
    assert Moves(s, Call(0), s') && Path([s, s'], [Call(0)]);
    var rest := SyncAlone(s', 0, whole);
    run, steps := [s, s'] + rest[1..], [Call(0)] + SyncSteps(0, whole);
  }

  /** Why the last read must be whole, for the endpoints: a Sync that cannot read them still pushes
      and still reports routing live, so unless there were none to publish, everything comes to rest
      enabled with Caddy not serving what the database says. */
  lemma EndpointErrorHides(db: Db, self: string) returns (run: seq<State>, steps: seq<Step>)
    requires Config(db.infos, db.endpoints, self) != Config(db.infos, [], self)
    ensures Execution(run, steps)
    ensures var r := run[|steps|];
      && Quiet(r) && r.enabled && r.history == [db] && r.self == self
      && r.live == Config(db.infos, [], self) != Config(db.infos, db.endpoints, self)
  {
    hide Config, Next, Moves;
    run, steps := FirstSync(db, self, false);
    IdleIsQuiet(run[8]);
  }

  /** And for the routes: a Sync that cannot read them leaves routing reported live with Caddy serving
      an older database. */
  lemma RouteErrorKeepsStale(before: Db, db: Db, self: string) returns (run: seq<State>, steps: seq<Step>)
    requires Config(db.infos, db.endpoints, self) != Config(before.infos, before.endpoints, self)
    ensures Execution(run, steps)
    ensures var r := run[|steps|];
      && Quiet(r) && r.enabled && r.history == [before, db] && r.self == self
      && r.live == Config(before.infos, before.endpoints, self) != Config(db.infos, db.endpoints, self)
  {
    hide Config, Next, Moves;
    run, steps := FirstSync(before, self, true);
    var more := Unread(run[8], db);
    IdleIsQuiet(more[5]);
    assert run[8].history + [db] == [before, db];
    run, steps := run + more[1..], steps + UnreadSteps(db);
  }

  function UnreadSteps(db: Db): seq<Step> {
    [Mutate(0, db), Acquire(0), Probe(0, true), ReadRoutes(0, false), Release(0)]
  }

  /** A change and the Sync after it, which cannot read the routes. */
  lemma Unread(s: State, db: Db) returns (run: seq<State>)
    requires s.history != [] && s.enabled && s.lock == None && forall u: nat :: At(s, u) == Idle
    ensures Path(run, UnreadSteps(db)) && run[0] == s
    ensures var r := run[5];
      && r.enabled && r.live == s.live && r.history == s.history + [db] && r.self == s.self
      && forall u: nat :: At(r, u) == Idle
  {
    var s1 := Go(s, 0, Waiting).(history := s.history + [db]);
    assert Moves(s, Mutate(0, db), s1);
    var s2, s3, s4, s5 := CannotRead(s1);
    assert forall u: nat :: u != 0 ==> At(s1, u) == At(s, u);
    hide Next, Moves;
    run := [s, s1, s2, s3, s4, s5];
  }

  lemma CannotRead(s1: State) returns (s2: State, s3: State, s4: State, s5: State)
    requires s1.history != [] && s1.enabled && s1.lock == None && At(s1, 0) == Waiting
    ensures Moves(s1, Acquire(0), s2) && Moves(s2, Probe(0, true), s3)
    ensures Moves(s3, ReadRoutes(0, false), s4) && Moves(s4, Release(0), s5)
    ensures s5.enabled && s5.live == s1.live && s5.history == s1.history && s5.self == s1.self
    ensures forall u: nat :: At(s5, u) == if u == 0 then Idle else At(s1, u)
  {
    s2 := Go(s1, 0, Locked).(lock := Some(0));
    s3 := Go(s2, 0, Reading);
    s4 := Go(s3, 0, Leaving).(sound := false);
    s5 := Go(s4, 0, Idle).(lock := None);
  }

  lemma IdleIsQuiet(s: State)
    requires forall u: nat :: At(s, u) == Idle
    ensures Quiet(s)
  {
    assert forall u: nat :: u in s.pcs ==> At(s, u) == s.pcs[u];
  }

  // ---- Sync itself ----

  datatype Done = Absent | ReadFailed | PushFailed | Live

  /** The reconciler with a caller inside: Sync, in the order it does things. */
  class Control {
    var s: State
    /** How it came to this state. */
    ghost var run: seq<State>
    ghost var steps: seq<Step>

    ghost predicate Valid()
      reads this
    {
      Path(run, steps) && run[|steps|] == s && s.history != []
    }

    constructor (s: State)
      requires s.history != []
      ensures Valid() && this.s == s && run == [s] && steps == []
    {
      this.s, run, steps := s, [s], [];
    }

    /** One step of the protocol. */
    method Do(step: Step)
      requires Valid() && Next(s, step).Some?
      modifies this
      ensures Valid() && s == Next(old(s), step).value
      ensures steps == old(steps) + [step] && old(run) <= run
    {
      hide Next;
      HistoryGrows(s, step);
      ghost var more := Next(s, step).value;
      assert Moves(s, step, more);
      assert Path([s, more], [step]);
      s := Next(s, step).value;
      assert [old(s), more][1..] == [more];
      run, steps := run + [more], steps + [step];
    }

    /** Sync, undisturbed: every way out releases the lock, and only a push that was attempted changes
        the flag. */
    method Sync(t: nat, reachable: bool, routesOk: bool, endpointsOk: bool, pushOk: bool, left: seq<Route>)
      returns (done: Done)
      requires Valid() && At(s, t) == Waiting && s.lock == None
      modifies this
      ensures Valid() && old(steps) <= steps && old(run) <= run
      ensures s.lock == None && s.history == old(s).history && At(s, t) == Idle
      ensures done == Absent <==> !old(s).enabled && !reachable
      ensures done == ReadFailed <==> (old(s).enabled || reachable) && !routesOk
      ensures done == PushFailed <==> (old(s).enabled || reachable) && routesOk && !pushOk
      ensures done in {Absent, ReadFailed} ==> s.enabled == old(s).enabled && s.live == old(s).live
      ensures done == PushFailed ==> !s.enabled && s.live == left
      ensures done == Live ==> s.enabled && s.live == Built(old(s), Seen(Latest(old(s)), Latest(old(s)), endpointsOk))
    {
      hide Config, Path, Moves, Built, Next;
      var go := Enter(t, reachable);
      if !go {
        return Absent;
      }
      var read := Read(t, routesOk, endpointsOk);
      if !read {
        return ReadFailed;
      }
      BuiltSame(old(s), s, Seen(Latest(s), Latest(s), endpointsOk));
      PushOut(t, pushOk, left);
      done := if pushOk then Live else PushFailed;
    }

    /** The start of Sync: take the lock, and leave again if Caddy is still absent. */
    method Enter(t: nat, reachable: bool) returns (go: bool)
      requires Valid() && At(s, t) == Waiting && s.lock == None
      modifies this
      ensures Valid() && old(steps) <= steps && old(run) <= run
      ensures go <==> old(s).enabled || reachable
      ensures s.history == old(s).history && s.enabled == old(s).enabled && s.live == old(s).live
              && s.self == old(s).self
      ensures if go then At(s, t) == Reading else s.lock == None && At(s, t) == Idle
    {
      hide Config, Path, Moves, Built;
      Do(Acquire(t));
      var probing := !s.enabled;
      Do(Probe(t, reachable));
      go := !(probing && !reachable);
      if !go {
        Do(Release(t));
      }
    }

    /** The reads. */
    method Read(t: nat, routesOk: bool, endpointsOk: bool) returns (ok: bool)
      requires Valid() && At(s, t) == Reading
      modifies this
      ensures Valid() && old(steps) <= steps && old(run) <= run && ok == routesOk
      ensures s.history == old(s).history && s.enabled == old(s).enabled && s.live == old(s).live
              && s.self == old(s).self
      ensures if ok then At(s, t) == Ready(Seen(Latest(s), Latest(s), endpointsOk))
              else s.lock == None && At(s, t) == Idle
    {
      hide Config, Path, Moves, Built;
      Do(ReadRoutes(t, routesOk));
      if !routesOk {
        Do(Release(t));
        return false;
      }
      Do(ReadEndpoints(t, endpointsOk));
      return true;
    }

    /** The end of Sync: push, store the outcome, release. */
    method PushOut(t: nat, pushOk: bool, left: seq<Route>)
      requires Valid() && At(s, t).Ready?
      requires At(s, t).seen.routesAt < |s.history| && At(s, t).seen.endpointsAt < |s.history|
      modifies this
      ensures Valid() && old(steps) <= steps && old(run) <= run
      ensures s.lock == None && s.history == old(s).history && At(s, t) == Idle && s.enabled == pushOk
      ensures s.live == if pushOk then Built(old(s), At(old(s), t).seen) else left
    {
      hide Config, Path, Moves;
      ghost var seen := At(s, t).seen;
      Do(Push(t, pushOk, left));
      BuiltSame(old(s), s, seen);
      Do(Store(t));
      Do(Release(t));
    }
  }

  lemma HistoryGrows(s: State, step: Step)
    requires s.history != [] && Next(s, step).Some?
    ensures Next(s, step).value.history != []
  {
  }
}
