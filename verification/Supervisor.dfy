/** Host processes as threads over shared state (internal/hostproc/hostproc.go): Starts, Stops, children that
    exit when they like, and the reaper each leaves behind. */
module Supervisor {
  import opened Wrappers

  /** How far a child's reaper is. */
  datatype Stage = Unborn | Waiting | Waited | Dropped | Closed

  /** `closes` counts how often the child's done channel was closed. */
  datatype Child = Child(id: nat, alive: bool, stage: Stage, closes: nat)

  /** Where a caller is; `starting` tells the Stop inside a Start from one on its own. */
  datatype Pc =
    | Idle
    | Looking(id: nat, starting: bool)
    | Awaiting(id: nat, p: nat, starting: bool)
    | Opening(id: nat)
    | Spawned(id: nat, p: nat)
    | Inserted(id: nat, p: nat)

  /** `serial` is a hypothesis: whether the callers keep the Starts of one app apart. Nothing in the
      supervisor makes them. */
  datatype State = State(serial: bool, children: map<nat, Child>, procs: map<nat, nat>, next: nat, pcs: map<nat, Pc>)

  datatype Step =
    | BeginStop(t: nat, id: nat)
    | BeginStart(t: nat, id: nat)
    | Look(t: nat)
    | Await(t: nat)
    | Spawn(t: nat, ok: bool)
    | Insert(t: nat)
    | Launch(t: nat)
    | Exit(p: nat)
    | Wait(p: nat)
    | Drop(p: nat)
    | Close(p: nat)

  function At(s: State, t: nat): Pc {
    if t in s.pcs then s.pcs[t] else Idle
  }

  function Go(s: State, t: nat, pc: Pc): State {
    s.(pcs := s.pcs[t := pc])
  }

  /** The app a caller is starting. */
  function StartOf(pc: Pc): Option<nat> {
    match pc
    case Idle => None
    case Looking(id, starting) => if starting then Some(id) else None
    case Awaiting(id, _, starting) => if starting then Some(id) else None
    case Opening(id) => Some(id)
    case Spawned(id, _) => Some(id)
    case Inserted(id, _) => Some(id)
  }

  predicate NobodyStarts(s: State, id: nat) {
    forall t :: t in s.pcs ==> StartOf(s.pcs[t]) != Some(id)
  }

  /** Where Stop returns to. */
  function Stopped(id: nat, starting: bool): Pc {
    if starting then Opening(id) else Idle
  }

  function Turn(s: State, p: nat, c: Child): State {
    s.(children := s.children[p := c])
  }

  /** One step of a caller, a child or a reaper, or None where it is not at that step. */
  function Next(s: State, step: Step): Option<State> {
    match step
    case BeginStop(t, id) => if At(s, t).Idle? then Some(Go(s, t, Looking(id, false))) else None
    case BeginStart(t, id) =>
      if At(s, t).Idle? && (s.serial ==> NobodyStarts(s, id)) then Some(Go(s, t, Looking(id, true))) else None
    case Look(t) =>
      (match At(s, t)
       case Looking(id, starting) =>
         Some(Go(s, t, if id in s.procs then Awaiting(id, s.procs[id], starting) else Stopped(id, starting)))
       case _ => None)
    case Await(t) =>
      (match At(s, t)
       case Awaiting(id, p, starting) =>
         if p in s.children && s.children[p].closes > 0 then Some(Go(s, t, Stopped(id, starting))) else None
       case _ => None)
    case Spawn(t, ok) =>
      (match At(s, t)
       case Opening(id) =>
         if !ok then Some(Go(s, t, Idle))
         else Some(Turn(Go(s, t, Spawned(id, s.next)), s.next, Child(id, true, Unborn, 0)).(next := s.next + 1))
       case _ => None)
    case Insert(t) =>
      (match At(s, t)
       case Spawned(id, p) => Some(Go(s, t, Inserted(id, p)).(procs := s.procs[id := p]))
       case _ => None)
    case Launch(t) =>
      (match At(s, t)
       case Inserted(_, p) =>
         if p !in s.children then None else Some(Turn(Go(s, t, Idle), p, s.children[p].(stage := Waiting)))
       case _ => None)
    case Exit(p) =>
      if p in s.children && s.children[p].alive then Some(Turn(s, p, s.children[p].(alive := false))) else None
    case Wait(p) =>
      if p in s.children && s.children[p].stage == Waiting && !s.children[p].alive
      then Some(Turn(s, p, s.children[p].(stage := Waited))) else None
    case Drop(p) =>
      if p in s.children && s.children[p].stage == Waited then
        var id := s.children[p].id;
        var s' := Turn(s, p, s.children[p].(stage := Dropped));
        Some(if id in s.procs && s.procs[id] == p then s'.(procs := s.procs - {id}) else s')
      else None
    case Close(p) =>
      if p in s.children && s.children[p].stage == Dropped
      then Some(Turn(s, p, s.children[p].(stage := Closed, closes := s.children[p].closes + 1))) else None
  }

  ghost predicate Init(s: State) {
    s.children == map[] && s.procs == map[] && s.pcs == map[]
  }

  ghost predicate Execution(run: seq<State>, steps: seq<Step>) {
    && |run| == |steps| + 1
    && Init(run[0])
    && forall i :: 0 <= i < |steps| ==> Moves(run[i], steps[i], run[i + 1])
  }

  ghost predicate Moves(s: State, step: Step, s': State) {
    Next(s, step) == Some(s')
  }

  // ---- what every state keeps, serial or not ----

  /** A reaper goes through its stages once: it is past waiting only for a dead child, and has closed
      the channel once exactly when it is done. */
  ghost predicate ReapersOrdered(s: State) {
    && (forall p :: p in s.children ==> p < s.next)
    && (forall p :: p in s.children && s.children[p].stage in {Waited, Dropped, Closed} ==> !s.children[p].alive)
    && (forall p :: p in s.children ==> s.children[p].closes == if s.children[p].stage == Closed then 1 else 0)
  }

  /** What the map holds is a child of that app that is not dropped. */
  ghost predicate EntriesReal(s: State) {
    forall id :: id in s.procs ==>
      var p := s.procs[id];
      p in s.children && s.children[p].id == id && s.children[p].stage in {Unborn, Waiting, Waited}
  }

  /** What callers refer to exists. */
  ghost predicate CallersReal(s: State) {
    forall t: nat ::
      match At(s, t)
      case Awaiting(id, p, _) => p in s.children && s.children[p].id == id
      case Spawned(id, p) =>
        p in s.children && s.children[p].id == id && s.children[p].stage == Unborn
          && (forall i :: i in s.procs ==> s.procs[i] != p)
      case Inserted(id, p) => p in s.children && s.children[p].id == id && s.children[p].stage == Unborn
      case _ => true
  }

  /** Two callers never hold one newborn child. */
  ghost predicate NewbornsApart(s: State) {
    forall t: nat, u: nat :: Newborn(At(s, t)).Some? && Newborn(At(s, t)) == Newborn(At(s, u)) ==> t == u
  }

  function Newborn(pc: Pc): Option<nat> {
    match pc
    case Spawned(_, p) => Some(p)
    case Inserted(_, p) => Some(p)
    case _ => None
  }

  ghost predicate Basic(s: State) {
    ReapersOrdered(s) && EntriesReal(s) && CallersReal(s) && NewbornsApart(s)
  }

  // ---- what every state keeps when Starts are kept apart ----

  ghost predicate StartsApart(s: State) {
    forall t: nat, u: nat :: StartOf(At(s, t)).Some? && StartOf(At(s, t)) == StartOf(At(s, u)) ==> t == u
  }

  /** A Start past its Stop finds the map empty at its app until it inserts. */
  ghost predicate RoomMade(s: State) {
    forall t: nat ::
      match At(s, t)
      case Awaiting(id, p, true) => id in s.procs ==> s.procs[id] == p
      case Opening(id) => id !in s.procs
      case Spawned(id, _) => id !in s.procs
      case Inserted(id, p) => id in s.procs && s.procs[id] == p
      case _ => true
  }

  /** A child not yet dropped is the one in the map, or some Start holds it. */
  ghost predicate ChildrenKnown(s: State) {
    forall p :: p in s.children ==>
      var c := s.children[p];
      && (c.stage in {Waiting, Waited} ==> c.id in s.procs && s.procs[c.id] == p)
      && (c.stage == Unborn ==> exists t: nat :: Newborn(At(s, t)) == Some(p))
  }

  ghost predicate Serial(s: State) {
    s.serial && StartsApart(s) && RoomMade(s) && ChildrenKnown(s)
  }

  // ---- one step ----

  /** Only the caller named by a step moves. */
  lemma OthersStay(s: State, step: Step, u: nat)
    requires Next(s, step).Some?
    requires step.Exit? || step.Wait? || step.Drop? || step.Close? || u != step.t
    ensures At(Next(s, step).value, u) == At(s, u)
  {
  }

  lemma ReapersKept(s: State, step: Step)
    requires Basic(s) && Next(s, step).Some?
    ensures ReapersOrdered(Next(s, step).value)
  {
    hide NewbornsApart, EntriesReal;
  }

  lemma EntriesKept(s: State, step: Step)
    requires Basic(s) && Next(s, step).Some?
    ensures EntriesReal(Next(s, step).value)
  {
    hide NewbornsApart;
    var s' := Next(s, step).value;
    forall id | id in s'.procs
      ensures var p := s'.procs[id];
        p in s'.children && s'.children[p].id == id && s'.children[p].stage in {Unborn, Waiting, Waited}
    {
      var p := s'.procs[id];
      if !(step.Insert? && At(s, step.t).id == id) {
        assert id in s.procs && s.procs[id] == p;
      }
    }
  }

  lemma CallersKept(s: State, step: Step)
    requires Basic(s) && Next(s, step).Some?
    ensures CallersReal(Next(s, step).value)
  {
    var s' := Next(s, step).value;
    forall u: nat
      ensures match At(s', u)
        case Awaiting(id, p, _) => p in s'.children && s'.children[p].id == id
        case Spawned(id, p) =>
          p in s'.children && s'.children[p].id == id && s'.children[p].stage == Unborn
            && (forall i :: i in s'.procs ==> s'.procs[i] != p)
        case Inserted(id, p) => p in s'.children && s'.children[p].id == id && s'.children[p].stage == Unborn
        case _ => true
    {
      if step.Exit? || step.Wait? || step.Drop? || step.Close? || u != step.t {
        OthersStay(s, step, u);
      }
      if step.Launch? && u != step.t {
        assert Newborn(At(s, u)).Some? ==> Newborn(At(s, u)) != Newborn(At(s, step.t));
      }
      if step.Insert? && u != step.t {
        assert Newborn(At(s, u)).Some? ==> Newborn(At(s, u)) != Newborn(At(s, step.t));
      }
    }
  }

  lemma NewbornsKept(s: State, step: Step)
    requires Basic(s) && Next(s, step).Some?
    ensures NewbornsApart(Next(s, step).value)
  {
    hide EntriesReal;
    var s' := Next(s, step).value;
    forall t: nat, u: nat | Newborn(At(s', t)).Some? && Newborn(At(s', t)) == Newborn(At(s', u)) ensures t == u {
      NewbornBefore(s, step, t);
      NewbornBefore(s, step, u);
    }
  }

  /** A newborn was one before, or has the next free number. */
  lemma NewbornBefore(s: State, step: Step, t: nat)
    requires Basic(s) && Next(s, step).Some?
    ensures var s' := Next(s, step).value;
      Newborn(At(s', t)).Some? ==>
        if step.Spawn? && step.t == t then Newborn(At(s', t)) == Some(s.next)
        else Newborn(At(s', t)) == Newborn(At(s, t)) && Newborn(At(s, t)).value < s.next
  {
    hide EntriesReal, NewbornsApart;
    if step.Exit? || step.Wait? || step.Drop? || step.Close? || t != step.t {
      OthersStay(s, step, t);
    }
  }

  lemma StartsKept(s: State, step: Step)
    requires Basic(s) && Serial(s) && Next(s, step).Some?
    ensures StartsApart(Next(s, step).value)
  {
    hide Basic, RoomMade, ChildrenKnown;
    var s' := Next(s, step).value;
    forall t: nat, u: nat | StartOf(At(s', t)).Some? && StartOf(At(s', t)) == StartOf(At(s', u)) ensures t == u {
      assert t in s.pcs ==> At(s, t) == s.pcs[t];
      assert u in s.pcs ==> At(s, u) == s.pcs[u];
    }
  }

  lemma RoomKept(s: State, step: Step)
    requires Basic(s) && Serial(s) && Next(s, step).Some?
    ensures RoomMade(Next(s, step).value)
  {
    var s' := Next(s, step).value;
    forall u: nat
      ensures match At(s', u)
        case Awaiting(id, p, true) => id in s'.procs ==> s'.procs[id] == p
        case Opening(id) => id !in s'.procs
        case Spawned(id, _) => id !in s'.procs
        case Inserted(id, p) => id in s'.procs && s'.procs[id] == p
        case _ => true
    {
      if step.Exit? || step.Wait? || step.Drop? || step.Close? || u != step.t {
        OthersStay(s, step, u);
      }
      if step.Insert? && u != step.t {
        assert StartOf(At(s, u)).Some? ==> StartOf(At(s, u)) != StartOf(At(s, step.t));
      }
    }
  }

  lemma KnownKept(s: State, step: Step)
    requires Basic(s) && Serial(s) && Next(s, step).Some?
    ensures ChildrenKnown(Next(s, step).value)
  {
    var s' := Next(s, step).value;
    forall p | p in s'.children
      ensures var c := s'.children[p];
        && (c.stage in {Waiting, Waited} ==> c.id in s'.procs && s'.procs[c.id] == p)
        && (c.stage == Unborn ==> exists t: nat :: Newborn(At(s', t)) == Some(p))
    {
      if step.Spawn? && p == s.next {
        assert Newborn(At(s', step.t)) == Some(p);
      } else if s'.children[p].stage == Unborn {
        var t: nat :| Newborn(At(s, t)) == Some(p);
        NewbornStays(s, step, t, p);
      } else if s'.children[p].stage in {Waiting, Waited} {
        WaitingMapped(s, step, p);
      }
    }
  }

  lemma NewbornStays(s: State, step: Step, t: nat, p: nat)
    requires Basic(s) && Next(s, step).Some? && Newborn(At(s, t)) == Some(p)
    requires p in Next(s, step).value.children && Next(s, step).value.children[p].stage == Unborn
    ensures Newborn(At(Next(s, step).value, t)) == Some(p)
  {
    hide ReapersOrdered, EntriesReal, NewbornsApart;
  }

  lemma WaitingMapped(s: State, step: Step, p: nat)
    requires Basic(s) && Serial(s) && Next(s, step).Some? && p in s.children
    requires p in Next(s, step).value.children && Next(s, step).value.children[p].stage in {Waiting, Waited}
    ensures var s' := Next(s, step).value; var id := s'.children[p].id; id in s'.procs && s'.procs[id] == p
  {
    hide StartsApart, NewbornsApart;
    assert step.Insert? ==> At(s, step.t).id !in s.procs;
  }

  lemma {:induction false} EveryState(run: seq<State>, steps: seq<Step>, i: nat)
    requires Execution(run, steps) && i <= |steps|
    ensures Basic(run[i]) && run[i].serial == run[0].serial
    ensures run[0].serial ==> Serial(run[i])
  {
    hide Next, ReapersOrdered, EntriesReal, CallersReal, NewbornsApart, StartsApart, RoomMade, ChildrenKnown;
    if i == 0 {
      InitHolds(run[0]);
    } else {
      EveryState(run, steps, i - 1);
      var s, step := run[i - 1], steps[i - 1];
      assert Moves(s, step, run[i - 1 + 1]);
      ReapersKept(s, step);
      EntriesKept(s, step);
      CallersKept(s, step);
      NewbornsKept(s, step);
      SerialStays(s, step);
      if s.serial {
        StartsKept(s, step);
        RoomKept(s, step);
        KnownKept(s, step);
      }
    }
  }

  lemma InitHolds(s: State)
    requires Init(s)
    ensures Basic(s) && (s.serial ==> Serial(s))
  {
    assert forall t: nat :: At(s, t) == Idle;
  }

  lemma SerialStays(s: State, step: Step)
    requires Next(s, step).Some?
    ensures Next(s, step).value.serial == s.serial
  {
  }

  // ---- which child the map holds, whatever overlaps ----

  /** A child that was put in the map and is not yet dropped. */
  ghost predicate IsIn(s: State, p: nat) {
    p in s.children
    && (s.children[p].stage in {Waiting, Waited} || exists t: nat :: At(s, t) == Inserted(s.children[p].id, p))
  }

  predicate IsMapped(s: State, p: nat) {
    p in s.children && s.children[p].id in s.procs && s.procs[s.children[p].id] == p
  }

  /** The step puts another child where `p` is. */
  predicate Overwrites(s: State, step: Step, p: nat) {
    step.Insert? && At(s, step.t).Spawned? && At(s, step.t).id in s.procs && s.procs[At(s, step.t).id] == p
  }

  ghost predicate Overwritten(run: seq<State>, steps: seq<Step>, i: nat, p: nat)
    requires |run| == |steps| + 1 && i <= |steps|
  {
    exists j :: 0 <= j < i && Overwrites(run[j], steps[j], p)
  }

  /** A child that is still to be put in. */
  ghost predicate ToCome(s: State, p: nat) {
    p !in s.children || exists t: nat :: At(s, t) == Spawned(s.children[p].id, p)
  }

  /** One step: what was put in stays in the map unless it is overwritten, and what is still to come was
      not overwritten. */
  lemma MappedKept(s: State, step: Step, p: nat, over: bool)
    requires Basic(s) && Next(s, step).Some?
    requires (ToCome(s, p) ==> !over) && (IsIn(s, p) ==> (IsMapped(s, p) <==> !over))
    ensures var s', over' := Next(s, step).value, over || Overwrites(s, step, p);
      (ToCome(s', p) ==> !over') && (IsIn(s', p) ==> (IsMapped(s', p) <==> !over'))
  {
    var s' := Next(s, step).value;
    if ToCome(s', p) {
      ComesLater(s, step, p);
    }
    if IsIn(s', p) {
      if IsIn(s, p) {
        StaysMapped(s, step, p);
      } else {
        ComesIn(s, step, p);
      }
    }
  }

  lemma ComesLater(s: State, step: Step, p: nat)
    requires Basic(s) && Next(s, step).Some? && ToCome(Next(s, step).value, p)
    ensures ToCome(s, p) && !Overwrites(s, step, p)
  {
    hide NewbornsApart;
    var s' := Next(s, step).value;
    if p in s'.children {
      var t: nat :| At(s', t) == Spawned(s'.children[p].id, p);
      if step.Exit? || step.Wait? || step.Drop? || step.Close? || t != step.t {
        OthersStay(s, step, t);
        assert At(s, t) == Spawned(s.children[p].id, p);
      }
    }
  }

  lemma StaysMapped(s: State, step: Step, p: nat)
    requires Basic(s) && Next(s, step).Some? && IsIn(s, p) && IsIn(Next(s, step).value, p)
    ensures IsMapped(Next(s, step).value, p) <==> IsMapped(s, p) && !Overwrites(s, step, p)
  {
    hide NewbornsApart, IsIn;
    if step.Insert? {
      var id := At(s, step.t).id;
      assert id in s.procs && s.procs[id] == p ==> s.children[p].id == id;
      SpawnedNotIn(s, step.t);
      InIsChild(s, p);
    } else if step == Drop(p) {
      DropTakesOut(s, p);
    } else {
      InIsChild(s, p);
    }
  }

  lemma InIsChild(s: State, p: nat)
    requires IsIn(s, p)
    ensures p in s.children
  {
  }

  lemma SpawnedNotIn(s: State, t: nat)
    requires Basic(s)
    ensures At(s, t).Spawned? ==> !IsIn(s, At(s, t).p)
  {
    if At(s, t).Spawned? {
      var p := At(s, t).p;
      assert s.children[p].stage == Unborn;
      forall u: nat ensures At(s, u) != Inserted(s.children[p].id, p) {
        assert Newborn(At(s, t)) == Some(p);
      }
    }
  }

  lemma DropTakesOut(s: State, p: nat)
    requires Basic(s) && Next(s, Drop(p)).Some?
    ensures !IsIn(Next(s, Drop(p)).value, p)
  {
    hide NewbornsApart;
    var s' := Next(s, Drop(p)).value;
    forall u: nat ensures At(s', u) != Inserted(s'.children[p].id, p) {
      OthersStay(s, Drop(p), u);
    }
  }

  lemma ComesIn(s: State, step: Step, p: nat)
    requires Basic(s) && Next(s, step).Some? && !IsIn(s, p) && IsIn(Next(s, step).value, p)
    ensures ToCome(s, p) && IsMapped(Next(s, step).value, p) && !Overwrites(s, step, p)
  {
    hide NewbornsApart;
    var s' := Next(s, step).value;
    if step.Launch? {
      var pc := At(s, step.t);
      assert pc == Inserted(s.children[pc.p].id, pc.p);
    }
    if t: nat :| At(s', t) == Inserted(s'.children[p].id, p) {
      if step.Exit? || step.Wait? || step.Drop? || step.Close? || t != step.t {
        OthersStay(s, step, t);
      } else {
        assert At(s, t) == Spawned(s.children[p].id, p);
      }
    }
  }

  /** A child that was put in the map and not yet dropped is the one a Stop of its app will find exactly
      when no Insert has put another in its place, in every run, overlapping Starts or not. */
  lemma {:induction false} MappedUnlessOverwritten(run: seq<State>, steps: seq<Step>, i: nat, p: nat)
    requires Execution(run, steps) && i <= |steps|
    ensures ToCome(run[i], p) ==> !Overwritten(run, steps, i, p)
    ensures IsIn(run[i], p) ==> (IsMapped(run[i], p) <==> !Overwritten(run, steps, i, p))
  {
    hide Next, Basic, IsIn, IsMapped, Overwrites, ToCome;
    if i == 0 {
      NothingIn(run[0], p);
    } else {
      MappedUnlessOverwritten(run, steps, i - 1, p);
      EveryState(run, steps, i - 1);
      assert Moves(run[i - 1], steps[i - 1], run[i - 1 + 1]);
      MappedKept(run[i - 1], steps[i - 1], p, Overwritten(run, steps, i - 1, p));
      OverwrittenSnoc(run, steps, i - 1, p);
    }
  }

  lemma OverwrittenSnoc(run: seq<State>, steps: seq<Step>, i: nat, p: nat)
    requires |run| == |steps| + 1 && i < |steps|
    ensures Overwritten(run, steps, i + 1, p) <==> Overwritten(run, steps, i, p) || Overwrites(run[i], steps[i], p)
  {
    hide Overwrites;
  }

  lemma NothingIn(s: State, p: nat)
    requires Init(s)
    ensures !IsIn(s, p)
  {
  }

  // ---- when an Insert overwrites ----

  /** Step `k` is caller t's look for what runs, at the beginning of a Start of app `id`. */
  predicate Looks(run: seq<State>, steps: seq<Step>, k: nat, t: nat, id: nat)
    requires |run| == |steps| + 1 && k < |steps|
  {
    steps[k] == Look(t) && At(run[k], t) == Looking(id, true)
  }

  predicate PastLook(pc: Pc, id: nat) {
    pc == Opening(id) || (pc.Awaiting? && pc.id == id && pc.starting) || (pc.Spawned? && pc.id == id)
  }

  /** From its look at step `k` on, caller t has been in that one Start of app `id`. */
  ghost predicate InStart(run: seq<State>, steps: seq<Step>, k: nat, i: nat, t: nat, id: nat)
    requires |run| == |steps| + 1 && i <= |steps|
  {
    k < i && Looks(run, steps, k, t, id) && forall l :: k < l <= i ==> PastLook(At(run[l], t), id)
  }

  /** Step `m` puts child `p` in the map. */
  predicate Inserts(run: seq<State>, steps: seq<Step>, m: nat, id: nat, p: nat)
    requires |run| == |steps| + 1 && m < |steps|
  {
    steps[m].Insert? && At(run[m], steps[m].t) == Spawned(id, p)
  }

  /** A caller past its look and not waiting for what the map holds looked before that came in. */
  ghost predicate LookedBefore(run: seq<State>, steps: seq<Step>, i: nat, t: nat, id: nat)
    requires |run| == |steps| + 1 && i <= |steps|
  {
    PastLook(At(run[i], t), id) ==>
      exists k: nat :: InStart(run, steps, k, i, t, id)
        && (id in run[i].procs && !(At(run[i], t).Awaiting? && At(run[i], t).p == run[i].procs[id]) ==>
              exists m: nat :: k < m < i && Inserts(run, steps, m, id, run[i].procs[id]))
  }

  lemma {:induction false} EveryLook(run: seq<State>, steps: seq<Step>, i: nat, t: nat, id: nat)
    requires Execution(run, steps) && i <= |steps|
    ensures LookedBefore(run, steps, i, t, id)
  {
    hide Next, Basic;
    if i > 0 && PastLook(At(run[i], t), id) {
      EveryLook(run, steps, i - 1, t, id);
      EveryState(run, steps, i - 1);
      var s, step, s' := run[i - 1], steps[i - 1], run[i];
      assert Moves(s, step, run[i - 1 + 1]);
      LookStep(s, step, t, id);
      if step == Look(t) {
        assert InStart(run, steps, i - 1, i, t, id);
      } else {
        var k: nat :| InStart(run, steps, k, i - 1, t, id)
          && (id in s.procs && !(At(s, t).Awaiting? && At(s, t).p == s.procs[id]) ==>
                exists m: nat :: k < m < i - 1 && Inserts(run, steps, m, id, s.procs[id]));
        assert InStart(run, steps, k, i, t, id);
        if id in s'.procs && !(id in s.procs && s.procs[id] == s'.procs[id]) {
          assert Inserts(run, steps, i - 1, id, s'.procs[id]);
        }
      }
    } else if i == 0 {
      NobodyYet(run[0]);
    }
  }

  /** One step of a caller past its look, or on its way there. */
  lemma LookStep(s: State, step: Step, t: nat, id: nat)
    requires Basic(s) && Next(s, step).Some? && PastLook(At(Next(s, step).value, t), id)
    ensures var s' := Next(s, step).value;
      if step == Look(t) then
        && At(s, t) == Looking(id, true)
        && (id in s'.procs ==> At(s', t).Awaiting? && At(s', t).p == s'.procs[id])
      else
        && PastLook(At(s, t), id)
        && (id in s'.procs && (id !in s.procs || s.procs[id] != s'.procs[id]) ==>
              step.Insert? && At(s, step.t) == Spawned(id, s'.procs[id]))
        && (id in s'.procs && id in s.procs && s.procs[id] == s'.procs[id] ==>
              (At(s, t).Awaiting? && At(s, t).p == s.procs[id] ==> At(s', t).Awaiting? && At(s', t).p == s.procs[id]))
  {
    hide NewbornsApart;
    if step.Exit? || step.Wait? || step.Drop? || step.Close? || t != step.t {
      OthersStay(s, step, t);
    }
  }

  /** An Insert overwrites a child only in a Start that looked before that child was put in: it is such
      Starts of one app that callers must keep apart. */
  lemma OverwriteLookedBefore(run: seq<State>, steps: seq<Step>, j: nat, p: nat)
    requires Execution(run, steps) && j < |steps| && Overwrites(run[j], steps[j], p)
    ensures var t := steps[j].t; var id := At(run[j], t).id;
      exists k: nat, m: nat :: k < m < j && InStart(run, steps, k, j, t, id) && Inserts(run, steps, m, id, p)
  {
    hide Next;
    EveryLook(run, steps, j, steps[j].t, At(run[j], steps[j].t).id);
  }

  // ---- over every run ----

  /** An entry leaves the map only with its own child's reaper, so that no reaper removes a newer child's
      entry, or under an Insert of a Start of the same app, which is never if those are kept apart. */
  lemma EntryLeavesWithItsChild(run: seq<State>, steps: seq<Step>, i: nat, id: nat)
    requires Execution(run, steps) && i < |steps| && id in run[i].procs
    ensures || (id in run[i + 1].procs && run[i + 1].procs[id] == run[i].procs[id])
            || steps[i] == Drop(run[i].procs[id])
            || (!run[0].serial && At(run[i], steps[i].t).id == id && Overwrites(run[i], steps[i], run[i].procs[id]))
  {
    hide Basic, StartsApart, ChildrenKnown;
    EveryState(run, steps, i);
    assert Moves(run[i], steps[i], run[i + 1]);
    if steps[i].Insert? {
      assert At(run[i], steps[i].t).Spawned?;
      assert run[0].serial ==> RoomMade(run[i]);
    }
  }

  /** A child's channel is closed at most once, only when it is dead and its entry gone, and stays so. */
  lemma ClosedOnce(run: seq<State>, steps: seq<Step>, i: nat, p: nat)
    requires Execution(run, steps) && i <= |steps| && p in run[i].children
    ensures run[i].children[p].closes <= 1
    ensures run[i].children[p].closes == 1 ==>
              !run[i].children[p].alive && forall id :: id in run[i].procs ==> run[i].procs[id] != p
    ensures i < |steps| ==> p in run[i + 1].children
                            && run[i].children[p].closes <= run[i + 1].children[p].closes <= 1
  {
    hide Next, CallersReal, NewbornsApart, Serial;
    EveryState(run, steps, i);
    if i < |steps| {
      assert Moves(run[i], steps[i], run[i + 1]);
      EveryState(run, steps, i + 1);
      ClosesGrow(run[i], steps[i], p);
    }
  }

  lemma ClosesGrow(s: State, step: Step, p: nat)
    requires Next(s, step).Some? && ReapersOrdered(s) && p in s.children
    ensures var s' := Next(s, step).value; p in s'.children && s.children[p].closes <= s'.children[p].closes
  {
  }

  /** Stop returns only once the child it saw is dead, reaped and out of the map. */
  lemma StopReturnsReaped(run: seq<State>, steps: seq<Step>, i: nat)
    requires Execution(run, steps) && i < |steps| && steps[i].Await?
    ensures var pc := At(run[i], steps[i].t);
      && pc.Awaiting? && pc.p in run[i + 1].children
      && var c := run[i + 1].children[pc.p];
         c.id == pc.id && !c.alive && c.stage == Closed
         && (pc.id in run[i + 1].procs ==> run[i + 1].procs[pc.id] != pc.p)
  {
    EveryState(run, steps, i);
    assert Moves(run[i], steps[i], run[i + 1]);
  }

  /** A child whose Start completed and whose reaper has not dropped it is the one in the map for its app,
      where a Stop will find it, exactly when no Insert has overwritten it; and none ever does with the
      Starts of an app kept apart. */
  lemma UnreapedIsMapped(run: seq<State>, steps: seq<Step>, i: nat, p: nat)
    requires Execution(run, steps) && i <= |steps| && p in run[i].children
    requires forall t: nat :: Newborn(At(run[i], t)) != Some(p)
    requires run[i].children[p].stage !in {Dropped, Closed}
    ensures IsMapped(run[i], p) <==> !Overwritten(run, steps, i, p)
    ensures run[0].serial ==> IsMapped(run[i], p)
  {
    hide Next, Basic;
    UnbornIsHeld(run, steps, i, p);
    MappedUnlessOverwritten(run, steps, i, p);
    forall j | 0 <= j < i && run[0].serial ensures !Overwrites(run[j], steps[j], p) {
      EveryState(run, steps, j);
      assert RoomMade(run[j]);
    }
  }

  lemma {:induction false} UnbornIsHeld(run: seq<State>, steps: seq<Step>, i: nat, p: nat)
    requires Execution(run, steps) && i <= |steps| && p in run[i].children
    ensures run[i].children[p].stage == Unborn ==> exists t: nat :: Newborn(At(run[i], t)) == Some(p)
  {
    hide Next, Basic;
    if i > 0 && run[i].children[p].stage == Unborn {
      var s, step, s' := run[i - 1], steps[i - 1], run[i];
      assert Moves(s, step, run[i - 1 + 1]);
      EveryState(run, steps, i - 1);
      BornOrWas(s, step, p);
      if !(step.Spawn? && Newborn(At(s', step.t)) == Some(p)) {
        UnbornIsHeld(run, steps, i - 1, p);
        var t: nat :| Newborn(At(s, t)) == Some(p);
        NewbornStays(s, step, t, p);
      }
    }
  }

  lemma BornOrWas(s: State, step: Step, p: nat)
    requires Next(s, step).Some?
    requires p in Next(s, step).value.children && Next(s, step).value.children[p].stage == Unborn
    ensures (step.Spawn? && Newborn(At(Next(s, step).value, step.t)) == Some(p))
            || (p in s.children && s.children[p].stage == Unborn)
  {
  }

  /** And no two children of one app are ever alive together. */
  lemma OneChildPerApp(run: seq<State>, steps: seq<Step>, i: nat, p: nat, q: nat)
    requires Execution(run, steps) && i <= |steps| && run[0].serial
    requires p in run[i].children && q in run[i].children && run[i].children[p].id == run[i].children[q].id
    requires run[i].children[p].alive && run[i].children[q].alive
    ensures p == q
  {
    EveryState(run, steps, i);
  }

  // ---- why the Starts of an app must be kept apart ----

  /** Two Starts of one app side by side: both find nothing to stop, both spawn, and the second's entry
      replaces the first's, whose child lives on where no Stop will look for it. */
  lemma TwoStartsOrphan(id: nat) returns (run: seq<State>, steps: seq<Step>)
    ensures Execution(run, steps) && !run[0].serial
    ensures var s := run[|steps|];
      && (forall t: nat :: At(s, t) == Idle)
      && 0 in s.children && s.children[0] == Child(id, true, Waiting, 0)
      && forall i :: i in s.procs ==> s.procs[i] != 0
  {
    hide Next, Moves, At, Go, Turn;
    var s0 := State(false, map[], map[], 0, map[]);
    NobodyYet(s0);
    var s1, s2, s3 := Rises(s0, 0, id);
    var s4, s5, s6 := Rises(s3, 1, id);
    var s7, s8, s9, s10 := Settles(s6, id);
    run := [s0, s1, s2, s3, s4, s5, s6, s7, s8, s9, s10];
    steps := [BeginStart(0, id), Look(0), Spawn(0, true), BeginStart(1, id), Look(1), Spawn(1, true),
              Insert(0), Insert(1), Launch(0), Launch(1)];
  }

  lemma NobodyYet(s: State)
    requires s.pcs == map[]
    ensures forall t: nat :: At(s, t) == Idle
  {
  }

  function Born(s: State, t: nat, id: nat): State {
    Turn(Go(s, t, Spawned(id, s.next)), s.next, Child(id, true, Unborn, 0)).(next := s.next + 1)
  }

  function Entered(s: State, t: nat, id: nat, p: nat): State {
    Go(s, t, Inserted(id, p)).(procs := s.procs[id := p])
  }

  function Launched(s: State, t: nat, p: nat): State
    requires p in s.children
  {
    Turn(Go(s, t, Idle), p, s.children[p].(stage := Waiting))
  }

  /** The first half: a caller that finds nothing to stop spawns a child. */
  lemma Rises(s: State, t: nat, id: nat) returns (s1: State, s2: State, s3: State)
    requires !s.serial && At(s, t) == Idle && id !in s.procs
    ensures Moves(s, BeginStart(t, id), s1) && Moves(s1, Look(t), s2) && Moves(s2, Spawn(t, true), s3)
    ensures !s3.serial && s3.procs == s.procs && s3.next == s.next + 1
    ensures s3.children == s.children[s.next := Child(id, true, Unborn, 0)]
    ensures forall u: nat :: At(s3, u) == if u == t then Spawned(id, s.next) else At(s, u)
  {
    s1 := Go(s, t, Looking(id, true));
    s2 := Go(s1, t, Opening(id));
    s3 := Born(s2, t, id);
  }

  /** The second half: both enter their child, the later over the earlier, and launch its reaper. */
  lemma Settles(s: State, id: nat) returns (s7: State, s8: State, s9: State, s10: State)
    requires At(s, 0) == Spawned(id, 0) && At(s, 1) == Spawned(id, 1)
    requires s.children == map[0 := Child(id, true, Unborn, 0), 1 := Child(id, true, Unborn, 0)] && s.procs == map[]
    requires forall u: nat :: u > 1 ==> At(s, u) == Idle
    ensures Moves(s, Insert(0), s7) && Moves(s7, Insert(1), s8)
    ensures Moves(s8, Launch(0), s9) && Moves(s9, Launch(1), s10)
    ensures s10.procs == map[id := 1] && 0 in s10.children && s10.children[0] == Child(id, true, Waiting, 0)
    ensures forall u: nat :: At(s10, u) == Idle
  {
    s7 := Entered(s, 0, id, 0);
    s8 := Entered(s7, 1, id, 1);
    assert At(s8, 0) == Inserted(id, 0);
    s9 := Launched(s8, 0, 0);
    assert At(s9, 1) == Inserted(id, 1);
    s10 := Launched(s9, 1, 1);
    assert forall u: nat :: u > 1 ==> At(s10, u) == At(s, u);
  }
}
