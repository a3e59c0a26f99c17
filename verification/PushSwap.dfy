/** Publishing an uploaded build (internal/apps/deploy.go): stage beside the target, retire the live
    build, rename the staged one in, over a file system in which any call may fail and removal may
    stop half way. */
module PushSwap {
  import opened Wrappers

  datatype Entry = Folder | File(content: string)

  /** Everything under a directory, by relative path. */
  type Tree = map<string, Entry>

  /** The three directories involved, None where the path does not exist. */
  datatype Disk = Disk(target: Option<Tree>, retired: Option<Tree>, staging: Option<Tree>)

  datatype Place = Target | Retired | Staging

  function Get(d: Disk, p: Place): Option<Tree> {
    match p case Target => d.target case Retired => d.retired case Staging => d.staging
  }

  function Put(d: Disk, p: Place, t: Option<Tree>): Disk {
    match p
    case Target => d.(target := t)
    case Retired => d.(retired := t)
    case Staging => d.(staging := t)
  }

  /** How each call turns out. `unpacked` is what extraction leaves, complete or not; `torn` is what a
      failed write of the .env leaves of it; a removal leaves None when it finishes. */
  datatype Luck = Luck(mkdirAll: bool, mkdirTemp: bool, extract: bool, unpacked: Tree, readDir: bool,
                       readEnv: bool, writeEnv: bool, torn: string, stat: bool,
                       clear: Option<Tree>, retire: bool, swap: bool, putBack: bool,
                       discard: Option<Tree>, sweep: Option<Tree>, restart: bool)

  /** What of the app decides the outcome. */
  datatype App = App(sharedDb: bool, command: bool, running: bool)

  datatype Outcome = Refused | SwapFailed | Published | PublishedNotRestarted

  const ENV := ".env"

  /** The build a push publishes: the upload, and the live .env when the app's database is one xdev
      made and the upload brings no .env of its own. */
  function Build(app: App, live: Option<Tree>, upload: Tree): Tree {
    if app.sharedDb && ENV !in upload && live.Some? && ENV in live.value
    then upload[ENV := live.value[ENV]]
    else upload
  }

  /** What a push of `upload` over the live build `live` publishes: every path but the .env exactly as
      uploaded; the upload's own .env when it brings one; and otherwise the live one, if there is one and
      the app's database is one xdev made. */
  ghost predicate Carries(sharedDb: bool, live: Option<Tree>, upload: Tree, built: Tree) {
    && (forall p :: p != ".env" ==> (p in built <==> p in upload) && (p in upload ==> built[p] == upload[p]))
    && (".env" in upload ==> ".env" in built && built[".env"] == upload[".env"])
    && (".env" !in upload ==>
          && (".env" in built <==> sharedDb && live.Some? && ".env" in live.value)
          && (".env" in built ==> built[".env"] == live.value[".env"]))
  }

  lemma BuildCarries(app: App, live: Option<Tree>, upload: Tree)
    ensures Carries(app.sharedDb, live, upload, Build(app, live, upload))
  {
  }

  /** The live .env has to be copied. */
  predicate MustCopy(sharedDb: bool, live: Option<Tree>, upload: Tree) {
    sharedDb && ".env" !in upload && live.Some? && ".env" in live.value
  }

  // ---- what may be seen at any moment ----

  /** From disk `d`, with `build` on its way: the target is as it was, with the retired build untouched
      if it is the only one; or the old build is complete in retirement; or the new one is in place. */
  predicate Swapping(d: Disk, now: Disk, build: Tree) {
    || (now.target == d.target && (d.target == None ==> now.retired == d.retired))
    || (now.target == None && d.target.Some? && now.retired == d.target)
    || now.target == Some(build)
  }

  ghost predicate AlwaysSwapping(d: Disk, seen: seq<Disk>, from: nat, build: Tree) {
    forall i :: from <= i < |seen| ==> Swapping(d, seen[i], build)
  }

  /** Once the new build is in place it stays there. */
  ghost predicate NewStays(d: Disk, seen: seq<Disk>, from: nat, build: Tree) {
    forall i, j :: from <= i <= j < |seen| && seen[i].target == Some(build) != d.target
      ==> seen[j].target == Some(build)
  }

  /** When the first rename goes through. */
  predicate Retires(d: Disk, luck: Luck) {
    d.target.Some? && luck.stat && luck.retire && (d.retired == None || luck.clear == None)
  }

  /** Since state `from` a crash may have found nothing at the target, and the old build in retirement. */
  ghost predicate PassesEmpty(d: Disk, seen: seq<Disk>, from: nat) {
    exists i :: from <= i < |seen| && seen[i].target == None && seen[i].retired == d.target
  }

  /** When staging goes through. */
  predicate Stages(app: App, live: Option<Tree>, upload: Tree, luck: Luck) {
    && luck.mkdirAll && luck.mkdirTemp && luck.extract && luck.readDir
    && upload != map[]
    && (MustCopy(app.sharedDb, live, upload) ==> luck.readEnv && luck.writeEnv && live.value[".env"].File?)
  }

  /** When the renames go through. */
  predicate Swaps(d: Disk, luck: Luck) {
    luck.swap && (d.target.Some? ==> Retires(d, luck))
  }

  class Site {
    var disk: Disk
    /** Every state the disk has been in: a crash leaves one of them. */
    ghost var seen: seq<Disk>

    ghost predicate Valid()
      reads this
    {
      seen != [] && seen[|seen| - 1] == disk
    }

    constructor (d: Disk)
      ensures Valid() && disk == d && seen == [d]
    {
      disk, seen := d, [d];
    }

    /** One change to one directory. */
    method Set(p: Place, t: Option<Tree>)
      requires Valid()
      modifies this
      ensures Valid() && disk == Put(old(disk), p, t) && seen == old(seen) + [disk]
    {
      disk := Put(disk, p, t);
      seen := seen + [disk];
    }

    /** os.RemoveAll, whose error every caller ignores. */
    method RemoveAll(p: Place, left: Option<Tree>)
      requires Valid()
      modifies this
      ensures Valid() && seen == old(seen) + [disk]
      ensures disk == Put(old(disk), p, if Get(old(disk), p) == None then None else left)
    {
      Set(p, if Get(disk, p) == None then None else left);
    }

    /** os.Rename of a directory, which refuses a destination that exists. */
    method Rename(from: Place, to: Place, lucky: bool) returns (ok: bool)
      requires Valid() && from != to
      modifies this
      ensures Valid() && ok == (lucky && Get(old(disk), from).Some? && Get(old(disk), to) == None)
      ensures disk == if ok then Put(Put(old(disk), to, Get(old(disk), from)), from, None) else old(disk)
      ensures seen == if ok then old(seen) + [disk] else old(seen)
    {
      ok := lucky && Get(disk, from).Some? && Get(disk, to) == None;
      if ok {
        disk := Put(Put(disk, to, Get(disk, from)), from, None);
        seen := seen + [disk];
      }
    }

    /** carryOverDBEnv. */
    method CarryOverEnv(app: App, luck: Luck) returns (ok: bool)
      requires Valid() && disk.staging.Some?
      modifies this
      ensures Valid()
      ensures disk.target == old(disk).target && disk.retired == old(disk).retired && disk.staging.Some?
      ensures ok <==> (MustCopy(app.sharedDb, disk.target, old(disk).staging.value) ==>
                         luck.readEnv && luck.writeEnv && disk.target.value[".env"].File?)
      ensures ok ==> disk.staging == Some(Build(app, disk.target, old(disk).staging.value))
      ensures ok ==> Carries(app.sharedDb, disk.target, old(disk).staging.value, disk.staging.value)
      ensures seen == old(seen) || seen == old(seen) + [disk]
    {
      if !app.sharedDb {
        return true;
      }
      var staged := disk.staging.value;
      if ENV in staged {
        return true;
      }
      if disk.target == None || ENV !in disk.target.value {
        return true;
      }
      var live := disk.target.value[ENV];
      if !luck.readEnv || live.Folder? {
        return false;
      }
      Set(Staging, Some(staged[ENV := File(if luck.writeEnv then live.content else luck.torn)]));
      return luck.writeEnv;
    }

    /** Everything up to the first rename: a staged build, or a refusal with the target untouched. */
    method Stage(app: App, upload: Tree, luck: Luck) returns (ok: bool)
      requires Valid() && disk.staging == None
      modifies this
      ensures Valid()
      ensures disk.target == old(disk).target && disk.retired == old(disk).retired
      ensures ok <==> Stages(app, disk.target, upload, luck)
      ensures ok ==> disk.staging == Some(Build(app, disk.target, upload))
      ensures old(seen) <= seen
      ensures forall i :: |old(seen)| <= i < |seen|
                ==> seen[i].target == old(disk).target && seen[i].retired == old(disk).retired
    {
      if !luck.mkdirAll || !luck.mkdirTemp {
        return false;
      }
      Set(Staging, Some(map[]));
      Set(Staging, Some(if luck.extract then upload else luck.unpacked));
      if !luck.extract || !luck.readDir || disk.staging == Some(map[]) {
        return false;
      }
      ok := CarryOverEnv(app, luck);
    }

    /** The two renames, and the way back. */
    method Swap(luck: Luck) returns (outcome: Outcome)
      requires Valid() && disk.staging.Some?
      modifies this
      ensures Valid() && outcome in {Refused, SwapFailed, Published}
      ensures outcome == Published ==> disk.target == old(disk).staging && disk.staging == None
      ensures outcome == Published && old(disk).target.Some? ==> disk.retired == luck.discard
      ensures outcome == Published && old(disk).target == None ==> disk.retired == old(disk).retired
      ensures outcome != Published ==> disk.staging == old(disk).staging
      ensures outcome == Refused ==> disk.target == old(disk).target
      ensures outcome == SwapFailed ==>
                if luck.putBack || old(disk).target == None || !luck.stat then disk.target == old(disk).target
                else disk.target == None && disk.retired == old(disk).target
      ensures old(seen) <= seen
      ensures AlwaysSwapping(old(disk), seen, |old(seen)|, old(disk).staging.value)
      ensures outcome == Published <==> Swaps(old(disk), luck)
      ensures NewStays(old(disk), seen, |old(seen)|, old(disk).staging.value)
      ensures Retires(old(disk), luck) ==> PassesEmpty(old(disk), seen, |old(seen)|)
    {
      var retired := false;
      ghost var between := 0;
      if luck.stat && disk.target.Some? {
        retired := true;
        RemoveAll(Retired, luck.clear);
        var away := Rename(Target, Retired, luck.retire);
        if !away {
          return Refused;
        }
        between := |seen| - 1;
        assert seen[between] == disk;
      }
      var swapped := Rename(Staging, Target, luck.swap);
      if !swapped {
        if retired {
          var _ := Rename(Retired, Target, luck.putBack);
          assert seen[between].target == None;
        }
        return SwapFailed;
      }
      if retired {
        RemoveAll(Retired, luck.discard);
        assert seen[between].target == None;
      }
      return Published;
    }

    /** PushDeploy, once the app is claimed and its row is open. */
    method PushDeploy(app: App, upload: Tree, luck: Luck) returns (outcome: Outcome)
      requires Valid() && disk.staging == None
      modifies this
      ensures Valid() && old(seen) <= seen
      ensures AlwaysSwapping(old(disk), seen, |old(seen)|, Build(app, old(disk).target, upload))
      ensures NewStays(old(disk), seen, |old(seen)|, Build(app, old(disk).target, upload))
      ensures Stages(app, old(disk).target, upload, luck) && Retires(old(disk), luck)
              ==> PassesEmpty(old(disk), seen, |old(seen)|)
      ensures outcome == Refused ==> disk.target == old(disk).target
      ensures outcome == SwapFailed && (luck.putBack || old(disk).target == None) ==> disk.target == old(disk).target
      ensures outcome == SwapFailed && disk.target != old(disk).target ==>
                disk.target == None && disk.retired == old(disk).target
      ensures outcome in {Published, PublishedNotRestarted}
              <==> Stages(app, old(disk).target, upload, luck) && Swaps(old(disk), luck)
      ensures outcome in {Published, PublishedNotRestarted} ==>
                && disk.target == Some(Build(app, old(disk).target, upload))
                && Carries(app.sharedDb, old(disk).target, upload, disk.target.value)
                && disk.staging == None
                && disk.retired == if old(disk).target.Some? then luck.discard else old(disk).retired
      ensures outcome == PublishedNotRestarted ==> app.command && app.running && !luck.restart
      ensures outcome == Published ==> !(app.command && app.running && !luck.restart)
    {
      BuildCarries(app, disk.target, upload);
      var staged := Stage(app, upload, luck);
      if !staged {
        RemoveAll(Staging, luck.sweep);
        return Refused;
      }
      outcome := Swap(luck);
      ghost var swapped := seen;
      if outcome == Published && app.command && app.running && !luck.restart {
        outcome := PublishedNotRestarted;
      }
      RemoveAll(Staging, luck.sweep);
      assert forall i :: 0 <= i < |swapped| ==> seen[i] == swapped[i];
    }
  }

  // ---- over many pushes and crashes ----

  /** `build` is complete, where it is served or in retirement. */
  predicate Holds(d: Disk, build: Tree) {
    d.target == Some(build) || (d.target == None && d.retired == Some(build))
  }

  /** The build that last reached the target, `base` if none of the pushes' did. */
  function Current(disks: seq<Disk>, builds: seq<Tree>, base: Tree): Tree
    requires |disks| == |builds| + 1
  {
    if builds == [] then base
    else
      var n := |builds| - 1;
      if disks[n + 1].target == Some(builds[n]) then builds[n] else Current(disks[..n + 1], builds[..n], base)
  }

  /** However many pushes run, and wherever each is cut off, the build that last reached the target is
      complete at the target or in retirement. */
  lemma {:induction false} NothingIsLost(disks: seq<Disk>, builds: seq<Tree>, base: Tree)
    requires |disks| == |builds| + 1 && Holds(disks[0], base)
    requires forall i :: 0 <= i < |builds| ==> Swapping(disks[i], disks[i + 1], builds[i])
    ensures Holds(disks[|builds|], Current(disks, builds, base))
  {
    if builds != [] {
      var n := |builds| - 1;
      NothingIsLost(disks[..n + 1], builds[..n], base);
      assert Swapping(disks[n], disks[n + 1], builds[n]);
    }
  }

  /** After a push cut off anywhere, the next one carries the live .env over exactly when there is a
      target: between the two renames the .env is in retirement, where the push does not look. */
  lemma CrashLosesEnv(d: Disk, now: Disk, app: App, earlier: Tree, upload: Tree)
    requires d.target.Some? && ENV in d.target.value && app.sharedDb && ENV !in upload
    requires Swapping(d, now, Build(app, d.target, earlier))
    ensures ENV in Build(app, now.target, upload) <==> now.target.Some?
    ensures now.target.Some? ==> ENV in now.target.value && Build(app, now.target, upload)[ENV] == now.target.value[ENV]
    ensures now.target == None ==> now.retired == d.target && ENV in now.retired.value
  {
  }

  /** Over any number of pushes, wherever each is cut off: when no upload brings a .env, the one at hand
      at the start is there at the end exactly when no push found or left the target empty. */
  lemma {:induction false} EnvKeptExactly(disks: seq<Disk>, uploads: seq<Tree>, app: App)
    requires |disks| == |uploads| + 1 && app.sharedDb
    requires disks[0].target.Some? && ENV in disks[0].target.value
    requires forall i :: 0 <= i < |uploads| ==> ENV !in uploads[i]
    requires forall i :: 0 <= i < |uploads|
              ==> Swapping(disks[i], disks[i + 1], Build(app, disks[i].target, uploads[i]))
    ensures var last := disks[|uploads|].target;
      && (last.Some? && ENV in last.value <==> forall i :: 0 <= i <= |uploads| ==> disks[i].target.Some?)
      && (last.Some? && ENV in last.value ==> last.value[ENV] == disks[0].target.value[ENV])
  {
    if uploads != [] {
      var n := |uploads| - 1;
      var init := disks[..n + 1];
      EnvKeptExactly(init, uploads[..n], app);
      assert Swapping(disks[n], disks[n + 1], Build(app, disks[n].target, uploads[n]));
      assert forall i :: 0 <= i <= n ==> init[i] == disks[i];
    }
  }
}
