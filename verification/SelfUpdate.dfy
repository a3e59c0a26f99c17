/** Replacing the running binary (internal/selfupdate, cmd/xdev/update.go): install, restart, wait and roll back,
    on a disk where any call may fail and with whatever answers the service manager gives. */
module SelfUpdate {
  import opened Collections
  import opened Text
  import opened Wrappers

  /** How a copy turns out: a file would not open, the copy broke off with `part` written and the
      remains removed or not, only the mode could not be set, or it worked. */
  datatype Copying = NoOpen | Torn(part: string, removed: bool) | NoChmod | Copied

  type Files = map<string, string>

  const KEEP: nat := 3

  function Staged(dest: string): string {
    dest + ".new"
  }

  function BackupName(dest: string, stamp: string): string {
    dest + "." + stamp + ".bak"
  }

  /** What the pattern for backups of dest matches. */
  predicate IsBackup(dest: string, name: string) {
    |dest| + 5 <= |name| && HasPrefix(name, dest + ".") && HasSuffix(name, ".bak")
  }

  /** The backups are the files dest.*.bak, under whatever is written for the star. */
  lemma BackupsAre(dest: string, name: string)
    ensures IsBackup(dest, name) <==> exists stamp :: name == dest + "." + stamp + ".bak"
  {
    if IsBackup(dest, name) {
      var d := |dest| + 1;
      var stamp := name[d..|name| - 4];
      assert name == name[..d] + name[d..];
      assert name[d..] == stamp + name[|name| - 4..];
      assert name == dest + "." + (stamp + ".bak");
      assert name == dest + "." + stamp + ".bak";
    }
    if stamp :| name == dest + "." + stamp + ".bak" {
      NamesApart(dest, stamp);
    }
  }

  lemma NamesApart(dest: string, stamp: string)
    ensures Staged(dest) != dest && BackupName(dest, stamp) != dest && BackupName(dest, stamp) != Staged(dest)
    ensures IsBackup(dest, BackupName(dest, stamp)) && !IsBackup(dest, dest) && !IsBackup(dest, Staged(dest))
  {
    var b := BackupName(dest, stamp);
    assert |b| == |dest| + |stamp| + 5;
    assert b[|b| - 4..] == ".bak";
    assert b[..|dest| + 1] == dest + ".";
  }

  // ---- waiting for the service ----

  /** One look at the service: whether it is up, its pid (0 when unreadable), and whether the time is
      up after it. */
  datatype Poll = Poll(active: bool, pid: nat, late: bool)

  /** Before the time was up, some look showed the service up under a process not known to be the old one. */
  ghost predicate CameUp(polls: seq<Poll>, prev: nat) {
    exists i :: 0 <= i < |polls| && polls[i].active && (polls[i].pid == 0 || polls[i].pid != prev)
                && forall j :: 0 <= j < i ==> !polls[j].late
  }

  /** WaitRestarted: true at the first look that shows the service up under a process not known to be
      the old one, if that look comes before the time is up. */
  method WaitRestarted(managed: bool, polls: seq<Poll>, prev: nat) returns (up: bool)
    requires polls != [] && polls[|polls| - 1].late
    ensures up <==> managed && exists i ::
              && 0 <= i < |polls| && polls[i].active && (polls[i].pid == 0 || polls[i].pid != prev)
              && forall j :: 0 <= j < i ==> !polls[j].late
  {
    if !managed {
      return false;
    }
    var i := 0;
    while true
      invariant 0 <= i < |polls|
      invariant forall j :: 0 <= j < i ==> !polls[j].late
      invariant forall j :: 0 <= j < i && polls[j].active ==> polls[j].pid != 0 && polls[j].pid == prev
      decreases |polls| - i
    {
      if polls[i].active {
        var pid := polls[i].pid;
        if pid == 0 || pid != prev {
          return true;
        }
      }
      if polls[i].late {
        return false;
      }
      i := i + 1;
    }
  }

  // ---- lexical order ----

  predicate LexLess(a: string, b: string) {
    b != [] && (a == [] || a[0] < b[0] || (a[0] == b[0] && LexLess(a[1..], b[1..])))
  }

  lemma {:induction false} LexTotal(a: string, b: string)
    ensures a == b || LexLess(a, b) || LexLess(b, a)
    ensures !(LexLess(a, b) && LexLess(b, a)) && !LexLess(a, a)
  {
    if a != [] && b != [] {
      LexTotal(a[1..], b[1..]);
      if a[1..] == b[1..] && a[0] == b[0] {
        assert a == [a[0]] + a[1..] && b == [b[0]] + b[1..];
      }
    }
    if a != [] {
      LexTotal(a[1..], a[1..]);
    }
  }

  lemma {:induction false} LexTransitive(a: string, b: string, c: string)
    requires LexLess(a, b) && LexLess(b, c)
    ensures LexLess(a, c)
  {
    if a != [] && a[0] == b[0] && b[0] == c[0] {
      LexTransitive(a[1..], b[1..], c[1..]);
    }
  }

  /** Stamps of one length sort as the names made from them. */
  lemma {:induction false} StampsSort(base: string, a: string, b: string)
    requires |a| == |b| && LexLess(a, b)
    ensures LexLess(base + a + ".bak", base + b + ".bak")
    decreases |base|
  {
    if base == [] {
      SuffixSorts(a, b, ".bak");
      assert base + a == a && base + b == b;
    } else {
      StampsSort(base[1..], a, b);
      var x, y := base + a + ".bak", base + b + ".bak";
      assert x[0] == base[0] == y[0];
      assert x[1..] == base[1..] + a + ".bak" && y[1..] == base[1..] + b + ".bak";
    }
  }

  lemma {:induction false} SuffixSorts(a: string, b: string, t: string)
    requires |a| == |b| && LexLess(a, b)
    ensures LexLess(a + t, b + t)
  {
    if a[0] == b[0] {
      SuffixSorts(a[1..], b[1..], t);
      assert (a + t)[1..] == a[1..] + t && (b + t)[1..] == b[1..] + t;
    }
  }

  /** Backups of dest newer by name than `name`. */
  function Newer(files: Files, dest: string, name: string): set<string> {
    set m | m in files && IsBackup(dest, m) && LexLess(name, m)
  }

  /** Past the newest `keep`. */
  predicate Surplus(files: Files, dest: string, keep: nat, name: string) {
    IsBackup(dest, name) && |Newer(files, dest, name)| >= keep
  }

  lemma SameNewer(before: Files, files: Files, dest: string, name: string)
    requires forall n :: n in before && n != dest && n != Staged(dest) ==> n in files
    requires forall n :: n in files ==> n in before || n == Staged(dest)
    ensures Newer(files, dest, name) == Newer(before, dest, name)
  {
    NamesApart(dest, "");
    hide IsBackup, LexLess;
  }

  /** A backup whose stamp is later than every other's survives pruning: whatever else is beside the
      binary, it is never surplus. */
  lemma LatestSurvives(files: Files, dest: string, stamp: string)
    requires forall m :: m in files && IsBackup(dest, m) && m != BackupName(dest, stamp) ==>
               exists earlier :: m == BackupName(dest, earlier) && |earlier| == |stamp| && LexLess(earlier, stamp)
    ensures !Surplus(files[BackupName(dest, stamp) := ""], dest, 3, BackupName(dest, stamp))
  {
    hide IsBackup;
    var b := BackupName(dest, stamp);
    LexTotal(b, b);
    forall m | m in files && IsBackup(dest, m) && m != b ensures !LexLess(b, m) {
      var earlier :| m == BackupName(dest, earlier) && |earlier| == |stamp| && LexLess(earlier, stamp);
      StampsSort(dest + ".", earlier, stamp);
      LexTotal(m, b);
    }
    assert Newer(files[b := ""], dest, b) == {};
  }

  /** The backups of dest, newest name first. */
  ghost predicate Listed(files: Files, dest: string, names: seq<string>) {
    && (forall i :: 0 <= i < |names| ==> names[i] in files && IsBackup(dest, names[i]))
    && (forall i, j :: 0 <= i < j < |names| ==> LexLess(names[j], names[i]))
    && (forall n :: n in files && IsBackup(dest, n) ==> n in names)
  }

  /** The place of a backup in the list is the number of newer ones. */
  lemma NewerAt(files: Files, dest: string, names: seq<string>, name: string)
    requires Listed(files, dest, names) && name in files && IsBackup(dest, name)
    ensures exists k :: 0 <= k < |names| && names[k] == name && |Newer(files, dest, name)| == k
  {
    hide IsBackup, LexLess;
    var k :| 0 <= k < |names| && names[k] == name;
    var newer := Newer(files, dest, name);
    forall m ensures m in names[..k] <==> m in newer {
      if m in newer {
        var j :| 0 <= j < |names| && names[j] == m;
        LexTotal(m, name);
        assert j < k;
        assert names[..k][j] == m;
      }
    }
    LexIrreflexive(names[..k]);
    DistinctSize(names[..k], newer);
  }

  lemma LexIrreflexive(names: seq<string>)
    requires forall i, j :: 0 <= i < j < |names| ==> LexLess(names[j], names[i])
    ensures Distinct(names)
  {
    forall i, j | 0 <= i < j < |names| ensures names[i] != names[j] {
      LexTotal(names[i], names[j]);
    }
  }

  lemma Place(files: Files, dest: string, names: seq<string>, keep: nat, name: string)
    requires Listed(files, dest, names) && keep <= |names|
    ensures name in names[keep..] <==> name in files && IsBackup(dest, name) && |Newer(files, dest, name)| >= keep
  {
    hide IsBackup, LexLess, Newer;
    LexIrreflexive(names);
    InTail(names, keep, name);
    if name in files && IsBackup(dest, name) {
      NewerAt(files, dest, names, name);
    }
  }

  lemma InTail<T>(s: seq<T>, keep: nat, x: T)
    requires keep <= |s|
    ensures x in s[keep..] <==> exists j :: keep <= j < |s| && s[j] == x
  {
    if j :| keep <= j < |s| && s[j] == x {
      assert s[keep..][j - keep] == x;
    }
  }

  /** The glob and the reverse sort. */
  method SortBackups(files: Files, dest: string) returns (names: seq<string>)
    ensures Listed(files, dest, names)
  {
    hide IsBackup, LexLess;
    names := [];
    var todo := set n | n in files && IsBackup(dest, n);
    ghost var all := todo;
    while todo != {}
      invariant todo <= all && all == set n | n in files && IsBackup(dest, n)
      invariant forall n :: n in names <==> n in all - todo
      invariant forall i, j :: 0 <= i < j < |names| ==> LexLess(names[j], names[i])
      decreases |todo|
    {
      var n :| n in todo;
      var i := 0;
      while i < |names| && LexLess(n, names[i])
        invariant 0 <= i <= |names| && forall j :: 0 <= j < i ==> LexLess(n, names[j])
      {
        i := i + 1;
      }
      NameInserted(names, i, n);
      names := names[..i] + [n] + names[i..];
      todo := todo - {n};
    }
    forall i | 0 <= i < |names| ensures names[i] in all {
      assert names[i] in names;
    }
    assert forall n :: n in files && IsBackup(dest, n) ==> n in all;
  }

  lemma NameInserted(names: seq<string>, at: nat, n: string)
    requires at <= |names| && n !in names
    requires forall i, j :: 0 <= i < j < |names| ==> LexLess(names[j], names[i])
    requires forall j :: 0 <= j < at ==> LexLess(n, names[j])
    requires at < |names| ==> !LexLess(n, names[at])
    ensures var r := names[..at] + [n] + names[at..];
      && (forall i, j :: 0 <= i < j < |r| ==> LexLess(r[j], r[i]))
      && forall m :: m in r <==> m in names || m == n
  {
    hide LexLess;
    Inserted(names, at, n);
    forall j | at <= j < |names| ensures LexLess(names[j], n) {
      LexTotal(n, names[at]);
      if j > at {
        LexTransitive(names[j], names[at], n);
      }
    }
  }

  // ---- the disk ----

  /** Every file but `name` is in `b` as it was in `a`. */
  ghost predicate SameBut(a: Files, b: Files, name: string) {
    forall n :: n != name ==> (n in a <==> n in b) && (n in a ==> a[n] == b[n])
  }

  /** dest is whole, the one way or the other, in every state. */
  ghost predicate Whole(seen: seq<Files>, dest: string, one: string, other: string) {
    forall i :: 0 <= i < |seen| ==> dest in seen[i] && (seen[i][dest] == one || seen[i][dest] == other)
  }

  /** The file is there with these contents in every state. */
  ghost predicate Holds(seen: seq<Files>, name: string, content: string) {
    forall i :: 0 <= i < |seen| ==> name in seen[i] && seen[i][name] == content
  }

  datatype InstallLuck = InstallLuck(keep: Copying, stage: Copying, swap: bool, unstage: bool, unkeep: bool)

  datatype RestoreLuck = RestoreLuck(stage: Copying, swap: bool, unstage: bool)

  /** What the service manager answers. */
  datatype Service = Service(noRestart: bool, managed: bool, prevPid: nat, restartFails: bool, polls: seq<Poll>,
                             stillActive: bool, rollbackPid: nat, secondPolls: seq<Poll>)

  datatype Outcome = Updated | NotInstalled | NotServing | RollbackFailed | RolledBack

  class Host {
    var files: Files
    /** Every state the disk has been in: a crash leaves one of them. */
    ghost var seen: seq<Files>

    ghost predicate Valid()
      reads this
    {
      seen != [] && seen[|seen| - 1] == files
    }

    constructor (f: Files)
      ensures Valid() && files == f && seen == [f]
    {
      files, seen := f, [f];
    }

    method Set(f: Files)
      requires Valid()
      modifies this
      ensures Valid() && files == f && seen == old(seen) + [f]
    {
      files, seen := f, seen + [f];
    }

    /** os.Remove. */
    method Remove(name: string, lucky: bool) returns (ok: bool)
      requires Valid()
      modifies this
      ensures Valid() && ok == (lucky && name in old(files))
      ensures files == if ok then old(files) - {name} else old(files)
      ensures seen == if ok then old(seen) + [files] else old(seen)
    {
      ok := lucky && name in files;
      if ok {
        Set(files - {name});
      }
    }

    /** os.Rename of a file, which replaces the destination in one step. */
    method Rename(src: string, dst: string, lucky: bool) returns (ok: bool)
      requires Valid() && src != dst
      modifies this
      ensures Valid() && ok == (lucky && src in old(files))
      ensures files == if ok then old(files)[dst := old(files)[src]] - {src} else old(files)
      ensures seen == if ok then old(seen) + [files] else old(seen)
    {
      ok := lucky && src in files;
      if ok {
        Set(files[dst := files[src]] - {src});
      }
    }

    /** copyFile: dst is truncated, written, and on failure removed. */
    method CopyFile(src: string, dst: string, how: Copying) returns (ok: bool)
      requires Valid() && src != dst
      modifies this
      ensures Valid() && old(seen) <= seen
      ensures ok <==> src in old(files) && how == Copied
      ensures ok ==> dst in files && files[dst] == old(files)[src]
      ensures SameBut(old(files), files, dst)
      ensures forall i :: |old(seen)| <= i < |seen| ==> SameBut(old(files), seen[i], dst)
    {
      if src !in files || how == NoOpen {
        return false;
      }
      var content := files[src];
      Set(files[dst := ""]);
      if how.Torn? {
        Set(files[dst := how.part]);
        var _ := Remove(dst, how.removed);
        return false;
      }
      Set(files[dst := content]);
      return how == Copied;
    }

    /** The rename dance Install and Restore share: copy beside dest, rename over it, and clean up after
        a rename that fails. */
    method Replace(src: string, dest: string, stage: Copying, swap: bool, unstage: bool) returns (ok: bool)
      requires Valid() && src != dest && src != Staged(dest)
      modifies this
      ensures Valid() && old(seen) <= seen
      ensures ok <==> src in old(files) && stage == Copied && swap
      ensures forall n :: n != Staged(dest) && (n != dest || !ok) ==> (n in files <==> n in old(files))
      ensures forall n :: n != Staged(dest) && (n != dest || !ok) && n in files ==> files[n] == old(files)[n]
      ensures ok ==> dest in files && files[dest] == old(files)[src]
      ensures forall i, n :: |old(seen)| <= i < |seen| && n in old(files) && n != Staged(dest) && n != dest
                ==> n in seen[i] && seen[i][n] == old(files)[n]
      ensures dest in old(files) && src in old(files) ==>
                Whole(seen[|old(seen)|..], dest, old(files)[dest], old(files)[src])
    {
      NamesApart(dest, "");
      var staged := CopyFile(src, Staged(dest), stage);
      if !staged {
        return false;
      }
      ok := Rename(Staged(dest), dest, swap);
      if !ok {
        var _ := Remove(Staged(dest), unstage);
      }
    }

    /** Install. */
    method Install(src: string, dest: string, stamp: string, luck: InstallLuck) returns (backup: Option<string>)
      requires Valid()
      requires src != dest && src != Staged(dest) && src != BackupName(dest, stamp)
      modifies this
      ensures Valid() && old(seen) <= seen
      ensures dest in old(files) && src in old(files) ==>
                Whole(seen[|old(seen)|..], dest, old(files)[dest], old(files)[src])
      ensures backup.Some? <==> dest in old(files) && src in old(files)
                                && luck.keep == Copied && luck.stage == Copied && luck.swap
      ensures backup.Some? ==>
                && backup.value == BackupName(dest, stamp)
                && dest in files && files[dest] == old(files)[src]
                && backup.value in files && files[backup.value] == old(files)[dest]
      ensures backup == None ==> (dest in files <==> dest in old(files))
                                 && (dest in files ==> files[dest] == old(files)[dest])
      ensures forall n :: n in old(files) && n !in {dest, Staged(dest), BackupName(dest, stamp)}
                ==> n in files && files[n] == old(files)[n]
      ensures forall n :: n in files ==> n in old(files) || n in {Staged(dest), BackupName(dest, stamp)}
    {
      NamesApart(dest, stamp);
      if dest !in files {
        return None;
      }
      var b := BackupName(dest, stamp);
      hide BackupName, Staged;
      var kept := CopyFile(dest, b, luck.keep);
      if !kept {
        return None;
      }
      var ok := Replace(src, dest, luck.stage, luck.swap, luck.unstage);
      if !ok {
        var _ := Remove(b, luck.unkeep);
        return None;
      }
      return Some(b);
    }

    /** Restore. */
    method Restore(backup: string, dest: string, luck: RestoreLuck) returns (ok: bool)
      requires Valid() && backup != dest && backup != Staged(dest) && dest in files
      modifies this
      ensures Valid() && old(seen) <= seen
      ensures ok <==> backup in old(files) && luck.stage == Copied && luck.swap
      ensures dest in files && files[dest] == if ok then old(files)[backup] else old(files)[dest]
      ensures backup in old(files) ==> backup in files && files[backup] == old(files)[backup]
      ensures backup in old(files) ==> Whole(seen[|old(seen)|..], dest, old(files)[dest], old(files)[backup])
      ensures backup in old(files) ==> Holds(seen[|old(seen)|..], backup, old(files)[backup])
    {
      ok := Replace(backup, dest, luck.stage, luck.swap, luck.unstage);
    }

    /** PruneBackups: the newest `keep` stay, and of the others all that can be removed go. */
    method PruneBackups(dest: string, keep: nat, stuck: set<string>)
      requires Valid()
      modifies this
      ensures Valid() && old(seen) <= seen
      ensures forall n :: n in files <==> n in old(files) && (Surplus(old(files), dest, keep, n) ==> n in stuck)
      ensures forall n :: n in files ==> files[n] == old(files)[n]
      ensures forall i, n :: |old(seen)| <= i < |seen| && n in files ==> n in seen[i] && seen[i][n] == files[n]
    {
      hide IsBackup, LexLess, Newer;
      var matches := SortBackups(files, dest);
      if |matches| <= keep {
        forall n | n in files && IsBackup(dest, n) ensures |Newer(files, dest, n)| < keep {
          NewerAt(files, dest, matches, n);
        }
        return;
      }
      ghost var before := files;
      for i := keep to |matches|
        invariant Valid() && old(seen) <= seen
        invariant forall n :: n in files <==> n in before && (n in matches[keep..i] ==> n in stuck)
        invariant forall n :: n in files ==> files[n] == before[n]
        invariant forall k, n :: |old(seen)| <= k < |seen| && n in files ==> n in seen[k] && seen[k][n] == files[n]
      {
        var _ := Remove(matches[i], matches[i] !in stuck);
        assert matches[keep..i + 1] == matches[keep..i] + [matches[i]];
      }
      assert matches[keep..|matches|] == matches[keep..];
      forall n ensures n in matches[keep..] <==> n in before && IsBackup(dest, n) && |Newer(before, dest, n)| >= keep {
        Place(before, dest, matches, keep, n);
      }
    }

    /** runUpdate from Install on. */
    method RunUpdate(src: string, dest: string, stamp: string, svc: Service,
                     install: InstallLuck, restore: RestoreLuck, stuck: set<string>)
      returns (outcome: Outcome)
      requires Valid() && dest in files && src in files
      requires src != dest && src != Staged(dest) && src != BackupName(dest, stamp)
      requires svc.polls != [] && svc.polls[|svc.polls| - 1].late
      requires svc.secondPolls != [] && svc.secondPolls[|svc.secondPolls| - 1].late
      modifies this
      ensures Valid() && old(seen) <= seen
      ensures Whole(seen[|old(seen)|..], dest, old(files)[dest], old(files)[src])
      ensures dest in files
      ensures outcome == NotInstalled
              <==> !(install.keep == Copied && install.stage == Copied && install.swap)
      ensures outcome == Updated ==> svc.noRestart || !svc.managed || exists i ::
                && 0 <= i < |svc.polls| && svc.polls[i].active
                && (svc.polls[i].pid == 0 || svc.polls[i].pid != svc.prevPid)
                && forall j :: 0 <= j < i ==> !svc.polls[j].late
      ensures outcome in {NotServing, RollbackFailed, RolledBack}
              ==> !svc.noRestart && svc.managed && !CameUp(svc.polls, svc.prevPid)
                  && (outcome == NotServing <==> svc.restartFails && svc.stillActive)
                  && (outcome == RolledBack ==> restore.stage == Copied && restore.swap)
                  && (outcome == RollbackFailed ==> !(restore.stage == Copied && restore.swap))
      ensures outcome in {Updated, NotServing, RollbackFailed} ==> files[dest] == old(files)[src]
      ensures outcome in {NotInstalled, RolledBack} ==> files[dest] == old(files)[dest]
      ensures outcome in {RollbackFailed, RolledBack} ==>
                BackupName(dest, stamp) in files && files[BackupName(dest, stamp)] == old(files)[dest]
      ensures outcome in {Updated, NotServing} && BackupName(dest, stamp) in files ==>
                files[BackupName(dest, stamp)] == old(files)[dest]
      ensures outcome in {Updated, NotServing} && BackupName(dest, stamp) !in files ==>
                Surplus(old(files)[BackupName(dest, stamp) := ""], dest, 3, BackupName(dest, stamp))
    {
      hide IsBackup, LexLess, Newer;
      NamesApart(dest, stamp);
      var backup := Install(src, dest, stamp, install);
      if backup == None {
        return NotInstalled;
      }
      SameNewer(old(files)[backup.value := ""], files, dest, backup.value);
      if svc.noRestart || !svc.managed {
        PruneBackups(dest, KEEP, stuck);
        return Updated;
      }
      var up := WaitRestarted(svc.managed, svc.polls, svc.prevPid);
      if up {
        PruneBackups(dest, KEEP, stuck);
        return Updated;
      }
      if svc.restartFails && svc.stillActive {
        PruneBackups(dest, KEEP, stuck);
        return NotServing;
      }
      var restored := Restore(backup.value, dest, restore);
      if !restored {
        return RollbackFailed;
      }
      var _ := WaitRestarted(svc.managed, svc.secondPolls, svc.rollbackPid);
      return RolledBack;
    }
  }
}
