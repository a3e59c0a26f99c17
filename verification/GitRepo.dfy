/** Repository references (internal/gitsrc/gitsrc.go): the forms people paste, the one canonical
    form they become, and the URLs printed from it. What is printed is parsed back, and it is said
    exactly which repositories that holds of; what is accepted is clean; and the shorthand owner/name
    stands for a repository on github.com. */
module GitRepo {
  import opened Text
  import opened Wrappers

  datatype Repo = Repo(host: string, owner: string, name: string)

  const DEFAULT_HOST := "github.com"

  // ---- printing ----

  function Path(h: string, o: string, n: string): string {
    h + "/" + o + "/" + n
  }

  /** Repo.String, Repo.HTTPS and Repo.SSH. */
  function Canonical(r: Repo): string {
    "https://" + Path(r.host, r.owner, r.name)
  }

  function Https(r: Repo): string {
    Canonical(r) + ".git"
  }

  function Ssh(r: Repo): string {
    "git@" + r.host + ":" + r.owner + "/" + r.name + ".git"
  }

  // ---- parsing ----

  predicate HasBreak(s: string) {
    ' ' in s || '\t' in s || '\n' in s || '\r' in s
  }

  function CutBefore(s: string, c: char): string {
    if c in s then s[..IndexOf(s, c)] else s
  }

  function TrimSuffix(s: string): string {
    if HasSuffix(s, ".git") then s[..|s| - 4] else s
  }

  function FromParts(parts: seq<string>): Result<Repo, string> {
    var full := if |parts| == 2 && '.' !in parts[0] then [DEFAULT_HOST] + parts else parts;
    if |full| < 3 then Err("use owner/name or https://host/owner/name")
    else
      var r := Repo(Lower(full[0]), full[1], full[2]);
      if r.host == "" || r.owner == "" || r.name == "" then Err("use owner/name or https://host/owner/name")
      else Ok(r)
  }

  /** What is left of a reference once its scheme and user are gone, to a repository. */
  function ParsePath(s: string): Result<Repo, string> {
    FromParts(Split(CutBefore(CutBefore(TrimSuffix(TrimRight(TrimLeft(s, '/'), '/')), '?'), '#'), '/'))
  }

  function DropScheme(s: string): string {
    if HasPrefix(s, "https://") then s[8..]
    else if HasPrefix(s, "http://") then s[7..]
    else if HasPrefix(s, "ssh://") then s[6..]
    else s
  }

  function ParseUrl(s: string): Result<Repo, string> {
    if '@' !in s then ParsePath(s)
    else if HasPrefix(s, "git@") then ParsePath(s[4..])
    else Err("remove the credentials from the URL")
  }

  function ParseScp(rest: string): Result<Repo, string> {
    if ':' !in rest then Err("expected git@host:owner/name")
    else ParsePath(rest[..IndexOf(rest, ':')] + "/" + rest[IndexOf(rest, ':') + 1..])
  }

  function Parse(raw: string): Result<Repo, string> {
    var s := TrimSpace(raw);
    if s == "" then Err("repository is required")
    else if HasBreak(s) then Err("it must not contain spaces")
    else if HasPrefix(s, "git@") then ParseScp(s[4..])
    else ParseUrl(DropScheme(s))
  }

  /** The scheme loop of ParseRepo. */
  method CutScheme(s: string) returns (t: string)
    ensures t == DropScheme(s)
  {
    var schemes := ["https://", "http://", "ssh://"];
    t := s;
    var k := 0;
    while k < |schemes|
      invariant 0 <= k <= |schemes| && t == s
      invariant forall j :: 0 <= j < k ==> !HasPrefix(s, schemes[j])
    {
      if HasPrefix(t, schemes[k]) {
        t := t[|schemes[k]|..];
        break;
      }
      k := k + 1;
    }
    SchemeDropped(s, t, k);
  }

  /** ParseRepo, as the sequence of cuts it is. */
  method ParseRepo(raw: string) returns (r: Result<Repo, string>)
    ensures r == Parse(raw)
  {
    hide TrimSpace, TrimLeft, TrimRight, TrimSuffix, Split, Lower, DropScheme, HasBreak;
    var s := TrimSpace(raw);
    if s == "" {
      return Err("repository is required");
    }
    if HasBreak(s) {
      return Err("it must not contain spaces");
    }
    if HasPrefix(s, "git@") {
      var rest := s[4..];
      if ':' !in rest {
        return Err("expected git@host:owner/name");
      }
      var i := IndexOf(rest, ':');
      s := rest[..i] + "/" + rest[i + 1..];
    } else {
      s := CutScheme(s);
      if '@' in s {
        if HasPrefix(s, "git@") {
          AfterUser(s);
          s := s[IndexOf(s, '@') + 1..];
        } else {
          return Err("remove the credentials from the URL");
        }
      }
    }
    assert Parse(raw) == ParsePath(s);
    s := TrimRight(TrimLeft(s, '/'), '/');
    s := TrimSuffix(s);
    s := CutBefore(s, '?');
    s := CutBefore(s, '#');
    var parts := Split(s, '/');
    if |parts| == 2 && '.' !in parts[0] {
      parts := [DEFAULT_HOST] + parts;
    }
    if |parts| < 3 {
      return Err("use owner/name or https://host/owner/name");
    }
    var repo := Repo(Lower(parts[0]), parts[1], parts[2]);
    if repo.host == "" || repo.owner == "" || repo.name == "" {
      return Err("use owner/name or https://host/owner/name");
    }
    return Ok(repo);
  }

  lemma AfterUser(s: string)
    requires HasPrefix(s, "git@")
    ensures '@' in s && IndexOf(s, '@') == 3
  {
    assert s[3] == '@';
    IndexOfAt("git", s[4..], '@');
    assert s == "git" + "@" + s[4..];
  }

  lemma SchemeDropped(before: string, s: string, k: nat)
    requires k <= 3
    requires var schemes := ["https://", "http://", "ssh://"];
      && (forall j :: 0 <= j < k ==> !HasPrefix(before, schemes[j]))
      && (k < 3 ==> HasPrefix(before, schemes[k]) && s == before[|schemes[k]|..])
      && (k == 3 ==> s == before)
    ensures s == DropScheme(before)
  {
    var schemes := ["https://", "http://", "ssh://"];
    assert k > 0 ==> !HasPrefix(before, schemes[0]);
    assert k > 1 ==> !HasPrefix(before, schemes[1]);
    assert k > 2 ==> !HasPrefix(before, schemes[2]);
  }

  // ---- parsing undoes printing ----

  /** A part that survives every cut. */
  predicate CleanPart(s: string) {
    && s != "" && '/' !in s && '?' !in s && '#' !in s && !HasBreak(s)
  }

  predicate Clean(r: Repo) {
    CleanPart(r.host) && CleanPart(r.owner) && CleanPart(r.name) && Lower(r.host) == r.host
  }

  predicate NoUser(r: Repo) {
    '@' !in r.host && '@' !in r.owner && '@' !in r.name
  }

  predicate EndsInGit(r: Repo) {
    HasSuffix(r.name, ".git")
  }

  predicate EndsInSpace(r: Repo) {
    r.name != "" && IsSpace(r.name[|r.name| - 1])
  }

  function Finish(h: string, o: string, n: string): Result<Repo, string> {
    if n == "" then Err("use owner/name or https://host/owner/name") else Ok(Repo(Lower(h), o, n))
  }

  lemma NotInConcat(a: string, b: string, c: char)
    ensures c in a + b <==> c in a || c in b
  {
    if c in a {
      var i :| 0 <= i < |a| && a[i] == c;
      assert (a + b)[i] == c;
    }
    if c in b {
      var i :| 0 <= i < |b| && b[i] == c;
      assert (a + b)[|a| + i] == c;
    }
  }

  lemma PathHas(h: string, o: string, n: string, c: char)
    requires c != '/'
    ensures c in Path(h, o, n) <==> c in h || c in o || c in n
  {
    NotInConcat(h + "/" + o + "/", n, c);
    NotInConcat(h + "/" + o, "/", c);
    NotInConcat(h + "/", o, c);
    NotInConcat(h, "/", c);
  }

  lemma NoTrim(s: string, c: char)
    requires s != "" && s[0] != c && s[|s| - 1] != c
    ensures TrimRight(TrimLeft(s, c), c) == s
  {
  }

  lemma SplitPath(h: string, o: string, n: string)
    requires '/' !in h && '/' !in o && '/' !in n
    ensures Split(Path(h, o, n), '/') == [h, o, n]
  {
    hide Split;
    SplitCons(h, o + "/" + n, '/');
    SplitCons(o, n, '/');
    assert Path(h, o, n) == h + "/" + (o + "/" + n);
    SplitOne(n);
  }

  lemma SplitOne(n: string)
    requires '/' !in n
    ensures Split(n, '/') == [n]
  {
  }

  lemma SuffixOfPath(h: string, o: string, n: string)
    requires n != ""
    ensures TrimSuffix(Path(h, o, n)) == Path(h, o, TrimSuffix(n))
  {
    var s, base := Path(h, o, n), h + "/" + o + "/";
    assert s == base + n;
    if |n| >= 4 {
      assert s[|s| - 4..] == n[|n| - 4..];
      if HasSuffix(n, ".git") {
        assert s[..|s| - 4] == base + n[..|n| - 4];
      }
    } else {
      if |s| >= 4 {
        assert s[|s| - 4..][3 - |n|] == s[|s| - |n| - 1] == '/';
        assert '/' !in ".git";
      }
    }
  }

  /** A path of three clean parts parses to them, less one `.git`. */
  lemma ParsePathOf(h: string, o: string, n: string)
    requires CleanPart(h) && CleanPart(o) && CleanPart(n)
    ensures ParsePath(Path(h, o, n)) == Finish(h, o, TrimSuffix(n))
  {
    hide TrimLeft, TrimRight, Split, HasBreak, Lower, TrimSuffix;
    var s := Path(h, o, n);
    assert s[0] == h[0] && h[0] in h;
    assert s[|s| - 1] == n[|n| - 1] && n[|n| - 1] in n;
    NoTrim(s, '/');
    SuffixOfPath(h, o, n);
    var n' := TrimSuffix(n);
    SuffixIsPrefix(n);
    PathHas(h, o, n', '?');
    PathHas(h, o, n', '#');
    SplitPath(h, o, n');
    LowerLaw(h);
  }

  lemma SuffixIsPrefix(n: string)
    ensures TrimSuffix(n) <= n
    ensures TrimSuffix(n) == n <==> !HasSuffix(n, ".git")
    ensures forall c :: c !in n ==> c !in TrimSuffix(n)
  {
  }

  /** HTTPS and SSH URLs of clean parts parse back to the repository they were printed for. */
  lemma HttpsOfClean(r: Repo)
    requires Clean(r) && NoUser(r)
    ensures Parse(Https(r)) == Ok(r)
  {
    hide TrimSpace, ParsePath, Lower;
    var n := r.name + ".git";
    var url, path := Https(r), Path(r.host, r.owner, n);
    assert url == "https://" + path;
    CleanGit(r.name);
    UrlParses(url, r.host, r.owner, n);
    ParsePathOf(r.host, r.owner, n);
  }

  lemma CleanGit(n: string)
    requires CleanPart(n)
    ensures CleanPart(n + ".git") && TrimSuffix(n + ".git") == n
    ensures '@' !in n ==> '@' !in n + ".git"
    ensures !IsSpace((n + ".git")[|n| + 3])
  {
    var g := n + ".git";
    NotInConcat(n, ".git", '/');
    NotInConcat(n, ".git", '?');
    NotInConcat(n, ".git", '#');
    NotInConcat(n, ".git", '@');
    NotInConcat(n, ".git", ' ');
    NotInConcat(n, ".git", '\t');
    NotInConcat(n, ".git", '\n');
    NotInConcat(n, ".git", '\r');
    assert g[|g| - 4..] == ".git";
    assert g[..|g| - 4] == n;
  }

  lemma BreakInConcat(a: string, b: string)
    ensures HasBreak(a + b) <==> HasBreak(a) || HasBreak(b)
  {
    NotInConcat(a, b, ' ');
    NotInConcat(a, b, '\t');
    NotInConcat(a, b, '\n');
    NotInConcat(a, b, '\r');
  }

  lemma NoBreakInPath(h: string, o: string, n: string)
    requires CleanPart(h) && CleanPart(o) && CleanPart(n)
    ensures !HasBreak(Path(h, o, n))
  {
    NoBreakInShorter(h, o, n);
  }

  lemma NoBreakInShorter(h: string, o: string, n: string)
    requires !HasBreak(h) && !HasBreak(o) && !HasBreak(n)
    ensures !HasBreak(Path(h, o, n))
  {
    hide HasBreak;
    Slash();
    BreakInConcat(h + "/" + o + "/", n);
    BreakInConcat(h + "/" + o, "/");
    BreakInConcat(h + "/", o);
    BreakInConcat(h, "/");
  }

  lemma Slash()
    ensures !HasBreak("/") && !HasBreak("https://") && !HasBreak("git@") && !HasBreak(":")
  {
  }

  lemma SshUnbroken(h: string, o: string, n: string)
    requires CleanPart(h) && CleanPart(o) && CleanPart(n)
    ensures !HasBreak("git@" + (h + ":" + (o + "/" + n)))
  {
    hide HasBreak;
    Slash();
    BreakInConcat("git@", h + ":" + (o + "/" + n));
    BreakInConcat(h + ":", o + "/" + n);
    BreakInConcat(h, ":");
    BreakInConcat(o + "/", n);
    BreakInConcat(o, "/");
  }

  /** An https URL over three clean parts is read from its path. */
  lemma UrlParses(url: string, h: string, o: string, n: string)
    requires CleanPart(h) && CleanPart(o) && CleanPart(n)
    requires url == "https://" + Path(h, o, n)
    requires !IsSpace(n[|n| - 1])
    ensures Parse(url) == ParseUrl(Path(h, o, n))
    ensures '@' !in h && '@' !in o && '@' !in n ==> Parse(url) == ParsePath(Path(h, o, n))
  {
    hide TrimSpace, ParsePath, HasBreak;
    TrimSpaceLaw(url);
    assert url[0] == 'h' && url[|url| - 1] == n[|n| - 1];
    assert Trimmed(url);
    Slash();
    NoBreakInPath(h, o, n);
    BreakInConcat("https://", Path(h, o, n));
    assert url[8..] == Path(h, o, n);
    PathHas(h, o, n, '@');
  }

  lemma SshOfClean(r: Repo)
    requires Clean(r) && ':' !in r.host
    ensures Parse(Ssh(r)) == Ok(r)
  {
    hide *;
    var n := r.name + ".git";
    var path := r.owner + "/" + n;
    CleanParts(r);
    CleanGit(r.name);
    SshShape(r);
    SshUnbroken(r.host, r.owner, n);
    ScpParses(r.host, path);
    assert r.host + "/" + path == r.host + "/" + r.owner + "/" + n;
    PathShape(r.host, r.owner, n);
    ParsePathOf(r.host, r.owner, n);
    FinishClean(r, n);
  }

  lemma PathShape(h: string, o: string, n: string)
    ensures Path(h, o, n) == h + "/" + o + "/" + n
  {
  }

  lemma FinishClean(r: Repo, n: string)
    requires Clean(r) && TrimSuffix(n) == r.name
    ensures Finish(r.host, r.owner, TrimSuffix(n)) == Ok(r)
  {
    hide Lower, TrimSuffix;
  }

  lemma SshShape(r: Repo)
    requires CleanPart(r.name)
    ensures var url := "git@" + (r.host + ":" + (r.owner + "/" + (r.name + ".git")));
      Ssh(r) == url && TrimSpace(url) == url
  {
    hide TrimSpace;
    var url := "git@" + (r.host + ":" + (r.owner + "/" + (r.name + ".git")));
    assert url[|url| - 1] == 't' && url[0] == 'g';
    TrimSpaceLaw(url);
  }

  /** A reference in the short form is read as the path it stands for. */
  lemma ScpParses(h: string, path: string)
    requires ':' !in h
    requires var url := "git@" + (h + ":" + path); TrimSpace(url) == url && !HasBreak(url)
    ensures Parse("git@" + (h + ":" + path)) == ParsePath(h + "/" + path)
  {
    hide TrimSpace, ParsePath, HasBreak;
    var rest := h + ":" + path;
    var url := "git@" + rest;
    assert url[4..] == rest && HasPrefix(url, "git@");
    IndexOfAt(h, path, ':');
    assert rest[|h|] == ':';
    assert rest[..|h|] == h && rest[|h| + 1..] == path;
  }

  // ---- exactly which repositories have a canonical form that reparses ----

  lemma {:induction false} PieceChars(s: string, c: char, i: nat, ch: char)
    requires i < |Split(s, c)| && ch in Split(s, c)[i]
    ensures ch in s
    decreases |s|
  {
    if c in s {
      var k := IndexOf(s, c);
      SliceChars(s, 0, k, ch);
      SliceChars(s, k + 1, |s|, ch);
      if i > 0 {
        PieceChars(s[k + 1..], c, i - 1, ch);
      }
    }
  }

  lemma SliceChars(s: string, lo: nat, hi: nat, ch: char)
    requires lo <= hi <= |s|
    ensures ch in s[lo..hi] ==> ch in s
  {
    assert forall j :: 0 <= j < hi - lo ==> s[lo..hi][j] == s[lo + j];
  }

  lemma PieceClean(s: string, i: nat)
    requires '?' !in s && '#' !in s && !HasBreak(s)
    requires i < |Split(s, '/')| && Split(s, '/')[i] != ""
    ensures CleanPart(Split(s, '/')[i])
  {
    hide Split;
    var p := Split(s, '/')[i];
    JoinSplit(s, '/');
    if '?' in p { PieceChars(s, '/', i, '?'); }
    if '#' in p { PieceChars(s, '/', i, '#'); }
    if ' ' in p { PieceChars(s, '/', i, ' '); }
    if '\t' in p { PieceChars(s, '/', i, '\t'); }
    if '\n' in p { PieceChars(s, '/', i, '\n'); }
    if '\r' in p { PieceChars(s, '/', i, '\r'); }
  }

  lemma LowerClean(s: string)
    requires CleanPart(s)
    ensures CleanPart(Lower(s)) && Lower(Lower(s)) == Lower(s)
  {
    hide Lower;
    LowerLaw(s);
    Unlowered(s, '/');
    Unlowered(s, '?');
    Unlowered(s, '#');
    Unlowered(s, ' ');
    Unlowered(s, '\t');
    Unlowered(s, '\n');
    Unlowered(s, '\r');
  }

  /** Lower-casing brings in no character but a lower-case letter. */
  lemma Unlowered(s: string, c: char)
    requires !('a' <= c <= 'z') && c !in s
    ensures c !in Lower(s)
  {
    hide Lower;
    LowerLaw(s);
    assert forall i :: 0 <= i < |s| ==> s[i] != c && Lower(s)[i] == LowerChar(s[i]);
  }

  /** What is left after the cuts: part of the reference, without the characters cut at. */
  lemma CutsShrink(s: string)
    ensures var t := CutBefore(CutBefore(TrimSuffix(TrimRight(TrimLeft(s, '/'), '/')), '?'), '#');
      && |t| <= |s| && '?' !in t && '#' !in t && (!HasBreak(s) ==> !HasBreak(t))
  {
    var a := TrimLeft(s, '/');
    TrimLeftIsSuffix(s, '/');
    TrimRightLaw(a, '/');
    var b := TrimSuffix(TrimRight(a, '/'));
    var c := CutBefore(b, '?');
    var t := CutBefore(c, '#');
    assert forall ch :: ch in t ==> ch in c && ch in b && ch in a && ch in s;
  }

  lemma {:induction false} TrimLeftIsSuffix(s: string, c: char)
    ensures HasSuffix(s, TrimLeft(s, c)) && forall ch :: ch in TrimLeft(s, c) ==> ch in s
  {
    if s != "" && s[0] == c {
      TrimLeftIsSuffix(s[1..], c);
    }
  }

  lemma {:induction false} JoinedLength(parts: seq<string>)
    requires |parts| >= 3
    ensures |Join(parts, '/')| >= |parts[0]| + |parts[1]| + |parts[2]| + 2
  {
    assert Join(parts, '/') == parts[0] + ['/'] + Join(parts[1..], '/');
    assert Join(parts[1..], '/') == parts[1] + ['/'] + Join(parts[2..], '/') by {
      assert parts[1..][1..] == parts[2..];
    }
    assert |Join(parts[2..], '/')| >= |parts[2]|;
  }

  lemma DefaultHostClean()
    ensures CleanPart(DEFAULT_HOST) && Lower(DEFAULT_HOST) == DEFAULT_HOST
  {
    hide Lower;
    LowerLaw(DEFAULT_HOST);
    assert forall i :: 0 <= i < |DEFAULT_HOST| ==> LowerChar(DEFAULT_HOST[i]) == DEFAULT_HOST[i];
  }

  /** Whatever a path parses to has clean parts, and none longer than the path allows. */
  lemma ParsePathClean(s: string, r: Repo)
    requires ParsePath(s) == Ok(r) && !HasBreak(s)
    ensures Clean(r)
    ensures r.host == DEFAULT_HOST || |r.host| + |r.owner| + |r.name| + 2 <= |s|
  {
    hide TrimLeft, TrimRight, TrimSuffix, CutBefore, Split, HasBreak, Lower, Join, CleanPart;
    var t := CutBefore(CutBefore(TrimSuffix(TrimRight(TrimLeft(s, '/'), '/')), '?'), '#');
    CutsShrink(s);
    var parts := Split(t, '/');
    DefaultHostClean();
    PartsClean(t, parts);
    JoinSplit(t, '/');
    if |parts| >= 3 {
      LowerLaw(parts[0]);
      JoinedLength(parts);
      LowerOfParts(parts);
    }
  }

  lemma PartsClean(t: string, parts: seq<string>)
    requires '?' !in t && '#' !in t && !HasBreak(t) && parts == Split(t, '/')
    ensures forall i :: 0 <= i < |parts| && parts[i] != "" ==> CleanPart(parts[i])
  {
    hide Split, CleanPart, HasBreak;
    forall i | 0 <= i < |parts| && parts[i] != "" ensures CleanPart(parts[i]) {
      PieceClean(t, i);
    }
  }

  lemma LowerOfParts(parts: seq<string>)
    requires |parts| >= 3
    requires forall i :: 0 <= i < |parts| && parts[i] != "" ==> CleanPart(parts[i])
    ensures parts[0] != "" ==> CleanPart(Lower(parts[0])) && Lower(Lower(parts[0])) == Lower(parts[0])
    ensures Lower(parts[0]) == "" <==> parts[0] == ""
  {
    hide CleanPart;
    LowerLaw(parts[0]);
    if parts[0] != "" {
      LowerClean(parts[0]);
    }
  }

  lemma NoBreakAfter(s: string, k: nat)
    requires k <= |s| && !HasBreak(s)
    ensures !HasBreak(s[k..]) && !HasBreak(s[..k])
  {
    assert s == s[..k] + s[k..];
    BreakInConcat(s[..k], s[k..]);
  }

  /** Whatever ParseRepo accepts has clean parts. */
  lemma AcceptedIsClean(raw: string, r: Repo)
    requires Parse(raw) == Ok(r)
    ensures Clean(r)
  {
    hide TrimSpace, ParsePath, HasBreak, Clean;
    var s := TrimSpace(raw);
    if HasPrefix(s, "git@") {
      var rest := s[4..];
      NoBreakAfter(s, 4);
      var i := IndexOf(rest, ':');
      NoBreakAfter(rest, i);
      NoBreakAfter(rest, i + 1);
      Slash();
      BreakInConcat(rest[..i] + "/", rest[i + 1..]);
      BreakInConcat(rest[..i], "/");
      ParsePathClean(rest[..i] + "/" + rest[i + 1..], r);
    } else {
      SchemeIsPrefix(s);
      var t := DropScheme(s);
      NoBreakAfter(s, |s| - |t|);
      if '@' in t {
        NoBreakAfter(t, 4);
        ParsePathClean(t[4..], r);
      } else {
        ParsePathClean(t, r);
      }
    }
  }

  lemma SchemeIsPrefix(s: string)
    ensures |DropScheme(s)| <= |s| && s[|s| - |DropScheme(s)|..] == DropScheme(s)
  {
  }

  /** The canonical form of a repository parses back to it exactly when its parts are clean, none
      holds an `@`, and the name ends neither in `.git` nor in white space. */
  lemma CanonicalReparses(r: Repo)
    ensures Parse(Canonical(r)) == Ok(r) <==> Clean(r) && NoUser(r) && !EndsInGit(r) && !EndsInSpace(r)
  {
    hide Clean, TrimSpace, TrimSuffix, Lower;
    if Clean(r) {
      CleanParts(r);
      if EndsInSpace(r) {
        SpaceIsLost(r);
      } else {
        UrlParses(Canonical(r), r.host, r.owner, r.name);
        if NoUser(r) {
          ParsePathOf(r.host, r.owner, r.name);
          SuffixIsPrefix(r.name);
        } else {
          UserIsLost(r, r.name);
        }
      }
    } else if Parse(Canonical(r)) == Ok(r) {
      AcceptedIsClean(Canonical(r), r);
    }
  }

  lemma CleanParts(r: Repo)
    requires Clean(r)
    ensures CleanPart(r.host) && CleanPart(r.owner) && CleanPart(r.name) && Lower(r.host) == r.host
    ensures r.host != "" && r.owner != "" && r.name != ""
  {
  }

  /** With an `@` in a part the canonical form is refused, or read as a shorter one. */
  lemma UserIsLost(r: Repo, n: string)
    requires Clean(r) && '@' in Path(r.host, r.owner, n) && |n| <= |r.name| && !HasBreak(n)
    ensures ParseUrl(Path(r.host, r.owner, n)) != Ok(r)
  {
    hide ParsePath, HasBreak, Lower;
    var s := Path(r.host, r.owner, n);
    if HasPrefix(s, "git@") {
      NoBreakInShorter(r.host, r.owner, n);
      NoBreakAfter(s, 4);
      assert s[3] == '@' && (|r.host| > 3 ==> s[3] == r.host[3]);
      assert |s| == |r.host| + |r.owner| + |n| + 2;
      assert |DEFAULT_HOST| > 3 && DEFAULT_HOST[3] == 'h';
      assert r.host != DEFAULT_HOST;
      if ParsePath(s[4..]) == Ok(r) {
        ParsePathClean(s[4..], r);
      }
    }
  }

  /** White space at the end of the name is trimmed away with the rest of the line. */
  lemma SpaceIsLost(r: Repo)
    requires Clean(r) && EndsInSpace(r)
    ensures Parse(Canonical(r)) != Ok(r)
  {
    hide TrimSpace, ParsePath, Lower, HasBreak, TrimRightSpace;
    CleanParts(r);
    var n := TrimRightSpace(r.name);
    SpaceTrimmed(r.name);
    TrimmedUrl(r);
    var s := Path(r.host, r.owner, n);
    var url := "https://" + s;
    NoBreakAfter(r.name, |n|);
    NoBreakInShorter(r.host, r.owner, n);
    Slash();
    BreakInConcat("https://", s);
    assert url[0] == 'h' && url[8..] == s && DropScheme(url) == s;
    assert !HasBreak(url) && !HasPrefix(url, "git@");
    assert Parse(Canonical(r)) == ParseUrl(s);
    if '@' in s {
      UserIsLost(r, n);
    } else if n == "" {
      TwoPartsLost(r);
    } else {
      CleanPrefix(r.name, |n|);
      ParsePathOf(r.host, r.owner, n);
      SuffixIsPrefix(n);
    }
  }

  lemma SpaceTrimmed(s: string)
    requires s != "" && IsSpace(s[|s| - 1])
    ensures var n := TrimRightSpace(s); |n| < |s| && n == s[..|n|]
  {
    TrimRightSpaceLaw(s[..|s| - 1]);
    TrimRightSpaceLaw(s);
  }

  lemma CleanPrefix(s: string, k: nat)
    requires CleanPart(s) && 0 < k <= |s|
    ensures CleanPart(s[..k])
  {
    assert s == s[..k] + s[k..];
    BreakInConcat(s[..k], s[k..]);
  }

  lemma TrimmedUrl(r: Repo)
    requires Clean(r)
    ensures TrimSpace(Canonical(r)) == "https://" + Path(r.host, r.owner, TrimRightSpace(r.name))
  {
    hide Lower, HasBreak;
    var url := Canonical(r);
    assert TrimLeftSpace(url) == url;
    var base := "https://" + r.host + "/" + r.owner + "/";
    assert url == base + r.name;
    TrimRightPart(base, r.name);
    assert base + TrimRightSpace(r.name) == "https://" + Path(r.host, r.owner, TrimRightSpace(r.name));
  }

  lemma {:induction false} TrimRightPart(base: string, n: string)
    requires base != "" && !IsSpace(base[|base| - 1])
    ensures TrimRightSpace(base + n) == base + TrimRightSpace(n)
    decreases |n|
  {
    if n == "" {
      assert base + n == base;
    } else if IsSpace(n[|n| - 1]) {
      TrimRightPart(base, n[..|n| - 1]);
      assert (base + n)[..|base + n| - 1] == base + n[..|n| - 1];
    }
  }

  /** `host/owner/` with nothing after it has no name. */
  lemma TwoPartsLost(r: Repo)
    requires Clean(r)
    ensures ParsePath(Path(r.host, r.owner, "")) != Ok(r)
  {
    hide HasBreak, Lower, TrimRight, TrimSuffix, Split;
    var s := Path(r.host, r.owner, "");
    var two := r.host + "/" + r.owner;
    assert s == two + "/";
    assert s[0] == r.host[0] && r.host[0] in r.host;
    TrimRightStep(two, '/');
    TrimRightLaw(two, '/');
    assert two[|two| - 1] == r.owner[|r.owner| - 1] && r.owner[|r.owner| - 1] in r.owner;
    assert TrimRight(TrimLeft(s, '/'), '/') == two;
    var o := TrimSuffix(r.owner);
    SuffixOfTwo(r.host, r.owner);
    SuffixIsPrefix(r.owner);
    TwoHas(r.host, o, '?');
    TwoHas(r.host, o, '#');
    assert ParsePath(s) == FromParts(Split(r.host + "/" + o, '/'));
    SplitCons(r.host, o, '/');
    SplitOne(o);
    assert Split(r.host + "/" + o, '/') == [r.host, o];
    DefaultHostClean();
    assert DEFAULT_HOST[6] == '.' && '.' in DEFAULT_HOST;
    assert Lower(DEFAULT_HOST) == DEFAULT_HOST;
  }

  lemma TwoHas(h: string, o: string, c: char)
    requires c != '/'
    ensures c in h + "/" + o <==> c in h || c in o
  {
    NotInConcat(h + "/", o, c);
    NotInConcat(h, "/", c);
  }

  lemma SuffixOfTwo(h: string, o: string)
    requires o != ""
    ensures TrimSuffix(h + "/" + o) == h + "/" + TrimSuffix(o)
  {
    var s, base := h + "/" + o, h + "/";
    if |o| >= 4 {
      assert s[|s| - 4..] == o[|o| - 4..];
      if HasSuffix(o, ".git") {
        assert s[..|s| - 4] == base + o[..|o| - 4];
      }
    } else if |s| >= 4 {
      assert s[|s| - 4..][3 - |o|] == s[|s| - |o| - 1] == '/';
      assert '/' !in ".git";
    }
  }

  /** So an accepted reference has a canonical form that reparses to itself exactly when its parts
      hold no `@` and its name ends neither in `.git` nor in white space. */
  lemma AcceptedReparses(raw: string, r: Repo)
    requires Parse(raw) == Ok(r)
    ensures Parse(Canonical(r)) == Parse(raw) <==> NoUser(r) && !EndsInGit(r) && !EndsInSpace(r)
  {
    AcceptedIsClean(raw, r);
    CanonicalReparses(r);
  }

  // ---- exactly which repositories have URLs that parse back ----

  /** The HTTPS URL parses back to its repository exactly when the parts are clean and none holds an `@`. */
  lemma HttpsParses(r: Repo)
    ensures Parse(Https(r)) == Ok(r) <==> Clean(r) && NoUser(r)
  {
    hide *;
    if Clean(r) {
      if NoUser(r) {
        HttpsOfClean(r);
      } else {
        UserUrlRefused(r);
      }
    } else if Parse(Https(r)) == Ok(r) {
      AcceptedIsClean(Https(r), r);
    }
  }

  lemma UserUrlRefused(r: Repo)
    requires Clean(r) && !NoUser(r)
    ensures Parse(Https(r)) != Ok(r)
  {
    hide Clean, Parse, ParseUrl, CleanPart;
    var n := r.name + ".git";
    CleanParts(r);
    CleanGit(r.name);
    assert Https(r) == "https://" + Path(r.host, r.owner, n);
    UrlParses(Https(r), r.host, r.owner, n);
    NotInConcat(r.name, ".git", '@');
    UserRefused(r, n);
  }

  /** With an `@` in it a path is refused, or read without the `git@` it begins with: as another host's. */
  lemma UserRefused(r: Repo, n: string)
    requires Clean(r) && CleanPart(n) && ('@' in r.host || '@' in r.owner || '@' in n)
    ensures ParseUrl(Path(r.host, r.owner, n)) != Ok(r)
  {
    hide ParsePath, HasBreak, Lower, CleanPart, Split;
    CleanParts(r);
    var s := Path(r.host, r.owner, n);
    PathHas(r.host, r.owner, n, '@');
    if HasPrefix(s, "git@") {
      HostHasUser(r.host, r.owner + "/" + n);
      assert s == r.host + "/" + (r.owner + "/" + n);
      var h := r.host[4..];
      assert s[4..] == h + "/" + r.owner + "/" + n;
      if h == "" {
        assert s[4..] == "/" + r.owner + "/" + n;
        TwoAreDefault(r.owner, n);
        NotDefault(r.host, '@');
      } else {
        CleanEnd(r.host, 4);
        ParsePathOf(h, r.owner, n);
        LowerLaw(h);
      }
    }
  }

  lemma HostHasUser(h: string, rest: string)
    requires '/' !in h && HasPrefix(h + "/" + rest, "git@")
    ensures HasPrefix(h, "git@") && '@' in h
  {
    var s := h + "/" + rest;
    assert s[0] == 'g' && s[1] == 'i' && s[2] == 't' && s[3] == '@';
    assert s[|h|] == '/';
    assert |h| >= 4 ==> h[..4] == s[..4] && h[3] == '@';
  }

  lemma NotDefault(h: string, c: char)
    requires c in h && (c == '@' || c == ':')
    ensures h != DEFAULT_HOST
  {
  }

  lemma CleanEnd(s: string, k: nat)
    requires CleanPart(s) && k < |s|
    ensures CleanPart(s[k..])
  {
    assert s == s[..k] + s[k..];
    BreakInConcat(s[..k], s[k..]);
  }

  /** Two parts, with nothing for a host before them, are the default host's. */
  lemma TwoAreDefault(o: string, n: string)
    requires CleanPart(o) && CleanPart(n)
    ensures var r := ParsePath("/" + o + "/" + n); r.Ok? ==> r.value.host == DEFAULT_HOST
  {
    hide TrimLeft, TrimRight, Split, HasBreak, Lower, TrimSuffix;
    var two := o + "/" + n;
    var s := "/" + o + "/" + n;
    assert s == "/" + two && two[0] == o[0] && o[0] in o;
    assert two[|two| - 1] == n[|n| - 1] && n[|n| - 1] in n;
    SlashTrimmed(two);
    SuffixOfTwo(o, n);
    SuffixIsPrefix(n);
    var n' := TrimSuffix(n);
    TwoHas(o, n', '?');
    TwoHas(o, n', '#');
    SplitCons(o, n', '/');
    SplitOne(n');
    assert Split(o + "/" + n', '/') == [o, n'];
    DefaultHostClean();
  }

  lemma SlashTrimmed(s: string)
    requires s != "" && s[0] != '/' && s[|s| - 1] != '/'
    ensures TrimRight(TrimLeft("/" + s, '/'), '/') == s
  {
    assert ("/" + s)[1..] == s;
    NoTrim(s, '/');
  }

  /** The SSH URL does exactly when the parts are clean and the host holds no colon. */
  lemma SshParses(r: Repo)
    ensures Parse(Ssh(r)) == Ok(r) <==> Clean(r) && ':' !in r.host
  {
    hide Clean, Parse;
    if Clean(r) {
      if ':' in r.host {
        ColonCuts(r);
      } else {
        SshOfClean(r);
      }
    } else if Parse(Ssh(r)) == Ok(r) {
      AcceptedIsClean(Ssh(r), r);
    }
  }

  /** A colon in the host is taken for the one after it. */
  lemma ColonCuts(r: Repo)
    requires Clean(r) && ':' in r.host
    ensures Parse(Ssh(r)) != Ok(r)
  {
    hide ParsePath, HasBreak, Lower, CleanPart, TrimSpace, Split, Parse;
    var n, i := r.name + ".git", IndexOf(r.host, ':');
    var a, b := r.host[..i], r.host[i + 1..];
    var o := b + ":" + r.owner;
    CleanParts(r);
    CleanGit(r.name);
    SshShape(r);
    SshUnbroken(r.host, r.owner, n);
    assert r.host == a + ":" + b;
    var path := b + ":" + (r.owner + "/" + n);
    assert r.host + ":" + (r.owner + "/" + n) == a + ":" + path;
    ScpParses(a, path);
    assert path == o + "/" + n;
    ColonPart(b, r.owner, r.host, i);
    if a == "" {
      assert a + "/" + path == "/" + o + "/" + n;
      TwoAreDefault(o, n);
      NotDefault(r.host, ':');
    } else {
      CleanPrefix(r.host, i);
      assert a + "/" + path == a + "/" + o + "/" + n;
      ParsePathOf(a, o, n);
      LowerLaw(a);
    }
  }

  lemma ColonPart(b: string, owner: string, host: string, i: nat)
    requires CleanPart(host) && CleanPart(owner) && i < |host| && b == host[i + 1..]
    ensures CleanPart(b + ":" + owner)
  {
    hide HasBreak;
    assert host == host[..i + 1] + b;
    BreakInConcat(host[..i + 1], b);
    Slash();
    BreakInConcat(b, ":");
    BreakInConcat(b + ":", owner);
    NotInConcat(b + ":", owner, '/');
    NotInConcat(b + ":", owner, '?');
    NotInConcat(b + ":", owner, '#');
  }

  // ---- the shorthand ----

  lemma TwoParsed(o: string, n: string)
    requires CleanPart(o) && CleanPart(n)
    ensures var short := TrimSuffix(n);
      if '.' in o || short == "" then ParsePath(o + "/" + n).Err?
      else ParsePath(o + "/" + n) == Ok(Repo("github.com", o, short))
  {
    hide TrimLeft, TrimRight, Split, HasBreak, Lower, TrimSuffix;
    var two := o + "/" + n;
    assert two[0] == o[0] && o[0] in o;
    assert two[|two| - 1] == n[|n| - 1] && n[|n| - 1] in n;
    NoTrim(two, '/');
    SuffixOfTwo(o, n);
    SuffixIsPrefix(n);
    var n' := TrimSuffix(n);
    TwoHas(o, n', '?');
    TwoHas(o, n', '#');
    SplitCons(o, n', '/');
    SplitOne(n');
    assert Split(o + "/" + n', '/') == [o, n'];
    DefaultHostClean();
  }

  lemma TwoWhole(o: string, n: string)
    requires CleanPart(o) && CleanPart(n) && !IsSpace(o[0]) && !IsSpace(n[|n| - 1]) && '@' !in o && '@' !in n
    ensures Parse(o + "/" + n) == ParsePath(o + "/" + n)
  {
    hide ParsePath, HasBreak, IsSpace, DropScheme, TrimSpace;
    var two := o + "/" + n;
    assert two[0] == o[0] && two[|two| - 1] == n[|n| - 1];
    TrimSpaceLaw(two);
    BreakInConcat(o + "/", n);
    BreakInConcat(o, "/");
    Slash();
    TwoHas(o, n, '@');
    UserHasSign(two);
    NoScheme(o, n);
  }

  lemma UserHasSign(s: string)
    ensures HasPrefix(s, "git@") ==> '@' in s
  {
    if HasPrefix(s, "git@") {
      assert s[3] == '@';
    }
  }

  lemma SchemeSlashes(s: string)
    ensures DropScheme(s) != s ==> exists i :: 0 <= i < |s| - 1 && s[i] == '/' && s[i + 1] == '/'
  {
    if HasPrefix(s, "https://") {
      assert s[6] == '/' && s[6 + 1] == '/';
    } else if HasPrefix(s, "http://") {
      assert s[5] == '/' && s[5 + 1] == '/';
    } else if HasPrefix(s, "ssh://") {
      assert s[4] == '/' && s[4 + 1] == '/';
    }
  }

  lemma NoScheme(o: string, n: string)
    requires '/' !in o && n != "" && '/' !in n
    ensures DropScheme(o + "/" + n) == o + "/" + n
  {
    var two := o + "/" + n;
    assert two[|o|] == '/' && forall i :: 0 <= i < |two| && two[i] == '/' ==> i == |o|;
    SchemeSlashes(two);
  }

  /** owner/name stands for that repository on github.com, with .git behind it or not; with a dot in its first
      part it would be a host without a repository, and is refused. */
  lemma ShorthandParses(o: string, n: string)
    requires CleanPart(o) && CleanPart(n) && !IsSpace(o[0]) && !IsSpace(n[|n| - 1]) && '@' !in o && '@' !in n
    ensures '.' in o ==> Parse(o + "/" + n).Err?
    ensures '.' !in o && !HasSuffix(n, ".git") ==> Parse(o + "/" + n) == Ok(Repo("github.com", o, n))
    ensures '.' !in o ==> Parse(o + "/" + (n + ".git")) == Ok(Repo("github.com", o, n))
  {
    hide Parse, ParsePath, CleanPart, TrimSuffix, IsSpace;
    TwoWhole(o, n);
    TwoParsed(o, n);
    SuffixIsPrefix(n);
    CleanGit(n);
    CleanNotEmpty(n);
    TwoWhole(o, n + ".git");
    TwoParsed(o, n + ".git");
  }

  lemma CleanNotEmpty(s: string)
    ensures CleanPart(s) ==> s != ""
  {
  }
}
