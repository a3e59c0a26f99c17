/** Unpacking uploaded code (internal/apps/upload.go): names are cleaned, packaging debris is skipped,
    one wrapper directory is dropped, and nothing is written outside the app folder. Nothing is lost
    or merged on the way, and zipping a folder or its contents comes to the same, but where the
    contents have a wrapper of their own. */
module Archive {
  import opened Text
  import opened Wrappers

  /** A cleaned slash-separated path: "." is the empty relative one. */
  datatype Path = Path(rooted: bool, parts: seq<string>)

  datatype Type = Dir | Regular | Other

  datatype Entry = Entry(name: string, kind: Type, content: string)

  /** One file to write, by its path below the app folder. */
  datatype Write = Write(target: seq<string>, content: string)

  // ---- path.Clean ----

  function Push(stack: seq<string>, e: string, rooted: bool): seq<string> {
    if e == "" || e == "." then stack
    else if e != ".." then stack + [e]
    else if stack != [] && stack[|stack| - 1] != ".." then stack[..|stack| - 1]
    else if rooted then stack
    else stack + [".."]
  }

  function Stack(elements: seq<string>, rooted: bool): seq<string> {
    if elements == [] then []
    else Push(Stack(elements[..|elements| - 1], rooted), elements[|elements| - 1], rooted)
  }

  function Clean(name: string): Path {
    var rooted := HasPrefix(name, "/");
    Path(rooted, Stack(Split(name, '/'), rooted))
  }

  // ---- what an entry is ----

  /** junk. */
  predicate Junk(p: Path) {
    (!p.rooted && p.parts != [] && p.parts[0] == "__MACOSX") || (p.parts != [] && p.parts[|p.parts| - 1] == ".DS_Store")
  }

  /** The archive's own folder: nothing to write. */
  predicate Dot(p: Path) {
    !p.rooted && p.parts == []
  }

  predicate Local(p: Path) {
    !p.rooted && p.parts != [] && p.parts[0] != ".."
  }

  /** What comes before the first slash, and whether there is one. */
  function First(p: Path): string {
    if p.rooted then "" else if p.parts == [] then "." else p.parts[0]
  }

  predicate Nested(p: Path) {
    p.rooted || |p.parts| > 1
  }

  function WrapperFrom(files: seq<Path>, root: string): string {
    if files == [] then root
    else if !Nested(files[0]) then ""
    else if root == "" then WrapperFrom(files[1..], First(files[0]))
    else if First(files[0]) != root then ""
    else WrapperFrom(files[1..], root)
  }

  /** wrapperDir. */
  method WrapperDir(files: seq<Path>) returns (root: string)
    ensures root == WrapperFrom(files, "")
  {
    root := "";
    for i := 0 to |files|
      invariant WrapperFrom(files[i..], root) == WrapperFrom(files, "")
    {
      var first, nested := First(files[i]), Nested(files[i]);
      assert files[i..][1..] == files[i + 1..];
      if !nested {
        return "";
      }
      if root == "" {
        root := first;
      } else if first != root {
        return "";
      }
    }
  }

  /** entryPath: where below the app folder an entry goes, [] for nowhere. */
  function EntryPath(p: Path, root: string): Result<seq<string>, string> {
    if Dot(p) then Ok([])
    else if !Local(p) then Err("archive entry escapes the app folder")
    else if root == "" then Ok(p.parts)
    else if p.parts[0] == root then Ok(p.parts[1..])
    else Ok([])
  }

  /** The files the wrapper is looked for in: a zip lists everything but directories, a tar only
      regular files. */
  predicate Listed(e: Entry, zip: bool) {
    !Junk(Clean(e.name)) && (if zip then e.kind != Dir else e.kind == Regular)
  }

  function Files(entries: seq<Entry>, zip: bool): seq<Path> {
    if entries == [] then []
    else
      var init, last := entries[..|entries| - 1], entries[|entries| - 1];
      Files(init, zip) + if Listed(last, zip) then [Clean(last.name)] else []
  }

  function Plan(entries: seq<Entry>, root: string): Result<seq<Write>, string> {
    if entries == [] then Ok([])
    else
      var init, last := entries[..|entries| - 1], entries[|entries| - 1];
      var before := Plan(init, root);
      if before.Err? || Junk(Clean(last.name)) then before
      else
        match EntryPath(Clean(last.name), root)
        case Err(e) => Err(e)
        case Ok(rel) =>
          if rel != [] && last.kind == Regular then Ok(before.value + [Write(rel, last.content)]) else before
  }

  function Unpacked(entries: seq<Entry>, zip: bool): Result<seq<Write>, string> {
    var plan := Plan(entries, WrapperFrom(Files(entries, zip), ""));
    if plan.Ok? && plan.value == [] then Err("the uploaded archive has no files in it") else plan
  }

  /** unzipUpload and untarGzUpload: one pass to find the wrapper, one to write. */
  method Unpack(entries: seq<Entry>, zip: bool) returns (r: Result<seq<Write>, string>)
    ensures r == Unpacked(entries, zip)
  {
    hide Clean, Junk, EntryPath, WrapperFrom;
    var files: seq<Path> := [];
    for i := 0 to |entries|
      invariant files == Files(entries[..i], zip)
    {
      assert entries[..i + 1][..i] == entries[..i];
      if Listed(entries[i], zip) {
        files := files + [Clean(entries[i].name)];
      }
    }
    assert entries[..|entries|] == entries;
    var root := WrapperDir(files);
    hide Files, WrapperFrom;

    var written: seq<Write> := [];
    for i := 0 to |entries|
      invariant Plan(entries[..i], root) == Ok(written)
    {
      var e := entries[i];
      assert entries[..i + 1][..i] == entries[..i];
      ErrStays(entries, i + 1, root);
      if Junk(Clean(e.name)) {
        continue;
      }
      var rel := EntryPath(Clean(e.name), root);
      if rel.Err? {
        return Err(rel.error);
      }
      if rel.value == [] {
        continue;
      }
      if e.kind == Regular {
        written := written + [Write(rel.value, e.content)];
      }
    }
    if |written| == 0 {
      return Err("the uploaded archive has no files in it");
    }
    return Ok(written);
  }

  lemma {:induction false} ErrStays(entries: seq<Entry>, k: nat, root: string)
    requires k <= |entries|
    ensures Plan(entries[..k], root).Err? ==> Plan(entries, root) == Plan(entries[..k], root)
    decreases |entries|
  {
    hide Clean, Junk, EntryPath;
    if k < |entries| {
      ErrStays(entries[..|entries| - 1], k, root);
      assert entries[..|entries| - 1][..k] == entries[..k];
    } else {
      assert entries[..k] == entries;
    }
  }

  // ---- clean paths ----

  predicate Plain(e: string) {
    e != "" && e != "." && e != ".." && '/' !in e
  }

  /** No empty names, and parent steps only at the bottom. */
  predicate Cleaned(s: seq<string>, rooted: bool) {
    && (forall i :: 0 <= i < |s| ==> s[i] == ".." || Plain(s[i]))
    && (forall i :: 0 <= i < |s| && s[i] == ".." ==> !rooted && forall j :: 0 <= j <= i ==> s[j] == "..")
  }

  lemma PushCleaned(stack: seq<string>, e: string, rooted: bool)
    requires Cleaned(stack, rooted) && '/' !in e
    ensures Cleaned(Push(stack, e, rooted), rooted)
  {
    if e == ".." && stack != [] && stack[|stack| - 1] == ".." {
      assert forall j :: 0 <= j < |stack| ==> stack[j] == "..";
    }
  }

  lemma {:induction false} StackCleaned(elements: seq<string>, rooted: bool)
    requires forall i :: 0 <= i < |elements| ==> '/' !in elements[i]
    ensures Cleaned(Stack(elements, rooted), rooted)
  {
    hide Push, Cleaned;
    if elements == [] {
      NothingCleaned(rooted);
    } else {
      var init, last := elements[..|elements| - 1], elements[|elements| - 1];
      StackCleaned(init, rooted);
      PushCleaned(Stack(init, rooted), last, rooted);
    }
  }

  lemma NothingCleaned(rooted: bool)
    ensures Cleaned([], rooted)
  {
  }

  lemma CleanCleaned(name: string)
    ensures Cleaned(Clean(name).parts, Clean(name).rooted)
  {
    hide Split, Cleaned, Stack;
    JoinSplit(name, '/');
    StackCleaned(Split(name, '/'), HasPrefix(name, "/"));
  }

  /** A local path has only plain names in it. */
  lemma LocalIsPlain(name: string)
    requires Local(Clean(name))
    ensures forall i :: 0 <= i < |Clean(name).parts| ==> Plain(Clean(name).parts[i])
  {
    hide Clean;
    CleanCleaned(name);
  }

  // ---- nothing is lost, merged, or written outside ----

  predicate IsCode(e: Entry) {
    e.kind == Regular && !Junk(Clean(e.name))
  }

  /** The regular files of an archive that are code, with their cleaned names, in order. */
  function Code(entries: seq<Entry>): seq<Write> {
    if entries == [] then []
    else
      var init, last := entries[..|entries| - 1], entries[|entries| - 1];
      Code(init) + if IsCode(last) && !Dot(Clean(last.name)) then [Write(Clean(last.name).parts, last.content)] else []
  }

  /** Whether every entry that is not debris names a path inside, or the folder itself. */
  predicate AllInside(entries: seq<Entry>) {
    forall i :: 0 <= i < |entries| && !Junk(Clean(entries[i].name)) ==>
      Dot(Clean(entries[i].name)) || Local(Clean(entries[i].name))
  }

  /** Extraction plans exactly the code, each file at its cleaned name less the first `drop` parts. */
  ghost predicate Relocated(plan: seq<Write>, code: seq<Write>, drop: nat) {
    |plan| == |code| && forall i :: 0 <= i < |code| ==>
      drop < |code[i].target| && plan[i] == Write(code[i].target[drop..], code[i].content)
  }

  /** With a wrapper, every listed file is inside it, below the top. */
  ghost predicate Wrapped(entries: seq<Entry>, root: string) {
    root != "" ==> forall i :: 0 <= i < |entries| && IsCode(entries[i]) && Local(Clean(entries[i].name)) ==>
      |Clean(entries[i].name).parts| > 1 && Clean(entries[i].name).parts[0] == root
  }

  lemma {:induction false} PlanIs(entries: seq<Entry>, root: string)
    requires Wrapped(entries, root)
    ensures Plan(entries, root).Ok? <==> AllInside(entries)
    ensures Plan(entries, root).Ok? ==> Relocated(Plan(entries, root).value, Code(entries), if root == "" then 0 else 1)
  {
    hide Clean;
    if entries != [] {
      var init, last := entries[..|entries| - 1], entries[|entries| - 1];
      PlanIs(init, root);
    }
  }

  /** A wrapper is every listed file's first part. */
  lemma {:induction false} WrapperIs(files: seq<Path>, root: string)
    requires WrapperFrom(files, root) != ""
    ensures forall i :: 0 <= i < |files| ==> Nested(files[i]) && First(files[i]) in {"", WrapperFrom(files, root)}
    ensures root in {"", WrapperFrom(files, root)}
  {
    if files != [] {
      WrapperIs(files[1..], if root == "" then First(files[0]) else root);
    }
  }

  lemma {:induction false} FilesHas(entries: seq<Entry>, zip: bool, i: nat)
    requires i < |entries| && Listed(entries[i], zip)
    ensures Clean(entries[i].name) in Files(entries, zip)
  {
    hide Clean;
    if i < |entries| - 1 {
      FilesHas(entries[..|entries| - 1], zip, i);
    }
  }

  lemma WrapperWraps(entries: seq<Entry>, zip: bool)
    ensures Wrapped(entries, WrapperFrom(Files(entries, zip), ""))
  {
    hide Clean, Files;
    var files := Files(entries, zip);
    var root := WrapperFrom(files, "");
    if root != "" {
      WrapperIs(files, "");
      forall i | 0 <= i < |entries| && IsCode(entries[i]) && Local(Clean(entries[i].name))
        ensures |Clean(entries[i].name).parts| > 1 && Clean(entries[i].name).parts[0] == root
      {
        FilesHas(entries, zip, i);
        LocalIsPlain(entries[i].name);
      }
    }
  }

  /** Extraction fails exactly when some entry points outside or there is no code; otherwise it writes
      every file of code and nothing else, all relocated alike. */
  lemma NothingLost(entries: seq<Entry>, zip: bool)
    ensures Unpacked(entries, zip).Ok? <==> AllInside(entries) && Code(entries) != []
    ensures Unpacked(entries, zip).Ok? ==>
              Relocated(Unpacked(entries, zip).value, Code(entries),
                        if WrapperFrom(Files(entries, zip), "") == "" then 0 else 1)
  {
    hide Clean, Files, Plan, Code, AllInside;
    WrapperWraps(entries, zip);
    PlanIs(entries, WrapperFrom(Files(entries, zip), ""));
  }

  lemma {:induction false} CodeIsInside(entries: seq<Entry>, k: nat)
    requires AllInside(entries) && k < |Code(entries)|
    ensures exists i :: 0 <= i < |entries|
             && Code(entries)[k] == Write(Clean(entries[i].name).parts, entries[i].content)
                        && IsCode(entries[i]) && Local(Clean(entries[i].name))
  {
    hide Clean;
    var init, last := entries[..|entries| - 1], entries[|entries| - 1];
    if k < |Code(init)| {
      CodeIsInside(init, k);
      var i :| 0 <= i < |init| && Code(init)[k] == Write(Clean(init[i].name).parts, init[i].content)
               && IsCode(init[i]) && Local(Clean(init[i].name));
      assert entries[i] == init[i];
    } else {
      assert entries[|entries| - 1] == last;
    }
  }

  /** No target leaves the app folder: it has a name, and none of its names is a step up or hides a
      separator. */
  lemma NothingOutside(entries: seq<Entry>, zip: bool, k: nat)
    requires Unpacked(entries, zip).Ok? && k < |Unpacked(entries, zip).value|
    ensures var t := Unpacked(entries, zip).value[k].target;
      t != [] && forall j :: 0 <= j < |t| ==> Plain(t[j])
  {
    hide Clean, Files, Plan, Code, AllInside, Unpacked;
    NothingLost(entries, zip);
    CodeIsInside(entries, k);
    var i :| 0 <= i < |entries| && Code(entries)[k] == Write(Clean(entries[i].name).parts, entries[i].content)
             && Local(Clean(entries[i].name));
    LocalIsPlain(entries[i].name);
  }

  /** Files with different cleaned names go to different places. */
  lemma NothingMerged(entries: seq<Entry>, zip: bool, i: nat, j: nat)
    requires Unpacked(entries, zip).Ok? && i < |Code(entries)| && j < |Code(entries)|
    requires Code(entries)[i].target != Code(entries)[j].target
    ensures i < |Unpacked(entries, zip).value| && j < |Unpacked(entries, zip).value|
    ensures Unpacked(entries, zip).value[i].target != Unpacked(entries, zip).value[j].target
  {
    hide Clean, Files, Plan, Unpacked, AllInside;
    NothingLost(entries, zip);
    var root := WrapperFrom(Files(entries, zip), "");
    if root != "" {
      WrapperWraps(entries, zip);
      CodeWrapped(entries, root, i);
      CodeWrapped(entries, root, j);
      var a, b := Code(entries)[i].target, Code(entries)[j].target;
      assert a == [root] + a[1..] && b == [root] + b[1..];
    }
  }

  lemma CodeWrapped(entries: seq<Entry>, root: string, k: nat)
    requires Wrapped(entries, root) && root != "" && AllInside(entries) && k < |Code(entries)|
    ensures Code(entries)[k].target != [] && Code(entries)[k].target[0] == root
  {
    hide Clean, Code, AllInside;
    CodeIsInside(entries, k);
    var i :| 0 <= i < |entries| && Code(entries)[k] == Write(Clean(entries[i].name).parts, entries[i].content)
             && IsCode(entries[i]) && Local(Clean(entries[i].name));
  }

  // ---- zipping a folder instead of its contents ----

  function Wrap(entries: seq<Entry>, w: string): seq<Entry> {
    seq(|entries|, i requires 0 <= i < |entries| => entries[i].(name := w + "/" + entries[i].name))
  }

  /** A folder's name that means nothing to the unpacker. */
  predicate Ordinary(w: string) {
    Plain(w) && w != "__MACOSX" && w != ".DS_Store"
  }

  /** Every name stays inside, none is under a top-level __MACOSX, and no listed entry is the folder. */
  predicate Contained(entries: seq<Entry>, zip: bool) {
    forall i :: 0 <= i < |entries| ==>
      var p := Clean(entries[i].name);
      && (Dot(p) || Local(p))
      && (p.parts != [] ==> p.parts[0] != "__MACOSX")
      && (Listed(entries[i], zip) || IsCode(entries[i]) ==> !Dot(p))
  }

  lemma {:induction false} BottomStays(elements: seq<string>, k: nat)
    requires k <= |elements|
    ensures var s, t := Stack(elements[..k], false), Stack(elements, false);
      s != [] && s[0] == ".." ==> t != [] && t[0] == ".."
    decreases |elements|
  {
    hide Push;
    if k < |elements| {
      var init := elements[..|elements| - 1];
      BottomStays(init, k);
      assert init[..k] == elements[..k];
      PushOnParent(Stack(init, false), elements[|elements| - 1]);
    } else {
      assert elements[..k] == elements;
    }
  }

  lemma PushOnParent(s: seq<string>, e: string)
    ensures s != [] && s[0] == ".." ==> Push(s, e, false) != [] && Push(s, e, false)[0] == ".."
  {
  }

  lemma {:induction false} StackWrapped(w: string, elements: seq<string>)
    requires Plain(w)
    requires Stack(elements, false) != [] ==> Stack(elements, false)[0] != ".."
    ensures Stack([w] + elements, false) == [w] + Stack(elements, false)
  {
    hide Push;
    if elements == [] {
      StackOne(w);
      assert [w] + elements == [w];
    } else {
      var init, last := elements[..|elements| - 1], elements[|elements| - 1];
      BottomStays(elements, |init|);
      StackWrapped(w, init);
      assert ([w] + elements)[..|elements|] == [w] + init;
      PushWrapped(w, Stack(init, false), last);
    }
  }

  lemma StackOne(w: string)
    requires Plain(w)
    ensures Stack([w], false) == [w] + Stack([], false)
  {
    assert Stack([], false) == [];
    var one := [w];
    assert one[..0] == [];
  }

  lemma PushWrapped(w: string, s: seq<string>, e: string)
    requires Plain(w) && (Push(s, e, false) != [] ==> Push(s, e, false)[0] != "..")
    ensures Push([w] + s, e, false) == [w] + Push(s, e, false)
  {
    if e == ".." && s != [] {
      assert ([w] + s)[..|s|] == [w] + s[..|s| - 1];
    }
  }

  lemma CleanWrapped(w: string, name: string)
    requires Plain(w) && (Dot(Clean(name)) || Local(Clean(name)))
    ensures Clean(w + "/" + name) == Path(false, [w] + Clean(name).parts)
  {
    hide Split, Stack;
    var all := w + "/" + name;
    assert all[0] == w[0] && w[0] in w;
    SplitCons(w, name, '/');
    StackWrapped(w, Split(name, '/'));
  }

  /** What wrapping does to one entry: nothing but the extra part. */
  lemma EntryWrapped(e: Entry, w: string, zip: bool)
    requires Ordinary(w)
    requires var p := Clean(e.name); (Dot(p) || Local(p)) && (p.parts != [] ==> p.parts[0] != "__MACOSX")
    ensures var e' := e.(name := w + "/" + e.name);
      && Clean(e'.name) == Path(false, [w] + Clean(e.name).parts)
      && (Junk(Clean(e'.name)) <==> Junk(Clean(e.name)))
      && (Listed(e', zip) <==> Listed(e, zip)) && (IsCode(e') <==> IsCode(e))
  {
    hide Clean;
    CleanWrapped(w, e.name);
  }

  lemma WrapSnoc(entries: seq<Entry>, w: string)
    requires entries != []
    ensures var n := |entries| - 1;
      Wrap(entries, w) == Wrap(entries[..n], w) + [entries[n].(name := w + "/" + entries[n].name)]
  {
  }

  lemma ContainedInit(entries: seq<Entry>, zip: bool)
    requires entries != [] && Contained(entries, zip)
    ensures Contained(entries[..|entries| - 1], zip)
  {
    hide Clean, Junk;
    var init := entries[..|entries| - 1];
    assert forall i :: 0 <= i < |init| ==> init[i] == entries[i];
  }

  lemma CodeSnoc(entries: seq<Entry>, e: Entry)
    ensures Code(entries + [e])
            == Code(entries) + if IsCode(e) && !Dot(Clean(e.name)) then [Write(Clean(e.name).parts, e.content)] else []
  {
    hide Clean, Junk;
    assert (entries + [e])[..|entries|] == entries;
  }

  lemma FilesSnoc(entries: seq<Entry>, e: Entry, zip: bool)
    ensures Files(entries + [e], zip) == Files(entries, zip) + if Listed(e, zip) then [Clean(e.name)] else []
  {
    hide Clean, Junk;
    assert (entries + [e])[..|entries|] == entries;
  }

  lemma {:induction false} CodeOfWrap(entries: seq<Entry>, w: string, zip: bool)
    requires Ordinary(w) && Contained(entries, zip)
    ensures |Code(Wrap(entries, w))| == |Code(entries)|
    ensures forall i :: 0 <= i < |Code(entries)| ==>
              Code(Wrap(entries, w))[i] == Write([w] + Code(entries)[i].target, Code(entries)[i].content)
  {
    hide Clean, Junk, Code, Wrap, IsCode, Contained, Ordinary;
    if entries == [] {
      NoEntries(w, zip);
    } else {
      var init, last := entries[..|entries| - 1], entries[|entries| - 1];
      LastContained(entries, zip);
      ContainedInit(entries, zip);
      CodeOfWrap(init, w, zip);
      EntryWrapped(last, w, zip);
      WrapSnoc(entries, w);
      assert entries == init + [last];
      CodeSnoc(init, last);
      CodeSnoc(Wrap(init, w), last.(name := w + "/" + last.name));
    }
  }

  lemma {:induction false} FilesOfWrap(entries: seq<Entry>, w: string, zip: bool)
    requires Ordinary(w) && Contained(entries, zip)
    ensures |Files(Wrap(entries, w), zip)| == |Files(entries, zip)|
    ensures forall i :: 0 <= i < |Files(entries, zip)| ==>
              Files(Wrap(entries, w), zip)[i] == Path(false, [w] + Files(entries, zip)[i].parts)
              && Files(entries, zip)[i].parts != []
  {
    hide Clean, Junk, Files, Wrap, Listed, Contained, Ordinary;
    if entries == [] {
      NoEntries(w, zip);
    } else {
      var init, last := entries[..|entries| - 1], entries[|entries| - 1];
      LastContained(entries, zip);
      ContainedInit(entries, zip);
      FilesOfWrap(init, w, zip);
      EntryWrapped(last, w, zip);
      WrapSnoc(entries, w);
      assert entries == init + [last];
      FilesSnoc(init, last, zip);
      FilesSnoc(Wrap(init, w), last.(name := w + "/" + last.name), zip);
    }
  }

  lemma NoEntries(w: string, zip: bool)
    ensures Wrap([], w) == [] && Code([]) == [] && Files([], zip) == []
  {
  }

  lemma LastContained(entries: seq<Entry>, zip: bool)
    requires entries != [] && Contained(entries, zip)
    ensures var e := entries[|entries| - 1]; var p := Clean(e.name);
      && (Dot(p) || Local(p)) && (p.parts != [] ==> p.parts[0] != "__MACOSX")
      && (Listed(e, zip) || IsCode(e) ==> !Dot(p))
  {
    hide Clean, Junk;
  }

  lemma InsideOfWrap(entries: seq<Entry>, w: string, zip: bool)
    requires Ordinary(w) && Contained(entries, zip)
    ensures AllInside(Wrap(entries, w)) && AllInside(entries)
  {
    hide Clean, Junk;
    forall i | 0 <= i < |entries|
      ensures Clean(Wrap(entries, w)[i].name) == Path(false, [w] + Clean(entries[i].name).parts)
    {
      EntryWrapped(entries[i], w, zip);
    }
  }

  lemma {:induction false} AllUnder(files: seq<Path>, w: string, root: string)
    requires w != "" && root in {"", w} && (files == [] ==> root == w)
    requires forall i :: 0 <= i < |files| ==> Nested(files[i]) && First(files[i]) == w
    ensures WrapperFrom(files, root) == w
  {
    if files != [] {
      AllUnder(files[1..], w, w);
    }
  }

  lemma {:induction false} CodeIsListed(entries: seq<Entry>, zip: bool)
    ensures Code(entries) != [] ==> Files(entries, zip) != []
  {
    hide Clean, Junk;
    if entries != [] {
      CodeIsListed(entries[..|entries| - 1], zip);
    }
  }

  /** Zipping the folder instead of its contents unpacks to the same tree, exactly when the contents
      have no wrapper of their own to lose (or no code at all). */
  lemma WrappingIsInvisible(entries: seq<Entry>, w: string, zip: bool)
    requires Ordinary(w) && Contained(entries, zip)
    ensures Unpacked(Wrap(entries, w), zip) == Unpacked(entries, zip)
            <==> WrapperFrom(Files(entries, zip), "") == "" || Code(entries) == []
  {
    hide Clean, Junk, Files, Plan, Code, AllInside, Wrap;
    var wrapped := Wrap(entries, w);
    CodeOfWrap(entries, w, zip);
    FilesOfWrap(entries, w, zip);
    InsideOfWrap(entries, w, zip);
    NothingLost(entries, zip);
    NothingLost(wrapped, zip);
    if Code(entries) == [] {
      assert Code(wrapped) == [];
      EmptyOnly(entries, zip);
      EmptyOnly(wrapped, zip);
    } else {
      CodeIsListed(entries, zip);
      AllUnder(Files(wrapped, zip), w, "");
      var a, b := Unpacked(wrapped, zip).value, Unpacked(entries, zip).value;
      assert forall i :: 0 <= i < |a|
              ==> a[i].target == Code(entries)[i].target && a[i].content == Code(entries)[i].content;
      if WrapperFrom(Files(entries, zip), "") == "" {
        assert forall i :: 0 <= i < |b| ==> b[i].target == Code(entries)[i].target;
        assert a == b;
      } else {
        assert |b[0].target| < |a[0].target|;
      }
    }
  }

  lemma EmptyOnly(entries: seq<Entry>, zip: bool)
    requires AllInside(entries) && Code(entries) == []
    ensures Unpacked(entries, zip) == Err("the uploaded archive has no files in it")
  {
    hide Clean, Junk, Files, Code, AllInside;
    WrapperWraps(entries, zip);
    PlanIs(entries, WrapperFrom(Files(entries, zip), ""));
  }

  // ---- what a name is cleaned to ----

  lemma StackSnoc(elements: seq<string>, e: string, rooted: bool)
    ensures Stack(elements + [e], rooted) == Push(Stack(elements, rooted), e, rooted)
  {
    assert (elements + [e])[..|elements|] == elements;
  }

  /** Empty names and single dots are skipped, and a name followed by a step up is gone with it. */
  lemma {:induction false} StackSkips(a: seq<string>, b: seq<string>, rooted: bool, name: string)
    ensures Stack(a + ["."] + b, rooted) == Stack(a + [""] + b, rooted) == Stack(a + b, rooted)
    ensures Plain(name) ==> Stack(a + [name] + [".."] + b, rooted) == Stack(a + b, rooted)
    decreases |b|
  {
    hide Stack, Push, Plain;
    if b == [] {
      StackSnoc(a, ".", rooted);
      StackSnoc(a, "", rooted);
      StackSnoc(a, name, rooted);
      StackSnoc(a + [name], "..", rooted);
      PushSkips(Stack(a, rooted), rooted, name);
      assert a + b == a && a + ["."] + b == a + ["."] && a + [""] + b == a + [""];
      assert a + [name] + [".."] + b == a + [name] + [".."];
    } else {
      var init, last := b[..|b| - 1], b[|b| - 1];
      StackSkips(a, init, rooted, name);
      StackSnoc(a + init, last, rooted);
      StackSnoc(a + ["."] + init, last, rooted);
      StackSnoc(a + [""] + init, last, rooted);
      StackSnoc(a + [name] + [".."] + init, last, rooted);
      assert b == init + [last];
      assert a + b == a + init + [last] && a + ["."] + b == a + ["."] + init + [last];
      assert a + [""] + b == a + [""] + init + [last];
      assert a + [name] + [".."] + b == a + [name] + [".."] + init + [last];
    }
  }

  lemma PushSkips(stack: seq<string>, rooted: bool, name: string)
    ensures Push(stack, ".", rooted) == Push(stack, "", rooted) == stack
    ensures Plain(name) ==> Push(Push(stack, name, rooted), "..", rooted) == stack
  {
  }

  lemma {:induction false} StackPlain(parts: seq<string>)
    requires forall i :: 0 <= i < |parts| ==> Plain(parts[i])
    ensures Stack(parts, false) == parts
  {
    if parts != [] {
      StackPlain(parts[..|parts| - 1]);
      assert parts == parts[..|parts| - 1] + [parts[|parts| - 1]];
    }
  }

  /** Plain names joined by slashes are what the joined name is cleaned to, and such a name is debris exactly
      under __MACOSX or as a .DS_Store. */
  lemma PlainName(parts: seq<string>)
    requires parts != [] && forall i :: 0 <= i < |parts| ==> Plain(parts[i])
    ensures Clean(Join(parts, '/')) == Path(false, parts)
    ensures Junk(Clean(Join(parts, '/'))) <==> parts[0] == "__MACOSX" || parts[|parts| - 1] == ".DS_Store"
  {
    hide Split, Stack;
    SplitJoin(parts, '/');
    StackPlain(parts);
    assert parts[0] != "" && '/' !in parts[0];
    assert Join(parts, '/')[0] == parts[0][0] && parts[0][0] in parts[0];
  }

  // ---- packaging debris ----

  /** What a Mac adds to an archive: anything in a top-level __MACOSX, and .DS_Store in any folder. */
  ghost predicate Debris(name: string) {
    || name == "__MACOSX"
    || (exists rest :: name == "__MACOSX" + "/" + rest && (Dot(Clean(rest)) || Local(Clean(rest))))
    || name == ".DS_Store"
    || (exists folder :: name == folder + "/" + ".DS_Store")
  }

  lemma DebrisIsJunk(name: string)
    requires Debris(name)
    ensures Junk(Clean(name))
  {
    hide Clean;
    if name == "__MACOSX" || name == ".DS_Store" {
      PlainName([name]);
    } else if rest :| name == "__MACOSX" + "/" + rest && (Dot(Clean(rest)) || Local(Clean(rest))) {
      CleanWrapped("__MACOSX", rest);
    } else {
      var folder :| name == folder + "/" + ".DS_Store";
      StoreLast(folder);
    }
  }

  lemma StoreLast(folder: string)
    ensures var p := Clean(folder + "/" + ".DS_Store"); p.parts != [] && p.parts[|p.parts| - 1] == ".DS_Store"
  {
    hide Split, Stack;
    var name := folder + "/" + ".DS_Store";
    SplitAppend(folder, ".DS_Store", '/');
    assert Split(".DS_Store", '/') == [".DS_Store"] by {
      SplitJoin([".DS_Store"], '/');
    }
    StackSnoc(Split(folder, '/'), ".DS_Store", HasPrefix(name, "/"));
  }

  lemma PlanSnoc(entries: seq<Entry>, e: Entry, root: string)
    requires Junk(Clean(e.name))
    ensures Plan(entries + [e], root) == Plan(entries, root)
  {
    hide Clean, Junk;
    assert (entries + [e])[..|entries|] == entries;
  }

  lemma {:induction false} JunkUnseen(a: seq<Entry>, d: Entry, b: seq<Entry>, root: string, zip: bool)
    requires Junk(Clean(d.name))
    ensures Plan(a + [d] + b, root) == Plan(a + b, root)
    ensures Files(a + [d] + b, zip) == Files(a + b, zip)
    decreases |b|
  {
    hide Clean, Junk;
    if b == [] {
      PlanSnoc(a, d, root);
      FilesSnoc(a, d, zip);
      assert a + [d] + b == a + [d] && a + b == a;
    } else {
      var init, last := b[..|b| - 1], b[|b| - 1];
      JunkUnseen(a, d, init, root, zip);
      assert (a + [d] + b)[..|a| + |b|] == a + [d] + init;
      assert (a + b)[..|a| + |b| - 1] == a + init;
    }
  }

  /** Debris is never written and does not keep a wrapper from being dropped: with it or without it, anywhere
      in the archive, the same files are unpacked. */
  lemma DebrisIsInvisible(a: seq<Entry>, d: Entry, b: seq<Entry>, zip: bool)
    requires Debris(d.name)
    ensures Unpacked(a + [d] + b, zip) == Unpacked(a + b, zip)
  {
    hide Clean, Junk, Files, Plan, Debris;
    DebrisIsJunk(d.name);
    JunkUnseen(a, d, b, WrapperFrom(Files(a + b, zip), ""), zip);
  }
}
