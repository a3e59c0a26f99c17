/** The line editors of internal/apps/adminer.go: adding one service block to a compose file and
    removing one, without parsing it. Two scans decide where a block goes and where one is; the
    theorems say when they agree and when the two edits undo each other. */
module ComposeBlocks {
  import opened Text
  import opened Wrappers

  // ---- one line ----

  predicate Blank(s: string) {
    TrimSpace(s) == ""
  }

  /** A key at the left margin: what opens or closes a section. */
  predicate TopLevel(s: string) {
    !BlankOrComment(s) && Indent(s) == 0
  }

  predicate ServicesHeader(s: string) {
    TopLevel(s) && TrimSpace(s) == "services:"
  }

  /** A line that belongs to a block whose key is indented by `d`. */
  predicate Inner(s: string, d: nat) {
    Blank(s) || Indent(s) > d
  }

  // ---- the remover's scan ----

  datatype Scan = Scan(inServices: bool, indent: int)

  const START := Scan(false, -1)

  function Step(st: Scan, line: string): Scan {
    if BlankOrComment(line) then st
    else if Indent(line) == 0 then Scan(TrimSpace(line) == "services:", -1)
    else if st.inServices && st.indent < 0 then Scan(true, Indent(line))
    else st
  }

  function Run(st: Scan, lines: seq<string>): Scan {
    if lines == [] then st else Step(Run(st, lines[..|lines| - 1]), lines[|lines| - 1])
  }

  /** The scan, in state `st`, takes `line` for the key of service `name`. */
  predicate Hit(st: Scan, line: string, name: string) {
    && !BlankOrComment(line) && Indent(line) > 0 && st.inServices
    && (st.indent < 0 || Indent(line) == st.indent)
    && TrimSpace(line) == name + ":"
  }

  predicate HitAt(lines: seq<string>, name: string, i: nat)
    requires i < |lines|
  {
    Hit(Run(START, lines[..i]), lines[i], name)
  }

  /** The first key line of `name` at or after line `i`, or the number of lines. */
  function Find(lines: seq<string>, name: string, i: nat): (r: nat)
    requires i <= |lines|
    ensures i <= r <= |lines|
    ensures forall j :: i <= j < r ==> !HitAt(lines, name, j)
    ensures r < |lines| ==> HitAt(lines, name, r)
    decreases |lines| - i
  {
    if i == |lines| || HitAt(lines, name, i) then i else Find(lines, name, i + 1)
  }

  lemma RunStep(st: Scan, lines: seq<string>, i: nat)
    requires i < |lines|
    ensures Run(st, lines[..i + 1]) == Step(Run(st, lines[..i]), lines[i])
  {
    assert lines[..i + 1][..i] == lines[..i];
  }

  lemma {:induction false} RunAppend(st: Scan, a: seq<string>, b: seq<string>)
    ensures Run(st, a + b) == Run(Run(st, a), b)
    decreases |b|
  {
    if b == [] {
      assert a + b == a;
    } else {
      RunAppend(st, a, b[..|b| - 1]);
      assert (a + b)[..|a + b| - 1] == a + b[..|b| - 1];
    }
  }

  /** The last top-level key among `lines`, or -1. */
  function LastTop(lines: seq<string>): (t: int)
    ensures -1 <= t < |lines|
    ensures t >= 0 ==> TopLevel(lines[t])
    ensures forall j :: t < j < |lines| ==> !TopLevel(lines[j])
  {
    if lines == [] then -1
    else if TopLevel(lines[|lines| - 1]) then |lines| - 1
    else LastTop(lines[..|lines| - 1])
  }

  /** The indentation of the first entry among `lines`, or -1 when there is none. */
  function FirstIndent(lines: seq<string>): (r: int)
    ensures r >= -1
  {
    if lines == [] then -1
    else if BlankOrComment(lines[0]) then FirstIndent(lines[1..])
    else Indent(lines[0])
  }

  lemma {:induction false} FirstIndentSnoc(lines: seq<string>, line: string)
    ensures FirstIndent(lines + [line]) == if FirstIndent(lines) < 0 then FirstIndent([line]) else FirstIndent(lines)
  {
    if lines == [] {
      assert lines + [line] == [line];
    } else {
      FirstIndentSnoc(lines[1..], line);
      assert (lines + [line])[1..] == lines[1..] + [line];
    }
  }

  /** What the scan's state means: it is inside `services:` exactly when the last top-level key
      was that header, and the sibling indent is that of the first entry since. */
  lemma {:induction false} ScanMeaning(lines: seq<string>)
    ensures var t := LastTop(lines);
      Run(START, lines) == if t >= 0 && ServicesHeader(lines[t]) then Scan(true, FirstIndent(lines[t + 1..])) else START
  {
    if lines != [] {
      var n := |lines| - 1;
      var init, last := lines[..n], lines[n];
      ScanMeaning(init);
      var t := LastTop(lines);
      if TopLevel(last) {
        assert t == n && lines[n + 1..] == [];
      } else if t >= 0 {
        assert lines[t + 1..] == init[t + 1..] + [last];
        FirstIndentSnoc(init[t + 1..], last);
        assert FirstIndent([last]) == if BlankOrComment(last) then FirstIndent([]) else Indent(last);
      }
    }
  }

  ghost predicate HasService(lines: seq<string>, name: string) {
    exists i :: 0 <= i < |lines| && HitAt(lines, name, i)
  }

  /** composeRemoveService's search for the key line. */
  method FindComposeService(lines: seq<string>, name: string) returns (start: nat, indent: nat, ok: bool)
    ensures ok <==> HasService(lines, name)
    ensures ok ==> start < |lines| && HitAt(lines, name, start) && indent == Indent(lines[start])
    ensures ok ==> forall j :: 0 <= j < start ==> !HitAt(lines, name, j)
    ensures ok ==> start == Find(lines, name, 0)
  {
    var inServices: bool, level: int := false, -1;
    for i := 0 to |lines|
      invariant Scan(inServices, level) == Run(START, lines[..i])
      invariant forall j :: 0 <= j < i ==> !HitAt(lines, name, j)
    {
      var raw := lines[i];
      RunStep(START, lines, i);
      if BlankOrComment(raw) {
        continue;
      }
      if Indent(raw) == 0 {
        inServices := TrimSpace(raw) == "services:";
        level := -1;
        continue;
      }
      if !inServices {
        continue;
      }
      if level < 0 {
        level := Indent(raw);
      }
      if Indent(raw) == level && TrimSpace(raw) == name + ":" {
        assert HitAt(lines, name, i);
        return i, level, true;
      }
    }
    return 0, 0, false;
  }

  // ---- the end of a block ----

  /** How many leading lines belong to a block indented by `d`. */
  function InnerRun(lines: seq<string>, d: nat): (r: nat)
    ensures r <= |lines|
    ensures forall i :: 0 <= i < r ==> Inner(lines[i], d)
    ensures r < |lines| ==> !Inner(lines[r], d)
  {
    if lines != [] && Inner(lines[0], d) then 1 + InnerRun(lines[1..], d) else 0
  }

  function BlockEnd(lines: seq<string>, start: nat): (end: nat)
    requires start < |lines|
    ensures start < end <= |lines|
    ensures forall i :: start < i < end ==> Inner(lines[i], Indent(lines[start]))
  {
    assert forall i :: start < i < |lines| ==> lines[i] == lines[start + 1..][i - start - 1];
    start + 1 + InnerRun(lines[start + 1..], Indent(lines[start]))
  }

  /** What is left once a service is removed, and whether it was there. */
  datatype Removal<T> = Removal(rest: T, found: bool)

  function RemoveLines(lines: seq<string>, name: string): Removal<seq<string>> {
    var start := Find(lines, name, 0);
    if start == |lines| then Removal(lines, false)
    else Removal(lines[..start] + lines[BlockEnd(lines, start)..], true)
  }

  function RemoveText(yaml: string, name: string): Removal<string> {
    var r := RemoveLines(Split(yaml, '\n'), name);
    if r.found then Removal(Join(r.rest, '\n'), true) else Removal(yaml, false)
  }

  /** composeRemoveService: nothing but the block goes, and only a block that is there. */
  method RemoveService(yaml: string, name: string) returns (out: string, found: bool)
    ensures Removal(out, found) == RemoveText(yaml, name)
    ensures found <==> HasService(Split(yaml, '\n'), name)
  {
    hide TrimLeftSpace, TrimRightSpace, Indent, Join, Split, Run, HitAt, InnerRun, Find;
    var lines := Split(yaml, '\n');
    var start, indent, ok := FindComposeService(lines, name);
    if !ok {
      return yaml, false;
    }
    var end := |lines|;
    var i := start + 1;
    while i < |lines|
      invariant start < i <= |lines| && end == |lines|
      invariant forall k :: start < k < i ==> Inner(lines[k], indent)
    {
      if BlankOrComment(lines[i]) && Indent(lines[i]) > indent {
        i := i + 1;
        continue;
      }
      if TrimSpace(lines[i]) == "" {
        i := i + 1;
        continue;
      }
      if Indent(lines[i]) <= indent {
        end := i;
        break;
      }
      i := i + 1;
    }
    ghost var rest := lines[start + 1..];
    assert forall k :: 0 <= k < |rest| ==> rest[k] == lines[start + 1 + k];
    return Join(lines[..start] + lines[end..], '\n'), true;
  }

  // ---- the adder's scan ----

  function Header(lines: seq<string>, i: nat): (r: nat)
    requires i <= |lines|
    ensures i <= r <= |lines|
    ensures forall j :: i <= j < r ==> !ServicesHeader(lines[j])
    ensures r < |lines| ==> ServicesHeader(lines[r])
    decreases |lines| - i
  {
    if i == |lines| || ServicesHeader(lines[i]) then i else Header(lines, i + 1)
  }

  function NextTop(lines: seq<string>, i: nat): (r: nat)
    requires i <= |lines|
    ensures i <= r <= |lines|
    ensures forall j :: i <= j < r ==> !TopLevel(lines[j])
    ensures r < |lines| ==> TopLevel(lines[r])
    decreases |lines| - i
  {
    if i == |lines| || TopLevel(lines[i]) then i else NextTop(lines, i + 1)
  }

  function BackUp(lines: seq<string>, end: nat): (r: nat)
    requires end <= |lines|
    ensures r <= end
    ensures forall j :: r <= j < end ==> BlankOrComment(lines[j])
    ensures r > 0 ==> !BlankOrComment(lines[r - 1])
  {
    if end > 0 && BlankOrComment(lines[end - 1]) then BackUp(lines, end - 1) else end
  }

  /** Where a new service goes: the end of the first services: section, before what trails it. */
  function InsertAt(lines: seq<string>): (r: Option<nat>)
    ensures r.Some? ==> r.value <= |lines|
  {
    var h := Header(lines, 0);
    if h == |lines| then None else Some(BackUp(lines, NextTop(lines, h + 1)))
  }

  function AddLines(lines: seq<string>, block: seq<string>): Option<seq<string>> {
    match InsertAt(lines)
    case None => None
    case Some(at) => Some(lines[..at] + block + lines[at..])
  }

  lemma InsertAtLaw(lines: seq<string>, at: nat)
    requires InsertAt(lines) == Some(at)
    ensures var h := Header(lines, 0); h < at <= NextTop(lines, h + 1) && !BlankOrComment(lines[at - 1])
  {
    hide Header, NextTop, BackUp;
    var h := Header(lines, 0);
    assert !BlankOrComment(lines[h]);
  }

  ghost predicate HasHeader(lines: seq<string>) {
    exists i :: 0 <= i < |lines| && ServicesHeader(lines[i])
  }

  lemma TopEndsBlock(line: string, d: nat)
    requires TopLevel(line)
    ensures !Inner(line, d)
  {
  }

  /** composeServicesEnd. */
  method ServicesEnd(lines: seq<string>) returns (at: nat, ok: bool)
    ensures ok <==> InsertAt(lines).Some?
    ensures ok ==> at <= |lines| && InsertAt(lines) == Some(at)
    ensures ok <==> HasHeader(lines)
  {
    hide TrimLeftSpace, TrimRightSpace, Indent, Header, NextTop;
    var inServices, end := false, -1;
    ghost var h := 0;
    var i := 0;
    while i < |lines|
      invariant i <= |lines| && end == -1
      invariant inServices ==> h < i && ServicesHeader(lines[h])
      invariant forall j :: 0 <= j < (if inServices then h else i) ==> !ServicesHeader(lines[j])
      invariant inServices ==> forall j :: h < j < i ==> !TopLevel(lines[j])
    {
      var raw := lines[i];
      if TopLevel(raw) {
        if inServices {
          end := i;
          break;
        }
        inServices := TrimSpace(raw) == "services:";
        h := i;
      }
      i := i + 1;
    }
    if !inServices {
      return 0, false;
    }
    if end < 0 {
      end := |lines|;
    }
    ghost var top := end;
    while end > 0 && BlankOrComment(lines[end - 1])
      invariant 0 <= end <= top && BackUp(lines, end) == BackUp(lines, top)
    {
      end := end - 1;
    }
    return end, true;
  }

  function TrimNewline(s: string): string {
    if s != "" && s[|s| - 1] == '\n' then s[..|s| - 1] else s
  }

  function AddText(yaml: string, block: string): Option<string> {
    match AddLines(Split(yaml, '\n'), Split(TrimNewline(block), '\n'))
    case None => None
    case Some(lines) => Some(Join(lines, '\n'))
  }

  /** composeAddService: the block goes in whole and every line of the file stays, in order. */
  method AddService(yaml: string, block: string) returns (r: Result<string, string>)
    ensures r.Ok? ==> AddText(yaml, block) == Some(r.value)
    ensures r.Err? <==> AddText(yaml, block) == None
    ensures r.Err? <==> !HasHeader(Split(yaml, '\n'))
  {
    var lines := Split(yaml, '\n');
    var at, ok := ServicesEnd(lines);
    if !ok {
      return Err("this compose file has no services: section to add to");
    }
    var blockLines := Split(TrimNewline(block), '\n');
    return Ok(Join(lines[..at] + blockLines + lines[at..], '\n'));
  }

  // ---- the two scans agree, and undo each other ----

  lemma {:induction false} RunBlank(st: Scan, lines: seq<string>)
    requires forall j :: 0 <= j < |lines| ==> BlankOrComment(lines[j])
    ensures Run(st, lines) == st
  {
    if lines != [] {
      RunBlank(st, lines[..|lines| - 1]);
    }
  }

  /** Where the adder would insert, the remover's scan is inside `services:`. */
  lemma InsertionIsInsideServices(lines: seq<string>, at: nat)
    requires InsertAt(lines) == Some(at)
    ensures at <= |lines| && Run(START, lines[..at]).inServices
  {
    hide BlankOrComment, Indent, TrimSpace, TopLevel, Run, Header, NextTop, BackUp;
    InsertAtLaw(lines, at);
    var h := Header(lines, 0);
    assert TopLevel(lines[..at][h]);
    assert forall j :: h < j < at ==> !TopLevel(lines[..at][j]);
    ScanMeaning(lines[..at]);
  }

  /** `lead + [key] + body` is a block for `name`, indented like the services it will join. */
  ghost predicate BlockFor(lines: seq<string>, at: nat, name: string, lead: seq<string>, key: string, body: seq<string>)
    requires at <= |lines|
  {
    && (forall j :: 0 <= j < |lead| ==> BlankOrComment(lead[j]))
    && !BlankOrComment(key) && Indent(key) > 0 && TrimSpace(key) == name + ":"
    && (forall j :: 0 <= j < |body| ==> Inner(body[j], Indent(key)))
    && (Run(START, lines[..at]).indent < 0 || Run(START, lines[..at]).indent == Indent(key))
  }

  /** After an insertion the remover finds the new block first, at its key. */
  lemma FindsNewBlock(lines: seq<string>, at: nat, name: string, lead: seq<string>, key: string, body: seq<string>)
    requires InsertAt(lines) == Some(at)
    requires Find(lines, name, 0) == |lines|
    requires BlockFor(lines, at, name, lead, key, body)
    ensures Find(lines[..at] + (lead + [key] + body) + lines[at..], name, 0) == at + |lead|
  {
    hide BlankOrComment, TrimSpace, Indent, Run, Find, Header, NextTop, BackUp, InsertAt;
    var r := lines[..at] + (lead + [key] + body) + lines[at..];
    var start := at + |lead|;
    InsertionIsInsideServices(lines, at);
    assert r[..start] == lines[..at] + lead;
    RunAppend(START, lines[..at], lead);
    RunBlank(Run(START, lines[..at]), lead);
    assert r[start] == key;
    assert HitAt(r, name, start);
    forall j | 0 <= j < start ensures !HitAt(r, name, j) {
      if j < at {
        assert r[..j] == lines[..j] && r[j] == lines[j];
        assert !HitAt(lines, name, j);
      } else {
        assert r[j] == lead[j - at];
      }
    }
  }

  /** Removing a just-added service takes out its key and body together with the run of lines it
      was inserted before, and leaves the block's leading lines: the file comes back exactly when
      those two are the same lines. */
  lemma AddThenRemove(lines: seq<string>, at: nat, name: string, lead: seq<string>, key: string, body: seq<string>)
    requires InsertAt(lines) == Some(at)
    requires Find(lines, name, 0) == |lines|
    requires BlockFor(lines, at, name, lead, key, body)
    ensures var run := InnerRun(lines[at..], Indent(key));
      && AddLines(lines, lead + [key] + body) == Some(lines[..at] + (lead + [key] + body) + lines[at..])
      && var r := RemoveLines(lines[..at] + (lead + [key] + body) + lines[at..], name);
         && r == Removal(lines[..at] + lead + lines[at + run..], true)
         && (r.rest == lines <==> lead == lines[at..at + run])
  {
    hide TrimSpace, Blank, BlankOrComment, Indent, Inner, Run, Find, Header, NextTop, BackUp, InnerRun, HitAt, InsertAt;
    var block := lead + [key] + body;
    var added := lines[..at] + block + lines[at..];
    var start, d := at + |lead|, Indent(key);
    var run := InnerRun(lines[at..], d);
    FindsNewBlock(lines, at, name, lead, key, body);
    assert added[start] == key;
    var rest := added[start + 1..];
    assert rest == body + lines[at..];
    forall i | 0 <= i < |body| + run ensures Inner(rest[i], d) {
      if i >= |body| {
        assert rest[i] == lines[at..][i - |body|];
      }
    }
    if |body| + run < |rest| {
      assert rest[|body| + run] == lines[at..][run];
    }
    var end := start + 1 + |body| + run;
    assert added[..start] == lines[..at] + lead;
    assert added[end..] == rest[|body| + run..] == lines[at + run..];
    Exchanged(lines, at, run, lead);
  }

  /** Putting `lead` in place of a stretch changes nothing exactly when it is that stretch. */
  lemma Exchanged<T>(s: seq<T>, at: nat, run: nat, lead: seq<T>)
    requires at + run <= |s|
    ensures s[..at] + lead + s[at + run..] == s <==> lead == s[at..at + run]
  {
    var back := s[..at] + lead + s[at + run..];
    if lead == s[at..at + run] {
      assert back == s;
    }
    if back == s {
      assert |lead| == run;
      assert back[at..at + run] == lead;
    }
  }

  /** The same on whole files. */
  lemma AddThenRemoveText(yaml: string, block: string, at: nat, name: string,
                          lead: seq<string>, key: string, body: seq<string>)
    requires var lines := Split(yaml, '\n');
      && InsertAt(lines) == Some(at)
      && Find(lines, name, 0) == |lines|
      && BlockFor(lines, at, name, lead, key, body)
    requires Split(TrimNewline(block), '\n') == lead + [key] + body
    ensures AddText(yaml, block).Some?
    ensures RemoveText(AddText(yaml, block).value, name) == Removal(yaml, true)
            <==> lead == Split(yaml, '\n')[at..at + InnerRun(Split(yaml, '\n')[at..], Indent(key))]
  {
    hide Split, Join, Find, InsertAt, Run, InnerRun, BlockFor, Indent, HitAt;
    var lines := Split(yaml, '\n');
    JoinSplit(yaml, '\n');
    JoinSplit(TrimNewline(block), '\n');
    AddThenRemove(lines, at, name, lead, key, body);
    var added := AddLines(lines, lead + [key] + body).value;
    SplitJoin(added, '\n');
    var back := RemoveLines(added, name).rest;
    if back == [] {
      InsertAtLaw(lines, at);
    }
    SplitJoin(back, '\n');
  }

  /** Once added, the service is there exactly once: the rest of the file, scanned after the new
      block, yields what it yielded before. */
  lemma AddedOnce(lines: seq<string>, at: nat, name: string, lead: seq<string>, key: string, body: seq<string>, i: nat)
    requires InsertAt(lines) == Some(at)
    requires Find(lines, name, 0) == |lines|
    requires BlockFor(lines, at, name, lead, key, body)
    requires i < |lines| + |lead| + 1 + |body|
    ensures HitAt(lines[..at] + (lead + [key] + body) + lines[at..], name, i) <==> i == at + |lead|
  {
    hide BlankOrComment, Blank, TrimSpace, Indent, Run, Header, NextTop, BackUp, Find, InsertAt;
    var r := lines[..at] + (lead + [key] + body) + lines[at..];
    var start, d := at + |lead|, Indent(key);
    FindsNewBlock(lines, at, name, lead, key, body);
    if i > start {
      StateAfterKey(lines, at, name, lead, key, body);
      if i <= start + |body| {
        var inner := body[..i - start - 1];
        assert r[i] == body[i - start - 1];
        assert r[..i] == r[..start + 1] + inner;
        RunAppend(START, r[..start + 1], inner);
        RunInner(d, inner);
        InnerNotHit(r[i], d, name);
      } else {
        var j := i - 1 - |lead| - |body|;
        assert !HitAt(lines, name, j);
        InsertionKeepsOthers(lines, at, name, lead, key, body, name, j);
      }
    }
  }

  lemma StateAfterKey(lines: seq<string>, at: nat, name: string, lead: seq<string>, key: string, body: seq<string>)
    requires InsertAt(lines) == Some(at)
    requires BlockFor(lines, at, name, lead, key, body)
    ensures Run(START, (lines[..at] + (lead + [key] + body) + lines[at..])[..at + |lead| + 1])
            == Scan(true, Indent(key))
  {
    hide TrimSpace, Header, NextTop, BackUp, Find, InsertAt, Indent;
    var r := lines[..at] + (lead + [key] + body) + lines[at..];
    InsertionIsInsideServices(lines, at);
    var start := at + |lead|;
    assert r[..start] == lines[..at] + lead;
    RunAppend(START, lines[..at], lead);
    RunBlank(Run(START, lines[..at]), lead);
    RunStep(START, r, start);
    assert r[start] == key;
    ScanMeaning(lines[..at]);
  }

  lemma InnerNotHit(line: string, d: nat, name: string)
    requires Inner(line, d)
    ensures !Hit(Scan(true, d), line, name)
  {
  }

  lemma {:induction false} RunInner(d: nat, lines: seq<string>)
    requires forall j :: 0 <= j < |lines| ==> Inner(lines[j], d)
    ensures Run(Scan(true, d), lines) == Scan(true, d)
  {
    if lines != [] {
      RunInner(d, lines[..|lines| - 1]);
    }
  }

  /** Past the insertion point nothing but blanks and comments comes before the next top-level
      key, and that key makes the scan forget the sibling indent. */
  lemma {:induction false} SameAfterTop(lines: seq<string>, at: nat, k: nat, d: nat)
    requires InsertAt(lines) == Some(at) && at + k <= |lines|
    ensures var tail, top := lines[at..at + k], NextTop(lines, Header(lines, 0) + 1);
      if at + k <= top then
        Run(Run(START, lines[..at]), tail) == Run(START, lines[..at]) && Run(Scan(true, d), tail) == Scan(true, d)
      else
        Run(Run(START, lines[..at]), tail) == Run(Scan(true, d), tail)
  {
    hide BlankOrComment, TrimSpace, Indent, Header, NextTop, BackUp;
    InsertAtLaw(lines, at);
    var top := NextTop(lines, Header(lines, 0) + 1);
    var tail := lines[at..at + k];
    if at + k <= top {
      InsertedBefore(lines, at);
      forall j | 0 <= j < |tail| ensures BlankOrComment(tail[j]) {
        assert tail[j] == lines[at + j];
      }
      RunBlank(Run(START, lines[..at]), tail);
      RunBlank(Scan(true, d), tail);
    } else {
      SameAfterTop(lines, at, k - 1, d);
      SliceSnoc(lines, at, k);
      if at + k - 1 == top {
        StepTop(Run(START, lines[..at]), Scan(true, d), lines[top]);
      }
    }
  }

  lemma SliceSnoc<T>(s: seq<T>, at: nat, k: nat)
    requires 0 < k && at + k <= |s|
    ensures s[at..at + k][..k - 1] == s[at..at + (k - 1)] && s[at..at + k][k - 1] == s[at + (k - 1)]
  {
  }

  lemma InsertedBefore(lines: seq<string>, at: nat)
    requires InsertAt(lines) == Some(at)
    ensures forall j :: at <= j < NextTop(lines, Header(lines, 0) + 1) ==> BlankOrComment(lines[j])
  {
  }

  lemma StepTop(a: Scan, b: Scan, line: string)
    requires TopLevel(line)
    ensures Step(a, line) == Step(b, line)
  {
  }

  lemma TopNotHit(st: Scan, line: string, name: string)
    requires TopLevel(line)
    ensures !Hit(st, line, name)
  {
  }

  /** An insertion moves every service that was there and hides none: each line, scanned in the
      new file, is the key of the same services as before. */
  lemma InsertionKeepsOthers(lines: seq<string>, at: nat, name: string, lead: seq<string>, key: string,
                             body: seq<string>, other: string, i: nat)
    requires InsertAt(lines) == Some(at)
    requires BlockFor(lines, at, name, lead, key, body)
    requires i < |lines|
    ensures var block := lead + [key] + body;
      HitAt(lines[..at] + block + lines[at..], other, if i < at then i else i + |block|) <==> HitAt(lines, other, i)
  {
    hide BlankOrComment, Blank, TrimSpace, Indent, Run, Header, NextTop, BackUp, Find, InsertAt;
    var block := lead + [key] + body;
    var r := lines[..at] + block + lines[at..];
    if i < at {
      assert r[..i] == lines[..i] && r[i] == lines[i];
    } else {
      var k, d, start := i - at, Indent(key), at + |lead|;
      var tail := lines[at..i];
      StateAfterKey(lines, at, name, lead, key, body);
      assert r[..i + |block|] == r[..start + 1] + (body + tail);
      RunAppend(START, r[..start + 1], body + tail);
      RunAppend(Scan(true, d), body, tail);
      RunInner(d, body);
      assert lines[..i] == lines[..at] + tail;
      RunAppend(START, lines[..at], tail);
      assert r[i + |block|] == lines[i];
      SameHits(lines, at, other, k, d);
    }
  }

  lemma SameHits(lines: seq<string>, at: nat, name: string, k: nat, d: nat)
    requires InsertAt(lines) == Some(at) && at + k < |lines|
    ensures var tail := lines[at..at + k];
      Hit(Run(Scan(true, d), tail), lines[at + k], name)
      <==> Hit(Run(Run(START, lines[..at]), tail), lines[at + k], name)
  {
    hide BlankOrComment, TrimSpace, Indent, Header, NextTop, BackUp, Run;
    var top := NextTop(lines, Header(lines, 0) + 1);
    SameAfterTop(lines, at, k, d);
    InsertAtLaw(lines, at);
    InsertedBefore(lines, at);
    if at + k == top {
      TopNotHit(Scan(true, d), lines[top], name);
      TopNotHit(Run(START, lines[..at]), lines[top], name);
    }
  }

  /** Two scans inside `services:`, one with the sibling indent `d` and one still without: they
      part at the first entry, unless it is a sibling or leaves the section. */
  lemma {:induction false} Meet(d: nat, lines: seq<string>)
    ensures FirstIndent(lines) < 0
            ==> Run(Scan(true, -1), lines) == Scan(true, -1) && Run(Scan(true, d), lines) == Scan(true, d)
    ensures FirstIndent(lines) == 0 || FirstIndent(lines) == d
            ==> Run(Scan(true, -1), lines) == Run(Scan(true, d), lines)
  {
    hide TrimSpace, Indent;
    if lines != [] {
      var n := |lines| - 1;
      Meet(d, lines[..n]);
      FirstIndentSnoc(lines[..n], lines[n]);
      assert lines == lines[..n] + [lines[n]];
      assert FirstIndent([lines[n]]) == if BlankOrComment(lines[n]) then FirstIndent([]) else Indent(lines[n]);
    }
  }

  /** Where the removed block stood, the file with it and the file without it are scanned from
      `Scan(true, d)` and from the state before its key. */
  lemma AroundBlock(lines: seq<string>, name: string, m: nat)
    requires Find(lines, name, 0) < |lines|
    requires BlockEnd(lines, Find(lines, name, 0)) + m <= |lines|
    ensures var start := Find(lines, name, 0);
      var d, end, st := Indent(lines[start]), BlockEnd(lines, start), Run(START, lines[..start]);
      var tail := lines[end..end + m];
      && st.inServices && (st.indent < 0 ==> st == Scan(true, -1)) && (st.indent >= 0 ==> st == Scan(true, d)) && d > 0
      && RemoveLines(lines, name).rest[..start + m] == lines[..start] + tail
      && Run(START, lines[..start] + tail) == Run(st, tail)
      && Run(START, lines[..end + m]) == Run(Scan(true, d), tail)
  {
    hide BlankOrComment, Blank, Inner, TrimSpace, Indent, Find, InnerRun, Run;
    var start := Find(lines, name, 0);
    var d, end, st := Indent(lines[start]), BlockEnd(lines, start), Run(START, lines[..start]);
    var tail, block := lines[end..end + m], lines[start + 1..end];
    assert HitAt(lines, name, start);
    ScanMeaning(lines[..start]);
    RunAppend(START, lines[..start], tail);
    RunStep(START, lines, start);
    RunInner(d, block);
    assert lines[..end] == lines[..start + 1] + block;
    RunAppend(START, lines[..start + 1], block);
    assert lines[..end + m] == lines[..end] + tail;
    RunAppend(START, lines[..end], tail);
  }

  /** What follows the removed block starts with a sibling, leaves the section, or the block was
      not the section's first. */
  predicate SiblingFollows(lines: seq<string>, start: nat)
    requires start < |lines|
  {
    var next := FirstIndent(lines[BlockEnd(lines, start)..]);
    Run(START, lines[..start]).indent >= 0 || next <= 0 || next == Indent(lines[start])
  }

  /** `m` lines past the removed block, an entry of which has been passed, the scan of the file
      without the block is in the state of the scan with it. */
  ghost predicate SameScan(lines: seq<string>, name: string, m: nat)
    requires Find(lines, name, 0) < |lines|
    requires BlockEnd(lines, Find(lines, name, 0)) + m <= |lines|
  {
    var start := Find(lines, name, 0);
    var end := BlockEnd(lines, start);
    FirstIndent(lines[end..end + m]) >= 0
    ==> Run(START, lines[..start] + lines[end..end + m]) == Run(START, lines[..end + m])
  }

  /** Exactly then a removal leaves the scan of every later entry as it was. */
  lemma RemovalKeepsScan(lines: seq<string>, name: string)
    requires Find(lines, name, 0) < |lines|
    ensures var start := Find(lines, name, 0);
      (forall m: nat :: BlockEnd(lines, start) + m <= |lines| ==> SameScan(lines, name, m))
        <==> SiblingFollows(lines, start)
  {
    hide BlankOrComment, Blank, Inner, TrimSpace, Indent, Find, InnerRun, Run, FirstIndent, RemoveLines;
    var start := Find(lines, name, 0);
    var end, d := BlockEnd(lines, start), Indent(lines[start]);
    assert HitAt(lines, name, start);
    if SiblingFollows(lines, start) {
      forall m: nat | end + m <= |lines| ensures SameScan(lines, name, m) {
        AroundBlock(lines, name, m);
        assert lines[end..][..m] == lines[end..end + m];
        if FirstIndent(lines[end..end + m]) >= 0 {
          FirstIndentPrefix(lines[end..], m);
          Meet(d, lines[end..end + m]);
        }
      }
    } else {
      var m := FirstEntry(lines[end..]);
      AroundBlock(lines, name, m);
      assert lines[end..][..m] == lines[end..end + m];
      Part(d, lines[end..end + m]);
      assert !SameScan(lines, name, m);
    }
  }

  lemma {:induction false} FirstIndentPrefix(lines: seq<string>, m: nat)
    requires m <= |lines| && FirstIndent(lines[..m]) >= 0
    ensures FirstIndent(lines) == FirstIndent(lines[..m])
  {
    hide BlankOrComment, Indent;
    if BlankOrComment(lines[0]) {
      assert lines[..m][1..] == lines[1..][..m - 1];
      FirstIndentPrefix(lines[1..], m - 1);
    }
  }

  /** The length of `lines` up to and including its first entry. */
  lemma {:induction false} FirstEntry(lines: seq<string>) returns (m: nat)
    requires FirstIndent(lines) >= 0
    ensures 0 < m <= |lines|
    ensures forall j :: 0 <= j < m - 1 ==> BlankOrComment(lines[j])
    ensures !BlankOrComment(lines[m - 1]) && Indent(lines[m - 1]) == FirstIndent(lines) == FirstIndent(lines[..m])
  {
    hide BlankOrComment, Indent;
    if BlankOrComment(lines[0]) {
      m := FirstEntry(lines[1..]);
      m := m + 1;
      assert lines[..m][1..] == lines[1..][..m - 1];
    } else {
      m := 1;
    }
  }

  lemma Part(d: nat, lines: seq<string>)
    requires lines != [] && forall j :: 0 <= j < |lines| - 1 ==> BlankOrComment(lines[j])
    requires !BlankOrComment(lines[|lines| - 1]) && Indent(lines[|lines| - 1]) > 0
            && Indent(lines[|lines| - 1]) != d > 0
    ensures Run(Scan(true, -1), lines) != Run(Scan(true, d), lines)
  {
    hide BlankOrComment, Indent;
    RunBlank(Scan(true, -1), lines[..|lines| - 1]);
    RunBlank(Scan(true, d), lines[..|lines| - 1]);
  }

  /** A removal takes away no other service: each line left is the key of the same services as
      before. */
  lemma RemovalKeepsOthers(lines: seq<string>, name: string, other: string, i: nat)
    requires var start := Find(lines, name, 0);
      start < |lines| && SiblingFollows(lines, start) && (i < start || BlockEnd(lines, start) <= i < |lines|)
    ensures var start := Find(lines, name, 0);
      var end, rest := BlockEnd(lines, start), RemoveLines(lines, name).rest;
      && |rest| == start + |lines| - end
      && (HitAt(rest, other, if i < start then i else start + i - end) <==> HitAt(lines, other, i))
  {
    hide BlankOrComment, Blank, Inner, TrimSpace, Indent, Find, InnerRun, Run, FirstIndent;
    var start := Find(lines, name, 0);
    var end, rest, d := BlockEnd(lines, start), RemoveLines(lines, name).rest, Indent(lines[start]);
    assert rest == lines[..start] + lines[end..];
    if i < start {
      assert rest[..i] == lines[..i];
    } else {
      var m := i - end;
      var tail := lines[end..i];
      AroundBlock(lines, name, m);
      assert rest[start + m] == lines[i];
      if FirstIndent(tail) >= 0 {
        RemovalKeepsScan(lines, name);
        assert SameScan(lines, name, m);
      } else {
        Meet(d, tail);
        if !BlankOrComment(lines[i]) {
          assert lines[end..i + 1] == tail + [lines[i]];
          FirstIndentSnoc(tail, lines[i]);
          assert lines[end..][..m + 1] == lines[end..i + 1];
          FirstAlone(lines[i]);
          FirstIndentPrefix(lines[end..], m + 1);
        }
      }
    }
  }

  lemma FirstAlone(line: string)
    requires !BlankOrComment(line)
    ensures FirstIndent([line]) == Indent(line)
  {
  }

  /** A line past the block, before the section ends, that the removal may take or give to a service:
      it reads as a key, at the indent of the siblings before or after. */
  predicate Contested(lines: seq<string>, start: nat, j: nat)
    requires start < |lines|
  {
    var end := BlockEnd(lines, start);
    && end <= j < NextTop(lines, end) && !BlankOrComment(lines[j])
    && (Indent(lines[j]) == Indent(lines[start]) || Indent(lines[j]) == FirstIndent(lines[end..]))
    && HasSuffix(TrimSpace(lines[j]), ":")
  }

  /** Line `i`, past the block, is the key of the same services as before. */
  ghost predicate SameKeys(lines: seq<string>, name: string, i: nat)
    requires var start := Find(lines, name, 0); start < |lines| && BlockEnd(lines, start) <= i < |lines|
  {
    var start := Find(lines, name, 0);
    var end := BlockEnd(lines, start);
    var rest := lines[..start] + lines[end..];
    forall other :: HitAt(rest, other, start + i - end) <==> HitAt(lines, other, i)
  }

  /** A removal takes no other service away and makes none up exactly when what follows the block is a
      sibling or leaves the section, or the block was not the first, or nothing past it is contested. */
  lemma RemovalKeepsExactly(lines: seq<string>, name: string)
    requires Find(lines, name, 0) < |lines|
    ensures var start := Find(lines, name, 0);
      var end := BlockEnd(lines, start);
      && RemoveLines(lines, name) == Removal(lines[..start] + lines[end..], true)
      && (forall i: nat, other ::
            i < start ==> (HitAt(lines[..start] + lines[end..], other, i) <==> HitAt(lines, other, i)))
      && ((forall i: nat :: end <= i < |lines| ==> SameKeys(lines, name, i))
          <==> SiblingFollows(lines, start) || forall j: nat :: !Contested(lines, start, j))
  {
    hide BlankOrComment, Blank, Inner, TrimSpace, Indent, Find, InnerRun, Run, FirstIndent, HitAt, NextTop,
         SiblingFollows, HasSuffix, SameKeys, Contested;
    var start := Find(lines, name, 0);
    var end := BlockEnd(lines, start);
    forall i: nat, other | i < start
      ensures HitAt(lines[..start] + lines[end..], other, i) <==> HitAt(lines, other, i)
    {
      BeforeBlock(lines, start, end, other, i);
    }
    forall i: nat | end <= i < |lines|
      ensures SameKeys(lines, name, i) <==> SiblingFollows(lines, start) || !Contested(lines, start, i)
    {
      if SiblingFollows(lines, start) {
        SiblingKeeps(lines, name, i);
      } else {
        KeysChange(lines, name, i);
      }
    }
    forall j: nat | Contested(lines, start, j) ensures end <= j < |lines| {
      ContestedWhere(lines, start, j);
    }
  }

  lemma ContestedWhere(lines: seq<string>, start: nat, j: nat)
    requires start < |lines| && Contested(lines, start, j)
    ensures BlockEnd(lines, start) <= j < |lines|
  {
  }

  lemma BeforeBlock(lines: seq<string>, start: nat, end: nat, other: string, i: nat)
    requires i < start <= end <= |lines|
    ensures HitAt(lines[..start] + lines[end..], other, i) <==> HitAt(lines, other, i)
  {
    var rest := lines[..start] + lines[end..];
    assert rest[..i] == lines[..i] && rest[i] == lines[i];
  }

  lemma SiblingKeeps(lines: seq<string>, name: string, i: nat)
    requires var start := Find(lines, name, 0);
      start < |lines| && SiblingFollows(lines, start) && BlockEnd(lines, start) <= i < |lines|
    ensures SameKeys(lines, name, i)
  {
    hide BlankOrComment, Blank, Inner, TrimSpace, Indent, Find, InnerRun, Run, FirstIndent, HitAt, SiblingFollows;
    var start := Find(lines, name, 0);
    var at := start + i - BlockEnd(lines, start);
    forall other ensures HitAt(RemoveLines(lines, name).rest, other, at) <==> HitAt(lines, other, i) {
      RemovalKeepsOthers(lines, name, other, i);
    }
  }

  /** The scans of the file without the block and with it, at a line past the block. */
  lemma TwoScans(lines: seq<string>, name: string, i: nat, other: string)
    requires var start := Find(lines, name, 0);
      start < |lines| && !SiblingFollows(lines, start) && BlockEnd(lines, start) <= i < |lines|
    ensures var start := Find(lines, name, 0);
      var d, end := Indent(lines[start]), BlockEnd(lines, start);
      var rest, tail := lines[..start] + lines[end..], lines[end..i];
      && |rest| == start + |lines| - end && d > 0
      && (HitAt(rest, other, start + i - end) <==> Hit(Run(Scan(true, -1), tail), lines[i], other))
      && (HitAt(lines, other, i) <==> Hit(Run(Scan(true, d), tail), lines[i], other))
  {
    hide BlankOrComment, Blank, Inner, TrimSpace, Indent, Find, InnerRun, Run, FirstIndent;
    var start := Find(lines, name, 0);
    var end := BlockEnd(lines, start);
    var rest := lines[..start] + lines[end..];
    AroundBlock(lines, name, i - end);
    assert rest[start + i - end] == lines[i];
    assert rest[..start + i - end] == lines[..start] + lines[end..i];
  }

  lemma KeysChange(lines: seq<string>, name: string, i: nat)
    requires var start := Find(lines, name, 0);
      start < |lines| && !SiblingFollows(lines, start) && BlockEnd(lines, start) <= i < |lines|
    ensures SameKeys(lines, name, i) <==> !Contested(lines, Find(lines, name, 0), i)
  {
    hide BlankOrComment, Blank, Inner, TrimSpace, Indent, Find, InnerRun, Run, FirstIndent, HitAt, NextTop, Hit,
         HasSuffix;
    var start := Find(lines, name, 0);
    var d, end := Indent(lines[start]), BlockEnd(lines, start);
    var next, line := FirstIndent(lines[end..]), lines[i];
    forall other
      ensures (HitAt(lines[..start] + lines[end..], other, start + i - end) <==> HitAt(lines, other, i))
              <==> i >= NextTop(lines, end) || (!KeyAt(line, other, d) && !KeyAt(line, other, next))
    {
      TwoScans(lines, name, i, other);
      LineSeen(lines, end, i, d, other);
    }
    KeyOfSomeName(line, d);
    KeyOfSomeName(line, next);
  }

  /** `line` is the key of `other` for a scan whose sibling indent is `d`. */
  predicate KeyAt(line: string, other: string, d: int) {
    !BlankOrComment(line) && Indent(line) == d && TrimSpace(line) == other + ":"
  }

  lemma KeyOfSomeName(line: string, d: int)
    ensures (exists other :: KeyAt(line, other, d))
            <==> !BlankOrComment(line) && Indent(line) == d && HasSuffix(TrimSpace(line), ":")
  {
    hide BlankOrComment, Indent, TrimSpace;
    var t := TrimSpace(line);
    if HasSuffix(t, ":") && !BlankOrComment(line) && Indent(line) == d {
      assert t == t[..|t| - 1] + ":";
      assert KeyAt(line, t[..|t| - 1], d);
    }
  }

  /** What the two scans make of a line: past the section the same, inside it each has its own indent. */
  lemma LineSeen(lines: seq<string>, end: nat, i: nat, d: nat, other: string)
    requires end <= i < |lines| && 0 < d && 0 < FirstIndent(lines[end..]) != d
    ensures var next, tail := FirstIndent(lines[end..]), lines[end..i];
      if i < NextTop(lines, end) then
        && (Hit(Run(Scan(true, -1), tail), lines[i], other) <==> KeyAt(lines[i], other, next))
        && (Hit(Run(Scan(true, d), tail), lines[i], other) <==> KeyAt(lines[i], other, d))
      else
        Hit(Run(Scan(true, -1), tail), lines[i], other) <==> Hit(Run(Scan(true, d), tail), lines[i], other)
  {
    hide BlankOrComment, TrimSpace, Indent, Run, FirstIndent, NextTop;
    var next, tail, top := FirstIndent(lines[end..]), lines[end..i], NextTop(lines, end);
    if i < top {
      assert forall j :: 0 <= j < |tail| ==> tail[j] == lines[end + j] && !TopLevel(tail[j]);
      Inside(d, tail);
      var m := i - end;
      assert lines[end..][..m] == tail && lines[end..][..m + 1] == tail + [lines[i]];
      if FirstIndent(tail) >= 0 {
        FirstIndentPrefix(lines[end..], m);
      } else if !BlankOrComment(lines[i]) {
        FirstIndentSnoc(tail, lines[i]);
        FirstAlone(lines[i]);
        FirstIndentPrefix(lines[end..], m + 1);
      }
    } else if i == top {
      TopNotHit(Run(Scan(true, -1), tail), lines[i], other);
      TopNotHit(Run(Scan(true, d), tail), lines[i], other);
    } else {
      assert tail[top - end] == lines[top];
      MeetAtTop(Scan(true, -1), Scan(true, d), tail, top - end);
    }
  }

  /** Inside the section each scan keeps the indent it has, or takes the first entry's. */
  lemma {:induction false} Inside(d: nat, lines: seq<string>)
    requires d > 0 && forall j :: 0 <= j < |lines| ==> !TopLevel(lines[j])
    ensures Run(Scan(true, d), lines) == Scan(true, d)
    ensures Run(Scan(true, -1), lines) == Scan(true, FirstIndent(lines))
    ensures FirstIndent(lines) != 0
  {
    hide BlankOrComment, TrimSpace, Indent;
    if lines != [] {
      var n := |lines| - 1;
      Inside(d, lines[..n]);
      FirstIndentSnoc(lines[..n], lines[n]);
      assert lines == lines[..n] + [lines[n]];
      assert FirstIndent([lines[n]]) == if BlankOrComment(lines[n]) then FirstIndent([]) else Indent(lines[n]);
    }
  }

  lemma {:induction false} MeetAtTop(a: Scan, b: Scan, lines: seq<string>, k: nat)
    requires k < |lines| && TopLevel(lines[k])
    ensures Run(a, lines) == Run(b, lines)
  {
    hide TopLevel, Step;
    var n := |lines| - 1;
    if k == n {
      StepTop(Run(a, lines[..n]), Run(b, lines[..n]), lines[n]);
    } else {
      MeetAtTop(a, b, lines[..n], k);
    }
  }

  /** A comment at the left margin ends a block early: removing the service leaves the line `field`
      behind, whose indent becomes that of a sibling, and the next service is no longer found. */
  lemma CommentHides(head: string, key: string, comment: string, field: string, next: string, name: string,
                     other: string)
    requires ServicesHeader(head)
    requires BlankOrComment(comment) && !Blank(comment) && Indent(comment) == 0
    requires !BlankOrComment(key) && TrimSpace(key) == name + ":"
    requires !BlankOrComment(next) && TrimSpace(next) == other + ":" && name != other
    requires !BlankOrComment(field) && Indent(field) > Indent(key) == Indent(next) > 0
            && TrimSpace(field) != other + ":"
    ensures var lines := [head, key, comment, field, next];
      && Find(lines, name, 0) == 1 && HitAt(lines, other, 4)
      && RemoveLines(lines, name) == Removal([head, comment, field, next], true)
      && !HasService([head, comment, field, next], other)
  {
    hide BlankOrComment, TrimSpace, Indent, Run, InnerRun;
    var lines, rest := [head, key, comment, field, next], [head, comment, field, next];
    HeaderStops(head);
    FiveStates(lines);
    FiveStates(rest + [next]);
    assert forall i :: 0 <= i < 4 ==> (rest + [next])[..i] == rest[..i];
    assert !HitAt(lines, name, 0) && HitAt(lines, name, 1);
    assert Find(lines, name, 0) == 1;
    assert lines[..1] + lines[2..] == rest;
    assert BlockEnd(lines, 1) == 2;
  }

  /** One such file: with `adminer` gone, `web` is not found. */
  lemma CommentHidesWeb()
    ensures var lines := ["services:", "  adminer:", "# ports", "    image: x", "  web:"];
      && HitAt(lines, "web", 4)
      && RemoveLines(lines, "adminer").found && !HasService(RemoveLines(lines, "adminer").rest, "web")
  {
    hide *;
    WebLines();
    CommentHides("services:", "  adminer:", "# ports", "    image: x", "  web:", "adminer", "web");
  }

  lemma WebLines()
    ensures ServicesHeader("services:")
    ensures BlankOrComment("# ports") && !Blank("# ports") && Indent("# ports") == 0
    ensures !BlankOrComment("  adminer:") && TrimSpace("  adminer:") == "adminer" + ":"
    ensures !BlankOrComment("  web:") && TrimSpace("  web:") == "web" + ":" && "adminer" != "web"
    ensures !BlankOrComment("    image: x") && TrimSpace("    image: x") != "web" + ":"
    ensures Indent("    image: x") > Indent("  adminer:") == Indent("  web:") > 0
  {
    hide TrimSpace, Indent, Pad;
    Pads();
    Spaces("services:", 0);
    Spaces("# ports", 0);
    Spaces("adminer:", 2);
    Spaces("web:", 2);
    Spaces("image: x", 4);
    assert "adminer" + ":" == "adminer:" && "web" + ":" == "web:" && "image: x" != "web:";
  }

  lemma Pads()
    ensures Pad(0) + "services:" == "services:" && Pad(0) + "# ports" == "# ports"
    ensures Pad(2) + "adminer:" == "  adminer:" && Pad(2) + "web:" == "  web:" && Pad(4) + "image: x" == "    image: x"
  {
    assert Pad(0) == "" && Pad(2) == "  " && Pad(4) == "    ";
  }

  function Pad(n: nat): string {
    if n == 0 then "" else " " + Pad(n - 1)
  }

  lemma {:induction false} Spaces(s: string, n: nat)
    requires s != "" && Trimmed(s)
    ensures Indent(Pad(n) + s) == n && TrimSpace(Pad(n) + s) == s
  {
    hide TrimRightSpace;
    if n == 0 {
      assert Pad(n) + s == s;
      TrimSpaceLaw(s);
    } else {
      Spaces(s, n - 1);
      assert (Pad(n) + s)[1..] == Pad(n - 1) + s;
    }
  }

  lemma FiveStates(l: seq<string>)
    requires |l| == 5
    ensures Run(START, l[..0]) == START
    ensures Run(START, l[..1]) == Step(START, l[0])
    ensures Run(START, l[..2]) == Step(Step(START, l[0]), l[1])
    ensures Run(START, l[..3]) == Step(Step(Step(START, l[0]), l[1]), l[2])
    ensures Run(START, l[..4]) == Step(Step(Step(Step(START, l[0]), l[1]), l[2]), l[3])
  {
    hide Step;
    assert l[..0] == [];
    RunStep(START, l, 0);
    RunStep(START, l, 1);
    RunStep(START, l, 2);
    RunStep(START, l, 3);
  }

  /** `name` is found in the first section, and nothing but blanks and comments separates the end
      of its block from the end of the section. */
  ghost predicate LastService(lines: seq<string>, name: string) {
    var start, h := Find(lines, name, 0), Header(lines, 0);
    && start < |lines| && h < start < NextTop(lines, h + 1)
    && forall j :: BlockEnd(lines, start) <= j < NextTop(lines, h + 1) ==> BlankOrComment(lines[j])
  }

  /** With the last service gone, the insertion point is where that service's leading blanks and
      comments began. */
  lemma InsertAtAfterRemoval(lines: seq<string>, name: string)
    requires LastService(lines, name)
    ensures var start := Find(lines, name, 0);
      && RemoveLines(lines, name) == Removal(lines[..start] + lines[BlockEnd(lines, start)..], true)
      && InsertAt(RemoveLines(lines, name).rest) == Some(BackUp(lines, start))
  {
    hide BlankOrComment, TrimSpace, Indent, Blank, Find, Run, BackUp, InnerRun, Header, NextTop, HitAt;
    var start, h := Find(lines, name, 0), Header(lines, 0);
    var end, top := BlockEnd(lines, start), NextTop(lines, h + 1);
    if top < |lines| {
      TopEndsBlock(lines[top], Indent(lines[start]));
    }
    InsertAtAfterCut(lines, h, start, end, top);
  }

  lemma InsertAtAfterCut(lines: seq<string>, h: nat, start: nat, end: nat, top: nat)
    requires h < start < end <= top <= |lines|
    requires h == Header(lines, 0) && top == NextTop(lines, h + 1)
    requires forall j :: end <= j < top ==> BlankOrComment(lines[j])
    ensures InsertAt(lines[..start] + lines[end..]) == Some(BackUp(lines, start))
  {
    hide TopLevel, ServicesHeader, BlankOrComment, BackUp, Header, NextTop;
    var r := lines[..start] + lines[end..];
    var top' := start + top - end;
    HeaderStops(lines[h]);
    forall j | 0 <= j < h ensures !ServicesHeader(r[j]) {
      assert r[j] == lines[j];
    }
    forall j | h < j < top' ensures !TopLevel(r[j]) {
      assert r[j] == if j < start then lines[j] else lines[end..][j - start];
    }
    assert r[h] == lines[h];
    if top < |lines| {
      assert r[top'] == lines[end..][top - end];
    }
    var k := BackUp(lines, start);
    forall j | k <= j < top' ensures BlankOrComment(r[j]) {
      assert r[j] == if j < start then lines[j] else lines[end..][j - start];
    }
    assert k > 0 ==> r[k - 1] == lines[k - 1];
  }

  lemma HeaderStops(line: string)
    requires ServicesHeader(line)
    ensures !BlankOrComment(line)
  {
  }

  /** Removing the last service of the first section and adding a block puts that block where the
      service stood, ahead of the lines that led it: the file comes back exactly when the block
      followed by those lines is what was taken out, led by them. */
  lemma RemoveThenAdd(lines: seq<string>, name: string, block: seq<string>)
    requires LastService(lines, name)
    ensures var start := Find(lines, name, 0);
      var k, end := BackUp(lines, start), BlockEnd(lines, start);
      && AddLines(RemoveLines(lines, name).rest, block) == Some(lines[..k] + block + lines[k..start] + lines[end..])
      && (AddLines(RemoveLines(lines, name).rest, block) == Some(lines) <==> block + lines[k..start] == lines[k..end])
  {
    hide BlankOrComment, TrimSpace, Indent, Find, BackUp, InnerRun, Header, NextTop, RemoveLines, InsertAt;
    var start := Find(lines, name, 0);
    var k, end := BackUp(lines, start), BlockEnd(lines, start);
    InsertAtAfterRemoval(lines, name);
    Splice(lines, k, start, end, block);
  }

  lemma Splice(lines: seq<string>, k: nat, start: nat, end: nat, block: seq<string>)
    requires k <= start <= end <= |lines|
    ensures var r, back := lines[..start] + lines[end..], lines[..k] + block + lines[k..start] + lines[end..];
      r[..k] + block + r[k..] == back && (back == lines <==> block + lines[k..start] == lines[k..end])
  {
    var r := lines[..start] + lines[end..];
    assert r[..k] == lines[..k];
    assert r[k..] == lines[k..start] + lines[end..];
    var back := lines[..k] + block + lines[k..start] + lines[end..];
    assert r[..k] + block + r[k..] == back;
    assert lines == lines[..k] + lines[k..end] + lines[end..];
    if block + lines[k..start] == lines[k..end] {
      assert back == lines[..k] + (block + lines[k..start]) + lines[end..];
    }
    if back == lines {
      assert |block + lines[k..start]| == end - k;
      assert back[k..end] == block + lines[k..start];
    }
  }

  /** The block of `name` with what leads it, up to its last line that is neither blank nor a
      comment, as the text a template would render. */
  function ServiceText(lines: seq<string>, name: string): string
    requires Find(lines, name, 0) < |lines|
  {
    var start := Find(lines, name, 0);
    var k, core := BackUp(lines, start), BackUp(lines, BlockEnd(lines, start));
    if k <= core then Join(lines[k..core], '\n') + "\n" else ""
  }

  /** So removing the last service and re-adding it, led by the blank lines and comments that led
      it, restores the file exactly when the block also ended in those same lines. */
  lemma RemoveThenAddText(yaml: string, name: string)
    requires LastService(Split(yaml, '\n'), name)
    ensures var lines := Split(yaml, '\n');
      var start := Find(lines, name, 0);
      var k, end := BackUp(lines, start), BlockEnd(lines, start);
      var core := BackUp(lines, end);
      && k <= start < core <= end
      && (AddText(RemoveText(yaml, name).rest, ServiceText(lines, name)) == Some(yaml)
          <==> lines[core..end] == lines[k..start])
  {
    hide BlankOrComment, TrimSpace, Indent, Find, BackUp, InnerRun, Header, NextTop, InsertAt, Split, Join, AddLines,
      RemoveLines, Run, ServiceText, TrimNewline, AddText, RemoveText;
    var lines := Split(yaml, '\n');
    var start := Find(lines, name, 0);
    var k, end := BackUp(lines, start), BlockEnd(lines, start);
    var core := BackUp(lines, end);
    SplitServiceText(yaml, name);
    var block := lines[k..core];
    RemoveThenAdd(lines, name, block);
    InsertAtAfterRemoval(lines, name);
    JoinSplit(yaml, '\n');
    RemovedText(yaml, name);
    AddedText(RemoveText(yaml, name).rest, ServiceText(lines, name));
    SameText(yaml, lines[..k] + block + lines[k..start] + lines[end..]);
    SameTail(lines, k, core, end, start);
  }

  lemma RemovedText(yaml: string, name: string)
    requires var r := RemoveLines(Split(yaml, '\n'), name); r.found && r.rest != [] && Pieces(r.rest, '\n')
    ensures Split(RemoveText(yaml, name).rest, '\n') == RemoveLines(Split(yaml, '\n'), name).rest
  {
    hide RemoveLines, Split, Join;
    SplitJoin(RemoveLines(Split(yaml, '\n'), name).rest, '\n');
  }

  lemma AddedText(yaml: string, block: string)
    ensures var r := AddLines(Split(yaml, '\n'), Split(TrimNewline(block), '\n'));
      AddText(yaml, block) == if r.Some? then Some(Join(r.value, '\n')) else None
  {
  }

  /** Two files are the same when their lines are. */
  lemma SameText(yaml: string, lines: seq<string>)
    requires lines != [] && Pieces(lines, '\n')
    ensures Join(lines, '\n') == yaml <==> lines == Split(yaml, '\n')
  {
    hide Split, Join;
    JoinSplit(yaml, '\n');
    SplitJoin(lines, '\n');
  }

  lemma SplitServiceText(yaml: string, name: string)
    requires LastService(Split(yaml, '\n'), name)
    ensures var lines := Split(yaml, '\n');
      var start := Find(lines, name, 0);
      var k, core := BackUp(lines, start), BackUp(lines, BlockEnd(lines, start));
      && k <= start < core
      && Split(TrimNewline(ServiceText(lines, name)), '\n') == lines[k..core]
  {
    hide BlankOrComment, TrimSpace, Indent, Find, BackUp, InnerRun, Header, NextTop, InsertAt, Split, Join, Run;
    var lines := Split(yaml, '\n');
    var start := Find(lines, name, 0);
    var k, core := BackUp(lines, start), BackUp(lines, BlockEnd(lines, start));
    assert HitAt(lines, name, start);
    assert start < core;
    JoinSplit(yaml, '\n');
    SplitJoin(lines[k..core], '\n');
    var text := ServiceText(lines, name);
    assert text[..|text| - 1] == Join(lines[k..core], '\n');
  }

  lemma SameTail(lines: seq<string>, k: nat, core: nat, end: nat, start: nat)
    requires k <= start < core <= end <= |lines|
    ensures lines[k..core] + lines[k..start] == lines[k..end] <==> lines[core..end] == lines[k..start]
  {
    var block := lines[k..core];
    assert lines[k..end] == block + lines[core..end];
    if block + lines[k..start] == block + lines[core..end] {
      assert lines[k..start] == (block + lines[k..start])[|block|..];
    }
  }
}
