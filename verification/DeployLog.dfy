/** The log a container deploy leaves behind and the list of steps the settings page reads back
    from it: the writer in internal/apps/laravel.go and internal/apps/deploy.go, the reader in
    internal/store/deployments.go. What is read is what was written, but for outputs that look like
    steps and for logs that were trimmed, of which it is said exactly what comes back. */
module DeployLog {
  import opened Text
  import opened Wrappers

  // ---- writing ----

  /** One command a deploy ran and what it printed. */
  datatype Ran = Ran(name: string, output: string)

  const MARK := "$ "

  predicate IsMark(line: string) {
    HasPrefix(line, MARK)
  }

  function Entry(r: Ran): string {
    MARK + r.name + "\n" + TrimRight(r.output, '\n') + "\n"
  }

  function Written(ran: seq<Ran>): string {
    if ran == [] then "" else Entry(ran[0]) + Written(ran[1..])
  }

  /** deployContainer's `step` writer, called once per command. */
  method WriteLog(ran: seq<Ran>) returns (out: string)
    ensures out == Written(ran)
  {
    hide Entry;
    out := "";
    assert ran[..0] == [];
    for i := 0 to |ran|
      invariant out == Written(ran[..i])
    {
      out := out + Entry(ran[i]);
      WrittenSnoc(ran[..i], ran[i]);
      assert ran[..i + 1] == ran[..i] + [ran[i]];
    }
    assert ran[..|ran|] == ran;
  }

  lemma {:induction false} WrittenSnoc(ran: seq<Ran>, r: Ran)
    ensures Written(ran + [r]) == Written(ran) + Entry(r)
  {
    hide Entry;
    if ran == [] {
      assert ran + [r] == [r];
      assert Written([r]) == Entry(r) + Written([]);
    } else {
      WrittenSnoc(ran[1..], r);
      assert (ran + [r])[1..] == ran[1..] + [r];
    }
  }

  const MAX_LOG := 16384
  const TRIMMED := "…(trimmed)…"

  /** tailLog: a failure's error goes first, and an overlong output keeps its end. */
  function TailLog(out: string, error: Option<string>): string {
    var kept := if |out| > MAX_LOG then TRIMMED + "\n" + out[|out| - MAX_LOG..] else out;
    match error
    case None => kept
    case Some(e) => if kept == "" then e else e + "\n\n" + kept
  }

  /** The log of a step is its name behind "$ " and what it printed, each on lines of its own. */
  lemma EntryIs(ran: seq<Ran>, name: string, output: string)
    ensures Written(ran + [Ran(name, output)]) == Written(ran) + ("$ " + name + "\n" + TrimRight(output, '\n') + "\n")
  {
    WrittenSnoc(ran, Ran(name, output));
  }

  /** An output of up to 16384 characters is kept whole, of a longer one the last 16384 behind a mark. */
  lemma TailIs(out: string)
    ensures |out| <= 16384 ==> TailLog(out, None) == out
    ensures |out| > 16384 ==> TailLog(out, None) == "…(trimmed)…" + "\n" + out[|out| - 16384..]
  {
  }

  // ---- reading ----

  datatype Step = Step(name: string, output: string, failed: bool)

  /** The reader between two lines: the steps closed so far, the name of the open one and the
      lines it has collected. */
  datatype Reader = Reader(steps: seq<Step>, cur: Option<string>, body: seq<string>)

  const FRESH := Reader([], None, [])

  function Output(body: seq<string>): string {
    TrimRight(Unlines(body), '\n')
  }

  function Flushed(r: Reader): seq<Step> {
    if r.cur.None? then r.steps else r.steps + [Step(r.cur.value, Output(r.body), false)]
  }

  function Feed(r: Reader, line: string): Reader {
    if IsMark(line) then Reader(Flushed(r), Some(TrimSpace(line[2..])), [])
    else Reader(r.steps, if r.cur.None? then Some("") else r.cur, r.body + [line])
  }

  function Read(r: Reader, lines: seq<string>): Reader {
    if lines == [] then r else Feed(Read(r, lines[..|lines| - 1]), lines[|lines| - 1])
  }

  function MarkLast(steps: seq<Step>): seq<Step> {
    if steps == [] then [] else steps[|steps| - 1 := steps[|steps| - 1].(failed := true)]
  }

  function StepsOf(log: string, failed: bool): seq<Step> {
    if TrimSpace(log) == "" then []
    else
      var steps := Flushed(Read(FRESH, Split(log, '\n')));
      if failed then MarkLast(steps) else steps
  }

  /** Deployment.Steps. */
  method Steps(log: string, failed: bool) returns (steps: seq<Step>)
    ensures steps == StepsOf(log, failed)
  {
    hide TrimSpace, Split, Unlines, TrimRight;
    if TrimSpace(log) == "" {
      return [];
    }
    steps := [];
    var cur: Option<string> := None;
    var body := "";
    ghost var r := FRESH;
    UnlinesNil();
    var lines := Split(log, '\n');
    for i := 0 to |lines|
      invariant r == Read(FRESH, lines[..i])
      invariant steps == r.steps && cur == r.cur && body == Unlines(r.body)
    {
      var line := lines[i];
      assert lines[..i + 1][..i] == lines[..i];
      if HasPrefix(line, MARK) {
        if cur.Some? {
          steps := steps + [Step(cur.value, TrimRight(body, '\n'), false)];
        }
        body := "";
        cur := Some(TrimSpace(line[2..]));
      } else {
        if cur.None? {
          cur := Some("");
        }
        body := body + (line + "\n");
        Emit(r.body, line);
      }
      r := Feed(r, line);
    }
    assert lines[..|lines|] == lines;
    if cur.Some? {
      steps := steps + [Step(cur.value, TrimRight(body, '\n'), false)];
    }
    if failed && |steps| > 0 {
      steps := steps[|steps| - 1 := steps[|steps| - 1].(failed := true)];
    }
  }

  lemma UnlinesNil()
    ensures Unlines([]) == ""
  {
  }

  // ---- reading back what was written ----

  /** The name is one line with nothing to trim. */
  ghost predicate OneLine(name: string) {
    '\n' !in name && Trimmed(name)
  }

  /** No line of the output looks like the start of a step. */
  ghost predicate Plain(text: string) {
    forall i :: 0 <= i < |Split(text, '\n')| ==> !IsMark(Split(text, '\n')[i])
  }

  function Lines(ran: seq<Ran>): seq<string> {
    if ran == [] then []
    else [MARK + ran[0].name] + Split(TrimRight(ran[0].output, '\n'), '\n') + Lines(ran[1..])
  }

  function AsSteps(ran: seq<Ran>): seq<Step> {
    if ran == [] then [] else [Step(ran[0].name, TrimRight(ran[0].output, '\n'), false)] + AsSteps(ran[1..])
  }

  /** Whether a list of steps and a text have the same lines when split. */
  lemma {:induction false} WrittenLines(ran: seq<Ran>)
    requires forall i :: 0 <= i < |ran| ==> OneLine(ran[i].name)
    ensures Written(ran) == Unlines(Lines(ran))
    ensures Pieces(Lines(ran), '\n')
  {
    hide TrimRight, Split, Unlines, Trimmed;
    if ran == [] {
      UnlinesNil();
    } else {
      WrittenLines(ran[1..]);
      var o := TrimRight(ran[0].output, '\n');
      var head := MARK + ran[0].name;
      JoinSplit(o, '\n');
      UnlinesSplit(o);
      UnlinesAppend([head], Split(o, '\n'));
      UnlinesAppend([head] + Split(o, '\n'), Lines(ran[1..]));
      UnlinesOne(head);
      assert Entry(ran[0]) == head + "\n" + (o + "\n");
    }
  }

  lemma UnlinesOne(line: string)
    ensures Unlines([line]) == line + "\n"
  {
    assert Unlines([line]) == line + "\n" + Unlines([]);
  }

  lemma UnlinesSplit(s: string)
    ensures Unlines(Split(s, '\n')) == s + "\n"
  {
    hide Split, Unlines;
    JoinSplit(s, '\n');
    UnlinesJoin(Split(s, '\n'));
    JoinAppend(Split(s, '\n'), [""], '\n');
    assert Join([""], '\n') == "";
  }

  lemma {:induction false} ReadAppend(r: Reader, a: seq<string>, b: seq<string>)
    ensures Read(r, a + b) == Read(Read(r, a), b)
    decreases |b|
  {
    hide Feed;
    if b == [] {
      assert a + b == a;
    } else {
      ReadAppend(r, a, b[..|b| - 1]);
      assert (a + b)[..|a + b| - 1] == a + b[..|b| - 1];
    }
  }

  lemma {:induction false} ReadPlain(r: Reader, lines: seq<string>)
    requires r.cur.Some?
    requires forall i :: 0 <= i < |lines| ==> !IsMark(lines[i])
    ensures Read(r, lines) == Reader(r.steps, r.cur, r.body + lines)
  {
    hide IsMark, Output, TrimSpace;
    if lines == [] {
      assert r.body + lines == r.body;
    } else {
      var init := lines[..|lines| - 1];
      ReadPlain(r, init);
      assert r.body + lines == r.body + init + [lines[|lines| - 1]];
    }
  }

  lemma MarkRead(r: Reader, name: string)
    requires OneLine(name)
    ensures Feed(r, MARK + name) == Reader(Flushed(r), Some(name), [])
    ensures Read(r, [MARK + name]) == Reader(Flushed(r), Some(name), [])
  {
    hide Output, TrimSpace, Trimmed;
    TrimSpaceLaw(name);
    var line := MARK + name;
    assert line[2..] == name;
  }

  /** Reading an output's lines, and any newline after them, gives the output back. */
  lemma OutputOfSplit(text: string)
    ensures var o := TrimRight(text, '\n');
      Output(Split(o, '\n')) == o && Output(Split(o, '\n') + [""]) == o
  {
    hide Split, Unlines;
    var o := TrimRight(text, '\n');
    TrimRightLaw(text, '\n');
    TrimRightLaw(o, '\n');
    UnlinesSplit(o);
    UnlinesAppend(Split(o, '\n'), [""]);
    UnlinesOne("");
    TrimRightStep(o, '\n');
    TrimRightStep(o + "\n", '\n');
    assert o + "\n" + "\n" == o + "\n" + ("" + "\n");
  }

  /** From any open step on, the lines written for `ran` are read as those steps, followed by
      whatever the last one's reader still holds. */
  lemma {:induction false} ReadLines(r: Reader, ran: seq<Ran>)
    requires ran != []
    requires forall i :: 0 <= i < |ran| ==> OneLine(ran[i].name) && Plain(TrimRight(ran[i].output, '\n'))
    ensures var last := ran[|ran| - 1];
      Read(r, Lines(ran))
      == Reader(Flushed(r) + AsSteps(ran[..|ran| - 1]), Some(last.name), Split(TrimRight(last.output, '\n'), '\n'))
    decreases |ran|
  {
    hide IsMark, Output, TrimSpace, Split, TrimRight, Trimmed, Flushed, Feed, Read;
    var o := TrimRight(ran[0].output, '\n');
    var head := [MARK + ran[0].name];
    var lines := Split(o, '\n');
    assert Plain(o);
    var begun := Reader(Flushed(r), Some(ran[0].name), []);
    var read := Reader(Flushed(r), Some(ran[0].name), lines);
    MarkRead(r, ran[0].name);
    ReadPlain(begun, lines);
    assert [] + lines == lines;
    ReadAppend(r, head, lines);
    ReadAppend(r, head + lines, Lines(ran[1..]));
    if |ran| == 1 {
      assert Lines(ran[1..]) == [];
      ReadNothing(read);
      assert Flushed(r) + AsSteps(ran[..0]) == Flushed(r);
    } else {
      ReadLines(read, ran[1..]);
      OutputOfSplit(ran[0].output);
      FlushOpen(read);
      var mid := ran[1..][..|ran| - 2];
      assert ran[..|ran| - 1] == [ran[0]] + mid;
      assert ([ran[0]] + mid)[1..] == mid;
      assert Flushed(r) + AsSteps([ran[0]] + mid) == Flushed(r) + [Step(ran[0].name, o, false)] + AsSteps(mid);
    }
  }

  lemma ReadNothing(r: Reader)
    ensures Read(r, []) == r
  {
  }

  lemma FlushOpen(r: Reader)
    requires r.cur.Some?
    ensures Flushed(r) == r.steps + [Step(r.cur.value, Output(r.body), false)]
  {
  }

  lemma {:induction false} AsStepsSnoc(ran: seq<Ran>)
    requires ran != []
    ensures var last := ran[|ran| - 1];
      AsSteps(ran) == AsSteps(ran[..|ran| - 1]) + [Step(last.name, TrimRight(last.output, '\n'), false)]
  {
    hide TrimRight;
    if |ran| > 1 {
      AsStepsSnoc(ran[1..]);
      assert ran[1..][..|ran| - 2] == ran[..|ran| - 1][1..];
    }
  }

  /** Closing the reader after the newline the text ends with. */
  lemma FlushedLines(r: Reader, ran: seq<Ran>)
    requires ran != []
    requires forall i :: 0 <= i < |ran| ==> OneLine(ran[i].name) && Plain(TrimRight(ran[i].output, '\n'))
    ensures Flushed(Read(r, Lines(ran) + [""])) == Flushed(r) + AsSteps(ran)
  {
    hide IsMark, Output, TrimSpace, Split, TrimRight, Trimmed, Flushed, Read, Lines, AsSteps, Plain;
    var last := ran[|ran| - 1];
    var o := TrimRight(last.output, '\n');
    ReadLines(r, ran);
    ReadAppend(r, Lines(ran), [""]);
    BlankIsPlain();
    ReadPlain(Read(r, Lines(ran)), [""]);
    OutputOfSplit(last.output);
    FlushOpen(Read(r, Lines(ran) + [""]));
    AsStepsSnoc(ran);
    assert Flushed(r) + AsSteps(ran[..|ran| - 1]) + [Step(last.name, o, false)] == Flushed(r) + AsSteps(ran);
  }

  lemma BlankIsPlain()
    ensures !IsMark("")
  {
  }

  /** What the reader sees in a written log, after any text `before` it. */
  lemma WrittenSplit(before: string, ran: seq<Ran>)
    requires ran != []
    requires forall i :: 0 <= i < |ran| ==> OneLine(ran[i].name)
    ensures Split(Written(ran), '\n') == Lines(ran) + [""]
    ensures TrimSpace(before + Written(ran)) != "" && Written(ran) != ""
  {
    hide TrimSpace, Split, TrimRight, Trimmed, Lines, Unlines, Written;
    WrittenLines(ran);
    SplitUnlines(Lines(ran));
    WrittenHead(ran);
    var log := before + Written(ran);
    assert log[|before|] == '$';
    SolidSurvives(log, |before|);
  }

  lemma WrittenHead(ran: seq<Ran>)
    requires ran != []
    ensures Written(ran) != "" && Written(ran)[0] == '$'
  {
    hide TrimRight;
    assert Entry(ran[0])[0] == '$';
  }

  lemma NothingWritten(failed: bool)
    ensures StepsOf("", failed) == []
  {
  }

  /** Parse of print: the reader returns exactly the commands and outputs the writer was given, in
      order, and marks the last one failed for a failed deploy only. */
  lemma {:induction false} StepsOfWritten(ran: seq<Ran>, failed: bool)
    requires forall i :: 0 <= i < |ran| ==> OneLine(ran[i].name) && Plain(TrimRight(ran[i].output, '\n'))
    ensures StepsOf(Written(ran), failed) == if failed then MarkLast(AsSteps(ran)) else AsSteps(ran)
  {
    hide TrimSpace, Split, TrimRight, Trimmed, Read, Lines, Plain, Entry, IsMark, Output;
    if ran == [] {
      NothingWritten(failed);
    } else {
      WrittenSplit("", ran);
      assert "" + Written(ran) == Written(ran);
      FlushedLines(FRESH, ran);
      assert Flushed(FRESH) + AsSteps(ran) == AsSteps(ran);
    }
  }

  /** A text with no step in it, ahead of a written log, is read as one unnamed step. */
  lemma Behind(text: string, ran: seq<Ran>)
    requires Plain(text)
    requires forall i :: 0 <= i < |ran| ==> OneLine(ran[i].name) && Plain(TrimRight(ran[i].output, '\n'))
    ensures Split(text + "\n" + Written(ran), '\n') == Split(text, '\n') + (Lines(ran) + [""])
    ensures Flushed(Read(FRESH, Split(text + "\n" + Written(ran), '\n')))
            == [Step("", TrimRight(text, '\n'), false)] + AsSteps(ran)
  {
    hide TrimSpace, Split, TrimRight, Trimmed, Read, Lines, Plain, Written, AsSteps, Flushed;
    var top := Split(text, '\n');
    SplitAppend(text, Written(ran), '\n');
    Preamble(text);
    if ran == [] {
      NothingRan();
      NoTextOneLine();
      assert Lines(ran) + [""] == [""];
      assert [Step("", TrimRight(text, '\n'), false)] + AsSteps(ran) == [Step("", TrimRight(text, '\n'), false)];
    } else {
      WrittenSplit("", ran);
      ReadAppend(FRESH, top, Lines(ran) + [""]);
      FlushedLines(Read(FRESH, top), ran);
    }
  }

  lemma NothingRan()
    ensures Written([]) == "" && Lines([]) == [] && AsSteps([]) == []
  {
  }

  lemma NoTextOneLine()
    ensures Split("", '\n') == [""]
  {
  }

  /** Such a text's lines make one unnamed step, whether or not a newline follows. */
  lemma Preamble(text: string)
    requires Plain(text)
    ensures Flushed(Read(FRESH, Split(text, '\n'))) == [Step("", TrimRight(text, '\n'), false)]
    ensures Flushed(Read(FRESH, Split(text, '\n') + [""])) == [Step("", TrimRight(text, '\n'), false)]
  {
    hide IsMark, TrimSpace, Split, TrimRight, Trimmed, Unlines, Read, Feed, Flushed;
    var lines := Split(text, '\n');
    var first := [lines[0]];
    assert lines == first + lines[1..];
    FirstFed(lines[0]);
    ReadAppend(FRESH, first, lines[1..]);
    ReadPlain(Reader([], Some(""), first), lines[1..]);
    FlushOpen(Reader([], Some(""), lines));
    ReadAppend(FRESH, lines, [""]);
    BlankIsPlain();
    ReadPlain(Reader([], Some(""), lines), [""]);
    FlushOpen(Reader([], Some(""), lines + [""]));
    UnlinesSplit(text);
    UnlinesAppend(lines, [""]);
    UnlinesOne("");
    TrimRightStep(text, '\n');
    TrimRightStep(text + "\n", '\n');
    assert text + "\n" + "\n" == text + "\n" + ("" + "\n");
  }

  lemma FirstFed(line: string)
    requires !IsMark(line)
    ensures Read(FRESH, [line]) == Reader([], Some(""), [line])
  {
    assert [line][..0] == [];
  }

  lemma PlainParts(a: string, b: string)
    ensures Plain(a + "\n" + b) <==> Plain(a) && Plain(b)
    ensures Marks(Split(a + "\n" + b, '\n')) == Marks(Split(a, '\n')) + Marks(Split(b, '\n'))
  {
    hide Split, IsMark, Marks;
    SplitAppend(a, b, '\n');
    MarksAppend(Split(a, '\n'), Split(b, '\n'));
    MarksZero(Split(a, '\n'));
    MarksZero(Split(b, '\n'));
    MarksZero(Split(a + "\n" + b, '\n'));
  }

  /** The same for the log a failed deploy stores, which opens with its error: that becomes one
      unnamed step ahead of the others. */
  lemma StepsOfFailure(ran: seq<Ran>, error: string)
    requires ran != [] && |Written(ran)| <= MAX_LOG
    requires Plain(error)
    requires forall i :: 0 <= i < |ran| ==> OneLine(ran[i].name) && Plain(TrimRight(ran[i].output, '\n'))
    ensures StepsOf(TailLog(Written(ran), Some(error)), true)
            == [Step("", TrimRight(error, '\n'), false)] + MarkLast(AsSteps(ran))
  {
    hide TrimSpace, Split, TrimRight, Trimmed, Read, Lines, Plain, Written, AsSteps, Flushed;
    WrittenSplit(error + "\n\n", ran);
    var text := error + "\n";
    assert TailLog(Written(ran), Some(error)) == error + "\n\n" + Written(ran) == text + "\n" + Written(ran);
    assert text == error + "\n" + "";
    PlainParts(error, "");
    NothingIsPlain();
    Behind(text, ran);
    TrimRightStep(error, '\n');
    AsStepsSnoc(ran);
  }

  lemma NothingIsPlain()
    ensures Plain("")
  {
    NoTextOneLine();
  }

  // ---- outputs that look like steps ----

  function Marks(lines: seq<string>): nat {
    if lines == [] then 0 else Marks(lines[..|lines| - 1]) + (if IsMark(lines[|lines| - 1]) then 1 else 0)
  }

  lemma {:induction false} MarksAppend(a: seq<string>, b: seq<string>)
    ensures Marks(a + b) == Marks(a) + Marks(b)
    decreases |b|
  {
    hide IsMark;
    if b == [] {
      assert a + b == a;
    } else {
      MarksAppend(a, b[..|b| - 1]);
      assert (a + b)[..|a + b| - 1] == a + b[..|b| - 1];
    }
  }

  lemma {:induction false} MarksZero(lines: seq<string>)
    ensures Marks(lines) == 0 <==> forall i :: 0 <= i < |lines| ==> !IsMark(lines[i])
  {
    hide IsMark;
    if lines != [] {
      var init := lines[..|lines| - 1];
      MarksZero(init);
      assert forall i :: 0 <= i < |init| ==> init[i] == lines[i];
    }
  }

  lemma {:induction false} OneStepPerMark(lines: seq<string>)
    requires lines != [] && IsMark(lines[0])
    ensures Read(FRESH, lines).cur.Some?
    ensures |Flushed(Read(FRESH, lines))| == Marks(lines)
  {
    hide IsMark, Output, TrimSpace;
    if |lines| == 1 {
      assert lines[..0] == [];
    } else {
      OneStepPerMark(lines[..|lines| - 1]);
    }
  }

  lemma {:induction false} MarksOfLines(ran: seq<Ran>)
    ensures Marks(Lines(ran)) >= |ran|
    ensures Marks(Lines(ran)) == |ran| <==> forall i :: 0 <= i < |ran| ==> Plain(TrimRight(ran[i].output, '\n'))
  {
    hide TrimRight, Split, IsMark;
    if ran != [] {
      MarksOfLines(ran[1..]);
      var o := Split(TrimRight(ran[0].output, '\n'), '\n');
      var head := MARK + ran[0].name;
      HeadIsMark(ran[0].name);
      assert |[head][..0]| == 0;
      assert Marks([head]) == 1;
      MarksAppend([head], o);
      MarksAppend([head] + o, Lines(ran[1..]));
      MarksZero(o);
      assert forall i :: 0 < i < |ran| ==> ran[i] == ran[1..][i - 1];
      assert (forall i :: 0 <= i < |ran| ==> Plain(TrimRight(ran[i].output, '\n'))) <==>
             (Plain(TrimRight(ran[0].output, '\n')) && forall i :: 0 <= i < |ran[1..]|
                                                        ==> Plain(TrimRight(ran[1..][i].output, '\n')));
    }
  }

  lemma HeadIsMark(name: string)
    ensures IsMark(MARK + name)
  {
  }

  /** The steps read back are as many as were written exactly when no output holds a line that
      looks like the start of a step. */
  lemma {:induction false} StepsLostExactly(ran: seq<Ran>, failed: bool)
    requires ran != []
    requires forall i :: 0 <= i < |ran| ==> OneLine(ran[i].name)
    ensures |StepsOf(Written(ran), failed)| == |ran|
            <==> forall i :: 0 <= i < |ran| ==> Plain(TrimRight(ran[i].output, '\n'))
  {
    hide Output, TrimSpace, Split, TrimRight, Trimmed, Read, Plain, Written, Flushed, Marks;
    WrittenSplit("", ran);
    assert "" + Written(ran) == Written(ran);
    var lines := Lines(ran) + [""];
    HeadIsMark(ran[0].name);
    OneStepPerMark(lines);
    BlankIsPlain();
    MarksZero([""]);
    MarksAppend(Lines(ran), [""]);
    MarksOfLines(ran);
  }

  // ---- logs that are too long ----

  /** Where the end of a written log begins: in the entry before command `from`, of which it has
      `partial`. */
  datatype Cut = Cut(from: nat, partial: string)

  /** The last `n` characters. */
  function CutAt(ran: seq<Ran>, n: nat): Cut
    requires n <= |Written(ran)|
  {
    if n == |Written(ran)| then Cut(0, "")
    else if n <= |Written(ran[1..])| then
      var c := CutAt(ran[1..], n);
      Cut(c.from + 1, c.partial)
    else Cut(1, Entry(ran[0])[|Written(ran)| - n..])
  }

  predicate EndOf(r: Ran, partial: string) {
    0 < |partial| < |Entry(r)| && Entry(r)[|Entry(r)| - |partial|..] == partial
  }

  lemma {:induction false} CutLaw(ran: seq<Ran>, n: nat)
    requires n <= |Written(ran)|
    ensures var c := CutAt(ran, n);
      && c.from <= |ran| && Written(ran)[|Written(ran)| - n..] == c.partial + Written(ran[c.from..])
      && (c.partial != "" ==> c.from > 0 && EndOf(ran[c.from - 1], c.partial))
      && (n < |Written(ran)| ==> c.from > 0)
  {
    hide Entry, EndOf;
    if n == |Written(ran)| {
      assert Written(ran)[0..] == Written(ran) && ran[0..] == ran;
    } else {
      var rest, e := Written(ran[1..]), Entry(ran[0]);
      LastOf(e, rest, n);
      if n <= |rest| {
        CutLaw(ran[1..], n);
        var c := CutAt(ran[1..], n);
        assert ran[1..][c.from..] == ran[c.from + 1..];
      } else {
        EndsSo(ran[0], |e + rest| - n);
      }
    }
  }

  /** The last `n` characters of two texts, one after the other. */
  lemma LastOf(a: string, b: string, n: nat)
    requires n <= |a + b|
    ensures (a + b)[|a + b| - n..] == if n <= |b| then b[|b| - n..] else a[|a + b| - n..] + b
  {
  }

  lemma EndsSo(r: Ran, i: nat)
    requires 0 < i < |Entry(r)|
    ensures EndOf(r, Entry(r)[i..])
  {
    hide Entry;
  }

  /** Dropping characters drops lines, but for what is left of the one the cut is in. */
  lemma {:induction false} SplitDrop(s: string, n: nat) returns (j: nat)
    requires n <= |s|
    ensures 1 <= j <= |Split(s, '\n')| && Split(s[n..], '\n')[1..] == Split(s, '\n')[j..]
  {
    hide Split;
    if n == 0 {
      assert s[0..] == s;
      j := 1;
    } else {
      j := SplitDrop(s[1..], n - 1);
      assert s[1..][n - 1..] == s[n..];
      SplitOne(s);
      if s[0] == '\n' {
        j := j + 1;
      }
    }
  }

  lemma SplitOne(s: string)
    requires s != ""
    ensures if s[0] == '\n' then Split(s, '\n') == [""] + Split(s[1..], '\n')
            else Split(s, '\n')[1..] == Split(s[1..], '\n')[1..]
  {
  }

  /** What is left of an entry has a step in it only when the cut leaves what looks like one. */
  lemma PartialMarks(r: Ran, p: string)
    requires OneLine(r.name) && Plain(TrimRight(r.output, '\n')) && EndOf(r, p)
    ensures var cut := p[..|p| - 1];
      p == cut + "\n" && Marks(Split(cut, '\n')) == if IsMark(p) then 1 else 0
  {
    hide Split, TrimRight, Trimmed, Marks, IsMark;
    var o := TrimRight(r.output, '\n');
    var whole, cut := MARK + r.name + "\n" + o, p[..|p| - 1];
    assert Entry(r) == whole + "\n";
    assert cut == whole[|whole| - |cut|..];
    SplitAppend(MARK + r.name, o, '\n');
    OneLineSplits(MARK + r.name);
    var lines := Split(cut, '\n');
    var k := SplitDrop(whole, |whole| - |cut|);
    var later := lines[1..];
    assert later == Split(whole, '\n')[k..];
    forall i | 0 <= i < |later| ensures !IsMark(later[i]) {
      assert later[i] == Split(o, '\n')[k - 1 + i];
    }
    MarksZero(later);
    assert lines == [lines[0]] + later;
    MarksAppend([lines[0]], later);
    FirstLine(cut);
    MarksOne(lines[0]);
    MarkBeforeNewline(cut, "");
    assert p == cut + "\n" + "";
  }

  lemma MarkBeforeNewline(a: string, b: string)
    ensures IsMark(a + "\n" + b) <==> IsMark(a)
  {
    var s := a + "\n" + b;
    assert |a| >= 2 ==> s[..2] == a[..2];
    assert s[|a|] == '\n';
  }

  lemma OneLineSplits(s: string)
    requires '\n' !in s
    ensures Split(s, '\n') == [s]
  {
  }

  lemma MarksOne(line: string)
    ensures Marks([line]) == if IsMark(line) then 1 else 0
  {
    assert [line][..0] == [];
  }

  lemma FirstLine(s: string)
    ensures IsMark(Split(s, '\n')[0]) <==> IsMark(s)
  {
  }

  /** What a log that was cut is read up to: its error, if any, the trim mark and what is left of an
      entry. */
  function Left(error: Option<string>, partial: string): string {
    (if error.Some? then error.value + "\n\n" else "") + TRIMMED + "\n" + partial
  }

  lemma TrimMarkIsPlain()
    ensures Plain(TRIMMED) && !IsMark(TRIMMED)
  {
    OneLineSplits(TRIMMED);
    assert TRIMMED[0] != MARK[0];
    assert !IsMark(TRIMMED);
  }

  lemma LeftMarks(error: Option<string>, partial: string, cut: string)
    requires error.Some? ==> Plain(error.value)
    requires partial == "" || (partial == cut + "\n" && Marks(Split(cut, '\n')) == if IsMark(partial) then 1 else 0)
    ensures var text := Left(error, partial)[..|Left(error, partial)| - 1];
      Marks(Split(text, '\n')) == (if IsMark(partial) then 1 else 0) && !IsMark(Split(text, '\n')[0])
  {
    hide Split, Marks, IsMark;
    var left := Left(error, partial);
    var text, pre := left[..|left| - 1], Before(error);
    BeforeMarks(error);
    BlankIsPlain();
    FirstLine(pre);
    FirstLine(text);
    assert left == pre + "\n" + partial;
    if partial == "" {
      assert text == pre;
    } else {
      assert text == pre + "\n" + cut;
      PlainParts(pre, cut);
      MarkBeforeNewline(pre, cut);
    }
  }

  /** The error and the trim mark. */
  function Before(error: Option<string>): string {
    if error.Some? then error.value + "\n" + ("" + "\n" + TRIMMED) else TRIMMED
  }

  lemma BeforeMarks(error: Option<string>)
    requires error.Some? ==> Plain(error.value)
    ensures Marks(Split(Before(error), '\n')) == 0 && !IsMark(Before(error))
  {
    hide Split, Marks, IsMark;
    TrimMarkIsPlain();
    if error.Some? {
      PlainParts(error.value, "" + "\n" + TRIMMED);
      PlainParts("", TRIMMED);
      NothingIsPlain();
      FirstLine(error.value);
      MarkBeforeNewline(error.value, "" + "\n" + TRIMMED);
    }
    MarksZero(Split(Before(error), '\n'));
  }

  lemma {:induction false} OneStepAhead(lines: seq<string>)
    requires lines != [] && !IsMark(lines[0])
    ensures Read(FRESH, lines).cur.Some?
    ensures |Flushed(Read(FRESH, lines))| == 1 + Marks(lines)
  {
    hide IsMark, Output, TrimSpace;
    if |lines| == 1 {
      assert lines[..0] == [];
    } else {
      OneStepAhead(lines[..|lines| - 1]);
    }
  }

  /** A deploy's log that was trimmed: one unnamed step holds the error, if any, and what is left of the
      entry the cut is in, and every later step comes back, exactly when the cut does not leave what
      looks like a step; otherwise there is one step more. */
  lemma StepsOfTrimmed(ran: seq<Ran>, error: Option<string>)
    requires |Written(ran)| > MAX_LOG && (error.Some? ==> Plain(error.value))
    requires forall i :: 0 <= i < |ran| ==> OneLine(ran[i].name) && Plain(TrimRight(ran[i].output, '\n'))
    ensures var c, read := CutAt(ran, MAX_LOG), StepsOf(TailLog(Written(ran), error), error.Some?);
      && 0 < c.from <= |ran|
      && |read| == 1 + (if IsMark(c.partial) then 1 else 0) + |ran| - c.from
      && (!IsMark(c.partial) ==>
            var steps := [Step("", TrimRight(Left(error, c.partial), '\n'), false)] + AsSteps(ran[c.from..]);
            read == if error.Some? then MarkLast(steps) else steps)
  {
    hide TrimSpace, Split, TrimRight, Trimmed, Read, Lines, Plain, Written, AsSteps, Flushed, CutAt, Entry, Marks,
         IsMark, Left;
    var c, log := CutAt(ran, MAX_LOG), TailLog(Written(ran), error);
    var rest, text := TrimmedText(ran, error);
    if !IsMark(c.partial) {
      MarksZero(Split(text, '\n'));
      PlainIs(text);
      Behind(text, rest);
      TrimRightStep(text, '\n');
    }
    RestSplit(rest);
    SplitAppend(text, Written(rest), '\n');
    MarksAppend(Split(text, '\n'), Split(Written(rest), '\n'));
    OneStepAhead(Split(log, '\n'));
  }

  /** The trimmed log in two parts: a text with at most one step in it, and a written log. */
  lemma TrimmedText(ran: seq<Ran>, error: Option<string>) returns (rest: seq<Ran>, text: string)
    requires |Written(ran)| > MAX_LOG && (error.Some? ==> Plain(error.value))
    requires forall i :: 0 <= i < |ran| ==> OneLine(ran[i].name) && Plain(TrimRight(ran[i].output, '\n'))
    ensures var c, log := CutAt(ran, MAX_LOG), TailLog(Written(ran), error);
      && 0 < c.from <= |ran| && rest == ran[c.from..] && TrimSpace(log) != ""
      && text + "\n" == Left(error, c.partial) && log == text + "\n" + Written(rest)
      && Marks(Split(text, '\n')) == (if IsMark(c.partial) then 1 else 0) && !IsMark(Split(text, '\n')[0])
  {
    hide TrimSpace, Split, TrimRight, Trimmed, Plain, Written, CutAt, Entry, Marks, IsMark, Left, TailLog, EndOf;
    var c := CutAt(ran, MAX_LOG);
    CutLaw(ran, MAX_LOG);
    rest := ran[c.from..];
    BlankIsPlain();
    if c.partial != "" {
      PartialMarks(ran[c.from - 1], c.partial);
    }
    LeftEnds(error, c.partial);
    LeftMarks(error, c.partial, if c.partial == "" then "" else c.partial[..|c.partial| - 1]);
    var left := Left(error, c.partial);
    text := left[..|left| - 1];
    TrimmedSolid(error, c.partial + Written(rest));
    TailIsLeft(Written(ran), error);
    LeftAppend(error, c.partial, Written(rest));
  }

  lemma LeftAppend(error: Option<string>, a: string, b: string)
    ensures Left(error, a + b) == Left(error, a) + b
  {
    var head := Left(error, "");
    assert Left(error, a + b) == head + (a + b) == head + a + b;
    assert Left(error, a) == head + a;
  }

  lemma LeftEnds(error: Option<string>, a: string)
    requires a == "" || a[|a| - 1] == '\n'
    ensures var left := Left(error, a); left != "" && left == left[..|left| - 1] + "\n"
  {
  }

  lemma TailIsLeft(out: string, error: Option<string>)
    requires |out| > MAX_LOG
    ensures TailLog(out, error) == Left(error, out[|out| - MAX_LOG..])
  {
    var tail := out[|out| - MAX_LOG..];
    if error.Some? {
      assert error.value + "\n\n" + (TRIMMED + "\n" + tail) == error.value + "\n\n" + TRIMMED + "\n" + tail;
    } else {
      assert "" + TRIMMED == TRIMMED;
    }
  }

  lemma PlainIs(text: string)
    requires forall i :: 0 <= i < |Split(text, '\n')| ==> !IsMark(Split(text, '\n')[i])
    ensures Plain(text)
  {
  }

  lemma TrimmedSolid(error: Option<string>, tail: string)
    ensures TrimSpace(Left(error, tail)) != ""
  {
    hide TrimSpace;
    var log, i := Left(error, tail), if error.Some? then |error.value| + 2 else 0;
    assert log[i] == TRIMMED[0];
    SolidSurvives(log, i);
  }

  lemma RestSplit(rest: seq<Ran>)
    requires forall i :: 0 <= i < |rest| ==> OneLine(rest[i].name) && Plain(TrimRight(rest[i].output, '\n'))
    ensures Marks(Split(Written(rest), '\n')) == |rest|
  {
    hide TrimSpace, Split, TrimRight, Trimmed, Lines, Written, Plain;
    BlankIsPlain();
    MarksOne("");
    if rest == [] {
      NothingRan();
      NoTextOneLine();
    } else {
      WrittenSplit("", rest);
      MarksOfLines(rest);
      MarksAppend(Lines(rest), [""]);
    }
  }
}
