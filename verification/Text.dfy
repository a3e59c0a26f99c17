/** The few operations of Go's `strings` and `strconv` packages that the modelled code is built
    from, on sequences of code points, with the laws the other modules rely on: prefixes and
    trimming (what is trimmed is space, and trimming twice trims no more), lower case, splitting
    and joining (each undoes the other, given that no part holds the separator), whole lines, and
    decimal numbers (printing one and reading it back gives that number). */
module Text {

  /** `unicode.IsSpace`: what TrimSpace trims and Fields splits at. */
  predicate IsSpace(c: char) {
    || c == ' ' || ('\t' <= c <= '\r') || c == '\U{85}' || c == '\U{A0}' || c == '\U{1680}'
    || ('\U{2000}' <= c <= '\U{200A}') || c == '\U{2028}' || c == '\U{2029}'
    || c == '\U{202F}' || c == '\U{205F}' || c == '\U{3000}'
  }

  // ---- prefixes and trimming ----

  predicate HasPrefix(s: string, p: string) {
    p <= s
  }

  predicate HasSuffix(s: string, p: string) {
    |p| <= |s| && s[|s| - |p|..] == p
  }

  function TrimLeftSpace(s: string): string {
    if s != "" && IsSpace(s[0]) then TrimLeftSpace(s[1..]) else s
  }

  function TrimRightSpace(s: string): string {
    if s != "" && IsSpace(s[|s| - 1]) then TrimRightSpace(s[..|s| - 1]) else s
  }

  function TrimSpace(s: string): string {
    TrimRightSpace(TrimLeftSpace(s))
  }

  function TrimLeft(s: string, c: char): string {
    if s != "" && s[0] == c then TrimLeft(s[1..], c) else s
  }

  function TrimRight(s: string, c: char): string {
    if s != "" && s[|s| - 1] == c then TrimRight(s[..|s| - 1], c) else s
  }

  /** No character of `s` is white space. */
  predicate NoSpace(s: string) {
    forall i :: 0 <= i < |s| ==> !IsSpace(s[i])
  }

  /** Neither end of `s` is white space. */
  predicate Trimmed(s: string) {
    s == "" || (!IsSpace(s[0]) && !IsSpace(s[|s| - 1]))
  }

  lemma {:induction false} TrimRightSpaceLaw(s: string)
    ensures TrimRightSpace(s) <= s
    ensures TrimRightSpace(s) == "" || !IsSpace(TrimRightSpace(s)[|TrimRightSpace(s)| - 1])
    decreases |s|
  {
    if s != "" && IsSpace(s[|s| - 1]) {
      TrimRightSpaceLaw(s[..|s| - 1]);
    }
  }

  lemma {:induction false} TrimLeftSpaceLaw(s: string)
    ensures HasSuffix(s, TrimLeftSpace(s))
    ensures TrimLeftSpace(s) == "" || !IsSpace(TrimLeftSpace(s)[0])
    decreases |s|
  {
    if s != "" && IsSpace(s[0]) {
      TrimLeftSpaceLaw(s[1..]);
    }
  }

  /** TrimSpace leaves nothing to trim, and leaves alone what has nothing to trim. */
  lemma TrimSpaceLaw(s: string)
    ensures Trimmed(TrimSpace(s))
    ensures Trimmed(s) <==> TrimSpace(s) == s
    ensures TrimSpace(TrimSpace(s)) == TrimSpace(s)
    ensures forall c :: c in TrimSpace(s) ==> c in s
  {
    var l := TrimLeftSpace(s);
    TrimLeftSpaceLaw(s);
    TrimRightSpaceLaw(l);
    var r := TrimRightSpace(l);
    if r != "" {
      assert r[0] == l[0];
    }
    assert TrimLeftSpace(r) == r;
    assert TrimRightSpace(r) == r;
    forall c | c in r ensures c in s {
      var i :| 0 <= i < |r| && r[i] == c;
      assert l[i] == c;
      assert s[|s| - |l|..][i] == c;
    }
  }

  lemma {:induction false} TrimRightSpaceKeeps(s: string, i: nat)
    requires i < |s| && !IsSpace(s[i])
    ensures |TrimRightSpace(s)| > i
    decreases |s|
  {
    if IsSpace(s[|s| - 1]) {
      TrimRightSpaceKeeps(s[..|s| - 1], i);
    }
  }

  lemma {:induction false} TrimLeftSpaceKeeps(s: string, i: nat)
    requires i < |s| && !IsSpace(s[i])
    ensures |TrimLeftSpace(s)| >= |s| - i
    decreases |s|
  {
    if IsSpace(s[0]) {
      TrimLeftSpaceKeeps(s[1..], i - 1);
    }
  }

  /** A solid character survives trimming. */
  lemma SolidSurvives(s: string, i: nat)
    requires i < |s| && !IsSpace(s[i])
    ensures TrimSpace(s) != ""
    ensures i == 0 ==> TrimSpace(s)[0] == s[0]
  {
    var l := TrimLeftSpace(s);
    TrimLeftSpaceLaw(s);
    TrimLeftSpaceKeeps(s, i);
    var j := i - (|s| - |l|);
    assert l[j] == s[|s| - |l|..][j] == s[i];
    TrimRightSpaceKeeps(l, j);
    TrimRightSpaceLaw(l);
  }

  // ---- lines of a compose file ----

  /** How many spaces a line starts with. */
  function Indent(s: string): nat {
    if s != "" && s[0] == ' ' then 1 + Indent(s[1..]) else 0
  }

  predicate BlankOrComment(s: string) {
    TrimSpace(s) == "" || TrimSpace(s)[0] == '#'
  }

  // ---- case ----

  /** `unicode.ToLower`, as far as it can reach a letter of the ASCII range: the Kelvin sign and
      the dotted capital I are the only characters beyond ASCII that do. */
  function LowerChar(c: char): char {
    if 'A' <= c <= 'Z' then (c as int + 32) as char
    else if c == '\U{212A}' then 'k'
    else if c == '\U{130}' then 'i'
    else c
  }

  function Lower(s: string): string {
    if s == "" then "" else [LowerChar(s[0])] + Lower(s[1..])
  }

  lemma {:induction false} LowerLaw(s: string)
    ensures |Lower(s)| == |s|
    ensures forall i :: 0 <= i < |s| ==> Lower(s)[i] == LowerChar(s[i])
    ensures Lower(Lower(s)) == Lower(s)
  {
    if s != "" {
      LowerLaw(s[1..]);
      assert Lower(s)[1..] == Lower(s[1..]);
    }
  }

  // ---- splitting and joining ----

  function IndexOf(s: string, c: char): (i: nat)
    requires c in s
    ensures i < |s| && s[i] == c && c !in s[..i]
  {
    if s[0] == c then 0 else 1 + IndexOf(s[1..], c)
  }

  /** `strings.Split` at a one-character separator. */
  function Split(s: string, c: char): (r: seq<string>)
    ensures |r| > 0
    decreases |s|
  {
    if c in s then [s[..IndexOf(s, c)]] + Split(s[IndexOf(s, c) + 1..], c) else [s]
  }

  /** `strings.Join` with a one-character separator. */
  function Join(parts: seq<string>, c: char): string {
    if |parts| == 0 then ""
    else if |parts| == 1 then parts[0]
    else parts[0] + [c] + Join(parts[1..], c)
  }

  /** No part holds the separator, as in everything Split returns. */
  ghost predicate Pieces(parts: seq<string>, c: char) {
    forall i :: 0 <= i < |parts| ==> c !in parts[i]
  }

  lemma IndexOfAt(a: string, b: string, c: char)
    requires c !in a
    ensures IndexOf(a + [c] + b, c) == |a|
  {
    var s := a + [c] + b;
    assert s[|a|] == c;
    var i := IndexOf(s, c);
    assert forall k :: 0 <= k < |a| ==> s[k] == a[k] && a[k] in a;
    assert forall k :: 0 <= k < i ==> s[k] in s[..i];
  }

  lemma SplitCons(a: string, b: string, c: char)
    requires c !in a
    ensures Split(a + [c] + b, c) == [a] + Split(b, c)
  {
    var s := a + [c] + b;
    IndexOfAt(a, b, c);
    assert s[|a|] == c;
    assert s[..|a|] == a;
    assert s[|a| + 1..] == b;
  }

  lemma {:induction false} JoinSplit(s: string, c: char)
    ensures Join(Split(s, c), c) == s
    ensures Pieces(Split(s, c), c)
    decreases |s|
  {
    if c in s {
      var i := IndexOf(s, c);
      JoinSplit(s[i + 1..], c);
      var r := Split(s, c);
      assert r[0] == s[..i];
      assert r[1..] == Split(s[i + 1..], c);
      assert s == s[..i] + [c] + s[i + 1..];
    }
  }

  lemma {:induction false} SplitJoin(parts: seq<string>, c: char)
    requires |parts| > 0 && Pieces(parts, c)
    ensures Split(Join(parts, c), c) == parts
  {
    if |parts| == 1 {
      assert parts == [parts[0]];
    } else {
      SplitJoin(parts[1..], c);
      SplitCons(parts[0], Join(parts[1..], c), c);
      assert parts == [parts[0]] + parts[1..];
    }
  }

  lemma {:induction false} JoinAppend(a: seq<string>, b: seq<string>, c: char)
    requires |a| > 0 && |b| > 0
    ensures Join(a + b, c) == Join(a, c) + [c] + Join(b, c)
  {
    if |a| == 1 {
      assert (a + b)[1..] == b;
    } else {
      assert (a + b)[1..] == a[1..] + b;
      JoinAppend(a[1..], b, c);
    }
  }

  lemma SplitAppend(a: string, b: string, c: char)
    ensures Split(a + [c] + b, c) == Split(a, c) + Split(b, c)
  {
    JoinSplit(a, c);
    JoinSplit(b, c);
    JoinAppend(Split(a, c), Split(b, c), c);
    SplitJoin(Split(a, c) + Split(b, c), c);
  }

  // ---- whole lines ----

  /** Every line ended by a newline, the way a line writer emits them. */
  function Unlines(lines: seq<string>): string {
    if lines == [] then "" else lines[0] + "\n" + Unlines(lines[1..])
  }

  /** `lines` without the empty ones at its end. */
  function DropBlank(lines: seq<string>): seq<string> {
    if |lines| > 0 && lines[|lines| - 1] == "" then DropBlank(lines[..|lines| - 1]) else lines
  }

  lemma {:induction false} UnlinesJoin(lines: seq<string>)
    ensures Unlines(lines) == Join(lines + [""], '\n')
  {
    if lines != [] {
      UnlinesJoin(lines[1..]);
      assert (lines + [""])[1..] == lines[1..] + [""];
    }
  }

  lemma SplitUnlines(lines: seq<string>)
    requires Pieces(lines, '\n')
    ensures Split(Unlines(lines), '\n') == lines + [""]
  {
    UnlinesJoin(lines);
    SplitJoin(lines + [""], '\n');
  }

  lemma {:induction false} UnlinesAppend(a: seq<string>, b: seq<string>)
    ensures Unlines(a + b) == Unlines(a) + Unlines(b)
  {
    if a == [] {
      assert a + b == b;
    } else {
      UnlinesAppend(a[1..], b);
      assert (a + b)[1..] == a[1..] + b;
    }
  }

  /** One more line written. */
  lemma Emit(done: seq<string>, line: string)
    ensures Unlines(done + [line]) == Unlines(done) + (line + "\n")
  {
    UnlinesAppend(done, [line]);
    assert Unlines([line]) == line + "\n" + Unlines([]);
  }

  lemma Regroup<T>(a: seq<T>, b: seq<T>, c: seq<T>)
    ensures a + (b + c) == a + b + c
  {
  }

  lemma {:induction false} DropBlankLaw(lines: seq<string>)
    ensures DropBlank(lines) <= lines
    ensures |DropBlank(lines)| == 0 || DropBlank(lines)[|DropBlank(lines)| - 1] != ""
    ensures forall i :: |DropBlank(lines)| <= i < |lines| ==> lines[i] == ""
  {
    if |lines| > 0 && lines[|lines| - 1] == "" {
      DropBlankLaw(lines[..|lines| - 1]);
    }
  }

  lemma TrimRightStep(s: string, c: char)
    ensures TrimRight(s + [c], c) == TrimRight(s, c)
  {
    assert (s + [c])[..|s|] == s;
  }

  /** Trimming newlines off joined lines drops exactly the empty lines at the end. */
  lemma {:induction false} TrimRightJoin(lines: seq<string>)
    requires Pieces(lines, '\n')
    ensures TrimRight(Join(lines, '\n'), '\n') == Join(DropBlank(lines), '\n')
  {
    if |lines| > 0 {
      var init, last := lines[..|lines| - 1], lines[|lines| - 1];
      assert lines == init + [last];
      if last == "" {
        TrimRightJoin(init);
        if |init| > 0 {
          JoinAppend(init, [last], '\n');
          assert Join([last], '\n') == last;
          TrimRightStep(Join(init, '\n'), '\n');
          assert Join(lines, '\n') == Join(init, '\n') + "\n";
        }
      } else {
        if |init| > 0 {
          JoinAppend(init, [last], '\n');
        }
        var s := Join(lines, '\n');
        assert s[|s| - 1] == last[|last| - 1];
      }
    }
  }

  lemma TrimRightUnlines(lines: seq<string>)
    requires Pieces(lines, '\n')
    ensures TrimRight(Unlines(lines), '\n') == Join(DropBlank(lines), '\n')
  {
    UnlinesJoin(lines);
    TrimRightJoin(lines + [""]);
    assert (lines + [""])[..|lines|] == lines;
  }

  lemma {:induction false} TrimRightLaw(s: string, c: char)
    ensures TrimRight(s, c) <= s
    ensures TrimRight(s, c) == "" || TrimRight(s, c)[|TrimRight(s, c)| - 1] != c
    ensures s == "" || s[|s| - 1] != c ==> TrimRight(s, c) == s
    decreases |s|
  {
    if s != "" && s[|s| - 1] == c {
      TrimRightLaw(s[..|s| - 1], c);
    }
  }

  // ---- numbers ----

  predicate IsDigit(c: char) {
    '0' <= c <= '9'
  }

  function DigitChar(d: nat): (c: char)
    requires d < 10
    ensures IsDigit(c)
  {
    ['0', '1', '2', '3', '4', '5', '6', '7', '8', '9'][d]
  }

  function DigitValue(c: char): nat
    requires IsDigit(c)
  {
    (c - '0') as nat
  }

  /** `strconv.Itoa` on a natural number. */
  function Itoa(n: nat): (s: string)
    ensures |s| > 0
    ensures forall i :: 0 <= i < |s| ==> IsDigit(s[i])
  {
    if n < 10 then [DigitChar(n)] else Itoa(n / 10) + [DigitChar(n % 10)]
  }

  /** `strconv.Atoi` on a string of digits. */
  function Atoi(s: string): nat
    requires forall i :: 0 <= i < |s| ==> IsDigit(s[i])
  {
    if s == "" then 0 else 10 * Atoi(s[..|s| - 1]) + DigitValue(s[|s| - 1])
  }

  lemma {:induction false} AtoiItoa(n: nat)
    ensures Atoi(Itoa(n)) == n
  {
    if n >= 10 {
      AtoiItoa(n / 10);
      var s := Itoa(n);
      assert s[..|s| - 1] == Itoa(n / 10);
    } else {
      var s := Itoa(n);
      assert s[..|s| - 1] == "";
    }
  }
}
