/** The variables xdev manages in a compose stack's `.env` (internal/apps/compose.go,
    ensureComposeEnv): one host port per domain, written under four spellings for the first and
    two for the rest, above whatever else the file holds. */
module ComposeEnv {
  import opened Text
  import opened Wrappers

  // ---- what a line assigns ----

  /** The key an `.env` line assigns, if it assigns one. */
  function KeyOf(line: string): Option<string> {
    var t := TrimSpace(line);
    if '=' in t then Some(TrimSpace(t[..IndexOf(t, '=')])) else None
  }

  function ValueOf(line: string): string {
    var t := TrimSpace(line);
    if '=' in t then t[IndexOf(t, '=') + 1..] else ""
  }

  /** The values `lines` assign to `key`, in order. */
  function Assigned(lines: seq<string>, key: string): seq<string> {
    if lines == [] then []
    else (if KeyOf(lines[0]) == Some(key) then [ValueOf(lines[0])] else []) + Assigned(lines[1..], key)
  }

  function AssignedIn(content: string, key: string): seq<string> {
    Assigned(Split(content, '\n'), key)
  }

  // ---- the managed keys ----

  /** PORT_n, or XDEV_PORT_n; slot 0 stands for the spelling without a number. */
  function Key(alias: bool, slot: nat): string {
    (if alias then "XDEV_PORT" else "PORT") + (if slot == 0 then "" else "_" + Itoa(slot))
  }

  datatype Pair = Pair(key: string, value: string)

  function SlotPairs(ports: seq<nat>, from: nat): seq<Pair> {
    if ports == [] then []
    else [Pair(Key(false, from + 1), Itoa(ports[0])), Pair(Key(true, from + 1), Itoa(ports[0]))]
         + SlotPairs(ports[1..], from + 1)
  }

  function Managed(ports: seq<nat>): seq<Pair> {
    if ports == [] then []
    else [Pair(Key(false, 0), Itoa(ports[0])), Pair(Key(true, 0), Itoa(ports[0]))] + SlotPairs(ports, 0)
  }

  predicate HasKey(pairs: seq<Pair>, key: string) {
    pairs != [] && (pairs[0].key == key || HasKey(pairs[1..], key))
  }

  /** isManagedEnvLine. */
  predicate IsManaged(line: string, pairs: seq<Pair>) {
    KeyOf(line).Some? && HasKey(pairs, KeyOf(line).value)
  }

  function Render(pairs: seq<Pair>): seq<string> {
    if pairs == [] then [] else [pairs[0].key + "=" + pairs[0].value] + Render(pairs[1..])
  }

  function Unmanaged(lines: seq<string>, pairs: seq<Pair>): seq<string> {
    if lines == [] then []
    else
      var init, last := lines[..|lines| - 1], lines[|lines| - 1];
      Unmanaged(init, pairs) + (if IsManaged(last, pairs) then [] else [last])
  }

  // ---- the rewrite ----

  /** The lines a rewrite keeps from a file that held `content`. */
  function Kept(content: string, ports: seq<nat>): seq<string> {
    Unmanaged(Split(TrimRight(content, '\n'), '\n'), Managed(ports))
  }

  function Rewritten(content: string, ports: seq<nat>): string {
    Unlines(Render(Managed(ports)) + Kept(content, ports))
  }

  /** ensureComposeEnv, from what the file held (nothing, when there is none yet) to what it holds.
      `header` is the comment a new file starts with. */
  method EnsureComposeEnv(existing: Option<string>, header: seq<string>, ports: seq<nat>) returns (written: string)
    ensures written == match existing
                       case Some(content) => Rewritten(content, ports)
                       case None => Unlines(Render(Managed(ports)) + header)
  {
    hide Split, TrimRight, Itoa, Key, IsManaged, Unlines, SlotPairs, Managed, Render, Unmanaged;
    Empties();
    var managed: seq<Pair> := [];
    assert ports[..0] == [];
    for i := 0 to |ports|
      invariant managed == Managed(ports[..i])
    {
      var v := Itoa(ports[i]);
      if i == 0 {
        managed := managed + [Pair(Key(false, 0), v), Pair(Key(true, 0), v)];
      }
      managed := managed + [Pair(Key(false, i + 1), v), Pair(Key(true, i + 1), v)];
      assert ports[..i + 1] == ports[..i] + [ports[i]];
      ManagedSnoc(ports[..i], ports[i]);
    }
    assert ports[..|ports|] == ports;

    var kept: seq<string> := [];
    match existing {
      case Some(content) =>
        var lines := Split(TrimRight(content, '\n'), '\n');
        assert lines[..0] == [];
        for i := 0 to |lines|
          invariant kept == Unmanaged(lines[..i], managed)
        {
          UnmanagedSnoc(lines, i, managed);
          if IsManaged(lines[i], managed) {
            continue;
          }
          kept := kept + [lines[i]];
        }
        assert lines[..|lines|] == lines;
      case None =>
        kept := header;
    }

    var b := "";
    assert managed[..0] == [];
    for i := 0 to |managed|
      invariant b == Unlines(Render(managed[..i]))
    {
      b := b + (managed[i].key + "=" + managed[i].value + "\n");
      assert managed[..i + 1] == managed[..i] + [managed[i]];
      RenderSnoc(managed[..i], managed[i]);
      Emit(Render(managed[..i]), managed[i].key + "=" + managed[i].value);
    }
    assert managed[..|managed|] == managed;
    var top := Render(managed);
    assert top + kept[..0] == top;
    for i := 0 to |kept|
      invariant b == Unlines(top + kept[..i])
    {
      b := b + (kept[i] + "\n");
      Emit(top + kept[..i], kept[i]);
      assert top + kept[..i + 1] == top + kept[..i] + [kept[i]];
    }
    assert kept[..|kept|] == kept;
    return b;
  }

  lemma Empties()
    ensures Managed([]) == [] && Render([]) == [] && Unlines([]) == ""
    ensures forall pairs :: Unmanaged([], pairs) == []
  {
  }

  lemma UnmanagedSnoc(lines: seq<string>, i: nat, pairs: seq<Pair>)
    requires i < |lines|
    ensures Unmanaged(lines[..i + 1], pairs)
            == Unmanaged(lines[..i], pairs) + (if IsManaged(lines[i], pairs) then [] else [lines[i]])
  {
    hide IsManaged;
    assert lines[..i + 1][..i] == lines[..i];
  }

  lemma {:induction false} SlotPairsSnoc(ports: seq<nat>, p: nat, from: nat)
    ensures SlotPairs(ports + [p], from)
            == SlotPairs(ports, from)
              + [Pair(Key(false, from + |ports| + 1), Itoa(p)), Pair(Key(true, from + |ports| + 1), Itoa(p))]
  {
    hide Key, Itoa;
    if ports != [] {
      SlotPairsSnoc(ports[1..], p, from + 1);
      assert (ports + [p])[1..] == ports[1..] + [p];
    }
  }

  lemma ManagedSnoc(ports: seq<nat>, p: nat)
    ensures var v := Itoa(p);
      Managed(ports + [p]) == Managed(ports)
        + (if ports == [] then [Pair(Key(false, 0), v), Pair(Key(true, 0), v)] else [])
        + [Pair(Key(false, |ports| + 1), v), Pair(Key(true, |ports| + 1), v)]
  {
    hide Key, Itoa;
    SlotPairsSnoc(ports, p, 0);
    assert (ports + [p])[0] == if ports == [] then p else ports[0];
  }

  lemma {:induction false} RenderSnoc(pairs: seq<Pair>, p: Pair)
    ensures Render(pairs + [p]) == Render(pairs) + [p.key + "=" + p.value]
  {
    if pairs != [] {
      RenderSnoc(pairs[1..], p);
      assert (pairs + [p])[1..] == pairs[1..] + [p];
    }
  }

  // ---- keys are distinct and managed lines read back ----

  lemma KeyInjective(a: bool, m: nat, b: bool, n: nat)
    requires Key(a, m) == Key(b, n)
    ensures a == b && m == n
  {
    var x, y := Key(a, m), Key(b, n);
    assert x[0] == (if a then 'X' else 'P') && y[0] == (if b then 'X' else 'P');
    var base := if a then 9 else 4;
    assert |x| > base <==> m != 0;
    assert |y| > base <==> n != 0;
    if m != 0 {
      assert x[base + 1..] == Itoa(m) && y[base + 1..] == Itoa(n);
      AtoiItoa(m);
      AtoiItoa(n);
    }
  }

  predicate Wordy(s: string) {
    forall i :: 0 <= i < |s| ==> s[i] == '_' || IsDigit(s[i]) || 'A' <= s[i] <= 'Z'
  }

  lemma AssignmentReads(key: string, value: string)
    requires Wordy(key) && key != "" && Wordy(value) && value != ""
    ensures KeyOf(key + "=" + value) == Some(key)
    ensures ValueOf(key + "=" + value) == value
    ensures '\n' !in key + "=" + value && key + "=" + value != ""
  {
    var line := key + "=" + value;
    TrimSpaceLaw(line);
    TrimSpaceLaw(key);
    assert line[|line| - 1] == value[|value| - 1];
    assert Trimmed(line) && Trimmed(key);
    assert '=' !in key;
    IndexOfAt(key, value, '=');
    assert line[|key|] == '=';
    assert line[..|key|] == key;
    assert line[|key| + 1..] == value;
  }

  /** Every pair is a managed key with a port number. */
  ghost predicate WellFormed(pairs: seq<Pair>) {
    forall i :: 0 <= i < |pairs|
      ==> Wordy(pairs[i].key) && pairs[i].key != "" && Wordy(pairs[i].value) && pairs[i].value != ""
  }

  lemma {:induction false} SlotPairsWellFormed(ports: seq<nat>, from: nat)
    ensures WellFormed(SlotPairs(ports, from))
  {
    if ports != [] {
      SlotPairsWellFormed(ports[1..], from + 1);
      var v := Itoa(ports[0]);
      assert Wordy(v);
    }
  }

  lemma ManagedWellFormed(ports: seq<nat>)
    ensures WellFormed(Managed(ports))
  {
    SlotPairsWellFormed(ports, 0);
    if ports != [] {
      var v := Itoa(ports[0]);
      assert Wordy(v);
    }
  }

  lemma {:induction false} RenderReads(pairs: seq<Pair>)
    requires WellFormed(pairs)
    ensures |Render(pairs)| == |pairs|
    ensures Pieces(Render(pairs), '\n')
    ensures forall i :: 0 <= i < |pairs| ==> Render(pairs)[i] != ""
    ensures forall i :: 0 <= i < |pairs|
             ==> KeyOf(Render(pairs)[i]) == Some(pairs[i].key) && ValueOf(Render(pairs)[i]) == pairs[i].value
  {
    hide KeyOf, ValueOf, Wordy;
    if pairs != [] {
      RenderReads(pairs[1..]);
      AssignmentReads(pairs[0].key, pairs[0].value);
    }
  }

  /** The first two of a list of assignments, and the rest. */
  lemma TwoRendered(pairs: seq<Pair>)
    requires |pairs| >= 2
    ensures |Render(pairs)| >= 2 && Render(pairs)[2..] == Render(pairs[2..])
    ensures forall key :: HasKey(pairs, key) <==> pairs[0].key == key || pairs[1].key == key || HasKey(pairs[2..], key)
  {
    var rest := pairs[1..];
    assert rest[1..] == pairs[2..] && rest[0] == pairs[1];
    assert Render(rest) == [rest[0].key + "=" + rest[0].value] + Render(rest[1..]);
    assert Render(pairs)[1..] == Render(rest);
    assert Render(rest)[1..] == Render(pairs)[2..];
  }

  lemma TwoAssigned(lines: seq<string>, key: string)
    requires |lines| >= 2
    ensures Assigned(lines, key)
            == (if KeyOf(lines[0]) == Some(key) then [ValueOf(lines[0])] else [])
               + ((if KeyOf(lines[1]) == Some(key) then [ValueOf(lines[1])] else []) + Assigned(lines[2..], key))
  {
    hide KeyOf, ValueOf;
    assert lines[1..][1..] == lines[2..];
  }

  lemma {:induction false} SlotAssigned(ports: seq<nat>, from: nat, alias: bool, n: nat)
    ensures Assigned(Render(SlotPairs(ports, from)), Key(alias, n))
            == if from < n <= from + |ports| then [Itoa(ports[n - 1 - from])] else []
    ensures HasKey(SlotPairs(ports, from), Key(alias, n)) <==> from < n <= from + |ports|
  {
    hide KeyOf, ValueOf, Wordy, Key, Itoa;
    if ports != [] {
      SlotAssigned(ports[1..], from + 1, alias, n);
      var pairs := SlotPairs(ports, from);
      SlotPairsWellFormed(ports, from);
      RenderReads(pairs);
      var lines := Render(pairs);
      assert pairs[2..] == SlotPairs(ports[1..], from + 1);
      TwoRendered(pairs);
      TwoAssigned(lines, Key(alias, n));
      if Key(false, from + 1) == Key(alias, n) {
        KeyInjective(false, from + 1, alias, n);
      }
      if Key(true, from + 1) == Key(alias, n) {
        KeyInjective(true, from + 1, alias, n);
      }
      assert Assigned(lines, Key(alias, n))
          == (if Key(false, from + 1) == Key(alias, n) then [Itoa(ports[0])] else [])
             + ((if Key(true, from + 1) == Key(alias, n) then [Itoa(ports[0])] else [])
                + Assigned(Render(SlotPairs(ports[1..], from + 1)), Key(alias, n)));
    }
  }

  /** The rendered pairs assign each managed key once, and no other slot's key. */
  lemma ManagedAssigned(ports: seq<nat>, alias: bool, n: nat)
    requires ports != []
    ensures Assigned(Render(Managed(ports)), Key(alias, n))
            == if n == 0 then [Itoa(ports[0])] else if n <= |ports| then [Itoa(ports[n - 1])] else []
    ensures HasKey(Managed(ports), Key(alias, n)) <==> n <= |ports|
  {
    hide KeyOf, ValueOf, Wordy, Key, Itoa, Assigned, Render, HasKey;
    SlotAssigned(ports, 0, alias, n);
    var pairs := Managed(ports);
    ManagedWellFormed(ports);
    RenderReads(pairs);
    var lines := Render(pairs);
    TwoRendered(pairs);
    TwoAssigned(lines, Key(alias, n));
    assert pairs[2..] == SlotPairs(ports, 0);
    if Key(false, 0) == Key(alias, n) {
      KeyInjective(false, 0, alias, n);
    }
    if Key(true, 0) == Key(alias, n) {
      KeyInjective(true, 0, alias, n);
    }
    assert Assigned(lines, Key(alias, n))
        == (if Key(false, 0) == Key(alias, n) then [Itoa(ports[0])] else [])
           + ((if Key(true, 0) == Key(alias, n) then [Itoa(ports[0])] else [])
              + Assigned(Render(SlotPairs(ports, 0)), Key(alias, n)));
  }

  // ---- what a rewrite leaves in the file ----

  lemma {:induction false} AssignedAppend(a: seq<string>, b: seq<string>, key: string)
    ensures Assigned(a + b, key) == Assigned(a, key) + Assigned(b, key)
  {
    hide KeyOf, ValueOf;
    if a == [] {
      assert a + b == b;
    } else {
      AssignedAppend(a[1..], b, key);
      assert (a + b)[1..] == a[1..] + b && (a + b)[0] == a[0];
      var own := if KeyOf(a[0]) == Some(key) then [ValueOf(a[0])] else [];
      assert Assigned(a, key) == own + Assigned(a[1..], key);
      assert Assigned(a + b, key) == own + Assigned((a + b)[1..], key);
      Regroup(own, Assigned(a[1..], key), Assigned(b, key));
    }
  }

  lemma BlankAssignsNothing()
    ensures KeyOf("") == None
  {
  }

  /** Dropping managed lines loses the assignments of managed keys and nothing else. */
  lemma {:induction false} UnmanagedAssigned(lines: seq<string>, pairs: seq<Pair>, key: string)
    ensures Assigned(Unmanaged(lines, pairs), key) == if HasKey(pairs, key) then [] else Assigned(lines, key)
  {
    hide KeyOf, ValueOf, HasKey, Assigned, IsManaged;
    if lines == [] {
      assert Unmanaged(lines, pairs) == lines;
      NothingAssigned(key);
    } else {
      var init, last := lines[..|lines| - 1], lines[|lines| - 1];
      UnmanagedAssigned(init, pairs, key);
      assert lines == init + [last];
      AssignedSnoc(init, last, key);
      ManagedMeaning(last, pairs);
      if IsManaged(last, pairs) {
        AppendNothing(Unmanaged(init, pairs));
      } else {
        AssignedSnoc(Unmanaged(init, pairs), last, key);
      }
    }
  }

  lemma ManagedMeaning(line: string, pairs: seq<Pair>)
    ensures IsManaged(line, pairs) <==> KeyOf(line).Some? && HasKey(pairs, KeyOf(line).value)
  {
  }

  lemma NothingAssigned(key: string)
    ensures Assigned([], key) == []
  {
  }

  lemma AssignedSnoc(lines: seq<string>, line: string, key: string)
    ensures Assigned(lines + [line], key)
            == if KeyOf(line) == Some(key) then Assigned(lines, key) + [ValueOf(line)] else Assigned(lines, key)
  {
    hide KeyOf, ValueOf;
    AssignedAppend(lines, [line], key);
    assert Assigned([line], key) == (if KeyOf(line) == Some(key) then [ValueOf(line)] else []) + Assigned([], key);
    AppendNothing(Assigned(lines, key));
  }

  lemma AppendNothing<T>(s: seq<T>)
    ensures s + [] == s
  {
  }

  lemma {:induction false} UnmanagedPieces(lines: seq<string>, pairs: seq<Pair>)
    requires Pieces(lines, '\n')
    ensures Pieces(Unmanaged(lines, pairs), '\n')
  {
    hide IsManaged;
    if lines != [] {
      UnmanagedPieces(lines[..|lines| - 1], pairs);
    }
  }

  lemma {:induction false} DropBlankAssigned(lines: seq<string>, key: string)
    ensures Assigned(DropBlank(lines), key) == Assigned(lines, key)
  {
    hide KeyOf, ValueOf;
    if |lines| > 0 && lines[|lines| - 1] == "" {
      var init := lines[..|lines| - 1];
      DropBlankAssigned(init, key);
      AssignedAppend(init, [""], key);
      assert lines == init + [""];
      BlankAssignsNothing();
      assert Assigned([""], key) == [];
    }
  }

  lemma TrimRightAssigned(content: string, key: string)
    ensures AssignedIn(TrimRight(content, '\n'), key) == AssignedIn(content, key)
  {
    hide KeyOf, ValueOf, Split, TrimRight, DropBlank, Assigned, Join;
    var lines := Split(content, '\n');
    JoinSplit(content, '\n');
    TrimRightJoin(lines);
    var d := DropBlank(lines);
    DropBlankLaw(lines);
    DropBlankAssigned(lines, key);
    if d == [] {
      NoLines(key);
    } else {
      SplitJoin(d, '\n');
    }
  }

  lemma NoLines(key: string)
    ensures Join([], '\n') == "" && AssignedIn("", key) == Assigned([], key)
  {
    BlankAssignsNothing();
    assert Assigned([""], key) == Assigned([], key);
  }

  lemma KeptPieces(content: string, ports: seq<nat>)
    ensures Pieces(Kept(content, ports), '\n')
  {
    JoinSplit(TrimRight(content, '\n'), '\n');
    hide Unmanaged, Split, TrimRight, Managed;
    UnmanagedPieces(Split(TrimRight(content, '\n'), '\n'), Managed(ports));
  }

  /** A rewritten file is the managed assignments followed by every line that was not one, in
      order, with the newlines at the very end of the old file trimmed. */
  lemma RewrittenLines(content: string, ports: seq<nat>)
    ensures Split(Rewritten(content, ports), '\n') == Render(Managed(ports)) + Kept(content, ports) + [""]
  {
    hide Split, Unlines, Render, Managed, Kept;
    KeptPieces(content, ports);
    ManagedWellFormed(ports);
    RenderReads(Managed(ports));
    SplitUnlines(Render(Managed(ports)) + Kept(content, ports));
  }

  /** Each current slot is assigned exactly once, to its port; any other slot's assignments are
      left as they were. */
  lemma RewrittenAssigns(content: string, ports: seq<nat>, alias: bool, n: nat)
    requires ports != []
    ensures AssignedIn(Rewritten(content, ports), Key(alias, n))
            == if n == 0 then [Itoa(ports[0])] else if n <= |ports| then [Itoa(ports[n - 1])]
               else AssignedIn(content, Key(alias, n))
  {
    hide KeyOf, ValueOf, Split, TrimRight, Render, Managed, Rewritten, Key, Itoa, Assigned, Unmanaged;
    var key := Key(alias, n);
    RewrittenLines(content, ports);
    var top, kept := Render(Managed(ports)), Kept(content, ports);
    AssignedAppend(top + kept, [""], key);
    AssignedAppend(top, kept, key);
    OneBlank(key);
    ManagedAssigned(ports, alias, n);
    UnmanagedAssigned(Split(TrimRight(content, '\n'), '\n'), Managed(ports), key);
    TrimRightAssigned(content, key);
  }

  lemma OneBlank(key: string)
    ensures Assigned([""], key) == []
  {
    BlankAssignsNothing();
  }

  // ---- how often it takes to settle ----

  lemma {:induction false} UnmanagedTwice(lines: seq<string>, pairs: seq<Pair>)
    ensures forall i :: 0 <= i < |Unmanaged(lines, pairs)| ==> !IsManaged(Unmanaged(lines, pairs)[i], pairs)
  {
    hide IsManaged;
    if lines != [] {
      UnmanagedTwice(lines[..|lines| - 1], pairs);
    }
  }

  lemma {:induction false} UnmanagedKeeps(a: seq<string>, b: seq<string>, pairs: seq<Pair>)
    requires forall i :: 0 <= i < |a| ==> IsManaged(a[i], pairs)
    requires forall i :: 0 <= i < |b| ==> !IsManaged(b[i], pairs)
    ensures Unmanaged(a + b, pairs) == b
    decreases |a| + |b|
  {
    hide IsManaged;
    if b != [] {
      var init := b[..|b| - 1];
      UnmanagedKeeps(a, init, pairs);
      assert (a + b)[..|a + b| - 1] == a + init;
      assert b == init + [b[|b| - 1]];
    } else if a != [] {
      assert a + b == a;
      var init := a[..|a| - 1];
      UnmanagedKeeps(init, [], pairs);
      assert init + [] == init;
    }
  }

  lemma {:induction false} DropBlankAppend(a: seq<string>, b: seq<string>)
    requires a != [] && a[|a| - 1] != ""
    ensures DropBlank(a + b) == a + DropBlank(b)
  {
    if b == [] {
      assert a + b == a;
    } else if b[|b| - 1] == "" {
      DropBlankAppend(a, b[..|b| - 1]);
      assert (a + b)[..|a + b| - 1] == a + b[..|b| - 1];
    }
  }

  lemma {:induction false} HasKeyAt(pairs: seq<Pair>, i: nat)
    requires i < |pairs|
    ensures HasKey(pairs, pairs[i].key)
  {
    if i > 0 {
      HasKeyAt(pairs[1..], i - 1);
    }
  }

  lemma RenderedIsManaged(ports: seq<nat>)
    ensures var pairs := Managed(ports);
      |Render(pairs)| == |pairs| && forall i :: 0 <= i < |pairs|
                                     ==> IsManaged(Render(pairs)[i], pairs) && Render(pairs)[i] != ""
  {
    hide KeyOf, ValueOf, Wordy, Managed, Render, HasKey;
    var pairs := Managed(ports);
    ManagedWellFormed(ports);
    RenderReads(pairs);
    forall i | 0 <= i < |pairs| ensures IsManaged(Render(pairs)[i], pairs) {
      HasKeyAt(pairs, i);
    }
  }

  /** A second rewrite with the same ports keeps the same lines, blank ones at the end apart. */
  lemma KeptAgain(content: string, ports: seq<nat>)
    requires ports != []
    ensures Kept(Rewritten(content, ports), ports) == DropBlank(Kept(content, ports))
  {
    hide Split, TrimRight, Unlines, Render, IsManaged, Join, SlotPairs, Itoa, Key, Unmanaged;
    var pairs, kept := Managed(ports), Kept(content, ports);
    var top := Render(pairs);
    KeptPieces(content, ports);
    RenderedIsManaged(ports);
    ManagedWellFormed(ports);
    RenderReads(pairs);
    TrimRightUnlines(top + kept);
    DropBlankAppend(top, kept);
    DropBlankLaw(kept);
    var again := top + DropBlank(kept);
    SplitJoin(again, '\n');
    UnmanagedTwice(Split(TrimRight(content, '\n'), '\n'), pairs);
    UnmanagedKeeps(top, DropBlank(kept), pairs);
  }

  /** Two rewrites always settle the file. */
  lemma SettlesAfterTwo(content: string, ports: seq<nat>)
    requires ports != []
    ensures var twice := Rewritten(Rewritten(content, ports), ports);
      Rewritten(twice, ports) == twice
  {
    hide Kept, Unlines, Render, Managed;
    var once := Rewritten(content, ports);
    KeptAgain(content, ports);
    KeptAgain(once, ports);
    DropBlankLaw(Kept(content, ports));
    assert DropBlank(DropBlank(Kept(content, ports))) == DropBlank(Kept(content, ports));
  }

  /** One is enough exactly when the last line kept is not blank. */
  lemma SettlesAfterOne(content: string, ports: seq<nat>)
    requires ports != []
    ensures var once, kept := Rewritten(content, ports), Kept(content, ports);
      Rewritten(once, ports) == once <==> kept == [] || kept[|kept| - 1] != ""
  {
    hide Kept, Unlines, Render, Managed, Split;
    var once, kept := Rewritten(content, ports), Kept(content, ports);
    KeptAgain(content, ports);
    RewrittenLines(content, ports);
    RewrittenLines(once, ports);
    DropBlankLaw(kept);
    var top := Render(Managed(ports));
    if Rewritten(once, ports) == once {
      assert |top + DropBlank(kept) + [""]| == |top + kept + [""]|;
    }
  }

  // ---- agreement with the slots ----

  /** A line that assigns nothing, as every line of the comment a new file starts with. */
  predicate Plain(line: string) {
    '=' !in line && '\n' !in line
  }

  lemma {:induction false} PlainAssignsNothing(lines: seq<string>, key: string)
    requires forall i :: 0 <= i < |lines| ==> Plain(lines[i])
    ensures Assigned(lines, key) == []
  {
    if lines != [] {
      PlainAssignsNothing(lines[1..], key);
      PlainHasNoKey(lines[0]);
    }
  }

  lemma PlainHasNoKey(line: string)
    requires Plain(line)
    ensures KeyOf(line) == None
  {
    TrimSpaceLaw(line);
  }

  /** The port a slot of `ports` stands for; slot 0 is the first again. */
  function PortAt(ports: seq<nat>, n: nat): nat
    requires n <= |ports| && ports != []
  {
    if n == 0 then ports[0] else ports[n - 1]
  }

  /** Every spelling of every slot is assigned once, to the slot's port. */
  ghost predicate Agrees(content: string, ports: seq<nat>)
    requires ports != []
  {
    forall alias: bool, n: nat :: n <= |ports| ==> AssignedIn(content, Key(alias, n)) == [Itoa(PortAt(ports, n))]
  }

  /** The same for the slots after the first. */
  ghost predicate RestAgrees(content: string, ports: seq<nat>)
    requires ports != []
  {
    forall alias: bool, n: nat :: 2 <= n <= |ports| ==> AssignedIn(content, Key(alias, n)) == [Itoa(PortAt(ports, n))]
  }

  lemma RewrittenAgrees(content: string, ports: seq<nat>)
    requires ports != []
    ensures Agrees(Rewritten(content, ports), ports)
  {
    hide Rewritten, AssignedIn, Key, Itoa;
    forall alias: bool, n: nat | n <= |ports|
      ensures AssignedIn(Rewritten(content, ports), Key(alias, n)) == [Itoa(PortAt(ports, n))]
    {
      RewrittenAssigns(content, ports, alias, n);
    }
  }

  /** A rewrite of the first slot alone leaves the others to what the file said. */
  lemma FirstRewritten(content: string, ports: seq<nat>)
    requires ports != []
    ensures Agrees(Rewritten(content, ports[..1]), ports) <==> RestAgrees(content, ports)
  {
    hide Rewritten, AssignedIn, Key, Itoa;
    var r := Rewritten(content, ports[..1]);
    forall alias: bool, n: nat | n <= |ports|
      ensures AssignedIn(r, Key(alias, n))
              == if n <= 1 then [Itoa(PortAt(ports, n))] else AssignedIn(content, Key(alias, n))
    {
      RewrittenAssigns(content, ports[..1], alias, n);
    }
  }

  /** A file that does not mention the slots after the first disagrees with any. */
  lemma EmptyFileDisagrees(ports: seq<nat>)
    requires |ports| >= 2
    ensures !RestAgrees("", ports)
  {
    hide Key, Itoa;
    NoLines(Key(false, 2));
    BlankAssignsNothing();
    assert Split("", '\n') == [""];
    OneBlank(Key(false, 2));
    assert AssignedIn("", Key(false, 2)) == [];
  }

  /** A new file agrees. */
  lemma FreshAgrees(ports: seq<nat>, header: seq<string>)
    requires ports != [] && forall i :: 0 <= i < |header| ==> Plain(header[i])
    ensures Agrees(Unlines(Render(Managed(ports)) + header), ports)
  {
    hide KeyOf, ValueOf, Split, Render, Managed, Unlines, Key, Itoa, Assigned;
    var top := Render(Managed(ports));
    ManagedWellFormed(ports);
    RenderReads(Managed(ports));
    SplitUnlines(top + header);
    forall alias: bool, n: nat | n <= |ports|
      ensures AssignedIn(Unlines(top + header), Key(alias, n)) == [Itoa(PortAt(ports, n))]
    {
      var key := Key(alias, n);
      AssignedAppend(top + header, [""], key);
      AssignedAppend(top, header, key);
      OneBlank(key);
      PlainAssignsNothing(header, key);
      ManagedAssigned(ports, alias, n);
    }
  }
}
