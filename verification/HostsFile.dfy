/** The managed block xdev keeps in the hosts file (internal/domains/hosts.go): syncing replaces it
    and keeps every other line, the last sync alone decides what is in it, and the reader finds
    exactly the names that some line maps. */
module HostsFile {
  import opened Text

  const BLOCK_START := "# >>> xdev (managed) >>>"
  const BLOCK_END := "# <<< xdev (managed) <<<"

  predicate IsStart(line: string) {
    TrimSpace(line) == BLOCK_START
  }

  predicate IsEnd(line: string) {
    TrimSpace(line) == BLOCK_END
  }

  predicate Marker(line: string) {
    IsStart(line) || IsEnd(line)
  }

  /** Whether the stripper is inside a block after `lines`. */
  predicate InBlock(lines: seq<string>) {
    lines != []
    && var last := lines[|lines| - 1];
       IsStart(last) || (!IsEnd(last) && InBlock(lines[..|lines| - 1]))
  }

  /** The lines outside every managed block, in order. */
  function Outside(lines: seq<string>): seq<string> {
    if lines == [] then []
    else
      var init, last := lines[..|lines| - 1], lines[|lines| - 1];
      if Marker(last) || InBlock(init) then Outside(init) else Outside(init) + [last]
  }

  /** Being in a block means a start marker was not yet followed by an end marker; an unclosed
      block therefore runs to the end of the file and a stray end marker opens nothing. */
  lemma {:induction false} InBlockMeaning(lines: seq<string>)
    ensures InBlock(lines) <==>
            exists s :: 0 <= s < |lines| && IsStart(lines[s]) && forall j :: s < j < |lines| ==> !IsEnd(lines[j])
  {
    hide TrimSpace;
    if lines != [] {
      var n := |lines| - 1;
      var init := lines[..n];
      InBlockMeaning(init);
      assert BLOCK_START[2] != BLOCK_END[2];
      if IsStart(lines[n]) {
        assert InBlock(lines);
      } else if InBlock(init) {
        var s :| 0 <= s < n && IsStart(init[s]) && forall j :: s < j < n ==> !IsEnd(init[j]);
        assert lines[s] == init[s];
        assert forall j :: s < j < n ==> lines[j] == init[j];
      } else {
        forall s | 0 <= s < n && IsStart(lines[s]) ensures exists j :: s < j < |lines| && IsEnd(lines[j]) {
          assert init[s] == lines[s];
          if !IsEnd(lines[n]) {
            var j :| s < j < n && IsEnd(init[j]);
            assert lines[j] == init[j];
          }
        }
      }
    }
  }

  /** stripBlock. */
  method StripBlock(content: string) returns (out: string)
    ensures out == Join(Outside(Split(content, '\n')), '\n')
  {
    hide TrimSpace, Join;
    var lines := Split(content, '\n');
    var kept: seq<string> := [];
    var inBlock := false;
    for i := 0 to |lines|
      invariant inBlock == InBlock(lines[..i])
      invariant kept == Outside(lines[..i])
    {
      var ln := lines[i];
      assert lines[..i + 1][..i] == lines[..i];
      if TrimSpace(ln) == BLOCK_START {
        inBlock := true;
        continue;
      }
      if TrimSpace(ln) == BLOCK_END {
        inBlock := false;
        continue;
      }
      if !inBlock {
        kept := kept + [ln];
      }
    }
    assert lines[..|lines|] == lines;
    return Join(kept, '\n');
  }

  function Entries(hostnames: seq<string>): seq<string> {
    if hostnames == [] then []
    else ["127.0.0.1\t" + hostnames[0], "::1\t" + hostnames[0]] + Entries(hostnames[1..])
  }

  function BlockLines(hostnames: seq<string>): seq<string> {
    if hostnames == [] then [] else [BLOCK_START] + Entries(hostnames) + [BLOCK_END]
  }

  /** The block, line by line: both loopback addresses for every name, between the two markers. */
  lemma {:induction false} BlockIs(hostnames: seq<string>, k: nat)
    requires k < |hostnames|
    ensures var b := BlockLines(hostnames);
      && |b| == 2 * |hostnames| + 2
      && b[0] == "# >>> xdev (managed) >>>" && b[|b| - 1] == "# <<< xdev (managed) <<<"
      && b[2 * k + 1] == "127.0.0.1\t" + hostnames[k] && b[2 * k + 2] == "::1\t" + hostnames[k]
  {
    EntriesAt(hostnames, k);
  }

  lemma {:induction false} EntriesAt(hostnames: seq<string>, k: nat)
    requires k < |hostnames|
    ensures |Entries(hostnames)| == 2 * |hostnames|
    ensures Entries(hostnames)[2 * k] == "127.0.0.1\t" + hostnames[k]
    ensures Entries(hostnames)[2 * k + 1] == "::1\t" + hostnames[k]
  {
    if |hostnames| > 1 {
      EntriesAt(hostnames[1..], if k > 0 then k - 1 else 0);
    }
  }

  /** What SyncHosts leaves in a file that held `existing` (a missing file holds nothing). */
  function Synced(existing: string, hostnames: seq<string>): string {
    Unlines(DropBlank(Outside(Split(existing, '\n'))) + BlockLines(hostnames))
  }

  lemma {:induction false} EntriesSnoc(hostnames: seq<string>, h: string)
    ensures Entries(hostnames + [h]) == Entries(hostnames) + ["127.0.0.1\t" + h, "::1\t" + h]
  {
    if hostnames != [] {
      EntriesSnoc(hostnames[1..], h);
      assert (hostnames + [h])[1..] == hostnames[1..] + [h];
    }
  }

  lemma {:induction false} OutsidePieces(lines: seq<string>)
    requires Pieces(lines, '\n')
    ensures Pieces(Outside(lines), '\n')
    ensures forall i :: 0 <= i < |Outside(lines)| ==> !Marker(Outside(lines)[i])
  {
    hide TrimSpace;
    if lines != [] {
      OutsidePieces(lines[..|lines| - 1]);
    }
  }

  /** The text before the block: empty, or ended by one newline. */
  lemma BaseText(existing: string)
    ensures var base := TrimRight(Join(Outside(Split(existing, '\n')), '\n'), '\n');
      Unlines(DropBlank(Outside(Split(existing, '\n')))) == if base == "" then "" else base + "\n"
  {
    var lines := Split(existing, '\n');
    var kept := Outside(lines);
    JoinSplit(existing, '\n');
    OutsidePieces(lines);
    TrimRightJoin(kept);
    DropBlankLaw(kept);
    var d := DropBlank(kept);
    UnlinesJoin(d);
    if d != [] {
      JoinAppend(d, [""], '\n');
      assert Join([""], '\n') == "";
    }
  }

  /** SyncHosts, from what the file held to what is written. */
  method SyncHosts(existing: string, hostnames: seq<string>) returns (written: string)
    ensures written == Synced(existing, hostnames)
  {
    hide TrimSpace, Join, Outside, TrimRight, Split, DropBlank, Unlines, Entries;
    var stripped := StripBlock(existing);
    var base := TrimRight(stripped, '\n');
    BaseText(existing);
    var b := base;
    if |b| > 0 {
      b := b + "\n";
    }
    ghost var head := DropBlank(Outside(Split(existing, '\n')));
    if |hostnames| > 0 {
      b := b + (BLOCK_START + "\n");
      Emit(head, BLOCK_START);
      ghost var begun := head + [BLOCK_START];
      assert hostnames[..0] == [];
      EntriesEmpty();
      assert begun + [] == begun;
      for i := 0 to |hostnames|
        invariant b == Unlines(begun + Entries(hostnames[..i]))
      {
        var h := hostnames[i];
        ghost var done := begun + Entries(hostnames[..i]);
        b := b + ("127.0.0.1\t" + h + "\n");
        Emit(done, "127.0.0.1\t" + h);
        b := b + ("::1\t" + h + "\n");
        Emit(done + ["127.0.0.1\t" + h], "::1\t" + h);
        assert hostnames[..i + 1] == hostnames[..i] + [h];
        EntriesSnoc(hostnames[..i], h);
        assert begun + Entries(hostnames[..i + 1]) == done + ["127.0.0.1\t" + h] + ["::1\t" + h];
      }
      assert hostnames[..|hostnames|] == hostnames;
      b := b + (BLOCK_END + "\n");
      Emit(begun + Entries(hostnames), BLOCK_END);
      assert head + BlockLines(hostnames) == begun + Entries(hostnames) + [BLOCK_END];
    } else {
      assert head + BlockLines(hostnames) == head;
    }
    return b;
  }

  lemma EntriesEmpty()
    ensures Entries([]) == []
  {
  }

  // ---- last writer wins ----

  lemma {:induction false} OutsideAppend(a: seq<string>, b: seq<string>)
    requires forall i :: 0 <= i < |b| ==> !Marker(b[i])
    ensures InBlock(a + b) == InBlock(a)
    ensures Outside(a + b) == if InBlock(a) then Outside(a) else Outside(a) + b
  {
    hide IsStart, IsEnd, InBlock, Outside;
    if b == [] {
      assert a + b == a && Outside(a) + b == Outside(a);
    } else {
      var init, last := b[..|b| - 1], b[|b| - 1];
      OutsideAppend(a, init);
      assert !Marker(last);
      OutsideSnoc(a + init, last);
      Resnoc(a, b);
      Resnoc(Outside(a), b);
    }
  }

  lemma Resnoc<T>(a: seq<T>, b: seq<T>)
    requires b != []
    ensures a + b == a + b[..|b| - 1] + [b[|b| - 1]]
  {
  }

  lemma OutsideSnoc(lines: seq<string>, line: string)
    requires !Marker(line)
    ensures InBlock(lines + [line]) == InBlock(lines)
    ensures Outside(lines + [line]) == if InBlock(lines) then Outside(lines) else Outside(lines) + [line]
  {
    hide IsStart, IsEnd;
    assert (lines + [line])[..|lines|] == lines;
  }

  lemma OutsideMarker(a: seq<string>, marker: string)
    requires Marker(marker)
    ensures Outside(a + [marker]) == Outside(a)
    ensures InBlock(a + [marker]) == IsStart(marker)
  {
    hide TrimSpace;
    assert (a + [marker])[..|a|] == a;
    assert BLOCK_START[2] != BLOCK_END[2];
  }

  lemma {:induction false} EntriesAreLines(hostnames: seq<string>)
    requires Pieces(hostnames, '\n')
    ensures Pieces(Entries(hostnames), '\n')
    ensures forall i :: 0 <= i < |Entries(hostnames)| ==> !Marker(Entries(hostnames)[i])
  {
    if hostnames != [] {
      EntriesAreLines(hostnames[1..]);
      SolidSurvives("127.0.0.1\t" + hostnames[0], 0);
      SolidSurvives("::1\t" + hostnames[0], 0);
    }
  }

  lemma MarkersAreMarkers()
    ensures Marker(BLOCK_START) && IsStart(BLOCK_START) && Marker(BLOCK_END) && !IsStart(BLOCK_END)
    ensures '\n' !in BLOCK_START && '\n' !in BLOCK_END
  {
    hide TrimSpace;
    TrimSpaceLaw(BLOCK_START);
    TrimSpaceLaw(BLOCK_END);
    assert BLOCK_START[0] == '#' && BLOCK_START[23] == '>' && |BLOCK_START| == 24;
    assert BLOCK_END[0] == '#' && BLOCK_END[23] == '<' && |BLOCK_END| == 24;
    assert BLOCK_START[2] != BLOCK_END[2];
  }

  lemma EmptyIsOutside()
    ensures !InBlock([]) && Outside([]) == []
  {
  }

  lemma BlankNoMarker()
    ensures !Marker("")
  {
  }

  /** The stripper takes out exactly the block a sync wrote. */
  lemma OutsideOfSynced(head: seq<string>, hostnames: seq<string>)
    requires Pieces(hostnames, '\n')
    requires forall i :: 0 <= i < |head| ==> !Marker(head[i])
    ensures Outside(head + BlockLines(hostnames) + [""]) == head + [""]
  {
    hide Outside, InBlock, Entries, Marker, IsStart, IsEnd;
    BlankNoMarker();
    if hostnames == [] {
      EmptyIsOutside();
      OutsideAppend([], head + [""]);
      assert head + BlockLines(hostnames) + [""] == [] + (head + [""]);
    } else {
      MarkersAreMarkers();
      EntriesAreLines(hostnames);
      OutsideOfBlock(head, BLOCK_START, Entries(hostnames), BLOCK_END);
    }
  }

  lemma OutsideOfBlock(head: seq<string>, start: string, entries: seq<string>, end: string)
    requires Marker(start) && IsStart(start) && Marker(end) && !IsStart(end)
    requires forall i :: 0 <= i < |head| ==> !Marker(head[i])
    requires forall i :: 0 <= i < |entries| ==> !Marker(entries[i])
    ensures Outside(head + ([start] + entries + [end]) + [""]) == head + [""]
  {
    hide Outside, InBlock, Marker, IsStart, IsEnd;
    EmptyIsOutside();
    BlankNoMarker();
    OutsideAppend([], head);
    assert [] + head == head;
    var a := head + [start];
    OutsideMarker(head, start);
    OutsideAppend(a, entries);
    OutsideMarker(a + entries, end);
    OutsideAppend(a + entries + [end], [""]);
    RegroupBlock(head, start, entries, end, "");
  }

  lemma RegroupBlock<T>(head: seq<T>, start: T, entries: seq<T>, end: T, last: T)
    ensures head + ([start] + entries + [end]) + [last] == head + [start] + entries + [end] + [last]
  {
  }

  lemma BlockPieces(head: seq<string>, hostnames: seq<string>)
    requires Pieces(head, '\n') && Pieces(hostnames, '\n')
    ensures Pieces(head + BlockLines(hostnames), '\n')
  {
    MarkersAreMarkers();
    EntriesAreLines(hostnames);
  }

  /** Lines outside the block survive a sync, in order, blank lines at their end apart; the block
      that follows them is the new one. */
  lemma SyncedLines(existing: string, hostnames: seq<string>)
    requires Pieces(hostnames, '\n')
    ensures Split(Synced(existing, hostnames), '\n')
            == DropBlank(Outside(Split(existing, '\n'))) + BlockLines(hostnames) + [""]
    ensures Outside(Split(Synced(existing, hostnames), '\n')) == DropBlank(Outside(Split(existing, '\n'))) + [""]
  {
    hide TrimSpace, Outside, Unlines, BlockLines, DropBlank, Split;
    var kept := Outside(Split(existing, '\n'));
    JoinSplit(existing, '\n');
    OutsidePieces(Split(existing, '\n'));
    DropBlankLaw(kept);
    var head := DropBlank(kept);
    BlockPieces(head, hostnames);
    SplitUnlines(head + BlockLines(hostnames));
    OutsideOfSynced(head, hostnames);
  }

  /** Syncing one list and then another leaves the file as if only the second had been synced,
      whatever it held before: stray or unclosed markers included. */
  lemma LastWriterWins(existing: string, a: seq<string>, b: seq<string>)
    requires Pieces(a, '\n')
    ensures Synced(Synced(existing, a), b) == Synced(existing, b)
  {
    hide TrimSpace, Outside, Unlines, BlockLines, Split;
    SyncedLines(existing, a);
    var kept := Outside(Split(existing, '\n'));
    DropBlankLaw(kept);
    var head := DropBlank(kept);
    assert (head + [""])[..|head|] == head;
    assert DropBlank(head) == head;
  }

  // ---- reading the file back ----

  function WordLen(s: string): (n: nat)
    ensures n <= |s|
    ensures s != "" && !IsSpace(s[0]) ==> n > 0
  {
    if s == "" || IsSpace(s[0]) then 0 else 1 + WordLen(s[1..])
  }

  /** `strings.Fields`. */
  function Fields(s: string): seq<string>
    decreases |s|
  {
    if s == "" then []
    else if IsSpace(s[0]) then Fields(s[1..])
    else [s[..WordLen(s)]] + Fields(s[WordLen(s)..])
  }

  predicate LineMaps(line: string, host: string) {
    var t := TrimSpace(line);
    t != "" && t[0] != '#' && Fields(t) != [] && host in Fields(t)[1..]
  }

  ghost predicate Maps(content: string, host: string) {
    exists i :: 0 <= i < |Split(content, '\n')| && LineMaps(Split(content, '\n')[i], host)
  }

  lemma {:induction false} FieldsNonEmpty(s: string)
    requires s != "" && !IsSpace(s[0])
    ensures Fields(s) != []
  {
  }

  method HostPresent(content: string, host: string) returns (present: bool)
    ensures present <==> Maps(content, host)
  {
    hide TrimLeftSpace, TrimRightSpace, Fields, Split;
    var lines := Split(content, '\n');
    for i := 0 to |lines|
      invariant forall j :: 0 <= j < i ==> !LineMaps(lines[j], host)
    {
      var line := TrimSpace(lines[i]);
      if line == "" || line[0] == '#' {
        continue;
      }
      var fields := Fields(line);
      TrimSpaceLaw(lines[i]);
      FieldsNonEmpty(line);
      for k := 1 to |fields|
        invariant forall m :: 1 <= m < k ==> fields[m] != host
      {
        if fields[k] == host {
          assert fields[1..][k - 1] == host;
          assert LineMaps(lines[i], host);
          return true;
        }
      }
    }
    return false;
  }

  ghost function NotMapped(content: string, hostnames: seq<string>): seq<string> {
    if hostnames == [] then []
    else
      var init, last := hostnames[..|hostnames| - 1], hostnames[|hostnames| - 1];
      if Maps(content, last) then NotMapped(content, init) else NotMapped(content, init) + [last]
  }

  /** MissingFromHosts on a readable file. */
  method MissingFromHosts(content: string, hostnames: seq<string>) returns (missing: seq<string>)
    ensures missing == NotMapped(content, hostnames)
  {
    missing := [];
    for i := 0 to |hostnames|
      invariant missing == NotMapped(content, hostnames[..i])
    {
      var present := HostPresent(content, hostnames[i]);
      assert hostnames[..i + 1][..i] == hostnames[..i];
      if !present {
        missing := missing + [hostnames[i]];
      }
    }
    assert hostnames[..|hostnames|] == hostnames;
  }

  lemma {:induction false} FieldsWord(w: string)
    requires w != "" && NoSpace(w)
    ensures WordLen(w) == |w| && Fields(w) == [w]
  {
    WordLenOf(w, "");
    assert w + "" == w;
    assert w[..|w|] == w && w[|w|..] == "";
  }

  lemma {:induction false} WordLenOf(w: string, rest: string)
    requires NoSpace(w) && (rest == "" || IsSpace(rest[0]))
    ensures WordLen(w + rest) == |w|
    decreases |w|
  {
    if w != "" {
      WordLenOf(w[1..], rest);
      assert (w + rest)[1..] == w[1..] + rest;
    } else {
      assert w + rest == rest;
    }
  }

  lemma EntryMaps(host: string)
    requires host != "" && NoSpace(host)
    ensures LineMaps("127.0.0.1\t" + host, host)
  {
    var ip := "127.0.0.1";
    var line := ip + "\t" + host;
    assert line == "127.0.0.1\t" + host;
    TrimSpaceLaw(line);
    assert Trimmed(line);
    WordLenOf(ip, "\t" + host);
    assert line == ip + ("\t" + host);
    assert line[..|ip|] == ip;
    var rest := line[|ip|..];
    assert rest == "\t" + host;
    assert rest[1..] == host;
    FieldsWord(host);
    assert Fields(rest) == Fields(host);
    assert Fields(line) == [ip] + [host];
    assert Fields(line)[1..] == [host];
  }

  lemma {:induction false} EntryOf(hostnames: seq<string>, k: nat)
    requires k < |hostnames|
    ensures "127.0.0.1\t" + hostnames[k] in Entries(hostnames)
  {
    if k > 0 {
      EntryOf(hostnames[1..], k - 1);
    }
  }

  /** Every hostname just synced reads back as mapped. */
  lemma SyncedMaps(existing: string, hostnames: seq<string>, k: nat)
    requires forall i :: 0 <= i < |hostnames| ==> hostnames[i] != "" && NoSpace(hostnames[i])
    requires k < |hostnames|
    ensures Maps(Synced(existing, hostnames), hostnames[k])
  {
    hide TrimSpace, Outside, Unlines, Split, DropBlank, Fields, LineMaps, NoSpace, Synced;
    SpacelessPieces(hostnames);
    SyncedLines(existing, hostnames);
    EntryOf(hostnames, k);
    EntryMaps(hostnames[k]);
    var entry := "127.0.0.1\t" + hostnames[k];
    assert entry in BlockLines(hostnames);
    var lines := Split(Synced(existing, hostnames), '\n');
    assert entry in lines;
    var i :| 0 <= i < |lines| && lines[i] == entry;
  }

  lemma SpacelessPieces(hostnames: seq<string>)
    requires forall i :: 0 <= i < |hostnames| ==> NoSpace(hostnames[i])
    ensures Pieces(hostnames, '\n')
  {
  }

  lemma {:induction false} AllMapped(content: string, hostnames: seq<string>)
    requires forall i :: 0 <= i < |hostnames| ==> Maps(content, hostnames[i])
    ensures NotMapped(content, hostnames) == []
  {
    if hostnames != [] {
      AllMapped(content, hostnames[..|hostnames| - 1]);
    }
  }

  /** So right after a sync nothing of what was synced is reported missing. */
  lemma NothingMissingAfterSync(existing: string, hostnames: seq<string>)
    requires forall i :: 0 <= i < |hostnames| ==> hostnames[i] != "" && NoSpace(hostnames[i])
    ensures NotMapped(Synced(existing, hostnames), hostnames) == []
  {
    hide Synced, Maps, NotMapped;
    forall i | 0 <= i < |hostnames| ensures Maps(Synced(existing, hostnames), hostnames[i]) {
      SyncedMaps(existing, hostnames, i);
    }
    AllMapped(Synced(existing, hostnames), hostnames);
  }
}
