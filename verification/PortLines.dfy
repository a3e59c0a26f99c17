/** Which lines of a compose file publish which port, said by how the lines are spelled
    (internal/apps/compose.go, the four port patterns), and what the scanner reads back from a stack
    that is written out: its ports in order, each with its service, whatever the line ends. The
    variables are those of the env file. */
module PortLines {
  import opened Text
  import opened Wrappers
  import opened ComposePorts
  import Env = ComposeEnv

  // ---- spelling ----

  predicate Blanks(s: string) {
    forall i :: 0 <= i < |s| ==> s[i] == ' ' || s[i] == '\t'
  }

  predicate Quote(s: string) {
    s == "" || s == "\"" || s == "'"
  }

  /** Nothing, or digits and dots with a colon behind them. */
  predicate Address(s: string) {
    s == "" || (|s| > 1 && s[|s| - 1] == ':' && forall i :: 0 <= i < |s| - 1 ==> '0' <= s[i] <= '9' || s[i] == '.')
  }

  /** No letter, digit or underscore comes next. */
  predicate WordEnds(s: string) {
    s == "" || !('0' <= s[0] <= '9' || 'A' <= s[0] <= 'Z' || 'a' <= s[0] <= 'z' || s[0] == '_')
  }

  predicate Digits(s: string) {
    forall i :: 0 <= i < |s| ==> '0' <= s[i] <= '9'
  }

  function Word(alias: bool): string {
    if alias then "XDEV_PORT" else "PORT"
  }

  function Name(brace: bool, alias: bool): string {
    if brace then "{" + Word(alias) else Word(alias)
  }

  function Number(d: string): string {
    if d == "" then "" else "_" + d
  }

  /** $PORT_n without what may follow it: a brace or none, XDEV_ or not, and `d` the digits after the
      underscore, "" for neither. */
  function Spelled(brace: bool, alias: bool, d: string): string {
    "$" + Name(brace, alias) + Number(d)
  }

  function ShortLine(blanks: string, quote: string, address: string, s: string): string {
    "-" + blanks + quote + address + s
  }

  function LongLine(blanks: string, quote: string, s: string): string {
    "published:" + blanks + quote + s
  }

  /** A reference to a variable at the start of `s`, up to the end of the word. */
  ghost predicate VarRef(s: string, d: string) {
    Digits(d) && exists brace, alias, rest :: WordEnds(rest) && s == Spelled(brace, alias, d) + rest
  }

  /** A host port of two to five digits, a container port of one to five, perhaps a protocol and a quote. */
  ghost predicate PairRef(s: string, host: string) {
    && Digits(host) && 2 <= |host| <= 5
    && exists container, protocol, quote ::
      && Digits(container) && 1 <= |container| <= 5
      && (protocol == "" || protocol == "/tcp" || protocol == "/udp") && Quote(quote)
      && s == host + ":" + container + protocol + quote
  }

  ghost predicate PortRef(s: string, host: string) {
    Digits(host) && 2 <= |host| <= 5 && exists quote :: Quote(quote) && s == host + quote
  }

  /** The line publishes the variable whose digits are `d`. */
  ghost predicate VarLine(line: string, d: string) {
    || (exists b, q, a, s :: Blanks(b) && Quote(q) && Address(a) && VarRef(s, d) && line == ShortLine(b, q, a, s))
    || (exists b, q, s :: Blanks(b) && Quote(q) && VarRef(s, d) && line == LongLine(b, q, s))
  }

  /** The line publishes a host port by its digits. */
  ghost predicate FixedLine(line: string, host: string) {
    || (exists b, q, a, s :: Blanks(b) && Quote(q) && Address(a) && PairRef(s, host) && line == ShortLine(b, q, a, s))
    || (exists b, q, s :: Blanks(b) && Quote(q) && PortRef(s, host) && line == LongLine(b, q, s))
  }

  // ---- the pieces of a pattern ----

  lemma {:induction false} BlanksSkipped(b: string, s: string)
    requires Blanks(b) && (s == "" || (s[0] != ' ' && s[0] != '\t'))
    ensures SkipBlanks(b + s) == s
  {
    if b == "" {
      assert b + s == s;
    } else {
      assert (b + s)[1..] == b[1..] + s;
      BlanksSkipped(b[1..], s);
    }
  }

  lemma {:induction false} BlanksBefore(s: string) returns (b: string)
    ensures Blanks(b) && s == b + SkipBlanks(s)
  {
    if s != "" && (s[0] == ' ' || s[0] == '\t') {
      b := BlanksBefore(s[1..]);
      b := [s[0]] + b;
    } else {
      b := "";
    }
  }

  lemma QuoteSkipped(q: string, s: string)
    requires Quote(q) && (s == "" || (s[0] != '"' && s[0] != '\''))
    ensures SkipQuote(q + s) == s
  {
    assert q == "" ==> q + s == s;
  }

  lemma QuoteBefore(s: string) returns (q: string)
    ensures Quote(q) && s == q + SkipQuote(s)
  {
    q := s[..|s| - |SkipQuote(s)|];
    assert s != "" && s[0] == '"' ==> q == "\"";
    assert s != "" && s[0] == '\'' ==> q == "'";
  }

  lemma {:induction false} DigitsRun(d: string, s: string)
    requires Digits(d) && (s == "" || !('0' <= s[0] <= '9'))
    ensures DigitRun(d + s) == |d|
  {
    if d == "" {
      assert d + s == s;
    } else {
      assert (d + s)[1..] == d[1..] + s;
      DigitsRun(d[1..], s);
    }
  }

  /** The characters of an address come first. */
  lemma {:induction false} AddressAhead(a: string, s: string)
    requires forall i :: 0 <= i < |a| ==> '0' <= a[i] <= '9' || a[i] == '.'
    requires s == "" || !('0' <= s[0] <= '9' || s[0] == '.')
    ensures AddressRun(a + s) == |a|
  {
    if a == "" {
      assert a + s == s;
    } else {
      assert (a + s)[1..] == a[1..] + s;
      AddressAhead(a[1..], s);
    }
  }

  lemma {:induction false} AddressRunIs(s: string)
    ensures var k := AddressRun(s);
      && (forall i :: 0 <= i < k ==> '0' <= s[i] <= '9' || s[i] == '.')
      && (k < |s| ==> !('0' <= s[k] <= '9' || s[k] == '.'))
  {
    if s != "" && (IsDigit(s[0]) || s[0] == '.') {
      AddressRunIs(s[1..]);
    }
  }

  lemma AddressSkipped(a: string, s: string)
    requires Address(a) && a != ""
    ensures AfterAddress(a + s) == Some(s)
  {
    var init := a[..|a| - 1];
    assert a + s == init + (":" + s);
    AddressAhead(init, ":" + s);
    assert (init + (":" + s))[|a|..] == s;
  }

  lemma NoAddress(s: string)
    requires s != "" && !('0' <= s[0] <= '9' || s[0] == '.')
    ensures AfterAddress(s) == None
  {
  }

  lemma AddressBefore(s: string) returns (a: string)
    requires AfterAddress(s).Some?
    ensures Address(a) && a != "" && s == a + AfterAddress(s).value
  {
    AddressRunIs(s);
    a := s[..AddressRun(s) + 1];
  }

  // ---- a reference to a variable ----

  lemma AfterIt(p: string, s: string)
    ensures After(p + s, p) == s
  {
  }

  lemma AfterOther(p: string, s: string)
    requires p != "" && (s == "" || s[0] != p[0])
    ensures After(s, p) == s
  {
  }

  lemma WordSkipped(alias: bool, t: string)
    ensures After(Word(alias) + t, "XDEV_") == "PORT" + t
    ensures Word(alias) + t != "" && (Word(alias) + t)[0] != '{'
  {
    hide After;
    if alias {
      assert "XDEV_PORT" == "XDEV_" + "PORT";
      assert Word(alias) + t == "XDEV_" + ("PORT" + t);
      AfterIt("XDEV_", "PORT" + t);
    } else {
      AfterOther("XDEV_", "PORT" + t);
    }
  }

  /** The word up to its number. */
  lemma NameSkipped(brace: bool, alias: bool, t: string)
    ensures After(After(Name(brace, alias) + t, "{"), "XDEV_") == "PORT" + t
  {
    hide After, Word;
    var w := Word(alias) + t;
    WordSkipped(alias, t);
    if brace {
      assert Name(brace, alias) + t == "{" + w;
      AfterIt("{", w);
    } else {
      AfterOther("{", w);
    }
  }

  lemma NumberCut(d: string, rest: string)
    ensures var u, v := "_" + d + rest, d + rest;
      HasPrefix(u, "_") && u[1..] == v && v[|d|..] == rest && v[..|d|] == d
  {
  }

  lemma NumberRead(d: string, rest: string)
    requires Digits(d) && WordEnds(rest)
    ensures NumberTail(Number(d) + rest) == Some(d)
  {
    hide DigitRun;
    if d == "" {
      assert Number(d) + rest == rest;
      assert !HasPrefix(rest, "_");
    } else {
      NumberCut(d, rest);
      DigitsRun(d, rest);
      assert Boundary(rest);
      hide HasPrefix, Boundary, Digits, WordEnds;
    }
  }

  lemma ReadNumber(u: string) returns (rest: string)
    requires NumberTail(u).Some?
    ensures Digits(NumberTail(u).value) && WordEnds(rest) && u == Number(NumberTail(u).value) + rest
  {
    hide DigitRun;
    rest := u;
    if HasPrefix(u, "_") && DigitRun(u[1..]) > 0 {
      var v, k := u[1..], DigitRun(u[1..]);
      rest := v[k..];
      assert u == "_" + v && v == v[..k] + rest;
      assert u == "_" + v[..k] + rest;
    }
  }

  lemma NameRead(s: string, u: string)
    requires HasPrefix(s, "$") && After(After(s[1..], "{"), "XDEV_") == "PORT" + u
    ensures VarTail(s) == NumberTail(u)
  {
    hide After, NumberTail;
    assert ("PORT" + u)[4..] == u;
  }

  lemma SpelledRead(brace: bool, alias: bool, d: string, rest: string)
    requires Digits(d) && WordEnds(rest)
    ensures VarTail(Spelled(brace, alias, d) + rest) == Some(d)
  {
    hide VarTail, After, NumberTail, DigitRun, Name, Number;
    var u := Number(d) + rest;
    var s := Spelled(brace, alias, d) + rest;
    assert s == "$" + (Name(brace, alias) + u);
    assert s[1..] == Name(brace, alias) + u;
    NameSkipped(brace, alias, u);
    NameRead(s, u);
    NumberRead(d, rest);
  }

  lemma AfterBefore(s: string, p: string) returns (there: bool)
    ensures s == (if there then p else "") + After(s, p)
  {
    there := HasPrefix(s, p);
  }

  lemma ReadSpelled(s: string)
    requires VarTail(s).Some?
    ensures VarRef(s, VarTail(s).value)
  {
    hide After, NumberTail, Name, Number;
    var brace := AfterBefore(s[1..], "{");
    var w := After(s[1..], "{");
    var alias := AfterBefore(w, "XDEV_");
    var t := After(w, "XDEV_");
    var d := NumberTail(t[4..]).value;
    var rest := ReadNumber(t[4..]);
    assert t == "PORT" + t[4..];
    NameBack(brace, alias, w, t[4..]);
    SpelledBack(s, brace, alias, d, rest);
  }

  lemma NameBack(brace: bool, alias: bool, w: string, u: string)
    requires w == (if alias then "XDEV_" else "") + ("PORT" + u)
    ensures (if brace then "{" else "") + w == Name(brace, alias) + u
  {
    if alias {
      assert "XDEV_PORT" == "XDEV_" + "PORT";
      assert w == "XDEV_PORT" + u;
    } else {
      assert w == "PORT" + u;
    }
  }

  lemma SpelledBack(s: string, brace: bool, alias: bool, d: string, rest: string)
    requires HasPrefix(s, "$") && s[1..] == Name(brace, alias) + (Number(d) + rest)
    ensures s == Spelled(brace, alias, d) + rest
  {
    hide Name, Number;
    assert s == "$" + s[1..];
  }

  /** A string starts with a reference exactly when it is spelled as one. */
  lemma VarTailIs(s: string, d: string)
    ensures VarTail(s) == Some(d) <==> VarRef(s, d)
  {
    hide VarTail, Spelled;
    if VarTail(s) == Some(d) {
      ReadSpelled(s);
    }
    if VarRef(s, d) {
      var brace, alias, rest :| WordEnds(rest) && s == Spelled(brace, alias, d) + rest;
      SpelledRead(brace, alias, d, rest);
    }
  }

  // ---- a pair of ports ----

  lemma ClosingCut(protocol: string, quote: string)
    requires Protocol(protocol) && Quote(quote)
    ensures Closing(protocol + quote)
    ensures protocol + quote == "" || !('0' <= (protocol + quote)[0] <= '9')
  {
    if quote == "" {
      assert protocol + quote == protocol;
    } else {
      assert (protocol + quote)[..|protocol|] == protocol;
    }
  }

  lemma ClosingIs(s: string) returns (protocol: string, quote: string)
    requires Closing(s)
    ensures Protocol(protocol) && Quote(quote) && s == protocol + quote
  {
    if Protocol(s) {
      protocol, quote := s, "";
    } else {
      protocol, quote := s[..|s| - 1], [s[|s| - 1]];
    }
  }

  lemma ContainerRead(container: string, c: string)
    requires Digits(container) && 1 <= |container| <= 5 && Closing(c) && (c == "" || !('0' <= c[0] <= '9'))
    ensures ContainerPort(container + c)
  {
    hide DigitRun, Closing;
    DigitsRun(container, c);
    assert (container + c)[|container|..] == c;
  }

  lemma HostRead(host: string, t: string)
    requires Digits(host) && 2 <= |host| <= 5 && ContainerPort(t)
    ensures PairTail(host + (":" + t)) == Some(host)
  {
    hide DigitRun, ContainerPort;
    var s := host + (":" + t);
    DigitsRun(host, ":" + t);
    assert s[|host| + 1..] == t && s[..|host|] == host;
  }

  lemma PairGroups(host: string, container: string, protocol: string, quote: string)
    ensures host + ":" + container + protocol + quote == host + (":" + (container + (protocol + quote)))
  {
  }

  lemma PairRead(host: string, container: string, protocol: string, quote: string)
    requires Digits(host) && 2 <= |host| <= 5 && Digits(container) && 1 <= |container| <= 5
    requires Protocol(protocol) && Quote(quote)
    ensures PairTail(host + ":" + container + protocol + quote) == Some(host)
  {
    ClosingCut(protocol, quote);
    ContainerRead(container, protocol + quote);
    HostRead(host, container + (protocol + quote));
    PairGroups(host, container, protocol, quote);
    hide *;
  }

  lemma ReadPair(s: string)
    requires PairTail(s).Some?
    ensures PairRef(s, PairTail(s).value)
  {
    hide DigitRun, Closing, Protocol, PairRef;
    var k := DigitRun(s);
    var t := s[k + 1..];
    var protocol, quote := ClosingIs(t[DigitRun(t)..]);
    PairBack(s, k, t, DigitRun(t), protocol, quote);
  }

  lemma PairBack(s: string, k: nat, t: string, m: nat, protocol: string, quote: string)
    requires k < |s| && s[k] == ':' && t == s[k + 1..] && m <= |t| && t[m..] == protocol + quote
    requires 2 <= k <= 5 && 1 <= m <= 5 && Digits(s[..k]) && Digits(t[..m]) && Protocol(protocol) && Quote(quote)
    ensures PairRef(s, s[..k])
  {
    PairGroups(s[..k], t[..m], protocol, quote);
    assert t == t[..m] + t[m..];
    assert s == s[..k] + (":" + t);
    assert Digits(t[..m]) && s == s[..k] + ":" + t[..m] + protocol + quote;
  }

  /** A string is a pair of ports exactly when it is spelled as one. */
  lemma PairTailIs(s: string, host: string)
    ensures PairTail(s) == Some(host) <==> PairRef(s, host)
  {
    hide PairTail;
    if PairTail(s) == Some(host) {
      ReadPair(s);
    }
    if PairRef(s, host) {
      var container, protocol, quote :|
        Digits(container) && 1 <= |container| <= 5
        && (protocol == "" || protocol == "/tcp" || protocol == "/udp") && Quote(quote)
        && s == host + ":" + container + protocol + quote;
      PairRead(host, container, protocol, quote);
    }
  }

  /** And a port by itself. */
  lemma BarePortIs(s: string, host: string)
    ensures BarePort(s) == Some(host) <==> PortRef(s, host)
  {
    hide DigitRun;
    if BarePort(s) == Some(host) {
      var quote := s[DigitRun(s)..];
      assert Quote(quote) && s == host + quote;
    }
    if PortRef(s, host) {
      var quote :| Quote(quote) && s == host + quote;
      DigitsRun(host, quote);
      assert s[..|host|] == host;
    }
  }

  // ---- whole lines ----

  lemma ItemRead(b: string, q: string, x: string)
    requires Blanks(b) && Quote(q) && x != "" && x[0] != ' ' && x[0] != '\t' && x[0] != '"' && x[0] != '\''
    ensures Item("-" + b + q + x) == Some(x)
  {
    hide SkipBlanks, SkipQuote;
    var y := q + x;
    assert "-" + b + q + x == "-" + (b + y);
    assert ("-" + (b + y))[1..] == b + y;
    BlanksSkipped(b, y);
    QuoteSkipped(q, x);
  }

  lemma ReadItem(line: string) returns (b: string, q: string)
    requires Item(line).Some?
    ensures Blanks(b) && Quote(q) && line == "-" + b + q + Item(line).value
  {
    hide SkipBlanks, SkipQuote;
    b := BlanksBefore(line[1..]);
    q := QuoteBefore(SkipBlanks(line[1..]));
    assert line == "-" + line[1..];
    Regroup(b, q, Item(line).value);
  }

  lemma LongRead(b: string, q: string, x: string)
    requires Blanks(b) && Quote(q) && x != "" && x[0] != ' ' && x[0] != '\t' && x[0] != '"' && x[0] != '\''
    ensures Item(LongLine(b, q, x)) == None && Long(LongLine(b, q, x)) == Some(x)
  {
    hide SkipBlanks, SkipQuote;
    var y := q + x;
    var line := LongLine(b, q, x);
    assert line == "published:" + (b + y);
    assert line[0] == 'p' && HasPrefix(line, "published:") && line[10..] == b + y;
    BlanksSkipped(b, y);
    QuoteSkipped(q, x);
  }

  lemma ReadLong(line: string) returns (b: string, q: string)
    requires Long(line).Some?
    ensures Blanks(b) && Quote(q) && line == LongLine(b, q, Long(line).value)
  {
    hide SkipBlanks, SkipQuote;
    b := BlanksBefore(line[10..]);
    q := QuoteBefore(SkipBlanks(line[10..]));
    assert line == line[..10] + line[10..] && line[..10] == "published:";
    Regroup("published:", b, q + Long(line).value);
    Regroup("published:" + b, q, Long(line).value);
  }

  lemma ShortRead(b: string, q: string, a: string, s: string)
    requires Blanks(b) && Quote(q) && Address(a) && s != "" && (s[0] == '$' || '0' <= s[0] <= '9')
    ensures Item(ShortLine(b, q, a, s)) == Some(a + s)
    ensures a != "" ==> AfterAddress(a + s) == Some(s)
  {
    hide Item, AfterAddress;
    assert a + s != "" && (a + s)[0] == if a == "" then s[0] else a[0];
    ItemRead(b, q, a + s);
    Regroup("-" + b + q, a, s);
    if a != "" {
      AddressSkipped(a, s);
    }
  }

  lemma RefStarts(s: string, d: string)
    ensures VarRef(s, d) ==> s != "" && s[0] == '$'
    ensures PairRef(s, d) || PortRef(s, d) ==> s != "" && '0' <= s[0] <= '9'
  {
    if VarRef(s, d) {
      VarTailIs(s, d);
      hide VarRef, Spelled;
    }
  }

  /** A line is taken for a variable exactly when it is spelled as one. */
  lemma VarLineIs(line: string, d: string)
    ensures MatchVar(line) == Some(d) <==> VarLine(line, d)
  {
    hide Item, Long, AfterAddress, VarTail, VarRef, ShortLine, LongLine, Blanks, Quote, Address;
    if MatchVar(line) == Some(d) {
      VarLineBack(line, d);
    }
    if b, q, a, s :| Blanks(b) && Quote(q) && Address(a) && VarRef(s, d) && line == ShortLine(b, q, a, s) {
      ShortVar(b, q, a, s, d);
    }
    if b, q, s :| Blanks(b) && Quote(q) && VarRef(s, d) && line == LongLine(b, q, s) {
      RefStarts(s, d);
      LongRead(b, q, s);
      VarTailIs(s, d);
    }
  }

  lemma ShortVar(b: string, q: string, a: string, s: string, d: string)
    requires Blanks(b) && Quote(q) && Address(a) && VarRef(s, d)
    ensures MatchVar(ShortLine(b, q, a, s)) == Some(d)
  {
    hide Item, AfterAddress, VarTail, VarRef, ShortLine, Address;
    RefStarts(s, d);
    ShortRead(b, q, a, s);
    VarTailIs(s, d);
    if a == "" {
      assert a + s == s;
      NoAddress(s);
    }
  }

  lemma VarLineBack(line: string, d: string)
    requires MatchVar(line) == Some(d)
    ensures VarLine(line, d)
  {
    hide Item, Long, AfterAddress, VarTail, VarRef, LongLine, Blanks, Quote, Address;
    if Item(line).Some? {
      var b, q := ReadItem(line);
      var x := Item(line).value;
      var a := "";
      if AfterAddress(x).Some? {
        a := AddressBefore(x);
      } else {
        EmptyAddress(x);
      }
      var s := if AfterAddress(x).Some? then AfterAddress(x).value else x;
      VarTailIs(s, d);
      Regroup("-" + b + q, a, s);
      assert line == ShortLine(b, q, a, s);
    } else {
      var b, q := ReadLong(line);
      VarTailIs(Long(line).value, d);
    }
  }

  lemma EmptyAddress(x: string)
    ensures Address("") && "" + x == x
  {
  }

  /** A line is taken for a fixed port exactly when it is spelled as one. */
  lemma FixedLineIs(line: string, host: string)
    ensures MatchFixed(line) == Some(host) <==> FixedLine(line, host)
  {
    hide Item, Long, AfterAddress, PairTail, BarePort, PairRef, PortRef, ShortLine, LongLine, Blanks, Quote, Address;
    if MatchFixed(line) == Some(host) {
      FixedLineBack(line, host);
    }
    if b, q, a, s :| Blanks(b) && Quote(q) && Address(a) && PairRef(s, host) && line == ShortLine(b, q, a, s) {
      ShortFixed(b, q, a, s, host);
    }
    if b, q, s :| Blanks(b) && Quote(q) && PortRef(s, host) && line == LongLine(b, q, s) {
      RefStarts(s, host);
      LongRead(b, q, s);
      BarePortIs(s, host);
    }
  }

  lemma ShortFixed(b: string, q: string, a: string, s: string, host: string)
    requires Blanks(b) && Quote(q) && Address(a) && PairRef(s, host)
    ensures MatchFixed(ShortLine(b, q, a, s)) == Some(host)
  {
    hide Item, AfterAddress, PairTail, PairRef, ShortLine, Address;
    RefStarts(s, host);
    ShortRead(b, q, a, s);
    PairTailIs(s, host);
    if a == "" {
      assert a + s == s;
      PairHasNoAddress(s, host);
    }
  }

  /** What stands behind the colon of a pair is no pair itself. */
  lemma PairHasNoAddress(s: string, host: string)
    requires PairRef(s, host)
    ensures AfterAddress(s).Some? ==> PairTail(AfterAddress(s).value) == None
    ensures AfterAddress(s).Some? ==> VarTail(AfterAddress(s).value) == None
  {
    var container, protocol, quote :|
      Digits(container) && 1 <= |container| <= 5
      && (protocol == "" || protocol == "/tcp" || protocol == "/udp") && Quote(quote)
      && s == host + ":" + container + protocol + quote;
    var c := protocol + quote;
    var a := host + ":";
    hide AfterAddress, PairTail, VarTail, PairRef;
    ClosingCut(protocol, quote);
    HostIsAddress(host);
    hide Address, Digits, Closing, Quote;
    PairGroups(host, container, protocol, quote);
    assert s == a + (container + c);
    AddressSkipped(a, container + c);
    ContainerAlone(container, c);
  }

  lemma HostIsAddress(host: string)
    requires Digits(host) && host != ""
    ensures Address(host + ":")
  {
  }

  lemma ContainerAlone(container: string, c: string)
    requires Digits(container) && container != "" && Closing(c) && (c == "" || !('0' <= c[0] <= '9'))
    ensures PairTail(container + c) == None && VarTail(container + c) == None
  {
    hide DigitRun, ContainerPort, NumberTail, After;
    DigitsRun(container, c);
    assert c != "" ==> (container + c)[|container|] == c[0];
  }

  lemma FixedLineBack(line: string, host: string)
    requires MatchFixed(line) == Some(host)
    ensures FixedLine(line, host)
  {
    hide Item, Long, AfterAddress, PairTail, PairRef, BarePort, PortRef, LongLine, Blanks, Quote, Address;
    if Item(line).Some? {
      var b, q := ReadItem(line);
      var x := Item(line).value;
      var a := "";
      var s := x;
      EmptyAddress(x);
      if AfterAddress(x).Some? && PairTail(AfterAddress(x).value).Some? {
        a := AddressBefore(x);
        s := AfterAddress(x).value;
      }
      PairTailIs(s, host);
      Regroup("-" + b + q, a, s);
      assert line == ShortLine(b, q, a, s);
    } else {
      var b, q := ReadLong(line);
      BarePortIs(Long(line).value, host);
    }
  }

  /** No line is both. */
  lemma NotBoth(line: string, d: string, host: string)
    ensures !(VarLine(line, d) && FixedLine(line, host))
  {
    hide Item, Long, AfterAddress, PairTail, VarTail, BarePort, VarLine, FixedLine, VarRef, PairRef, PortRef;
    VarLineIs(line, d);
    FixedLineIs(line, host);
    if MatchVar(line) == Some(d) && MatchFixed(line) == Some(host) {
      if Item(line).Some? {
        var x := Item(line).value;
        var s := if AfterAddress(x).Some? then AfterAddress(x).value else x;
        VarTailIs(s, d);
        RefStarts(s, d);
        PairTailIs(s, host);
        RefStarts(s, host);
        PairTailIs(x, host);
        if PairTail(x) == Some(host) {
          RefStarts(x, host);
          PairHasNoAddress(x, host);
        }
      } else {
        VarTailIs(Long(line).value, d);
        RefStarts(Long(line).value, d);
        BarePortIs(Long(line).value, host);
        RefStarts(Long(line).value, host);
      }
    }
  }

  // ---- what a line publishes ----

  /** The slot a variable stands for: the number behind it, 1 when there is none. */
  ghost predicate SlotDigits(d: string, n: int) {
    if d == "" then n == 1 else Digits(d) && n == Atoi(d)
  }

  /** A line publishes slot n exactly when it is spelled with that number and n is one of 1 to 5; with
      any other number it is refused, and no other line is. */
  lemma SlotPublished(line: string, n: nat)
    ensures Publishes(line) == Slot(n) <==> 1 <= n <= 5 && exists d :: VarLine(line, d) && SlotDigits(d, n)
    ensures Publishes(line) == BadSlot <==> exists d :: VarLine(line, d) && d != "" && Digits(d) && !(1 <= Atoi(d) <= 5)
  {
    hide MatchVar, MatchFixed, VarLine, Atoi;
    forall d ensures MatchVar(line) == Some(d) <==> VarLine(line, d) {
      VarLineIs(line, d);
    }
    if MatchVar(line).Some? {
      var d := MatchVar(line).value;
      assert VarLine(line, d) && Digits(d);
    }
  }

  /** A line publishes a fixed port exactly when it is spelled with its digits and it is a port. */
  lemma FixedPublished(line: string, p: nat)
    ensures Publishes(line) == Fixed(p)
            <==> 0 < p <= 65535 && exists host :: FixedLine(line, host) && Digits(host) && Atoi(host) == p
  {
    hide MatchVar, MatchFixed, VarLine, FixedLine, Atoi;
    forall host ensures MatchFixed(line) == Some(host) <==> FixedLine(line, host) {
      FixedLineIs(line, host);
    }
    forall d, host ensures !(VarLine(line, d) && FixedLine(line, host)) {
      NotBoth(line, d, host);
    }
    if MatchVar(line).Some? {
      VarLineIs(line, MatchVar(line).value);
    }
    if MatchFixed(line).Some? {
      assert FixedLine(line, MatchFixed(line).value) && Digits(MatchFixed(line).value);
    }
  }

  // ---- a line in its file ----

  function Spaces(k: nat): string {
    seq(k, _ => ' ')
  }

  predicate AllSpace(s: string) {
    forall i :: 0 <= i < |s| ==> IsSpace(s[i])
  }

  /** A line with nothing to trim that is no comment and holds none. */
  predicate Plain(line: string) {
    && line != "" && Trimmed(line) && line[0] != '#'
    && forall i :: 0 <= i < |line| - 1 ==> !(line[i] == ' ' && line[i + 1] == '#')
  }

  /** The line indented by k, with blanks behind it and perhaps a comment. */
  ghost predicate Written(raw: string, k: nat, line: string) {
    exists gap, comment ::
      AllSpace(gap) && (comment == "" || HasPrefix(comment, " #")) && raw == Spaces(k) + line + gap + comment
  }

  lemma {:induction false} LeftTrimmed(b: string, s: string)
    requires AllSpace(b) && s != "" && !IsSpace(s[0])
    ensures TrimLeftSpace(b + s) == s
  {
    if b == "" {
      assert b + s == s;
    } else {
      assert (b + s)[1..] == b[1..] + s;
      LeftTrimmed(b[1..], s);
    }
  }

  lemma {:induction false} RightTrimmed(s: string, b: string)
    requires AllSpace(b) && s != "" && !IsSpace(s[|s| - 1])
    ensures TrimRightSpace(s + b) == s
    decreases |b|
  {
    if b == "" {
      assert s + b == s;
    } else {
      assert (s + b)[..|s + b| - 1] == s + b[..|b| - 1];
      RightTrimmed(s, b[..|b| - 1]);
    }
  }

  lemma {:induction false} IndentIs(k: nat, s: string)
    requires s == "" || s[0] != ' '
    ensures Indent(Spaces(k) + s) == k
  {
    if k == 0 {
      assert Spaces(k) + s == s;
    } else {
      assert (Spaces(k) + s)[1..] == Spaces(k - 1) + s;
      IndentIs(k - 1, s);
    }
  }

  lemma {:induction false} CommentIs(s: string, i: nat)
    requires i + 1 < |s| && s[i] == ' ' && s[i + 1] == '#'
    requires forall j :: 0 <= j < i ==> !(s[j] == ' ' && s[j + 1] == '#')
    ensures CommentAt(s) == i
  {
    if i > 0 {
      assert forall j :: 0 <= j < |s| - 1 ==> s[1..][j] == s[j + 1];
      assert !(s[0] == ' ' && s[1] == '#');
      CommentIs(s[1..], i - 1);
    }
  }

  lemma {:induction false} NoComment(s: string)
    requires forall j :: 0 <= j < |s| - 1 ==> !(s[j] == ' ' && s[j + 1] == '#')
    ensures CommentAt(s) == |s|
  {
    if |s| >= 2 {
      assert forall j :: 0 <= j < |s| - 1 ==> s[1..][j] == s[j + 1];
      assert !(s[0] == ' ' && s[1] == '#');
      NoComment(s[1..]);
    }
  }

  /** What the scanner takes the line for is the line: the blanks around it and the comment behind it
      make no difference. */
  lemma WrittenIs(raw: string, k: nat, line: string)
    requires Plain(line) && Written(raw, k, line)
    ensures Clean(raw) == line && Indent(raw) == k && !BlankOrComment(raw)
  {
    hide TrimSpace, Clean, Indent, IsSpace;
    var gap, comment :|
      AllSpace(gap) && (comment == "" || HasPrefix(comment, " #")) && raw == Spaces(k) + line + gap + comment;
    SpacesTrimmed(raw, k, line, gap, comment);
    if comment == "" {
      WithoutComment(raw, line);
    } else {
      WithComment(raw, line, gap, comment);
    }
    LineIndent(raw, k, line, gap + comment);
  }

  lemma LineIndent(raw: string, k: nat, line: string, more: string)
    requires line != "" && Trimmed(line) && raw == Spaces(k) + line + more
    ensures Indent(raw) == k
  {
    assert raw == Spaces(k) + (line + more);
    assert (line + more)[0] == line[0];
    IndentIs(k, line + more);
  }

  lemma SpacesTrimmed(raw: string, k: nat, line: string, gap: string, comment: string)
    requires line != "" && Trimmed(line) && AllSpace(gap) && (comment == "" || HasPrefix(comment, " #"))
    requires raw == Spaces(k) + line + gap + comment
    ensures TrimSpace(raw) == TrimRightSpace(line + gap + comment)
    ensures comment == "" ==> TrimSpace(raw) == line
  {
    hide TrimLeftSpace, TrimRightSpace, IsSpace;
    var body := line + gap + comment;
    assert raw == Spaces(k) + body;
    assert body[0] == line[0];
    SpacesAreSpace(k);
    LeftTrimmed(Spaces(k), body);
    if comment == "" {
      assert body == line + gap;
      RightTrimmed(line, gap);
    }
  }

  lemma SpacesAreSpace(k: nat)
    ensures AllSpace(Spaces(k))
  {
  }

  lemma WithoutComment(raw: string, line: string)
    requires Plain(line) && TrimSpace(raw) == line
    ensures Clean(raw) == line && !BlankOrComment(raw)
  {
    hide TrimSpace;
    NoComment(line);
  }

  lemma WithComment(raw: string, line: string, gap: string, comment: string)
    requires Plain(line) && AllSpace(gap) && HasPrefix(comment, " #")
    requires TrimSpace(raw) == TrimRightSpace(line + gap + comment)
    ensures Clean(raw) == line && !BlankOrComment(raw)
  {
    hide TrimLeftSpace, TrimRightSpace, TrimSpace, IsSpace;
    var front := line + gap;
    var body := front + comment;
    var i := |front|;
    var r := TrimRightSpace(body);
    assert body[i] == ' ' && body[i + 1] == '#';
    HashIsSolid();
    TrimRightSpaceKeeps(body, i + 1);
    TrimRightSpaceLaw(body);
    assert r[..i] == front && r[i] == ' ' && r[i + 1] == '#' && r[0] == line[0];
    FrontHasNone(line, gap);
    assert forall j :: 0 <= j < i ==> r[j] == front[j];
    CommentIs(r, i);
    FrontTrimmed(line, gap);
  }

  lemma HashIsSolid()
    ensures !IsSpace('#') && IsSpace(' ')
  {
  }

  lemma FrontTrimmed(line: string, gap: string)
    requires line != "" && Trimmed(line) && AllSpace(gap)
    ensures TrimSpace(line + gap) == line
  {
    hide IsSpace;
    EmptyIsSpace();
    LeftTrimmed("", line + gap);
    assert "" + (line + gap) == line + gap;
    RightTrimmed(line, gap);
  }

  lemma EmptyIsSpace()
    ensures AllSpace("")
  {
  }

  lemma FrontHasNone(line: string, gap: string)
    requires Plain(line) && AllSpace(gap)
    ensures var front := line + gap; forall j :: 0 <= j < |front| - 1 ==> !(front[j] == ' ' && front[j + 1] == '#')
  {
    var front := line + gap;
    forall j | 0 <= j < |front| - 1 ensures !(front[j] == ' ' && front[j + 1] == '#') {
      if j >= |line| - 1 {
        assert front[j + 1] == gap[j + 1 - |line|];
      }
    }
  }

  /** An indented line publishes what it says, whatever blanks and comment are written around it. */
  lemma WrittenPublishes(raw: string, k: nat, line: string)
    requires Plain(line) && Written(raw, k, line) && k > 0
    ensures PublishedAt(raw) == Publishes(line)
  {
    hide Publishes, Clean, Plain, Written, BlankOrComment, Indent;
    WrittenIs(raw, k, line);
  }

  // ---- ports as they are written ----

  /** A variable published in the short form, - "127.0.0.1:${PORT_2}:80", or the long, published: "${PORT_2}". */
  function PrintedVar(long: bool, blanks: string, quote: string, address: string, brace: bool, alias: bool, d: string,
                      c: nat): string {
    var v := Spelled(brace, alias, d) + if brace then "}" else "";
    if long then LongLine(blanks, quote, v + quote) else ShortLine(blanks, quote, address, v + (":" + Itoa(c) + quote))
  }

  /** A fixed port in the short form, - 127.0.0.1:8080:80/tcp, or the long, published: 8080. */
  function PrintedFixed(long: bool, blanks: string, quote: string, address: string, p: nat, c: nat, protocol: string)
    : string
  {
    if long then LongLine(blanks, quote, Itoa(p) + quote)
    else ShortLine(blanks, quote, address, Itoa(p) + ":" + Itoa(c) + protocol + quote)
  }

  /** A character that neither is trimmed nor starts a comment. */
  predicate Solid(c: char) {
    !IsSpace(c) && c != '#'
  }

  predicate AllSolid(s: string) {
    forall i :: 0 <= i < |s| ==> Solid(s[i])
  }

  lemma SolidAppend(a: string, b: string)
    ensures AllSolid(a) && AllSolid(b) ==> AllSolid(a + b)
  {
  }

  lemma SolidMarks()
    ensures AllSolid("") && AllSolid("}") && AllSolid(":") && Solid('-') && Solid('p')
  {
  }

  lemma SolidChars(s: string)
    ensures Quote(s) || Digits(s) || Protocol(s) ==> AllSolid(s)
    ensures AllSolid(s) || Blanks(s) || Address(s) ==> '#' !in s
  {
  }

  lemma SpelledSolid(brace: bool, alias: bool, d: string)
    requires Digits(d)
    ensures AllSolid(Spelled(brace, alias, d))
  {
    SolidChars(d);
    assert AllSolid(Word(alias)) && AllSolid(Name(brace, alias)) && AllSolid(Number(d));
  }

  /** A printed line has no comment in it and nothing to trim. */
  lemma ShortPlain(b: string, q: string, a: string, s: string)
    requires Blanks(b) && Quote(q) && Address(a) && s != "" && AllSolid(s)
    ensures Plain(ShortLine(b, q, a, s))
  {
    hide Blanks, Quote, Address, AllSolid, Solid, Plain;
    SolidChars(b);
    SolidChars(q);
    SolidChars(a);
    SolidMarks();
    HeadPlain("-", b + q + a, s);
    assert "-" + (b + q + a) + s == ShortLine(b, q, a, s);
  }

  lemma LongPlain(b: string, q: string, s: string)
    requires Blanks(b) && Quote(q) && s != "" && AllSolid(s)
    ensures Plain(LongLine(b, q, s))
  {
    hide Blanks, Quote, AllSolid, Solid, Plain;
    SolidChars(b);
    SolidChars(q);
    SolidMarks();
    HeadPlain("published:", b + q, s);
    assert "published:" + (b + q) + s == LongLine(b, q, s);
  }

  lemma HeadPlain(head: string, middle: string, s: string)
    requires head != "" && Solid(head[0]) && '#' !in head && '#' !in middle && s != "" && AllSolid(s)
    ensures Plain(head + middle + s)
  {
    var line := head + middle + s;
    SolidChars(s);
    assert '#' !in line;
    assert line[0] == head[0] && line[|line| - 1] == s[|s| - 1];
    hide IsSpace;
  }

  lemma NumberDigits(n: nat)
    ensures Digits(Itoa(n)) && Itoa(n) != "" && Atoi(Itoa(n)) == n
  {
    AtoiItoa(n);
  }

  lemma NumberLength(n: nat)
    ensures 10 <= n < 100000 ==> 2 <= |Itoa(n)| <= 5
    ensures n < 100000 ==> 1 <= |Itoa(n)| <= 5
  {
    if n >= 10 {
      OneLonger(n);
      if n >= 100 {
        OneLonger(n / 10);
        if n >= 1000 {
          OneLonger(n / 100);
          if n >= 10000 {
            OneLonger(n / 1000);
          }
        }
      }
    }
  }

  lemma OneLonger(n: nat)
    requires n >= 10
    ensures |Itoa(n)| == |Itoa(n / 10)| + 1
    ensures n / 10 < 10 ==> |Itoa(n / 10)| == 1
    ensures n / 10 / 10 == n / 100 && n / 100 / 10 == n / 1000
  {
  }

  /** What comes behind a variable ends its word, whatever the form. */
  lemma Behind(brace: bool, long: bool, quote: string, c: nat) returns (rest: string)
    requires Quote(quote)
    ensures rest == (if brace then "}" else "") + if long then quote else ":" + Itoa(c) + quote
    ensures WordEnds(rest) && AllSolid(rest)
  {
    rest := (if brace then "}" else "") + if long then quote else ":" + Itoa(c) + quote;
    assert WordEnds(rest);
    hide Itoa, IsSpace, AllSolid, Quote, Digits, Solid, WordEnds;
    SolidMarks();
    SolidChars(quote);
    NumberDigits(c);
    SolidChars(Itoa(c));
    SolidAppend(":", Itoa(c));
    SolidAppend(":" + Itoa(c), quote);
    SolidAppend(if brace then "}" else "", if long then quote else ":" + Itoa(c) + quote);
  }

  /** Every spelling of a slot publishes it: with braces or without, with XDEV_ or without, quoted or not,
      behind an address or not, in either form, for any container port; the name without a number stands for
      slot 1; and what is written around the line makes no difference. */
  lemma VarPublished(raw: string, k: nat, n: nat, d: string, long: bool, blanks: string, quote: string,
                     address: string, brace: bool, alias: bool, c: nat)
    requires 1 <= n <= 5 && (d == Itoa(n) || (d == "" && n == 1))
    requires Blanks(blanks) && Quote(quote) && Address(address)
    requires k > 0 && Written(raw, k, PrintedVar(long, blanks, quote, address, brace, alias, d, c))
    ensures PublishedAt(raw) == Slot(n)
  {
    hide Itoa, Atoi, Written, Spelled, Publishes, PublishedAt, Plain, Blanks, Quote, Address, Digits, Solid, ShortLine,
         LongLine, VarLine, WordEnds, AllSolid, SlotDigits;
    var line := PrintedVar(long, blanks, quote, address, brace, alias, d, c);
    NumberDigits(n);
    EmptyDigits();
    SpelledSolid(brace, alias, d);
    var rest := Behind(brace, long, quote, c);
    var s := Spelled(brace, alias, d) + rest;
    Regroup(Spelled(brace, alias, d), if brace then "}" else "", if long then quote else ":" + Itoa(c) + quote);
    assert line == if long then LongLine(blanks, quote, s) else ShortLine(blanks, quote, address, s);
    assert VarRef(s, d);
    RefStarts(s, d);
    SolidAppend(Spelled(brace, alias, d), rest);
    ShortPlain(blanks, quote, address, s);
    LongPlain(blanks, quote, s);
    VarLineMade(blanks, quote, address, s, d);
    WrittenPublishes(raw, k, line);
    DigitsOfSlot(d, n);
    SlotPublished(line, n);
  }

  lemma DigitsOfSlot(d: string, n: nat)
    requires d == Itoa(n) || (d == "" && n == 1)
    ensures SlotDigits(d, n)
  {
    NumberDigits(n);
  }

  lemma EmptyDigits()
    ensures Digits("")
  {
  }

  lemma VarLineMade(b: string, q: string, a: string, s: string, d: string)
    requires Blanks(b) && Quote(q) && Address(a) && VarRef(s, d)
    ensures VarLine(ShortLine(b, q, a, s), d) && VarLine(LongLine(b, q, s), d)
  {
  }

  lemma FixedLineMade(b: string, q: string, a: string, s: string, host: string)
    requires Blanks(b) && Quote(q) && Address(a)
    ensures PairRef(s, host) ==> FixedLine(ShortLine(b, q, a, s), host)
    ensures PortRef(s, host) ==> FixedLine(LongLine(b, q, s), host)
  {
  }

  /** And every spelling of a fixed port publishes that port. */
  lemma FixedIsPublished(raw: string, k: nat, p: nat, long: bool, blanks: string, quote: string, address: string,
                         c: nat, protocol: string)
    requires 10 <= p <= 65535 && c <= 99999
    requires Blanks(blanks) && Quote(quote) && Address(address)
    requires protocol == "" || protocol == "/tcp" || protocol == "/udp"
    requires k > 0 && Written(raw, k, PrintedFixed(long, blanks, quote, address, p, c, protocol))
    ensures PublishedAt(raw) == Fixed(p)
  {
    hide Itoa, Atoi, Written, Publishes, PublishedAt, Plain, Blanks, Quote, Address, Digits, Solid, ShortLine, LongLine,
         FixedLine, PairRef, PortRef, AllSolid;
    var line := PrintedFixed(long, blanks, quote, address, p, c, protocol);
    var host := Itoa(p);
    NumberDigits(p);
    NumberLength(p);
    NumberDigits(c);
    NumberLength(c);
    var s := if long then host + quote else host + ":" + Itoa(c) + protocol + quote;
    PrintedRef(host, Itoa(c), protocol, quote);
    ShortPlain(blanks, quote, address, s);
    LongPlain(blanks, quote, s);
    FixedLineMade(blanks, quote, address, s, host);
    WrittenPublishes(raw, k, line);
    FixedPublished(line, p);
  }

  lemma PrintedRef(host: string, container: string, protocol: string, quote: string)
    requires Digits(host) && 2 <= |host| <= 5 && Digits(container) && 1 <= |container| <= 5
    requires Protocol(protocol) && Quote(quote)
    ensures PairRef(host + ":" + container + protocol + quote, host) && PortRef(host + quote, host)
    ensures AllSolid(host + ":" + container + protocol + quote) && AllSolid(host + quote)
  {
    hide Digits, Quote, Solid, AllSolid, IsSpace;
    SolidMarks();
    SolidChars(host);
    SolidChars(container);
    SolidChars(protocol);
    SolidChars(quote);
    SolidAppend(host, quote);
    SolidAppend(host, ":");
    SolidAppend(host + ":", container);
    SolidAppend(host + ":" + container, protocol);
    SolidAppend(host + ":" + container + protocol, quote);
  }

  // ---- a stack written out and read back ----

  /** A name the scanner takes for a service key. */
  predicate KeyName(name: string) {
    name != "" && forall i :: 0 <= i < |name| ==> KeyChar(name[i])
  }

  function Entry(p: ComposePort, c: nat): string {
    if p.slot > 0 then PrintedVar(false, " ", "\"", "", true, false, Itoa(p.slot), c)
    else PrintedFixed(false, " ", "\"", "", p.port, c, "")
  }

  /** A compose file with a service for every port, which publishes it to a container port of its own. */
  function StackLines(ports: seq<ComposePort>, containers: seq<nat>): seq<string>
    requires |containers| == |ports|
  {
    if ports == [] then ["services:"]
    else
      var n := |ports| - 1;
      StackLines(ports[..n], containers[..n])
      + [Spaces(2) + (ports[n].service + ":"), Spaces(4) + "ports:", Spaces(6) + Entry(ports[n], containers[n])]
  }

  /** Ports that can be written: of two digits or more where they are fixed, under a service's name. */
  ghost predicate Writable(ports: seq<ComposePort>, containers: seq<nat>) {
    && WellFormed(ports) && |containers| == |ports|
    && (forall i :: 0 <= i < |ports| ==>
          KeyName(ports[i].service) && (ports[i].slot == 0 ==> ports[i].port >= 10) && containers[i] <= 99999)
  }

  lemma RunSnoc(lines: seq<string>, raw: string)
    ensures Run(lines + [raw]) == if Run(lines).Some? then Step(Run(lines).value, raw) else None
  {
    assert (lines + [raw])[..|lines|] == lines;
  }

  lemma Alone(k: nat, line: string)
    ensures Written(Spaces(k) + line, k, line)
  {
    var gap, comment := "", "";
    assert !HasPrefix(comment, " #");
    assert AllSpace(gap) && comment == "" && Spaces(k) + line == Spaces(k) + line + gap + comment;
  }

  lemma KeyStep(s: Scan, name: string)
    requires s.inServices && (s.level == None || s.level == Some(2)) && KeyName(name)
    ensures Step(s, Spaces(2) + (name + ":")) == Some(s.(level := Some(2), service := name))
  {
    hide Clean, Indent, BlankOrComment, Publishes, Written, Plain;
    var line := name + ":";
    KeyPlain(name);
    Alone(2, line);
    WrittenIs(Spaces(2) + line, 2, line);
    assert line[..|line| - 1] == name;
  }

  lemma KeyPlain(name: string)
    requires KeyName(name)
    ensures Plain(name + ":")
  {
    assert '#' !in name;
    assert '#' !in name + ":";
  }

  lemma PortsStep(s: Scan)
    requires s.inServices && s.level == Some(2)
    ensures Step(s, Spaces(4) + "ports:") == Some(s)
  {
    hide Clean, Indent, BlankOrComment, Publishes, Written, Plain, MatchKey;
    assert "ports:" == "ports" + ":" && KeyName("ports");
    KeyPlain("ports");
    Alone(4, "ports:");
    WrittenIs(Spaces(4) + "ports:", 4, "ports:");
    PortsKey();
    KeyPublishesNothing("ports:");
  }

  lemma PortsKey()
    ensures MatchKey("ports:").Some?
  {
  }

  lemma EntryPublishes(p: ComposePort, c: nat)
    requires c <= 99999 && if p.slot > 0 then p.slot <= 5 else 10 <= p.port <= 65535
    ensures PublishedAt(Spaces(6) + Entry(p, c)) == if p.slot > 0 then Slot(p.slot) else Fixed(p.port)
  {
    hide PublishedAt, Written, PrintedVar, PrintedFixed, Itoa;
    Alone(6, Entry(p, c));
    assert Blanks(" ") && Quote("\"") && Address("");
    if p.slot > 0 {
      VarPublished(Spaces(6) + Entry(p, c), 6, p.slot, Itoa(p.slot), false, " ", "\"", "", true, false, c);
    } else {
      FixedIsPublished(Spaces(6) + Entry(p, c), 6, p.port, false, " ", "\"", "", c, "");
    }
  }

  lemma StartStep()
    ensures Run(["services:"]) == Some(Scan("", true, None, []))
  {
    hide Clean, Indent, BlankOrComment, Publishes, Written, Plain, MatchKey;
    assert "services:" == "services" + ":" && KeyName("services");
    KeyPlain("services");
    Alone(0, "services:");
    assert Spaces(0) + "services:" == "services:";
    WrittenIs("services:", 0, "services:");
    assert [] + ["services:"] == ["services:"];
    RunSnoc([], "services:");
  }

  lemma WritableInit(ports: seq<ComposePort>, containers: seq<nat>)
    requires Writable(ports, containers) && ports != []
    ensures var n := |ports| - 1;
      && Writable(ports[..n], containers[..n])
      && (ports[n].slot > 0 ==> !HasSlot(ports[..n], ports[n].slot) && ports[n].slot <= 5 && ports[n].port == 0)
      && (ports[n].slot == 0 ==> !HasPort(ports[..n], ports[n].port) && 10 <= ports[n].port <= 65535)
  {
  }

  /** Reading back a stack that was written out gives its ports, in their order, each with the service it
      was written under. */
  lemma {:induction false} StackReadBack(ports: seq<ComposePort>, containers: seq<nat>)
    requires Writable(ports, containers)
    ensures Run(StackLines(ports, containers)).Some?
    ensures var s := Run(StackLines(ports, containers)).value;
      s.out == ports && s.inServices && s.level == if ports == [] then None else Some(2)
    decreases |ports|
  {
    hide Run, Step, Entry, WellFormed, PublishedAt, HasSlot, HasPort;
    if ports == [] {
      StartStep();
    } else {
      var n := |ports| - 1;
      var p, c := ports[n], containers[n];
      WritableInit(ports, containers);
      StackReadBack(ports[..n], containers[..n]);
      var lines := StackLines(ports[..n], containers[..n]);
      var key, list, entry := Spaces(2) + (p.service + ":"), Spaces(4) + "ports:", Spaces(6) + Entry(p, c);
      var s := Run(lines).value;
      RunSnoc(lines, key);
      KeyStep(s, p.service);
      var s' := s.(level := Some(2), service := p.service);
      RunSnoc(lines + [key], list);
      PortsStep(s');
      RunSnoc(lines + [key] + [list], entry);
      EntryPublishes(p, c);
      StepAdds(s', entry);
      assert lines + [key] + [list] + [entry] == StackLines(ports, containers);
      assert ports == ports[..n] + [p];
    }
  }

  // ---- line ends ----

  /** The text with every newline written in another way. */
  function Ended(s: string, end: string): string {
    if s == "" then "" else (if s[0] == '\n' then end else [s[0]]) + Ended(s[1..], end)
  }

  lemma {:induction false} EndedRead(s: string, end: string)
    requires '\r' !in s && (end == "\n" || end == "\r\n" || end == "\r")
    ensures Newlines(Ended(s, end)) == s
    ensures end == "\r" && s != "" ==> Ended(s, end) != "" && Ended(s, end)[0] != '\n'
  {
    if s != "" {
      var rest := Ended(s[1..], end);
      EndedRead(s[1..], end);
      if s[0] == '\n' && end == "\r\n" {
        assert (end + rest)[2..] == rest;
      } else if s[0] == '\n' && end == "\r" {
        assert (end + rest)[1..] == rest;
        assert s[1..] == "" ==> rest == "";
      } else {
        assert Ended(s, end) == [s[0]] + rest;
      }
    }
  }

  /** A file reads the same with any line ends, and with or without a byte order mark. */
  lemma AnyLineEnds(s: string, end: string)
    requires '\r' !in s && (end == "\n" || end == "\r\n" || end == "\r")
    requires s != "" && s[0] != '\U{feff}'
    ensures Normalize(Ended(s, end)) == s && Normalize("\U{feff}" + Ended(s, end)) == s
  {
    EndedRead(s, end);
    assert Ended(s, end) != "" && Ended(s, end)[0] != '\U{feff}';
    assert ("\U{feff}" + Ended(s, end))[1..] == Ended(s, end);
  }

  predicate OneLine(s: string) {
    '\n' !in s && '\r' !in s
  }

  lemma SolidIsOneLine(s: string)
    ensures AllSolid(s) ==> OneLine(s)
  {
    assert IsSpace('\n') && IsSpace('\r');
  }

  lemma KeyIsOneLine(name: string)
    requires KeyName(name)
    ensures OneLine(Spaces(2) + (name + ":")) && OneLine(Spaces(4) + "ports:")
  {
    assert OneLine(name) && OneLine(Spaces(2)) && OneLine(Spaces(4));
  }

  lemma EntryIsOneLine(p: ComposePort, c: nat)
    requires c <= 99999 && if p.slot > 0 then p.slot <= 5 else 10 <= p.port <= 65535
    ensures OneLine(Spaces(6) + Entry(p, c))
  {
    assert OneLine(Spaces(6)) && Quote("\"");
    hide Itoa, Spelled, Solid, AllSolid, Digits, Quote;
    NumberDigits(c);
    NumberLength(c);
    var s;
    if p.slot > 0 {
      NumberDigits(p.slot);
      SpelledSolid(true, false, Itoa(p.slot));
      var rest := Behind(true, false, "\"", c);
      s := Spelled(true, false, Itoa(p.slot)) + rest;
      SolidAppend(Spelled(true, false, Itoa(p.slot)), rest);
      Regroup(Spelled(true, false, Itoa(p.slot)), "}", ":" + Itoa(c) + "\"");
    } else {
      NumberDigits(p.port);
      NumberLength(p.port);
      PrintedRef(Itoa(p.port), Itoa(c), "", "\"");
      s := Itoa(p.port) + ":" + Itoa(c) + "" + "\"";
    }
    SolidIsOneLine(s);
    assert Entry(p, c) == ShortLine(" ", "\"", "", s);
  }

  lemma {:induction false} StackPieces(ports: seq<ComposePort>, containers: seq<nat>)
    requires Writable(ports, containers)
    ensures forall i :: 0 <= i < |StackLines(ports, containers)| ==> OneLine(StackLines(ports, containers)[i])
    ensures StackLines(ports, containers) != [] && StackLines(ports, containers)[0] == "services:"
    decreases |ports|
  {
    hide Entry, WellFormed, HasSlot, HasPort;
    if ports != [] {
      var n := |ports| - 1;
      WritableInit(ports, containers);
      StackPieces(ports[..n], containers[..n]);
      KeyIsOneLine(ports[n].service);
      EntryIsOneLine(ports[n], containers[n]);
    }
  }

  lemma {:induction false} JoinOneLine(lines: seq<string>)
    requires forall i :: 0 <= i < |lines| ==> OneLine(lines[i])
    ensures '\r' !in Join(lines, '\n')
    ensures lines != [] && lines[0] != "" ==> Join(lines, '\n') != "" && Join(lines, '\n')[0] == lines[0][0]
  {
    if |lines| > 1 {
      JoinOneLine(lines[1..]);
    }
  }

  /** So it is with the file as bytes: whatever its line ends, and with or without a byte order mark, the
      scanner reads the ports that were written. */
  lemma StackFile(ports: seq<ComposePort>, containers: seq<nat>, end: string, mark: bool)
    requires Writable(ports, containers) && (end == "\n" || end == "\r\n" || end == "\r")
    ensures var file := (if mark then "\U{feff}" else "") + Ended(Join(StackLines(ports, containers), '\n'), end);
      var read := Run(Split(Normalize(file), '\n'));
      read.Some? && read.value.out == ports
  {
    hide WellFormed, StackLines, Ended, Normalize, Run, Split, Join, OneLine;
    var lines := StackLines(ports, containers);
    var text := Join(lines, '\n');
    StackReadBack(ports, containers);
    StackPieces(ports, containers);
    JoinOneLine(lines);
    AnyLineEnds(text, end);
    assert "" + Ended(text, end) == Ended(text, end);
    OneLinePieces(lines);
    SplitJoin(lines, '\n');
  }

  lemma OneLinePieces(lines: seq<string>)
    requires forall i :: 0 <= i < |lines| ==> OneLine(lines[i])
    ensures Pieces(lines, '\n')
  {
  }

  // ---- the variables of the env file ----

  /** A line that names a key of the env file. */
  function KeyLine(blanks: string, quote: string, address: string, key: string, c: nat): string {
    ShortLine(blanks, quote, address, "${" + key + "}" + (":" + Itoa(c) + quote))
  }

  lemma KeyIsSpelled(alias: bool, n: nat)
    ensures "${" + Env.Key(alias, n) == Spelled(true, alias, if n == 0 then "" else Itoa(n))
  {
    hide Itoa;
    var d := if n == 0 then "" else Itoa(n);
    NumberDigits(n);
    assert Env.Key(alias, n) == Word(alias) + Number(d);
    assert "${" == "$" + "{";
    assert "${" + (Word(alias) + Number(d)) == "$" + ("{" + Word(alias)) + Number(d);
  }

  /** The two halves meet: a line that publishes a key of the env file publishes the slot of that key, and a
      file that agrees with the ports assigns the key that slot's port. */
  lemma KeyPublished(raw: string, k: nat, blanks: string, quote: string, address: string, alias: bool, n: nat, c: nat,
                     content: string, ports: seq<nat>)
    requires Blanks(blanks) && Quote(quote) && Address(address)
    requires n <= 5 && k > 0 && Written(raw, k, KeyLine(blanks, quote, address, Env.Key(alias, n), c))
    requires n <= |ports| && ports != [] && Env.Agrees(content, ports)
    ensures var slot := if n == 0 then 1 else n;
      PublishedAt(raw) == Slot(slot) && Env.AssignedIn(content, Env.Key(alias, n)) == [Itoa(ports[slot - 1])]
  {
    hide Itoa, Written, Spelled, PublishedAt, Blanks, Quote, Address, ShortLine, Env.AssignedIn, Env.Key;
    var d := if n == 0 then "" else Itoa(n);
    KeyIsSpelled(alias, n);
    assert KeyLine(blanks, quote, address, Env.Key(alias, n), c)
        == PrintedVar(false, blanks, quote, address, true, alias, d, c);
    VarPublished(raw, k, if n == 0 then 1 else n, d, false, blanks, quote, address, true, alias, c);
  }
}
