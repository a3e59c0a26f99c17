/** The published-port scanner (internal/apps/compose.go): which of the managed variables and which
    fixed host ports a compose file publishes, read line by line without a YAML parser. */
module ComposePorts {
  import opened Text
  import opened Wrappers

  const MAX_SLOTS: nat := 5

  /** Slot > 0 is a published ${PORT_n}; a fixed port has slot 0. */
  datatype ComposePort = ComposePort(port: nat, slot: nat, service: string)

  // ---- the line patterns ----

  function SkipBlanks(s: string): string {
    if s != "" && (s[0] == ' ' || s[0] == '\t') then SkipBlanks(s[1..]) else s
  }

  predicate IsQuote(c: char) {
    c == '"' || c == '\''
  }

  function SkipQuote(s: string): string {
    if s != "" && IsQuote(s[0]) then s[1..] else s
  }

  predicate IsWord(c: char) {
    IsDigit(c) || 'A' <= c <= 'Z' || 'a' <= c <= 'z' || c == '_'
  }

  predicate AllDigits(s: string) {
    forall i :: 0 <= i < |s| ==> IsDigit(s[i])
  }

  /** How many digits `s` starts with. */
  function DigitRun(s: string): (k: nat)
    ensures k <= |s| && (forall i :: 0 <= i < k ==> IsDigit(s[i])) && (k < |s| ==> !IsDigit(s[k]))
  {
    if s != "" && IsDigit(s[0]) then 1 + DigitRun(s[1..]) else 0
  }

  /** How many digits and dots. */
  function AddressRun(s: string): (k: nat)
    ensures k <= |s|
  {
    if s != "" && (IsDigit(s[0]) || s[0] == '.') then 1 + AddressRun(s[1..]) else 0
  }

  predicate Boundary(s: string) {
    s == "" || !IsWord(s[0])
  }

  function After(s: string, p: string): string {
    if HasPrefix(s, p) then s[|p|..] else s
  }

  /** What follows PORT up to the end of the word: the digits after an underscore, or nothing. */
  function NumberTail(u: string): (r: Option<string>)
    ensures r.Some? ==> AllDigits(r.value)
  {
    if HasPrefix(u, "_") && DigitRun(u[1..]) > 0 then
      var rest := u[1..];
      var k := DigitRun(rest);
      if Boundary(rest[k..]) then Some(rest[..k]) else None
    else if Boundary(u) then Some("")
    else None
  }

  /** $PORT, ${XDEV_PORT_2} and the like, up to the end of the word: the digits after the underscore,
      "" when there are none. */
  function VarTail(s: string): (r: Option<string>)
    ensures r.Some? ==> s != "" && s[0] == '$' && AllDigits(r.value)
  {
    if !HasPrefix(s, "$") then None
    else
      var t := After(After(s[1..], "{"), "XDEV_");
      if HasPrefix(t, "PORT") then NumberTail(t[4..]) else None
  }

  predicate Protocol(s: string) {
    s == "" || s == "/tcp" || s == "/udp"
  }

  /** What may stand behind a container port: an optional protocol and an optional quote. */
  predicate Closing(s: string) {
    Protocol(s) || (s != "" && IsQuote(s[|s| - 1]) && Protocol(s[..|s| - 1]))
  }

  predicate ContainerPort(s: string) {
    1 <= DigitRun(s) <= 5 && Closing(s[DigitRun(s)..])
  }

  /** The digits of a host port that a container port follows. */
  function PairTail(s: string): (r: Option<string>)
    ensures r.Some? ==> |r.value| + 1 < |s| && s[|r.value|] == ':' && AllDigits(r.value)
  {
    var k := DigitRun(s);
    if 2 <= k <= 5 && k < |s| && s[k] == ':' && ContainerPort(s[k + 1..]) then Some(s[..k]) else None
  }

  /** The digits of a host port by itself, perhaps with a quote behind it. */
  function BarePort(s: string): (r: Option<string>)
    ensures r.Some? ==> AllDigits(r.value)
  {
    var k := DigitRun(s);
    if 2 <= k <= 5 && (k == |s| || (k + 1 == |s| && IsQuote(s[k]))) then Some(s[..k]) else None
  }

  /** The start of a list item, and of the long form. */
  function Item(line: string): Option<string> {
    if HasPrefix(line, "-") then Some(SkipQuote(SkipBlanks(line[1..]))) else None
  }

  function Long(line: string): Option<string> {
    if HasPrefix(line, "published:") then Some(SkipQuote(SkipBlanks(line[10..]))) else None
  }

  /** What follows an address and a colon, if the item starts with them. */
  function AfterAddress(s: string): Option<string> {
    var k := AddressRun(s);
    if 0 < k < |s| && s[k] == ':' then Some(s[k + 1..]) else None
  }

  function MatchVar(line: string): (r: Option<string>)
    ensures r.Some? ==> AllDigits(r.value)
  {
    if Item(line).Some? then
      var s := Item(line).value;
      VarTail(if AfterAddress(s).Some? then AfterAddress(s).value else s)
    else if Long(line).Some? then VarTail(Long(line).value)
    else None
  }

  function MatchFixed(line: string): (r: Option<string>)
    ensures r.Some? ==> AllDigits(r.value)
  {
    if Item(line).Some? then
      var s := Item(line).value;
      if AfterAddress(s).Some? && PairTail(AfterAddress(s).value).Some? then PairTail(AfterAddress(s).value)
      else PairTail(s)
    else if Long(line).Some? then BarePort(Long(line).value)
    else None
  }

  predicate KeyChar(c: char) {
    IsDigit(c) || 'A' <= c <= 'Z' || 'a' <= c <= 'z' || c == '.' || c == '_' || c == '-'
  }

  function MatchKey(line: string): Option<string> {
    if |line| >= 2 && line[|line| - 1] == ':' && (forall i :: 0 <= i < |line| - 1 ==> KeyChar(line[i]))
    then Some(line[..|line| - 1]) else None
  }

  function VarSlot(suffix: string): Option<nat>
    requires AllDigits(suffix)
  {
    if suffix == "" then Some(1)
    else if 1 <= Atoi(suffix) <= MAX_SLOTS then Some(Atoi(suffix))
    else None
  }

  // ---- one line ----

  datatype Published = Nothing | Slot(n: nat) | BadSlot | Fixed(p: nat)

  function Publishes(line: string): Published {
    match MatchVar(line)
    case Some(suffix) => (match VarSlot(suffix) case Some(n) => Slot(n) case None => BadSlot)
    case None =>
      match MatchFixed(line)
      case Some(digits) => if 0 < Atoi(digits) <= 65535 then Fixed(Atoi(digits)) else Nothing
      case None => Nothing
  }

  /** Where a trailing comment starts, |s| when there is none. */
  function CommentAt(s: string): (i: nat)
    ensures i <= |s|
  {
    if |s| < 2 then |s| else if s[0] == ' ' && s[1] == '#' then 0 else 1 + CommentAt(s[1..])
  }

  /** A line without the blanks around it and without its comment. */
  function Clean(raw: string): string {
    var line := TrimSpace(raw);
    if CommentAt(line) < |line| then TrimSpace(line[..CommentAt(line)]) else line
  }

  /** normalizeYAML. */
  function Newlines(s: string): string {
    if s == "" then ""
    else if s[0] != '\r' then [s[0]] + Newlines(s[1..])
    else "\n" + Newlines(if |s| > 1 && s[1] == '\n' then s[2..] else s[1..])
  }

  function Normalize(s: string): string {
    Newlines(if s != "" && s[0] == '\U{feff}' then s[1..] else s)
  }

  // ---- the scan ----

  /** Where the scanner is: the service it is in, whether inside services:, the indent of its keys, and
      what it found. */
  datatype Scan = Scan(service: string, inServices: bool, level: Option<nat>, out: seq<ComposePort>)

  const START := Scan("", false, None, [])

  predicate HasSlot(ports: seq<ComposePort>, slot: nat) {
    exists i :: 0 <= i < |ports| && ports[i].slot == slot
  }

  predicate HasPort(ports: seq<ComposePort>, port: nat) {
    exists i :: 0 <= i < |ports| && ports[i].slot == 0 && ports[i].port == port
  }

  function Add(s: Scan, p: Published): Option<Scan> {
    match p
    case Nothing => Some(s)
    case BadSlot => None
    case Slot(n) => if HasSlot(s.out, n) then None else Some(s.(out := s.out + [ComposePort(0, n, s.service)]))
    case Fixed(p) => Some(if HasPort(s.out, p) then s else s.(out := s.out + [ComposePort(p, 0, s.service)]))
  }

  function Step(s: Scan, raw: string): Option<Scan> {
    var line, indent := Clean(raw), Indent(raw);
    if BlankOrComment(raw) then Some(s)
    else if indent == 0 then Some(s.(inServices := line == "services:", service := "", level := None))
    else if s.inServices && MatchKey(line).Some? && (s.level == None || s.level == Some(indent)) then
      Some(s.(level := Some(indent), service := MatchKey(line).value))
    else Add(s, Publishes(line))
  }

  function Run(lines: seq<string>): Option<Scan> {
    if lines == [] then Some(START)
    else
      match Run(lines[..|lines| - 1])
      case None => None
      case Some(s) => Step(s, lines[|lines| - 1])
  }

  /** ComposePorts: the scan of the normalised file. */
  method Ports(yaml: string) returns (r: Result<seq<ComposePort>, string>)
    ensures r.Ok? <==> Run(Split(Normalize(yaml), '\n')).Some?
    ensures r.Ok? ==> r.value == Run(Split(Normalize(yaml), '\n')).value.out
  {
    hide Split, Normalize, TrimSpace, Clean, Indent, BlankOrComment, Publishes, MatchKey;
    var lines := Split(Normalize(yaml), '\n');
    var service, inServices, level: Option<nat>, out: seq<ComposePort> := "", false, None, [];
    for i := 0 to |lines|
      invariant Run(lines[..i]) == Some(Scan(service, inServices, level, out))
    {
      assert lines[..i + 1][..i] == lines[..i];
      NoneStays(lines, i + 1);
      var raw := lines[i];
      if BlankOrComment(raw) {
        continue;
      }
      var line, indent := Clean(raw), Indent(raw);
      if indent == 0 {
        inServices, service, level := line == "services:", "", None;
        continue;
      }
      if inServices {
        var m := MatchKey(line);
        if m.Some? {
          if level == None {
            level := Some(indent);
          }
          if level == Some(indent) {
            service := m.value;
            continue;
          }
        }
      }
      match Publishes(line) {
        case BadSlot =>
          return Err("not a domain number xdev can allocate");
        case Slot(n) =>
          if HasSlot(out, n) {
            return Err("compose file publishes a variable twice");
          }
          out := out + [ComposePort(0, n, service)];
        case Fixed(p) =>
          if !HasPort(out, p) {
            out := out + [ComposePort(p, 0, service)];
          }
        case Nothing =>
      }
    }
    assert lines[..|lines|] == lines;
    return Ok(out);
  }

  /** A scan that failed on some lines fails on any more. */
  lemma {:induction false} NoneStays(lines: seq<string>, k: nat)
    requires k <= |lines|
    ensures Run(lines[..k]) == None ==> Run(lines) == None
    decreases |lines|
  {
    hide Step;
    if k < |lines| {
      NoneStays(lines[..|lines| - 1], k);
      assert lines[..|lines| - 1][..k] == lines[..k];
    } else {
      assert lines[..k] == lines;
    }
  }

  // ---- what the result is like ----

  /** Each variable is published once and is one xdev can allocate; each fixed port is listed once and
      is a port. */
  ghost predicate WellFormed(ports: seq<ComposePort>) {
    && (forall i :: 0 <= i < |ports| ==>
          if ports[i].slot > 0 then ports[i].slot <= 5 && ports[i].port == 0 else 1 <= ports[i].port <= 65535)
    && (forall i, j :: 0 <= i < j < |ports| ==> ports[i].slot != ports[j].slot || ports[i].slot == 0)
    && (forall i, j :: 0 <= i < j < |ports| && ports[i].slot == 0 && ports[j].slot == 0
         ==> ports[i].port != ports[j].port)
  }

  lemma AddKeeps(s: Scan, p: Published)
    requires WellFormed(s.out) && Add(s, p).Some?
    requires p.Slot? ==> 1 <= p.n <= MAX_SLOTS
    requires p.Fixed? ==> 1 <= p.p <= 65535
    ensures WellFormed(Add(s, p).value.out)
  {
    if p.Slot? {
      assert forall i :: 0 <= i < |s.out| ==> s.out[i].slot != p.n;
    } else if p.Fixed? {
      assert Add(s, p).value != s ==> forall i :: 0 <= i < |s.out| && s.out[i].slot == 0 ==> s.out[i].port != p.p;
    }
  }

  lemma PublishesReal(line: string)
    ensures Publishes(line).Slot? ==> 1 <= Publishes(line).n <= MAX_SLOTS
    ensures Publishes(line).Fixed? ==> 1 <= Publishes(line).p <= 65535
  {
    hide MatchVar, MatchFixed, Atoi;
  }

  /** Whatever file is scanned, the slots found are distinct and in range, and so are the fixed ports. */
  lemma {:induction false} ScanWellFormed(lines: seq<string>)
    requires Run(lines).Some?
    ensures WellFormed(Run(lines).value.out)
  {
    hide TrimSpace, Clean, Indent, BlankOrComment, Publishes, MatchKey, Add, WellFormed;
    if lines == [] {
      NothingFound();
    } else {
      var init, raw := lines[..|lines| - 1], lines[|lines| - 1];
      ScanWellFormed(init);
      PublishesReal(Clean(raw));
      if Add(Run(init).value, Publishes(Clean(raw))).Some? {
        AddKeeps(Run(init).value, Publishes(Clean(raw)));
      }
    }
  }

  lemma NothingFound()
    ensures WellFormed([])
  {
  }

  // ---- no more and no less than the file publishes ----

  /** A line the scanner looks at below the top level. */
  predicate Indented(raw: string) {
    !BlankOrComment(raw) && Indent(raw) > 0
  }

  function PublishedAt(raw: string): Published {
    if Indented(raw) then Publishes(Clean(raw)) else Nothing
  }

  predicate IsSuffix(s: string, line: string) {
    |s| <= |line| && line[|line| - |s|..] == s
  }

  lemma {:induction false} SkipBlanksSuffix(s: string)
    ensures IsSuffix(SkipBlanks(s), s)
  {
    if s != "" && (s[0] == ' ' || s[0] == '\t') {
      SkipBlanksSuffix(s[1..]);
    }
  }

  /** A service key never reads as a published port. */
  lemma KeyPublishesNothing(line: string)
    requires MatchKey(line).Some?
    ensures Publishes(line) == Nothing
  {
    hide SkipBlanks, SkipQuote, VarTail, PairTail, DigitRun, AddressRun, Atoi;
    if Item(line).Some? {
      var s := Item(line).value;
      ItemSuffix(line[1..]);
      KeySuffix(line, s);
      if AfterAddress(s).Some? {
        KeySuffix(line, AfterAddress(s).value);
      }
    } else if Long(line).Some? {
      assert line[9] == ':';
      assert line[10..] == "";
      EmptyPublishesNothing();
    }
  }

  lemma ItemSuffix(s: string)
    ensures IsSuffix(SkipQuote(SkipBlanks(s)), s)
  {
    SkipBlanksSuffix(s);
  }

  lemma EmptyPublishesNothing()
    ensures SkipQuote(SkipBlanks("")) == "" && VarTail("") == None && DigitRun("") == 0
  {
  }

  lemma KeySuffix(line: string, s: string)
    requires MatchKey(line).Some? && IsSuffix(s, line)
    ensures VarTail(s) == None && PairTail(s) == None
  {
    hide VarTail, PairTail;
    assert forall i :: 0 <= i < |s| ==> s[i] == line[|line| - |s| + i];
  }

  ghost predicate Found(lines: seq<string>, p: Published) {
    exists i :: 0 <= i < |lines| && PublishedAt(lines[i]) == p
  }

  ghost predicate FoundTwice(lines: seq<string>) {
    exists i, j :: 0 <= i < j < |lines| && PublishedAt(lines[i]).Slot? && PublishedAt(lines[i]) == PublishedAt(lines[j])
  }

  lemma FoundSnoc(lines: seq<string>, p: Published)
    requires lines != []
    ensures Found(lines, p) <==> Found(lines[..|lines| - 1], p) || PublishedAt(lines[|lines| - 1]) == p
  {
    hide PublishedAt;
    var init := lines[..|lines| - 1];
    if i :| 0 <= i < |init| && PublishedAt(init[i]) == p {
      assert lines[i] == init[i];
    }
    if i :| 0 <= i < |init| && PublishedAt(lines[i]) == p {
      assert lines[i] == init[i];
    }
  }

  lemma FoundTwiceSnoc(lines: seq<string>)
    requires lines != []
    ensures var init, last := lines[..|lines| - 1], PublishedAt(lines[|lines| - 1]);
      FoundTwice(lines) <==> FoundTwice(init) || (last.Slot? && Found(init, last))
  {
    hide PublishedAt;
    var init := lines[..|lines| - 1];
    assert forall i :: 0 <= i < |init| ==> lines[i] == init[i];
    if i, j :| 0 <= i < j < |lines| && PublishedAt(lines[i]).Slot? && PublishedAt(lines[i]) == PublishedAt(lines[j]) {
      assert PublishedAt(init[i]) == PublishedAt(lines[j]);
    }
    if i, j :| 0 <= i < j < |init| && PublishedAt(init[i]).Slot? && PublishedAt(init[i]) == PublishedAt(init[j]) {
      assert PublishedAt(lines[i]).Slot? && PublishedAt(lines[i]) == PublishedAt(lines[j]);
    }
    if i :| 0 <= i < |init| && PublishedAt(init[i]) == PublishedAt(lines[|init|]) {
      assert PublishedAt(lines[i]) == PublishedAt(lines[|init|]);
    }
  }

  /** A line adds what it publishes, whether or not it also moves the scanner. */
  lemma StepAdds(s: Scan, raw: string)
    ensures PublishedAt(raw) == Nothing ==> Step(s, raw).Some? && Step(s, raw).value.out == s.out
    ensures PublishedAt(raw) != Nothing ==> Step(s, raw) == Add(s, PublishedAt(raw))
  {
    hide Publishes, Clean, BlankOrComment, Indent, MatchKey;
    if MatchKey(Clean(raw)).Some? {
      KeyPublishesNothing(Clean(raw));
    }
  }

  lemma AddFinds(s: Scan, p: Published, n: nat, q: nat)
    requires p.Slot? ==> p.n > 0
    requires n > 0
    ensures Add(s, p) == None <==> p == BadSlot || (p.Slot? && HasSlot(s.out, p.n))
    ensures Add(s, p).Some? ==> (HasSlot(Add(s, p).value.out, n) <==> HasSlot(s.out, n) || p == Slot(n))
    ensures Add(s, p).Some? ==> (HasPort(Add(s, p).value.out, q) <==> HasPort(s.out, q) || p == Fixed(q))
  {
    if Add(s, p).Some? {
      var out := Add(s, p).value.out;
      assert |out| > |s.out|
             ==> out[|s.out|] == (if p.Slot? then ComposePort(0, p.n, s.service) else ComposePort(p.p, 0, s.service));
      assert forall i :: 0 <= i < |s.out| ==> out[i] == s.out[i];
    }
  }

  /** The scan fails exactly when some line publishes a variable xdev cannot allocate, or two publish
      one; otherwise it finds exactly the variables and fixed ports the indented lines publish. */
  lemma {:induction false} ScanFindsAll(lines: seq<string>, n: nat, q: nat)
    requires n > 0
    ensures Run(lines) == None <==> Found(lines, BadSlot) || FoundTwice(lines)
    ensures Run(lines).Some? ==> (HasSlot(Run(lines).value.out, n) <==> Found(lines, Slot(n)))
    ensures Run(lines).Some? ==> (HasPort(Run(lines).value.out, q) <==> Found(lines, Fixed(q)))
    decreases |lines|
  {
    hide PublishedAt, Step, Found, FoundTwice, HasSlot, HasPort, Add;
    if lines == [] {
      NothingYet(n, q);
    } else {
      var init, raw := lines[..|lines| - 1], lines[|lines| - 1];
      var p := PublishedAt(raw);
      PublishedReal(raw);
      ScanFindsAll(init, n, q);
      FoundSnoc(lines, BadSlot);
      FoundSnoc(lines, Slot(n));
      FoundSnoc(lines, Fixed(q));
      FoundTwiceSnoc(lines);
      if p.Slot? {
        ScanFindsAll(init, p.n, q);
      }
      if Run(init).Some? {
        StepAdds(Run(init).value, raw);
        AddFinds(Run(init).value, p, n, q);
      }
    }
  }

  lemma PublishedReal(raw: string)
    ensures PublishedAt(raw).Slot? ==> PublishedAt(raw).n > 0
  {
    hide Publishes, Clean, Indented;
    PublishesReal(Clean(raw));
  }

  lemma NothingYet(n: nat, q: nat)
    ensures !HasSlot(START.out, n) && !HasPort(START.out, q)
    ensures forall p :: !Found([], p)
    ensures !FoundTwice([])
  {
  }

  // ---- checkComposeSlots ----

  /** The number of the first slot that is wrong, None when the file fits the domains. */
  method CheckSlots(ports: seq<ComposePort>, n: nat) returns (wrong: Option<nat>)
    requires WellFormed(ports)
    ensures wrong == None <==> SlotsFit(ports, n)
    ensures wrong.Some? ==> if wrong.value <= n then !HasSlot(ports, wrong.value) else HasSlot(ports, wrong.value)
  {
    for slot := 1 to n + 1
      invariant forall k :: 1 <= k < slot ==> HasSlot(ports, k)
    {
      if HasSlot(ports, slot) {
        continue;
      }
      return Some(slot);
    }
    for i := 0 to |ports|
      invariant forall j :: 0 <= j < i ==> ports[j].slot <= n
    {
      if ports[i].slot > n {
        return Some(ports[i].slot);
      }
    }
    return None;
  }

  /** The variables published are exactly those of domains 1 to n. */
  predicate SlotsFit(ports: seq<ComposePort>, n: nat) {
    && (forall k :: 1 <= k <= n ==> HasSlot(ports, k))
    && (forall i :: 0 <= i < |ports| ==> ports[i].slot <= n)
  }

  function Slots(ports: seq<ComposePort>): seq<nat> {
    if ports == [] then []
    else
      var init, last := ports[..|ports| - 1], ports[|ports| - 1];
      Slots(init) + if last.slot > 0 then [last.slot] else []
  }

  lemma LastSlot(ports: seq<ComposePort>, k: nat)
    requires ports != [] && WellFormed(ports)
    ensures var init, last := ports[..|ports| - 1], ports[|ports| - 1];
      && WellFormed(init) && (last.slot > 0 ==> !HasSlot(init, last.slot))
      && (HasSlot(ports, k) <==> HasSlot(init, k) || last.slot == k)
  {
    var init := ports[..|ports| - 1];
    assert forall i :: 0 <= i < |init| ==> init[i] == ports[i];
  }

  lemma {:induction false} SlotsAre(ports: seq<ComposePort>, k: nat)
    requires WellFormed(ports)
    ensures k in Slots(ports) <==> k > 0 && HasSlot(ports, k)
    ensures forall i, j :: 0 <= i < j < |Slots(ports)| ==> Slots(ports)[i] != Slots(ports)[j]
  {
    if ports != [] {
      hide WellFormed, HasSlot;
      var init, last := ports[..|ports| - 1], ports[|ports| - 1];
      LastSlot(ports, k);
      SlotsAre(init, k);
      SlotsAre(init, last.slot);
    }
  }

  /** So a file fits n domains exactly when its variables are 1 to n, each once: n of them. */
  lemma FitIsBijection(ports: seq<ComposePort>, n: nat)
    requires WellFormed(ports)
    ensures SlotsFit(ports, n) <==> |Slots(ports)| == n && forall k :: k in Slots(ports) <==> 1 <= k <= n
    ensures SlotsFit(ports, n) ==> n <= 5
  {
    forall k: nat ensures k in Slots(ports) <==> k > 0 && HasSlot(ports, k) {
      SlotsAre(ports, k);
    }
    SlotsAre(ports, 0);
    if SlotsFit(ports, n) {
      if n > 0 {
        assert HasSlot(ports, n);
      }
      forall k: nat ensures k in Slots(ports) <==> 1 <= k <= n {
      }
      CountUpTo(Slots(ports), n);
    }
    if forall k :: k in Slots(ports) <==> 1 <= k <= n {
      forall i | 0 <= i < |ports| ensures ports[i].slot <= n {
        assert ports[i].slot > 0 ==> HasSlot(ports, ports[i].slot);
      }
    }
  }

  lemma FirstIn<T>(s: seq<T>)
    ensures s != [] ==> s[0] in s
  {
  }

  /** A list of distinct numbers holding exactly 1 to n has n of them. */
  lemma {:induction false} CountUpTo(s: seq<nat>, n: nat)
    requires forall i, j :: 0 <= i < j < |s| ==> s[i] != s[j]
    requires forall k: nat :: k in s <==> 1 <= k <= n
    ensures |s| == n
    decreases n
  {
    FirstIn(s);
    if n > 0 {
      assert n in s;
      var i :| 0 <= i < |s| && s[i] == n;
      var rest := s[..i] + s[i + 1..];
      forall k: nat ensures k in rest <==> 1 <= k <= n - 1 {
        if k in rest {
          var j :| 0 <= j < |rest| && rest[j] == k;
          var at := if j < i then j else j + 1;
          assert s[at] == k && s[at] in s && at != i;
          assert s[at] != s[i];
        }
        if 1 <= k <= n - 1 {
          assert k in s;
          var j :| 0 <= j < |s| && s[j] == k;
          assert rest[if j < i then j else j - 1] == k;
        }
      }
      CountUpTo(rest, n - 1);
    }
  }
}
