/** Slugs (internal/naming/naming.go) and the attribution of containers to apps that rests on them
    (internal/metrics/collector.go). A slug is the letters and digits of its name with single dashes
    for everything between them; a unique one is found however many are taken; and a container is
    counted for the one stack whose prefix fits it best. */
module Naming {
  import opened Text
  import opened Wrappers

  // ---- slugs ----

  predicate SlugChar(c: char) {
    'a' <= c <= 'z' || '0' <= c <= '9'
  }

  /** The maximal runs of slug characters in `s`, in order. */
  function Words(s: string): (r: seq<string>)
    ensures s != "" && SlugChar(s[|s| - 1]) ==> r != []
  {
    if s == "" then []
    else
      var init, last := s[..|s| - 1], s[|s| - 1];
      var w := Words(init);
      if !SlugChar(last) then w
      else if init != "" && SlugChar(init[|init| - 1]) then w[..|w| - 1] + [w[|w| - 1] + [last]]
      else w + [[last]]
  }

  /** A name's slug: its words, lower-cased, with single dashes between them. */
  function Slug(s: string): string {
    var words := Words(Lower(TrimSpace(s)));
    if words == [] then "app" else Join(words, '-')
  }

  predicate IsSlug(s: string) {
    && s != ""
    && (forall i :: 0 <= i < |s| ==> SlugChar(s[i]) || s[i] == '-')
    && s[0] != '-' && s[|s| - 1] != '-'
    && forall i :: 0 < i < |s| ==> s[i - 1] != '-' || s[i] != '-'
  }

  ghost predicate GoodWords(words: seq<string>) {
    forall i :: 0 <= i < |words| ==> words[i] != "" && forall j :: 0 <= j < |words[i]| ==> SlugChar(words[i][j])
  }

  lemma {:induction false} WordsAreGood(s: string)
    ensures GoodWords(Words(s))
  {
    hide SlugChar, Words;
    if s == "" {
      NoWords();
    } else {
      var init, last := s[..|s| - 1], s[|s| - 1];
      WordsAreGood(init);
      WordsSnoc(init, last);
      assert init + [last] == s;
    }
  }

  lemma NoWords()
    ensures Words("") == []
  {
  }

  /** One more character ends the last word, lengthens it or begins another. */
  lemma WordsSnoc(init: string, last: char)
    ensures var w := Words(init);
      Words(init + [last])
      == if !SlugChar(last) then w
         else if init != "" && SlugChar(init[|init| - 1]) then w[..|w| - 1] + [w[|w| - 1] + [last]]
         else w + [[last]]
  {
    var s := init + [last];
    assert s[..|s| - 1] == init && s[|s| - 1] == last;
  }

  lemma {:induction false} JoinSnoc(words: seq<string>, w: string)
    ensures Join(words + [w], '-') == if words == [] then w else Join(words, '-') + "-" + w
  {
    if words == [] {
      assert words + [w] == [w];
    } else {
      JoinAppend(words, [w], '-');
      assert Join([w], '-') == w;
    }
  }

  lemma {:induction false} JoinExtend(words: seq<string>, c: char)
    requires words != []
    ensures Join(words[..|words| - 1] + [words[|words| - 1] + [c]], '-') == Join(words, '-') + [c]
  {
    hide Join;
    var init, last := words[..|words| - 1], words[|words| - 1];
    JoinSnoc(init, last);
    JoinSnoc(init, last + [c]);
    assert init + [last] == words;
    if init != [] {
      assert Join(init, '-') + "-" + (last + [c]) == Join(init, '-') + "-" + last + [c];
    }
  }

  /** Slugify's loop, whose flag stands for the dash owed before the next word. */
  method Slugify(s: string) returns (slug: string)
    ensures slug == Slug(s)
  {
    hide TrimSpace, Lower, Join, GoodWords, TrimLeft, TrimRight;
    var lowered := Lower(TrimSpace(s));
    var b := "";
    var lastDash := false;
    JoinNone();
    for i := 0 to |lowered|
      invariant b == Join(Words(lowered[..i]), '-') + (if lastDash then "-" else "")
      invariant lastDash <==> Words(lowered[..i]) != [] && !SlugChar(lowered[i - 1])
      invariant b == "" <==> Words(lowered[..i]) == []
    {
      var c := lowered[i];
      var p := lowered[..i + 1];
      assert p[..i] == lowered[..i];
      var w := Words(lowered[..i]);
      if SlugChar(c) {
        b := b + [c];
        lastDash := false;
        if i > 0 && SlugChar(lowered[i - 1]) {
          JoinExtend(w, c);
        } else {
          JoinSnoc(w, [c]);
        }
      } else if b != "" && !lastDash {
        b := b + "-";
        lastDash := true;
      }
    }
    assert lowered[..|lowered|] == lowered;
    var words := Words(lowered);
    WordsAreGood(lowered);
    TrimDashes(words, lastDash);
    slug := TrimRight(TrimLeft(b, '-'), '-');
    if slug == "" {
      slug := "app";
    }
  }

  lemma JoinNone()
    ensures Join([], '-') == "" && Words("") == []
  {
  }

  lemma {:induction false} JoinEnds(words: seq<string>)
    requires words != [] && GoodWords(words)
    ensures Join(words, '-') != "" && SlugChar(Join(words, '-')[0])
            && SlugChar(Join(words, '-')[|Join(words, '-')| - 1])
  {
    if |words| > 1 {
      JoinEnds(words[1..]);
    }
  }

  lemma TrimDashes(words: seq<string>, dash: bool)
    requires GoodWords(words)
    ensures words != [] ==> Join(words, '-') != ""
    ensures words != [] ==>
      TrimRight(TrimLeft(Join(words, '-') + (if dash then "-" else ""), '-'), '-') == Join(words, '-')
    ensures TrimRight(TrimLeft("", '-'), '-') == ""
  {
    if words != [] {
      JoinEnds(words);
      var j := Join(words, '-');
      TrimRightLaw(j, '-');
      TrimRightStep(j, '-');
      assert j + "" == j;
    }
  }

  lemma {:induction false} JoinedWordsAreSlug(words: seq<string>)
    requires words != [] && GoodWords(words)
    ensures IsSlug(Join(words, '-'))
  {
    JoinEnds(words);
    if |words| > 1 {
      JoinedWordsAreSlug(words[1..]);
      JoinEnds(words[1..]);
      var head, tail := words[0], Join(words[1..], '-');
      var s := Join(words, '-');
      assert s == head + "-" + tail;
      assert forall i :: 0 <= i < |s|
              ==> s[i] == if i < |head| then head[i] else if i == |head| then '-' else tail[i - |head| - 1];
    }
  }

  /** Every name has a slug of the promised shape. */
  lemma SlugShape(s: string)
    ensures IsSlug(Slug(s))
  {
    hide TrimSpace, Lower, Words, Join;
    var words := Words(Lower(TrimSpace(s)));
    WordsAreGood(Lower(TrimSpace(s)));
    if words != [] {
      JoinedWordsAreSlug(words);
    }
  }

  /** A prefix of a slug is its own words, with the dash it may end in. */
  lemma {:induction false} WordsOfSlug(s: string)
    requires forall i :: 0 <= i < |s| ==> SlugChar(s[i]) || s[i] == '-'
    requires s == "" || s[0] != '-'
    requires forall i :: 0 < i < |s| ==> s[i - 1] != '-' || s[i] != '-'
    ensures s == Join(Words(s), '-') + (if s != "" && s[|s| - 1] == '-' then "-" else "")
    ensures s != "" ==> Words(s) != []
  {
    hide Join;
    if s == "" {
      assert Words(s) == [] && Join([], '-') == "" by { JoinNone(); }
    } else {
      var init, last := s[..|s| - 1], s[|s| - 1];
      WordsOfSlug(init);
      assert s == init + [last];
      var w := Words(init);
      if w == [] { JoinNone(); }
      if SlugChar(last) {
        if init != "" && SlugChar(init[|init| - 1]) {
          JoinExtend(w, last);
        } else {
          JoinSnoc(w, [last]);
        }
      }
    }
  }

  lemma {:induction false} LowerOfSlug(s: string)
    requires forall i :: 0 <= i < |s| ==> SlugChar(s[i]) || s[i] == '-'
    ensures Lower(s) == s
  {
    if s != "" {
      LowerOfSlug(s[1..]);
    }
  }

  /** A slug is its own slug. */
  lemma SlugFixed(s: string)
    requires IsSlug(s)
    ensures Slug(s) == s
  {
    hide TrimSpace, Words, Join;
    TrimSpaceLaw(s);
    LowerOfSlug(s);
    WordsOfSlug(s);
  }

  lemma SlugIdempotent(s: string)
    ensures Slug(Slug(s)) == Slug(s)
  {
    SlugShape(s);
    SlugFixed(Slug(s));
  }

  // ---- what a slug is made of ----

  /** The characters a to z and 0 to 9 of a text, in order. */
  function Letters(s: string): string {
    if s == "" then ""
    else
      var init, last := s[..|s| - 1], s[|s| - 1];
      if 'a' <= last <= 'z' || '0' <= last <= '9' then Letters(init) + [last] else Letters(init)
  }

  lemma LettersSnoc(s: string, c: char)
    ensures Letters(s + [c]) == if SlugChar(c) then Letters(s) + [c] else Letters(s)
  {
    assert (s + [c])[..|s|] == s;
  }

  lemma {:induction false} NoneInGap(g: string)
    requires Letters(g) == ""
    ensures forall i :: 0 <= i < |g| ==> !SlugChar(g[i])
  {
    hide SlugChar, Letters;
    if g != "" {
      var init, last := g[..|g| - 1], g[|g| - 1];
      assert g == init + [last];
      LettersSnoc(init, last);
      NoneInGap(init);
    }
  }

  lemma {:induction false} NoLetters(s: string)
    requires forall i :: 0 <= i < |s| ==> !SlugChar(s[i])
    ensures Letters(s) == ""
  {
    hide SlugChar, Letters;
    NothingYet();
    if s != "" {
      var init, last := s[..|s| - 1], s[|s| - 1];
      assert s == init + [last];
      LettersSnoc(init, last);
      NoLetters(init);
    }
  }

  /** The words hold the letters, and the dashes between them none. */
  lemma {:induction false} LettersOfWords(s: string)
    ensures Letters(Join(Words(s), '-')) == Letters(s)
    ensures Words(s) == [] <==> Letters(s) == ""
  {
    hide Join, Words, Letters, SlugChar;
    NothingYet();
    if s != "" {
      var init, last := s[..|s| - 1], s[|s| - 1];
      var w := Words(init);
      var j := Join(w, '-');
      LettersOfWords(init);
      assert s == init + [last];
      WordsSnoc(init, last);
      LettersSnoc(init, last);
      if SlugChar(last) {
        if init != "" && SlugChar(init[|init| - 1]) {
          JoinExtend(w, last);
          LettersSnoc(j, last);
        } else {
          JoinSnoc(w, [last]);
          LettersSnoc(j, '-');
          LettersSnoc(j + "-", last);
          LettersSnoc("", last);
          assert "" + [last] == [last];
        }
      }
    }
  }

  lemma NothingYet()
    ensures Words("") == [] && Letters("") == "" && Join([], '-') == "" && !SlugChar('-')
  {
  }

  /** What lies behind the words is no word. */
  lemma {:induction false} WordsBehind(a: string, gap: string)
    requires forall i :: 0 <= i < |gap| ==> !SlugChar(gap[i])
    ensures Words(a + gap) == Words(a)
    decreases |gap|
  {
    hide Words, SlugChar;
    if gap == "" {
      assert a + gap == a;
    } else {
      var init, last := gap[..|gap| - 1], gap[|gap| - 1];
      WordsBehind(a, init);
      assert a + gap == a + init + [last];
      WordsSnoc(a + init, last);
    }
  }

  /** And a gap keeps words apart. */
  lemma {:induction false} WordsApart(a: string, gap: string, b: string)
    requires gap != "" && forall i :: 0 <= i < |gap| ==> !SlugChar(gap[i])
    ensures Words(a + gap + b) == Words(a) + Words(b)
    decreases |b|
  {
    hide Words, SlugChar;
    if b == "" {
      WordsBehind(a, gap);
      NoWords();
      assert a + gap + b == a + gap;
    } else {
      var init, last := b[..|b| - 1], b[|b| - 1];
      WordsApart(a, gap, init);
      assert a + gap + b == a + gap + init + [last];
      assert b == init + [last];
      WordsSnoc(a + gap + init, last);
      WordsSnoc(init, last);
      BeforeLast(a, gap, init);
      if init != "" && SlugChar(last) && SlugChar(init[|init| - 1]) {
        WordsThere(init);
        WordsExtended(Words(a), Words(init), last);
      }
    }
  }

  lemma WordsThere(s: string)
    requires s != "" && SlugChar(s[|s| - 1])
    ensures Words(s) != []
  {
  }

  lemma BeforeLast(a: string, gap: string, init: string)
    requires gap != "" && !SlugChar(gap[|gap| - 1])
    ensures var s := a + gap + init;
      s != "" && (SlugChar(s[|s| - 1]) <==> init != "" && SlugChar(init[|init| - 1]))
  {
  }

  lemma WordsExtended(u: seq<string>, w: seq<string>, c: char)
    requires w != []
    ensures var all := u + w;
      all[..|all| - 1] + [all[|all| - 1] + [c]] == u + (w[..|w| - 1] + [w[|w| - 1] + [c]])
  {
  }

  lemma {:induction false} LowerAppend(a: string, b: string)
    ensures Lower(a + b) == Lower(a) + Lower(b)
  {
    if a == "" {
      assert a + b == b;
    } else {
      assert (a + b)[1..] == a[1..] + b;
      LowerAppend(a[1..], b);
    }
  }

  lemma SpacesHaveNone(s: string)
    requires forall i :: 0 <= i < |s| ==> IsSpace(s[i])
    ensures Letters(Lower(s)) == ""
  {
    hide Lower, IsSpace, SlugChar, LowerChar, Letters;
    LowerLaw(s);
    forall i | 0 <= i < |s| ensures !SlugChar(LowerChar(s[i])) {
      SpaceIsNone(s[i]);
    }
    NoLetters(Lower(s));
  }

  lemma SpaceIsNone(c: char)
    requires IsSpace(c)
    ensures !SlugChar(LowerChar(c))
  {
  }

  lemma {:induction false} LeftSpaces(s: string) returns (sp: string)
    ensures s == sp + TrimLeftSpace(s) && forall i :: 0 <= i < |sp| ==> IsSpace(sp[i])
  {
    hide IsSpace;
    sp := "";
    if s != "" && IsSpace(s[0]) {
      sp := LeftSpaces(s[1..]);
      sp := [s[0]] + sp;
    }
  }

  lemma {:induction false} RightSpaces(s: string) returns (sp: string)
    ensures s == TrimRightSpace(s) + sp && forall i :: 0 <= i < |sp| ==> IsSpace(sp[i])
    decreases |s|
  {
    hide IsSpace;
    sp := "";
    if s != "" && IsSpace(s[|s| - 1]) {
      sp := RightSpaces(s[..|s| - 1]);
      sp := sp + [s[|s| - 1]];
    }
  }

  /** Trimming takes no word away. */
  lemma TrimmedWords(s: string)
    ensures Words(Lower(TrimSpace(s))) == Words(Lower(s))
  {
    hide TrimLeftSpace, TrimRightSpace, Lower, Words, Letters, IsSpace;
    var l := TrimLeftSpace(s);
    var before := LeftSpaces(s);
    var after := RightSpaces(l);
    var t := TrimSpace(s);
    LowerAppend(before, l);
    LowerAppend(t, after);
    SpacesHaveNone(before);
    SpacesHaveNone(after);
    GapBefore(Lower(before), Lower(l));
    GapBehind(Lower(t), Lower(after));
  }

  lemma GapBefore(gap: string, s: string)
    requires Letters(gap) == ""
    ensures Words(gap + s) == Words(s)
  {
    hide Words, Letters;
    if gap == "" {
      assert gap + s == s;
    } else {
      NoneInGap(gap);
      WordsApart("", gap, s);
      assert "" + gap + s == gap + s;
      NoWords();
    }
  }

  lemma GapBehind(s: string, gap: string)
    requires Letters(gap) == ""
    ensures Words(s + gap) == Words(s)
  {
    NoneInGap(gap);
    WordsBehind(s, gap);
  }

  /** The letters and digits of a slug are those of the lower-cased name, in their order; a name that has
      none is called "app". */
  lemma SlugLetters(s: string)
    ensures Letters(Lower(s)) != "" ==> Letters(Slug(s)) == Letters(Lower(s))
    ensures Letters(Lower(s)) == "" ==> Slug(s) == "app"
  {
    hide Words, Letters, Lower, Join, TrimSpace;
    TrimmedWords(s);
    LettersOfWords(Lower(s));
  }

  /** A word is its own slug in lower case. */
  lemma SlugWord(s: string)
    requires s != "" && forall i :: 0 <= i < |s| ==> SlugChar(LowerChar(s[i]))
    ensures Slug(s) == Lower(s)
  {
    hide Words, Join, TrimSpace, LowerChar;
    TrimmedWords(s);
    LowerLaw(s);
    WordsOfSlug(Lower(s));
    assert Join(Words(Lower(s)), '-') + "" == Join(Words(Lower(s)), '-');
  }

  /** And whatever stands between two names becomes one dash. */
  lemma SlugApart(a: string, gap: string, b: string)
    requires gap != "" && Letters(Lower(gap)) == "" && Letters(Lower(a)) != "" && Letters(Lower(b)) != ""
    ensures Slug(a + gap + b) == Slug(a) + "-" + Slug(b)
  {
    hide Words, Letters, Lower, Join, TrimSpace;
    var s := a + gap + b;
    TrimmedWords(s);
    TrimmedWords(a);
    TrimmedWords(b);
    LowerAppend(a + gap, b);
    LowerAppend(a, gap);
    GapIsThere(gap);
    NoneInGap(Lower(gap));
    WordsApart(Lower(a), Lower(gap), Lower(b));
    LettersOfWords(Lower(a));
    LettersOfWords(Lower(b));
    JoinAppend(Words(Lower(a)), Words(Lower(b)), '-');
  }

  lemma GapIsThere(gap: string)
    ensures gap != "" ==> Lower(gap) != ""
  {
  }

  // ---- unique slugs ----

  function Candidate(name: string, i: nat): string {
    if i <= 1 then Slug(name) else Slug(name) + "-" + Itoa(i)
  }

  lemma CandidateIsSlug(name: string, i: nat)
    ensures IsSlug(Candidate(name, i))
  {
    hide Slug;
    SlugShape(name);
    if i > 1 {
      var base, n := Slug(name), Itoa(i);
      var s := base + "-" + n;
      assert forall k :: 0 <= k < |s|
              ==> s[k] == if k < |base| then base[k] else if k == |base| then '-' else n[k - |base| - 1];
    }
  }

  lemma CandidatesDiffer(name: string, i: nat, j: nat)
    requires 1 <= i && 1 <= j && Candidate(name, i) == Candidate(name, j)
    ensures i == j
  {
    hide Slug;
    var base := Slug(name);
    assert |Candidate(name, i)| == |base| + (if i > 1 then 1 + |Itoa(i)| else 0);
    assert |Candidate(name, j)| == |base| + (if j > 1 then 1 + |Itoa(j)| else 0);
    if i > 1 && j > 1 {
      var s := base + "-" + Itoa(i);
      assert s[|base| + 1..] == Itoa(i);
      assert (base + "-" + Itoa(j))[|base| + 1..] == Itoa(j);
      AtoiItoa(i);
      AtoiItoa(j);
    }
  }

  lemma SubsetSize<T>(a: set<T>, b: set<T>)
    requires a <= b
    ensures |a| <= |b|
  {
    assert b == a + (b - a);
  }

  /** Unique, whose search ends because only finitely many slugs can be taken: the first candidate
      that is free. */
  method Unique(name: string, taken: set<string>) returns (slug: string)
    ensures slug !in taken && IsSlug(slug)
    ensures exists k: nat :: 1 <= k && slug == Candidate(name, k)
                             && forall j: nat :: 1 <= j < k ==> Candidate(name, j) in taken
  {
    hide Slug, Candidate, IsSlug;
    var base := Slugify(name);
    assert base == Candidate(name, 1) by { FirstCandidate(name, 2); }
    CandidateIsSlug(name, 1);
    if base !in taken {
      return base;
    }
    var i := 2;
    ghost var tried: set<string> := {};
    while true
      invariant 2 <= i && |tried| == i - 2 && tried <= taken
      invariant forall c :: c in tried ==> exists j: nat :: 2 <= j < i && c == Candidate(name, j)
      invariant forall j: nat :: 1 <= j < i ==> Candidate(name, j) in taken
      decreases |taken| - |tried|
    {
      var candidate := base + "-" + Itoa(i);
      FirstCandidate(name, i);
      if candidate !in taken {
        CandidateIsSlug(name, i);
        return candidate;
      }
      if candidate in tried {
        var j: nat :| 2 <= j < i && candidate == Candidate(name, j);
        CandidatesDiffer(name, i, j);
        assert false;
      }
      tried := tried + {candidate};
      SubsetSize(tried, taken);
      i := i + 1;
    }
  }

  lemma FirstCandidate(name: string, i: nat)
    requires i > 1
    ensures Candidate(name, 1) == Slug(name) && Candidate(name, i) == Slug(name) + "-" + Itoa(i)
  {
  }

  // ---- attribution ----

  /** The name xdev gives an app's stack. */
  function Prefix(project: string, app: string): string {
    project + "_" + app
  }

  predicate NoUnderscore(s: string) {
    forall i :: 0 <= i < |s| ==> s[i] != '_'
  }

  lemma SlugHasNoUnderscore(s: string)
    requires IsSlug(s)
    ensures NoUnderscore(s)
  {
  }

  /** No other stack's prefix fits a container of `<project>_<app>`, whatever follows it. */
  lemma OnlyOwnPrefixFits(p: string, a: string, svc: string, p': string, a': string)
    requires IsSlug(p) && IsSlug(a) && IsSlug(p') && IsSlug(a')
    requires HasPrefix(Prefix(p, a) + "_" + svc, Prefix(p', a') + "_")
    ensures p == p' && a == a'
  {
    hide IsSlug;
    SlugHasNoUnderscore(p);
    SlugHasNoUnderscore(a);
    SlugHasNoUnderscore(p');
    SlugHasNoUnderscore(a');
    var name, key := Prefix(p, a) + "_" + svc, Prefix(p', a') + "_";
    assert forall i :: 0 <= i < |key| ==> name[i] == key[i];
    assert name[|p|] == '_' && key[|p'|] == '_';
    assert forall i :: 0 <= i < |p| ==> name[i] == p[i];
    assert forall i :: 0 <= i < |p'| ==> key[i] == p'[i];
    assert |p| == |p'|;
    var n := |p| + 1;
    assert name[n + |a|] == '_' && key[n + |a'|] == '_';
    assert forall i :: 0 <= i < |a| ==> name[n + i] == a[i];
    assert forall i :: 0 <= i < |a'| ==> key[n + i] == a'[i];
    assert |a| == |a'|;
    assert p == name[..|p|] && p' == key[..|p|];
    assert a == name[n..n + |a|] && a' == key[n..n + |a|];
  }

  /** So `<project>_<app>` names one app. */
  lemma PrefixInjective(p: string, a: string, p': string, a': string)
    requires IsSlug(p) && IsSlug(a) && IsSlug(p') && IsSlug(a')
    requires Prefix(p, a) == Prefix(p', a')
    ensures p == p' && a == a'
  {
    assert Prefix(p, a) + "_" + "" == Prefix(p', a') + "_";
    OnlyOwnPrefixFits(p, a, "", p', a');
  }

  predicate Fits(name: string, prefix: string) {
    HasPrefix(name, prefix + "_")
  }

  /** `prefix` is the longest of the map's that fits `name`. */
  ghost predicate Longest(name: string, prefix: string, byPrefix: map<string, int>) {
    && prefix in byPrefix && Fits(name, prefix)
    && forall k :: k in byPrefix && Fits(name, k) ==> |k| <= |prefix|
  }

  lemma LongestUnique(name: string, k: string, k': string, byPrefix: map<string, int>)
    requires Longest(name, k, byPrefix) && Longest(name, k', byPrefix)
    ensures k == k'
  {
    assert k == name[..|k|];
    assert k' == name[..|k'|];
  }

  /** attribute, for whatever order the map is walked in: a known compose project decides, and
      otherwise the longest prefix that fits. */
  method Attribute(name: string, project: string, byPrefix: map<string, int>) returns (id: int, ok: bool)
    ensures project != "" && project in byPrefix ==> ok && id == byPrefix[project]
    ensures project == "" || project !in byPrefix ==>
      && (ok <==> exists k :: k in byPrefix && Fits(name, k))
      && (ok ==> exists k :: Longest(name, k, byPrefix) && id == byPrefix[k])
  {
    hide Fits;
    if project != "" && project in byPrefix {
      return byPrefix[project], true;
    }
    var best, bestLen: int := 0, -1;
    var rest := byPrefix.Keys;
    ghost var bestKey := "";
    while rest != {}
      invariant rest <= byPrefix.Keys
      invariant bestLen < 0 ==> forall k :: k in byPrefix && k !in rest ==> !Fits(name, k)
      invariant bestLen >= 0 ==> bestKey in byPrefix && bestKey !in rest && Fits(name, bestKey)
                                 && best == byPrefix[bestKey] && bestLen == |bestKey|
      invariant bestLen >= 0 ==> forall k :: k in byPrefix && k !in rest && Fits(name, k) ==> |k| <= bestLen
      decreases rest
    {
      var prefix :| prefix in rest;
      rest := rest - {prefix};
      if Fits(name, prefix) && |prefix| > bestLen {
        best, bestLen := byPrefix[prefix], |prefix|;
        bestKey := prefix;
      }
    }
    if bestLen >= 0 {
      assert Longest(name, bestKey, byPrefix);
    }
    return best, bestLen >= 0;
  }

  /** Every key is some stack's prefix. */
  ghost predicate Stacks(byPrefix: map<string, int>) {
    forall k :: k in byPrefix ==> exists p, a :: IsSlug(p) && IsSlug(a) && k == Prefix(p, a)
  }

  /** A container named after a known stack, and carrying no label, has that stack's prefix as the
      longest that fits: together with Attribute, it goes to that app in every iteration order. */
  lemma OwnStackIsLongest(p: string, a: string, svc: string, byPrefix: map<string, int>)
    requires IsSlug(p) && IsSlug(a) && Stacks(byPrefix) && Prefix(p, a) in byPrefix
    ensures forall k :: Longest(Prefix(p, a) + "_" + svc, k, byPrefix) <==> k == Prefix(p, a)
  {
    hide IsSlug;
    var name := Prefix(p, a) + "_" + svc;
    forall k | k in byPrefix && Fits(name, k) ensures k == Prefix(p, a) {
      var p', a' :| IsSlug(p') && IsSlug(a') && k == Prefix(p', a');
      OnlyOwnPrefixFits(p, a, svc, p', a');
    }
    assert Fits(name, Prefix(p, a));
  }
}
