/** Laws of sequences that more than one module sorts or counts by. */
module Collections {

  predicate Distinct<T(==)>(s: seq<T>) {
    forall i, j :: 0 <= i < j < |s| ==> s[i] != s[j]
  }

  /** Distinct members of a set are as many as it has exactly when they are all of them. */
  lemma {:induction false} DistinctSize<T>(s: seq<T>, all: set<T>)
    requires Distinct(s) && forall x :: x in s ==> x in all
    ensures |s| <= |all|
    ensures |s| == |all| <==> forall x :: x in all ==> x in s
    decreases |s|
  {
    if s == [] {
      assert |all| == 0 <==> all == {};
    } else {
      assert forall i :: 0 < i < |s| ==> s[1..][i - 1] == s[i];
      assert forall x :: x in s[1..] ==> x in s;
      DistinctSize(s[1..], all - {s[0]});
      assert s == [s[0]] + s[1..];
    }
  }

  /** Where everything is once `x` has been put in at `at`. */
  lemma Inserted<T>(s: seq<T>, at: nat, x: T)
    requires at <= |s|
    ensures var r := s[..at] + [x] + s[at..];
      && |r| == |s| + 1 && r[at] == x
      && (forall i :: 0 <= i < |r| && i != at ==> r[i] == s[if i < at then i else i - 1])
      && forall y :: y in r <==> y in s || y == x
  {
    var r := s[..at] + [x] + s[at..];
    forall y ensures y in r <==> y in s || y == x {
      if i :| 0 <= i < |s| && s[i] == y {
        assert r[if i < at then i else i + 1] == y;
      }
      assert r[at] == x;
    }
  }
}
