/** Choosing host ports (internal/apps/apps.go): the smallest free ones of a range, and what is
    recorded where. */
module Ports {
  import opened Wrappers

  const PORT_MIN: nat := 20000
  const PORT_MAX: nat := 29999

  predicate Acceptable(p: nat, taken: set<nat>, free: nat -> bool) {
    20000 <= p <= 29999 && p !in taken && free(p)
  }

  /** `ports` are the smallest acceptable ports, in order, up to n of them: short only when there are
      no more. */
  ghost predicate Smallest(ports: seq<nat>, n: nat, taken: set<nat>, free: nat -> bool) {
    && |ports| <= n
    && (forall i :: 0 <= i < |ports| ==> Acceptable(ports[i], taken, free))
    && (forall i, j :: 0 <= i < j < |ports| ==> ports[i] < ports[j])
    && (forall p: nat :: Acceptable(p, taken, free) && p !in ports ==>
          |ports| == n && forall i :: 0 <= i < |ports| ==> ports[i] < p)
  }

  /** pickPorts; `free` is whatever the host answers. */
  method PickPorts(n: nat, taken: set<nat>, free: nat -> bool) returns (out: seq<nat>)
    ensures Smallest(out, n, taken, free)
  {
    var skip := taken;
    out := [];
    var p := PORT_MIN;
    while p <= PORT_MAX && |out| < n
      invariant PORT_MIN <= p <= PORT_MAX + 1
      invariant |out| <= n
      invariant forall i :: 0 <= i < |out| ==> Acceptable(out[i], taken, free) && out[i] < p
      invariant forall i, j :: 0 <= i < j < |out| ==> out[i] < out[j]
      invariant forall q: nat :: Acceptable(q, taken, free) && q < p ==> q in out
      invariant forall q: nat :: q in skip <==> q in taken || q in out
      decreases PORT_MAX + 1 - p
    {
      if p in skip || !free(p) {
        p := p + 1;
        continue;
      }
      out := out + [p];
      skip := skip + {p};
      p := p + 1;
    }
  }

  /** Only one choice is the smallest: what pickPorts returns is settled by what is taken and free. */
  lemma OneSmallest(a: seq<nat>, b: seq<nat>, n: nat, taken: set<nat>, free: nat -> bool)
    requires Smallest(a, n, taken, free) && Smallest(b, n, taken, free)
    ensures a == b
  {
    SamePrefix(a, b, n, taken, free, if |a| < |b| then |a| else |b|);
    NotShorter(a, b, n, taken, free);
    NotShorter(b, a, n, taken, free);
  }

  lemma NotShorter(a: seq<nat>, b: seq<nat>, n: nat, taken: set<nat>, free: nat -> bool)
    requires Smallest(a, n, taken, free) && Smallest(b, n, taken, free)
    requires forall i :: 0 <= i < |a| && i < |b| ==> a[i] == b[i]
    ensures |a| >= |b|
  {
    var p := if |a| < |b| then b[|a|] else 0;
    if |a| < |b| && Acceptable(p, taken, free) && p !in a {
      assert false;
    }
  }

  lemma {:induction false} SamePrefix(a: seq<nat>, b: seq<nat>, n: nat, taken: set<nat>, free: nat -> bool, k: nat)
    requires Smallest(a, n, taken, free) && Smallest(b, n, taken, free)
    requires k <= |a| && k <= |b|
    ensures forall i :: 0 <= i < k ==> a[i] == b[i]
  {
    hide Smallest;
    if k > 0 {
      SamePrefix(a, b, n, taken, free, k - 1);
      NotBelow(a, b, n, taken, free, k - 1);
      NotBelow(b, a, n, taken, free, k - 1);
    }
  }

  lemma NotBelow(a: seq<nat>, b: seq<nat>, n: nat, taken: set<nat>, free: nat -> bool, i: nat)
    requires Smallest(a, n, taken, free) && Smallest(b, n, taken, free)
    requires i < |a| && i < |b| && forall j :: 0 <= j < i ==> a[j] == b[j]
    ensures a[i] >= b[i]
  {
    assert Acceptable(a[i], taken, free);
    assert forall j :: 0 <= j < i ==> b[j] < a[i];
    assert forall j :: i <= j < |b| ==> b[i] <= b[j];
  }
}
