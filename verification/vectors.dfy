/** Resource vectors: one count per resource type, index-aligned across the bank. */
module Vectors {

  /** `a[j] <= b[j]` at every index both vectors have, the way the arbiter compares
      a need or a request with the work or available vector pairwise. */
  predicate AllLe(a: seq<nat>, b: seq<nat>) {
    forall j :: 0 <= j < |a| && j < |b| ==> a[j] <= b[j]
  }

  /** True when every component is zero. */
  predicate IsZero(v: seq<nat>) {
    forall j :: 0 <= j < |v| ==> v[j] == 0
  }

  /** Component-wise sum. */
  function Add(a: seq<nat>, b: seq<nat>): (c: seq<nat>)
    requires |a| == |b|
    ensures |c| == |a|
  {
    seq(|a|, j requires 0 <= j < |a| => a[j] + b[j])
  }

  /** Component-wise difference; it stays a vector of naturals only when `b` fits in `a`. */
  function Sub(a: seq<nat>, b: seq<nat>): (c: seq<nat>)
    requires |a| == |b| && AllLe(b, a)
    ensures |c| == |a|
  {
    seq(|a|, j requires 0 <= j < |a| => a[j] - b[j])
  }

  /** The all-zero vector of length `n`. */
  function Zeros(n: nat): (z: seq<nat>)
    ensures |z| == n
  {
    seq(n, _ => 0)
  }

  /** Adds `delta` into `work` one component at a time, as the `for j in 0..r`
      loops of the safety scans do. */
  method AddAssign(work: seq<nat>, delta: seq<nat>) returns (w: seq<nat>)
    requires |work| == |delta|
    ensures w == Add(work, delta)
    ensures AllLe(work, w)
  {
    w := work;
    for j := 0 to |w|
      invariant |w| == |work|
      invariant forall k :: 0 <= k < j ==> w[k] == work[k] + delta[k]
      invariant forall k :: j <= k < |w| ==> w[k] == work[k]
    {
      w := w[j := w[j] + delta[j]];
    }
  }

  lemma SubThenAdd(a: seq<nat>, b: seq<nat>)
    requires |a| == |b| && AllLe(b, a)
    ensures Add(Sub(a, b), b) == a
  {
  }

  lemma AddThenSub(a: seq<nat>, b: seq<nat>)
    requires |a| == |b|
    ensures AllLe(b, Add(a, b)) && Sub(Add(a, b), b) == a
  {
  }

  lemma AddSwap(w: seq<nat>, a: seq<nat>, b: seq<nat>)
    requires |w| == |a| == |b|
    ensures Add(Add(w, a), b) == Add(Add(w, b), a)
  {
  }

  lemma AllLeTrans(a: seq<nat>, b: seq<nat>, c: seq<nat>)
    requires |a| == |b| == |c| && AllLe(a, b) && AllLe(b, c)
    ensures AllLe(a, c)
  {
  }

  lemma AllLeAdd(a: seq<nat>, b: seq<nat>, d: seq<nat>)
    requires |a| == |b| == |d| && AllLe(a, b)
    ensures AllLe(a, Add(b, d)) && AllLe(Add(a, d), Add(b, d))
  {
  }
}
