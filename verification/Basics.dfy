/** Options, sets of consecutive numbers and bits, used throughout. */
module Basics {

  datatype Option<+T> = None | Some(value: T)

  // The numbers from lo up to hi.
  ghost function Span(lo: nat, hi: nat): (s: set<nat>)
    ensures forall p: nat :: p in s <==> lo <= p < hi
    decreases hi
  {
    if hi <= lo then {} else Span(lo, hi - 1) + {hi - 1}
  }

  lemma {:induction false} SpanSize(lo: nat, hi: nat)
    requires lo <= hi
    ensures |Span(lo, hi)| == hi - lo
  {
    if lo < hi { SpanSize(lo, hi - 1); }
  }

  lemma SubsetSize(a: set<nat>, b: set<nat>)
    requires a <= b
    ensures |a| <= |b|
  {
    assert b == a + (b - a);
  }

  // ----- the bits of a word

  ghost function Pow2(k: nat): (p: nat)
    ensures p > 0
  {
    if k == 0 then 1 else 2 * Pow2(k - 1)
  }

  predicate BitOf(w: nat, k: nat) {
    if k == 0 then w % 2 == 1 else BitOf(w / 2, k - 1)
  }

  // The bits of hi << n | lo.
  lemma {:induction false} JoinedBits(hi: nat, lo: nat, n: nat, i: nat)
    requires lo < Pow2(n)
    ensures BitOf(hi * Pow2(n) + lo, i) <==> if i < n then BitOf(lo, i) else BitOf(hi, i - n)
  {
    if n == 0 {
      assert hi * Pow2(n) + lo == hi;
    } else {
      var h := Pow2(n - 1);
      assert hi * Pow2(n) + lo == 2 * (hi * h) + lo;
      assert (2 * (hi * h) + lo) / 2 == hi * h + lo / 2 && (2 * (hi * h) + lo) % 2 == lo % 2;
      if i > 0 { JoinedBits(hi, lo / 2, n - 1, i - 1); }
    }
  }
}
