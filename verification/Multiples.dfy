/** Multiples, rounding down and division, all by repeated subtraction, which keeps proofs linear. */
module Multiples {

  /** `x` is a multiple of `k`, by repeated subtraction. */
  predicate Multiple(x: nat, k: nat)
    requires k >= 1
    decreases x
  {
    x == 0 || (x >= k && Multiple(x - k, k))
  }

  /** The greatest multiple of `k` up to `x`, by repeated subtraction. */
  function AlignDown(x: nat, k: nat): (r: nat)
    requires k >= 1
    ensures r <= x < r + k
    decreases x
  {
    if x < k then 0 else k + AlignDown(x - k, k)
  }

  /** `x` divided by `k`, by repeated subtraction. */
  function Quotient(x: nat, k: nat): nat
    requires k >= 1
    decreases x
  {
    if x < k then 0 else 1 + Quotient(x - k, k)
  }

  lemma {:induction false} MultipleSum(x: nat, y: nat, k: nat)
    requires k >= 1 && Multiple(x, k)
    ensures Multiple(x + y, k) <==> Multiple(y, k)
    decreases x
  {
    if x > 0 { MultipleSum(x - k, y, k); }
  }

  /** Multiples of `k` that differ, differ by at least `k`. */
  lemma {:induction false} MultiplesStep(x: nat, y: nat, k: nat)
    requires k >= 1 && Multiple(x, k) && Multiple(y, k) && x < y
    ensures x + k <= y
    decreases x
  {
    if x > 0 { MultiplesStep(x - k, y - k, k); }
  }

  lemma {:induction false} MultipleTransitive(x: nat, m: nat, k: nat)
    requires k >= 1 && m >= 1 && Multiple(x, m) && Multiple(m, k)
    ensures Multiple(x, k)
    decreases x
  {
    if x > 0 {
      MultipleTransitive(x - m, m, k);
      MultipleSum(x - m, m, k);
    }
  }

  lemma {:induction false} AlignDownOfMultiple(x: nat, k: nat)
    requires k >= 1 && Multiple(x, k)
    ensures AlignDown(x, k) == x
    decreases x
  {
    if x > 0 { AlignDownOfMultiple(x - k, k); }
  }

  /** `x` is an even or an odd multiple of `k`. */
  lemma {:induction false} EvenOrOddMultiple(x: nat, k: nat) returns (h: nat)
    requires k >= 1 && Multiple(x, k)
    ensures x == h || x == h + k
    ensures Multiple(h, 2 * k) && AlignDown(h, 2 * k) == h && AlignDown(h + k, 2 * k) == h
    ensures Multiple(h, k) && Multiple(h + k, k)
    decreases x
  {
    if x < 2 * k {
      h := 0;
      assert Multiple(k - k, k);
    } else {
      h := EvenOrOddMultiple(x - k - k, k);
      h := h + 2 * k;
    }
  }

  lemma {:induction false} AlignDownIsMultiple(x: nat, k: nat)
    requires k >= 1
    ensures Multiple(AlignDown(x, k), k)
    decreases x
  {
    if x >= k { AlignDownIsMultiple(x - k, k); }
  }

  lemma {:induction false} QuotientMonotone(x: nat, y: nat, k: nat)
    requires k >= 1 && x <= y
    ensures Quotient(x, k) <= Quotient(y, k)
    decreases x
  {
    if x >= k { QuotientMonotone(x - k, y - k, k); }
  }

  lemma {:induction false} QuotientSum(x: nat, y: nat, k: nat)
    requires k >= 1 && Multiple(x, k)
    ensures Quotient(x + y, k) == Quotient(x, k) + Quotient(y, k)
    decreases x
  {
    if x != 0 { QuotientSum(x - k, y, k); }
  }

  /** The quotient is the number of whole `k` in `e`. */
  lemma {:induction false} QuotientIs(k: nat, e: nat, x: nat)
    requires k >= 1
    ensures x * k <= e <==> x <= Quotient(e, k)
    decreases e
  {
    if x > 0 {
      OneLess(x, k);
      if e >= k {
        QuotientIs(k, e - k, x - 1);
      }
    }
  }

  lemma OneLess(x: nat, k: nat)
    requires x > 0
    ensures x * k == (x - 1) * k + k && (x - 1) * k >= 0
  {}

  lemma MulMonotone(a: int, b: int, k: nat)
    ensures a <= b ==> a * k <= b * k
  {
    if a <= b {
      assert (b - a) * k >= 0;
      assert b * k == a * k + (b - a) * k;
    }
  }

  /** Quotient and remainder are unique. */
  lemma RemainderOfMultiple(q: nat, k: nat, r: nat)
    requires r < k
    ensures (q * k + r) % k == r && (q * k + r) / k == q
  {
    var x := q * k + r;
    var d, e := x / k, x % k;
    assert x == k * d + e == d * k + e;
    MulMonotone(q + 1, d, k);
    MulMonotone(d + 1, q, k);
    assert (q + 1) * k == q * k + k && (d + 1) * k == d * k + k;
  }

  lemma SubtractOnce(x: nat, k: nat)
    requires 1 <= k <= x
    ensures (x - k) % k == x % k
  {
    var y := x - k;
    var q, r := y / k, y % k;
    assert y == k * q + r == q * k + r;
    assert x == (q + 1) * k + r;
    RemainderOfMultiple(q + 1, k, r);
  }
}
