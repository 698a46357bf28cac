/** Facts about natural-number multiplication and Euclidean division that
    the solver does not find on its own. */
module Arith {

  /** A strictly larger factor gives a product larger by at least `k`. */
  lemma MulStep(k: nat, a: nat, b: nat)
    requires a < b
    ensures k * a + k <= k * b
  {
    var d := b - a - 1;
    assert k * b == k * a + k + k * d;
  }

  /** Euclidean division is determined by its bounds. */
  lemma DivUnique(x: nat, k: nat, q: nat)
    requires k > 0 && k * q <= x < k * q + k
    ensures x / k == q
  {
    var q' := x / k;
    assert k * q' <= x < k * q' + k;
    if q < q' {
      MulStep(k, q, q');
    } else if q' < q {
      MulStep(k, q', q);
    }
  }

  lemma MulNonneg(a: nat, b: nat)
    ensures a * b >= 0
  {
  }

  /** `k` pieces of `x / k` fit in `x`. */
  lemma DivFloor(x: nat, k: nat)
    requires k > 0
    ensures (x / k) * k <= x
  {
  }

  lemma DivCancel(a: nat, k: nat)
    requires k > 0
    ensures (k * a) / k == a
  {
    DivUnique(k * a, k, a);
  }

  lemma DivStep(x: nat, k: nat)
    requires k > 0
    ensures x < k ==> x / k == 0
    ensures x >= k ==> x / k == (x - k) / k + 1
  {
    if x < k {
      DivUnique(x, k, 0);
    } else {
      var q := (x - k) / k;
      assert k * (q + 1) == k * q + k;
      DivUnique(x, k, q + 1);
    }
  }

  lemma MulRearrange(a: nat, b: nat, c: nat)
    ensures (a * b) * c == b * (a * c)
  {
  }

  lemma MulAddOne(a: nat, b: nat)
    ensures (a + 1) * b == a * b + b
  {
  }

  lemma MulLinear(i: nat, m: nat, j: nat, n: nat)
    ensures (i * m + j) * n == i * (m * n) + j * n
  {
  }

  /** A factor no larger than `k` gives a product no larger. */
  lemma MulMono(a: nat, k: nat, p: nat)
    requires a <= k
    ensures a * p <= k * p
  {
    if a < k {
      MulStep(p, a, k);
    }
  }

  /** Bounds for group `i` of `k` groups of `m` pieces of `n`. */
  lemma GroupBounds(n: nat, k: nat, m: nat, i: nat, size: nat)
    requires n * (k * m) <= size && i < k
    ensures (i + 1) * m <= k * m && i * (m * n) + m * n <= size
  {
    MulMono(i + 1, k, m);
    MulMono(i + 1, k, m * n);
    MulAddOne(i, m * n);
    MulRearrange(k, m, n);
  }

  lemma MulComm(a: int, b: int)
    ensures a * b == b * a
  {
  }

  lemma MulSwap(k: nat, a: nat, p: nat)
    ensures k * (a * p) == a * (k * p)
  {
  }

  lemma DivNat(x: nat, d: nat)
    requires d > 0
    ensures x / d >= 0
  {
  }

  lemma MulTurn(a: nat, b: nat, c: nat)
    ensures (a * b) * c == c * (b * a)
  {
  }

  lemma MulRearrange4(a: nat, b: nat, c: nat, d: nat)
    ensures (a * b) * (c * d) == (a * c) * (b * d)
  {
  }

  lemma ModExact(x: nat, d: nat)
    requires d > 0 && x % d == 0
    ensures x == d * (x / d)
  {
  }

  lemma ModCancel(a: nat, k: nat)
    requires k > 0
    ensures (k * a) % k == 0
  {
    DivCancel(a, k);
  }

  lemma PositiveQuotient(x: nat, d: nat)
    requires d > 0 && x > 0 && x % d == 0
    ensures x / d > 0
  {
    ModExact(x, d);
  }

  lemma MulPositive(a: nat, b: nat)
    requires a > 0 && b > 0
    ensures a * b > 0
  {
    MulStep(a, 0, b);
  }
}
