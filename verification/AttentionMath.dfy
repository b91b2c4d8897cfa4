/** The mathematics of attention over one row of scores: running maximum,
    shifted exponential sums, and the softmax-weighted sum they compute. */
module AttentionMath {
  import opened ExtendedReal

  // Each of the three folds steps through a second function, so that the verifier
  // does not unfold every fold a kernel invariant mentions.
  function RowMax(s: int -> real, n: nat): real
    requires n > 0
    decreases n, 0
  {
    if n == 1 then s(0) else RowMaxPlus(s, n - 1)
  }

  function RowMaxPlus(s: int -> real, j: nat): real
    requires j > 0
    decreases j, 1
  {
    RMax(RowMax(s, j), s(j))
  }

  function ExpSum(e: real -> real, s: int -> real, m: real, n: nat): real
    decreases n, 0
  {
    if n == 0 then 0.0 else ExpSumPlus(e, s, m, n - 1)
  }

  function ExpSumPlus(e: real -> real, s: int -> real, m: real, j: nat): real
    decreases j, 1
  {
    ExpSum(e, s, m, j) + e(s(j) - m)
  }

  function ExpDot(e: real -> real, s: int -> real, v: int -> real, m: real, n: nat): real
    decreases n, 0
  {
    if n == 0 then 0.0 else ExpDotPlus(e, s, v, m, n - 1)
  }

  function ExpDotPlus(e: real -> real, s: int -> real, v: int -> real, m: real, j: nat): real
    decreases j, 1
  {
    ExpDot(e, s, v, m, j) + e(s(j) - m) * v(j)
  }

  /** Reference: the softmax weight of key j among n keys, and the weighted sum of the values. */
  function Partition(e: real -> real, s: int -> real, n: nat): real {
    if n == 0 then 0.0 else Partition(e, s, n - 1) + e(s(n - 1))
  }

  function SoftmaxWeight(e: real -> real, s: int -> real, n: nat, j: int): real
    requires Partition(e, s, n) != 0.0
  {
    e(s(j)) / Partition(e, s, n)
  }

  function WeightedSum(e: real -> real, s: int -> real, v: int -> real, n: nat, k: nat): real
    requires Partition(e, s, n) != 0.0
  {
    if k == 0 then 0.0
    else WeightedSum(e, s, v, n, k - 1) + SoftmaxWeight(e, s, n, k - 1) * v(k - 1)
  }

  lemma {:induction false} PartitionPositive(e: real -> real, s: int -> real, n: nat)
    requires IsExp(e) && n > 0
    ensures Partition(e, s, n) > 0.0
  {
    ExpPositive(e, s(n - 1));
    if n > 1 {
      PartitionPositive(e, s, n - 1);
    }
  }

  lemma {:induction false} ExpSumPositive(e: real -> real, s: int -> real, m: real, n: nat)
    requires IsExp(e) && n > 0
    ensures ExpSum(e, s, m, n) > 0.0
  {
    ExpPositive(e, s(n - 1) - m);
    if n > 1 {
      ExpSumPositive(e, s, m, n - 1);
    }
  }

  /** Moving the shift from m to m' multiplies both sums by exp(m - m'). */
  lemma {:induction false} Rescale(e: real -> real, s: int -> real, v: int -> real, m: real, m': real, n: nat)
    requires IsExp(e)
    ensures e(m - m') * ExpSum(e, s, m, n) == ExpSum(e, s, m', n)
    ensures e(m - m') * ExpDot(e, s, v, m, n) == ExpDot(e, s, v, m', n)
  {
    if n > 0 {
      Rescale(e, s, v, m, m', n - 1);
      var w, w', c := e(s(n - 1) - m), e(s(n - 1) - m'), e(m - m');
      assert c * w == w' by {
        ExpAdds(e, m - m', s(n - 1) - m);
        assert (m - m') + (s(n - 1) - m) == s(n - 1) - m';
      }
      var a, b, x := ExpSum(e, s, m, n - 1), ExpDot(e, s, v, m, n - 1), v(n - 1);
      Distribute(c, a, w);
      Distribute(c, b, w * x);
      assert c * (w * x) == w' * x by { Associate(c, w, x); }
    }
  }

  lemma Distribute(c: real, a: real, b: real)
    ensures c * (a + b) == c * a + c * b
  {}

  lemma Associate(a: real, b: real, c: real)
    ensures a * (b * c) == a * b * c
  {}

  /** The shifted sum is the partition function times one constant. */
  lemma {:induction false} ExpSumIsScaledPartition(e: real -> real, s: int -> real, m: real, n: nat)
    requires IsExp(e)
    ensures ExpSum(e, s, m, n) == e(-m) * Partition(e, s, n)
  {
    if n > 0 {
      ExpSumIsScaledPartition(e, s, m, n - 1);
      ExpAdds(e, -m, s(n - 1));
      assert -m + s(n - 1) == s(n - 1) - m;
      Distribute(e(-m), Partition(e, s, n - 1), e(s(n - 1)));
    }
  }

  lemma {:induction false} ExpDotIsScaledWeightedSum(e: real -> real, s: int -> real, v: int -> real,
                                                     m: real, n: nat, k: nat)
    requires IsExp(e) && n > 0 && Partition(e, s, n) > 0.0
    ensures ExpDot(e, s, v, m, k) == ExpSum(e, s, m, n) * WeightedSum(e, s, v, n, k)
  {
    if k > 0 {
      ExpDotIsScaledWeightedSum(e, s, v, m, n, k - 1);
      var p, l, x := Partition(e, s, n), ExpSum(e, s, m, n), v(k - 1);
      var w, q := e(s(k - 1)), SoftmaxWeight(e, s, n, k - 1);
      ExpSumIsScaledPartition(e, s, m, n);
      ExpAdds(e, -m, s(k - 1));
      assert -m + s(k - 1) == s(k - 1) - m;
      assert l * q == e(s(k - 1) - m) by { ScaledQuotient(e(-m), p, w); }
      Distribute(l, WeightedSum(e, s, v, n, k - 1), q * x);
      Associate(l, q, x);
    }
  }

  lemma ScaledQuotient(c: real, p: real, w: real)
    requires p != 0.0
    ensures (c * p) * (w / p) == c * w
  {
    assert p * (w / p) == w;
    Associate(c, p, w / p);
  }

  /** What the kernel divides out at the end is softmax attention, whatever shift it used. */
  lemma OnlineQuotientIsAttention(e: real -> real, s: int -> real, v: int -> real, m: real, n: nat)
    requires IsExp(e) && n > 0
    ensures Partition(e, s, n) > 0.0 && ExpSum(e, s, m, n) > 0.0
    ensures ExpDot(e, s, v, m, n) / ExpSum(e, s, m, n) == WeightedSum(e, s, v, n, n)
  {
    PartitionPositive(e, s, n);
    ExpSumPositive(e, s, m, n);
    ExpDotIsScaledWeightedSum(e, s, v, m, n, n);
    var l, w := ExpSum(e, s, m, n), WeightedSum(e, s, v, n, n);
    assert (l * w) / l == w by { assert l * w == w * l; }
  }

  /** The softmax weights of a row sum to one. */
  lemma {:induction false} WeightsSumTo(e: real -> real, s: int -> real, n: nat, k: nat)
    requires IsExp(e) && n > 0 && Partition(e, s, n) > 0.0
    ensures WeightedSum(e, s, _ => 1.0, n, k) == Partition(e, s, k) / Partition(e, s, n)
  {
    if k > 0 {
      WeightsSumTo(e, s, n, k - 1);
      var p, a, b := Partition(e, s, n), Partition(e, s, k - 1), e(s(k - 1));
      assert (a + b) / p == a / p + b / p;
    }
  }
}
