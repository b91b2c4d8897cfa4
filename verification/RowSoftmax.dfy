/** The row softmax kernel: one block of 256 threads per row. */
module RowSoftmax {
  import opened ExtendedReal
  import opened Operands
  import opened AttentionMath
  import opened Grid
  import opened Reduction

  const BLOCK_SIZE: nat := 256

  /** The elements of row i, and what each pass of the kernel folds over them. */
  ghost function Row(t: Tensor, i: int): int -> real { (j: int) => t.at(i, j) }
  ghost function Elements(x: int -> real): int -> Flt { (j: int) => Fin(x(j)) }
  ghost function Exponentials(e: real -> real, x: int -> real, m: Flt): int -> Flt {
    (j: int) => FExp(e, FSub(Fin(x(j)), m))
  }

  lemma {:induction false} MaxFoldIsRowMax(x: int -> real, n: nat)
    requires n > 0
    ensures Fold(MaxOp, Elements(x), n) == Fin(RowMax(x, n))
  {
    if n > 1 {
      MaxFoldIsRowMax(x, n - 1);
      assert RowMax(x, n) == RowMaxPlus(x, n - 1);
    } else {
      assert Fold(MaxOp, Elements(x), 0) == NegInf;
    }
  }

  lemma {:induction false} AddFoldIsExpSum(e: real -> real, x: int -> real, m: real, n: nat)
    ensures Fold(AddOp, Exponentials(e, x, Fin(m)), n) == Fin(ExpSum(e, x, m, n))
  {
    if n > 0 {
      AddFoldIsExpSum(e, x, m, n - 1);
      assert ExpSum(e, x, m, n) == ExpSumPlus(e, x, m, n - 1);
    }
  }

  lemma {:induction false} PartialSkips(op: Op, f: int -> Flt, j: nat, n: nat, t: nat, threads: nat)
    requires t < threads && j % threads == t && j < n <= j + threads
    ensures Partial(op, f, n, t, threads) == Combine(op, Partial(op, f, j, t, threads), f(j))
  {
    if n > j + 1 {
      OnlyOneInWindow(n - 1, j, threads);
      PartialSkips(op, f, j, n - 1, t, threads);
    }
  }

  lemma {:induction false} PartialEmpty(op: Op, f: int -> Flt, n: nat, t: nat, threads: nat)
    requires t < threads && n <= t
    ensures Partial(op, f, n, t, threads) == Unit(op)
  {
    if n > 0 {
      DivModUnique(n - 1, threads, 0, n - 1);
      PartialEmpty(op, f, n - 1, t, threads);
    }
  }

  function Smaller(a: nat, b: nat): nat { if a < b then a else b }

  /** Thread tid's maximum over its share of the row. */
  method LocalMax(x: Tensor, row: nat, tid: nat) returns (acc: Flt)
    requires row < x.rows && tid < BLOCK_SIZE
    ensures acc == Partial(MaxOp, Elements(Row(x, row)), x.cols, tid, BLOCK_SIZE)
  {
    hide Partial;
    ghost var f := Elements(Row(x, row));
    acc := NegInf;
    var j := tid;
    PartialEmpty(MaxOp, f, Smaller(tid, x.cols), tid, BLOCK_SIZE);
    while j < x.cols
      invariant j % BLOCK_SIZE == tid
      invariant acc == Partial(MaxOp, f, Smaller(j, x.cols), tid, BLOCK_SIZE)
    {
      acc := FMax(acc, Fin(Load(x, row, j)));
      PartialSkips(MaxOp, f, j, Smaller(j + BLOCK_SIZE, x.cols), tid, BLOCK_SIZE);
      j := j + BLOCK_SIZE;
    }
  }

  /** Thread tid's exponential sum over its share of the row. */
  method LocalSum(e: real -> real, x: Tensor, row: nat, tid: nat, rowMax: Flt) returns (acc: Flt)
    requires row < x.rows && tid < BLOCK_SIZE
    ensures acc == Partial(AddOp, Exponentials(e, Row(x, row), rowMax), x.cols, tid, BLOCK_SIZE)
  {
    hide Partial;
    ghost var f := Exponentials(e, Row(x, row), rowMax);
    acc := Fin(0.0);
    var j := tid;
    PartialEmpty(AddOp, f, Smaller(tid, x.cols), tid, BLOCK_SIZE);
    while j < x.cols
      invariant j % BLOCK_SIZE == tid
      invariant acc == Partial(AddOp, f, Smaller(j, x.cols), tid, BLOCK_SIZE)
    {
      acc := FAdd(acc, FExp(e, FSub(Fin(Load(x, row, j)), rowMax)));
      PartialSkips(AddOp, f, j, Smaller(j + BLOCK_SIZE, x.cols), tid, BLOCK_SIZE);
      j := j + BLOCK_SIZE;
    }
  }

  lemma TreeCovers(op: Op, f: int -> Flt, n: nat, partials: seq<Flt>)
    requires |partials| == BLOCK_SIZE
    requires forall t :: 0 <= t < BLOCK_SIZE ==> partials[t] == Partial(op, f, n, t, BLOCK_SIZE)
    ensures FoldSeq(op, partials) == Fold(op, f, n)
  {
    FoldSeqIsPartials(op, f, n, partials, BLOCK_SIZE);
    PartialsCover(op, f, n, BLOCK_SIZE);
  }

  lemma BlockSizeIsPowerOfTwo()
    ensures PowerOfTwo(BLOCK_SIZE)
  {
    assert PowerOfTwo(4) && PowerOfTwo(16) && PowerOfTwo(64);
  }

  method RowMaximum(x: Tensor, row: nat, smem: array<Flt>) returns (rowMax: Flt)
    requires row < x.rows && smem.Length == BLOCK_SIZE && x.cols > 0
    modifies smem
    ensures rowMax == Fin(RowMax(Row(x, row), x.cols))
  {
    for tid := 0 to BLOCK_SIZE
      invariant forall t :: 0 <= t < tid ==> smem[t] == Partial(MaxOp, Elements(Row(x, row)), x.cols, t, BLOCK_SIZE)
    {
      smem[tid] := LocalMax(x, row, tid);
    }
    TreeCovers(MaxOp, Elements(Row(x, row)), x.cols, smem[..]);
    MaxFoldIsRowMax(Row(x, row), x.cols);
    BlockSizeIsPowerOfTwo();
    TreeReduce(MaxOp, smem);
    rowMax := smem[0];
  }

  method RowSum(e: real -> real, x: Tensor, row: nat, smem: array<Flt>, rowMax: Flt) returns (rowSum: Flt)
    requires row < x.rows && smem.Length == BLOCK_SIZE && rowMax.Fin?
    modifies smem
    ensures rowSum == Fin(ExpSum(e, Row(x, row), rowMax.v, x.cols))
  {
    for tid := 0 to BLOCK_SIZE
      invariant forall t :: 0 <= t < tid ==>
        smem[t] == Partial(AddOp, Exponentials(e, Row(x, row), rowMax), x.cols, t, BLOCK_SIZE)
    {
      smem[tid] := LocalSum(e, x, row, tid, rowMax);
    }
    TreeCovers(AddOp, Exponentials(e, Row(x, row), rowMax), x.cols, smem[..]);
    AddFoldIsExpSum(e, Row(x, row), rowMax.v, x.cols);
    BlockSizeIsPowerOfTwo();
    TreeReduce(AddOp, smem);
    rowSum := smem[0];
  }

  /** Softmax of row i at column j, by its definition. */
  ghost function Softmax(e: real -> real, x: Tensor, i: int, j: int): real
    requires IsExp(e) && x.cols > 0
  {
    PartitionPositive(e, Row(x, i), x.cols);
    SoftmaxWeight(e, Row(x, i), x.cols, j)
  }

  lemma ShiftCancels(e: real -> real, x: Tensor, i: int, j: int, m: real)
    requires IsExp(e) && x.cols > 0
    ensures ExpSum(e, Row(x, i), m, x.cols) > 0.0
    ensures e(Row(x, i)(j) - m) / ExpSum(e, Row(x, i), m, x.cols) == Softmax(e, x, i, j)
  {
    var s, n := Row(x, i), x.cols;
    PartitionPositive(e, s, n);
    ExpSumPositive(e, s, m, n);
    ExpSumIsScaledPartition(e, s, m, n);
    ExpAdds(e, -m, s(j));
    assert -m + s(j) == s(j) - m;
    ScaledQuotient(e(-m), Partition(e, s, n), e(s(j)));
    var l, q := ExpSum(e, s, m, n), SoftmaxWeight(e, s, n, j);
    assert (l * q) / l == q;
  }

  /** The normalising pass over one row. */
  method NormalizeRow(e: real -> real, x: Tensor, row: nat, rowMax: Flt, rowSum: Flt, out: array2<Flt>)
    requires IsExp(e) && row < x.rows && x.cols > 0 && rowMax.Fin?
    requires rowSum == Fin(ExpSum(e, Row(x, row), rowMax.v, x.cols))
    requires out.Length0 == x.rows && out.Length1 == x.cols
    modifies out
    ensures forall i, j :: 0 <= i < x.rows && 0 <= j < x.cols ==>
              out[i, j] == if i == row then Fin(Softmax(e, x, i, j)) else old(out[i, j])
  {
    ghost var d := {};
    StrideStart(1, x.cols, BLOCK_SIZE);
    for tid := 0 to BLOCK_SIZE
      invariant Covers(d, 1, x.cols, tid, 0, BLOCK_SIZE)
      invariant forall i, j :: 0 <= i < x.rows && 0 <= j < x.cols ==>
        out[i, j] == if i == row && (0, j) in d then Fin(Softmax(e, x, i, j)) else old(out[i, j])
    {
      var j0 := tid;
      StrideEnter(d, 1, x.cols, tid, BLOCK_SIZE);
      while j0 < x.cols
        invariant j0 % BLOCK_SIZE == tid && Covers(d, 1, x.cols, tid, j0, BLOCK_SIZE)
        invariant forall i, j :: 0 <= i < x.rows && 0 <= j < x.cols ==>
          out[i, j] == if i == row && (0, j) in d then Fin(Softmax(e, x, i, j)) else old(out[i, j])
      {
        StrideStep(d, 1, x.cols, tid, j0, BLOCK_SIZE);
        DivModUnique(j0, x.cols, 0, j0);
        ShiftCancels(e, x, row, j0, rowMax.v);
        out[row, j0] := FDiv(FExp(e, FSub(Fin(Load(x, row, j0)), rowMax)), rowSum);
        d := d + {(0, j0)};
        j0 := j0 + BLOCK_SIZE;
      }
      StrideLeave(d, 1, x.cols, tid, j0, BLOCK_SIZE);
    }
    StrideFinish(d, 1, x.cols, BLOCK_SIZE);
  }

  /** The whole launch, for rows of any width N >= 1, narrower or wider than a block. */
  method Launch(e: real -> real, x: Tensor, out: array2<Flt>)
    requires IsExp(e) && x.cols >= 1
    requires out.Length0 == x.rows && out.Length1 == x.cols
    modifies out
    ensures forall i, j :: 0 <= i < x.rows && 0 <= j < x.cols ==> out[i, j] == Fin(Softmax(e, x, i, j))
  {
    for row := 0 to x.rows
      invariant forall i, j :: 0 <= i < row && 0 <= j < x.cols ==> out[i, j] == Fin(Softmax(e, x, i, j))
    {
      var smem := new Flt[BLOCK_SIZE];
      var rowMax := RowMaximum(x, row, smem);
      var rowSum := RowSum(e, x, row, smem, rowMax);
      NormalizeRow(e, x, row, rowMax, rowSum, out);
    }
  }

  lemma {:induction false} TermBelowPartition(e: real -> real, s: int -> real, n: nat, j: nat)
    requires IsExp(e) && j < n
    ensures e(s(j)) <= Partition(e, s, n)
  {
    ExpPositive(e, s(n - 1));
    if n > 1 {
      PartitionPositive(e, s, n - 1);
      if j < n - 1 {
        TermBelowPartition(e, s, n - 1, j);
      }
    } else {
      assert Partition(e, s, 0) == 0.0;
    }
  }

  /** Every softmax value lies in (0, 1], and a row of them sums to 1. */
  lemma SoftmaxIsDistribution(e: real -> real, x: Tensor, i: int, j: nat)
    requires IsExp(e) && j < x.cols
    ensures 0.0 < Softmax(e, x, i, j) <= 1.0
    ensures Partition(e, Row(x, i), x.cols) > 0.0
    ensures WeightedSum(e, Row(x, i), _ => 1.0, x.cols, x.cols) == 1.0
  {
    var s, n := Row(x, i), x.cols;
    PartitionPositive(e, s, n);
    TermBelowPartition(e, s, n, j);
    ExpPositive(e, s(j));
    QuotientRange(e(s(j)), Partition(e, s, n));
    WeightsSumTo(e, s, n, n);
  }

  lemma QuotientRange(a: real, b: real)
    requires 0.0 < a <= b
    ensures 0.0 < a / b <= 1.0
  {}
}
