/** The attention kernel that Family C emits: one block per (row tile, column
    tile) of the output, keys visited in chunks, an online maximum and sum per
    row, and workgroup memory shared by the threads of a block between barriers.
    Threads of a phase are run one after another; `Races` shows that every
    interleaving of them does the same (`AttentionThreads`). */
module FamilyC {
  import opened ExtendedReal
  import opened AttentionMath
  import opened Grid
  import opened Operands

  /** The fused region: softmax(Q K) V. */
  datatype Problem = Problem(e: real -> real, q: Operand, k: Operand, v: Operand)
  {
    function M(): nat { q.Rows() }
    function Dh(): nat { q.Cols() }
    function N(): nat { k.Cols() }
    function D(): nat { v.Cols() }

    // The shape checks before emission; anything else is rejected there.
    predicate ShapesMatch() {
      k.Rows() == Dh() && v.Rows() == N()
    }

    function Dot(i: int, j: int, n: nat): real {
      if n == 0 then 0.0 else Dot(i, j, n - 1) + q.At(i, n - 1) * k.At(n - 1, j)
    }

    /** Row i of the score matrix Q K, and column d of the values. */
    function Scores(i: int): int -> real { (j: int) => Dot(i, j, Dh()) }
    function Values(d: int): int -> real { (j: int) => v.At(j, d) }

    ghost function Meaning(): AttentionRows {
      AttentionRows(e, (i: int) => Scores(i), (d: int) => Values(d), M(), N(), D())
    }
  }

  /** What a problem means: score rows s, value columns v, m x n scores and d output columns.
      The phases below are specified with it, so that scores stay uninterpreted in their proofs. */
  datatype AttentionRows = AttentionRows(e: real -> real, s: int -> (int -> real), v: int -> (int -> real),
                                         m: nat, n: nat, d: nat)
  {
    ghost function Row(i: int): int -> real { s(i) }
    ghost function Col(j: int): int -> real { v(j) }
    ghost function ScoreAt(i: int, j: int): real { Row(i)(j) }
    ghost function ValueAt(j: int, d: int): real { Col(d)(j) }

    /** The cell of the fused graph's result: softmax weights of row i against column j of V. */
    ghost function Attention(i: int, j: int): real
      requires Partition(e, Row(i), n) != 0.0
    {
      WeightedSum(e, Row(i), Col(j), n, n)
    }
  }

  /** The tile a plan asks for, and the tile the emitter settles on. */
  datatype TileShape = TileShape(br: int, bc: int, d: int, threadsPerBlock: int)
  datatype Tile = Tile(br: nat, bc: nat, dtile: nat, threads: nat)
  {
    predicate Positive() { br > 0 && bc > 0 && dtile > 0 && threads > 0 }
  }

  const INT_MAX := 0x7FFF_FFFF

  function Max(a: int, b: int): int { if a < b then b else a }

  function ChooseTile(plan: TileShape, d: nat): (t: Tile)
    ensures t.Positive()
    ensures d > 0 ==> t.dtile <= d
    ensures (plan.br > 0 ==> t.br == plan.br) && (plan.bc > 0 ==> t.bc == plan.bc)
    ensures plan.threadsPerBlock > 0 ==> t.threads == plan.threadsPerBlock
    ensures plan == TileShape(0, 0, 0, 0) ==> t == Tile(32, 32, if d == 0 then 1 else Min(d, 64), 128)
    ensures 64 <= plan.d <= d <= INT_MAX ==> t.dtile == plan.d
  {
    var requested := Max(if plan.d > 0 then plan.d else 64, 64);
    Tile(if plan.br > 0 then plan.br else 32,
         if plan.bc > 0 then plan.bc else 32,
         Max(1, Min(requested, Min(d, INT_MAX))),
         if plan.threadsPerBlock > 0 then plan.threadsPerBlock else 128)
  }

  /** Row state after the first n keys. */
  ghost function MaxSeen(s: int -> real, n: nat): Flt {
    if n == 0 then NegInf else Fin(RowMax(s, n))
  }

  ghost function SumSeen(e: real -> real, s: int -> real, n: nat): Flt {
    if n == 0 then Fin(0.0) else Fin(ExpSum(e, s, RowMax(s, n), n))
  }

  ghost function AccSeen(e: real -> real, s: int -> real, v: int -> real, n: nat): Flt {
    if n == 0 then Fin(0.0) else Fin(ExpDot(e, s, v, RowMax(s, n), n))
  }

  /** exp(m_old - m_new) when the seen prefix grows from n to n2 keys. */
  ghost function Correction(e: real -> real, s: int -> real, n: nat, n2: nat): Flt
    requires n2 > 0
  {
    FExp(e, FSub(MaxSeen(s, n), Fin(RowMax(s, n2))))
  }

  /** The two sums of row i over its first k keys, shifted by the maximum of the first n2 keys. */
  ghost function SumUpTo(a: AttentionRows, i: int, n2: nat, k: nat): Flt
    requires n2 > 0
  {
    Fin(ExpSum(a.e, a.Row(i), RowMax(a.Row(i), n2), k))
  }

  ghost function AccUpTo(a: AttentionRows, i: int, j: int, n2: nat, k: nat): Flt
    requires n2 > 0
  {
    Fin(ExpDot(a.e, a.Row(i), a.Col(j), RowMax(a.Row(i), n2), k))
  }

  lemma SumRescales(a: AttentionRows, i: int, n: nat, n2: nat)
    requires IsExp(a.e) && n2 > 0
    ensures FMul(Correction(a.e, a.Row(i), n, n2), SumSeen(a.e, a.Row(i), n)) == SumUpTo(a, i, n2, n)
  {
    if n > 0 {
      hide RowMax, ExpSum, IsExp, FMul;
      var m, m2 := RowMax(a.Row(i), n), RowMax(a.Row(i), n2);
      Rescale(a.e, a.Row(i), a.Row(i), m, m2, n);
      Product(a.e(m - m2), ExpSum(a.e, a.Row(i), m, n));
    }
  }

  lemma Product(x: real, y: real)
    ensures FMul(Fin(x), Fin(y)) == Fin(x * y)
  {
  }

  lemma AccRescales(a: AttentionRows, i: int, j: int, n: nat, n2: nat)
    requires IsExp(a.e) && n2 > 0
    ensures FMul(Correction(a.e, a.Row(i), n, n2), AccSeen(a.e, a.Row(i), a.Col(j), n)) == AccUpTo(a, i, j, n2, n)
  {
    if n > 0 {
      hide RowMax, ExpDot, IsExp, FMul;
      var m, m2 := RowMax(a.Row(i), n), RowMax(a.Row(i), n2);
      Rescale(a.e, a.Row(i), a.Col(j), m, m2, n);
      Product(a.e(m - m2), ExpDot(a.e, a.Row(i), a.Col(j), m, n));
    }
  }

  lemma MaxStep(s: int -> real, n: nat)
    ensures FMax(MaxSeen(s, n), Fin(s(n))) == MaxSeen(s, n + 1)
  {
    if n > 0 {
      assert RowMax(s, n + 1) == RowMaxPlus(s, n);
    }
  }

  lemma MaxAssociative(a: Flt, b: Flt, c: Flt)
    ensures FMax(a, FMax(b, c)) == FMax(FMax(a, b), c)
  {}

  /** Keys seen once the first c keys of the chunk starting at `base` are done. */
  function Seen(base: nat, c: nat, n: nat): nat {
    if base + c < n then base + c else n
  }

  /** Score of row i against key base + c, padded with -inf outside the matrix. */
  ghost function ScoreCell(a: AttentionRows, i: nat, base: nat, c: nat): Flt {
    if i < a.m && base + c < a.n then Fin(a.ScoreAt(i, base + c)) else NegInf
  }

  /** Weight of the same key once the chunk is reduced: exp(score - new maximum), 0 for padding. */
  ghost function WeightCell(a: AttentionRows, i: nat, base: nat, bc: nat, c: nat): Flt
    requires base < a.n && bc > 0
  {
    if base + c < a.n
    then Fin(a.e(a.ScoreAt(i, base + c) - RowMax(a.Row(i), Seen(base, bc, a.n))))
    else Fin(0.0)
  }

  ghost predicate RowState(a: AttentionRows, i: nat, n: nat, m: Flt, l: Flt) {
    m == MaxSeen(a.Row(i), n) && l == SumSeen(a.e, a.Row(i), n)
  }

  /** Every valid row of the tile has seen n keys. */
  ghost predicate RowsSeen(a: AttentionRows, t: Tile, rowBase: nat, n: nat, rowM: array<Flt>, rowL: array<Flt>)
    requires rowM.Length == rowL.Length == t.br
    reads rowM, rowL
  {
    forall r :: 0 <= r < t.br && rowBase + r < a.m ==> RowState(a, rowBase + r, n, rowM[r], rowL[r])
  }

  /** Every valid cell of the accumulator tile holds the weighted sum over n keys. */
  ghost predicate AccumSeen(a: AttentionRows, t: Tile, rowBase: nat, colBase: nat, n: nat, accum: array2<Flt>)
    requires accum.Length0 == t.br && accum.Length1 == t.dtile
    reads accum
  {
    forall r, c :: 0 <= r < t.br && 0 <= c < t.dtile && rowBase + r < a.m && colBase + c < a.d ==>
      accum[r, c] == AccSeen(a.e, a.Row(rowBase + r), a.Col(colBase + c), n)
  }

  // ---- the kernel ---------------------------------------------------------

  /** The inner product loop of one score. */
  method EmitScoreDot(p: Problem, row: nat, key: nat) returns (acc: Flt)
    requires p.ShapesMatch() && row < p.M() && key < p.N()
    ensures acc == Fin(p.Meaning().ScoreAt(row, key))
  {
    acc := Fin(0.0);
    for kk := 0 to p.Dh()
      invariant acc == Fin(p.Dot(row, key, kk))
    {
      acc := FAdd(acc, FMul(Fin(p.q.LoadAt(row, kk)), Fin(p.k.LoadAt(kk, key))));
    }
  }

  /** Zero the accumulator tile. */
  method InitAccum(t: Tile, accum: array2<Flt>)
    requires t.Positive() && accum.Length0 == t.br && accum.Length1 == t.dtile
    modifies accum
    ensures forall r, c :: 0 <= r < t.br && 0 <= c < t.dtile ==> accum[r, c] == Fin(0.0)
  {
    ghost var d := {};
    StrideStart(t.br, t.dtile, t.threads);
    for tid := 0 to t.threads
      invariant Covers(d, t.br, t.dtile, tid, 0, t.threads)
      invariant forall r, c :: 0 <= r < t.br && 0 <= c < t.dtile && (r, c) in d ==> accum[r, c] == Fin(0.0)
    {
      var idx := tid;
      StrideEnter(d, t.br, t.dtile, tid, t.threads);
      while idx < t.br * t.dtile
        invariant idx % t.threads == tid && Covers(d, t.br, t.dtile, tid, idx, t.threads)
        invariant forall r, c :: 0 <= r < t.br && 0 <= c < t.dtile && (r, c) in d ==> accum[r, c] == Fin(0.0)
      {
        StrideStep(d, t.br, t.dtile, tid, idx, t.threads);
        accum[idx / t.dtile, idx % t.dtile] := Fin(0.0);
        d := d + {(idx / t.dtile, idx % t.dtile)};
        idx := idx + t.threads;
      }
      StrideLeave(d, t.br, t.dtile, tid, idx, t.threads);
    }
    StrideFinish(d, t.br, t.dtile, t.threads);
  }

  /** Every row starts at maximum -inf, sum 0. */
  method InitRows(t: Tile, rowM: array<Flt>, rowL: array<Flt>, rowScale: array<Flt>)
    requires t.Positive() && rowM.Length == rowL.Length == rowScale.Length == t.br
    requires rowM != rowL && rowM != rowScale && rowL != rowScale
    modifies rowM, rowL, rowScale
    ensures forall r :: 0 <= r < t.br ==> rowM[r] == NegInf && rowL[r] == Fin(0.0)
  {
    ghost var d := {};
    StrideStart(t.br, 1, t.threads);
    for tid := 0 to t.threads
      invariant Covers(d, t.br, 1, tid, 0, t.threads)
      invariant forall r :: 0 <= r < t.br && (r, 0) in d ==> rowM[r] == NegInf && rowL[r] == Fin(0.0)
    {
      var r0 := tid;
      StrideEnter(d, t.br, 1, tid, t.threads);
      while r0 < t.br
        invariant r0 % t.threads == tid && Covers(d, t.br, 1, tid, r0, t.threads)
        invariant forall r :: 0 <= r < t.br && (r, 0) in d ==> rowM[r] == NegInf && rowL[r] == Fin(0.0)
      {
        StrideStep(d, t.br, 1, tid, r0, t.threads);
        rowM[r0], rowL[r0], rowScale[r0] := NegInf, Fin(0.0), Fin(0.0);
        d := d + {(r0, 0)};
        r0 := r0 + t.threads;
      }
      StrideLeave(d, t.br, 1, tid, r0, t.threads);
    }
    StrideFinish(d, t.br, 1, t.threads);
  }

  /** Scores of the chunk of keys starting at `base`. */
  method ScoreChunk(p: Problem, ghost a: AttentionRows, t: Tile, rowBase: nat, base: nat, score: array2<Flt>)
    requires a == p.Meaning() && p.ShapesMatch() && t.Positive() && score.Length0 == t.br && score.Length1 == t.bc
    modifies score
    ensures forall r, c :: 0 <= r < t.br && 0 <= c < t.bc ==> score[r, c] == ScoreCell(a, rowBase + r, base, c)
  {
    ghost var d := {};
    StrideStart(t.br, t.bc, t.threads);
    for tid := 0 to t.threads
      invariant Covers(d, t.br, t.bc, tid, 0, t.threads)
      invariant forall r, c :: 0 <= r < t.br && 0 <= c < t.bc && (r, c) in d
                  ==> score[r, c] == ScoreCell(a, rowBase + r, base, c)
    {
      var idx := tid;
      StrideEnter(d, t.br, t.bc, tid, t.threads);
      while idx < t.br * t.bc
        invariant idx % t.threads == tid && Covers(d, t.br, t.bc, tid, idx, t.threads)
        invariant forall r, c :: 0 <= r < t.br && 0 <= c < t.bc && (r, c) in d
                    ==> score[r, c] == ScoreCell(a, rowBase + r, base, c)
      {
        StrideStep(d, t.br, t.bc, tid, idx, t.threads);
        var r, c := idx / t.bc, idx % t.bc;
        if rowBase + r < p.M() && base + c < p.N() {
          score[r, c] := EmitScoreDot(p, rowBase + r, base + c);
        } else {
          score[r, c] := NegInf;
        }
        d := d + {(r, c)};
        idx := idx + t.threads;
      }
      StrideLeave(d, t.br, t.bc, tid, idx, t.threads);
    }
    StrideFinish(d, t.br, t.bc, t.threads);
  }

  /** Maximum of one row of a chunk; joined with the previous maximum it is that of all keys seen. */
  method ChunkMax(ghost a: AttentionRows, t: Tile, ghost i: nat, r: nat, ghost base: nat, score: array2<Flt>, ghost mPrev: Flt)
    returns (chunkMax: Flt)
    requires t.Positive() && r < t.br && i < a.m && base < a.n
    requires score.Length0 == t.br && score.Length1 == t.bc
    requires forall c :: 0 <= c < t.bc ==> score[r, c] == ScoreCell(a, i, base, c)
    requires mPrev == MaxSeen(a.Row(i), base)
    ensures FMax(mPrev, chunkMax) == MaxSeen(a.Row(i), Seen(base, t.bc, a.n))
  {
    chunkMax := NegInf;
    for c := 0 to t.bc
      invariant FMax(mPrev, chunkMax) == MaxSeen(a.Row(i), Seen(base, c, a.n))
    {
      MaxAssociative(mPrev, chunkMax, score[r, c]);
      if base + c < a.n {
        MaxStep(a.Row(i), base + c);
      }
      chunkMax := FMax(chunkMax, score[r, c]);
    }
  }

  lemma WeightStep(a: AttentionRows, i: nat, base: nat, bc: nat, c: nat)
    requires i < a.m && base < a.n && c < bc
    ensures FExp(a.e, FSub(ScoreCell(a, i, base, c), Fin(RowMax(a.Row(i), Seen(base, bc, a.n)))))
         == WeightCell(a, i, base, bc, c)
    ensures FAdd(SumUpTo(a, i, Seen(base, bc, a.n), Seen(base, c, a.n)), WeightCell(a, i, base, bc, c))
         == SumUpTo(a, i, Seen(base, bc, a.n), Seen(base, c + 1, a.n))
  {
    var s, m := a.Row(i), RowMax(a.Row(i), Seen(base, bc, a.n));
    if base + c < a.n {
      assert ExpSum(a.e, s, m, base + c + 1) == ExpSumPlus(a.e, s, m, base + c);
    }
  }

  lemma AccStep(a: AttentionRows, i: nat, j: nat, base: nat, bc: nat, c: nat)
    requires base + c < a.n && c < bc
    ensures FAdd(AccUpTo(a, i, j, Seen(base, bc, a.n), base + c),
                 FMul(WeightCell(a, i, base, bc, c), Fin(a.ValueAt(base + c, j))))
         == AccUpTo(a, i, j, Seen(base, bc, a.n), base + c + 1)
  {
    var s, v, m := a.Row(i), a.Col(j), RowMax(a.Row(i), Seen(base, bc, a.n));
    assert ExpDot(a.e, s, v, m, base + c + 1) == ExpDotPlus(a.e, s, v, m, base + c);
  }

  /** Turn the scores of one row into weights and add them to the rescaled sum. */
  method WeighRow(e: real -> real, ghost a: AttentionRows, t: Tile, ghost i: nat, r: nat, ghost base: nat, score: array2<Flt>,
                  mNew: Flt, lScaled: Flt)
    returns (lNew: Flt)
    requires e == a.e && t.Positive() && r < t.br && i < a.m && base < a.n
    requires score.Length0 == t.br && score.Length1 == t.bc
    requires forall c :: 0 <= c < t.bc ==> score[r, c] == ScoreCell(a, i, base, c)
    requires mNew == Fin(RowMax(a.Row(i), Seen(base, t.bc, a.n)))
    requires lScaled == SumUpTo(a, i, Seen(base, t.bc, a.n), base)
    modifies score
    ensures lNew == SumSeen(e, a.Row(i), Seen(base, t.bc, a.n))
    ensures forall c :: 0 <= c < t.bc ==> score[r, c] == WeightCell(a, i, base, t.bc, c)
    ensures forall r', c :: 0 <= r' < t.br && 0 <= c < t.bc && r' != r ==> score[r', c] == old(score[r', c])
  {
    lNew := lScaled;
    for c := 0 to t.bc
      invariant lNew == SumUpTo(a, i, Seen(base, t.bc, a.n), Seen(base, c, a.n))
      invariant forall r', c' :: 0 <= r' < t.br && 0 <= c' < t.bc ==>
        score[r', c'] == if r' == r && c' < c then WeightCell(a, i, base, t.bc, c') else old(score[r', c'])
    {
      WeightStep(a, i, base, t.bc, c);
      var weight := FExp(e, FSub(score[r, c], mNew));
      score[r, c] := weight;
      lNew := FAdd(lNew, weight);
    }
  }

  /** Fold one chunk of scores of local row r into its running maximum and sum. */
  method ReduceRow(e: real -> real, ghost a: AttentionRows, t: Tile, ghost i: nat, r: nat, ghost base: nat, score: array2<Flt>,
                   rowM: array<Flt>, rowL: array<Flt>, rowScale: array<Flt>)
    requires e == a.e && IsExp(e) && t.Positive() && r < t.br && i < a.m && base < a.n
    requires score.Length0 == t.br && score.Length1 == t.bc
    requires rowM.Length == rowL.Length == rowScale.Length == t.br
    requires rowM != rowL && rowM != rowScale && rowL != rowScale
    requires forall c :: 0 <= c < t.bc ==> score[r, c] == ScoreCell(a, i, base, c)
    requires RowState(a, i, base, rowM[r], rowL[r])
    modifies score, rowM, rowL, rowScale
    ensures RowState(a, i, Seen(base, t.bc, a.n), rowM[r], rowL[r])
    ensures rowScale[r] == Correction(e, a.Row(i), base, Seen(base, t.bc, a.n))
    ensures forall c :: 0 <= c < t.bc ==> score[r, c] == WeightCell(a, i, base, t.bc, c)
    ensures forall r' :: 0 <= r' < t.br && r' != r ==>
              rowM[r'] == old(rowM[r']) && rowL[r'] == old(rowL[r']) && rowScale[r'] == old(rowScale[r'])
    ensures forall r', c :: 0 <= r' < t.br && 0 <= c < t.bc && r' != r ==> score[r', c] == old(score[r', c])
  {
    hide RowMax, ExpSum, IsExp, FMul, FExp, FSub, FMax;
    var chunkMax := ChunkMax(a, t, i, r, base, score, rowM[r]);
    var mNew := FMax(rowM[r], chunkMax);
    var correction := FExp(e, FSub(rowM[r], mNew));
    SumRescales(a, i, base, Seen(base, t.bc, a.n));
    var lNew := WeighRow(e, a, t, i, r, base, score, mNew, FMul(correction, rowL[r]));
    rowM[r], rowL[r], rowScale[r] := mNew, lNew, correction;
  }

  /** One thread per row: fold the chunk into the row states, turn its scores into weights. */
  method ReduceRows(e: real -> real, m: nat, ghost a: AttentionRows, t: Tile, rowBase: nat, ghost base: nat, score: array2<Flt>,
                    rowM: array<Flt>, rowL: array<Flt>, rowScale: array<Flt>)
    requires e == a.e && m == a.m && IsExp(e) && t.Positive() && base < a.n
    requires score.Length0 == t.br && score.Length1 == t.bc
    requires rowM.Length == rowL.Length == rowScale.Length == t.br
    requires rowM != rowL && rowM != rowScale && rowL != rowScale
    requires forall r, c :: 0 <= r < t.br && 0 <= c < t.bc ==> score[r, c] == ScoreCell(a, rowBase + r, base, c)
    requires RowsSeen(a, t, rowBase, base, rowM, rowL)
    modifies score, rowM, rowL, rowScale
    ensures RowsSeen(a, t, rowBase, Seen(base, t.bc, a.n), rowM, rowL)
    ensures forall r :: 0 <= r < t.br && rowBase + r < a.m ==>
              rowScale[r] == Correction(a.e, a.Row(rowBase + r), base, Seen(base, t.bc, a.n))
    ensures forall r, c :: 0 <= r < t.br && 0 <= c < t.bc && rowBase + r < a.m ==>
              score[r, c] == WeightCell(a, rowBase + r, base, t.bc, c)
  {
    hide RowState, Correction, WeightCell, ScoreCell, IsExp;
    ghost var n2, d := Seen(base, t.bc, a.n), {};
    StrideStart(t.br, 1, t.threads);
    for tid := 0 to t.threads
      invariant Covers(d, t.br, 1, tid, 0, t.threads)
      invariant forall r :: 0 <= r < t.br && rowBase + r < a.m ==>
        RowState(a, rowBase + r, if (r, 0) in d then n2 else base, rowM[r], rowL[r])
      invariant forall r :: 0 <= r < t.br && rowBase + r < a.m && (r, 0) in d ==>
        rowScale[r] == Correction(a.e, a.Row(rowBase + r), base, n2)
      invariant forall r, c :: 0 <= r < t.br && 0 <= c < t.bc && rowBase + r < a.m ==>
        score[r, c] == if (r, 0) in d then WeightCell(a, rowBase + r, base, t.bc, c)
                       else ScoreCell(a, rowBase + r, base, c)
    {
      var r0 := tid;
      StrideEnter(d, t.br, 1, tid, t.threads);
      while r0 < t.br
        invariant r0 % t.threads == tid && Covers(d, t.br, 1, tid, r0, t.threads)
        invariant forall r :: 0 <= r < t.br && rowBase + r < a.m ==>
          RowState(a, rowBase + r, if (r, 0) in d then n2 else base, rowM[r], rowL[r])
        invariant forall r :: 0 <= r < t.br && rowBase + r < a.m && (r, 0) in d ==>
          rowScale[r] == Correction(a.e, a.Row(rowBase + r), base, n2)
        invariant forall r, c :: 0 <= r < t.br && 0 <= c < t.bc && rowBase + r < a.m ==>
          score[r, c] == if (r, 0) in d then WeightCell(a, rowBase + r, base, t.bc, c)
                         else ScoreCell(a, rowBase + r, base, c)
      {
        StrideStep(d, t.br, 1, tid, r0, t.threads);
        if rowBase + r0 < m {
          ReduceRow(e, a, t, rowBase + r0, r0, base, score, rowM, rowL, rowScale);
        }
        d := d + {(r0, 0)};
        r0 := r0 + t.threads;
      }
      StrideLeave(d, t.br, 1, tid, r0, t.threads);
    }
    StrideFinish(d, t.br, 1, t.threads);
  }

  /** The operand v holds the value columns of a. */
  ghost predicate HoldsValues(v: Operand, a: AttentionRows) {
    v.Rows() == a.n && v.Cols() == a.d && forall j, d :: a.ValueAt(j, d) == v.At(j, d)
  }

  /** One accumulator cell: rescale, then add the chunk's weights times its values. */
  method AccumulateCell(v: Operand, ghost a: AttentionRows, t: Tile, ghost i: nat, col: nat, r: nat, base: nat,
                        score: array2<Flt>, prev: Flt, correction: Flt)
    returns (acc: Flt)
    requires HoldsValues(v, a) && IsExp(a.e) && t.Positive() && r < t.br
    requires i < a.m && col < a.d && base < a.n
    requires score.Length0 == t.br && score.Length1 == t.bc
    requires forall c :: 0 <= c < t.bc ==> score[r, c] == WeightCell(a, i, base, t.bc, c)
    requires prev == AccSeen(a.e, a.Row(i), a.Col(col), base)
    requires correction == Correction(a.e, a.Row(i), base, Seen(base, t.bc, a.n))
    ensures acc == AccSeen(a.e, a.Row(i), a.Col(col), Seen(base, t.bc, a.n))
  {
    ghost var n2 := Seen(base, t.bc, a.n);
    AccRescales(a, i, col, base, n2);
    acc := FMul(correction, prev);
    for c := 0 to t.bc
      invariant acc == AccUpTo(a, i, col, n2, Seen(base, c, a.n))
    {
      if base + c < v.Rows() {
        assert a.ValueAt(base + c, col) == v.At(base + c, col);
        AccStep(a, i, col, base, t.bc, c);
        acc := FAdd(acc, FMul(score[r, c], Fin(v.LoadAt(base + c, col))));
      }
    }
  }

  method AccumulateChunk(m: nat, v: Operand, ghost a: AttentionRows, t: Tile, rowBase: nat, colBase: nat, base: nat,
                         score: array2<Flt>, rowScale: array<Flt>, accum: array2<Flt>)
    requires m == a.m && HoldsValues(v, a) && IsExp(a.e) && t.Positive() && base < a.n
    requires score.Length0 == t.br && score.Length1 == t.bc && rowScale.Length == t.br
    requires accum.Length0 == t.br && accum.Length1 == t.dtile && accum != score
    requires forall r, c :: 0 <= r < t.br && 0 <= c < t.bc && rowBase + r < a.m ==>
               score[r, c] == WeightCell(a, rowBase + r, base, t.bc, c)
    requires forall r :: 0 <= r < t.br && rowBase + r < a.m ==>
               rowScale[r] == Correction(a.e, a.Row(rowBase + r), base, Seen(base, t.bc, a.n))
    requires AccumSeen(a, t, rowBase, colBase, base, accum)
    modifies accum
    ensures AccumSeen(a, t, rowBase, colBase, Seen(base, t.bc, a.n), accum)
  {
    hide AccSeen, Correction, WeightCell, IsExp;
    ghost var n2, d := Seen(base, t.bc, a.n), {};
    StrideStart(t.br, t.dtile, t.threads);
    for tid := 0 to t.threads
      invariant Covers(d, t.br, t.dtile, tid, 0, t.threads)
      invariant forall r, c :: 0 <= r < t.br && 0 <= c < t.dtile && rowBase + r < a.m && colBase + c < a.d ==>
        accum[r, c] == AccSeen(a.e, a.Row(rowBase + r), a.Col(colBase + c), if (r, c) in d then n2 else base)
    {
      var idx := tid;
      StrideEnter(d, t.br, t.dtile, tid, t.threads);
      while idx < t.br * t.dtile
        invariant idx % t.threads == tid && Covers(d, t.br, t.dtile, tid, idx, t.threads)
        invariant forall r, c :: 0 <= r < t.br && 0 <= c < t.dtile && rowBase + r < a.m && colBase + c < a.d ==>
          accum[r, c] == AccSeen(a.e, a.Row(rowBase + r), a.Col(colBase + c), if (r, c) in d then n2 else base)
      {
        StrideStep(d, t.br, t.dtile, tid, idx, t.threads);
        var r, c := idx / t.dtile, idx % t.dtile;
        if rowBase + r < m && colBase + c < v.Cols() {
          accum[r, c] := AccumulateCell(v, a, t, rowBase + r, colBase + c, r, base, score, accum[r, c], rowScale[r]);
        }
        d := d + {(r, c)};
        idx := idx + t.threads;
      }
      StrideLeave(d, t.br, t.dtile, tid, idx, t.threads);
    }
    StrideFinish(d, t.br, t.dtile, t.threads);
  }

  /** The output cell (i, j): attention, or NaN when there are no keys at all. */
  ghost function Result(a: AttentionRows, i: int, j: int): Flt
    requires IsExp(a.e)
  {
    if a.n == 0 then Bad
    else
      PartitionPositive(a.e, a.Row(i), a.n);
      Fin(a.Attention(i, j))
  }

  lemma QuotientIsResult(a: AttentionRows, i: int, j: int)
    requires IsExp(a.e)
    ensures FDiv(AccSeen(a.e, a.Row(i), a.Col(j), a.n), SumSeen(a.e, a.Row(i), a.n)) == Result(a, i, j)
  {
    if a.n > 0 {
      OnlineQuotientIsAttention(a.e, a.Row(i), a.Col(j), RowMax(a.Row(i), a.n), a.n);
    }
  }

  /** The output cell (i, j) belongs to the tile at (rowBase, colBase). */
  predicate InTile(t: Tile, rowBase: nat, colBase: nat, i: int, j: int) {
    rowBase <= i < rowBase + t.br && colBase <= j < colBase + t.dtile
  }

  method StoreTile(m: nat, n: nat, ghost a: AttentionRows, t: Tile, rowBase: nat, colBase: nat, accum: array2<Flt>,
                   rowL: array<Flt>, rowM: array<Flt>, out: array2<Flt>)
    requires m == a.m && n == a.d && IsExp(a.e) && t.Positive()
    requires accum.Length0 == t.br && accum.Length1 == t.dtile && rowL.Length == rowM.Length == t.br
    requires out.Length0 == a.m && out.Length1 == a.d && out != accum
    requires RowsSeen(a, t, rowBase, a.n, rowM, rowL)
    requires AccumSeen(a, t, rowBase, colBase, a.n, accum)
    modifies out
    ensures forall i, j :: 0 <= i < a.m && 0 <= j < a.d ==>
              out[i, j] == if InTile(t, rowBase, colBase, i, j) then Result(a, i, j) else old(out[i, j])
  {
    ghost var d := {};
    StrideStart(t.br, t.dtile, t.threads);
    for tid := 0 to t.threads
      invariant Covers(d, t.br, t.dtile, tid, 0, t.threads)
      invariant forall i, j :: 0 <= i < a.m && 0 <= j < a.d ==>
        out[i, j] == if InTile(t, rowBase, colBase, i, j) && (i - rowBase, j - colBase) in d
                     then Result(a, i, j) else old(out[i, j])
    {
      var idx := tid;
      StrideEnter(d, t.br, t.dtile, tid, t.threads);
      while idx < t.br * t.dtile
        invariant idx % t.threads == tid && Covers(d, t.br, t.dtile, tid, idx, t.threads)
        invariant forall i, j :: 0 <= i < a.m && 0 <= j < a.d ==>
          out[i, j] == if InTile(t, rowBase, colBase, i, j) && (i - rowBase, j - colBase) in d
                       then Result(a, i, j) else old(out[i, j])
      {
        StrideStep(d, t.br, t.dtile, tid, idx, t.threads);
        var r, c := idx / t.dtile, idx % t.dtile;
        if rowBase + r < m && colBase + c < n {
          QuotientIsResult(a, rowBase + r, colBase + c);
          out[rowBase + r, colBase + c] := FDiv(accum[r, c], rowL[r]);
        }
        d := d + {(r, c)};
        idx := idx + t.threads;
      }
      StrideLeave(d, t.br, t.dtile, tid, idx, t.threads);
    }
    StrideFinish(d, t.br, t.dtile, t.threads);
  }

  /** One iteration of the chunk loop: score, reduce, accumulate, with a barrier after each. */
  method ProcessChunk(p: Problem, ghost a: AttentionRows, t: Tile, rowBase: nat, colBase: nat, base: nat,
                      score: array2<Flt>, rowM: array<Flt>, rowL: array<Flt>, rowScale: array<Flt>, accum: array2<Flt>)
    requires a == p.Meaning() && IsExp(a.e) && p.ShapesMatch() && t.Positive() && base < a.n
    requires score.Length0 == t.br && score.Length1 == t.bc
    requires accum.Length0 == t.br && accum.Length1 == t.dtile && accum != score
    requires rowM.Length == rowL.Length == rowScale.Length == t.br
    requires rowM != rowL && rowM != rowScale && rowL != rowScale
    requires RowsSeen(a, t, rowBase, base, rowM, rowL)
    requires AccumSeen(a, t, rowBase, colBase, base, accum)
    modifies score, rowM, rowL, rowScale, accum
    ensures RowsSeen(a, t, rowBase, Seen(base, t.bc, a.n), rowM, rowL)
    ensures AccumSeen(a, t, rowBase, colBase, Seen(base, t.bc, a.n), accum)
  {
    ScoreChunk(p, a, t, rowBase, base, score);
    ReduceRows(p.e, p.M(), a, t, rowBase, base, score, rowM, rowL, rowScale);
    AccumulateChunk(p.M(), p.v, a, t, rowBase, colBase, base, score, rowScale, accum);
  }

  /** Initialise the block's state and visit the keys chunk by chunk. */
  method VisitKeys(p: Problem, ghost a: AttentionRows, t: Tile, rowBase: nat, colBase: nat, score: array2<Flt>,
                   rowM: array<Flt>, rowL: array<Flt>, rowScale: array<Flt>, accum: array2<Flt>)
    requires a == p.Meaning() && IsExp(a.e) && p.ShapesMatch() && t.Positive()
    requires score.Length0 == t.br && score.Length1 == t.bc
    requires rowM.Length == rowL.Length == rowScale.Length == t.br
    requires rowM != rowL && rowM != rowScale && rowL != rowScale
    requires accum.Length0 == t.br && accum.Length1 == t.dtile && accum != score
    modifies score, rowM, rowL, rowScale, accum
    ensures RowsSeen(a, t, rowBase, a.n, rowM, rowL)
    ensures AccumSeen(a, t, rowBase, colBase, a.n, accum)
  {
    hide RowMax, ExpSum, ExpDot, IsExp;
    InitAccum(t, accum);
    InitRows(t, rowM, rowL, rowScale);
    var base := 0;
    while base < p.N()
      invariant RowsSeen(a, t, rowBase, Seen(0, base, a.n), rowM, rowL)
      invariant AccumSeen(a, t, rowBase, colBase, Seen(0, base, a.n), accum)
    {
      ProcessChunk(p, a, t, rowBase, colBase, base, score, rowM, rowL, rowScale, accum);
      base := base + t.bc;
    }
  }

  /** One thread block: visit the keys, then normalise and store. */
  method Block(p: Problem, ghost a: AttentionRows, t: Tile, bidM: nat, bidD: nat, out: array2<Flt>)
    requires a == p.Meaning() && IsExp(a.e) && p.ShapesMatch() && t.Positive()
    requires out.Length0 == a.m && out.Length1 == a.d
    modifies out
    ensures forall i, j :: 0 <= i < a.m && 0 <= j < a.d ==>
              out[i, j] == if InTile(t, bidM * t.br, bidD * t.dtile, i, j) then Result(a, i, j) else old(out[i, j])
  {
    hide RowMax, ExpSum, ExpDot, IsExp, Result, InTile;
    var accum, score := new Flt[t.br, t.dtile], new Flt[t.br, t.bc];
    var rowM, rowL, rowScale := new Flt[t.br], new Flt[t.br], new Flt[t.br];
    var rowBase, colBase := bidM * t.br, bidD * t.dtile;
    VisitKeys(p, a, t, rowBase, colBase, score, rowM, rowL, rowScale, accum);
    StoreTile(p.M(), p.D(), a, t, rowBase, colBase, accum, rowL, rowM, out);
  }

  /** The whole launch. Every output cell is softmax(Q K) V, for every tile shape and block size. */
  method Launch(p: Problem, plan: TileShape, out: array2<Flt>)
    requires IsExp(p.e) && p.ShapesMatch()
    requires out.Length0 == p.M() && out.Length1 == p.D()
    modifies out
    ensures forall i, j :: 0 <= i < p.M() && 0 <= j < p.D() ==> out[i, j] == Result(p.Meaning(), i, j)
  {
    ghost var a := p.Meaning();
    var t := ChooseTile(plan, p.D());
    var gridM, gridD := CeilDiv(p.M(), t.br), CeilDiv(p.D(), t.dtile);
    CeilDivCovers(p.M(), t.br);
    CeilDivCovers(p.D(), t.dtile);
    for bm := 0 to gridM
      invariant forall i, j :: 0 <= i < a.m && 0 <= j < a.d && i < bm * t.br ==> out[i, j] == Result(a, i, j)
    {
      LaunchRow(p, a, t, bm, gridD, out);
      assert (bm + 1) * t.br == bm * t.br + t.br;
    }
  }

  /** The blocks of one row of the grid. */
  method LaunchRow(p: Problem, ghost a: AttentionRows, t: Tile, bm: nat, gridD: nat, out: array2<Flt>)
    requires a == p.Meaning() && IsExp(a.e) && p.ShapesMatch() && t.Positive() && a.d <= gridD * t.dtile
    requires out.Length0 == a.m && out.Length1 == a.d
    modifies out
    ensures forall i, j :: 0 <= i < a.m && 0 <= j < a.d ==>
              out[i, j] == if bm * t.br <= i < bm * t.br + t.br then Result(a, i, j) else old(out[i, j])
  {
    for bd := 0 to gridD
      invariant forall i, j :: 0 <= i < a.m && 0 <= j < a.d ==>
        out[i, j] == if bm * t.br <= i < bm * t.br + t.br && j < bd * t.dtile then Result(a, i, j) else old(out[i, j])
    {
      Block(p, a, t, bm, bd, out);
      assert (bd + 1) * t.dtile == bd * t.dtile + t.dtile;
    }
  }
}
