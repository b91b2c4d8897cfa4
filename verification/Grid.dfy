/** Index arithmetic of the emitted kernels: a flat index over a tile that is W
    wide, and the loop `for idx = tid to total step threads` that shares the flat
    indices among the threads of a block. */
module Grid {

  function Flat(r: nat, c: nat, w: nat): nat { r * w + c }

  // A multiple of w strictly between -w and w is zero.
  lemma SmallMultipleIsZero(d: int, w: int)
    requires -w < d * w < w
    ensures d == 0
  {
    assert d >= 1 ==> d * w >= w;
    assert d <= -1 ==> d * w <= -w;
  }

  lemma DivModUnique(x: nat, w: nat, q: int, r: nat)
    requires r < w && x == q * w + r
    ensures x / w == q && x % w == r
  {
    var d := x / w - q;
    DivMod(x, w);
    assert d * w == (x / w) * w - q * w;
    SmallMultipleIsZero(d, w);
  }

  lemma DivMod(x: nat, w: nat)
    requires w > 0
    ensures x == (x / w) * w + x % w && 0 <= x % w < w
  {}

  lemma FlatSplits(r: nat, c: nat, w: nat)
    requires c < w
    ensures Flat(r, c, w) / w == r && Flat(r, c, w) % w == c
  {
    DivModUnique(Flat(r, c, w), w, r, c);
  }

  lemma FlatBound(r: nat, c: nat, w: nat, rows: nat)
    requires r < rows && c < w
    ensures Flat(r, c, w) < rows * w
  {
    MulMonotone(r + 1, rows, w);
    assert (r + 1) * w == r * w + w;
  }

  lemma MulMonotone(a: nat, b: nat, w: nat)
    requires a <= b
    ensures a * w <= b * w
  {}

  lemma FlatUnsplit(x: nat, w: nat, rows: nat)
    requires w > 0 && x < rows * w
    ensures 0 <= x / w < rows && 0 <= x % w < w && Flat(x / w, x % w, w) == x
  {
    DivMod(x, w);
    if x / w >= rows {
      MulMonotone(rows, x / w, w);
    }
  }

  function Min(a: int, b: int): int { if b < a then b else a }

  function CeilDiv(a: nat, b: nat): nat
    requires b > 0
  {
    (a + b - 1) / b
  }

  lemma CeilDivBounds(a: nat, b: nat, q: nat)
    requires b > 0
    ensures q < CeilDiv(a, b) <==> q * b < a
  {
    DivMod(a + b - 1, b);
    var c := CeilDiv(a, b);
    if q < c {
      MulMonotone(q + 1, c, b);
    } else {
      MulMonotone(c, q, b);
    }
  }

  lemma CeilDivCovers(n: nat, w: nat)
    requires w > 0
    ensures n <= CeilDiv(n, w) * w
  {
    CeilDivBounds(n, w, CeilDiv(n, w));
  }

  /** The number of iterations of `for x = lb to ub step step`. */
  function Trip(lb: int, ub: int, step: int): nat
    requires step > 0
  {
    if lb < ub then CeilDiv(ub - lb, step) else 0
  }

  lemma TripIs(lb: int, ub: int, step: int, i: nat)
    requires step > 0
    ensures lb + i * step < ub <==> i < Trip(lb, ub, step)
    ensures i > 0 ==> lb + i * step == lb + (i - 1) * step + step
  {
    MulMonotone(0, i, step);
    if lb < ub {
      CeilDivBounds(ub - lb, step, i);
    }
  }

  /** Cell (r, c) of a tile w wide has been handled by the strided loop: threads
      below `tid` have finished their share, thread `tid` its indices below `idx`. */
  ghost predicate Done(r: nat, c: nat, w: nat, tid: nat, idx: nat, threads: nat)
    requires threads > 0
  {
    var x := Flat(r, c, w);
    x % threads < tid || (x % threads == tid && x < idx)
  }

  /** d holds exactly the cells of the tile that are Done. The trigger keeps the
      arithmetic of Done out of the kernels, which only look at d. */
  ghost predicate Covers(d: set<(int, int)>, rows: nat, w: nat, tid: nat, idx: nat, threads: nat)
    requires threads > 0
  {
    forall r: nat, c: nat {:trigger Done(r, c, w, tid, idx, threads)} :: r < rows && c < w ==>
      ((r, c) in d <==> Done(r, c, w, tid, idx, threads))
  }

  lemma StrideStart(rows: nat, w: nat, threads: nat)
    requires threads > 0
    ensures Covers({}, rows, w, 0, 0, threads)
  {}

  lemma StrideEnter(d: set<(int, int)>, rows: nat, w: nat, tid: nat, threads: nat)
    requires tid < threads && Covers(d, rows, w, tid, 0, threads)
    ensures tid % threads == tid
    ensures Covers(d, rows, w, tid, tid, threads)
  {
    DivModUnique(tid, threads, 0, tid);
    forall r: nat, c: nat | r < rows && c < w
      ensures (r, c) in d <==> Done(r, c, w, tid, tid, threads) {
      assert (r, c) in d <==> Done(r, c, w, tid, 0, threads);
      if Flat(r, c, w) < tid {
        DivModUnique(Flat(r, c, w), threads, 0, Flat(r, c, w));
      }
    }
  }

  lemma StrideStep(d: set<(int, int)>, rows: nat, w: nat, tid: nat, idx: nat, threads: nat)
    requires threads > 0 && w > 0 && idx % threads == tid && idx < rows * w
    requires Covers(d, rows, w, tid, idx, threads)
    ensures (idx + threads) % threads == tid
    ensures 0 <= idx / w < rows && 0 <= idx % w < w
    ensures (idx / w, idx % w) !in d
    ensures Covers(d + {(idx / w, idx % w)}, rows, w, tid, idx + threads, threads)
  {
    FlatUnsplit(idx, w, rows);
    NextIndex(tid, idx, threads);
    assert !Done(idx / w, idx % w, w, tid, idx, threads);
    forall r: nat, c: nat | r < rows && c < w
      ensures (r, c) in d + {(idx / w, idx % w)} <==> Done(r, c, w, tid, idx + threads, threads)
    {
      assert (r, c) in d <==> Done(r, c, w, tid, idx, threads);
      DoneStep(r, c, w, tid, idx, threads);
    }
  }

  lemma NextIndex(tid: nat, idx: nat, threads: nat)
    requires threads > 0 && idx % threads == tid
    ensures (idx + threads) % threads == tid
  {
    DivMod(idx, threads);
    DivModUnique(idx + threads, threads, idx / threads + 1, tid);
  }

  lemma DoneStep(r: nat, c: nat, w: nat, tid: nat, idx: nat, threads: nat)
    requires threads > 0 && c < w && idx % threads == tid
    ensures Done(r, c, w, tid, idx + threads, threads) <==>
            Done(r, c, w, tid, idx, threads) || (r == idx / w && c == idx % w)
  {
    FlatSplits(r, c, w);
    DivMod(idx, w);
    OnlyOneInWindow(Flat(r, c, w), idx, threads);
  }

  lemma OnlyOneInWindow(x: nat, idx: nat, threads: nat)
    requires threads > 0
    ensures x % threads == idx % threads && idx <= x < idx + threads ==> x == idx
  {
    DivMod(x, threads);
    DivMod(idx, threads);
    if x % threads == idx % threads && idx <= x < idx + threads {
      var k := x / threads - idx / threads;
      assert k * threads == (x / threads) * threads - (idx / threads) * threads;
      SmallMultipleIsZero(k, threads);
    }
  }

  lemma StrideLeave(d: set<(int, int)>, rows: nat, w: nat, tid: nat, idx: nat, threads: nat)
    requires threads > 0 && idx >= rows * w && Covers(d, rows, w, tid, idx, threads)
    ensures Covers(d, rows, w, tid + 1, 0, threads)
  {
    forall r: nat, c: nat | r < rows && c < w
      ensures (r, c) in d <==> Done(r, c, w, tid + 1, 0, threads) {
      assert (r, c) in d <==> Done(r, c, w, tid, idx, threads);
      FlatBound(r, c, w, rows);
    }
  }

  lemma StrideFinish(d: set<(int, int)>, rows: nat, w: nat, threads: nat)
    requires threads > 0 && Covers(d, rows, w, threads, 0, threads)
    ensures forall r: nat, c: nat :: r < rows && c < w ==> (r, c) in d
  {
    forall r: nat, c: nat | r < rows && c < w
      ensures (r, c) in d {
      DivMod(Flat(r, c, w), threads);
      assert Done(r, c, w, threads, 0, threads);
    }
  }
}
