/** Block-wide reductions: every thread folds a strided share of a row, the
    partial results are folded pairwise in a halving tree. */
module Reduction {
  import opened ExtendedReal
  import opened Grid

  datatype Op = MaxOp | AddOp

  function Unit(op: Op): Flt {
    match op case MaxOp => NegInf case AddOp => Fin(0.0)
  }

  function Combine(op: Op, a: Flt, b: Flt): Flt {
    match op case MaxOp => FMax(a, b) case AddOp => FAdd(a, b)
  }

  lemma Monoid(op: Op, a: Flt, b: Flt, c: Flt)
    ensures Combine(op, a, Combine(op, b, c)) == Combine(op, Combine(op, a, b), c)
    ensures Combine(op, a, b) == Combine(op, b, a)
    ensures Combine(op, a, Unit(op)) == a
  {}

  /** Fold of f(0), ..., f(n-1) in order: what a row reduction means. */
  ghost function Fold(op: Op, f: int -> Flt, n: nat): Flt {
    if n == 0 then Unit(op) else Combine(op, Fold(op, f, n - 1), f(n - 1))
  }

  /** What thread t of `threads` accumulates: the indices congruent to t. */
  ghost function Partial(op: Op, f: int -> Flt, n: nat, t: nat, threads: nat): Flt
    requires threads > 0
  {
    if n == 0 then Unit(op)
    else if (n - 1) % threads == t then Combine(op, Partial(op, f, n - 1, t, threads), f(n - 1))
    else Partial(op, f, n - 1, t, threads)
  }

  /** Fold of the first k partial results. */
  ghost function Partials(op: Op, f: int -> Flt, n: nat, k: nat, threads: nat): Flt
    requires threads > 0
  {
    if k == 0 then Unit(op)
    else Combine(op, Partials(op, f, n, k - 1, threads), Partial(op, f, n, k - 1, threads))
  }

  lemma {:induction false} PartialsStep(op: Op, f: int -> Flt, n: nat, k: nat, threads: nat)
    requires threads > 0
    ensures Partials(op, f, n + 1, k, threads) ==
            if n % threads < k then Combine(op, Partials(op, f, n, k, threads), f(n)) else Partials(op, f, n, k, threads)
  {
    if k > 0 {
      PartialsStep(op, f, n, k - 1, threads);
      var before, mine := Partials(op, f, n, k - 1, threads), Partial(op, f, n, k - 1, threads);
      if n % threads < k - 1 {
        Monoid(op, before, f(n), mine);
        Monoid(op, before, mine, f(n));
        Monoid(op, mine, f(n), f(n));
      } else if n % threads == k - 1 {
        Monoid(op, before, mine, f(n));
      }
    }
  }

  lemma {:induction false} PartialsEmpty(op: Op, f: int -> Flt, k: nat, threads: nat)
    requires threads > 0
    ensures Partials(op, f, 0, k, threads) == Unit(op)
  {
    hide Combine;
    if k > 0 {
      PartialsEmpty(op, f, k - 1, threads);
      Monoid(op, Unit(op), Unit(op), Unit(op));
    }
  }

  /** The strided shares cover every index once: together they are the whole fold. */
  lemma {:induction false} PartialsCover(op: Op, f: int -> Flt, n: nat, threads: nat)
    requires threads > 0
    ensures Partials(op, f, n, threads, threads) == Fold(op, f, n)
  {
    if n == 0 {
      PartialsEmpty(op, f, threads, threads);
    } else {
      PartialsCover(op, f, n - 1, threads);
      PartialsStep(op, f, n - 1, threads, threads);
    }
  }

  ghost function FoldSeq(op: Op, s: seq<Flt>): Flt {
    if s == [] then Unit(op) else Combine(op, FoldSeq(op, s[..|s| - 1]), s[|s| - 1])
  }

  lemma {:induction false} FoldSeqIsPartials(op: Op, f: int -> Flt, n: nat, s: seq<Flt>, threads: nat)
    requires threads > 0
    requires forall t :: 0 <= t < |s| ==> s[t] == Partial(op, f, n, t, threads)
    ensures FoldSeq(op, s) == Partials(op, f, n, |s|, threads)
  {
    if s != [] {
      FoldSeqIsPartials(op, f, n, s[..|s| - 1], threads);
    }
  }

  lemma {:induction false} FoldSeqConcat(op: Op, a: seq<Flt>, b: seq<Flt>)
    ensures FoldSeq(op, a + b) == Combine(op, FoldSeq(op, a), FoldSeq(op, b))
  {
    if b == [] {
      assert a + b == a;
      Monoid(op, FoldSeq(op, a), Unit(op), Unit(op));
    } else {
      var b', x := b[..|b| - 1], b[|b| - 1];
      assert (a + b)[..|a + b| - 1] == a + b';
      FoldSeqConcat(op, a, b');
      Monoid(op, FoldSeq(op, a), FoldSeq(op, b'), x);
    }
  }

  /** One level of the tree: combining the halves cell by cell keeps the fold. */
  lemma {:induction false} HalvesFold(op: Op, a: seq<Flt>, b: seq<Flt>, t: seq<Flt>)
    requires |a| == |b| == |t| && forall i :: 0 <= i < |t| ==> t[i] == Combine(op, a[i], b[i])
    ensures FoldSeq(op, t) == FoldSeq(op, a + b)
  {
    FoldSeqConcat(op, a, b);
    if t == [] {
      Monoid(op, Unit(op), Unit(op), Unit(op));
    } else {
      var n := |t| - 1;
      HalvesFold(op, a[..n], b[..n], t[..n]);
      FoldSeqConcat(op, a[..n], b[..n]);
      Interchange(op, FoldSeq(op, a[..n]), FoldSeq(op, b[..n]), a[n], b[n]);
    }
  }

  lemma LevelKeepsFold(op: Op, before: seq<Flt>, after: seq<Flt>, s: nat)
    requires |before| == 2 * s && |after| == s
    requires forall i :: 0 <= i < s ==> after[i] == Combine(op, before[i], before[i + s])
    ensures FoldSeq(op, after) == FoldSeq(op, before)
  {
    HalvesFold(op, before[..s], before[s..], after);
    assert before[..s] + before[s..] == before;
  }

  lemma FoldOne(op: Op, s: seq<Flt>)
    requires |s| == 1
    ensures FoldSeq(op, s) == s[0]
  {
    Monoid(op, Unit(op), s[0], s[0]);
    Monoid(op, s[0], Unit(op), Unit(op));
  }

  lemma Interchange(op: Op, a: Flt, b: Flt, x: Flt, y: Flt)
    ensures Combine(op, Combine(op, a, b), Combine(op, x, y)) == Combine(op, Combine(op, a, x), Combine(op, b, y))
  {
    match op
    case MaxOp =>
    case AddOp =>
  }

  predicate PowerOfTwo(n: nat) {
    n == 1 || (n > 1 && n % 2 == 0 && PowerOfTwo(n / 2))
  }

  /** One level: the threads below s combine their cell with the one s further. */
  method TreeLevel(op: Op, smem: array<Flt>, s: nat)
    requires 2 * s <= smem.Length
    modifies smem
    ensures forall i :: 0 <= i < s ==> smem[i] == Combine(op, old(smem[i]), old(smem[i + s]))
  {
    for tid := 0 to smem.Length
      invariant forall i :: 0 <= i < s && i < tid ==> smem[i] == Combine(op, old(smem[i]), old(smem[i + s]))
      invariant forall i :: tid <= i < smem.Length || s <= i < smem.Length ==> smem[i] == old(smem[i])
    {
      if tid < s {
        smem[tid] := Combine(op, smem[tid], smem[tid + s]);
      }
    }
  }

  /** The halving tree over workgroup memory. Each level ends at a barrier. */
  method TreeReduce(op: Op, smem: array<Flt>)
    requires PowerOfTwo(smem.Length)
    modifies smem
    ensures smem[0] == FoldSeq(op, old(smem[..]))
  {
    var s := smem.Length / 2;
    ghost var width := smem.Length;
    assert smem[..width] == smem[..];
    while s >= 1
      invariant 1 <= width <= smem.Length && s == width / 2 && PowerOfTwo(width)
      invariant FoldSeq(op, smem[..width]) == FoldSeq(op, old(smem[..]))
      decreases s
    {
      ghost var before := smem[..width];
      assert width == 2 * s;
      TreeLevel(op, smem, s);
      LevelKeepsFold(op, before, smem[..s], s);
      width := s;
      s := s / 2;
    }
    FoldOne(op, smem[..1]);
  }
}
