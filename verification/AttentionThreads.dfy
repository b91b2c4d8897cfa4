/** The attention kernel as its threads run it: the accesses of each strided loop with the values they store, every
    interleaving between two barriers allowed, the phases joined barrier by barrier. The block still leaves what
    `FamilyC.Block` leaves. */
module AttentionThreads {
  import opened ExtendedReal
  import opened AttentionMath
  import opened Grid
  import opened FamilyC
  import opened Races

  /** The work of one block. */
  datatype Work = Work(p: Problem, t: Tile, rowBase: nat, colBase: nat)
  {
    predicate Ready() {
      p.ShapesMatch() && t.Positive()
    }
    function Accums(): nat { t.br * t.dtile }
    function Keys(): nat { t.br * t.bc }
  }

  /** Row and column of a flat index. */
  function RowOf(x: nat, w: nat): nat
    requires w > 0
  {
    x / w
  }

  function ColOf(x: nat, w: nat): nat
    requires w > 0
  {
    x % w
  }

  lemma Unflat(r: nat, c: nat, w: nat)
    requires c < w
    ensures RowOf(Flat(r, c, w), w) == r && ColOf(Flat(r, c, w), w) == c
  {
    FlatSplits(r, c, w);
  }

  lemma Reflat(x: nat, w: nat)
    requires w > 0
    ensures Flat(RowOf(x, w), ColOf(x, w), w) == x
  {
    DivMod(x, w);
  }

  // ---- the iterations ------------------------------------------------------

  function SetUpItem(b: Work, x: nat): Program
    requires b.Ready()
  {
    if x < b.Accums() then
      [Begin, Store(Accum(RowOf(x, b.t.dtile), ColOf(x, b.t.dtile)), _ => Fin(0.0))]
    else
      var r := x - b.Accums();
      [Begin, Store(RowM(r), _ => NegInf)] + [Store(RowL(r), _ => Fin(0.0)), Store(RowScale(r), _ => Fin(0.0))]
  }

  function ScoreValue(b: Work, base: nat, r: nat, c: nat): Word
    requires b.Ready()
  {
    if b.rowBase + r < b.p.M() && base + c < b.p.N() then Fin(b.p.Dot(b.rowBase + r, base + c, b.p.Dh())) else NegInf
  }

  function ScoreItem(b: Work, base: nat, x: nat): Program
    requires b.Ready()
  {
    var (r, c) := (RowOf(x, b.t.bc), ColOf(x, b.t.bc));
    [Begin, Store(Score(r, c), _ => ScoreValue(b, base, r, c))]
  }

  function LoadScores(row: nat, n: nat): Program {
    if n == 0 then [] else LoadScores(row, n - 1) + [Load(Score(row, n - 1))]
  }

  /** What a row's thread computes: it has loaded bc scores, the row's maximum and sum, then scores again. */
  function ChunkMaxOf(loads: seq<Word>, k: nat): Word {
    if k == 0 then NegInf else FMax(ChunkMaxOf(loads, k - 1), At(loads, k - 1))
  }

  function NewMax(loads: seq<Word>, bc: nat): Word { FMax(At(loads, bc), ChunkMaxOf(loads, bc)) }

  function Scale(e: real -> real, loads: seq<Word>, bc: nat): Word { FExp(e, FSub(At(loads, bc), NewMax(loads, bc))) }

  function Weight(e: real -> real, loads: seq<Word>, bc: nat, c: nat): Word {
    FExp(e, FSub(At(loads, bc + 2 + c), NewMax(loads, bc)))
  }

  function NewSum(e: real -> real, loads: seq<Word>, bc: nat, k: nat): Word {
    if k == 0 then FMul(Scale(e, loads, bc), At(loads, bc + 1))
    else FAdd(NewSum(e, loads, bc, k - 1), Weight(e, loads, bc, k - 1))
  }

  /** The accesses of a row's thread before its second pass. */
  function FirstPass(r: nat, bc: nat): Program {
    [Begin] + LoadScores(r, bc) + [Load(RowM(r))] + [Load(RowL(r))]
  }

  /** Second pass over a row's scores: each is loaded and its weight stored in its place. */
  function Weigh(b: Work, row: nat, k: nat): Program {
    if k == 0 then []
    else
      Weigh(b, row, k - 1)
      + [Load(Score(row, k - 1))]
      + [Store(Score(row, k - 1), (loads: seq<Word>) => Weight(b.p.e, loads, b.t.bc, k - 1))]
  }

  function ReduceItem(b: Work, r: nat): Program
    requires b.Ready()
  {
    if b.rowBase + r < b.p.M() then
      FirstPass(r, b.t.bc) + Weigh(b, r, b.t.bc)
      + [Store(RowM(r), (loads: seq<Word>) => NewMax(loads, b.t.bc))]
      + [Store(RowL(r), (loads: seq<Word>) => NewSum(b.p.e, loads, b.t.bc, b.t.bc))]
      + [Store(RowScale(r), (loads: seq<Word>) => Scale(b.p.e, loads, b.t.bc))]
    else []
  }

  /** Keys of a chunk that exist. */
  function Valid(b: Work, base: nat): nat
    requires base < b.p.N()
  {
    Seen(base, b.t.bc, b.p.N()) - base
  }

  /** The accumulator, rescaled, with the first k weights times their values. */
  function NewAccum(b: Work, base: nat, col: nat, loads: seq<Word>, k: nat): Word
    requires base + k <= b.p.v.Rows() && col < b.p.v.Cols()
  {
    if k == 0 then FMul(At(loads, 1), At(loads, 0))
    else FAdd(NewAccum(b, base, col, loads, k - 1), FMul(At(loads, k + 1), Fin(b.p.v.LoadAt(base + k - 1, col))))
  }

  function AccumulateItem(b: Work, base: nat, x: nat): Program
    requires b.Ready() && base < b.p.N()
  {
    var (r, c) := (RowOf(x, b.t.dtile), ColOf(x, b.t.dtile));
    if b.rowBase + r < b.p.M() && b.colBase + c < b.p.D() then
      [Begin, Load(Accum(r, c)), Load(RowScale(r))] + LoadScores(r, Valid(b, base))
      + [Store(Accum(r, c), (loads: seq<Word>) => NewAccum(b, base, b.colBase + c, loads, Valid(b, base)))]
    else []
  }

  function Quotient(loads: seq<Word>): Word { FDiv(At(loads, 0), At(loads, 1)) }

  function StoreItem(b: Work, x: nat): Program
    requires b.Ready()
  {
    var (r, c) := (RowOf(x, b.t.dtile), ColOf(x, b.t.dtile));
    if b.rowBase + r < b.p.M() && b.colBase + c < b.p.D() then
      [Begin, Load(Accum(r, c)), Load(RowL(r)),
       Store(Out(b.rowBase + r, b.colBase + c), (loads: seq<Word>) => Quotient(loads))]
    else []
  }

  // ---- the phases ----------------------------------------------------------

  function SetUpItems(b: Work): (s: seq<Program>)
    requires b.Ready()
    ensures |s| == b.Accums() + b.t.br && forall x :: 0 <= x < |s| ==> s[x] == SetUpItem(b, x)
  {
    seq(b.Accums() + b.t.br, x requires 0 <= x => SetUpItem(b, x))
  }

  function ScoreItems(b: Work, base: nat): (s: seq<Program>)
    requires b.Ready()
    ensures |s| == b.Keys() && forall x :: 0 <= x < |s| ==> s[x] == ScoreItem(b, base, x)
  {
    seq(b.Keys(), x requires 0 <= x => ScoreItem(b, base, x))
  }

  function ReduceItems(b: Work): (s: seq<Program>)
    requires b.Ready()
    ensures |s| == b.t.br && forall r :: 0 <= r < |s| ==> s[r] == ReduceItem(b, r)
  {
    seq(b.t.br, r requires 0 <= r => ReduceItem(b, r))
  }

  function AccumulateItems(b: Work, base: nat): (s: seq<Program>)
    requires b.Ready() && base < b.p.N()
    ensures |s| == b.Accums() && forall x :: 0 <= x < |s| ==> s[x] == AccumulateItem(b, base, x)
  {
    seq(b.Accums(), x requires 0 <= x => AccumulateItem(b, base, x))
  }

  function StoreItems(b: Work): (s: seq<Program>)
    requires b.Ready()
    ensures |s| == b.Accums() && forall x :: 0 <= x < |s| ==> s[x] == StoreItem(b, x)
  {
    seq(b.Accums(), x requires 0 <= x => StoreItem(b, x))
  }

  /** Memory n is what the threads may make of m between two barriers, sharing the iterations of one strided loop. */
  ghost predicate Loop(b: Work, items: seq<Program>, m: Memory, n: Memory)
    requires b.Ready()
  {
    Interleaves(items, StridedShares(b.t.threads, |items|), m, n)
  }

  /** Up to the first barrier: two loops, one over accumulators and one over rows. */
  ghost predicate SetUp(b: Work, m: Memory, n: Memory)
    requires b.Ready()
  {
    Interleaves(SetUpItems(b), TwoLoops(b.t.threads, b.Accums(), b.t.br), m, n)
  }

  /** One chunk of keys: three loops, a barrier after each. */
  ghost predicate Chunk(b: Work, base: nat, m: Memory, n: Memory)
    requires b.Ready() && base < b.p.N()
  {
    exists m1, m2 ::
      Loop(b, ScoreItems(b, base), m, m1) && Loop(b, ReduceItems(b), m1, m2) && Loop(b, AccumulateItems(b, base), m2, n)
  }

  ghost predicate Chunks(b: Work, base: nat, m: Memory, n: Memory)
    requires b.Ready()
    decreases b.p.N() - base
  {
    if base >= b.p.N() then n == m
    else exists m1 :: Chunk(b, base, m, m1) && Chunks(b, base + b.t.bc, m1, n)
  }

  /** The whole block, however its threads interleave between barriers. */
  ghost predicate BlockRuns(b: Work, m: Memory, n: Memory)
    requires b.Ready()
  {
    exists m1, m2 :: SetUp(b, m, m1) && Chunks(b, 0, m1, m2) && Loop(b, StoreItems(b), m2, n)
  }

  // ---- who owns what -------------------------------------------------------

  /** The iteration that may store to a cell, in each loop. */
  function SetUpOwner(b: Work): Cell -> int {
    (c: Cell) => match c
      case Accum(r, d) => Flat(r, d, b.t.dtile)
      case RowM(r) => b.Accums() + r
      case RowL(r) => b.Accums() + r
      case RowScale(r) => b.Accums() + r
      case _ => -1
  }

  function ScoreOwner(b: Work): Cell -> int {
    (c: Cell) => if c.Score? then Flat(c.row, c.col, b.t.bc) else -1
  }

  function ReduceOwner(): Cell -> int {
    (c: Cell) => match c
      case Score(r, _) => r
      case RowM(r) => r
      case RowL(r) => r
      case RowScale(r) => r
      case _ => -1
  }

  function AccumOwner(b: Work): Cell -> int {
    (c: Cell) => if c.Accum? then Flat(c.row, c.col, b.t.dtile) else -1
  }

  function OutOwner(b: Work): Cell -> int {
    (c: Cell) => if c.Out? && InTile(b.t, b.rowBase, b.colBase, c.row, c.col)
                 then Flat(c.row - b.rowBase, c.col - b.colBase, b.t.dtile) else -1
  }

  lemma {:induction false} LoadScoresOwn(owner: Cell -> int, x: nat, row: nat, n: nat)
    requires forall k :: owner(Score(row, k)) == x || owner(Score(row, k)) < 0
    ensures OwnAll(owner, x, LoadScores(row, n))
  {
    if n > 0 {
      LoadScoresOwn(owner, x, row, n - 1);
    }
  }

  lemma {:induction false} WeighOwn(b: Work, row: nat, k: nat)
    ensures OwnAll(ReduceOwner(), row, Weigh(b, row, k))
  {
    if k > 0 {
      WeighOwn(b, row, k - 1);
    }
  }

  lemma SetUpOwned(b: Work)
    requires b.Ready()
    ensures Owned(SetUpItems(b), SetUpOwner(b)) && AllFresh(SetUpItems(b))
  {
    forall x | 0 <= x < |SetUpItems(b)| ensures OwnAll(SetUpOwner(b), x, SetUpItem(b, x)) {
      Reflat(x, b.t.dtile);
    }
  }

  lemma ScoreOwned(b: Work, base: nat)
    requires b.Ready()
    ensures Owned(ScoreItems(b, base), ScoreOwner(b)) && AllFresh(ScoreItems(b, base))
  {
    forall x | 0 <= x < |ScoreItems(b, base)| ensures OwnAll(ScoreOwner(b), x, ScoreItem(b, base, x)) {
      Reflat(x, b.t.bc);
    }
  }

  lemma ReduceOwned(b: Work)
    requires b.Ready()
    ensures Owned(ReduceItems(b), ReduceOwner()) && AllFresh(ReduceItems(b))
  {
    forall r | 0 <= r < |ReduceItems(b)| ensures OwnAll(ReduceOwner(), r, ReduceItem(b, r)) && Fresh(ReduceItem(b, r)) {
      LoadScoresOwn(ReduceOwner(), r, r, b.t.bc);
      WeighOwn(b, r, b.t.bc);
    }
  }

  lemma AccumulateOwned(b: Work, base: nat)
    requires b.Ready() && base < b.p.N()
    ensures Owned(AccumulateItems(b, base), AccumOwner(b)) && AllFresh(AccumulateItems(b, base))
  {
    forall x | 0 <= x < b.Accums()
      ensures OwnAll(AccumOwner(b), x, AccumulateItem(b, base, x)) && Fresh(AccumulateItem(b, base, x)) {
      Reflat(x, b.t.dtile);
      LoadScoresOwn(AccumOwner(b), x, RowOf(x, b.t.dtile), Valid(b, base));
    }
  }

  lemma StoreOwned(b: Work)
    requires b.Ready()
    ensures Owned(StoreItems(b), OutOwner(b)) && AllFresh(StoreItems(b))
  {
    forall x | 0 <= x < |StoreItems(b)| ensures OwnAll(OutOwner(b), x, StoreItem(b, x)) {
      Reflat(x, b.t.dtile);
      FlatUnsplit(x, b.t.dtile, b.t.br);
    }
  }

  // ---- what the memory holds -----------------------------------------------

  /** Every valid row has seen n keys. */
  ghost predicate RowsHold(b: Work, a: AttentionRows, n: nat, m: Memory) {
    forall r :: 0 <= r < b.t.br && b.rowBase + r < a.m ==> RowState(a, b.rowBase + r, n, Get(m, RowM(r)), Get(m, RowL(r)))
  }

  /** Every valid accumulator holds the weighted sum over n keys. */
  ghost predicate AccumsHold(b: Work, a: AttentionRows, n: nat, m: Memory) {
    forall r, c :: 0 <= r < b.t.br && 0 <= c < b.t.dtile && b.rowBase + r < a.m && b.colBase + c < a.d ==>
      Get(m, Accum(r, c)) == AccSeen(a.e, a.Row(b.rowBase + r), a.Col(b.colBase + c), n)
  }

  ghost predicate SameOutput(m: Memory, n: Memory) {
    forall i, j :: Get(n, Out(i, j)) == Get(m, Out(i, j))
  }

  lemma AfterSetUp(b: Work, a: AttentionRows, m: Memory, n: Memory)
    requires b.Ready() && SetUp(b, m, n)
    ensures RowsHold(b, a, 0, n) && AccumsHold(b, a, 0, n) && SameOutput(m, n)
  {
    hide Interleaves, Owned, AllFresh, ItemsApart, Stores;
    SetUpOwned(b);
    OwnedCells(SetUpItems(b), TwoLoops(b.t.threads, b.Accums(), b.t.br), SetUpOwner(b), m, n);
    hide SetUpItem, Effect;
    forall r, c | 0 <= r < b.t.br && 0 <= c < b.t.dtile ensures Get(n, Accum(r, c)) == Fin(0.0) {
      FlatBound(r, c, b.t.dtile, b.t.br);
      AccumSetUp(b, r, c, m);
      assert SetUpItems(b)[Flat(r, c, b.t.dtile)] == SetUpItem(b, Flat(r, c, b.t.dtile));
    }
    forall r | 0 <= r < b.t.br ensures Get(n, RowM(r)) == NegInf && Get(n, RowL(r)) == Fin(0.0) {
      RowSetUp(b, r, m);
      assert SetUpItems(b)[b.Accums() + r] == SetUpItem(b, b.Accums() + r);
    }
  }

  lemma AccumSetUp(b: Work, r: nat, c: nat, m: Memory)
    requires b.Ready() && r < b.t.br && c < b.t.dtile
    ensures var item := SetUpItem(b, Flat(r, c, b.t.dtile));
            Get(Effect(item, m), Accum(r, c)) == Fin(0.0) && Stores(item, Accum(r, c))
  {
    FlatBound(r, c, b.t.dtile, b.t.br);
    Unflat(r, c, b.t.dtile);
    var item := SetUpItem(b, Flat(r, c, b.t.dtile));
    assert item == [Begin, Store(item[1].c, item[1].f)];
    StoreOne(item[1].c, item[1].f, m);
  }

  lemma RowSetUp(b: Work, r: nat, m: Memory)
    requires b.Ready()
    ensures var item := SetUpItem(b, b.Accums() + r);
            && Get(Effect(item, m), RowM(r)) == NegInf && Get(Effect(item, m), RowL(r)) == Fin(0.0)
            && Stores(item, RowM(r)) && Stores(item, RowL(r))
  {
    var item := SetUpItem(b, b.Accums() + r);
    assert item == [Begin, item[1]] + [item[2], item[3]];
    StoreOne(item[1].c, item[1].f, m);
    assert item[1] == Store(item[1].c, item[1].f);
    var p := [Begin, item[1]];
    ExecStep(p, item[2], [], m);
    ExecStep(p + [item[2]], item[3], [], m);
    assert item == p + [item[2]] + [item[3]];
    assert item[2].c == RowL(r);
  }

  lemma AfterScores(b: Work, a: AttentionRows, base: nat, m: Memory, n: Memory)
    requires b.Ready() && a == b.p.Meaning() && Loop(b, ScoreItems(b, base), m, n)
    ensures forall r, c :: 0 <= r < b.t.br && 0 <= c < b.t.bc ==> Get(n, Score(r, c)) == ScoreCell(a, b.rowBase + r, base, c)
    ensures forall c: Cell :: !c.Score? ==> Get(n, c) == Get(m, c)
  {
    ScoreOwned(b, base);
    hide Interleaves, Owned;
    var items := ScoreItems(b, base);
    OwnedCells(items, StridedShares(b.t.threads, |items|), ScoreOwner(b), m, n);
    forall r, c | 0 <= r < b.t.br && 0 <= c < b.t.bc ensures Get(n, Score(r, c)) == ScoreCell(a, b.rowBase + r, base, c) {
      var x := Flat(r, c, b.t.bc);
      FlatBound(r, c, b.t.bc, b.t.br);
      Unflat(r, c, b.t.bc);
      var item := ScoreItem(b, base, x);
      assert item == [Begin, Store(item[1].c, item[1].f)];
      StoreOne(item[1].c, item[1].f, m);
      assert items[x] == item;
      ScoreIs(b, a, base, r, c);
    }
  }

  lemma ScoreIs(b: Work, a: AttentionRows, base: nat, r: nat, c: nat)
    requires b.Ready() && a == b.p.Meaning()
    ensures ScoreValue(b, base, r, c) == ScoreCell(a, b.rowBase + r, base, c)
  {
  }

  // ---- one row of a chunk --------------------------------------------------

  function ScoresOf(m: Memory, row: nat, n: nat): (s: seq<Word>)
    ensures |s| == n && forall c :: 0 <= c < n ==> s[c] == Get(m, Score(row, c))
  {
    seq(n, c requires 0 <= c => Get(m, Score(row, c)))
  }

  lemma {:induction false} LoadScoresLoads(row: nat, n: nat, loads: seq<Word>, m: Memory)
    ensures Exec(LoadScores(row, n), loads, m) == (loads + ScoresOf(m, row, n), m)
  {
    if n == 0 {
      assert loads + ScoresOf(m, row, 0) == loads;
    } else {
      LoadScoresLoads(row, n - 1, loads, m);
      ExecStep(LoadScores(row, n - 1), Load(Score(row, n - 1)), loads, m);
      assert loads + ScoresOf(m, row, n) == loads + ScoresOf(m, row, n - 1) + [Get(m, Score(row, n - 1))];
    }
  }

  /** What the row's thread has loaded once it has weighed k scores. */
  ghost predicate Loaded(b: Work, a: AttentionRows, base: nat, r: nat, loads: seq<Word>, k: nat) {
    var i, bc := b.rowBase + r, b.t.bc;
    && |loads| == bc + 2 + k
    && (forall c :: 0 <= c < bc ==> loads[c] == ScoreCell(a, i, base, c))
    && loads[bc] == MaxSeen(a.Row(i), base)
    && loads[bc + 1] == SumSeen(a.e, a.Row(i), base)
    && (forall c :: 0 <= c < k ==> loads[bc + 2 + c] == ScoreCell(a, i, base, c))
  }

  lemma {:induction false} ChunkMaxIs(b: Work, a: AttentionRows, base: nat, r: nat, loads: seq<Word>, k: nat, n: nat)
    requires Loaded(b, a, base, r, loads, k) && n <= b.t.bc && base < a.n && b.rowBase + r < a.m
    ensures FMax(MaxSeen(a.Row(b.rowBase + r), base), ChunkMaxOf(loads, n)) == MaxSeen(a.Row(b.rowBase + r), Seen(base, n, a.n))
  {
    hide MaxSeen, FMax;
    var s := a.Row(b.rowBase + r);
    if n == 0 {
      MaxOfNone(MaxSeen(s, base));
    } else {
      ChunkMaxIs(b, a, base, r, loads, k, n - 1);
      MaxAssociative(MaxSeen(s, base), ChunkMaxOf(loads, n - 1), loads[n - 1]);
      if base + n - 1 < a.n {
        MaxStep(s, base + n - 1);
      } else {
        MaxOfNone(MaxSeen(s, Seen(base, n, a.n)));
      }
    }
  }

  lemma MaxOfNone(x: Flt)
    ensures FMax(x, NegInf) == x
  {
  }

  lemma LoadedValues(b: Work, a: AttentionRows, base: nat, r: nat, loads: seq<Word>, k: nat)
    requires Loaded(b, a, base, r, loads, k) && b.Ready() && base < a.n && b.rowBase + r < a.m && k <= b.t.bc
    ensures NewMax(loads, b.t.bc) == Fin(RowMax(a.Row(b.rowBase + r), Seen(base, b.t.bc, a.n)))
    ensures Scale(a.e, loads, b.t.bc) == Correction(a.e, a.Row(b.rowBase + r), base, Seen(base, b.t.bc, a.n))
    ensures forall c :: 0 <= c < k ==> Weight(a.e, loads, b.t.bc, c) == WeightCell(a, b.rowBase + r, base, b.t.bc, c)
  {
    hide RowMax, FMax, FExp, FSub, ScoreCell, WeightCell, ChunkMaxOf;
    ChunkMaxIs(b, a, base, r, loads, k, b.t.bc);
    forall c | 0 <= c < k ensures Weight(a.e, loads, b.t.bc, c) == WeightCell(a, b.rowBase + r, base, b.t.bc, c) {
      WeightStep(a, b.rowBase + r, base, b.t.bc, c);
    }
  }

  lemma {:induction false} NewSumIs(b: Work, a: AttentionRows, base: nat, r: nat, loads: seq<Word>, k: nat)
    requires Loaded(b, a, base, r, loads, b.t.bc) && b.Ready() && IsExp(a.e) && base < a.n && b.rowBase + r < a.m
    requires k <= b.t.bc
    ensures NewSum(a.e, loads, b.t.bc, k) == SumUpTo(a, b.rowBase + r, Seen(base, b.t.bc, a.n), Seen(base, k, a.n))
  {
    hide RowMax, IsExp, FExp, FSub, FMul, FAdd, ScoreCell, WeightCell, Weight, Scale, SumUpTo, Correction;
    LoadedValues(b, a, base, r, loads, b.t.bc);
    if k == 0 {
      SumRescales(a, b.rowBase + r, base, Seen(base, b.t.bc, a.n));
    } else {
      NewSumIs(b, a, base, r, loads, k - 1);
      WeightStep(a, b.rowBase + r, base, b.t.bc, k - 1);
    }
  }

  /** Row r and its scores as the reducing thread finds them. */
  ghost predicate RowReady(b: Work, a: AttentionRows, base: nat, r: nat, m: Memory) {
    && RowState(a, b.rowBase + r, base, Get(m, RowM(r)), Get(m, RowL(r)))
    && forall c :: 0 <= c < b.t.bc ==> Get(m, Score(r, c)) == ScoreCell(a, b.rowBase + r, base, c)
  }

  /** The first k scores are weights. */
  ghost predicate Weighed(b: Work, a: AttentionRows, base: nat, r: nat, k: nat, m: Memory)
    requires b.Ready() && base < a.n
  {
    forall c :: 0 <= c < b.t.bc ==>
      Get(m, Score(r, c)) == if c < k then WeightCell(a, b.rowBase + r, base, b.t.bc, c) else ScoreCell(a, b.rowBase + r, base, c)
  }

  lemma WeighStep(b: Work, r: nat, k: nat, loads: seq<Word>, m: Memory)
    requires k > 0
    ensures var (l, m') := Exec(Weigh(b, r, k - 1), loads, m);
            var l' := l + [Get(m', Score(r, k - 1))];
            Exec(Weigh(b, r, k), loads, m) == (l', m'[Score(r, k - 1) := Weight(b.p.e, l', b.t.bc, k - 1)])
  {
    hide Weight, Exec;
    var before := Weigh(b, r, k - 1);
    var load, store := Weigh(b, r, k)[|before|], Weigh(b, r, k)[|before| + 1];
    assert Weigh(b, r, k) == before + [load] + [store];
    ExecStep(before, load, loads, m);
    ExecStep(before + [load], store, loads, m);
  }

  lemma WeighStepLeaves(b: Work, a: AttentionRows, base: nat, r: nat, k: nat, l: seq<Word>, m: Memory)
    requires b.Ready() && b.p.e == a.e && base < a.n && b.rowBase + r < a.m && k < b.t.bc
    requires Loaded(b, a, base, r, l, k) && Weighed(b, a, base, r, k, m)
    ensures var l' := l + [Get(m, Score(r, k))];
            Loaded(b, a, base, r, l', k + 1)
            && Weighed(b, a, base, r, k + 1, m[Score(r, k) := Weight(a.e, l', b.t.bc, k)])
  {
    hide ScoreCell, WeightCell, MaxSeen, SumSeen, Weight;
    var l' := l + [Get(m, Score(r, k))];
    assert Loaded(b, a, base, r, l', k + 1);
    LoadedValues(b, a, base, r, l', k + 1);
  }

  lemma {:induction false} WeighLeaves(b: Work, a: AttentionRows, base: nat, r: nat, k: nat, loads: seq<Word>, m: Memory)
    requires b.Ready() && b.p.e == a.e && base < a.n && b.rowBase + r < a.m && k <= b.t.bc
    requires RowReady(b, a, base, r, m) && Loaded(b, a, base, r, loads, 0)
    ensures var (l, m') := Exec(Weigh(b, r, k), loads, m); Loaded(b, a, base, r, l, k) && Weighed(b, a, base, r, k, m')
  {
    hide Loaded, RowState, ScoreCell, WeightCell;
    if k == 0 {
      assert Exec([], loads, m) == (loads, m);
    } else {
      WeighLeaves(b, a, base, r, k - 1, loads, m);
      hide Exec, Weigh, Weighed, RowReady;
      var (l, m') := Exec(Weigh(b, r, k - 1), loads, m);
      WeighStep(b, r, k, loads, m);
      WeighStepLeaves(b, a, base, r, k - 1, l, m');
    }
  }

  lemma FirstPassLoads(r: nat, bc: nat, m: Memory)
    ensures Exec(FirstPass(r, bc), [], m) == (ScoresOf(m, r, bc) + [Get(m, RowM(r))] + [Get(m, RowL(r))], m)
  {
    var p := [Begin] + LoadScores(r, bc);
    ExecStep([], Begin, [], m);
    assert [] + [Begin] == [Begin];
    ExecConcat([Begin], LoadScores(r, bc), [], m);
    LoadScoresLoads(r, bc, [], m);
    ExecStep(p, Load(RowM(r)), [], m);
    ExecStep(p + [Load(RowM(r))], Load(RowL(r)), [], m);
    hide Exec, LoadScores, ScoresOf;
    assert [] + ScoresOf(m, r, bc) == ScoresOf(m, r, bc);
  }

  lemma FirstLoads(b: Work, a: AttentionRows, base: nat, r: nat, m: Memory)
    requires RowReady(b, a, base, r, m)
    ensures var (loads, m') := Exec(FirstPass(r, b.t.bc), [], m); m' == m && Loaded(b, a, base, r, loads, 0)
  {
    hide Exec, FirstPass, ScoreCell, MaxSeen, SumSeen;
    FirstPassLoads(r, b.t.bc, m);
  }

  lemma RowReduced(b: Work, a: AttentionRows, base: nat, r: nat, m: Memory)
    requires b.Ready() && b.p.e == a.e && b.p.M() == a.m && IsExp(a.e) && base < a.n && b.rowBase + r < a.m
    requires RowReady(b, a, base, r, m)
    ensures var n2, m' := Seen(base, b.t.bc, a.n), Effect(ReduceItem(b, r), m);
            && RowState(a, b.rowBase + r, n2, Get(m', RowM(r)), Get(m', RowL(r)))
            && Get(m', RowScale(r)) == Correction(a.e, a.Row(b.rowBase + r), base, n2)
            && Weighed(b, a, base, r, b.t.bc, m')
  {
    var first := FirstPass(r, b.t.bc);
    var item := ReduceItem(b, r);
    var weighed := first + Weigh(b, r, b.t.bc);
    var n := |weighed|;
    assert item == weighed + [item[n]] + [item[n + 1]] + [item[n + 2]];
    FirstLoads(b, a, base, r, m);
    var loads := Exec(first, [], m).0;
    ExecConcat(first, Weigh(b, r, b.t.bc), [], m);
    WeighLeaves(b, a, base, r, b.t.bc, loads, m);
    var (l, m') := Exec(weighed, [], m);
    LoadedValues(b, a, base, r, l, b.t.bc);
    NewSumIs(b, a, base, r, l, b.t.bc);
    hide Loaded, RowReady, LoadScores, Weigh, Exec, Correction, WeightCell, ScoreCell, RowMax, ExpSum, NewSum, NewMax, Scale;
    ExecStep(weighed, item[n], [], m);
    ExecStep(weighed + [item[n]], item[n + 1], [], m);
    ExecStep(weighed + [item[n]] + [item[n + 1]], item[n + 2], [], m);
  }

  lemma ReduceStores(b: Work, r: nat)
    requires b.Ready() && b.rowBase + r < b.p.M()
    ensures var item := ReduceItem(b, r);
            Stores(item, RowM(r)) && Stores(item, RowL(r)) && Stores(item, RowScale(r))
    ensures forall c :: 0 <= c < b.t.bc ==> Stores(ReduceItem(b, r), Score(r, c))
  {
    var item := ReduceItem(b, r);
    var first := FirstPass(r, b.t.bc);
    var n := |first + Weigh(b, r, b.t.bc)|;
    assert item[n].c == RowM(r) && item[n + 1].c == RowL(r) && item[n + 2].c == RowScale(r);
    forall c | 0 <= c < b.t.bc ensures Stores(item, Score(r, c)) {
      WeighStores(b, r, b.t.bc, c);
      BothTouch(first, Weigh(b, r, b.t.bc), Score(r, c));
      var p := first + Weigh(b, r, b.t.bc);
      BothTouch(p, [item[n]], Score(r, c));
      BothTouch(p + [item[n]], [item[n + 1]], Score(r, c));
      BothTouch(p + [item[n]] + [item[n + 1]], [item[n + 2]], Score(r, c));
      assert item == p + [item[n]] + [item[n + 1]] + [item[n + 2]];
    }
  }

  lemma {:induction false} WeighStores(b: Work, row: nat, k: nat, c: nat)
    requires c < k
    ensures Stores(Weigh(b, row, k), Score(row, c))
  {
    var before := Weigh(b, row, k - 1);
    if c < k - 1 {
      WeighStores(b, row, k - 1, c);
      var i :| 0 <= i < |before| && before[i].Store? && before[i].c == Score(row, c);
      assert Weigh(b, row, k)[i] == before[i];
    } else {
      assert Weigh(b, row, k)[|before| + 1].c == Score(row, c);
    }
  }

  ghost predicate ScoresHold(b: Work, a: AttentionRows, base: nat, m: Memory) {
    forall r, c :: 0 <= r < b.t.br && 0 <= c < b.t.bc ==> Get(m, Score(r, c)) == ScoreCell(a, b.rowBase + r, base, c)
  }

  /** What the accumulators need of the row states: weights in place of scores, and the correction. */
  ghost predicate WeightsHold(b: Work, a: AttentionRows, base: nat, m: Memory)
    requires b.Ready() && base < a.n
  {
    forall r :: 0 <= r < b.t.br && b.rowBase + r < a.m ==>
      Weighed(b, a, base, r, b.t.bc, m)
      && Get(m, RowScale(r)) == Correction(a.e, a.Row(b.rowBase + r), base, Seen(base, b.t.bc, a.n))
  }

  lemma AfterReduceRow(b: Work, a: AttentionRows, base: nat, r: nat, m: Memory, n: Memory)
    requires b.Ready() && b.p.e == a.e && b.p.M() == a.m && IsExp(a.e) && base < a.n
    requires Loop(b, ReduceItems(b), m, n) && r < b.t.br && b.rowBase + r < a.m && RowReady(b, a, base, r, m)
    ensures RowState(a, b.rowBase + r, Seen(base, b.t.bc, a.n), Get(n, RowM(r)), Get(n, RowL(r)))
    ensures Weighed(b, a, base, r, b.t.bc, n)
    ensures Get(n, RowScale(r)) == Correction(a.e, a.Row(b.rowBase + r), base, Seen(base, b.t.bc, a.n))
  {
    hide Interleaves, Owned, RowState, Correction, ScoreCell, WeightCell, IsExp, ReduceItem, Stores, RowReady;
    ReduceOwned(b);
    var items := ReduceItems(b);
    OwnedCells(items, StridedShares(b.t.threads, |items|), ReduceOwner(), m, n);
    RowReduced(b, a, base, r, m);
    ReduceStores(b, r);
    hide AllFresh, ItemsApart;
    assert items[r] == ReduceItem(b, r);
  }

  lemma AfterReduce(b: Work, a: AttentionRows, base: nat, m: Memory, n: Memory)
    requires b.Ready() && b.p.e == a.e && b.p.M() == a.m && IsExp(a.e) && base < a.n
    requires Loop(b, ReduceItems(b), m, n) && ScoresHold(b, a, base, m) && RowsHold(b, a, base, m)
    ensures RowsHold(b, a, Seen(base, b.t.bc, a.n), n) && WeightsHold(b, a, base, n)
    ensures forall c: Cell :: c.Accum? || c.Out? ==> Get(n, c) == Get(m, c)
  {
    hide Loop, RowState, Correction, ScoreCell, Weighed, IsExp;
    forall r | 0 <= r < b.t.br && b.rowBase + r < a.m
      ensures RowState(a, b.rowBase + r, Seen(base, b.t.bc, a.n), Get(n, RowM(r)), Get(n, RowL(r)))
      ensures Weighed(b, a, base, r, b.t.bc, n)
      ensures Get(n, RowScale(r)) == Correction(a.e, a.Row(b.rowBase + r), base, Seen(base, b.t.bc, a.n)) {
      AfterReduceRow(b, a, base, r, m, n);
    }
    ReduceFrame(b, m, n);
  }

  lemma ReduceFrame(b: Work, m: Memory, n: Memory)
    requires b.Ready() && Loop(b, ReduceItems(b), m, n)
    ensures forall c: Cell :: c.Accum? || c.Out? ==> Get(n, c) == Get(m, c)
  {
    hide Interleaves, Owned;
    ReduceOwned(b);
    OwnedCells(ReduceItems(b), StridedShares(b.t.threads, |ReduceItems(b)|), ReduceOwner(), m, n);
  }

  // ---- one accumulator -----------------------------------------------------

  lemma {:induction false} NewAccumIs(b: Work, a: AttentionRows, base: nat, r: nat, col: nat, loads: seq<Word>, k: nat)
    requires b.Ready() && HoldsValues(b.p.v, a) && IsExp(a.e) && base < a.n && b.p.N() == a.n && k <= Valid(b, base)
    requires |loads| >= k + 2 && col < b.p.D()
    requires loads[0] == AccSeen(a.e, a.Row(b.rowBase + r), a.Col(col), base)
    requires loads[1] == Correction(a.e, a.Row(b.rowBase + r), base, Seen(base, b.t.bc, a.n))
    requires forall d :: 2 <= d < k + 2 ==> loads[d] == WeightCell(a, b.rowBase + r, base, b.t.bc, d - 2)
    ensures NewAccum(b, base, col, loads, k) == AccUpTo(a, b.rowBase + r, col, Seen(base, b.t.bc, a.n), base + k)
  {
    hide AccSeen, Correction, WeightCell, FMul, FAdd, AccUpTo, IsExp;
    if k == 0 {
      AccRescales(a, b.rowBase + r, col, base, Seen(base, b.t.bc, a.n));
    } else {
      NewAccumIs(b, a, base, r, col, loads, k - 1);
      assert a.ValueAt(base + k - 1, col) == b.p.v.At(base + k - 1, col);
      AccStep(a, b.rowBase + r, col, base, b.t.bc, k - 1);
    }
  }

  /** What a cell's thread finds before it accumulates. */
  lemma AccumLeaves(b: Work, a: AttentionRows, base: nat, r: nat, c: nat, m: Memory)
    requires b.Ready() && HoldsValues(b.p.v, a) && IsExp(a.e) && base < a.n
    requires b.p.N() == a.n && b.p.M() == a.m && b.p.D() == a.d
    requires r < b.t.br && c < b.t.dtile && b.rowBase + r < a.m && b.colBase + c < a.d
    requires WeightsHold(b, a, base, m) && AccumsHold(b, a, base, m)
    ensures var item := AccumulateItem(b, base, Flat(r, c, b.t.dtile));
            Stores(item, Accum(r, c))
            && Get(Effect(item, m), Accum(r, c))
               == AccSeen(a.e, a.Row(b.rowBase + r), a.Col(b.colBase + c), Seen(base, b.t.bc, a.n))
  {
    hide AccSeen, Correction, WeightCell, IsExp, NewAccum;
    Unflat(r, c, b.t.dtile);
    var loads := [Get(m, Accum(r, c)), Get(m, RowScale(r))] + ScoresOf(m, r, Valid(b, base));
    AccumulateStores(b, base, r, c, m);
    assert Weighed(b, a, base, r, b.t.bc, m);
    NewAccumIs(b, a, base, r, b.colBase + c, loads, Valid(b, base));
    AllAccumulated(a, b.rowBase + r, b.colBase + c, Seen(base, b.t.bc, a.n));
  }

  lemma AccumulateStores(b: Work, base: nat, r: nat, c: nat, m: Memory)
    requires b.Ready() && base < b.p.N() && c < b.t.dtile && b.rowBase + r < b.p.M() && b.colBase + c < b.p.D()
    ensures var item, n := AccumulateItem(b, base, Flat(r, c, b.t.dtile)), Valid(b, base);
            var loads := [Get(m, Accum(r, c)), Get(m, RowScale(r))] + ScoresOf(m, r, n);
            Stores(item, Accum(r, c)) && Get(Effect(item, m), Accum(r, c)) == NewAccum(b, base, b.colBase + c, loads, n)
  {
    hide NewAccum;
    Unflat(r, c, b.t.dtile);
    var item, n := AccumulateItem(b, base, Flat(r, c, b.t.dtile)), Valid(b, base);
    var first := [Begin, Load(Accum(r, c)), Load(RowScale(r))];
    var loading := first + LoadScores(r, n);
    var last := item[|loading|];
    assert item == loading + [last] && last.c == Accum(r, c);
    LoadTwo(Accum(r, c), RowScale(r), m);
    ExecConcat(first, LoadScores(r, n), [], m);
    LoadScoresLoads(r, n, [Get(m, Accum(r, c)), Get(m, RowScale(r))], m);
    ExecStep(loading, last, [], m);
  }

  lemma AllAccumulated(a: AttentionRows, i: nat, j: nat, n: nat)
    requires n > 0
    ensures AccUpTo(a, i, j, n, n) == AccSeen(a.e, a.Row(i), a.Col(j), n)
  {
  }

  lemma AfterAccumulate(b: Work, a: AttentionRows, base: nat, m: Memory, n: Memory)
    requires b.Ready() && HoldsValues(b.p.v, a) && IsExp(a.e) && base < a.n
    requires b.p.N() == a.n && b.p.M() == a.m && b.p.D() == a.d
    requires Loop(b, AccumulateItems(b, base), m, n) && WeightsHold(b, a, base, m) && AccumsHold(b, a, base, m)
    ensures AccumsHold(b, a, Seen(base, b.t.bc, a.n), n)
    ensures forall c: Cell :: !c.Accum? ==> Get(n, c) == Get(m, c)
  {
    AccumulateOwned(b, base);
    var items := AccumulateItems(b, base);
    OwnedCells(items, StridedShares(b.t.threads, |items|), AccumOwner(b), m, n);
    hide Interleaves, Owned, AccSeen, IsExp, AccumulateItem, Stores, Flat;
    forall r, c | 0 <= r < b.t.br && 0 <= c < b.t.dtile && b.rowBase + r < a.m && b.colBase + c < a.d
      ensures Get(n, Accum(r, c)) == AccSeen(a.e, a.Row(b.rowBase + r), a.Col(b.colBase + c), Seen(base, b.t.bc, a.n)) {
      var x := Flat(r, c, b.t.dtile);
      FlatBound(r, c, b.t.dtile, b.t.br);
      assert items[x] == AccumulateItem(b, base, x);
      AccumLeaves(b, a, base, r, c, m);
    }
  }

  // ---- the block -----------------------------------------------------------

  lemma AfterChunk(b: Work, a: AttentionRows, base: nat, m: Memory, n: Memory)
    requires b.Ready() && a == b.p.Meaning() && IsExp(a.e) && base < a.n && Chunk(b, base, m, n)
    requires RowsHold(b, a, base, m) && AccumsHold(b, a, base, m)
    ensures RowsHold(b, a, Seen(base, b.t.bc, a.n), n) && AccumsHold(b, a, Seen(base, b.t.bc, a.n), n)
    ensures SameOutput(m, n)
  {
    hide Loop, RowState, AccSeen, IsExp, ScoreCell;
    var m1, m2 :| Loop(b, ScoreItems(b, base), m, m1) && Loop(b, ReduceItems(b), m1, m2)
                  && Loop(b, AccumulateItems(b, base), m2, n);
    AfterScores(b, a, base, m, m1);
    AfterReduce(b, a, base, m1, m2);
    AfterAccumulate(b, a, base, m2, n);
  }

  lemma {:induction false} AfterChunks(b: Work, a: AttentionRows, base: nat, m: Memory, n: Memory)
    requires b.Ready() && a == b.p.Meaning() && IsExp(a.e) && Chunks(b, base, m, n)
    requires RowsHold(b, a, Seen(0, base, a.n), m) && AccumsHold(b, a, Seen(0, base, a.n), m)
    ensures RowsHold(b, a, a.n, n) && AccumsHold(b, a, a.n, n) && SameOutput(m, n)
    decreases a.n - base
  {
    hide Chunk, RowsHold, AccumsHold, IsExp;
    if base < a.n {
      var m1 :| Chunk(b, base, m, m1) && Chunks(b, base + b.t.bc, m1, n);
      AfterChunk(b, a, base, m, m1);
      AfterChunks(b, a, base + b.t.bc, m1, n);
    }
  }

  lemma AfterStoreCell(b: Work, a: AttentionRows, i: nat, j: nat, m: Memory, n: Memory)
    requires b.Ready() && IsExp(a.e) && b.p.M() == a.m && b.p.D() == a.d && i < a.m && j < a.d
    requires Loop(b, StoreItems(b), m, n) && RowsHold(b, a, a.n, m) && AccumsHold(b, a, a.n, m)
    ensures Get(n, Out(i, j)) == if InTile(b.t, b.rowBase, b.colBase, i, j) then Result(a, i, j) else Get(m, Out(i, j))
  {
    hide Interleaves, Owned, RowsHold, AccumsHold, IsExp, Result, Stores;
    StoreOwned(b);
    var items := StoreItems(b);
    OwnedCells(items, StridedShares(b.t.threads, |items|), OutOwner(b), m, n);
    if InTile(b.t, b.rowBase, b.colBase, i, j) {
      var r, c := i - b.rowBase, j - b.colBase;
      FlatBound(r, c, b.t.dtile, b.t.br);
      StoreLeaves(b, a, r, c, m);
      hide AllFresh, ItemsApart, Flat, StoreItem;
      assert items[Flat(r, c, b.t.dtile)] == StoreItem(b, Flat(r, c, b.t.dtile));
    }
  }

  lemma StoreLeaves(b: Work, a: AttentionRows, r: nat, c: nat, m: Memory)
    requires b.Ready() && IsExp(a.e) && b.p.M() == a.m && b.p.D() == a.d
    requires r < b.t.br && c < b.t.dtile && b.rowBase + r < a.m && b.colBase + c < a.d
    requires RowsHold(b, a, a.n, m) && AccumsHold(b, a, a.n, m)
    ensures var item, i, j := StoreItem(b, Flat(r, c, b.t.dtile)), b.rowBase + r, b.colBase + c;
            Stores(item, Out(i, j)) && Get(Effect(item, m), Out(i, j)) == Result(a, i, j)
  {
    hide AccSeen, SumSeen, Result, IsExp, FDiv;
    Unflat(r, c, b.t.dtile);
    var item := StoreItem(b, Flat(r, c, b.t.dtile));
    assert item == [Begin, Load(Accum(r, c)), Load(RowL(r)), Store(item[3].c, item[3].f)];
    LoadTwoStoreOne(Accum(r, c), RowL(r), item[3].c, item[3].f, m);
    QuotientIsResult(a, b.rowBase + r, b.colBase + c);
  }

  /** However the block's threads interleave between barriers, it stores attention to exactly the valid cells of its
      tile and leaves the rest of the output as it was. */
  lemma BlockLeavesAttention(b: Work, a: AttentionRows, m: Memory, n: Memory)
    requires b.Ready() && a == b.p.Meaning() && IsExp(a.e) && BlockRuns(b, m, n)
    ensures forall i, j :: 0 <= i < a.m && 0 <= j < a.d ==>
              Get(n, Out(i, j)) == if InTile(b.t, b.rowBase, b.colBase, i, j) then Result(a, i, j) else Get(m, Out(i, j))
  {
    hide SetUp, Chunks, Loop, RowsHold, AccumsHold, IsExp, Result, InTile;
    var m1, m2 :| SetUp(b, m, m1) && Chunks(b, 0, m1, m2) && Loop(b, StoreItems(b), m2, n);
    AfterSetUp(b, a, m, m1);
    AfterChunks(b, a, 0, m1, m2);
    forall i, j | 0 <= i < a.m && 0 <= j < a.d
      ensures Get(n, Out(i, j)) == if InTile(b.t, b.rowBase, b.colBase, i, j) then Result(a, i, j) else Get(m, Out(i, j)) {
      AfterStoreCell(b, a, i, j, m2, n);
    }
  }

  /** And it can run from every memory. */
  lemma BlockCanRun(b: Work, m: Memory) returns (n: Memory)
    requires b.Ready()
    ensures BlockRuns(b, m, n)
  {
    TwoLoopsDeal(b.t.threads, b.Accums(), b.t.br);
    var m1 := CanRun(SetUpItems(b), TwoLoops(b.t.threads, b.Accums(), b.t.br), m);
    var m2 := ChunksCanRun(b, 0, m1);
    n := LoopCanRun(b, StoreItems(b), m2);
  }

  lemma LoopCanRun(b: Work, items: seq<Program>, m: Memory) returns (n: Memory)
    requires b.Ready()
    ensures Loop(b, items, m, n)
  {
    StridedDeals(b.t.threads, |items|);
    n := CanRun(items, StridedShares(b.t.threads, |items|), m);
  }

  lemma ChunkCanRun(b: Work, base: nat, m: Memory) returns (n: Memory)
    requires b.Ready() && base < b.p.N()
    ensures Chunk(b, base, m, n)
  {
    hide Loop;
    var m1 := LoopCanRun(b, ScoreItems(b, base), m);
    var m2 := LoopCanRun(b, ReduceItems(b), m1);
    n := LoopCanRun(b, AccumulateItems(b, base), m2);
  }

  lemma ChunksCanRun(b: Work, base: nat, m: Memory) returns (n: Memory)
    requires b.Ready()
    ensures Chunks(b, base, m, n)
    decreases b.p.N() - base
  {
    hide Chunk;
    n := m;
    if base < b.p.N() {
      var m1 := ChunkCanRun(b, base, m);
      n := ChunksCanRun(b, base + b.t.bc, m1);
      assert Chunk(b, base, m, m1) && Chunks(b, base + b.t.bc, m1, n);
    }
  }
}
