/** The row softmax kernel as its threads run it: every interleaving between two barriers, the phases joined barrier by
    barrier. A total is read into a register that its thread keeps. */
module SoftmaxThreads {
  import opened ExtendedReal
  import opened Races
  import AttentionMath
  import Operands
  import R = Reduction
  import S = RowSoftmax

  const THREADS: nat := S.BLOCK_SIZE

  /** The work of one block: a row that exists and has elements. */
  datatype Work = Work(e: real -> real, x: Operands.Tensor, row: nat)
  {
    predicate Ready() {
      row < x.rows && x.cols >= 1
    }
    ghost function Row(): int -> real { S.Row(x, row) }
  }

  // ---- the iterations ------------------------------------------------------

  function Register(op: R.Op, t: nat): Cell {
    match op case MaxOp => TotalMax(t) case AddOp => TotalSum(t)
  }

  /** What a pass folds over the row; the second one reads the maximum its thread has kept. */
  ghost function Terms(w: Work, op: R.Op, kept: Word): int -> Flt {
    match op
    case MaxOp => S.Elements(w.Row())
    case AddOp => S.Exponentials(w.e, w.Row(), kept)
  }

  ghost function Share(w: Work, op: R.Op, t: nat, kept: Word): Word {
    R.Partial(op, Terms(w, op, kept), w.x.cols, t, THREADS)
  }

  ghost function PartialItem(w: Work, op: R.Op, t: nat): Program {
    match op
    case MaxOp => [Begin, Store(Partial(t), _ => Share(w, op, t, Bad))]
    case AddOp => [Begin, Load(TotalMax(t)), Store(Partial(t), (loads: seq<Word>) => Share(w, op, t, At(loads, 0)))]
  }

  function Joined(op: R.Op, loads: seq<Word>): Word { R.Combine(op, At(loads, 0), At(loads, 1)) }

  function LevelItem(op: R.Op, s: nat, t: nat): Program {
    [Begin, Load(Partial(t)), Load(Partial(t + s)), Store(Partial(t), (loads: seq<Word>) => Joined(op, loads))]
  }

  function TotalItem(op: R.Op, t: nat): Program {
    [Begin, Load(Partial(0)), Store(Register(op, t), (loads: seq<Word>) => At(loads, 0))]
  }

  ghost function Normal(w: Work, j: nat, loads: seq<Word>): Word {
    FDiv(FExp(w.e, FSub(Fin(w.Row()(j)), At(loads, 0))), At(loads, 1))
  }

  /** Column j is normalised by thread j modulo the block size. */
  ghost function NormalItem(w: Work, j: nat): Program {
    [Begin, Load(TotalMax(j % THREADS)), Load(TotalSum(j % THREADS)),
     Store(Out(w.row, j), (loads: seq<Word>) => Normal(w, j, loads))]
  }

  // ---- the phases ----------------------------------------------------------

  ghost function PartialItems(w: Work, op: R.Op): (s: seq<Program>)
    ensures |s| == THREADS && forall t :: 0 <= t < |s| ==> s[t] == PartialItem(w, op, t)
  {
    seq(THREADS, t requires 0 <= t => PartialItem(w, op, t))
  }

  function LevelItems(op: R.Op, s: nat): (r: seq<Program>)
    ensures |r| == s && forall t :: 0 <= t < |r| ==> r[t] == LevelItem(op, s, t)
  {
    seq(s, t requires 0 <= t => LevelItem(op, s, t))
  }

  function TotalItems(op: R.Op): (s: seq<Program>)
    ensures |s| == THREADS && forall t :: 0 <= t < |s| ==> s[t] == TotalItem(op, t)
  {
    seq(THREADS, t requires 0 <= t => TotalItem(op, t))
  }

  ghost function NormalItems(w: Work): (s: seq<Program>)
    ensures |s| == w.x.cols && forall j :: 0 <= j < |s| ==> s[j] == NormalItem(w, j)
  {
    seq(w.x.cols, j requires 0 <= j => NormalItem(w, j))
  }

  /** Memory n is what the threads may make of m between two barriers: thread t does items t, t + 256 and so on. */
  ghost predicate Phase(items: seq<Program>, m: Memory, n: Memory) {
    Interleaves(items, StridedShares(THREADS, |items|), m, n)
  }

  ghost predicate Levels(op: R.Op, s: nat, m: Memory, n: Memory) {
    if s == 0 then n == m
    else exists m1 :: Phase(LevelItems(op, s), m, m1) && Levels(op, s / 2, m1, n)
  }

  /** Shares, halving tree, total: one reduction over the row. */
  ghost predicate Reduces(w: Work, op: R.Op, m: Memory, n: Memory) {
    exists m1, m2 ::
      Phase(PartialItems(w, op), m, m1) && Levels(op, THREADS / 2, m1, m2) && Phase(TotalItems(op), m2, n)
  }

  ghost predicate RowRuns(w: Work, m: Memory, n: Memory) {
    exists m1, m2 :: Reduces(w, R.MaxOp, m, m1) && Reduces(w, R.AddOp, m1, m2) && Phase(NormalItems(w), m2, n)
  }

  // ---- who owns what -------------------------------------------------------

  function PartialOwner(s: nat): Cell -> int {
    (c: Cell) => if c.Partial? && c.thread < s then c.thread else -1
  }

  function RegisterOwner(op: R.Op): Cell -> int {
    (c: Cell) => if (if op.MaxOp? then c.TotalMax? else c.TotalSum?) then c.thread else -1
  }

  function OutOwner(row: nat, n: nat): Cell -> int {
    (c: Cell) => if c.Out? && c.row == row && c.col < n then c.col else -1
  }

  lemma PartialsOwned(w: Work, op: R.Op)
    ensures Owned(PartialItems(w, op), PartialOwner(THREADS)) && AllFresh(PartialItems(w, op))
  {
    forall t | 0 <= t < THREADS ensures OwnAll(PartialOwner(THREADS), t, PartialItem(w, op, t)) {
    }
  }

  lemma LevelOwned(op: R.Op, s: nat)
    ensures Owned(LevelItems(op, s), PartialOwner(s)) && AllFresh(LevelItems(op, s))
  {
    forall t | 0 <= t < s ensures OwnAll(PartialOwner(s), t, LevelItem(op, s, t)) {
    }
  }

  lemma TotalsOwned(op: R.Op)
    ensures Owned(TotalItems(op), RegisterOwner(op)) && AllFresh(TotalItems(op))
  {
    forall t | 0 <= t < THREADS ensures OwnAll(RegisterOwner(op), t, TotalItem(op, t)) {
    }
  }

  lemma NormalOwned(w: Work)
    ensures Owned(NormalItems(w), OutOwner(w.row, w.x.cols)) && AllFresh(NormalItems(w))
  {
    forall j | 0 <= j < w.x.cols ensures OwnAll(OutOwner(w.row, w.x.cols), j, NormalItem(w, j)) {
    }
  }

  // ---- one reduction -------------------------------------------------------

  /** The first s partial results in memory. */
  function PartialsOf(m: Memory, s: nat): (r: seq<Word>)
    ensures |r| == s && forall t :: 0 <= t < s ==> r[t] == Get(m, Partial(t))
  {
    seq(s, t requires 0 <= t => Get(m, Partial(t)))
  }

  /** A phase that touches partial results only. */
  ghost predicate OnlyPartials(m: Memory, n: Memory) {
    forall c: Cell :: !c.Partial? ==> Get(n, c) == Get(m, c)
  }

  lemma AfterPartials(w: Work, op: R.Op, m: Memory, n: Memory)
    requires Phase(PartialItems(w, op), m, n)
    ensures forall t :: 0 <= t < THREADS ==> Get(n, Partial(t)) == Share(w, op, t, if op.MaxOp? then Bad else Get(m, TotalMax(t)))
    ensures OnlyPartials(m, n)
  {
    hide Interleaves, Owned, AllFresh, ItemsApart, Stores, Share;
    PartialsOwned(w, op);
    var items := PartialItems(w, op);
    OwnedCells(items, StridedShares(THREADS, |items|), PartialOwner(THREADS), m, n);
    forall t | 0 <= t < THREADS
      ensures Get(n, Partial(t)) == Share(w, op, t, if op.MaxOp? then Bad else Get(m, TotalMax(t))) {
      assert items[t] == PartialItem(w, op, t);
      match op
      case MaxOp => StoreOne(Partial(t), items[t][1].f, m);
      case AddOp => LoadOneStoreOne(TotalMax(t), Partial(t), items[t][2].f, m);
    }
  }

  lemma AfterLevel(op: R.Op, s: nat, m: Memory, n: Memory)
    requires Phase(LevelItems(op, s), m, n)
    ensures forall t :: 0 <= t < s ==> Get(n, Partial(t)) == R.Combine(op, Get(m, Partial(t)), Get(m, Partial(t + s)))
    ensures OnlyPartials(m, n)
  {
    hide Interleaves, Owned, AllFresh, ItemsApart, Stores;
    LevelOwned(op, s);
    var items := LevelItems(op, s);
    OwnedCells(items, StridedShares(THREADS, |items|), PartialOwner(s), m, n);
    forall t | 0 <= t < s ensures Get(n, Partial(t)) == R.Combine(op, Get(m, Partial(t)), Get(m, Partial(t + s))) {
      assert items[t] == LevelItem(op, s, t);
      LoadTwoStoreOne(Partial(t), Partial(t + s), Partial(t), items[t][3].f, m);
    }
  }

  /** The halving tree leaves the fold of all partial results in the first. */
  lemma {:induction false} AfterLevels(op: R.Op, width: nat, m: Memory, n: Memory)
    requires R.PowerOfTwo(width) && Levels(op, width / 2, m, n)
    ensures Get(n, Partial(0)) == R.FoldSeq(op, PartialsOf(m, width)) && OnlyPartials(m, n)
  {
    hide Phase;
    if width == 1 {
      R.FoldOne(op, PartialsOf(m, 1));
    } else {
      var s := width / 2;
      var m1 :| Phase(LevelItems(op, s), m, m1) && Levels(op, s / 2, m1, n);
      AfterLevel(op, s, m, m1);
      AfterLevels(op, s, m1, n);
      R.LevelKeepsFold(op, PartialsOf(m, width), PartialsOf(m1, s), s);
    }
  }

  lemma AfterTotals(op: R.Op, m: Memory, n: Memory)
    requires Phase(TotalItems(op), m, n)
    ensures forall t :: 0 <= t < THREADS ==> Get(n, Register(op, t)) == Get(m, Partial(0))
    ensures forall c: Cell :: c.Out? || (op.AddOp? && c.TotalMax?) ==> Get(n, c) == Get(m, c)
  {
    hide Interleaves, Owned, AllFresh, ItemsApart, Stores;
    TotalsOwned(op);
    var items := TotalItems(op);
    OwnedCells(items, StridedShares(THREADS, |items|), RegisterOwner(op), m, n);
    forall t | 0 <= t < THREADS ensures Get(n, Register(op, t)) == Get(m, Partial(0)) {
      assert items[t] == TotalItem(op, t);
      LoadOneStoreOne(Partial(0), Register(op, t), items[t][2].f, m);
    }
  }

  lemma ShareOf(w: Work, op: R.Op, t: nat, kept: Word)
    ensures Share(w, op, t, if op.MaxOp? then Bad else kept) == R.Partial(op, Terms(w, op, kept), w.x.cols, t, THREADS)
  {
    hide R.Partial;
  }

  /** Every thread ends up with the fold over the whole row. */
  lemma AfterReduces(w: Work, op: R.Op, kept: Word, m: Memory, n: Memory)
    requires Reduces(w, op, m, n) && (op.AddOp? ==> forall t :: 0 <= t < THREADS ==> Get(m, TotalMax(t)) == kept)
    ensures forall t :: 0 <= t < THREADS ==> Get(n, Register(op, t)) == R.Fold(op, Terms(w, op, kept), w.x.cols)
    ensures forall c: Cell :: c.Out? || (op.AddOp? && c.TotalMax?) ==> Get(n, c) == Get(m, c)
  {
    hide Phase, Levels, Register, Terms, Share, R.Partial, R.Fold, R.FoldSeq;
    var m1, m2 :| Phase(PartialItems(w, op), m, m1) && Levels(op, THREADS / 2, m1, m2) && Phase(TotalItems(op), m2, n);
    AfterPartials(w, op, m, m1);
    S.BlockSizeIsPowerOfTwo();
    AfterLevels(op, THREADS, m1, m2);
    AfterTotals(op, m2, n);
    forall t | 0 <= t < THREADS
      ensures PartialsOf(m1, THREADS)[t] == R.Partial(op, Terms(w, op, kept), w.x.cols, t, THREADS) {
      ShareOf(w, op, t, kept);
    }
    S.TreeCovers(op, Terms(w, op, kept), w.x.cols, PartialsOf(m1, THREADS));
  }

  // ---- the block -----------------------------------------------------------

  lemma AfterNormalize(w: Work, max: real, m: Memory, n: Memory)
    requires IsExp(w.e) && w.Ready() && Phase(NormalItems(w), m, n)
    requires forall t :: 0 <= t < THREADS ==> Get(m, TotalMax(t)) == Fin(max)
    requires forall t :: 0 <= t < THREADS ==> Get(m, TotalSum(t)) == Fin(AttentionMath.ExpSum(w.e, w.Row(), max, w.x.cols))
    ensures forall j :: 0 <= j < w.x.cols ==> Get(n, Out(w.row, j)) == Fin(S.Softmax(w.e, w.x, w.row, j))
    ensures forall i: nat, j: nat :: i != w.row || j >= w.x.cols ==> Get(n, Out(i, j)) == Get(m, Out(i, j))
  {
    hide Interleaves, Owned, AllFresh, ItemsApart, Stores, IsExp;
    NormalOwned(w);
    var items := NormalItems(w);
    OwnedCells(items, StridedShares(THREADS, |items|), OutOwner(w.row, w.x.cols), m, n);
    forall j | 0 <= j < w.x.cols ensures Get(n, Out(w.row, j)) == Fin(S.Softmax(w.e, w.x, w.row, j)) {
      assert items[j] == NormalItem(w, j);
      LoadTwoStoreOne(TotalMax(j % THREADS), TotalSum(j % THREADS), Out(w.row, j), items[j][3].f, m);
      S.ShiftCancels(w.e, w.x, w.row, j, max);
    }
  }

  /** However the block's threads interleave between barriers, every element of its row gets its softmax and every
      other cell of the output stays. */
  lemma RowLeavesSoftmax(w: Work, m: Memory, n: Memory)
    requires IsExp(w.e) && w.Ready() && RowRuns(w, m, n)
    ensures forall j :: 0 <= j < w.x.cols ==> Get(n, Out(w.row, j)) == Fin(S.Softmax(w.e, w.x, w.row, j))
    ensures forall i: nat, j: nat :: i != w.row || j >= w.x.cols ==> Get(n, Out(i, j)) == Get(m, Out(i, j))
  {
    hide Reduces, Phase, IsExp;
    var m1, m2 :| Reduces(w, R.MaxOp, m, m1) && Reduces(w, R.AddOp, m1, m2) && Phase(NormalItems(w), m2, n);
    var max := AttentionMath.RowMax(w.Row(), w.x.cols);
    AfterReduces(w, R.MaxOp, Bad, m, m1);
    S.MaxFoldIsRowMax(w.Row(), w.x.cols);
    assert forall t: nat :: Register(R.MaxOp, t) == TotalMax(t);
    AfterReduces(w, R.AddOp, Fin(max), m1, m2);
    S.AddFoldIsExpSum(w.e, w.Row(), max, w.x.cols);
    assert forall t: nat :: Register(R.AddOp, t) == TotalSum(t);
    AfterNormalize(w, max, m2, n);
  }

  /** And it can run from every memory. */
  lemma RowCanRun(w: Work, m: Memory) returns (n: Memory)
    ensures RowRuns(w, m, n)
  {
    hide Reduces, Phase;
    var m1 := ReductionCanRun(w, R.MaxOp, m);
    var m2 := ReductionCanRun(w, R.AddOp, m1);
    n := PhaseCanRun(NormalItems(w), m2);
  }

  lemma PhaseCanRun(items: seq<Program>, m: Memory) returns (n: Memory)
    ensures Phase(items, m, n)
  {
    StridedDeals(THREADS, |items|);
    n := CanRun(items, StridedShares(THREADS, |items|), m);
  }

  lemma LevelsCanRun(op: R.Op, s: nat, m: Memory) returns (n: Memory)
    ensures Levels(op, s, m, n)
  {
    hide Phase;
    n := m;
    if s > 0 {
      var m1 := PhaseCanRun(LevelItems(op, s), m);
      n := LevelsCanRun(op, s / 2, m1);
      assert Phase(LevelItems(op, s), m, m1) && Levels(op, s / 2, m1, n);
    }
  }

  lemma ReductionCanRun(w: Work, op: R.Op, m: Memory) returns (n: Memory)
    ensures Reduces(w, op, m, n)
  {
    hide Phase, Levels;
    var m1 := PhaseCanRun(PartialItems(w, op), m);
    var m2 := LevelsCanRun(op, THREADS / 2, m1);
    n := PhaseCanRun(TotalItems(op), m2);
  }

  /** The barrier after the total is read is needed: without it another thread may still be about to read the cell that
      thread 0 stores its share of the sum to. */
  lemma TotalThenPartialsRace(w: Work)
    ensures !Apart(PartialItems(w, R.AddOp)[0], TotalItems(R.MaxOp)[1])
  {
    var p, q := PartialItems(w, R.AddOp)[0], TotalItems(R.MaxOp)[1];
    assert p[2].Store? && p[2].c == Partial(0);
    assert q[1] == Load(Partial(0));
    assert Stores(p, Partial(0)) && Touches(q, Partial(0));
  }
}
