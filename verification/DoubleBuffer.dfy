/** The K loop with two shared buffers and asynchronous copies, as threads that interleave freely. */
module DoubleBuffer {
  import Grid

  type Word = int
  type Acc = int

  /** What the rewritten loop is built from. A cell is one element of the A tile or of the B tile; thread t
      moves the cells cell(t, 0), cell(t, 1), ... of every tile, and its j-th multiply-accumulate of an
      iteration reads the cell operand(t, j). Nothing is known about mac and tile. */
  datatype Kernel = Kernel(threads: nat, copies: nat, cells: nat, macs: nat, lb: int, ub: int, step: int,
    cell: (nat, nat) -> nat, mover: nat -> (nat, nat), operand: (nat, nat) -> nat,
    tile: (int, nat) -> Word, init: nat -> Acc, mac: (nat, nat, Acc, Word) -> Acc)
  {
    /** The copies of one tile move every cell exactly once, and the loop runs at least once. */
    ghost predicate Valid() {
      && step > 0 && lb < ub
      && (forall t, q :: 0 <= t < threads && 0 <= q < copies ==> Cell(t, q) < cells && Mover(Cell(t, q)) == (t, q))
      && (forall c :: 0 <= c < cells ==>
            Mover(c).0 < threads && Mover(c).1 < copies && Cell(Mover(c).0, Mover(c).1) == c)
      && (forall t, j :: 0 <= t < threads && 0 <= j < macs ==> Operand(t, j) < cells)
    }

    function Cell(t: nat, q: nat): nat { cell(t, q) }
    function Mover(c: nat): (nat, nat) { mover(c) }
    function Operand(t: nat, j: nat): nat { operand(t, j) }
    function K(i: int): int { lb + i * step }
    function Tile(i: int, c: nat): Word { tile(K(i), c) }
    function Mac(t: nat, j: nat, a: Acc, w: Word): Acc { mac(t, j, a, w) }

    /** The number of iterations of `for k = lb to ub step step`. */
    function Trip(): int
      requires step > 0
    {
      Grid.Trip(lb, ub, step)
    }
  }

  /** Thread t's accumulator once i iterations and j multiply-accumulates of the next one are done, each
      iteration i reading tile i: what the loop with one buffer computes. */
  ghost function After(p: Kernel, t: nat, i: nat, j: nat): Acc
    decreases i, j
  {
    if j > 0 then p.Mac(t, j - 1, After(p, t, i, j - 1), p.Tile(i, p.Operand(t, j - 1)))
    else if i > 0 then After(p, t, i - 1, p.macs)
    else p.init(t)
  }

  /** The copies as they are emitted: thread t moves element t, then the one `threads` further, and so on. */
  function Strided(threads: nat, copies: nat, lb: int, ub: int, step: int, macs: nat, tile: (int, nat) -> Word,
                   init: nat -> Acc, mac: (nat, nat, Acc, Word) -> Acc): Kernel
    requires threads > 0 && copies > 0
  {
    Kernel(threads, copies, copies * threads, macs, lb, ub, step, (t: nat, q: nat) => Grid.Flat(q, t, threads),
           (c: nat) => (c % threads, c / threads), (t: nat, j: nat) => 0, tile, init, mac)
  }

  lemma StridedIsValid(threads: nat, copies: nat, lb: int, ub: int, step: int, macs: nat, tile: (int, nat) -> Word,
                       init: nat -> Acc, mac: (nat, nat, Acc, Word) -> Acc)
    requires threads > 0 && copies > 0 && step > 0 && lb < ub
    ensures Strided(threads, copies, lb, ub, step, macs, tile, init, mac).Valid()
  {
    var p := Strided(threads, copies, lb, ub, step, macs, tile, init, mac);
    forall t, q | 0 <= t < threads && 0 <= q < copies ensures p.Cell(t, q) < p.cells && p.Mover(p.Cell(t, q)) == (t, q) {
      Grid.FlatBound(q, t, threads, copies);
      Grid.FlatSplits(q, t, threads);
    }
    forall c | 0 <= c < p.cells
      ensures p.Mover(c).0 < threads && p.Mover(c).1 < copies && p.Cell(p.Mover(c).0, p.Mover(c).1) == c {
      Grid.FlatUnsplit(c, threads, copies);
    }
    Grid.MulMonotone(1, copies, threads);
  }

  lemma TripIs(p: Kernel, i: nat)
    requires p.Valid()
    ensures p.K(i) < p.ub <==> i < p.Trip()
    ensures p.K(i + 1) == p.K(i) + p.step && p.Trip() >= 1
  {
    Grid.TripIs(p.lb, p.ub, p.step, i);
    Grid.TripIs(p.lb, p.ub, p.step, i + 1);
    Grid.TripIs(p.lb, p.ub, p.step, 0);
  }

  // ---- the loop before the rewrite ----------------------------------------

  /** One buffer: fill it, wait, compute, and only then fill it again. */
  method SingleBufferLoop(p: Kernel, smem: array<Word>) returns (accs: array<Acc>)
    requires p.Valid() && smem.Length == p.cells
    modifies smem
    ensures fresh(accs) && accs.Length == p.threads
    ensures forall t :: 0 <= t < p.threads ==> accs[t] == After(p, t, p.Trip(), 0)
  {
    accs := new Acc[p.threads];
    for t := 0 to p.threads
      invariant forall u :: 0 <= u < t ==> accs[u] == After(p, u, 0, 0)
    {
      accs[t] := p.init(t);
    }
    var k, i := p.lb, 0;
    while k < p.ub
      invariant 0 <= i <= p.Trip() && k == p.K(i) && (k < p.ub <==> i < p.Trip())
      invariant forall t :: 0 <= t < p.threads ==> accs[t] == After(p, t, i, 0)
      decreases p.Trip() - i
    {
      FillTile(p, i, smem);
      for t := 0 to p.threads
        invariant forall u :: 0 <= u < t ==> accs[u] == After(p, u, i + 1, 0)
        invariant forall u :: t <= u < p.threads ==> accs[u] == After(p, u, i, 0)
        invariant forall c :: 0 <= c < p.cells ==> smem[c] == p.Tile(i, c)
      {
        var acc := accs[t];
        for j := 0 to p.macs
          invariant acc == After(p, t, i, j)
        {
          acc := p.Mac(t, j, acc, smem[p.Operand(t, j)]);
        }
        accs[t] := acc;
      }
      TripIs(p, i);
      TripIs(p, i + 1);
      k, i := k + p.step, i + 1;
    }
  }

  /** All threads' copies of tile i fill the whole buffer. */
  method FillTile(p: Kernel, i: nat, smem: array<Word>)
    requires p.Valid() && smem.Length == p.cells
    modifies smem
    ensures forall c :: 0 <= c < p.cells ==> smem[c] == p.Tile(i, c)
  {
    for t := 0 to p.threads
      invariant forall c :: 0 <= c < p.cells && p.Mover(c).0 < t ==> smem[c] == p.Tile(i, c)
    {
      for q := 0 to p.copies
        invariant forall c :: 0 <= c < p.cells && p.Mover(c).0 < t ==> smem[c] == p.Tile(i, c)
        invariant forall c :: 0 <= c < p.cells && p.Mover(c).0 == t && p.Mover(c).1 < q ==> smem[c] == p.Tile(i, c)
      {
        smem[p.Cell(t, q)] := p.Tile(i, p.Cell(t, q));
      }
    }
  }

  // ---- the rewritten loop -------------------------------------------------

  /** Where a thread is: issuing the prologue's copies, about to wait, at the barrier, issuing the next
      tile's copies, computing, or past the loop. */
  datatype Phase = Prologue(q: nat) | Waiting | AtBarrier | Prefetch(q: nat) | Computing(j: nat) | Finished

  /** iter counts iterations for the statements below; the code itself only has k. */
  datatype Thread = Thread(phase: Phase, iter: nat, k: int, readBuf: nat, acc: Acc)

  /** An issued copy that has not landed: thread t's q-th copy of tile i, into buffer `into`. */
  datatype Copy = Copy(t: nat, q: nat, i: nat, into: nat)

  datatype State = State(threads: seq<Thread>, pending: set<Copy>, smem: seq<seq<Word>>)

  datatype Step = Run(t: nat) | Land(c: Copy)

  ghost predicate Initial(p: Kernel, s: State) {
    && |s.threads| == p.threads
    && (forall t :: 0 <= t < p.threads ==> s.threads[t] == Thread(Prologue(0), 0, p.lb, 0, p.init(t)))
    && s.pending == {}
    && |s.smem| == 2 && |s.smem[0]| == p.cells && |s.smem[1]| == p.cells
  }

  /** How many barriers a thread has reached. */
  function Arrived(x: Thread): nat {
    x.iter + if x.phase.AtBarrier? || x.phase.Prefetch? || x.phase.Computing? then 1 else 0
  }

  /** How many barriers a thread is past. */
  function Passed(x: Thread): nat {
    x.iter + if x.phase.Prefetch? || x.phase.Computing? then 1 else 0
  }

  ghost predicate NothingPending(s: State, t: nat) {
    forall c :: c in s.pending ==> c.t != t
  }

  ghost predicate AllArrived(s: State, n: nat) {
    forall u :: 0 <= u < |s.threads| ==> Arrived(s.threads[u]) >= n
  }

  /** What thread t does next, given the shared memory it sees: its new state and the copies it issues. */
  function Advance(p: Kernel, smem: seq<seq<Word>>, t: nat, x: Thread): (Thread, set<Copy>)
    requires |smem| == 2 && x.readBuf < 2 && |smem[x.readBuf]| == p.cells
    requires x.phase.Computing? && x.phase.j < p.macs ==> p.Operand(t, x.phase.j) < p.cells
  {
    match x.phase
    case Prologue(q) =>
      if q < p.copies then (x.(phase := Prologue(q + 1)), {Copy(t, q, 0, 0)})
      else (x.(phase := Waiting), {})
    case Waiting => (x.(phase := AtBarrier), {})
    case AtBarrier => (x.(phase := Prefetch(0)), {})
    case Prefetch(q) =>
      if x.k + p.step < p.ub && q < p.copies
      then (x.(phase := Prefetch(q + 1)), {Copy(t, q, x.iter + 1, 1 - x.readBuf)})
      else (x.(phase := Computing(0)), {})
    case Computing(j) =>
      if j < p.macs
      then (x.(phase := Computing(j + 1), acc := p.Mac(t, j, x.acc, smem[x.readBuf][p.Operand(t, j)])), {})
      else (x.(phase := if x.k + p.step < p.ub then Waiting else Finished,
               iter := x.iter + 1, k := x.k + p.step, readBuf := 1 - x.readBuf), {})
    case Finished => (x, {})
  }

  /** A thread waits for its own copies only, and at the barrier for every thread. */
  ghost predicate CanRun(s: State, t: nat) {
    && t < |s.threads|
    && !s.threads[t].phase.Finished?
    && (s.threads[t].phase.Waiting? ==> NothingPending(s, t))
    && (s.threads[t].phase.AtBarrier? ==> AllArrived(s, s.threads[t].iter + 1))
  }

  ghost predicate Next(p: Kernel, s: State, s': State, step: Step)
    requires p.Valid() && Shape(p, s)
  {
    match step
    case Run(t) =>
      && CanRun(s, t)
      && var (x, issued) := Advance(p, s.smem, t, s.threads[t]);
         s' == State(s.threads[t := x], s.pending + issued, s.smem)
    case Land(c) =>
      && c in s.pending
      && var b := s.smem[c.into];
         s' == State(s.threads, s.pending - {c},
                     s.smem[c.into := b[p.Cell(c.t, c.q) := p.Tile(c.i, p.Cell(c.t, c.q))]])
  }

  /** Sizes and ranges. */
  ghost predicate Shape(p: Kernel, s: State) {
    && |s.threads| == p.threads
    && |s.smem| == 2 && |s.smem[0]| == p.cells && |s.smem[1]| == p.cells
    && (forall t :: 0 <= t < p.threads ==> s.threads[t].readBuf < 2)
    && (forall c :: c in s.pending ==> c.t < p.threads && c.q < p.copies && c.into < 2)
  }

  // ---- the invariant ------------------------------------------------------

  /** Thread t has gone past its wait for tile i. */
  predicate Waited(x: Thread, i: nat) {
    Arrived(x) > i
  }

  /** Thread t has issued its q-th copy of tile i. */
  predicate Issued(p: Kernel, x: Thread, q: nat, i: nat) {
    match x.phase
    case Prologue(n) => i == 0 && q < n
    case Prefetch(n) => i <= x.iter || (i == x.iter + 1 && q < n)
    case Computing(_) => i <= x.iter + 1
    case _ => i <= x.iter
  }

  ghost predicate ThreadOk(p: Kernel, t: nat, x: Thread) {
    && x.k == p.K(x.iter) && x.readBuf == x.iter % 2
    && (p.step > 0 ==> if x.phase.Finished? then x.iter == p.Trip() else x.iter < p.Trip())
    && (x.phase.Prologue? ==> x.iter == 0 && x.phase.q <= p.copies)
    && (x.phase.Prefetch? ==> x.phase.q <= p.copies)
    && (x.phase.Computing? ==> x.phase.j <= p.macs)
    && x.acc == After(p, t, x.iter, if x.phase.Computing? then x.phase.j else 0)
  }

  ghost predicate PendingOk(p: Kernel, s: State, c: Copy)
    requires Shape(p, s)
  {
    c in s.pending ==>
      c.into == c.i % 2 && Issued(p, s.threads[c.t], c.q, c.i) && !Waited(s.threads[c.t], c.i) && c.i < Trips(p)
  }

  function Trips(p: Kernel): int { if p.step > 0 then p.Trip() else 0 }

  /** The cell thread t's q-th copy fills holds tile i once that copy has landed, until the thread issues
      the copy of tile i + 2 into the same buffer. */
  ghost predicate Landed(p: Kernel, s: State, t: nat, q: nat, i: nat)
    requires p.Valid() && Shape(p, s) && t < p.threads && q < p.copies
  {
    (Issued(p, s.threads[t], q, i) && i < p.Trip() && Copy(t, q, i, i % 2) !in s.pending
      && !Issued(p, s.threads[t], q, i + 2))
    ==> s.smem[i % 2][p.Cell(t, q)] == p.Tile(i, p.Cell(t, q))
  }

  ghost predicate Inv(p: Kernel, s: State)
    requires p.Valid()
  {
    && Shape(p, s)
    && (forall t :: 0 <= t < p.threads ==> ThreadOk(p, t, s.threads[t]))
    && (forall t, u :: 0 <= t < p.threads && 0 <= u < p.threads ==> Passed(s.threads[t]) <= Arrived(s.threads[u]))
    && (forall c :: c in s.pending ==> PendingOk(p, s, c))
    && (forall t, q, i :: 0 <= t < p.threads && 0 <= q < p.copies && 0 <= i ==> Landed(p, s, t, q, i))
  }

  lemma InitialInv(p: Kernel, s: State)
    requires p.Valid() && Initial(p, s)
    ensures Inv(p, s)
  {
    TripIs(p, 0);
  }

  /** Every cell of the buffer a computing thread reads holds the tile of its iteration. */
  lemma ReadsTile(p: Kernel, s: State, t: nat, c: nat)
    requires p.Valid() && Inv(p, s) && t < p.threads && c < p.cells && s.threads[t].phase.Computing?
    ensures s.smem[s.threads[t].readBuf][c] == p.Tile(s.threads[t].iter, c)
  {
    var i := s.threads[t].iter;
    var (u, q) := p.Mover(c);
    assert Passed(s.threads[t]) <= Arrived(s.threads[u]) && Passed(s.threads[u]) <= Arrived(s.threads[t]);
    var copy := Copy(u, q, i, i % 2);
    assert copy !in s.pending;
    assert Landed(p, s, u, q, i);
  }

  /** One thread's new state is again in order. */
  lemma AdvanceOk(p: Kernel, s: State, t: nat)
    requires p.Valid() && Inv(p, s) && CanRun(s, t)
    ensures ThreadOk(p, t, Advance(p, s.smem, t, s.threads[t]).0)
  {
    var x := s.threads[t];
    TripIs(p, x.iter);
    TripIs(p, x.iter + 1);
    if x.phase.Computing? && x.phase.j < p.macs {
      ReadsTile(p, s, t, p.Operand(t, x.phase.j));
    }
  }

  /** What a step of one thread does to the counts and to what it has issued. */
  lemma AdvanceIssues(p: Kernel, s: State, t: nat, q: nat, i: nat)
    requires p.Valid() && Inv(p, s) && CanRun(s, t) && q < p.copies
    ensures var (x, issued) := Advance(p, s.smem, t, s.threads[t]);
            && Arrived(s.threads[t]) <= Arrived(x) && Passed(s.threads[t]) <= Passed(x)
            && (i < p.Trip() ==>
                  (Issued(p, x, q, i) <==> Issued(p, s.threads[t], q, i) || Copy(t, q, i, i % 2) in issued))
            && (Copy(t, q, i, i % 2) in issued ==> !Issued(p, s.threads[t], q, i) && !Waited(x, i) && i < p.Trip())
  {
    TripIs(p, s.threads[t].iter);
    TripIs(p, s.threads[t].iter + 1);
  }

  /** The copies a step issues. */
  lemma AdvanceCopies(p: Kernel, s: State, t: nat)
    requires p.Valid() && Inv(p, s) && CanRun(s, t)
    ensures var (x, issued) := Advance(p, s.smem, t, s.threads[t]);
            forall c :: c in issued ==> c.t == t && c.q < p.copies && c.into == c.i % 2 && Issued(p, x, c.q, c.i)
  {
    assert ThreadOk(p, t, s.threads[t]);
  }

  lemma RunKeepsInv(p: Kernel, s: State, s': State, t: nat)
    requires p.Valid() && Inv(p, s) && Next(p, s, s', Run(t))
    ensures Inv(p, s')
  {
    RunKeepsShape(p, s, s', t);
    AdvanceOk(p, s, t);
    forall c | c in s'.pending ensures PendingOk(p, s', c) {
      RunKeepsPending(p, s, s', t, c);
    }
    RunKeepsBarriers(p, s, s', t);
    forall u, q, i | 0 <= u < p.threads && 0 <= q < p.copies && 0 <= i ensures Landed(p, s', u, q, i) {
      RunKeepsLanded(p, s, s', t, u, q, i);
    }
  }

  lemma RunKeepsShape(p: Kernel, s: State, s': State, t: nat)
    requires p.Valid() && Inv(p, s) && Next(p, s, s', Run(t))
    ensures Shape(p, s')
  {
    AdvanceOk(p, s, t);
    AdvanceCopies(p, s, t);
  }

  lemma RunKeepsPending(p: Kernel, s: State, s': State, t: nat, c: Copy)
    requires p.Valid() && Inv(p, s) && Next(p, s, s', Run(t)) && Shape(p, s') && c in s'.pending
    ensures PendingOk(p, s', c)
  {
    if c !in s.pending {
      AdvanceCopies(p, s, t);
      AdvanceIssues(p, s, t, c.q, c.i);
    } else if c.t == t {
      OwnPendingKept(p, s, s', t, c);
    } else {
      assert PendingOk(p, s, c);
    }
  }

  lemma RunKeepsBarriers(p: Kernel, s: State, s': State, t: nat)
    requires p.Valid() && Inv(p, s) && Next(p, s, s', Run(t))
    ensures forall a, b :: 0 <= a < p.threads && 0 <= b < p.threads ==> Passed(s'.threads[a]) <= Arrived(s'.threads[b])
  {
    forall a, b | 0 <= a < p.threads && 0 <= b < p.threads ensures Passed(s'.threads[a]) <= Arrived(s'.threads[b]) {
      assert Passed(s.threads[a]) <= Arrived(s.threads[b]);
    }
  }

  lemma RunKeepsLanded(p: Kernel, s: State, s': State, t: nat, u: nat, q: nat, i: nat)
    requires p.Valid() && Inv(p, s) && Next(p, s, s', Run(t)) && Shape(p, s') && u < p.threads && q < p.copies
    ensures Landed(p, s', u, q, i)
  {
    assert Landed(p, s, u, q, i);
    if u == t && i < p.Trip() {
      AdvanceIssues(p, s, t, q, i);
      if Issued(p, s.threads[t], q, i + 2) {
        IssuedStays(p, s, t, q, i + 2);
      }
    }
  }

  lemma IssuedStays(p: Kernel, s: State, t: nat, q: nat, i: nat)
    requires p.Valid() && Inv(p, s) && CanRun(s, t) && q < p.copies && Issued(p, s.threads[t], q, i)
    ensures Issued(p, Advance(p, s.smem, t, s.threads[t]).0, q, i)
  {
    TripIs(p, s.threads[t].iter);
  }

  /** A thread with a copy in flight is not the one that passes its wait. */
  lemma OwnPendingKept(p: Kernel, s: State, s': State, t: nat, c: Copy)
    requires p.Valid() && Inv(p, s) && Next(p, s, s', Run(t)) && Shape(p, s') && c in s.pending && c.t == t
    ensures PendingOk(p, s', c)
  {
    assert PendingOk(p, s, c);
    IssuedStays(p, s, t, c.q, c.i);
    TripIs(p, s.threads[t].iter);
  }

  lemma LandKeepsInv(p: Kernel, s: State, s': State, c: Copy)
    requires p.Valid() && Inv(p, s) && Next(p, s, s', Land(c))
    ensures Inv(p, s')
  {
    assert PendingOk(p, s, c);
    forall d | d in s'.pending ensures PendingOk(p, s', d) {
      assert PendingOk(p, s, d);
    }
    forall u, q, i | 0 <= u < p.threads && 0 <= q < p.copies && 0 <= i
      ensures Landed(p, s', u, q, i) {
      assert Landed(p, s, u, q, i);
      assert p.Mover(p.Cell(u, q)) == (u, q);
      if u == c.t && q == c.q {
        SameBuffer(p, s.threads[u], q, c.i, i);
      }
    }
  }

  /** A copy in flight is the newest its thread issued for that buffer, and the older one is overwritten by it. */
  lemma SameBuffer(p: Kernel, x: Thread, q: nat, i: nat, j: nat)
    requires Issued(p, x, q, i) && !Waited(x, i) && (x.phase.Prologue? ==> x.iter == 0)
    ensures i % 2 == j % 2 && i != j && Issued(p, x, q, j) ==> Issued(p, x, q, j + 2)
  {
  }

  lemma NextKeepsInv(p: Kernel, s: State, s': State, step: Step)
    requires p.Valid() && Inv(p, s) && Next(p, s, s', step)
    ensures Inv(p, s')
  {
    match step
    case Run(t) => RunKeepsInv(p, s, s', t);
    case Land(c) => LandKeepsInv(p, s, s', c);
  }

  // ---- runs ---------------------------------------------------------------

  /** Any interleaving of the threads' steps and of the landing of copies. */
  ghost predicate IsRun(p: Kernel, states: seq<State>, steps: seq<Step>)
    requires p.Valid()
  {
    && |states| == |steps| + 1 && Initial(p, states[0])
    && forall i :: 0 <= i < |steps| ==> Shape(p, states[i]) && Next(p, states[i], states[i + 1], steps[i])
  }

  lemma {:induction false} ReachableInv(p: Kernel, states: seq<State>, steps: seq<Step>, i: nat)
    requires p.Valid() && IsRun(p, states, steps) && i < |states|
    ensures Inv(p, states[i])
  {
    if i == 0 {
      InitialInv(p, states[0]);
    } else {
      ReachableInv(p, states, steps, i - 1);
      NextKeepsInv(p, states[i - 1], states[i], steps[i - 1]);
    }
  }

  /** However the threads and the copies interleave, a thread computing iteration i sees tile i in every
      cell of its read buffer, and whatever is in flight goes into the other buffer. */
  lemma ComputeSeesItsTile(p: Kernel, states: seq<State>, steps: seq<Step>, n: nat, t: nat)
    requires p.Valid() && IsRun(p, states, steps) && n < |states| && t < p.threads
    ensures Shape(p, states[n])
    ensures states[n].threads[t].phase.Computing? ==>
              forall c :: 0 <= c < p.cells ==>
                states[n].smem[states[n].threads[t].readBuf][c] == p.Tile(states[n].threads[t].iter, c)
    ensures states[n].threads[t].phase.Computing? ==>
              forall c :: c in states[n].pending ==>
                c.into != states[n].threads[t].readBuf && c.i == states[n].threads[t].iter + 1
  {
    ReachableInv(p, states, steps, n);
    var s := states[n];
    if s.threads[t].phase.Computing? {
      forall c | 0 <= c < p.cells ensures s.smem[s.threads[t].readBuf][c] == p.Tile(s.threads[t].iter, c) {
        ReadsTile(p, s, t, c);
      }
      forall c | c in s.pending ensures c.into != s.threads[t].readBuf && c.i == s.threads[t].iter + 1 {
        assert PendingOk(p, s, c);
        assert Passed(s.threads[t]) <= Arrived(s.threads[c.t]) && Passed(s.threads[c.t]) <= Arrived(s.threads[t]);
      }
    }
  }

  /** When a thread is past the loop its accumulator is the one of the loop with a single buffer. */
  lemma ResultIsSingleBuffers(p: Kernel, states: seq<State>, steps: seq<Step>, n: nat, t: nat)
    requires p.Valid() && IsRun(p, states, steps) && n < |states| && t < p.threads
    ensures Shape(p, states[n])
    ensures states[n].threads[t].phase.Finished? ==> states[n].threads[t].acc == After(p, t, p.Trip(), 0)
  {
    ReachableInv(p, states, steps, n);
    assert ThreadOk(p, t, states[n].threads[t]);
  }

  // ---- no thread waits for ever -------------------------------------------

  /** The thread that has reached the fewest barriers, among those not finished. */
  lemma {:induction false} Slowest(s: State, n: nat) returns (t: nat)
    requires n <= |s.threads| && exists u :: 0 <= u < n && !s.threads[u].phase.Finished?
    ensures t < n && !s.threads[t].phase.Finished?
    ensures forall u :: 0 <= u < n && !s.threads[u].phase.Finished? ==> Arrived(s.threads[t]) <= Arrived(s.threads[u])
  {
    if exists u :: 0 <= u < n - 1 && !s.threads[u].phase.Finished? {
      t := Slowest(s, n - 1);
      if !s.threads[n - 1].phase.Finished? && Arrived(s.threads[n - 1]) < Arrived(s.threads[t]) {
        t := n - 1;
      }
    } else {
      t := n - 1;
    }
  }

  /** In every reachable state either all threads are finished, or a copy can land, or a thread can run: the
      barriers and waits never lock up. */
  lemma NeverStuck(p: Kernel, states: seq<State>, steps: seq<Step>, n: nat)
    requires p.Valid() && IsRun(p, states, steps) && n < |states|
    ensures Shape(p, states[n])
    ensures (forall t :: 0 <= t < p.threads ==> states[n].threads[t].phase.Finished?)
         || exists step, s' :: Next(p, states[n], s', step)
  {
    ReachableInv(p, states, steps, n);
    var s := states[n];
    if c :| c in s.pending {
      var b := s.smem[c.into];
      assert Next(p, s, State(s.threads, s.pending - {c},
                    s.smem[c.into := b[p.Cell(c.t, c.q) := p.Tile(c.i, p.Cell(c.t, c.q))]]), Land(c));
    } else if exists u :: 0 <= u < p.threads && !s.threads[u].phase.Finished? {
      var t := Slowest(s, p.threads);
      assert ThreadOk(p, t, s.threads[t]);
      assert forall u :: 0 <= u < p.threads && s.threads[u].phase.Finished? ==> ThreadOk(p, u, s.threads[u]);
      var (x, issued) := Advance(p, s.smem, t, s.threads[t]);
      assert Next(p, s, State(s.threads[t := x], s.pending + issued, s.smem), Run(t));
    }
  }
}
