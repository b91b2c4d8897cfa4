/** Threads between two barriers. A thread's code is a list of iterations of strided loops; when no iteration stores to a
    cell another one touches, every interleaving of the threads leaves in each cell what the one iteration that stores
    to it leaves when it runs alone. */
module Races {
  import opened ExtendedReal

  type Word = Flt

  /** A cell of workgroup memory, of the output, or a register that a thread keeps across barriers. */
  datatype Cell =
    | Accum(row: nat, col: nat) | Score(row: nat, col: nat) | RowM(row: nat) | RowL(row: nat) | RowScale(row: nat)
    | Partial(thread: nat) | TotalMax(thread: nat) | TotalSum(thread: nat)
    | Out(row: nat, col: nat)

  /** An access: what is stored is computed from what has been loaded since the iteration began, and from operands
      nobody writes. */
  datatype Access = Begin | Load(c: Cell) | Store(c: Cell, f: seq<Word> -> Word)
  {
    function Value(loads: seq<Word>): Word
      requires Store?
    {
      f(loads)
    }
  }

  type Program = seq<Access>
  type Memory = map<Cell, Word>

  function Get(m: Memory, c: Cell): Word { if c in m then m[c] else Bad }

  /** The i-th value loaded. */
  function At(loads: seq<Word>, i: nat): Word { if i < |loads| then loads[i] else Bad }

  datatype Thread = Thread(pc: nat, loads: seq<Word>)
  datatype State = State(threads: seq<Thread>, mem: Memory)

  function Do(a: Access, loads: seq<Word>, m: Memory): (seq<Word>, Memory) {
    match a
    case Begin => ([], m)
    case Load(c) => (loads + [Get(m, c)], m)
    case Store(c, _) => (loads, m[c := a.Value(loads)])
  }

  /** One access of one thread; a finished thread does nothing. */
  function StepThread(p: Program, x: Thread, m: Memory): (Thread, Memory) {
    if x.pc >= |p| then (x, m)
    else
      var (loads, m') := Do(p[x.pc], x.loads, m);
      (Thread(x.pc + 1, loads), m')
  }

  /** The state after a schedule: which thread makes the next access, again and again. */
  function Run(ps: seq<Program>, m: Memory, schedule: seq<nat>): (s: State)
    requires forall i :: 0 <= i < |schedule| ==> schedule[i] < |ps|
    ensures |s.threads| == |ps|
  {
    if schedule == [] then State(seq(|ps|, _ => Thread(0, [])), m)
    else
      var n := |schedule| - 1;
      var s := Run(ps, m, schedule[..n]);
      var t := schedule[n];
      var (x, m') := StepThread(ps[t], s.threads[t], s.mem);
      State(s.threads[t := x], m')
  }

  /** One thread running with nobody else. */
  function Solo(p: Program, m: Memory, n: nat): (Thread, Memory) {
    if n == 0 then (Thread(0, []), m)
    else
      var (x, m') := Solo(p, m, n - 1);
      StepThread(p, x, m')
  }

  ghost predicate Stores(p: Program, c: Cell) {
    exists i :: 0 <= i < |p| && p[i].Store? && p[i].c == c
  }

  ghost predicate Touches(p: Program, c: Cell) {
    exists i :: 0 <= i < |p| && !p[i].Begin? && p[i].c == c
  }

  ghost predicate Apart(p: Program, q: Program) {
    forall c :: Stores(p, c) ==> !Touches(q, c)
  }

  ghost predicate RaceFree(ps: seq<Program>) {
    forall t, u :: 0 <= t < |ps| && 0 <= u < |ps| && t != u ==> Apart(ps[t], ps[u])
  }

  function Turns(schedule: seq<nat>, t: nat): nat {
    if schedule == [] then 0
    else Turns(schedule[..|schedule| - 1], t) + if schedule[|schedule| - 1] == t then 1 else 0
  }

  lemma {:induction false} SoloPc(p: Program, m: Memory, n: nat)
    ensures Solo(p, m, n).0.pc == if n < |p| then n else |p|
    ensures forall c :: !Stores(p, c) ==> Get(Solo(p, m, n).1, c) == Get(m, c)
  {
    if n > 0 {
      SoloPc(p, m, n - 1);
    }
  }

  lemma {:induction false} SoloStops(p: Program, m: Memory, n: nat)
    requires n >= |p|
    ensures Solo(p, m, n) == Solo(p, m, |p|)
  {
    if n > |p| {
      SoloStops(p, m, n - 1);
      SoloPc(p, m, n - 1);
    }
  }

  /** After `turns[t]` turns of each thread t: it is where it would be alone, and every cell holds what the one
      thread that stores to it, if any, would have put there alone. */
  ghost predicate AsIfAlone(ps: seq<Program>, m: Memory, turns: seq<nat>, s: State) {
    && |turns| == |s.threads| == |ps|
    && (forall t :: 0 <= t < |ps| ==> s.threads[t] == Solo(ps[t], m, turns[t]).0)
    && (forall t, c :: 0 <= t < |ps| && Stores(ps[t], c) ==> Get(s.mem, c) == Get(Solo(ps[t], m, turns[t]).1, c))
    && (forall c :: Unstored(ps, c) ==> Get(s.mem, c) == Get(m, c))
  }

  ghost predicate Unstored(ps: seq<Program>, c: Cell) {
    forall t :: 0 <= t < |ps| ==> !Stores(ps[t], c)
  }

  lemma StepAgrees(p: Program, x: Thread, m: Memory, n: Memory)
    requires forall c :: Touches(p, c) ==> Get(m, c) == Get(n, c)
    ensures StepThread(p, x, m).0 == StepThread(p, x, n).0
    ensures forall c :: Touches(p, c) ==> Get(StepThread(p, x, m).1, c) == Get(StepThread(p, x, n).1, c)
    ensures forall c :: !Stores(p, c) ==> Get(StepThread(p, x, m).1, c) == Get(m, c)
  {
    if x.pc < |p| && !p[x.pc].Begin? {
      assert Touches(p, p[x.pc].c);
    }
  }

  lemma StoredIsTouched(p: Program, c: Cell)
    requires Stores(p, c)
    ensures Touches(p, c)
  {
  }

  lemma SeesItsOwn(ps: seq<Program>, m: Memory, turns: seq<nat>, s: State, t: nat, c: Cell)
    requires RaceFree(ps) && AsIfAlone(ps, m, turns, s) && t < |ps| && Touches(ps[t], c)
    ensures Get(s.mem, c) == Get(Solo(ps[t], m, turns[t]).1, c)
  {
    hide Stores, Touches;
    if !Stores(ps[t], c) {
      forall u | 0 <= u < |ps| ensures !Stores(ps[u], c) {
        if u != t {
          assert Apart(ps[u], ps[t]);
        }
      }
      assert Unstored(ps, c);
      SoloPc(ps[t], m, turns[t]);
    }
  }

  lemma OneMoreTurn(ps: seq<Program>, m: Memory, turns: seq<nat>, s: State, t: nat)
    requires RaceFree(ps) && AsIfAlone(ps, m, turns, s) && t < |ps|
    ensures var (x, mem) := StepThread(ps[t], s.threads[t], s.mem);
            AsIfAlone(ps, m, turns[t := turns[t] + 1], State(s.threads[t := x], mem))
  {
    hide Stores, Touches;
    var (x, alone) := Solo(ps[t], m, turns[t]);
    forall c | Touches(ps[t], c) ensures Get(s.mem, c) == Get(alone, c) {
      SeesItsOwn(ps, m, turns, s, t, c);
    }
    StepAgrees(ps[t], x, s.mem, alone);
    assert Solo(ps[t], m, turns[t] + 1) == StepThread(ps[t], x, alone);
    forall u, c | 0 <= u < |ps| && u != t && Stores(ps[u], c) ensures !Stores(ps[t], c) {
      assert Apart(ps[u], ps[t]);
      if Stores(ps[t], c) {
        StoredIsTouched(ps[t], c);
      }
    }
    forall c | Stores(ps[t], c) ensures Touches(ps[t], c) {
      StoredIsTouched(ps[t], c);
    }
    hide Solo, StepThread, RaceFree;
    forall c | Unstored(ps, c) ensures !Stores(ps[t], c) {
    }
  }

  function AllTurns(schedule: seq<nat>, threads: nat): (r: seq<nat>)
    ensures |r| == threads
  {
    seq(threads, t requires 0 <= t < threads => Turns(schedule, t))
  }

  lemma LastTurn(ps: seq<Program>, m: Memory, schedule: seq<nat>)
    requires schedule != [] && forall i :: 0 <= i < |schedule| ==> schedule[i] < |ps|
    ensures var before, t := schedule[..|schedule| - 1], schedule[|schedule| - 1];
            var s := Run(ps, m, before);
            var (x, m') := StepThread(ps[t], s.threads[t], s.mem);
            Run(ps, m, schedule) == State(s.threads[t := x], m')
  {
    hide StepThread;
  }

  lemma OneMoreInAll(schedule: seq<nat>, threads: nat)
    requires schedule != [] && schedule[|schedule| - 1] < threads
    ensures var before, t := AllTurns(schedule[..|schedule| - 1], threads), schedule[|schedule| - 1];
            AllTurns(schedule, threads) == before[t := before[t] + 1]
  {
  }

  lemma {:induction false} EveryInterleaving(ps: seq<Program>, m: Memory, schedule: seq<nat>)
    requires RaceFree(ps) && forall i :: 0 <= i < |schedule| ==> schedule[i] < |ps|
    ensures AsIfAlone(ps, m, AllTurns(schedule, |ps|), Run(ps, m, schedule))
  {
    if schedule != [] {
      hide AsIfAlone, StepThread, RaceFree, Run, AllTurns, Solo;
      var before, t := schedule[..|schedule| - 1], schedule[|schedule| - 1];
      EveryInterleaving(ps, m, before);
      OneMoreTurn(ps, m, AllTurns(before, |ps|), Run(ps, m, before), t);
      LastTurn(ps, m, schedule);
      OneMoreInAll(schedule, |ps|);
    }
  }

  /** Every thread has had as many turns as it has accesses. */
  ghost predicate Complete(ps: seq<Program>, schedule: seq<nat>) {
    && (forall i :: 0 <= i < |schedule| ==> schedule[i] < |ps|)
    && (forall t :: 0 <= t < |ps| ==> Turns(schedule, t) >= |ps[t]|)
  }

  /** Any two complete schedules leave the same memory behind. */
  lemma SameEffect(ps: seq<Program>, m: Memory, a: seq<nat>, b: seq<nat>, c: Cell)
    requires RaceFree(ps) && Complete(ps, a) && Complete(ps, b)
    ensures Get(Run(ps, m, a).mem, c) == Get(Run(ps, m, b).mem, c)
  {
    EveryInterleaving(ps, m, a);
    EveryInterleaving(ps, m, b);
    if t :| 0 <= t < |ps| && Stores(ps[t], c) {
      assert AllTurns(a, |ps|)[t] == Turns(a, t) && AllTurns(b, |ps|)[t] == Turns(b, t);
      SoloStops(ps[t], m, Turns(a, t));
      SoloStops(ps[t], m, Turns(b, t));
    } else {
      assert Unstored(ps, c);
    }
  }

  function Repeat(t: nat, n: nat): seq<nat> {
    seq(n, _ => t)
  }

  /** Thread 0 to its end, then thread 1, and so on. */
  function OneAfterAnother(ps: seq<Program>, count: nat): seq<nat>
    requires count <= |ps|
  {
    if count == 0 then [] else OneAfterAnother(ps, count - 1) + Repeat(count - 1, |ps[count - 1]|)
  }

  lemma {:induction false} TurnsOfRepeat(s: seq<nat>, u: nat, n: nat, t: nat)
    ensures Turns(s + Repeat(u, n), t) == Turns(s, t) + if u == t then n else 0
  {
    if n == 0 {
      assert s + Repeat(u, 0) == s;
    } else {
      TurnsOfRepeat(s, u, n - 1, t);
      assert (s + Repeat(u, n))[..|s| + n - 1] == s + Repeat(u, n - 1);
    }
  }

  lemma {:induction false} OneAfterAnotherTurns(ps: seq<Program>, count: nat, t: nat)
    requires count <= |ps| && t < |ps|
    ensures forall i :: 0 <= i < |OneAfterAnother(ps, count)| ==> OneAfterAnother(ps, count)[i] < |ps|
    ensures Turns(OneAfterAnother(ps, count), t) == if t < count then |ps[t]| else 0
  {
    if count > 0 {
      OneAfterAnotherTurns(ps, count - 1, t);
      TurnsOfRepeat(OneAfterAnother(ps, count - 1), count - 1, |ps[count - 1]|, t);
    }
  }

  /** Between two barriers, however a race-free block's threads interleave, they might as well run in turn. */
  lemma InterleavingIsSequential(ps: seq<Program>, m: Memory, schedule: seq<nat>, c: Cell)
    requires RaceFree(ps) && |ps| > 0 && Complete(ps, schedule)
    ensures Complete(ps, OneAfterAnother(ps, |ps|))
    ensures Get(Run(ps, m, schedule).mem, c) == Get(Run(ps, m, OneAfterAnother(ps, |ps|)).mem, c)
  {
    forall t | 0 <= t < |ps|
      ensures Turns(OneAfterAnother(ps, |ps|), t) >= |ps[t]|
      ensures forall i :: 0 <= i < |OneAfterAnother(ps, |ps|)| ==> OneAfterAnother(ps, |ps|)[i] < |ps| {
      OneAfterAnotherTurns(ps, |ps|, t);
    }
    OneAfterAnotherTurns(ps, |ps|, 0);
    SameEffect(ps, m, schedule, OneAfterAnother(ps, |ps|), c);
  }

  // ---- a thread as its iterations ------------------------------------------

  /** A whole list of accesses at once. */
  function Exec(p: Program, loads: seq<Word>, m: Memory): (seq<Word>, Memory) {
    if p == [] then (loads, m)
    else
      var (loads', m') := Exec(p[..|p| - 1], loads, m);
      Do(p[|p| - 1], loads', m')
  }

  lemma {:induction false} ExecConcat(p: Program, q: Program, loads: seq<Word>, m: Memory)
    ensures Exec(p + q, loads, m) == Exec(q, Exec(p, loads, m).0, Exec(p, loads, m).1)
  {
    hide Do;
    if q == [] {
      assert p + q == p;
    } else {
      ExecConcat(p, q[..|q| - 1], loads, m);
      assert (p + q)[..|p + q| - 1] == p + q[..|q| - 1];
    }
  }

  lemma {:induction false} SoloIsExec(p: Program, m: Memory, n: nat)
    requires n <= |p|
    ensures Solo(p, m, n) == (Thread(n, Exec(p[..n], [], m).0), Exec(p[..n], [], m).1)
  {
    hide Do;
    if n > 0 {
      SoloIsExec(p, m, n - 1);
      assert p[..n][..n - 1] == p[..n - 1];
    }
  }

  /** An iteration begins without anything loaded. */
  predicate Fresh(p: Program) {
    p == [] || p[0] == Begin
  }

  /** What an iteration leaves in memory. */
  function Effect(p: Program, m: Memory): Memory {
    Exec(p, [], m).1
  }

  lemma {:induction false} FreshForgets(p: Program, loads: seq<Word>, m: Memory)
    requires Fresh(p)
    ensures Exec(p, loads, m).1 == Effect(p, m)
    ensures p != [] ==> Exec(p, loads, m) == Exec(p, [], m)
  {
    if |p| == 1 {
      assert p[..|p| - 1] == [] && p[|p| - 1] == Begin;
      assert Exec([], loads, m) == (loads, m) && Exec([], [], m) == ([], m);
    } else if p != [] {
      FreshForgets(p[..|p| - 1], loads, m);
    }
  }

  function Concat(items: seq<Program>, share: seq<nat>): Program
    requires forall k :: 0 <= k < |share| ==> share[k] < |items|
  {
    if share == [] then [] else Concat(items, share[..|share| - 1]) + items[share[|share| - 1]]
  }

  /** A thread's iterations, one after another. */
  function Iterate(items: seq<Program>, share: seq<nat>, m: Memory): Memory
    requires forall k :: 0 <= k < |share| ==> share[k] < |items|
  {
    if share == [] then m else Effect(items[share[|share| - 1]], Iterate(items, share[..|share| - 1], m))
  }

  ghost predicate AllFresh(items: seq<Program>) {
    forall x :: 0 <= x < |items| ==> Fresh(items[x])
  }

  lemma {:induction false} ConcatIterates(items: seq<Program>, share: seq<nat>, loads: seq<Word>, m: Memory)
    requires AllFresh(items) && forall k :: 0 <= k < |share| ==> share[k] < |items|
    ensures Exec(Concat(items, share), loads, m).1 == Iterate(items, share, m)
  {
    if share != [] {
      var before, last := share[..|share| - 1], items[share[|share| - 1]];
      ConcatIterates(items, before, loads, m);
      var p := Concat(items, before);
      ExecConcat(p, last, loads, m);
      FreshForgets(last, Exec(p, loads, m).0, Exec(p, loads, m).1);
    }
  }

  /** Iterations store to cells of their own. */
  ghost predicate ItemsApart(items: seq<Program>) {
    forall x, y :: 0 <= x < |items| && 0 <= y < |items| && x != y ==> Apart(items[x], items[y])
  }

  lemma {:induction false} ExecAgrees(p: Program, q: Program, loads: seq<Word>, m: Memory, n: Memory)
    requires (forall i :: 0 <= i < |p| ==> p[i] in q) && forall c :: Touches(q, c) ==> Get(m, c) == Get(n, c)
    ensures Exec(p, loads, m).0 == Exec(p, loads, n).0
    ensures forall c :: Touches(q, c) ==> Get(Exec(p, loads, m).1, c) == Get(Exec(p, loads, n).1, c)
    ensures forall c :: !Stores(q, c) ==> Get(Exec(p, loads, m).1, c) == Get(m, c)
  {
    if p != [] {
      ExecAgrees(p[..|p| - 1], q, loads, m, n);
      var a := p[|p| - 1];
      assert a in q;
      var i :| 0 <= i < |q| && q[i] == a;
      if !a.Begin? {
        assert Touches(q, a.c);
      }
    }
  }

  lemma EffectAgrees(p: Program, m: Memory, n: Memory)
    requires forall c :: Touches(p, c) ==> Get(m, c) == Get(n, c)
    ensures forall c :: Touches(p, c) ==> Get(Effect(p, m), c) == Get(Effect(p, n), c)
    ensures forall c :: !Stores(p, c) ==> Get(Effect(p, m), c) == Get(m, c)
  {
    ExecAgrees(p, p, [], m, n);
  }

  /** Distinct iterations one after another: each leaves in its cells what it leaves alone, other cells stay. */
  lemma {:induction false} IterateAsIfAlone(items: seq<Program>, share: seq<nat>, m: Memory)
    requires ItemsApart(items) && (forall k :: 0 <= k < |share| ==> share[k] < |items|)
    requires forall k, l :: 0 <= k < l < |share| ==> share[k] != share[l]
    ensures forall x, c :: x in share && Stores(items[x], c) ==>
              Get(Iterate(items, share, m), c) == Get(Effect(items[x], m), c)
    ensures forall c :: (forall x :: x in share ==> !Stores(items[x], c)) ==> Get(Iterate(items, share, m), c) == Get(m, c)
  {
    if share != [] {
      var before, y := share[..|share| - 1], share[|share| - 1];
      IterateAsIfAlone(items, before, m);
      hide Stores, Touches;
      var m1 := Iterate(items, before, m);
      assert y !in before;
      forall c | Touches(items[y], c) ensures Get(m1, c) == Get(m, c) {
        forall x | x in before ensures !Stores(items[x], c) {
          assert Apart(items[x], items[y]);
        }
      }
      EffectAgrees(items[y], m1, m);
      var m2 := Iterate(items, share, m);
      forall x, c | x in share && Stores(items[x], c) ensures Get(m2, c) == Get(Effect(items[x], m), c) {
        if x == y {
          StoredIsTouched(items[y], c);
        } else {
          assert x in before && Apart(items[x], items[y]);
          if Stores(items[y], c) {
            StoredIsTouched(items[y], c);
          }
        }
      }
      forall c | forall x :: x in share ==> !Stores(items[x], c) ensures Get(m2, c) == Get(m, c) {
        assert y in share;
        forall x | x in before ensures !Stores(items[x], c) {
          assert x in share;
        }
      }
    }
  }

  // ---- a block -------------------------------------------------------------

  /** Every iteration is some thread's, and no two threads or places share one. */
  ghost predicate Deals(shares: seq<seq<nat>>, count: nat) {
    && (forall t, k :: 0 <= t < |shares| && 0 <= k < |shares[t]| ==> shares[t][k] < count)
    && (forall t, k, l :: 0 <= t < |shares| && 0 <= k < l < |shares[t]| ==> shares[t][k] != shares[t][l])
    && (forall t, u, x :: 0 <= t < |shares| && 0 <= u < |shares| && x in shares[t] && x in shares[u] ==> t == u)
    && (forall x :: 0 <= x < count ==> HasThread(shares, x))
  }

  ghost predicate HasThread(shares: seq<seq<nat>>, x: nat) {
    exists t :: 0 <= t < |shares| && x in shares[t]
  }

  function Block(items: seq<Program>, shares: seq<seq<nat>>): (ps: seq<Program>)
    requires forall t, k :: 0 <= t < |shares| && 0 <= k < |shares[t]| ==> shares[t][k] < |items|
    ensures |ps| == |shares|
  {
    seq(|shares|, t requires 0 <= t < |shares| => Concat(items, shares[t]))
  }

  lemma {:induction false} ConcatTouches(items: seq<Program>, share: seq<nat>, c: Cell)
    requires forall k :: 0 <= k < |share| ==> share[k] < |items|
    ensures Touches(Concat(items, share), c) <==> exists k :: 0 <= k < |share| && Touches(items[share[k]], c)
    ensures Stores(Concat(items, share), c) <==> exists k :: 0 <= k < |share| && Stores(items[share[k]], c)
  {
    if share != [] {
      var before, y := share[..|share| - 1], share[|share| - 1];
      ConcatTouches(items, before, c);
      BothTouch(Concat(items, before), items[y], c);
      hide Touches, Stores;
      assert forall k :: 0 <= k < |before| ==> share[k] == before[k];
      if Touches(items[y], c) || Stores(items[y], c) {
        assert share[|share| - 1] == y;
      }
    }
  }

  lemma BothTouch(p: Program, q: Program, c: Cell)
    ensures Touches(p + q, c) <==> Touches(p, c) || Touches(q, c)
    ensures Stores(p + q, c) <==> Stores(p, c) || Stores(q, c)
  {
    if Touches(q, c) {
      var i :| 0 <= i < |q| && !q[i].Begin? && q[i].c == c;
      assert (p + q)[|p| + i] == q[i];
    }
    if Stores(q, c) {
      var i :| 0 <= i < |q| && q[i].Store? && q[i].c == c;
      assert (p + q)[|p| + i] == q[i];
    }
    if Touches(p, c) {
      var i :| 0 <= i < |p| && !p[i].Begin? && p[i].c == c;
      assert (p + q)[i] == p[i];
    }
    if Stores(p, c) {
      var i :| 0 <= i < |p| && p[i].Store? && p[i].c == c;
      assert (p + q)[i] == p[i];
    }
  }

  /** Threads that share out iterations with cells of their own are race-free. */
  lemma BlockIsRaceFree(items: seq<Program>, shares: seq<seq<nat>>)
    requires ItemsApart(items) && Deals(shares, |items|)
    ensures RaceFree(Block(items, shares))
  {
    hide Touches, Stores;
    var ps := Block(items, shares);
    forall t, u, c | 0 <= t < |ps| && 0 <= u < |ps| && t != u && Stores(ps[t], c) ensures !Touches(ps[u], c) {
      ConcatTouches(items, shares[t], c);
      ConcatTouches(items, shares[u], c);
      var k :| 0 <= k < |shares[t]| && Stores(items[shares[t][k]], c);
      forall l | 0 <= l < |shares[u]| ensures !Touches(items[shares[u][l]], c) {
        assert shares[t][k] in shares[t] && shares[u][l] in shares[u];
        assert Apart(items[shares[t][k]], items[shares[u][l]]);
      }
    }
  }

  /** Memory n is what some interleaving of the block's threads makes of m. */
  ghost predicate Interleaves(items: seq<Program>, shares: seq<seq<nat>>, m: Memory, n: Memory) {
    && Deals(shares, |items|)
    && exists schedule :: Leads(Block(items, shares), m, schedule, n)
  }

  ghost predicate Leads(ps: seq<Program>, m: Memory, schedule: seq<nat>, n: Memory) {
    Complete(ps, schedule) && Run(ps, m, schedule).mem == n
  }

  /** However the threads interleave, each cell ends up as its one iteration leaves it when it runs alone. */
  lemma EveryCellAsIfAlone(items: seq<Program>, shares: seq<seq<nat>>, m: Memory, n: Memory)
    requires ItemsApart(items) && AllFresh(items) && Interleaves(items, shares, m, n)
    ensures forall x, c :: 0 <= x < |items| && Stores(items[x], c) ==> Get(n, c) == Get(Effect(items[x], m), c)
    ensures forall c :: Unstored(items, c) ==> Get(n, c) == Get(m, c)
  {
    hide Stores, Touches, Run, Solo;
    var ps := Block(items, shares);
    var schedule :| Leads(ps, m, schedule, n);
    BlockIsRaceFree(items, shares);
    EveryInterleaving(ps, m, schedule);
    forall x, c | 0 <= x < |items| && Stores(items[x], c) ensures Get(n, c) == Get(Effect(items[x], m), c) {
      assert HasThread(shares, x);
      var t :| 0 <= t < |shares| && x in shares[t];
      StoredByThread(items, shares, m, schedule, x, t, c);
    }
    forall c | Unstored(items, c) ensures Get(n, c) == Get(m, c) {
      forall t | 0 <= t < |ps| ensures !Stores(ps[t], c) {
        ConcatTouches(items, shares[t], c);
      }
      assert Unstored(ps, c);
    }
  }

  lemma StoredByThread(items: seq<Program>, shares: seq<seq<nat>>, m: Memory, schedule: seq<nat>, x: nat, t: nat, c: Cell)
    requires ItemsApart(items) && AllFresh(items) && Deals(shares, |items|) && Complete(Block(items, shares), schedule)
    requires RaceFree(Block(items, shares))
    requires t < |shares| && x in shares[t] && x < |items| && Stores(items[x], c)
    ensures Get(Run(Block(items, shares), m, schedule).mem, c) == Get(Effect(items[x], m), c)
  {
    hide Stores, Touches, Run, Solo, Iterate;
    var ps := Block(items, shares);
    EveryInterleaving(ps, m, schedule);
    ConcatTouches(items, shares[t], c);
    var k :| 0 <= k < |shares[t]| && shares[t][k] == x;
    assert Stores(ps[t], c);
    assert AllTurns(schedule, |ps|)[t] == Turns(schedule, t);
    SoloStops(ps[t], m, Turns(schedule, t));
    SoloIsExec(ps[t], m, |ps[t]|);
    assert ps[t][..|ps[t]|] == ps[t];
    ConcatIterates(items, shares[t], [], m);
    IterateAsIfAlone(items, shares[t], m);
  }

  /** An owner says which iteration may store to a cell; cells with a negative owner are only loaded. */
  predicate OwnAccess(owner: Cell -> int, x: nat, a: Access) {
    match a
    case Begin => true
    case Load(c) => owner(c) == x || owner(c) < 0
    case Store(c, _) => owner(c) == x
  }

  predicate OwnAll(owner: Cell -> int, x: nat, p: Program) {
    forall i :: 0 <= i < |p| ==> OwnAccess(owner, x, p[i])
  }

  ghost predicate Owned(items: seq<Program>, owner: Cell -> int) {
    forall x :: 0 <= x < |items| ==> OwnAll(owner, x, items[x])
  }

  lemma OwnBoth(owner: Cell -> int, x: nat, p: Program, q: Program)
    requires OwnAll(owner, x, p) && OwnAll(owner, x, q)
    ensures OwnAll(owner, x, p + q)
  {
  }

  lemma OwnTouch(owner: Cell -> int, x: nat, p: Program, c: Cell)
    requires OwnAll(owner, x, p)
    ensures Stores(p, c) ==> owner(c) == x
    ensures Touches(p, c) ==> owner(c) == x || owner(c) < 0
  {
    if i :| 0 <= i < |p| && !p[i].Begin? && p[i].c == c {
      assert OwnAccess(owner, x, p[i]);
    }
    if i :| 0 <= i < |p| && p[i].Store? && p[i].c == c {
      assert OwnAccess(owner, x, p[i]);
    }
  }

  /** Iterations that keep to the cells they own: what each cell ends up holding, however their threads interleave. */
  lemma OwnedCells(items: seq<Program>, shares: seq<seq<nat>>, owner: Cell -> int, m: Memory, n: Memory)
    requires Owned(items, owner) && AllFresh(items) && Interleaves(items, shares, m, n)
    ensures ItemsApart(items)
    ensures forall x, c :: 0 <= x < |items| && Stores(items[x], c) ==> Get(n, c) == Get(Effect(items[x], m), c)
    ensures forall c :: owner(c) < 0 ==> Get(n, c) == Get(m, c)
  {
    hide Stores, Touches, OwnAll, Interleaves;
    forall x, y, c | 0 <= x < |items| && 0 <= y < |items| && x != y && Stores(items[x], c) ensures !Touches(items[y], c) {
      OwnTouch(owner, x, items[x], c);
      OwnTouch(owner, y, items[y], c);
    }
    EveryCellAsIfAlone(items, shares, m, n);
    forall c | owner(c) < 0 ensures Get(n, c) == Get(m, c) {
      forall x | 0 <= x < |items| ensures !Stores(items[x], c) {
        OwnTouch(owner, x, items[x], c);
      }
      assert Unstored(items, c);
    }
  }

  /** Some interleaving exists, so a block can always run. */
  lemma CanRun(items: seq<Program>, shares: seq<seq<nat>>, m: Memory) returns (n: Memory)
    requires Deals(shares, |items|) && |shares| > 0
    ensures Interleaves(items, shares, m, n)
  {
    var ps := Block(items, shares);
    var schedule := OneAfterAnother(ps, |ps|);
    forall t | 0 <= t < |ps|
      ensures Turns(schedule, t) >= |ps[t]|
      ensures forall i :: 0 <= i < |schedule| ==> schedule[i] < |ps| {
      OneAfterAnotherTurns(ps, |ps|, t);
    }
    OneAfterAnotherTurns(ps, |ps|, 0);
    n := Run(ps, m, schedule).mem;
    assert Leads(ps, m, schedule, n);
  }

  // ---- what short iterations leave -----------------------------------------

  lemma ExecStep(p: Program, a: Access, loads: seq<Word>, m: Memory)
    ensures Exec(p + [a], loads, m) == Do(a, Exec(p, loads, m).0, Exec(p, loads, m).1)
  {
    assert (p + [a])[..|p|] == p;
  }

  lemma StoreOne(c: Cell, f: seq<Word> -> Word, m: Memory)
    ensures Effect([Begin, Store(c, f)], m) == m[c := f([])]
    ensures Stores([Begin, Store(c, f)], c)
  {
    ExecStep([], Begin, [], m);
    ExecStep([Begin], Store(c, f), [], m);
    assert [Begin] + [Store(c, f)] == [Begin, Store(c, f)] && [] + [Begin] == [Begin];
    assert [Begin, Store(c, f)][1].Store?;
  }

  lemma LoadOneStoreOne(c: Cell, to: Cell, f: seq<Word> -> Word, m: Memory)
    ensures var p := [Begin, Load(c), Store(to, f)]; Effect(p, m) == m[to := f([Get(m, c)])] && Stores(p, to)
  {
    var p := [Begin, Load(c), Store(to, f)];
    ExecStep([], Begin, [], m);
    ExecStep([Begin], Load(c), [], m);
    ExecStep([Begin, Load(c)], Store(to, f), [], m);
    assert [Begin] + [Load(c)] == [Begin, Load(c)] && [] + [Begin] == [Begin];
    assert [Begin, Load(c)] + [Store(to, f)] == p;
    assert [] + [Get(m, c)] == [Get(m, c)];
    assert p[2].Store?;
  }

  lemma LoadTwo(c: Cell, d: Cell, m: Memory)
    ensures Exec([Begin, Load(c), Load(d)], [], m) == ([Get(m, c), Get(m, d)], m)
  {
    ExecStep([], Begin, [], m);
    ExecStep([Begin], Load(c), [], m);
    ExecStep([Begin, Load(c)], Load(d), [], m);
    assert [Begin] + [Load(c)] == [Begin, Load(c)] && [] + [Begin] == [Begin];
    assert [Begin, Load(c)] + [Load(d)] == [Begin, Load(c), Load(d)];
    assert [] + [Get(m, c)] == [Get(m, c)] && [Get(m, c)] + [Get(m, d)] == [Get(m, c), Get(m, d)];
  }

  lemma LoadTwoStoreOne(c: Cell, d: Cell, to: Cell, f: seq<Word> -> Word, m: Memory)
    ensures var p := [Begin, Load(c), Load(d), Store(to, f)];
            Effect(p, m) == m[to := f([Get(m, c), Get(m, d)])] && Stores(p, to)
  {
    var p := [Begin, Load(c), Load(d), Store(to, f)];
    LoadTwo(c, d, m);
    ExecStep([Begin, Load(c), Load(d)], Store(to, f), [], m);
    assert [Begin, Load(c), Load(d)] + [Store(to, f)] == p;
    assert p[3].Store?;
  }

  // ---- strided loops -------------------------------------------------------

  /** Thread t's iterations of `for x = t to count step threads`. */
  function Strided(t: nat, threads: nat, count: nat): (r: seq<nat>)
    requires threads > 0
    decreases count
  {
    if count == 0 then []
    else Strided(t, threads, count - 1) + if (count - 1) % threads == t then [count - 1] else []
  }

  lemma {:induction false} StridedIs(t: nat, threads: nat, count: nat)
    requires threads > 0
    ensures forall x: nat :: x in Strided(t, threads, count) <==> x < count && x % threads == t
    ensures forall k :: 0 <= k < |Strided(t, threads, count)| ==> Strided(t, threads, count)[k] < count
    ensures forall k, l :: 0 <= k < l < |Strided(t, threads, count)| ==>
              Strided(t, threads, count)[k] < Strided(t, threads, count)[l]
  {
    if count > 0 {
      StridedIs(t, threads, count - 1);
    }
  }

  function StridedShares(threads: nat, count: nat): (r: seq<seq<nat>>)
    requires threads > 0
    ensures |r| == threads && forall t :: 0 <= t < threads ==> r[t] == Strided(t, threads, count)
  {
    seq(threads, t requires 0 <= t < threads => Strided(t, threads, count))
  }

  lemma StridedDeals(threads: nat, count: nat)
    requires threads > 0
    ensures Deals(StridedShares(threads, count), count)
  {
    var shares := StridedShares(threads, count);
    hide Strided;
    forall t: nat, x: nat | t < threads ensures x in shares[t] <==> x < count && x % threads == t {
      StridedIs(t, threads, count);
    }
    forall t, k, l | 0 <= t < |shares| && 0 <= k < l < |shares[t]| ensures shares[t][k] != shares[t][l] {
      StridedIs(t, threads, count);
    }
    forall t, k | 0 <= t < |shares| && 0 <= k < |shares[t]| ensures shares[t][k] < count {
      StridedIs(t, threads, count);
    }
    forall x | 0 <= x < count ensures HasThread(shares, x) {
      assert x in shares[x % threads];
    }
  }

  /** Two strided loops without a barrier between them, over one list of iterations. */
  function TwoLoops(threads: nat, first: nat, second: nat): (r: seq<seq<nat>>)
    requires threads > 0
    ensures |r| == threads
    ensures forall t :: 0 <= t < threads ==> r[t] == Strided(t, threads, first) + Moved(Strided(t, threads, second), first)
  {
    seq(threads, t requires 0 <= t < threads => Strided(t, threads, first) + Moved(Strided(t, threads, second), first))
  }

  function Moved(s: seq<nat>, start: nat): (r: seq<nat>)
    ensures |r| == |s| && forall k :: 0 <= k < |s| ==> r[k] == s[k] + start
  {
    seq(|s|, k requires 0 <= k < |s| => s[k] + start)
  }

  lemma InTwoLoops(threads: nat, first: nat, second: nat, t: nat, x: nat)
    requires t < threads
    ensures x in TwoLoops(threads, first, second)[t] <==>
            if x < first then x % threads == t else x < first + second && (x - first) % threads == t
  {
    hide Strided;
    var a, b := Strided(t, threads, first), Strided(t, threads, second);
    StridedIs(t, threads, first);
    StridedIs(t, threads, second);
    if x >= first && x - first in b {
      var k :| 0 <= k < |b| && b[k] == x - first;
      assert Moved(b, first)[k] == x;
    }
  }

  lemma TwoLoopsDeal(threads: nat, first: nat, second: nat)
    requires threads > 0
    ensures Deals(TwoLoops(threads, first, second), first + second)
  {
    var shares := TwoLoops(threads, first, second);
    hide Strided, TwoLoops;
    forall t: nat, x: nat | t < threads
      ensures x in shares[t] <==> if x < first then x % threads == t else x < first + second && (x - first) % threads == t {
      InTwoLoops(threads, first, second, t, x);
    }
    forall t, k, l | 0 <= t < threads && 0 <= k < l < |shares[t]| ensures shares[t][k] != shares[t][l] {
      StridedIs(t, threads, first);
      StridedIs(t, threads, second);
    }
    forall t, k | 0 <= t < threads && 0 <= k < |shares[t]| ensures shares[t][k] < first + second {
      assert shares[t][k] in shares[t];
    }
    forall x | 0 <= x < first + second ensures HasThread(shares, x) {
      assert x in shares[if x < first then x % threads else (x - first) % threads];
    }
  }
}
