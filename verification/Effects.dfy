/** Memory effects of captured launches, and why hazard-free launches may be reordered. */
module Effects {

  datatype Cell = HostCell(address: int) | ObjectCell(obj: int, offset: int)
  type Value = int
  type Memory = map<Cell, Value>
  type Launch = Memory -> Memory

  /** The owner of an array's storage: host memory [lo, hi) at a data pointer, or an
      object NumPy cannot look into, known by its identity only. */
  datatype Owner = HostOwner(ptr: int, lo: int, hi: int) | ObjectOwner(obj: int)

  predicate Owns(o: Owner, c: Cell) {
    match (o, c)
    case (HostOwner(_, lo, hi), HostCell(a)) => lo <= a < hi
    case (ObjectOwner(x), ObjectCell(y, _)) => x == y
    case _ => false
  }

  /** The cells of a set of owners. */
  predicate InArea(owners: set<Owner>, c: Cell) {
    exists o :: o in owners && Owns(o, c)
  }

  /** A launch stays inside its read and write sets: it leaves every other cell alone, and what
      it writes depends only on the cells of the two sets. */
  ghost predicate StaysInside(f: Launch, readSet: set<Owner>, writeSet: set<Owner>) {
    && (forall m :: LeavesOthers(f, m, writeSet))
    && (forall m, m' :: DependsOnSets(f, m, m', readSet, writeSet))
  }

  ghost predicate LeavesOthers(f: Launch, m: Memory, writeSet: set<Owner>) {
    f(m).Keys == m.Keys && forall c :: c in m && !InArea(writeSet, c) ==> f(m)[c] == m[c]
  }

  ghost predicate DependsOnSets(f: Launch, m: Memory, m': Memory, readSet: set<Owner>, writeSet: set<Owner>) {
    m.Keys == m'.Keys && (forall c :: c in m && (InArea(readSet, c) || InArea(writeSet, c)) ==> m[c] == m'[c])
    ==> f(m).Keys == f(m').Keys && forall c :: c in f(m) && InArea(writeSet, c) ==> f(m)[c] == f(m')[c]
  }

  /** No cell of one set of owners is a cell of the other. */
  ghost predicate Disjoint(a: set<Owner>, b: set<Owner>) {
    forall c :: !(InArea(a, c) && InArea(b, c))
  }

  /** Without RAW, WAW and WAR hazards two launches commute. */
  lemma Commute(a: Step, b: Step, m: Memory)
    requires Confined(a) && Confined(b) && HazardFree(a, b)
    ensures a.launch(b.launch(m)) == b.launch(a.launch(m))
  {
    var fm, gm := a.launch(m), b.launch(m);
    var fgm, gfm := a.launch(gm), b.launch(fm);
    assert LeavesOthers(a.launch, m, a.writeSet) && LeavesOthers(a.launch, gm, a.writeSet);
    assert LeavesOthers(b.launch, m, b.writeSet) && LeavesOthers(b.launch, fm, b.writeSet);
    assert DependsOnSets(a.launch, m, gm, a.readSet, a.writeSet);
    assert DependsOnSets(b.launch, m, fm, b.readSet, b.writeSet);
    forall c | c in m
      ensures fgm[c] == gfm[c]
    {
      if InArea(a.writeSet, c) {
        assert fgm[c] == fm[c];
      } else if InArea(b.writeSet, c) {
        assert gfm[c] == gm[c];
      }
    }
  }

  /** A captured launch together with its inferred read and write sets. */
  datatype Step = Step(launch: Launch, readSet: set<Owner>, writeSet: set<Owner>)

  ghost predicate Confined(s: Step) {
    StaysInside(s.launch, s.readSet, s.writeSet)
  }

  ghost predicate HazardFree(a: Step, b: Step) {
    Disjoint(a.writeSet, b.readSet) && Disjoint(a.writeSet, b.writeSet) && Disjoint(a.readSet, b.writeSet)
  }

  ghost predicate InRange(order: seq<nat>, n: nat) {
    forall i :: 0 <= i < |order| ==> order[i] < n
  }

  /** Running the steps with the given indices one after another. */
  ghost function Run(steps: seq<Step>, order: seq<nat>, m: Memory): Memory
    requires InRange(order, |steps|)
  {
    if order == [] then m
    else steps[order[|order| - 1]].launch(Run(steps, order[..|order| - 1], m))
  }

  ghost function Upto(n: nat): seq<nat> {
    if n == 0 then [] else Upto(n - 1) + [n - 1]
  }

  lemma {:induction false} UptoIs(n: nat)
    ensures |Upto(n)| == n && forall i :: 0 <= i < n ==> Upto(n)[i] == i
  {
    if n > 0 {
      UptoIs(n - 1);
    }
  }

  /** Every index below n exactly once. */
  ghost predicate Permutation(order: seq<nat>, n: nat) {
    && InRange(order, n)
    && (forall i, j :: 0 <= i < j < |order| ==> order[i] != order[j])
    && (forall x: nat :: x < n ==> x in order)
  }

  type Edges = set<(nat, nat)>

  /** The order runs the source of every edge before its target. */
  ghost predicate LinearExtension(order: seq<nat>, edges: Edges) {
    forall i, j :: 0 <= i < j < |order| ==> (order[j], order[i]) !in edges
  }

  /** Every conflicting pair of steps has an edge, in program order. */
  ghost predicate CoversHazards(steps: seq<Step>, edges: Edges) {
    forall a, b :: 0 <= a < b < |steps| && (a, b) !in edges ==> HazardFree(steps[a], steps[b])
  }

  ghost predicate AllConfined(steps: seq<Step>) {
    forall i :: 0 <= i < |steps| ==> Confined(steps[i])
  }

  /** A step that conflicts with nothing after it can be run last. */
  lemma {:induction false} MoveToEnd(steps: seq<Step>, before: seq<nat>, x: nat, after: seq<nat>, m: Memory)
    requires AllConfined(steps) && x < |steps|
    requires InRange(before, |steps|) && InRange(after, |steps|)
    requires forall i :: 0 <= i < |after| ==> HazardFree(steps[after[i]], steps[x])
    ensures Run(steps, before + [x] + after, m) == Run(steps, before + after + [x], m)
  {
    hide Run, Confined, HazardFree;
    if after == [] {
      assert before + [x] + after == before + after + [x];
    } else {
      var last, rest := after[|after| - 1], after[..|after| - 1];
      assert after == rest + [last];
      MoveToEnd(steps, before, x, rest, m);
      assert before + [x] + after == (before + [x] + rest) + [last];
      RunLast(steps, before + [x] + rest, last, m);
      RunLast(steps, before + rest, x, m);
      assert before + after == (before + rest) + [last];
      RunLast(steps, before + rest, last, m);
      RunLast(steps, before + after, x, m);
      Commute(steps[last], steps[x], Run(steps, before + rest, m));
    }
  }

  lemma WithoutLast(order: seq<nat>, n: nat, p: nat)
    requires n > 0 && Permutation(order, n) && p < |order| && order[p] == n - 1
    ensures Permutation(order[..p] + order[p + 1..], n - 1)
  {
    var rest := order[..p] + order[p + 1..];
    forall x: nat | x < n - 1
      ensures x in rest {
      assert x in order;
      var k :| 0 <= k < |order| && order[k] == x;
      assert rest[if k < p then k else k - 1] == x;
    }
  }

  lemma ExtensionWithoutLast(order: seq<nat>, edges: Edges, p: nat)
    requires LinearExtension(order, edges) && p < |order|
    ensures LinearExtension(order[..p] + order[p + 1..], edges)
  {
    var rest := order[..p] + order[p + 1..];
    forall i, j | 0 <= i < j < |rest|
      ensures (rest[j], rest[i]) !in edges {
      var i', j' := if i < p then i else i + 1, if j < p then j else j + 1;
      assert rest[i] == order[i'] && rest[j] == order[j'];
    }
  }

  lemma NothingAfterConflicts(steps: seq<Step>, edges: Edges, order: seq<nat>, n: nat, p: nat)
    requires CoversHazards(steps, edges) && 0 < n <= |steps|
    requires Permutation(order, n) && LinearExtension(order, edges) && p < |order| && order[p] == n - 1
    ensures forall i :: p < i < |order| ==> HazardFree(steps[order[i]], steps[n - 1])
  {
    forall i | p < i < |order|
      ensures HazardFree(steps[order[i]], steps[n - 1]) {
      assert order[p] != order[i] && (order[i], order[p]) !in edges;
    }
  }

  /** The last step of program order can wait until everything else has run. */
  lemma LastCanWait(steps: seq<Step>, edges: Edges, n: nat, order: seq<nat>, m: Memory) returns (rest: seq<nat>)
    requires AllConfined(steps) && CoversHazards(steps, edges) && 0 < n <= |steps|
    requires Permutation(order, n) && LinearExtension(order, edges)
    ensures Permutation(rest, n - 1) && LinearExtension(rest, edges)
    ensures Run(steps, order, m) == steps[n - 1].launch(Run(steps, rest, m))
  {
    hide Run, Confined, HazardFree, CoversHazards;
    assert n - 1 in order;
    var p :| 0 <= p < |order| && order[p] == n - 1;
    rest := order[..p] + order[p + 1..];
    assert order == order[..p] + [n - 1] + order[p + 1..];
    NothingAfterConflicts(steps, edges, order, n, p);
    MoveToEnd(steps, order[..p], n - 1, order[p + 1..], m);
    WithoutLast(order, n, p);
    ExtensionWithoutLast(order, edges, p);
    RunLast(steps, rest, n - 1, m);
  }

  /** Any linear extension of the hazard edges computes what program order computes. */
  lemma {:induction false} ReorderingIsSound(steps: seq<Step>, edges: Edges, n: nat, order: seq<nat>, m: Memory)
    requires AllConfined(steps) && CoversHazards(steps, edges) && n <= |steps|
    requires Permutation(order, n) && LinearExtension(order, edges)
    ensures InRange(Upto(n), |steps|)
    ensures Run(steps, order, m) == Run(steps, Upto(n), m)
  {
    UptoIs(n);
    if n == 0 {
      EmptyRange(order);
      EmptyRange(Upto(0));
    } else {
      var rest := LastCanWait(steps, edges, n, order, m);
      ReorderingIsSound(steps, edges, n - 1, rest, m);
      RunLast(steps, Upto(n - 1), n - 1, m);
    }
  }

  lemma EmptyRange(order: seq<nat>)
    requires InRange(order, 0)
    ensures order == []
  {
    if order != [] {
      BoundIsPositive(order, 0, 0);
    }
  }

  lemma BoundIsPositive(order: seq<nat>, n: nat, i: nat)
    requires InRange(order, n) && i < |order|
    ensures n > 0
  {
    assert order[i] < n;
  }

  lemma RunLast(steps: seq<Step>, order: seq<nat>, x: nat, m: Memory)
    requires InRange(order, |steps|) && x < |steps|
    ensures InRange(order + [x], |steps|)
    ensures Run(steps, order + [x], m) == steps[x].launch(Run(steps, order, m))
  {
    assert (order + [x])[..|order|] == order;
  }
}
