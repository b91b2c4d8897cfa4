/** Launches captured by a graph context: hazard edges, levels, execution. */
module CapturedGraph {
  import opened Effects
  import opened KernelOperations
  import opened Options
  import opened ReadWriteSets
  import opened Schedule

  // ---- hazards ------------------------------------------------------------

  datatype Identity = DataPointer(ptr: int) | ObjectId(obj: int)

  function IdentityOf(o: Owner): Identity {
    match o case HostOwner(p, _, _) => DataPointer(p) case ObjectOwner(x) => ObjectId(x)
  }

  /** NumPy's bounds test; objects it cannot look into never share. */
  predicate MayShareMemory(a: Owner, b: Owner) {
    a.HostOwner? && b.HostOwner? && a.lo < b.hi && b.lo < a.hi && a.lo < a.hi && b.lo < b.hi
  }

  predicate HasAliasOverlap(lhs: set<Owner>, rhs: set<Owner>) {
    exists a, b :: a in lhs && b in rhs && (IdentityOf(a) == IdentityOf(b) || MayShareMemory(a, b))
  }

  lemma SharedCellIsSeen(a: Owner, b: Owner, c: Cell)
    requires Owns(a, c) && Owns(b, c)
    ensures IdentityOf(a) == IdentityOf(b) || MayShareMemory(a, b)
  {}

  lemma NoOverlapIsDisjoint(lhs: set<Owner>, rhs: set<Owner>)
    requires !HasAliasOverlap(lhs, rhs)
    ensures Disjoint(lhs, rhs)
  {
    forall c
      ensures !(InArea(lhs, c) && InArea(rhs, c)) {
      if InArea(lhs, c) && InArea(rhs, c) {
        var a :| a in lhs && Owns(a, c);
        var b :| b in rhs && Owns(b, c);
        SharedCellIsSeen(a, b, c);
      }
    }
  }

  function HazardsBetween(producer: (set<Owner>, set<Owner>), consumer: (set<Owner>, set<Owner>)): seq<Hazard> {
    (if HasAliasOverlap(producer.1, consumer.0) then [RAW] else [])
    + (if HasAliasOverlap(producer.1, consumer.1) then [WAW] else [])
    + (if HasAliasOverlap(producer.0, consumer.1) then [WAR] else [])
  }

  /** The owner has a cell, its data pointer among them. */
  predicate Proper(o: Owner) { o.HostOwner? ==> o.lo <= o.ptr < o.hi }

  ghost predicate AllProper(owners: set<Owner>) {
    forall o :: o in owners ==> Proper(o)
  }

  ghost predicate Share(a: set<Owner>, b: set<Owner>) {
    exists c :: InArea(a, c) && InArea(b, c)
  }

  /** Owners are flagged exactly when they share a cell, or have one data pointer. */
  lemma OverlapIff(a: set<Owner>, b: set<Owner>)
    ensures HasAliasOverlap(a, b) <==>
              Share(a, b) || exists x, y :: x in a && y in b && x.HostOwner? && y.HostOwner? && x.ptr == y.ptr
  {
    if x, y :| x in a && y in b && (IdentityOf(x) == IdentityOf(y) || MayShareMemory(x, y)) && !(x.HostOwner? && x.ptr == y.ptr) {
      var c := if x.ObjectOwner? then ObjectCell(x.obj, 0) else HostCell(if x.lo < y.lo then y.lo else x.lo);
      assert Owns(x, c) && Owns(y, c);
      assert InArea(a, c) && InArea(b, c);
    }
    if Share(a, b) && !HasAliasOverlap(a, b) {
      NoOverlapIsDisjoint(a, b);
    }
  }

  /** Owners that have cells are flagged exactly when they share one. */
  lemma OverlapIsShared(a: set<Owner>, b: set<Owner>)
    requires AllProper(a) && AllProper(b)
    ensures HasAliasOverlap(a, b) <==> Share(a, b)
  {
    if HasAliasOverlap(a, b) {
      var x, y :| x in a && y in b && (IdentityOf(x) == IdentityOf(y) || MayShareMemory(x, y));
      assert Proper(x) && Proper(y);
      var c := if x.ObjectOwner? then ObjectCell(x.obj, 0) else HostCell(if x.lo < y.lo then y.lo else x.lo);
      assert Owns(x, c) && Owns(y, c);
      assert InArea(a, c) && InArea(b, c);
    } else if Share(a, b) {
      NoOverlapIsDisjoint(a, b);
    }
  }

  /** What is written by one launch and touched by the other is a hazard, named by who comes first; reading together
      is none. */
  lemma HazardsAre(p: (set<Owner>, set<Owner>), q: (set<Owner>, set<Owner>))
    requires AllProper(p.0) && AllProper(p.1) && AllProper(q.0) && AllProper(q.1)
    ensures RAW in HazardsBetween(p, q) <==> Share(p.1, q.0)
    ensures WAW in HazardsBetween(p, q) <==> Share(p.1, q.1)
    ensures WAR in HazardsBetween(p, q) <==> Share(p.0, q.1)
    ensures HazardsBetween(p, q) != [] <==> Share(p.1, q.0) || Share(p.1, q.1) || Share(p.0, q.1)
  {
    OverlapIsShared(p.1, q.0);
    OverlapIsShared(p.1, q.1);
    OverlapIsShared(p.0, q.1);
  }

  ghost predicate ProperNode(n: Node) {
    AllProper(ReadSet(n)) && AllProper(WriteSet(n))
  }

  /** Two launches conflict: one writes a cell the other may touch. */
  ghost predicate Conflict(a: Node, b: Node) {
    exists c :: (InArea(WriteSet(a), c) && InSets(b, c)) || (InSets(a, c) && InArea(WriteSet(b), c))
  }

  /** The report has an edge exactly between launches that conflict on some cell. */
  lemma EdgeIffConflict(nodes: seq<Node>, r: Report, a: nat, b: nat)
    requires Reported(nodes, r) && a < b < |nodes| && ProperNode(nodes[a]) && ProperNode(nodes[b])
    ensures (a, b) in Pairs(r.edges) <==> Conflict(nodes[a], nodes[b])
  {
    HazardsAre(Sets(nodes[a]), Sets(nodes[b]));
  }

  /** A node is reported independent exactly when it conflicts with no other. */
  lemma IndependentIff(nodes: seq<Node>, r: Report, v: nat)
    requires Reported(nodes, r) && v < |nodes| && forall i :: 0 <= i < |nodes| ==> ProperNode(nodes[i])
    ensures v in r.independent <==>
              (forall u :: 0 <= u < |nodes| && u != v ==> !Conflict(nodes[u], nodes[v]) && !Conflict(nodes[v], nodes[u]))
  {
    hide Conflict, ProperNode;
    forall u: nat | u < |nodes| && u != v
      ensures (u, v) in Pairs(r.edges) || (v, u) in Pairs(r.edges) <==> Conflict(nodes[u], nodes[v])
      ensures Conflict(nodes[u], nodes[v]) <==> Conflict(nodes[v], nodes[u]) {
      ConflictBothWays(nodes[u], nodes[v]);
      EdgeIffConflict(nodes, r, if u < v then u else v, if u < v then v else u);
    }
    if !Isolated(Pairs(r.edges), v) {
      var e :| e in Pairs(r.edges) && (e.0 == v || e.1 == v);
      var u := if e.0 == v then e.1 else e.0;
      assert e == (e.0, e.1) && u < |nodes| && u != v;
    }
  }

  lemma ConflictBothWays(a: Node, b: Node)
    ensures Conflict(a, b) <==> Conflict(b, a)
  {
  }

  /** The conflicting pairs, as a set. Only a mention of the hazards of a pair looks into it. */
  lemma ConflictingPairs(metadata: seq<(set<Owner>, set<Owner>)>) returns (c: Edges)
    ensures forall e :: e in c ==> e.0 < e.1 < |metadata|
    ensures forall a, b {:trigger HazardsBetween(metadata[a], metadata[b])} :: 0 <= a < b < |metadata| ==>
              ((a, b) in c <==> HazardsBetween(metadata[a], metadata[b]) != [])
  {
    c := set a: nat, b: nat | a < |metadata| && b < |metadata| && a < b
                              && HazardsBetween(metadata[a], metadata[b]) != [] :: (a, b);
  }

  /** The pairs of c that come before (a, b) in the double loop. */
  ghost function PairsBefore(c: Edges, a: nat, b: nat): Edges {
    set e | e in c && (e.0 < a || (e.0 == a && e.1 < b))
  }

  lemma NextPair(c: Edges, a: nat, b: nat)
    ensures PairsBefore(c, a, b + 1) == PairsBefore(c, a, b) + if (a, b) in c then {(a, b)} else {}
  {
    forall e | e in PairsBefore(c, a, b + 1) && e !in PairsBefore(c, a, b)
      ensures e == (a, b) {}
  }

  lemma PairsAppend(es: seq<Edge>, e: Edge)
    ensures Pairs(es + [e]) == Pairs(es) + {(e.src, e.dst)}
    ensures DistinctPairs(es) && (e.src, e.dst) !in Pairs(es) ==> DistinctPairs(es + [e])
  {
    forall i | 0 <= i < |es| ensures (es[i].src, es[i].dst) in Pairs(es) {}
  }

  ghost function StepOf(n: Node): Step {
    Step(n.launch, ReadSet(n), WriteSet(n))
  }

  ghost function StepsOf(nodes: seq<Node>): seq<Step> {
    seq(|nodes|, i requires 0 <= i < |nodes| => StepOf(nodes[i]))
  }

  datatype Report = Report(nodeCount: nat, edges: seq<Edge>, executionOrder: seq<nat>, levels: seq<seq<nat>>,
                           independent: seq<nat>)

  /** What an analysis of `nodes` reports: edges exactly between conflicting launches in program
      order, an execution order that keeps them, and the level lists. */
  ghost predicate Reported(nodes: seq<Node>, r: Report) {
    && r.nodeCount == |nodes|
    && Forward(Pairs(r.edges), |nodes|) && DistinctPairs(r.edges)
    && (forall a, b :: 0 <= a < b < |nodes| ==>
          ((a, b) in Pairs(r.edges) <==> HazardsBetween(Sets(nodes[a]), Sets(nodes[b])) != []))
    && (forall e :: e in r.edges ==>
          e.src < |nodes| && e.dst < |nodes| && e.hazards == HazardsBetween(Sets(nodes[e.src]), Sets(nodes[e.dst])))
    && Permutation(r.executionOrder, |nodes|)
    && LinearExtension(r.executionOrder, Pairs(r.edges)) && LevelsRise(Pairs(r.edges), r.executionOrder)
    && Stable(Pairs(r.edges), r.executionOrder)
    && LevelLists(Pairs(r.edges), |nodes|, r.levels)
    && (forall v: nat :: v < |nodes| ==> Level(Pairs(r.edges), v) < |r.levels|)
    && (forall v: nat :: v in r.independent <==> v < |nodes| && Isolated(Pairs(r.edges), v))
  }

  ghost predicate Isolated(edges: Edges, v: nat) {
    forall e :: e in edges ==> e.0 != v && e.1 != v
  }

  ghost function Sets(n: Node): (set<Owner>, set<Owner>) {
    (ReadSet(n), WriteSet(n))
  }

  lemma ReportCoversHazards(nodes: seq<Node>, r: Report)
    requires Reported(nodes, r)
    ensures CoversHazards(StepsOf(nodes), Pairs(r.edges))
  {
    forall a, b | 0 <= a < b < |nodes| && (a, b) !in Pairs(r.edges)
      ensures HazardFree(StepsOf(nodes)[a], StepsOf(nodes)[b]) {
      NoOverlapIsDisjoint(Sets(nodes[a]).1, Sets(nodes[b]).0);
      NoOverlapIsDisjoint(Sets(nodes[a]).1, Sets(nodes[b]).1);
      NoOverlapIsDisjoint(Sets(nodes[a]).0, Sets(nodes[b]).1);
    }
  }

  /** Running the launches level by level, each level in any order, computes what program order computes. */
  lemma LevelByLevelIsProgramOrder(nodes: seq<Node>, r: Report, order: seq<nat>, m: Memory)
    requires Reported(nodes, r) && AllConfined(StepsOf(nodes))
    requires Permutation(order, |nodes|) && LevelsRise(Pairs(r.edges), order)
    ensures InRange(Upto(|nodes|), |nodes|)
    ensures Run(StepsOf(nodes), order, m) == Run(StepsOf(nodes), Upto(|nodes|), m)
  {
    ReportCoversHazards(nodes, r);
    LevelOrderExtends(Pairs(r.edges), |nodes|, order);
    ReorderingIsSound(StepsOf(nodes), Pairs(r.edges), |nodes|, order, m);
  }

  /** Launches that do what their operations say, with nothing leaking, are confined. */
  lemma OperationsAreConfined(nodes: seq<Node>)
    requires forall i :: 0 <= i < |nodes| ==> DoesItsOperations(nodes[i]) && !Leaks(nodes[i])
    ensures AllConfined(StepsOf(nodes))
  {
    forall i | 0 <= i < |nodes| ensures Confined(StepOf(nodes[i])) {
      StaysInSets(nodes[i]);
    }
  }

  // ---- launches captured after the analysis -------------------------------

  predicate OwnsNothing(o: Owner) { o.HostOwner? && o.lo >= o.hi }

  /** A launch of this node may change memory: some array it writes has a cell. */
  ghost predicate CanWrite(n: Node) {
    exists o :: o in WriteSet(n) && !OwnsNothing(o)
  }

  /** Nothing captured since the analysis can write. */
  ghost predicate LaterOnlyRead(nodes: seq<Node>, analysed: nat) {
    forall i :: analysed <= i < |nodes| ==> !CanWrite(nodes[i])
  }

  ghost function WithLaunches(nodes: seq<Node>, launches: seq<Launch>): (r: seq<Node>)
    requires |launches| == |nodes|
    ensures |r| == |nodes|
  {
    seq(|nodes|, i requires 0 <= i < |nodes| => nodes[i].(launch := launches[i]))
  }

  /** Running the analysed nodes only leaves the memory of running all of them in program order. */
  ghost predicate SameAsAll(nodes: seq<Node>, analysed: nat, m: Memory)
    requires analysed <= |nodes|
  {
    UptoIs(|nodes|);
    UptoIs(analysed);
    Run(StepsOf(nodes), Upto(analysed), m) == Run(StepsOf(nodes), Upto(|nodes|), m)
  }

  /** For whatever the launches do inside their read and write sets. */
  ghost predicate AlwaysSameAsAll(nodes: seq<Node>, analysed: nat)
    requires analysed <= |nodes|
  {
    forall launches: seq<Launch>, m: Memory {:trigger SameAsAll(WithLaunches(nodes, launches), analysed, m)} ::
      |launches| == |nodes| && AllConfined(StepsOf(WithLaunches(nodes, launches))) ==>
        SameAsAll(WithLaunches(nodes, launches), analysed, m)
  }

  lemma ReadersKeepMemory(n: Node, m: Memory)
    requires Confined(StepOf(n)) && !CanWrite(n)
    ensures n.launch(m) == m
  {
    var w := WriteSet(n);
    assert LeavesOthers(n.launch, m, w);
    forall c | c in m ensures !InArea(w, c) {
      forall o | o in w ensures !Owns(o, c) {
        assert OwnsNothing(o);
      }
    }
  }

  lemma {:induction false} LaterReadersAreSame(nodes: seq<Node>, analysed: nat, n: nat, m: Memory)
    requires analysed <= n <= |nodes| && AllConfined(StepsOf(nodes)) && LaterOnlyRead(nodes, analysed)
    ensures InRange(Upto(analysed), |nodes|) && InRange(Upto(n), |nodes|)
    ensures Run(StepsOf(nodes), Upto(analysed), m) == Run(StepsOf(nodes), Upto(n), m)
  {
    hide Run, Confined, CanWrite;
    UptoIs(n);
    UptoIs(analysed);
    if n > analysed {
      LaterReadersAreSame(nodes, analysed, n - 1, m);
      RunLast(StepsOf(nodes), Upto(n - 1), n - 1, m);
      assert Confined(StepsOf(nodes)[n - 1]);
      ReadersKeepMemory(nodes[n - 1], Run(StepsOf(nodes), Upto(n - 1), m));
    }
  }

  /** A cell of an owner that has one. */
  ghost function CellOf(o: Owner): (c: Cell)
    requires !OwnsNothing(o)
    ensures Owns(o, c)
  {
    match o case HostOwner(_, lo, _) => HostCell(lo) case ObjectOwner(x) => ObjectCell(x, 0)
  }

  /** A launch that does nothing, and one that sets a cell to 1. */
  function Idle(): Launch { (m: Memory) => m }

  function SetCell(c: Cell): Launch {
    (m: Memory) => if c in m then m[c := 1] else m
  }

  lemma IdleConfined(readSet: set<Owner>, writeSet: set<Owner>)
    ensures StaysInside(Idle(), readSet, writeSet)
  {
  }

  lemma SetCellConfined(c: Cell, readSet: set<Owner>, writeSet: set<Owner>)
    requires InArea(writeSet, c)
    ensures StaysInside(SetCell(c), readSet, writeSet)
  {
  }

  ghost function OnlySetting(n: nat, x: nat, c: Cell): (r: seq<Launch>)
    ensures |r| == n && forall i :: 0 <= i < n ==> r[i] == if i == x then SetCell(c) else Idle()
  {
    if n == 0 then [] else OnlySetting(n - 1, x, c) + [if n - 1 == x then SetCell(c) else Idle()]
  }

  /** Only node x does something: the runs that include it have set the cell. */
  lemma {:induction false} OnlyOneSets(nodes: seq<Node>, x: nat, c: Cell, n: nat)
    requires n <= |nodes| && x < |nodes|
    requires forall i :: 0 <= i < |nodes| ==> nodes[i].launch == if i == x then SetCell(c) else Idle()
    ensures InRange(Upto(n), |nodes|)
    ensures Run(StepsOf(nodes), Upto(n), map[c := 0]) == map[c := if x < n then 1 else 0]
  {
    UptoIs(n);
    if n > 0 {
      OnlyOneSets(nodes, x, c, n - 1);
      RunLast(StepsOf(nodes), Upto(n - 1), n - 1, map[c := 0]);
      hide Run;
      assert StepsOf(nodes)[n - 1].launch == nodes[n - 1].launch;
      assert map[c := 0][c := 1] == map[c := 1];
    }
  }

  /** A node captured after the analysis that can write: there are launches, all inside their sets, and a memory for
      which it is missed. */
  lemma LaterWriterIsMissed(nodes: seq<Node>, analysed: nat, x: nat)
    requires analysed <= x < |nodes| && CanWrite(nodes[x])
    ensures !AlwaysSameAsAll(nodes, analysed)
  {
    var o :| o in BoundOwners(nodes[x], WriteNames(nodes[x])) && !OwnsNothing(o);
    var c := CellOf(o);
    var launches := OnlySetting(|nodes|, x, c);
    var ns := WithLaunches(nodes, launches);
    forall i | 0 <= i < |ns| ensures Confined(StepsOf(ns)[i]) {
      assert BoundOwners(ns[i], WriteNames(ns[i])) == BoundOwners(nodes[i], WriteNames(nodes[i])) by {
        SameSets(nodes[i], launches[i]);
      }
      if i == x {
        SetCellConfined(c, StepsOf(ns)[i].readSet, StepsOf(ns)[i].writeSet);
      } else {
        IdleConfined(StepsOf(ns)[i].readSet, StepsOf(ns)[i].writeSet);
      }
    }
    OnlyOneSets(ns, x, c, analysed);
    OnlyOneSets(ns, x, c, |ns|);
    assert map[c := 0][c] != map[c := 1][c];
    assert !SameAsAll(ns, analysed, map[c := 0]);
  }

  lemma SameSets(n: Node, f: Launch)
    ensures Sets(n.(launch := f)) == Sets(n)
  {
    var o := n.(launch := f);
    assert ReadNames(o) == ReadNames(n) by {
      forall s ensures Reads(o, s) == Reads(n, s) {}
    }
    assert WriteNames(o) == WriteNames(n) by {
      forall s ensures Writes(o, s) == Writes(n, s) {}
    }
    assert BoundOwners(o, ReadNames(n)) == ReadSet(n);
    assert BoundOwners(o, WriteNames(n)) == WriteSet(n);
  }

  /** Executing after an analysis of the first `analysed` nodes is executing everything that has been captured,
      whatever the launches do inside their sets, exactly when no node captured since can write. */
  lemma StaleReportIsFineIff(nodes: seq<Node>, analysed: nat)
    requires analysed <= |nodes|
    ensures AlwaysSameAsAll(nodes, analysed) <==> LaterOnlyRead(nodes, analysed)
  {
    if LaterOnlyRead(nodes, analysed) {
      forall launches: seq<Launch>, m: Memory
        | |launches| == |nodes| && AllConfined(StepsOf(WithLaunches(nodes, launches)))
        ensures SameAsAll(WithLaunches(nodes, launches), analysed, m) {
        var ns := WithLaunches(nodes, launches);
        forall i | analysed <= i < |ns| ensures !CanWrite(ns[i]) {
          SameSets(nodes[i], launches[i]);
          assert !CanWrite(nodes[i]);
        }
        LaterReadersAreSame(ns, analysed, |ns|, m);
      }
    } else {
      var x :| analysed <= x < |nodes| && CanWrite(nodes[x]);
      LaterWriterIsMissed(nodes, analysed, x);
    }
  }

  /** For instance: after an analysis of the empty graph, one launch that stores to its only array. */
  lemma StoreAfterAnalysisIsMissed()
    ensures var fields := [("op", Text(Expr("store", {"store"}))), ("tensor", Text(Expr("out", {"out"})))];
            var n := Node(["out"], [Dict(fields)], [Base(ObjectOwner(0))], Idle());
            !AlwaysSameAsAll([n], 0)
  {
    var fields := [("op", Text(Expr("store", {"store"}))), ("tensor", Text(Expr("out", {"out"})))];
    var n := Node(["out"], [Dict(fields)], [Base(ObjectOwner(0))], Idle());
    assert fields[1..][0] == ("tensor", Text(Expr("out", {"out"})));
    assert WritesIn(n.ops[0].fields, "out");
    assert "out" in WriteNames(n);
    assert ObjectOwner(0) in WriteSet(n) by {
      assert IndexOf(n.params, "out") == 0;
      assert OwnerOf(n.arrays[0]) == ObjectOwner(0);
    }
    assert !OwnsNothing(ObjectOwner(0));
    LaterWriterIsMissed([n], 0, 0);
  }

  class FusionGraph {
    var nodes: seq<Node>
    var edges: seq<Edge>
    var report: Option<Report>

    /** The report, if any, is of a prefix of the captured nodes: capturing does not reset it. */
    ghost predicate Valid()
      reads this
    {
      report.Some? ==> report.value.nodeCount <= |nodes| && Reported(nodes[..report.value.nodeCount], report.value)
    }

    constructor ()
      ensures Valid() && nodes == [] && edges == [] && report == None
    {
      nodes, edges, report := [], [], None;
    }

    method AddNode(n: Node) returns (id: nat)
      requires Valid()
      modifies this
      ensures Valid() && nodes == old(nodes) + [n] && id == |old(nodes)|
      ensures edges == old(edges) && report == old(report)
    {
      id := |nodes|;
      nodes := nodes + [n];
      assert report.Some? ==> nodes[..report.value.nodeCount] == old(nodes)[..report.value.nodeCount];
    }

    method FindEdges(metadata: seq<(set<Owner>, set<Owner>)>) returns (es: seq<Edge>)
      ensures Forward(Pairs(es), |metadata|) && DistinctPairs(es)
      ensures forall e :: e in es ==> e.src < e.dst < |metadata| && e.hazards == HazardsBetween(metadata[e.src], metadata[e.dst])
      ensures forall a, b :: 0 <= a < b < |metadata| ==>
                ((a, b) in Pairs(es) <==> HazardsBetween(metadata[a], metadata[b]) != [])
    {
      ghost var conflicts := ConflictingPairs(metadata);
      es := [];
      for a := 0 to |metadata|
        invariant Pairs(es) == PairsBefore(conflicts, a, 0) && DistinctPairs(es)
        invariant forall e :: e in es ==>
                    e.src < e.dst < |metadata| && e.hazards == HazardsBetween(metadata[e.src], metadata[e.dst])
      {
        assert PairsBefore(conflicts, a, 0) == PairsBefore(conflicts, a, a + 1);
        for b := a + 1 to |metadata|
          invariant Pairs(es) == PairsBefore(conflicts, a, b) && DistinctPairs(es)
          invariant forall e :: e in es ==>
                      e.src < e.dst < |metadata| && e.hazards == HazardsBetween(metadata[e.src], metadata[e.dst])
        {
          var hazards := HazardsBetween(metadata[a], metadata[b]);
          NextPair(conflicts, a, b);
          if hazards != [] {
            PairsAppend(es, Edge(a, b, hazards));
            es := es + [Edge(a, b, hazards)];
          }
        }
        assert PairsBefore(conflicts, a, |metadata|) == PairsBefore(conflicts, a + 1, 0);
      }
      assert PairsBefore(conflicts, |metadata|, 0) == conflicts;
    }

    method AnalyzeFusionOpportunities() returns (r: Report)
      modifies this
      ensures Valid() && nodes == old(nodes) && report == Some(r) && edges == r.edges
      ensures Reported(nodes, r)
    {
      var metadata: seq<(set<Owner>, set<Owner>)> := [];
      for i := 0 to |nodes|
        invariant nodes == old(nodes) && |metadata| == i
        invariant forall k :: 0 <= k < i ==> metadata[k] == Sets(nodes[k])
      {
        var readSet, writeSet := InferReadWriteSets(nodes[i]);
        metadata := metadata + [(readSet, writeSet)];
      }
      var es := FindEdges(metadata);
      var order := StableTopologicalOrder(|nodes|, es);
      var levels := ParallelizableLevels(|nodes|, es);
      var independent := IndependentNodes(|nodes|, es);
      r := Report(|nodes|, es, order.value, levels, independent);
      edges := es;
      report := Some(r);
      assert nodes[..|nodes|] == nodes;
    }

    method IndependentNodes(n: nat, es: seq<Edge>) returns (independent: seq<nat>)
      requires Forward(Pairs(es), n)
      ensures forall v: nat :: v in independent <==> v < n && Isolated(Pairs(es), v)
    {
      independent := [];
      for v := 0 to n
        invariant forall w: nat :: w in independent <==> w < v && Isolated(Pairs(es), w)
      {
        var isolated := true;
        for k := 0 to |es|
          invariant isolated <==> forall i :: 0 <= i < k ==> es[i].src != v && es[i].dst != v
        {
          if es[k].src == v || es[k].dst == v {
            isolated := false;
          }
        }
        assert isolated <==> Isolated(Pairs(es), v) by {
          if !isolated {
            var i :| 0 <= i < |es| && (es[i].src == v || es[i].dst == v);
            assert (es[i].src, es[i].dst) in Pairs(es);
          }
        }
        if isolated {
          independent := independent + [v];
        }
      }
    }

    /** Launch the captured nodes in the reported order. If the launches stay inside their sets, as they do when they do
        what their operations say and nothing leaks, the memory ends up as if the analysed launches had run in program
        order; that is the memory of all captured launches if nothing captured since can write. */
    method Execute(m: Memory) returns (m': Memory)
      requires Valid()
      modifies this
      ensures Valid() && nodes == old(nodes) && report.Some?
      ensures old(report).None? ==> report.value.nodeCount == |nodes|
      ensures old(report).Some? ==> report == old(report)
      ensures InRange(Upto(report.value.nodeCount), |nodes|) && InRange(Upto(|nodes|), |nodes|)
      ensures (forall i :: 0 <= i < |nodes| ==> DoesItsOperations(nodes[i]) && !Leaks(nodes[i])) ==> AllConfined(StepsOf(nodes))
      ensures AllConfined(StepsOf(nodes)) ==> m' == Run(StepsOf(nodes), Upto(report.value.nodeCount), m)
      ensures AllConfined(StepsOf(nodes)) && (old(report).None? || LaterOnlyRead(nodes, old(report).value.nodeCount)) ==>
                m' == Run(StepsOf(nodes), Upto(|nodes|), m)
    {
      hide Leaks, DoesItsOperations, Run, Confined;
      if report.None? {
        var _ := AnalyzeFusionOpportunities();
      }
      var r := report.value;
      ghost var steps := StepsOf(nodes);
      m' := m;
      OrderInRange(nodes, r);
      NothingRun(steps, m);
      for k := 0 to |r.executionOrder|
        invariant nodes == old(nodes) && report == Some(r)
        invariant m' == Run(steps, r.executionOrder[..k], m)
      {
        assert r.executionOrder[..k + 1] == r.executionOrder[..k] + [r.executionOrder[k]];
        RunLast(steps, r.executionOrder[..k], r.executionOrder[k], m);
        m' := nodes[r.executionOrder[k]].launch(m');
      }
      assert r.executionOrder[..|r.executionOrder|] == r.executionOrder;
      if forall i :: 0 <= i < |nodes| ==> DoesItsOperations(nodes[i]) && !Leaks(nodes[i]) {
        OperationsAreConfined(nodes);
      }
      if AllConfined(steps) {
        AnalysedRun(nodes, r, m);
        if LaterOnlyRead(nodes, r.nodeCount) {
          LaterReadersAreSame(nodes, r.nodeCount, |nodes|, m);
        }
      }
    }
  }

  lemma NothingRun(steps: seq<Step>, m: Memory)
    ensures Run(steps, [], m) == m
  {
  }

  lemma OrderInRange(nodes: seq<Node>, r: Report)
    requires r.nodeCount <= |nodes| && Reported(nodes[..r.nodeCount], r)
    ensures InRange(r.executionOrder, |nodes|) && InRange(Upto(r.nodeCount), |nodes|) && InRange(Upto(|nodes|), |nodes|)
  {
    UptoIs(r.nodeCount);
    UptoIs(|nodes|);
  }

  /** The reported order runs the analysed nodes as program order would. */
  lemma AnalysedRun(nodes: seq<Node>, r: Report, m: Memory)
    requires r.nodeCount <= |nodes| && Reported(nodes[..r.nodeCount], r) && AllConfined(StepsOf(nodes))
    ensures InRange(r.executionOrder, |nodes|) && InRange(Upto(r.nodeCount), |nodes|) && InRange(Upto(|nodes|), |nodes|)
    ensures Run(StepsOf(nodes), r.executionOrder, m) == Run(StepsOf(nodes), Upto(r.nodeCount), m)
  {
    hide Run, Confined;
    PrefixRuns(nodes, r.nodeCount, r.executionOrder, m);
    LevelByLevelIsProgramOrder(nodes[..r.nodeCount], r, r.executionOrder, m);
    UptoIs(r.nodeCount);
    UptoIs(|nodes|);
    PrefixRuns(nodes, r.nodeCount, Upto(r.nodeCount), m);
  }

  /** Orders of a prefix of the nodes only look at that prefix. */
  lemma {:induction false} PrefixRuns(nodes: seq<Node>, k: nat, order: seq<nat>, m: Memory)
    requires k <= |nodes| && InRange(order, k)
    ensures Run(StepsOf(nodes), order, m) == Run(StepsOf(nodes[..k]), order, m)
    ensures AllConfined(StepsOf(nodes)) ==> AllConfined(StepsOf(nodes[..k]))
  {
    assert forall i :: 0 <= i < k ==> StepsOf(nodes[..k])[i] == StepsOf(nodes)[i];
    if order != [] {
      PrefixRuns(nodes, k, order[..|order| - 1], m);
    }
  }
}
