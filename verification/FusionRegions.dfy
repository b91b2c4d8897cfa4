/** Which chains of nodes of a traced graph are fused. */
module FusionRegions {
  import opened Trace

  /** Values that have to be stored: graph inputs and outputs, those used more or less than once. A value used
      twice by one node is used twice. */
  predicate Escapes(v: Value) {
    v.kind != Intermediate || |v.consumers| > 1 || v.producer < 0 || v.consumers == []
  }

  predicate IsPointwise(op: Op) { op.Elementwise? || op.Cast? }

  // ---- consumers ----------------------------------------------------------

  function Count(inputs: seq<ValueId>, v: ValueId): nat {
    if inputs == [] then 0
    else Count(inputs[..|inputs| - 1], v) + if inputs[|inputs| - 1] == v then 1 else 0
  }

  lemma {:induction false} UsesAreCounted(inputs: seq<ValueId>, v: ValueId, n: NodeId)
    ensures |Uses(inputs, v, n)| == Count(inputs, v)
    ensures forall k :: 0 <= k < |Uses(inputs, v, n)| ==> Uses(inputs, v, n)[k] == n
  {
    if inputs != [] {
      UsesAreCounted(inputs[..|inputs| - 1], v, n);
    }
  }

  lemma {:induction false} CountPositive(inputs: seq<ValueId>, v: ValueId)
    ensures Count(inputs, v) > 0 <==> v in inputs
  {
    if inputs != [] {
      CountPositive(inputs[..|inputs| - 1], v);
      assert inputs == inputs[..|inputs| - 1] + [inputs[|inputs| - 1]];
    }
  }

  /** How often a node is among a value's consumers. */
  lemma {:induction false} ConsumersAreCounted(nodes: seq<Node>, v: ValueId)
    ensures forall k :: 0 <= k < |Consumers(nodes, v)| ==>
              Consumers(nodes, v)[k] < |nodes| && v in nodes[Consumers(nodes, v)[k]].inputs
    ensures forall n :: 0 <= n < |nodes| ==> Count(nodes[n].inputs, v) <= |Consumers(nodes, v)|
    ensures forall n :: 0 <= n < |nodes| && v in nodes[n].inputs ==> n in Consumers(nodes, v)
  {
    if nodes != [] {
      var before, last := nodes[..|nodes| - 1], |nodes| - 1;
      ConsumersAreCounted(before, v);
      UsesAreCounted(nodes[last].inputs, v, last);
      CountPositive(nodes[last].inputs, v);
      var a, b := Consumers(before, v), Uses(nodes[last].inputs, v, last);
      forall n | 0 <= n < |nodes| && v in nodes[n].inputs ensures n in a + b {
        if n < last {
          assert nodes[n] == before[n];
        } else {
          assert b[0] == n;
        }
      }
      forall n | 0 <= n < |nodes| ensures Count(nodes[n].inputs, v) <= |a + b| {
        assert n < last ==> nodes[n] == before[n];
      }
    }
  }

  /** The only consumer uses the value once, and no other node uses it at all. */
  lemma SingleUse(nodes: seq<Node>, v: ValueId, n: NodeId)
    requires Consumers(nodes, v) == [n]
    ensures n < |nodes| && Count(nodes[n].inputs, v) == 1
    ensures forall m :: 0 <= m < |nodes| && v in nodes[m].inputs ==> m == n
  {
    ConsumersAreCounted(nodes, v);
    assert Consumers(nodes, v)[0] == n;
    CountPositive(nodes[n].inputs, v);
  }

  // ---- growing one region -------------------------------------------------

  /** Node b is where a's output goes, and the only place. */
  ghost predicate Linked(g: Graph, a: NodeId, b: NodeId) {
    && a < |g.nodes| && g.nodes[a].output < |g.values|
    && var out := g.values[g.nodes[a].output]; !Escapes(out) && out.consumers == [b]
  }

  ghost predicate Chain(g: Graph, region: seq<NodeId>) {
    && (forall k :: 0 <= k < |region| ==> region[k] < |g.nodes|)
    && (forall k :: 0 <= k < |region| - 1 ==> Linked(g, region[k], region[k + 1]))
  }

  function MatMuls(g: Graph, region: seq<NodeId>): nat
    requires forall k :: 0 <= k < |region| ==> region[k] < |g.nodes|
  {
    if region == [] then 0
    else MatMuls(g, region[..|region| - 1]) + if g.nodes[region[|region| - 1]].op.MatMul? then 1 else 0
  }

  lemma OutputInRange(g: Graph, n: NodeId)
    requires Finished(g) && n < |g.nodes|
    ensures g.nodes[n].output < |g.values|
  {
  }

  lemma NextIsLater(g: Graph, a: NodeId, b: NodeId)
    requires Finished(g) && a < |g.nodes| && Linked(g, a, b)
    ensures a < b < |g.nodes| && g.nodes[a].output in g.nodes[b].inputs
  {
    var v := g.nodes[a].output;
    SingleUse(g.nodes, v, b);
    CountPositive(g.nodes[b].inputs, v);
    OutputProducer(g.nodes, |g.values|, a);
    var i :| 0 <= i < |g.nodes[b].inputs| && g.nodes[b].inputs[i] == v;
    assert Producer(g.nodes, g.nodes[b].inputs[i]) < b;
  }

  predicate CanStart(op: Op) { op.MatMul? || IsPointwise(op) }

  function Limit(g: Graph, start: NodeId): nat
    requires start < |g.nodes|
  {
    if g.nodes[start].op.MatMul? then 2 else 1
  }

  predicate CanFollow(g: Graph, start: NodeId, op: Op)
    requires start < |g.nodes|
  {
    if g.nodes[start].op.MatMul? then IsPointwise(op) || op.Softmax? || op.MatMul? else IsPointwise(op) || op.MatMul?
  }

  /** The region may go on from its last node: the limit on matmuls is not reached, the value is used once, by a node
      that may follow. */
  ghost predicate MayGrow(g: Graph, region: seq<NodeId>, next: NodeId)
    requires region != [] && forall k :: 0 <= k < |region| ==> region[k] < |g.nodes|
  {
    && MatMuls(g, region) < Limit(g, region[0]) && Linked(g, region[|region| - 1], next)
    && next < |g.nodes| && CanFollow(g, region[0], g.nodes[next].op)
  }

  /** The longest chain from `start`: every step may be taken, and none may be added. */
  ghost predicate IsRegion(g: Graph, start: NodeId, region: seq<NodeId>) {
    && region != [] && region[0] == start
    && (forall k :: 0 <= k < |region| ==> region[k] < |g.nodes|)
    && (forall k :: 1 <= k < |region| ==> MayGrow(g, region[..k], region[k]))
    && (forall next :: !MayGrow(g, region, next))
  }

  lemma RegionIsChain(g: Graph, start: NodeId, region: seq<NodeId>)
    requires IsRegion(g, start, region)
    ensures Chain(g, region)
  {
    forall k | 0 <= k < |region| - 1 ensures Linked(g, region[k], region[k + 1]) {
      assert MayGrow(g, region[..k + 1], region[k + 1]);
    }
  }

  /** A matmul that reaches the limit is the last node. */
  lemma LimitEndsRegion(g: Graph, start: NodeId, region: seq<NodeId>)
    requires IsRegion(g, start, region)
    ensures MatMuls(g, region) <= Limit(g, start)
    ensures |region| > 1 && MatMuls(g, region) == Limit(g, start) ==> g.nodes[region[|region| - 1]].op.MatMul?
  {
    var k := |region| - 1;
    if k >= 1 {
      assert MayGrow(g, region[..k], region[k]);
    }
  }

  lemma OneNext(g: Graph, region: seq<NodeId>, a: NodeId, b: NodeId)
    requires region != [] && forall k :: 0 <= k < |region| ==> region[k] < |g.nodes|
    requires MayGrow(g, region, a) && MayGrow(g, region, b)
    ensures a == b
  {
    var out := g.values[g.nodes[region[|region| - 1]].output];
    assert out.consumers == [a] && out.consumers == [b];
    assert [a][0] == [b][0];
  }

  lemma Grew(g: Graph, start: NodeId, region: seq<NodeId>, k: nat)
    requires IsRegion(g, start, region) && 1 <= k < |region|
    ensures (forall j :: 0 <= j < |region| ==> region[j] < |g.nodes|) && MayGrow(g, region[..k], region[k])
  {
  }

  lemma {:induction false} SameStart(g: Graph, start: NodeId, a: seq<NodeId>, b: seq<NodeId>, k: nat)
    requires IsRegion(g, start, a) && IsRegion(g, start, b) && k < |a| && k < |b|
    ensures a[..k + 1] == b[..k + 1]
  {
    hide MayGrow;
    if k > 0 {
      SameStart(g, start, a, b, k - 1);
      Grew(g, start, a, k);
      Grew(g, start, b, k);
      OneNext(g, a[..k], a[k], b[k]);
      assert a[..k + 1] == a[..k] + [a[k]] && b[..k + 1] == b[..k] + [b[k]];
    } else {
      assert a[..1] == [start] && b[..1] == [start];
    }
  }

  lemma RegionNodes(g: Graph, start: NodeId, region: seq<NodeId>)
    requires IsRegion(g, start, region)
    ensures region != [] && forall k :: 0 <= k < |region| ==> region[k] < |g.nodes|
    ensures forall next :: !MayGrow(g, region, next)
  {
  }

  lemma NotShorter(g: Graph, start: NodeId, a: seq<NodeId>, b: seq<NodeId>)
    requires IsRegion(g, start, a) && IsRegion(g, start, b)
    ensures |b| <= |a|
  {
    hide MayGrow, IsRegion;
    RegionNodes(g, start, a);
    RegionNodes(g, start, b);
    if |a| < |b| {
      SameStart(g, start, a, b, |a| - 1);
      assert a == b[..|a|];
      Grew(g, start, b, |a|);
    }
  }

  lemma RegionUnique(g: Graph, start: NodeId, a: seq<NodeId>, b: seq<NodeId>)
    requires IsRegion(g, start, a) && IsRegion(g, start, b)
    ensures a == b
  {
    NotShorter(g, start, a, b);
    NotShorter(g, start, b, a);
    SameStart(g, start, a, b, |a| - 1);
    assert a[..|a|] == a && b[..|b|] == b;
  }

  /** Where a region goes on, or -1: at the limit, at a value that is stored anyway, or before a node of another kind. */
  method NextNode(g: Graph, start: NodeId, region: seq<NodeId>, matmuls: nat) returns (next: int)
    requires forall k :: 0 <= k < |region| ==> region[k] < |g.nodes|
    requires Finished(g) && region != [] && region[0] == start && matmuls == MatMuls(g, region)
    ensures next >= 0 ==> region[|region| - 1] < next && MayGrow(g, region, next)
    ensures next < 0 ==> forall n :: !MayGrow(g, region, n)
  {
    hide Finished, MatMuls;
    var fromMatMul := g.nodes[start].op.MatMul?;
    var current := region[|region| - 1];
    if !fromMatMul && matmuls >= 1 {
      return -1;
    }
    if matmuls >= 2 {
      return -1;
    }
    OutputInRange(g, current);
    var out := g.values[g.nodes[current].output];
    if Escapes(out) || |out.consumers| != 1 {
      return -1;
    }
    next := out.consumers[0];
    assert out.consumers == [next];
    NextIsLater(g, current, next);
    var nextOp := g.nodes[next].op;
    if fromMatMul {
      if !IsPointwise(nextOp) && !nextOp.Softmax? && !nextOp.MatMul? {
        return -1;
      }
    } else if !IsPointwise(nextOp) && !nextOp.MatMul? {
      return -1;
    }
  }

  /** From a matmul or a pointwise node along single uses: a second matmul ends a region that starts with one, the
      first matmul ends one that starts pointwise. */
  method GrowRegion(g: Graph, start: NodeId) returns (region: seq<NodeId>)
    requires Finished(g) && start < |g.nodes| && CanStart(g.nodes[start].op)
    ensures IsRegion(g, start, region)
  {
    hide Finished, MayGrow, MatMuls;
    region := [];
    var current, matmuls := start, 0;
    NoMatMuls(g);
    while true
      invariant current < |g.nodes| && (region == [] ==> current == start)
      invariant g.nodes[current].op.MatMul? || IsPointwise(g.nodes[current].op) || g.nodes[current].op.Softmax?
      invariant forall k :: 0 <= k < |region| ==> region[k] < |g.nodes|
      invariant region != [] ==> region[0] == start && MayGrow(g, region, current)
      invariant forall k :: 1 <= k < |region| ==> MayGrow(g, region[..k], region[k])
      invariant matmuls == MatMuls(g, region)
      decreases |g.nodes| - current
    {
      var op := g.nodes[current].op;
      if op.MatMul? {
        matmuls := matmuls + 1;
      } else if !IsPointwise(op) && !op.Softmax? {
        break;
      }
      Extended(g, region, current);
      region := region + [current];
      var next := NextNode(g, start, region, matmuls);
      if next < 0 {
        break;
      }
      Follows(g, region, next);
      current := next;
    }
  }

  lemma NoMatMuls(g: Graph)
    ensures MatMuls(g, []) == 0
  {
  }

  lemma Follows(g: Graph, region: seq<NodeId>, next: NodeId)
    requires region != [] && forall k :: 0 <= k < |region| ==> region[k] < |g.nodes|
    requires MayGrow(g, region, next)
    ensures next < |g.nodes|
    ensures g.nodes[next].op.MatMul? || IsPointwise(g.nodes[next].op) || g.nodes[next].op.Softmax?
  {
  }

  lemma Extended(g: Graph, region: seq<NodeId>, next: NodeId)
    requires next < |g.nodes| && forall k :: 0 <= k < |region| ==> region[k] < |g.nodes|
    requires forall k :: 1 <= k < |region| ==> MayGrow(g, region[..k], region[k])
    requires region != [] ==> MayGrow(g, region, next)
    ensures var more := region + [next];
            && MatMuls(g, more) == MatMuls(g, region) + (if g.nodes[next].op.MatMul? then 1 else 0)
            && forall k :: 1 <= k < |more| ==> MayGrow(g, more[..k], more[k])
  {
    var more := region + [next];
    assert more[..|region|] == region;
    forall k | 1 <= k < |more| ensures MayGrow(g, more[..k], more[k]) {
      assert k < |region| ==> more[..k] == region[..k];
    }
  }

  /** Softmax only inside two matmuls. */
  predicate Kept(g: Graph, region: seq<NodeId>)
    requires forall k :: 0 <= k < |region| ==> region[k] < |g.nodes|
  {
    HasSoftmax(g, region) ==> MatMuls(g, region) == 2
  }

  /** The candidates among the first n nodes of the topological order: the kept regions, each once. */
  ghost predicate CandidatesOf(g: Graph, n: nat, candidates: seq<seq<NodeId>>)
    requires n <= |g.topo| && forall k :: 0 <= k < |g.topo| ==> g.topo[k] < |g.nodes|
  {
    && (forall i, j :: 0 <= i < j < |candidates| ==> candidates[i] != candidates[j])
    && (forall r :: r in candidates <==> exists k :: 0 <= k < n && CandidateAt(g, g.topo[k], r))
  }

  ghost predicate CandidateAt(g: Graph, start: NodeId, r: seq<NodeId>)
    requires start < |g.nodes|
  {
    CanStart(g.nodes[start].op) && IsRegion(g, start, r) && (forall k :: 0 <= k < |r| ==> r[k] < |g.nodes|) && Kept(g, r)
  }

  /** A region that discovery lists. */
  ghost predicate Candidate(g: Graph, r: seq<NodeId>) {
    exists k :: 0 <= k < |g.topo| && g.topo[k] < |g.nodes| && CandidateAt(g, g.topo[k], r)
  }

  lemma CandidateIsChain(g: Graph, r: seq<NodeId>)
    requires Candidate(g, r)
    ensures r != [] && Chain(g, r)
  {
    var k :| 0 <= k < |g.topo| && g.topo[k] < |g.nodes| && CandidateAt(g, g.topo[k], r);
    RegionIsChain(g, g.topo[k], r);
  }

  method DiscoverCandidates(g: Graph) returns (candidates: seq<seq<NodeId>>)
    requires Finished(g)
    ensures forall k :: 0 <= k < |g.topo| ==> g.topo[k] < |g.nodes|
    ensures CandidatesOf(g, |g.topo|, candidates)
    ensures forall r :: r in candidates <==> Candidate(g, r)
    ensures forall r :: r in candidates <==> Described(g, r)
  {
    hide Finished, IsRegion, Described;
    candidates := [];
    TopoInRange(g);
    for k := 0 to |g.topo|
      invariant CandidatesOf(g, k, candidates)
    {
      var start := g.topo[k];
      ghost var was := candidates;
      if CanStart(g.nodes[start].op) {
        var region := GrowRegion(g, start);
        OnlyRegion(g, start, region);
        if Kept(g, region) && region !in candidates {
          candidates := candidates + [region];
        }
      }
      assert forall r :: r in candidates <==> r in was || CandidateAt(g, start, r);
      OneMoreStart(g, k);
    }
    forall r ensures r in candidates <==> Described(g, r) {
      CandidateIff(g, r);
    }
  }

  lemma OnlyRegion(g: Graph, start: NodeId, region: seq<NodeId>)
    requires IsRegion(g, start, region)
    ensures forall k :: 0 <= k < |region| ==> region[k] < |g.nodes|
    ensures forall r :: IsRegion(g, start, r) ==> r == region
  {
    forall r | IsRegion(g, start, r) ensures r == region {
      RegionUnique(g, start, r, region);
    }
  }

  lemma OneMoreStart(g: Graph, n: nat)
    requires n < |g.topo| && forall k :: 0 <= k < |g.topo| ==> g.topo[k] < |g.nodes|
    ensures forall r :: (exists k :: 0 <= k < n + 1 && CandidateAt(g, g.topo[k], r))
              <==> (exists k :: 0 <= k < n && CandidateAt(g, g.topo[k], r)) || CandidateAt(g, g.topo[n], r)
  {
    hide CandidateAt;
  }

  lemma TopoInRange(g: Graph)
    requires Finished(g)
    ensures forall k :: 0 <= k < |g.topo| ==> g.topo[k] < |g.nodes|
  {
  }

  predicate HasSoftmax(g: Graph, region: seq<NodeId>)
    requires forall k :: 0 <= k < |region| ==> region[k] < |g.nodes|
  {
    exists k :: 0 <= k < |region| && g.nodes[region[k]].op.Softmax?
  }

  // ---- regions hold live nodes only ---------------------------------------

  /** On a path from `from` down to n there is a node that uses n's output. */
  lemma {:induction false} LastStep(nodes: seq<Node>, from: NodeId, n: NodeId) returns (m: NodeId, i: nat)
    requires from < |nodes| && Needs(nodes, from, n) && n != from
    ensures m < |nodes| && Needs(nodes, from, m) && i < |nodes[m].inputs| && Producer(nodes, nodes[m].inputs[i]) == n
    decreases from
  {
    var k :| 0 <= k < |nodes[from].inputs| && NeedsThrough(nodes, from, n, k);
    var p := Producer(nodes, nodes[from].inputs[k]);
    if p == n {
      m, i := from, k;
    } else {
      m, i := LastStep(nodes, p, n);
      assert NeedsThrough(nodes, from, m, k);
    }
  }

  /** If an output depends on a and all of a goes into b, an output depends on b. */
  lemma LinkedIsLive(g: Graph, a: NodeId, b: NodeId)
    requires Finished(g) && a < |g.nodes| && Linked(g, a, b) && Live(g.nodes, g.outputs, a)
    ensures Live(g.nodes, g.outputs, b)
  {
    var i :| 0 <= i < |g.outputs| && LiveThrough(g.nodes, g.outputs[i], a);
    var p := Producer(g.nodes, g.outputs[i]);
    OutputsEscape(g, i);
    if p != a {
      var m, j := LastStep(g.nodes, p, a);
      SingleUse(g.nodes, g.nodes[a].output, b);
      assert g.nodes[m].inputs[j] in g.nodes[m].inputs;
      assert LiveThrough(g.nodes, g.outputs[i], b);
    }
  }

  lemma OutputsEscape(g: Graph, i: nat)
    requires Finished(g) && i < |g.outputs|
    ensures g.outputs[i] < |g.values| && Escapes(g.values[g.outputs[i]])
  {
    assert g.outputs[i] in g.outputs;
  }

  lemma TopoIsLive(g: Graph, n: NodeId)
    requires Finished(g)
    ensures n in g.topo <==> Live(g.nodes, g.outputs, n)
  {
  }

  /** A region that starts with a live node has no node the outputs do not depend on. */
  lemma {:induction false} DeadNodesAreNotFused(g: Graph, region: seq<NodeId>, k: nat)
    requires Finished(g) && k < |region| && Chain(g, region) && region[0] in g.topo
    ensures region[k] in g.topo
  {
    hide Finished;
    if k > 0 {
      DeadNodesAreNotFused(g, region, k - 1);
      assert Linked(g, region[k - 1], region[k - 1 + 1]);
      TopoIsLive(g, region[k - 1]);
      LinkedIsLive(g, region[k - 1], region[k]);
      NextIsLater(g, region[k - 1], region[k]);
      TopoIsLive(g, region[k]);
    }
  }

  // ---- patterns -----------------------------------------------------------

  datatype Pattern = NoPattern | MatMulElementwise | ElementwiseMatMul | MatMulElementwiseMatMul | MatMulSoftmaxMatMul
                   | TileChain

  /** classifyRegion, for regions of matmul, pointwise and softmax nodes. */
  function Classify(g: Graph, region: seq<NodeId>): Pattern
    requires region != [] && forall k :: 0 <= k < |region| ==> region[k] < |g.nodes|
  {
    var mm := MatMuls(g, region);
    if mm == 1 && !HasSoftmax(g, region) then
      if g.nodes[region[0]].op.MatMul? && OthersPointwise(g, region) then MatMulElementwise
      else if g.nodes[region[|region| - 1]].op.MatMul? && OthersPointwise(g, region) then ElementwiseMatMul
      else TileChain
    else if mm == 2 then (if HasSoftmax(g, region) then MatMulSoftmaxMatMul else MatMulElementwiseMatMul)
    else if HasSoftmax(g, region) then NoPattern
    else if mm > 0 then TileChain
    else NoPattern
  }

  predicate OthersPointwise(g: Graph, region: seq<NodeId>)
    requires forall k :: 0 <= k < |region| ==> region[k] < |g.nodes|
  {
    forall k :: 0 <= k < |region| ==> g.nodes[region[k]].op.MatMul? || IsPointwise(g.nodes[region[k]].op)
  }

  lemma {:induction false} FirstCounts(g: Graph, region: seq<NodeId>)
    requires region != [] && (forall k :: 0 <= k < |region| ==> region[k] < |g.nodes|) && g.nodes[region[0]].op.MatMul?
    ensures MatMuls(g, region) >= 1
  {
    if |region| > 1 {
      FirstCounts(g, region[..|region| - 1]);
    } else {
      assert region[..0] == [];
    }
  }

  /** How many matmuls a region has: a second one after a first, or a first one after pointwise nodes, is its last. */
  lemma CountMatMuls(g: Graph, start: NodeId, region: seq<NodeId>)
    requires IsRegion(g, start, region) && CanStart(g.nodes[start].op)
    ensures forall k :: 0 <= k < |region| ==> region[k] < |g.nodes|
    ensures var ends := |region| > 1 && g.nodes[region[|region| - 1]].op.MatMul?;
            MatMuls(g, region) == (if g.nodes[start].op.MatMul? then 1 else 0) + (if ends then 1 else 0)
  {
    var k := |region| - 1;
    var before := region[..k];
    if k >= 1 {
      assert MayGrow(g, before, region[k]);
      if g.nodes[start].op.MatMul? {
        FirstCounts(g, before);
      }
    } else {
      assert before == [];
    }
  }

  lemma NodesOfRegion(g: Graph, start: NodeId, region: seq<NodeId>)
    requires IsRegion(g, start, region) && CanStart(g.nodes[start].op)
    ensures forall k :: 0 <= k < |region| ==>
              && region[k] < |g.nodes|
              && (var op := g.nodes[region[k]].op;
                  op.MatMul? || IsPointwise(op) || (op.Softmax? && g.nodes[start].op.MatMul?))
  {
    forall k | 1 <= k < |region| ensures region[k] < |g.nodes| && CanFollow(g, start, g.nodes[region[k]].op) {
      assert MayGrow(g, region[..k], region[k]);
      assert region[..k][0] == start;
    }
  }

  /** The pattern of every candidate, from its ends and whether it has a softmax; chains of other shapes never arise. */
  lemma PatternIs(g: Graph, region: seq<NodeId>)
    requires Candidate(g, region)
    ensures region != [] && forall k :: 0 <= k < |region| ==> region[k] < |g.nodes|
    ensures var first, last := g.nodes[region[0]].op, g.nodes[region[|region| - 1]].op;
            Classify(g, region) ==
              if first.MatMul? && last.MatMul? && |region| > 1
              then (if HasSoftmax(g, region) then MatMulSoftmaxMatMul else MatMulElementwiseMatMul)
              else if first.MatMul? then MatMulElementwise
              else if last.MatMul? then ElementwiseMatMul
              else NoPattern
  {
    hide MatMuls, IsRegion;
    var k :| 0 <= k < |g.topo| && g.topo[k] < |g.nodes| && CandidateAt(g, g.topo[k], region);
    CountMatMuls(g, g.topo[k], region);
    NodesOfRegion(g, g.topo[k], region);
    StartsAt(g, g.topo[k], region);
  }

  lemma StartsAt(g: Graph, start: NodeId, region: seq<NodeId>)
    requires IsRegion(g, start, region)
    ensures region != [] && region[0] == start
  {
  }

  // ---- which chains are candidates ----------------------------------------

  /** Node a's result is used once, by b, and is no output: stated on the nodes alone. */
  ghost predicate OnlyUse(g: Graph, a: NodeId, b: NodeId) {
    && a < |g.nodes| && b < |g.nodes|
    && var out := g.nodes[a].output;
       && out !in g.outputs && Count(g.nodes[b].inputs, out) == 1
       && forall m :: 0 <= m < |g.nodes| && m != b ==> out !in g.nodes[m].inputs
  }

  lemma {:induction false} NoUsers(nodes: seq<Node>, v: ValueId)
    requires forall m :: 0 <= m < |nodes| ==> v !in nodes[m].inputs
    ensures Consumers(nodes, v) == []
  {
    if nodes != [] {
      NoUsers(nodes[..|nodes| - 1], v);
      NoUse(nodes[|nodes| - 1].inputs, v, |nodes| - 1);
    }
  }

  lemma {:induction false} OneUser(nodes: seq<Node>, v: ValueId, n: NodeId)
    requires n < |nodes| && Count(nodes[n].inputs, v) == 1
    requires forall m :: 0 <= m < |nodes| && m != n ==> v !in nodes[m].inputs
    ensures Consumers(nodes, v) == [n]
  {
    var last := |nodes| - 1;
    if n == last {
      NoUsers(nodes[..last], v);
      UsesAreCounted(nodes[last].inputs, v, last);
      assert Uses(nodes[last].inputs, v, last) == [last];
    } else {
      OneUser(nodes[..last], v, n);
      NoUse(nodes[last].inputs, v, last);
    }
  }

  /** What regions follow is that. */
  lemma LinkedIsOnlyUse(g: Graph, a: NodeId, b: NodeId)
    requires Finished(g)
    ensures Linked(g, a, b) <==> OnlyUse(g, a, b)
  {
    if a < |g.nodes| {
      var out := g.nodes[a].output;
      OutputInRange(g, a);
      OutputProducer(g.nodes, |g.values|, a);
      assert g.values[out].kind == Output <==> out in g.outputs;
      assert g.values[out].producer == a && g.values[out].kind != Input;
      assert g.values[out].consumers == Consumers(g.nodes, out);
      if Linked(g, a, b) {
        SingleUse(g.nodes, out, b);
      }
      if OnlyUse(g, a, b) {
        OneUser(g.nodes, out, b);
      }
    }
  }

  ghost predicate Follow(g: Graph, r: seq<NodeId>) {
    && (forall k :: 0 <= k < |r| ==> r[k] < |g.nodes|)
    && (forall k :: 0 <= k < |r| - 1 ==> OnlyUse(g, r[k], r[k + 1]))
  }

  predicate OpIs(g: Graph, n: NodeId, matmul: bool, softmax: bool)
    requires n < |g.nodes|
  {
    match g.nodes[n].op
    case MatMul(_) => matmul
    case Elementwise(_) => true
    case Cast(_) => true
    case Softmax(_) => softmax
  }

  /** Between the ends of a chain there are pointwise nodes, and softmax if allowed. */
  predicate Between(g: Graph, r: seq<NodeId>, from: nat, to: nat, softmax: bool)
    requires to <= |r| && forall k :: 0 <= k < |r| ==> r[k] < |g.nodes|
  {
    forall k :: from <= k < to ==> OpIs(g, r[k], false, softmax)
  }

  /** Nothing can be added behind the last node: its result is stored, or used by a kind of node that may not follow. */
  ghost predicate EndsHere(g: Graph, r: seq<NodeId>, beforeSoftmax: bool)
    requires r != []
  {
    forall b: NodeId :: OnlyUse(g, r[|r| - 1], b) ==> beforeSoftmax && g.nodes[b].op.Softmax?
  }

  /** The chains discovery has to find, from kinds and uses of nodes alone: two matmuls with pointwise nodes and softmax
      between them; a matmul with the longest run of pointwise nodes behind it; pointwise nodes and the matmul behind
      them; pointwise nodes with none. */
  ghost predicate Described(g: Graph, r: seq<NodeId>) {
    && r != [] && Follow(g, r) && Live(g.nodes, g.outputs, r[0])
    && var n := |r|;
       if g.nodes[r[0]].op.MatMul? then
         if n > 1 && g.nodes[r[n - 1]].op.MatMul? then Between(g, r, 1, n - 1, true)
         else Between(g, r, 1, n, false) && EndsHere(g, r, false)
       else if n > 1 && g.nodes[r[n - 1]].op.MatMul? then Between(g, r, 0, n - 1, false)
       else Between(g, r, 0, n, false) && EndsHere(g, r, true)
  }

  lemma {:induction false} MatMulsAre(g: Graph, r: seq<NodeId>)
    requires r != [] && forall k :: 0 <= k < |r| ==> r[k] < |g.nodes|
    requires Between(g, r, 1, |r|, true)
    ensures MatMuls(g, r) == if g.nodes[r[0]].op.MatMul? then 1 else 0
  {
    if |r| > 1 {
      MatMulsAre(g, r[..|r| - 1]);
    } else {
      assert r[..0] == [];
    }
  }

  lemma MatMulsWithLast(g: Graph, r: seq<NodeId>)
    requires |r| > 1 && forall k :: 0 <= k < |r| ==> r[k] < |g.nodes|
    requires Between(g, r, 1, |r| - 1, true)
    ensures MatMuls(g, r) == (if g.nodes[r[0]].op.MatMul? then 1 else 0) + (if g.nodes[r[|r| - 1]].op.MatMul? then 1 else 0)
  {
    MatMulsAre(g, r[..|r| - 1]);
  }

  lemma DescribedGrows(g: Graph, r: seq<NodeId>, k: nat)
    requires Finished(g) && Described(g, r) && 1 <= k < |r|
    ensures MayGrow(g, r[..k], r[k])
  {
    hide Linked, OnlyUse, Finished, Live, EndsHere;
    var before := r[..k];
    MatMulsAre(g, before);
    assert OnlyUse(g, r[k - 1], r[k - 1 + 1]);
    LinkedIsOnlyUse(g, r[k - 1], r[k]);
    assert before[|before| - 1] == r[k - 1] && before[0] == r[0];
    assert k < |r| - 1 ==> OpIs(g, r[k], false, true);
  }

  lemma DescribedEnds(g: Graph, r: seq<NodeId>, next: NodeId)
    requires Finished(g) && Described(g, r)
    ensures !MayGrow(g, r, next)
  {
    hide Linked, OnlyUse, Finished, Live;
    LinkedIsOnlyUse(g, r[|r| - 1], next);
    if |r| > 1 {
      MatMulsWithLast(g, r);
    } else {
      MatMulsAre(g, r);
    }
  }

  lemma DescribedIsRegion(g: Graph, r: seq<NodeId>)
    requires Finished(g) && Described(g, r)
    ensures IsRegion(g, r[0], r) && CandidateAt(g, r[0], r)
  {
    hide Finished, MayGrow, OnlyUse, Live, EndsHere;
    forall k | 1 <= k < |r| ensures MayGrow(g, r[..k], r[k]) {
      DescribedGrows(g, r, k);
    }
    forall next ensures !MayGrow(g, r, next) {
      DescribedEnds(g, r, next);
    }
    if |r| > 1 {
      MatMulsWithLast(g, r);
    } else {
      MatMulsAre(g, r);
    }
    if |r| == 1 || !g.nodes[r[0]].op.MatMul? || !g.nodes[r[|r| - 1]].op.MatMul? {
      forall k | 0 <= k < |r| ensures OpIs(g, r[k], true, false) {
      }
    }
  }

  /** A node inside a region is no matmul: it would have reached the limit, or been the first. */
  lemma InnerIsNoMatMul(g: Graph, start: NodeId, r: seq<NodeId>, k: nat)
    requires IsRegion(g, start, r) && CanStart(g.nodes[start].op) && 0 < k < |r| - 1
    ensures r[k] < |g.nodes| && !g.nodes[r[k]].op.MatMul?
  {
    assert MayGrow(g, r[..k + 1], r[k + 1]);
    assert r[..k + 1][..k] == r[..k];
    if g.nodes[start].op.MatMul? {
      FirstCounts(g, r[..k]);
    }
  }

  lemma RegionEnds(g: Graph, start: NodeId, r: seq<NodeId>, next: NodeId)
    requires Finished(g) && IsRegion(g, start, r) && CanStart(g.nodes[start].op)
    requires OnlyUse(g, r[|r| - 1], next)
    requires |r| > 1 ==> !g.nodes[r[|r| - 1]].op.MatMul?
    ensures !g.nodes[start].op.MatMul? && g.nodes[next].op.Softmax?
  {
    LinkedIsOnlyUse(g, r[|r| - 1], next);
    hide Linked, OnlyUse, Finished;
    CountMatMuls(g, start, r);
    assert !MayGrow(g, r, next);
  }

  lemma RegionFollows(g: Graph, start: NodeId, r: seq<NodeId>)
    requires Finished(g) && IsRegion(g, start, r)
    ensures Follow(g, r) && r != [] && r[0] == start
  {
    hide Linked, OnlyUse, Finished, MayGrow;
    StartsAt(g, start, r);
    RegionNodes(g, start, r);
    RegionIsChain(g, start, r);
    forall k | 0 <= k < |r| - 1 ensures OnlyUse(g, r[k], r[k + 1]) {
      LinkedIsOnlyUse(g, r[k], r[k + 1]);
    }
  }

  lemma RegionEndsHere(g: Graph, start: NodeId, r: seq<NodeId>)
    requires Finished(g) && IsRegion(g, start, r) && start < |g.nodes| && CanStart(g.nodes[start].op) && r != []
    requires |r| > 1 ==> r[|r| - 1] < |g.nodes| && !g.nodes[r[|r| - 1]].op.MatMul?
    ensures EndsHere(g, r, !g.nodes[start].op.MatMul?)
  {
    hide Finished, MayGrow, IsRegion;
    var last := r[|r| - 1];
    forall b: NodeId | OnlyUse(g, last, b) ensures !g.nodes[start].op.MatMul? && g.nodes[b].op.Softmax? {
      RegionEnds(g, start, r, b);
    }
  }

  lemma RegionKinds(g: Graph, start: NodeId, r: seq<NodeId>)
    requires start < |g.nodes| && CandidateAt(g, start, r)
    ensures forall k :: 0 <= k < |r| ==> r[k] < |g.nodes|
    ensures Between(g, r, 1, |r| - 1, g.nodes[start].op.MatMul?)
    ensures |r| > 1 ==> OpIs(g, r[|r| - 1], true, g.nodes[start].op.MatMul?)
    ensures HasSoftmax(g, r) ==> g.nodes[start].op.MatMul? && |r| > 1 && g.nodes[r[|r| - 1]].op.MatMul?
  {
    hide MayGrow, Linked, IsRegion, MatMuls;
    NodesOfRegion(g, start, r);
    CountMatMuls(g, start, r);
    forall k | 0 < k < |r| - 1 ensures OpIs(g, r[k], false, g.nodes[start].op.MatMul?) {
      InnerIsNoMatMul(g, start, r, k);
    }
  }

  lemma CandidateIsDescribed(g: Graph, r: seq<NodeId>)
    requires Finished(g) && Candidate(g, r)
    ensures Described(g, r)
  {
    var i :| 0 <= i < |g.topo| && g.topo[i] < |g.nodes| && CandidateAt(g, g.topo[i], r);
    var start := g.topo[i];
    assert CanStart(g.nodes[start].op) && IsRegion(g, start, r);
    TopoIsLive(g, start);
    RegionFollows(g, start, r);
    RegionKinds(g, start, r);
    if |r| == 1 || !g.nodes[r[|r| - 1]].op.MatMul? {
      RegionEndsHere(g, start, r);
    }
    hide Finished, Live, EndsHere, IsRegion, Follow, HasSoftmax;
    KindsDescribe(g, r);
  }

  lemma KindsDescribe(g: Graph, r: seq<NodeId>)
    requires r != [] && Follow(g, r) && Live(g.nodes, g.outputs, r[0]) && forall k :: 0 <= k < |r| ==> r[k] < |g.nodes|
    requires var m := g.nodes[r[0]].op.MatMul?;
             && (m || IsPointwise(g.nodes[r[0]].op))
             && Between(g, r, 1, |r| - 1, m) && (|r| > 1 ==> OpIs(g, r[|r| - 1], true, m))
             && (|r| == 1 || !g.nodes[r[|r| - 1]].op.MatMul? ==> EndsHere(g, r, !m))
             && (HasSoftmax(g, r) ==> m && |r| > 1 && g.nodes[r[|r| - 1]].op.MatMul?)
    ensures Described(g, r)
  {
    hide Follow, Live, EndsHere, HasSoftmax;
    NoSoftmax(g, r);
  }

  lemma NoSoftmax(g: Graph, r: seq<NodeId>)
    requires forall k :: 0 <= k < |r| ==> r[k] < |g.nodes|
    ensures !HasSoftmax(g, r) ==> forall k :: 0 <= k < |r| ==> !g.nodes[r[k]].op.Softmax?
  {
  }

  /** Discovery lists exactly those chains. */
  lemma CandidateIff(g: Graph, r: seq<NodeId>)
    requires Finished(g)
    ensures Candidate(g, r) <==> Described(g, r)
  {
    if Candidate(g, r) {
      CandidateIsDescribed(g, r);
    }
    if Described(g, r) {
      DescribedIsRegion(g, r);
      TopoIsLive(g, r[0]);
      var i :| 0 <= i < |g.topo| && g.topo[i] == r[0];
      assert CandidateAt(g, g.topo[i], r);
    }
  }
}
