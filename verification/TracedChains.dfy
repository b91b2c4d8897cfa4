/** Chains of operations recorded by the tracer: every kind of region that discovery knows arises, is found whole and is
    taken by the kernel it is for. */
module TracedChains {
  import opened FusibleRegions
  import opened FusionRegions
  import opened Trace

  /** What node k of a chain works on: the value before it and, for a second operand, input 1. Value 0 starts the chain,
      and node k computes value k + 2. */
  function Operands(op: Op, k: nat): seq<ValueId> {
    var previous := if k == 0 then 0 else k + 1;
    if Arity(op, 2) then [previous, 1] else [previous]
  }

  ghost predicate IsChainOf(g: Graph, ops: seq<Op>, size: nat) {
    && Finished(g) && |g.nodes| == |ops|
    && (forall k :: 0 <= k < |ops| ==> g.nodes[k] == Node(ops[k], Operands(ops[k], k), k + 2))
    && |g.values| == |ops| + 2 && (forall v :: 0 <= v < |g.values| ==> g.values[v].shape == Shape(size, size))
    && (forall v :: v in g.inputs <==> v == 0 || v == 1) && g.outputs == [|ops| + 1]
  }

  /** The first k operations have been recorded. */
  ghost predicate SoFar(values: seq<Value>, nodes: seq<Node>, ops: seq<Op>, k: nat, size: nat) {
    && |nodes| == k <= |ops| && |values| == k + 2
    && (forall i :: 0 <= i < k ==> nodes[i] == Node(ops[i], Operands(ops[i], i), i + 2))
    && (forall v :: 0 <= v < |values| ==> values[v].shape == Shape(size, size) && (values[v].kind == Input <==> v < 2))
  }

  /** Records the operations one after another, each on the result of the one before, and makes the last result the
      output. */
  method TraceChain(ops: seq<Op>, size: nat) returns (g: Graph)
    requires ops != []
    ensures IsChainOf(g, ops, size)
  {
    hide Finished, Consistent, Typed, NoOutputs;
    var b := new FusionTraceBuilder();
    var x := b.AddInput("x", Shape(size, size));
    var w := b.AddInput("w", Shape(size, size));
    for k := 0 to |ops|
      invariant fresh(b) && b.Recording() && SoFar(b.values, b.nodes, ops, k, size)
    {
      RecordNext(b, ops, k, size);
    }
    g := b.Finish([|ops| + 1]);
  }

  method RecordNext(b: FusionTraceBuilder, ops: seq<Op>, k: nat, size: nat)
    requires b.Recording() && k < |ops| && SoFar(b.values, b.nodes, ops, k, size)
    modifies b
    ensures b.Recording() && SoFar(b.values, b.nodes, ops, k + 1, size)
  {
    hide Consistent, Typed, NoOutputs;
    var v := b.AddOperation("t", ops[k], Operands(ops[k], k));
  }

  /** Each node works on the result of the one before. */
  ghost predicate Linear(nodes: seq<Node>) {
    forall k :: 0 < k < |nodes| ==> |nodes[k].inputs| > 0 && Producer(nodes, nodes[k].inputs[0]) == k - 1
  }

  lemma ComputesNext(g: Graph, ops: seq<Op>, size: nat, k: nat)
    requires IsChainOf(g, ops, size) && k < |ops|
    ensures |g.nodes| == |ops| && Producer(g.nodes, k + 2) == k
    ensures k + 1 < |ops| ==> |g.nodes[k + 1].inputs| > 0 && g.nodes[k + 1].inputs[0] == k + 2
    ensures k + 1 == |ops| ==> g.outputs == [k + 2]
  {
    hide Typed, Live, ProducersFirst, Producer, Consumers;
    OutputProducer(g.nodes, |g.values|, k);
  }

  lemma ChainIsLinear(g: Graph, ops: seq<Op>, size: nat)
    requires IsChainOf(g, ops, size) && ops != []
    ensures |g.nodes| == |ops| && Linear(g.nodes) && |g.outputs| == 1 && Producer(g.nodes, g.outputs[0]) == |ops| - 1
  {
    hide IsChainOf, Producer;
    ComputesNext(g, ops, size, |ops| - 1);
    forall k | 0 < k < |g.nodes| ensures |g.nodes[k].inputs| > 0 && Producer(g.nodes, g.nodes[k].inputs[0]) == k - 1 {
      ComputesNext(g, ops, size, k - 1);
    }
  }

  lemma {:induction false} AllNeeded(nodes: seq<Node>, k: nat)
    requires Linear(nodes) && k < |nodes|
    ensures Needs(nodes, k, 0)
  {
    hide Producer;
    if k > 0 {
      AllNeeded(nodes, k - 1);
      assert NeedsThrough(nodes, k, 0, 0);
    }
  }

  lemma FirstIsLive(g: Graph, ops: seq<Op>, size: nat)
    requires IsChainOf(g, ops, size) && ops != []
    ensures Live(g.nodes, g.outputs, 0)
  {
    hide IsChainOf, Live, Needs, Linear, Producer;
    ChainIsLinear(g, ops, size);
    AllNeeded(g.nodes, |ops| - 1);
    LiveThroughOutput(g, 0);
  }

  lemma LiveThroughOutput(g: Graph, n: NodeId)
    requires |g.outputs| == 1 && Producer(g.nodes, g.outputs[0]) >= 0 && Needs(g.nodes, Producer(g.nodes, g.outputs[0]), n)
    ensures Live(g.nodes, g.outputs, n)
  {
    assert LiveThrough(g.nodes, g.outputs[0], n);
  }

  lemma NextUses(g: Graph, ops: seq<Op>, size: nat, k: nat)
    requires IsChainOf(g, ops, size) && k + 1 < |ops|
    ensures OnlyUse(g, k, k + 1)
  {
    hide Finished;
    var v, inputs := k + 2, g.nodes[k + 1].inputs;
    assert inputs[..1] == [v] && inputs[..1][..0] == [];
    assert Count(inputs[..1], v) == 1;
    assert |inputs| == 2 ==> inputs[..|inputs| - 1] == inputs[..1];
    assert inputs[..|inputs|] == inputs;
  }

  lemma LastIsUsedByNone(g: Graph, ops: seq<Op>, size: nat, last: NodeId)
    requires IsChainOf(g, ops, size) && last == |ops| - 1
    ensures forall b: NodeId :: !OnlyUse(g, last, b)
  {
    hide Finished;
    assert |ops| + 1 in g.outputs;
  }

  // ---- the kinds of chains ------------------------------------------------

  predicate Inner(op: Op, softmax: bool) {
    op.Elementwise? || op.Cast? || (softmax && op.Softmax?)
  }

  predicate AllInner(ops: seq<Op>, softmax: bool) {
    forall k :: 0 <= k < |ops| ==> Inner(ops[k], softmax)
  }

  /** Two matmuls with pointwise operations and softmax between; one matmul with pointwise operations behind or before
      it; pointwise operations only. */
  predicate Discoverable(ops: seq<Op>) {
    && ops != []
    && var n := |ops|;
       if ops[0].MatMul? && ops[n - 1].MatMul? && n > 1 then AllInner(ops[1..n - 1], true)
       else if ops[0].MatMul? then AllInner(ops[1..], false)
       else if ops[n - 1].MatMul? then AllInner(ops[..n - 1], false)
       else AllInner(ops, false)
  }

  /** Such a chain is found whole, and no other chain is. */
  lemma WholeChainIff(g: Graph, ops: seq<Op>, size: nat)
    requires IsChainOf(g, ops, size) && ops != []
    ensures Candidate(g, Recorded(|ops|)) <==> Discoverable(ops)
  {
    var r := Recorded(|ops|);
    ChainFollows(g, ops, size);
    CandidateIff(g, r);
    ShapedIff(g, ops, r);
    hide Finished, Live, Follow, EndsHere, Candidate, IsChainOf, Discoverable;
  }

  lemma ShapedIff(g: Graph, ops: seq<Op>, r: seq<NodeId>)
    requires r != [] && |r| == |ops| == |g.nodes| && forall k :: 0 <= k < |r| ==> r[k] == k && g.nodes[k].op == ops[k]
    requires Follow(g, r) && Live(g.nodes, g.outputs, r[0]) && EndsHere(g, r, false) && EndsHere(g, r, true)
    ensures Described(g, r) <==> Discoverable(ops)
  {
    hide Live, Follow, EndsHere, Between, AllInner;
    var n := |ops|;
    SliceInner(g, ops, r, 0, n, false);
    SliceInner(g, ops, r, 1, n, false);
    SliceInner(g, ops, r, 0, n - 1, false);
    if n > 1 {
      SliceInner(g, ops, r, 1, n - 1, true);
    }
  }

  lemma ChainFollows(g: Graph, ops: seq<Op>, size: nat)
    requires IsChainOf(g, ops, size) && ops != []
    ensures var r := Recorded(|ops|);
            Follow(g, r) && Live(g.nodes, g.outputs, r[0]) && EndsHere(g, r, false) && EndsHere(g, r, true)
    ensures |g.nodes| == |ops| && forall k :: 0 <= k < |ops| ==> g.nodes[k].op == ops[k]
    ensures Finished(g)
  {
    var r, n := Recorded(|ops|), |ops|;
    hide Finished, OnlyUse, Live, EndsHere;
    FirstIsLive(g, ops, size);
    ChainEnds(g, ops, size, r);
    ChainLinks(g, ops, size, r);
  }

  lemma ChainLinks(g: Graph, ops: seq<Op>, size: nat, r: seq<NodeId>)
    requires IsChainOf(g, ops, size) && |r| == |ops| && forall k :: 0 <= k < |r| ==> r[k] == k
    ensures Follow(g, r)
  {
    hide Finished, OnlyUse;
    forall k | 0 <= k < |r| - 1 ensures OnlyUse(g, r[k], r[k + 1]) {
      NextUses(g, ops, size, k);
    }
  }

  lemma ChainEnds(g: Graph, ops: seq<Op>, size: nat, r: seq<NodeId>)
    requires IsChainOf(g, ops, size) && r != [] && r[|r| - 1] == |ops| - 1
    ensures EndsHere(g, r, false) && EndsHere(g, r, true)
  {
    hide Finished, OnlyUse;
    LastIsUsedByNone(g, ops, size, r[|r| - 1]);
  }

  lemma SliceInner(g: Graph, ops: seq<Op>, r: seq<NodeId>, from: nat, to: nat, softmax: bool)
    requires from <= to <= |ops| == |r| == |g.nodes| && forall k :: 0 <= k < |ops| ==> r[k] == k && g.nodes[k].op == ops[k]
    ensures AllInner(ops[from..to], softmax) <==> Between(g, r, from, to, softmax)
    ensures ops[0..|ops|] == ops && ops[from..|ops|] == ops[from..] && ops[0..to] == ops[..to]
  {
    if Between(g, r, from, to, softmax) {
      forall k | 0 <= k < to - from ensures Inner(ops[from..to][k], softmax) {
        assert OpIs(g, r[from + k], false, softmax);
      }
    }
    if AllInner(ops[from..to], softmax) {
      forall k | from <= k < to ensures OpIs(g, r[k], false, softmax) {
        assert Inner(ops[from..to][k - from], softmax);
      }
    }
  }

  // ---- the kernels that take them -----------------------------------------

  predicate AllElementwise(ops: seq<Op>) {
    forall k :: 0 <= k < |ops| ==> ops[k].Elementwise?
  }

  lemma ChainGlue(g: Graph, ops: seq<Op>, size: nat, k: nat)
    requires IsChainOf(g, ops, size) && 1 <= k < |ops| && ops[k].Elementwise?
    ensures Glue(g, k - 1, k, Shape(size, size))
  {
    hide Finished;
  }

  lemma AllChainGlue(g: Graph, ops: seq<Op>, size: nat, to: nat)
    requires IsChainOf(g, ops, size) && 1 <= to <= |ops| && AllElementwise(ops[1..to])
    ensures AllGlue(g, Recorded(|ops|), to, Shape(size, size))
  {
    var r := Recorded(|ops|);
    forall k | 1 <= k < to ensures Glue(g, r[k - 1], r[k], Shape(size, size)) {
      hide Glue, Finished;
      assert ops[1..to][k - 1] == ops[k];
      ChainGlue(g, ops, size, k);
    }
  }

  lemma FirstOfInputs(g: Graph, ops: seq<Op>, size: nat)
    requires IsChainOf(g, ops, size) && ops != [] && ops[0].MatMul?
    ensures OfInputs(g, 0) && ProductShape(g, 0) == Shape(size, size) && g.nodes[0].op == ops[0]
  {
    hide Finished;
  }

  lemma LastOfInput(g: Graph, ops: seq<Op>, size: nat)
    requires IsChainOf(g, ops, size) && |ops| > 1 && ops[0].MatMul? && ops[|ops| - 1].MatMul?
    ensures IsMatMul(g, 0) && SecondMatMul(g, 0, |ops| - 2, |ops| - 1)
  {
    hide Finished;
    FirstOfInputs(g, ops, size);
  }

  /** A matmul and elementwise operations behind it are what Family A is for. */
  lemma TakenByA(g: Graph, ops: seq<Op>, size: nat)
    requires IsChainOf(g, ops, size) && ops != [] && ops[0] == MatMul(false) && AllElementwise(ops[1..])
    ensures Candidate(g, Recorded(|ops|)) && WithEpilogue(g, Recorded(|ops|))
  {
    hide IsChainOf, AllGlue, OfInputs, ProductShape, Candidate, AllElementwise, AllInner, IsMatMul, Declared;
    ElementwiseIsInner(ops[1..]);
    ElementwiseEnds(ops);
    WholeChainIff(g, ops, size);
    FirstOfInputs(g, ops, size);
    assert ops[1..|ops|] == ops[1..];
    AllChainGlue(g, ops, size, |ops|);
  }

  lemma ElementwiseIsInner(ops: seq<Op>)
    requires AllElementwise(ops)
    ensures AllInner(ops, false) && AllInner(ops, true)
  {
  }

  lemma ElementwiseEnds(ops: seq<Op>)
    requires ops != [] && AllElementwise(ops[1..])
    ensures |ops| > 1 ==> !ops[|ops| - 1].MatMul?
  {
    if |ops| > 1 {
      assert ops[1..][|ops| - 2] == ops[|ops| - 1];
    }
  }

  /** With a second matmul at the end, Family B. */
  lemma TakenByB(g: Graph, ops: seq<Op>, size: nat)
    requires IsChainOf(g, ops, size) && |ops| > 1 && ops[0].MatMul? && ops[|ops| - 1].MatMul?
    requires AllElementwise(ops[1..|ops| - 1])
    ensures Candidate(g, Recorded(|ops|)) && WithGlue(g, Recorded(|ops|))
  {
    hide IsChainOf, AllGlue, OfInputs, ProductShape, SecondMatMul, Candidate, AllElementwise, AllInner;
    ElementwiseIsInner(ops[1..|ops| - 1]);
    WholeChainIff(g, ops, size);
    FirstOfInputs(g, ops, size);
    LastOfInput(g, ops, size);
    AllChainGlue(g, ops, size, |ops| - 1);
  }

  /** And with softmax between, Family C. */
  lemma TakenByC(g: Graph, ops: seq<Op>, size: nat)
    requires IsChainOf(g, ops, size) && |ops| == 3 && ops[0].MatMul? && ops[2].MatMul?
    requires ops[1] == Softmax(-1) || ops[1] == Softmax(1)
    ensures Candidate(g, Recorded(3)) && WithSoftmax(g, Recorded(3))
  {
    WholeChainIff(g, ops, size);
    FirstOfInputs(g, ops, size);
    LastOfInput(g, ops, size);
    hide Finished, OfInputs, SecondMatMul, Candidate;
  }

  ghost predicate IsPattern(g: Graph, n: nat, p: Pattern) {
    && Finished(g) && n > 0 && |g.nodes| == n && Candidate(g, Recorded(n)) && Classify(g, Recorded(n)) == p
  }

  lemma PatternOf(g: Graph, ops: seq<Op>, size: nat)
    requires IsChainOf(g, ops, size) && Discoverable(ops)
    ensures IsPattern(g, |ops|,
              if ops[0].MatMul? && ops[|ops| - 1].MatMul? && |ops| > 1 then
                if exists k :: 0 <= k < |ops| && ops[k].Softmax? then MatMulSoftmaxMatMul else MatMulElementwiseMatMul
              else if ops[0].MatMul? then MatMulElementwise
              else if ops[|ops| - 1].MatMul? then ElementwiseMatMul
              else NoPattern)
  {
    hide Finished, Candidate, Classify;
    var r := Recorded(|ops|);
    assert ops != [];
    WholeChainIff(g, ops, size);
    PatternIs(g, r);
    if HasSoftmax(g, r) {
      var k :| 0 <= k < |r| && g.nodes[r[k]].op.Softmax?;
      assert ops[k].Softmax?;
    }
    if k :| 0 <= k < |ops| && ops[k].Softmax? {
      assert g.nodes[r[k]].op.Softmax?;
    }
  }

  /** Every pattern discovery tells apart is that of some traced candidate. */
  method TraceEveryPattern(size: nat) returns (a: Graph, b: Graph, c: Graph, d: Graph)
    ensures IsPattern(a, 2, MatMulElementwise) && IsPattern(b, 2, ElementwiseMatMul)
    ensures IsPattern(c, 3, MatMulElementwiseMatMul) && IsPattern(d, 3, MatMulSoftmaxMatMul)
  {
    hide IsPattern, IsChainOf;
    var relu, matmul, softmax := Elementwise(Relu), MatMul(false), Softmax(-1);
    a := TraceChain([matmul, relu], size);
    PatternOf(a, [matmul, relu], size);
    b := TraceChain([relu, matmul], size);
    PatternOf(b, [relu, matmul], size);
    c := TraceChain([matmul, relu, matmul], size);
    PatternOf(c, [matmul, relu, matmul], size);
    d := TraceChain([matmul, softmax, matmul], size);
    assert [matmul, softmax, matmul][1].Softmax?;
    PatternOf(d, [matmul, softmax, matmul], size);
  }
}
