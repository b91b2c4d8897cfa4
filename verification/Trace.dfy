/** Recording operations into a graph and cutting out the part its outputs depend on. */
module Trace {
  type ValueId = nat
  type NodeId = nat

  /** The elementwise operations of the tracer; the last six take two operands. */
  datatype ElementKind =
    | Exp | Log | Sqrt | Tanh | Sigmoid | Gelu | Relu | Negate | Abs | Sin | Cos | Rsqrt
    | Sum | Difference | Product | Quotient | Minimum | Maximum

  predicate Binary(k: ElementKind) {
    k.Sum? || k.Difference? || k.Product? || k.Quotient? || k.Minimum? || k.Maximum?
  }

  datatype Op = MatMul(transposeRhs: bool) | Elementwise(element: ElementKind) | Cast(to: string) | Softmax(along: int)
  datatype Kind = Input | Intermediate | Output
  datatype Shape = Shape(rows: nat, cols: nat)
  datatype Value = Value(symbol: string, shape: Shape, kind: Kind, producer: int, consumers: seq<NodeId>)
  datatype Node = Node(op: Op, inputs: seq<ValueId>, output: ValueId)

  /** Node n uses a value once for every time the value is among its inputs. */
  function Uses(inputs: seq<ValueId>, v: ValueId, n: NodeId): seq<NodeId> {
    if inputs == [] then [] else Uses(inputs[..|inputs| - 1], v, n) + if inputs[|inputs| - 1] == v then [n] else []
  }

  function Consumers(nodes: seq<Node>, v: ValueId): seq<NodeId> {
    if nodes == [] then []
    else Consumers(nodes[..|nodes| - 1], v) + Uses(nodes[|nodes| - 1].inputs, v, |nodes| - 1)
  }

  /** The node that computes a value, or -1. */
  function Producer(nodes: seq<Node>, v: ValueId): (p: int)
    ensures -1 <= p < |nodes| && (p >= 0 ==> nodes[p].output == v)
    ensures p < 0 ==> forall n :: 0 <= n < |nodes| ==> nodes[n].output != v
  {
    if nodes == [] then -1
    else if nodes[|nodes| - 1].output == v then |nodes| - 1
    else Producer(nodes[..|nodes| - 1], v)
  }

  /** Nodes compute different values, each from values computed before it. */
  ghost predicate Acyclic(nodes: seq<Node>, values: nat) {
    && (forall n :: 0 <= n < |nodes| ==> nodes[n].output < values)
    && (forall m, n :: 0 <= m < n < |nodes| ==> nodes[m].output != nodes[n].output)
    && (forall n, i :: 0 <= n < |nodes| && 0 <= i < |nodes[n].inputs| ==>
          nodes[n].inputs[i] < values && Producer(nodes, nodes[n].inputs[i]) < n)
  }

  // ---- what an output depends on ------------------------------------------

  /** Node n is `from` or one that `from` depends on, through its inputs' producers. */
  ghost predicate Needs(nodes: seq<Node>, from: NodeId, n: NodeId)
    requires from < |nodes|
    decreases from
  {
    n == from || exists i :: 0 <= i < |nodes[from].inputs| && NeedsThrough(nodes, from, n, i)
  }

  ghost predicate NeedsThrough(nodes: seq<Node>, from: NodeId, n: NodeId, i: nat)
    requires from < |nodes| && i < |nodes[from].inputs|
    decreases from, 0
  {
    var p := Producer(nodes, nodes[from].inputs[i]);
    0 <= p < from && Needs(nodes, p, n)
  }

  ghost predicate ThroughFirst(nodes: seq<Node>, from: NodeId, n: NodeId, count: nat)
    requires from < |nodes| && count <= |nodes[from].inputs|
  {
    exists j :: 0 <= j < count && NeedsThrough(nodes, from, n, j)
  }

  /** Every node comes after the producers of its inputs, and no node comes twice. */
  ghost predicate ProducersFirst(nodes: seq<Node>, order: seq<NodeId>) {
    && (forall k :: 0 <= k < |order| ==> order[k] < |nodes|)
    && (forall k, m :: 0 <= k < m < |order| ==> order[k] != order[m])
    && (forall k, i :: 0 <= k < |order| && 0 <= i < |nodes[order[k]].inputs| ==>
          var p := Producer(nodes, nodes[order[k]].inputs[i]);
          p >= 0 ==> p in order[..k])
  }

  lemma {:induction false} NeededAreThere(nodes: seq<Node>, order: seq<NodeId>, from: NodeId, n: NodeId)
    requires from < |nodes| && ProducersFirst(nodes, order) && from in order && Needs(nodes, from, n)
    ensures n in order
    decreases from
  {
    if n != from {
      var i :| 0 <= i < |nodes[from].inputs| && NeedsThrough(nodes, from, n, i);
      var k :| 0 <= k < |order| && order[k] == from;
      var p := Producer(nodes, nodes[order[k]].inputs[i]);
      assert p in order[..k];
      NeededAreThere(nodes, order, p, n);
    }
  }

  lemma AllNeededAreThere(nodes: seq<Node>, order: seq<NodeId>, from: NodeId)
    requires from < |nodes| && ProducersFirst(nodes, order) && from in order
    ensures forall n :: Needs(nodes, from, n) ==> n in order
  {
    forall n | Needs(nodes, from, n) ensures n in order {
      NeededAreThere(nodes, order, from, n);
    }
  }

  lemma NeedsIs(nodes: seq<Node>, from: NodeId)
    requires from < |nodes|
    ensures forall n :: Needs(nodes, from, n) <==> n == from || ThroughFirst(nodes, from, n, |nodes[from].inputs|)
    ensures forall n :: !ThroughFirst(nodes, from, n, 0)
  {
  }

  lemma ThroughIs(nodes: seq<Node>, values: nat, from: NodeId, i: nat)
    requires Acyclic(nodes, values) && from < |nodes| && i < |nodes[from].inputs|
    ensures var p := Producer(nodes, nodes[from].inputs[i]);
            forall n :: NeedsThrough(nodes, from, n, i) <==> p >= 0 && Needs(nodes, p, n)
  {
  }

  lemma OneMoreInput(nodes: seq<Node>, from: NodeId, i: nat)
    requires from < |nodes| && i < |nodes[from].inputs|
    ensures forall n :: ThroughFirst(nodes, from, n, i + 1) <==>
              ThroughFirst(nodes, from, n, i) || NeedsThrough(nodes, from, n, i)
  {
    forall n ensures ThroughFirst(nodes, from, n, i + 1) <==>
                     ThroughFirst(nodes, from, n, i) || NeedsThrough(nodes, from, n, i) {
      hide NeedsThrough;
      if ThroughFirst(nodes, from, n, i) {
        var j :| 0 <= j < i && NeedsThrough(nodes, from, n, j);
      }
    }
  }

  /** Visited but not finished: the nodes the search is inside of. */
  ghost predicate Inside(nodes: seq<Node>, visited: set<NodeId>, topo: seq<NodeId>, below: int) {
    && (forall k :: 0 <= k < |topo| ==> topo[k] in visited)
    && (forall n :: n in visited && n !in topo ==> n >= below)
  }

  /** Depth-first: a node is listed once all producers of its inputs are. */
  method Visit(nodes: seq<Node>, values: nat, nid: NodeId, visited: set<NodeId>, topo: seq<NodeId>)
    returns (visited': set<NodeId>, topo': seq<NodeId>)
    requires Acyclic(nodes, values) && nid < |nodes|
    requires ProducersFirst(nodes, topo) && Inside(nodes, visited, topo, nid + 1)
    ensures ProducersFirst(nodes, topo') && topo <= topo' && nid in topo'
    ensures forall n :: n in topo' <==> n in topo || Needs(nodes, nid, n)
    ensures forall n :: n in visited' <==> n in visited || n in topo'
    decreases nid
  {
    hide Needs, NeedsThrough, ThroughFirst;
    visited', topo' := visited, topo;
    NeedsIs(nodes, nid);
    if nid in visited {
      AllNeededAreThere(nodes, topo, nid);
      return;
    }
    visited' := visited' + {nid};
    var inputs := nodes[nid].inputs;
    for i := 0 to |inputs|
      invariant ProducersFirst(nodes, topo') && topo <= topo'
      invariant forall n :: n in visited' <==> n in visited || n == nid || n in topo'
      invariant forall n :: n in topo' <==> n in topo || ThroughFirst(nodes, nid, n, i)
      invariant forall j :: 0 <= j < i && Producer(nodes, inputs[j]) >= 0 ==> Producer(nodes, inputs[j]) in topo'
    {
      var p := Producer(nodes, inputs[i]);
      ghost var was := topo';
      if p >= 0 {
        visited', topo' := Visit(nodes, values, p, visited', topo');
      }
      ThroughIs(nodes, values, nid, i);
      OneMoreInput(nodes, nid, i);
      assert forall n :: n in topo' <==> n in was || NeedsThrough(nodes, nid, n, i);
    }
    NotYetListed(nodes, topo, topo', nid);
    Listed(nodes, topo', nid);
    topo' := topo' + [nid];
  }

  lemma {:induction false} NeedsSmaller(nodes: seq<Node>, from: NodeId, n: NodeId)
    requires from < |nodes| && Needs(nodes, from, n)
    ensures n <= from
    decreases from
  {
    if n != from {
      var i :| 0 <= i < |nodes[from].inputs| && NeedsThrough(nodes, from, n, i);
      NeedsSmaller(nodes, Producer(nodes, nodes[from].inputs[i]), n);
    }
  }

  lemma NotYetListed(nodes: seq<Node>, topo: seq<NodeId>, topo': seq<NodeId>, nid: NodeId)
    requires nid < |nodes| && nid !in topo
    requires forall n :: n in topo' <==> n in topo || ThroughFirst(nodes, nid, n, |nodes[nid].inputs|)
    ensures nid !in topo'
  {
    forall j | 0 <= j < |nodes[nid].inputs| ensures !NeedsThrough(nodes, nid, nid, j) {
      if NeedsThrough(nodes, nid, nid, j) {
        NeedsSmaller(nodes, Producer(nodes, nodes[nid].inputs[j]), nid);
      }
    }
  }

  lemma Listed(nodes: seq<Node>, topo: seq<NodeId>, nid: NodeId)
    requires ProducersFirst(nodes, topo) && nid < |nodes| && nid !in topo
    requires forall i :: 0 <= i < |nodes[nid].inputs| && Producer(nodes, nodes[nid].inputs[i]) >= 0 ==>
               Producer(nodes, nodes[nid].inputs[i]) in topo
    ensures ProducersFirst(nodes, topo + [nid])
  {
    var more := topo + [nid];
    forall k, i | 0 <= k < |more| && 0 <= i < |nodes[more[k]].inputs| && Producer(nodes, nodes[more[k]].inputs[i]) >= 0
      ensures Producer(nodes, nodes[more[k]].inputs[i]) in more[..k] {
      if k < |topo| {
        assert more[..k] == topo[..k];
      } else {
        assert more[..k] == topo;
      }
    }
  }

  /** The nodes some output depends on. */
  ghost predicate Live(nodes: seq<Node>, outputs: seq<ValueId>, n: NodeId) {
    exists i :: 0 <= i < |outputs| && LiveThrough(nodes, outputs[i], n)
  }

  ghost predicate LiveThrough(nodes: seq<Node>, output: ValueId, n: NodeId) {
    var p := Producer(nodes, output);
    p >= 0 && Needs(nodes, p, n)
  }

  /** The order finish lists: exactly the nodes the outputs depend on, once each, producers before consumers. */
  method TopologicalOrder(nodes: seq<Node>, values: nat, outputs: seq<ValueId>) returns (topo: seq<NodeId>)
    requires Acyclic(nodes, values)
    ensures ProducersFirst(nodes, topo)
    ensures forall k, m :: 0 <= k < m < |topo| ==> topo[k] != topo[m]
    ensures forall n :: n in topo <==> Live(nodes, outputs, n)
  {
    var visited: set<NodeId> := {};
    topo := [];
    for i := 0 to |outputs|
      invariant ProducersFirst(nodes, topo) && (forall n :: n in visited <==> n in topo)
      invariant forall n :: n in topo <==> Live(nodes, outputs[..i], n)
    {
      var p := Producer(nodes, outputs[i]);
      ghost var was := topo;
      if p >= 0 {
        visited, topo := Visit(nodes, values, p, visited, topo);
      }
      forall n ensures n in topo <==> Live(nodes, outputs[..i + 1], n) {
        MoreLive(nodes, outputs, i, n);
      }
    }
    assert outputs[..|outputs|] == outputs;
  }

  lemma MoreLive(nodes: seq<Node>, outputs: seq<ValueId>, i: nat, n: NodeId)
    requires i < |outputs|
    ensures Live(nodes, outputs[..i + 1], n) <==> Live(nodes, outputs[..i], n) || LiveThrough(nodes, outputs[i], n)
  {
    var before, after := outputs[..i], outputs[..i + 1];
    if Live(nodes, before, n) {
      var k :| 0 <= k < |before| && LiveThrough(nodes, before[k], n);
      assert after[k] == before[k];
    }
    if LiveThrough(nodes, outputs[i], n) {
      assert after[i] == outputs[i];
    }
    if Live(nodes, after, n) {
      var k :| 0 <= k < |after| && LiveThrough(nodes, after[k], n);
      assert k < i ==> before[k] == after[k];
    }
  }

  // ---- evaluating ---------------------------------------------------------

  type Word = int
  type Env = seq<Word>

  /** What the operations compute; nothing is known about it. */
  datatype Semantics = Semantics(f: (Op, seq<Word>) -> Word)
  {
    function Apply(op: Op, xs: seq<Word>): Word { f(op, xs) }
  }

  function Arguments(env: Env, inputs: seq<ValueId>): seq<Word>
    requires forall i :: 0 <= i < |inputs| ==> inputs[i] < |env|
  {
    seq(|inputs|, i requires 0 <= i < |inputs| => env[inputs[i]])
  }

  /** Evaluates nodes one after another, each into its output. */
  ghost function Evaluate(s: Semantics, nodes: seq<Node>, order: seq<NodeId>, env: Env): (r: Env)
    requires Acyclic(nodes, |env|) && forall k :: 0 <= k < |order| ==> order[k] < |nodes|
    ensures |r| == |env|
  {
    if order == [] then env
    else
      var before := Evaluate(s, nodes, order[..|order| - 1], env);
      var n := nodes[order[|order| - 1]];
      before[n.output := s.Apply(n.op, Arguments(before, n.inputs))]
  }

  /** What a value denotes, whatever the order. */
  ghost function Meaning(s: Semantics, nodes: seq<Node>, env: Env, v: ValueId): Word
    requires Acyclic(nodes, |env|) && v < |env|
    decreases Producer(nodes, v) + 1
  {
    var p := Producer(nodes, v);
    if p < 0 then env[v]
    else
      OutputProducer(nodes, |env|, p);
      s.Apply(nodes[p].op, seq(|nodes[p].inputs|, i requires 0 <= i < |nodes[p].inputs| =>
        Meaning(s, nodes, env, nodes[p].inputs[i])))
  }

  lemma {:induction false} OutputProducer(nodes: seq<Node>, values: nat, n: NodeId)
    requires Acyclic(nodes, values) && n < |nodes|
    ensures Producer(nodes, nodes[n].output) == n
  {
    var p := Producer(nodes, nodes[n].output);
    assert p >= 0 && nodes[p].output == nodes[n].output;
  }

  /** In any order that lists producers first, what has been evaluated is its meaning and the rest is untouched. */
  lemma {:induction false} EvaluatesToMeaning(s: Semantics, nodes: seq<Node>, order: seq<NodeId>, env: Env, v: ValueId)
    requires Acyclic(nodes, |env|) && ProducersFirst(nodes, order) && v < |env|
    ensures Producer(nodes, v) < 0 ==> Evaluate(s, nodes, order, env)[v] == env[v] == Meaning(s, nodes, env, v)
    ensures Producer(nodes, v) in order ==> Evaluate(s, nodes, order, env)[v] == Meaning(s, nodes, env, v)
    decreases |order|
  {
    if order != [] {
      var last := order[|order| - 1];
      var before := order[..|order| - 1];
      PrefixProducersFirst(nodes, order);
      EvaluatesToMeaning(s, nodes, before, env, v);
      OutputProducer(nodes, |env|, last);
      var n := nodes[last];
      if v == n.output {
        var e := Evaluate(s, nodes, before, env);
        forall i | 0 <= i < |n.inputs| ensures e[n.inputs[i]] == Meaning(s, nodes, env, n.inputs[i]) {
          assert Producer(nodes, n.inputs[i]) >= 0 ==> Producer(nodes, n.inputs[i]) in order[..|order| - 1];
          EvaluatesToMeaning(s, nodes, before, env, n.inputs[i]);
        }
        assert Arguments(e, n.inputs)
            == seq(|n.inputs|, i requires 0 <= i < |n.inputs| => Meaning(s, nodes, env, n.inputs[i]));
      } else if Producer(nodes, v) in order {
        assert Producer(nodes, v) != last;
        assert Producer(nodes, v) in before;
      }
    }
  }

  lemma PrefixProducersFirst(nodes: seq<Node>, order: seq<NodeId>)
    requires order != [] && ProducersFirst(nodes, order)
    ensures ProducersFirst(nodes, order[..|order| - 1])
  {
    var before := order[..|order| - 1];
    forall k, i | 0 <= k < |before| && 0 <= i < |nodes[before[k]].inputs| && Producer(nodes, nodes[before[k]].inputs[i]) >= 0
      ensures Producer(nodes, nodes[before[k]].inputs[i]) in before[..k] {
      assert before[k] == order[k] && before[..k] == order[..k];
    }
  }

  function Recorded(n: nat): (r: seq<NodeId>)
    ensures |r| == n && forall k :: 0 <= k < n ==> r[k] == k
  {
    seq(n, k => k)
  }

  lemma RecordingOrderIsFine(nodes: seq<Node>, values: nat)
    requires Acyclic(nodes, values)
    ensures ProducersFirst(nodes, Recorded(|nodes|))
  {
    var order := Recorded(|nodes|);
    forall k, i | 0 <= k < |order| && 0 <= i < |nodes[order[k]].inputs| && Producer(nodes, nodes[order[k]].inputs[i]) >= 0
      ensures Producer(nodes, nodes[order[k]].inputs[i]) in order[..k] {
      var p := Producer(nodes, nodes[order[k]].inputs[i]);
      assert p < k && order[..k][p] == p;
    }
  }

  /** Evaluating only the listed nodes gives the outputs that evaluating everything in recording order gives. */
  lemma SliceGivesSameOutputs(s: Semantics, nodes: seq<Node>, outputs: seq<ValueId>, topo: seq<NodeId>, env: Env, i: nat)
    requires Acyclic(nodes, |env|) && i < |outputs| && outputs[i] < |env|
    requires ProducersFirst(nodes, topo) && forall n :: n in topo <==> Live(nodes, outputs, n)
    ensures Evaluate(s, nodes, topo, env)[outputs[i]] == Evaluate(s, nodes, Recorded(|nodes|), env)[outputs[i]]
  {
    var p := Producer(nodes, outputs[i]);
    RecordingOrderIsFine(nodes, |env|);
    EvaluatesToMeaning(s, nodes, topo, env, outputs[i]);
    EvaluatesToMeaning(s, nodes, Recorded(|nodes|), env, outputs[i]);
    if p >= 0 {
      assert LiveThrough(nodes, outputs[i], p);
      assert Recorded(|nodes|)[p] == p;
    }
  }

  // ---- the builder --------------------------------------------------------

  datatype Graph = Graph(values: seq<Value>, nodes: seq<Node>, inputs: seq<ValueId>, outputs: seq<ValueId>, topo: seq<NodeId>)

  predicate Arity(op: Op, inputs: nat) {
    match op
    case MatMul(_) => inputs == 2
    case Elementwise(k) => inputs == if Binary(k) then 2 else 1
    case Cast(_) => inputs == 1
    case Softmax(_) => inputs == 1
  }

  /** A transposed right operand counts by its rows. */
  function ResultShape(op: Op, inputs: seq<ValueId>, values: seq<Value>): Shape
    requires Arity(op, |inputs|) && forall i :: 0 <= i < |inputs| ==> inputs[i] < |values|
  {
    var first := values[inputs[0]].shape;
    if op.MatMul? then
      var rhs := values[inputs[1]].shape;
      Shape(first.rows, if op.transposeRhs then rhs.rows else rhs.cols)
    else first
  }

  /** Producer and consumer entries say what the nodes say; a consumer is listed once per use. */
  ghost predicate Consistent(values: seq<Value>, nodes: seq<Node>) {
    && Acyclic(nodes, |values|)
    && (forall v :: 0 <= v < |values| ==>
          values[v].producer == Producer(nodes, v) && values[v].consumers == Consumers(nodes, v))
    && (forall v :: 0 <= v < |values| && values[v].kind == Input ==> values[v].producer < 0)
  }

  /** Every node has the inputs its operation takes, and a result of the shape inferred from them. */
  ghost predicate Typed(values: seq<Value>, nodes: seq<Node>) {
    forall n :: 0 <= n < |nodes| ==> TypedNode(values, nodes[n])
  }

  ghost predicate TypedNode(values: seq<Value>, n: Node) {
    && Arity(n.op, |n.inputs|) && (forall i :: 0 <= i < |n.inputs| ==> n.inputs[i] < |values|)
    && n.output < |values| && values[n.output].shape == ResultShape(n.op, n.inputs, values)
  }

  ghost predicate NoOutputs(values: seq<Value>) {
    forall v :: 0 <= v < |values| ==> values[v].kind != Output
  }

  /** A graph as the tracer finishes it. */
  ghost predicate Finished(g: Graph) {
    && Consistent(g.values, g.nodes) && Typed(g.values, g.nodes)
    && (forall v :: v in g.outputs ==> v < |g.values|)
    && (forall v :: 0 <= v < |g.values| ==> (g.values[v].kind == Output <==> v in g.outputs))
    && (forall v :: v in g.inputs ==> v < |g.values| && g.values[v].producer < 0)
    && ProducersFirst(g.nodes, g.topo) && (forall n :: n in g.topo <==> Live(g.nodes, g.outputs, n))
  }

  /** Shapes stay, values are only added. */
  lemma StaysTyped(before: seq<Value>, values: seq<Value>, nodes: seq<Node>)
    requires Typed(before, nodes) && |before| <= |values|
    requires forall v :: 0 <= v < |before| ==> values[v].shape == before[v].shape
    ensures Typed(values, nodes)
  {
    forall n | 0 <= n < |nodes| ensures TypedNode(values, nodes[n]) {
      assert TypedNode(before, nodes[n]);
    }
  }

  method WithConsumers(values: seq<Value>, inputs: seq<ValueId>, nid: NodeId) returns (r: seq<Value>)
    requires forall i :: 0 <= i < |inputs| ==> inputs[i] < |values|
    ensures |r| == |values|
    ensures forall v :: 0 <= v < |values| ==> r[v] == values[v].(consumers := values[v].consumers + Uses(inputs, v, nid))
  {
    r := values;
    for i := 0 to |inputs|
      invariant |r| == |values|
      invariant forall v :: 0 <= v < |values| ==>
                  r[v] == values[v].(consumers := values[v].consumers + Uses(inputs[..i], v, nid))
    {
      assert inputs[..i + 1][..i] == inputs[..i];
      r := r[inputs[i] := r[inputs[i]].(consumers := r[inputs[i]].consumers + [nid])];
    }
    assert inputs[..|inputs|] == inputs;
  }

  class FusionTraceBuilder {
    var values: seq<Value>
    var nodes: seq<Node>

    ghost predicate Valid()
      reads this
    {
      Consistent(values, nodes)
    }

    /** Not finished yet, and every result declared as its operation makes it. */
    ghost predicate Recording()
      reads this
    {
      Valid() && Typed(values, nodes) && NoOutputs(values)
    }

    constructor ()
      ensures Recording() && values == [] && nodes == []
    {
      values, nodes := [], [];
    }

    method NewValue(symbol: string, shape: Shape, kind: Kind) returns (v: ValueId)
      requires Valid()
      modifies this
      ensures Valid() && nodes == old(nodes) && v == old(|values|)
      ensures values == old(values) + [Value(symbol, shape, kind, -1, [])]
      ensures old(Recording()) && kind != Output ==> Recording()
    {
      v := |values|;
      ValueRecorded(values, nodes, Value(symbol, shape, kind, -1, []));
      if Typed(values, nodes) {
        StaysTyped(values, values + [Value(symbol, shape, kind, -1, [])], nodes);
      }
      values := values + [Value(symbol, shape, kind, -1, [])];
    }

    /** Records a node: its id goes to the consumers of each of its inputs, as often as it uses it. */
    method NewNode(op: Op, inputs: seq<ValueId>, output: ValueId) returns (nid: NodeId)
      requires Valid() && output < |values| && values[output].producer < 0 && output !in inputs
      requires values[output].kind != Input
      requires forall i :: 0 <= i < |inputs| ==> inputs[i] < |values|
      requires forall n :: 0 <= n < |nodes| ==> output !in nodes[n].inputs
      requires Arity(op, |inputs|)
      modifies this
      ensures Valid() && nid == old(|nodes|) && nodes == old(nodes) + [Node(op, inputs, output)]
      ensures |values| == old(|values|)
      ensures forall v :: 0 <= v < |values| ==>
                && values[v].symbol == old(values)[v].symbol && values[v].shape == old(values)[v].shape
                && values[v].kind == old(values)[v].kind
                && values[v].producer == (if v == output then nid else old(values)[v].producer)
                && values[v].consumers == old(values)[v].consumers + Uses(inputs, v, nid)
      ensures old(Recording()) ==>
                (Recording() <==> old(values)[output].shape == ResultShape(op, inputs, old(values)))
    {
      hide Consistent, Typed;
      nid := |nodes|;
      ghost var was, before := values, nodes;
      nodes := nodes + [Node(op, inputs, output)];
      values := WithConsumers(values, inputs, nid);
      values := values[output := values[output].(producer := nid)];
      NodeRecorded(was, before, values, Node(op, inputs, output));
      SameShapes(op, inputs, was, values);
      if Typed(was, before) {
        StaysTyped(was, values, before);
        OneMoreTyped(values, before, Node(op, inputs, output));
      }
    }

    method AddInput(symbol: string, shape: Shape) returns (v: ValueId)
      requires Valid()
      modifies this
      ensures Valid() && nodes == old(nodes) && v == old(|values|)
      ensures values == old(values) + [Value(symbol, shape, Input, -1, [])]
      ensures old(Recording()) ==> Recording()
    {
      v := NewValue(symbol, shape, Input);
    }

    /** A new value, computed by a new node and declared with the given shape. */
    method AddDeclared(symbol: string, op: Op, inputs: seq<ValueId>, shape: Shape) returns (v: ValueId)
      requires Valid() && Arity(op, |inputs|) && forall i :: 0 <= i < |inputs| ==> inputs[i] < |values|
      modifies this
      ensures Valid() && v == old(|values|) && |values| == old(|values|) + 1
      ensures nodes == old(nodes) + [Node(op, inputs, v)]
      ensures values[v].kind == Intermediate && values[v].shape == shape
      ensures forall u :: 0 <= u < old(|values|) ==>
                values[u].kind == old(values)[u].kind && values[u].shape == old(values)[u].shape
                && values[u].consumers == old(values)[u].consumers + Uses(inputs, u, old(|nodes|))
      ensures old(Recording()) ==> (Recording() <==> shape == ResultShape(op, inputs, old(values)))
    {
      hide Consistent, Typed, NoOutputs;
      FreshIsNoInput(values, nodes);
      ghost var was := values;
      v := NewValue(symbol, shape, Intermediate);
      SameShape(op, inputs, was, values);
      var _ := NewNode(op, inputs, v);
    }

    /** The same, declared as the operation makes it. */
    method AddOperation(symbol: string, op: Op, inputs: seq<ValueId>) returns (v: ValueId)
      requires Valid() && Arity(op, |inputs|) && forall i :: 0 <= i < |inputs| ==> inputs[i] < |values|
      modifies this
      ensures Valid() && v == old(|values|) && |values| == old(|values|) + 1
      ensures nodes == old(nodes) + [Node(op, inputs, v)]
      ensures values[v].kind == Intermediate && values[v].shape == ResultShape(op, inputs, old(values))
      ensures op.MatMul? ==>
                var lhs, rhs := old(values)[inputs[0]].shape, old(values)[inputs[1]].shape;
                && values[v].shape.rows == lhs.rows
                && values[v].shape.cols == (if op.transposeRhs then rhs.rows else rhs.cols)
      ensures !op.MatMul? ==> values[v].shape == old(values)[inputs[0]].shape
      ensures forall u :: 0 <= u < old(|values|) ==>
                values[u].kind == old(values)[u].kind && values[u].shape == old(values)[u].shape
                && values[u].consumers == old(values)[u].consumers + Uses(inputs, u, old(|nodes|))
      ensures old(Recording()) ==> Recording()
    {
      hide Consistent, Typed, NoOutputs;
      v := AddDeclared(symbol, op, inputs, ResultShape(op, inputs, values));
    }

    /** Marks the outputs and lists the nodes they depend on; the input list is taken before outputs are marked. */
    method Finish(outputs: seq<ValueId>) returns (g: Graph)
      requires Valid() && forall i :: 0 <= i < |outputs| ==> outputs[i] < |values|
      modifies this
      ensures Valid() && nodes == old(nodes) && |values| == old(|values|)
      ensures g.values == values && g.nodes == nodes && g.outputs == outputs
      ensures forall v :: 0 <= v < |values| ==>
                values[v] == old(values)[v].(kind := if v in outputs then Output else old(values)[v].kind)
      ensures forall v :: v in g.inputs <==> 0 <= v < |values| && old(values)[v].kind == Input
      ensures forall v :: v in g.inputs ==> values[v].producer < 0
      ensures ProducersFirst(nodes, g.topo) && forall n :: n in g.topo <==> Live(nodes, outputs, n)
      ensures old(Recording()) ==> Finished(g)
    {
      hide Typed;
      var inputs: seq<ValueId> := [];
      for v := 0 to |values|
        invariant forall u :: u in inputs <==> 0 <= u < v && values[u].kind == Input
      {
        if values[v].kind == Input {
          inputs := inputs + [v];
        }
      }
      ghost var was := values;
      for i := 0 to |outputs|
        invariant |values| == |was| && nodes == old(nodes)
        invariant forall v :: 0 <= v < |values| ==>
                    values[v] == if v in outputs[..i] then was[v].(kind := Output) else was[v]
      {
        assert outputs[..i + 1] == outputs[..i] + [outputs[i]];
        values := values[outputs[i] := values[outputs[i]].(kind := Output)];
      }
      assert outputs[..|outputs|] == outputs;
      if Typed(was, nodes) {
        StaysTyped(was, values, nodes);
      }
      var topo := TopologicalOrder(nodes, |values|, outputs);
      g := Graph(values, nodes, inputs, outputs, topo);
    }
  }

  lemma FreshIsNoInput(values: seq<Value>, nodes: seq<Node>)
    requires Consistent(values, nodes)
    ensures forall n :: 0 <= n < |nodes| ==> |values| !in nodes[n].inputs
  {
  }

  lemma SameShape(op: Op, inputs: seq<ValueId>, before: seq<Value>, values: seq<Value>)
    requires Arity(op, |inputs|) && before <= values && forall i :: 0 <= i < |inputs| ==> inputs[i] < |before|
    ensures ResultShape(op, inputs, before) == ResultShape(op, inputs, values)
  {
  }

  lemma OneMoreTyped(values: seq<Value>, nodes: seq<Node>, n: Node)
    requires Typed(values, nodes)
    ensures Typed(values, nodes + [n]) <==> TypedNode(values, n)
  {
    if Typed(values, nodes + [n]) {
      assert (nodes + [n])[|nodes|] == n;
    }
  }

  lemma SameShapes(op: Op, inputs: seq<ValueId>, was: seq<Value>, values: seq<Value>)
    requires Arity(op, |inputs|) && |was| == |values| && forall i :: 0 <= i < |inputs| ==> inputs[i] < |was|
    requires forall v :: 0 <= v < |was| ==> values[v].shape == was[v].shape
    ensures ResultShape(op, inputs, was) == ResultShape(op, inputs, values)
  {
  }

  lemma {:induction false} NoUse(inputs: seq<ValueId>, v: ValueId, n: NodeId)
    requires v !in inputs
    ensures Uses(inputs, v, n) == []
  {
    if inputs != [] {
      assert inputs[|inputs| - 1] in inputs;
      NoUse(inputs[..|inputs| - 1], v, n);
    }
  }

  lemma {:induction false} FreshHasNoUses(nodes: seq<Node>, values: nat)
    requires Acyclic(nodes, values)
    ensures Producer(nodes, values) < 0 && Consumers(nodes, values) == []
  {
    FreshNotConsumed(nodes, |nodes|, values);
    assert nodes[..|nodes|] == nodes;
  }

  lemma {:induction false} FreshNotConsumed(nodes: seq<Node>, n: nat, values: nat)
    requires Acyclic(nodes, values) && n <= |nodes|
    ensures Consumers(nodes[..n], values) == []
  {
    if n > 0 {
      FreshNotConsumed(nodes, n - 1, values);
      assert nodes[..n][..n - 1] == nodes[..n - 1];
      assert values !in nodes[n - 1].inputs;
      NoUse(nodes[n - 1].inputs, values, n - 1);
    }
  }

  lemma Grows(nodes: seq<Node>, n: Node, v: ValueId)
    ensures Producer(nodes + [n], v) == if v == n.output then |nodes| else Producer(nodes, v)
    ensures Consumers(nodes + [n], v) == Consumers(nodes, v) + Uses(n.inputs, v, |nodes|)
  {
    assert (nodes + [n])[..|nodes|] == nodes;
  }

  lemma MoreAcyclic(nodes: seq<Node>, values: nat, n: Node)
    requires Acyclic(nodes, values) && n.output < values && n.output !in n.inputs
    requires Producer(nodes, n.output) < 0
    requires forall i :: 0 <= i < |n.inputs| ==> n.inputs[i] < values
    requires forall m :: 0 <= m < |nodes| ==> n.output !in nodes[m].inputs
    ensures Acyclic(nodes + [n], values)
  {
    hide Producer;
    var more := nodes + [n];
    forall m, i | 0 <= m < |more| && 0 <= i < |more[m].inputs|
      ensures more[m].inputs[i] < values && Producer(more, more[m].inputs[i]) < m {
      Grows(nodes, n, more[m].inputs[i]);
      if m < |nodes| {
        assert nodes[m].inputs[i] in nodes[m].inputs;
      }
    }
  }

  lemma ValueRecorded(values: seq<Value>, nodes: seq<Node>, v: Value)
    requires Consistent(values, nodes) && v.producer == -1 && v.consumers == []
    ensures Consistent(values + [v], nodes)
  {
    hide Acyclic, Producer, Consumers;
    FreshHasNoUses(nodes, |values|);
    MoreValues(nodes, |values|);
  }

  lemma MoreValues(nodes: seq<Node>, values: nat)
    requires Acyclic(nodes, values)
    ensures Acyclic(nodes, values + 1)
  {
    hide Producer;
  }

  lemma NodeRecorded(was: seq<Value>, nodes: seq<Node>, values: seq<Value>, n: Node)
    requires Consistent(was, nodes) && |values| == |was| && n.output < |was| && was[n.output].producer < 0
    requires n.output !in n.inputs && forall i :: 0 <= i < |n.inputs| ==> n.inputs[i] < |was|
    requires forall m :: 0 <= m < |nodes| ==> n.output !in nodes[m].inputs
    requires was[n.output].kind != Input && forall v :: 0 <= v < |values| ==>
               && values[v].kind == was[v].kind
               && values[v].producer == (if v == n.output then |nodes| else was[v].producer)
               && values[v].consumers == was[v].consumers + Uses(n.inputs, v, |nodes|)
    ensures Consistent(values, nodes + [n])
  {
    hide Producer, Consumers, Uses;
    MoreAcyclic(nodes, |was|, n);
    forall v | 0 <= v < |values|
      ensures values[v].producer == Producer(nodes + [n], v) && values[v].consumers == Consumers(nodes + [n], v) {
      Grows(nodes, n, v);
    }
  }
}
