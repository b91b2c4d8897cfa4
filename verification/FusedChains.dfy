/** What a traced graph means over tensors, and the chain of elementwise operations a fused kernel applies. */
module FusedChains {
  import opened Trace
  import opened FusionRegions
  import opened Operands

  /** The elementwise functions and softmax of a row; nothing is known about them. */
  datatype Kinds = Kinds(unary: (ElementKind, real) -> real, binary: (ElementKind, real, real) -> real,
                         softmax: (int, seq<real>, nat) -> real)
  {
    function U(k: ElementKind, x: real): real { unary(k, x) }
    function B(k: ElementKind, x: real, y: real): real { binary(k, x, y) }
    function S(along: int, row: seq<real>, j: nat): real { softmax(along, row, j) }
  }

  /** The emitters' table of kinds. */
  predicate IsUnaryKind(k: ElementKind) {
    match k
    case Sum => false
    case Difference => false
    case Product => false
    case Quotient => false
    case Minimum => false
    case Maximum => false
    case _ => true
  }

  /** The tracer records a node of a unary kind with one operand and of any other with two. */
  lemma TracedKind(g: Graph, n: NodeId)
    requires Finished(g) && n < |g.nodes| && g.nodes[n].op.Elementwise?
    ensures |g.nodes[n].inputs| == 1 <==> IsUnaryKind(g.nodes[n].op.element)
    ensures |g.nodes[n].inputs| == 1 || |g.nodes[n].inputs| == 2
  {
    hide Consistent;
    assert TypedNode(g.values, g.nodes[n]);
  }

  function IndexOf(ids: seq<ValueId>, v: ValueId): (i: int)
    ensures -1 <= i < |ids| && (i >= 0 ==> ids[i] == v) && (i >= 0 <==> v in ids)
  {
    if ids == [] then -1
    else if ids[0] == v then 0
    else
      var i := IndexOf(ids[1..], v);
      if i < 0 then -1 else i + 1
  }

  /** The tensor passed for a graph input. */
  function Argument(g: Graph, args: seq<Tensor>, v: ValueId, i: int, j: int): real {
    var k := IndexOf(g.inputs, v);
    if 0 <= k < |args| then args[k].at(i, j) else 0.0
  }

  /** Element (i, j) of a value, node by node. */
  ghost function Cell(s: Kinds, g: Graph, args: seq<Tensor>, v: ValueId, i: nat, j: nat): real
    requires Finished(g) && v < |g.values|
    decreases Producer(g.nodes, v) + 1, 0, 0
  {
    var p := Producer(g.nodes, v);
    if p < 0 then Argument(g, args, v, i, j)
    else
      var n := g.nodes[p];
      match n.op
      case MatMul(tr) => Dot(s, g, args, p, i, j, g.values[n.inputs[0]].shape.cols)
      case Elementwise(k) =>
        if |n.inputs| == 1 then s.U(k, Cell(s, g, args, n.inputs[0], i, j))
        else s.B(k, Cell(s, g, args, n.inputs[0], i, j), Cell(s, g, args, n.inputs[1], i, j))
      case Cast(_) => Cell(s, g, args, n.inputs[0], i, j)
      case Softmax(along) =>
        var cols := g.values[n.inputs[0]].shape.cols;
        s.S(along, seq(cols, k requires 0 <= k < cols => Cell(s, g, args, n.inputs[0], i, k)), j)
  }

  /** The first k terms of element (i, j) of a matmul. */
  ghost function Dot(s: Kinds, g: Graph, args: seq<Tensor>, p: NodeId, i: nat, j: nat, k: nat): real
    requires Finished(g) && p < |g.nodes| && g.nodes[p].op.MatMul?
    decreases p, 1, k
  {
    if k == 0 then 0.0
    else
      var n := g.nodes[p];
      var l, r := n.inputs[0], n.inputs[1];
      Dot(s, g, args, p, i, j, k - 1)
      + Cell(s, g, args, l, i, k - 1)
        * (if n.op.transposeRhs then Cell(s, g, args, r, j, k - 1) else Cell(s, g, args, r, k - 1, j))
  }

  lemma CellOfNode(s: Kinds, g: Graph, args: seq<Tensor>, n: NodeId, i: nat, j: nat)
    requires Finished(g) && n < |g.nodes|
    ensures g.nodes[n].output < |g.values| && Producer(g.nodes, g.nodes[n].output) == n
    ensures var node := g.nodes[n];
            && (node.op.MatMul? ==>
                  Cell(s, g, args, node.output, i, j) == Dot(s, g, args, n, i, j, g.values[node.inputs[0]].shape.cols))
            && (node.op.Elementwise? && |node.inputs| == 1 ==>
                  Cell(s, g, args, node.output, i, j) == s.U(node.op.element, Cell(s, g, args, node.inputs[0], i, j)))
            && (node.op.Elementwise? && |node.inputs| == 2 ==>
                  Cell(s, g, args, node.output, i, j)
                  == s.B(node.op.element, Cell(s, g, args, node.inputs[0], i, j), Cell(s, g, args, node.inputs[1], i, j)))
  {
    OutputProducer(g.nodes, |g.values|, n);
  }

  /** A softmax node's element, for whatever sequence holds its input's row. */
  lemma CellOfSoftmax(s: Kinds, g: Graph, args: seq<Tensor>, n: NodeId, row: seq<real>, i: nat, j: nat)
    requires Finished(g) && n < |g.nodes| && g.nodes[n].op.Softmax? && g.nodes[n].inputs[0] < |g.values|
    requires |row| == g.values[g.nodes[n].inputs[0]].shape.cols
    requires forall k :: 0 <= k < |row| ==> row[k] == Cell(s, g, args, g.nodes[n].inputs[0], i, k)
    ensures g.nodes[n].output < |g.values|
    ensures Cell(s, g, args, g.nodes[n].output, i, j) == s.S(g.nodes[n].op.along, row, j)
  {
    OutputProducer(g.nodes, |g.values|, n);
    hide Finished;
    var cols := |row|;
    var cells := seq(cols, k requires 0 <= k < cols => Cell(s, g, args, g.nodes[n].inputs[0], i, k));
    assert cells == row;
  }

  lemma CellOfInput(s: Kinds, g: Graph, args: seq<Tensor>, v: ValueId, i: nat, j: nat)
    requires Finished(g) && IndexOf(g.inputs, v) >= 0
    ensures v < |g.values| && Cell(s, g, args, v, i, j) == Argument(g, args, v, i, j)
  {
  }

  // ---- specs --------------------------------------------------------------

  /** One step of the chain: which argument is the other operand, or none, and on which side the chain's value is. */
  datatype Spec = Spec(element: ElementKind, arg: int, pos: int)

  function ApplyOne(s: Kinds, args: seq<Tensor>, spec: Spec, x: real, i: int, j: int): real {
    if spec.arg < 0 then s.U(spec.element, x)
    else
      var y := if spec.arg < |args| then args[spec.arg].at(i, j) else 0.0;
      if spec.pos == 0 then s.B(spec.element, x, y) else s.B(spec.element, y, x)
  }

  function Apply(s: Kinds, args: seq<Tensor>, specs: seq<Spec>, x: real, i: int, j: int): real {
    if specs == [] then x
    else ApplyOne(s, args, specs[|specs| - 1], Apply(s, args, specs[..|specs| - 1], x, i, j), i, j)
  }

  /** What the passes check before they apply a chain. */
  predicate Accepted(specs: seq<Spec>, args: nat) {
    forall k :: 0 <= k < |specs| ==>
      if specs[k].arg < 0 then IsUnaryKind(specs[k].element)
      else specs[k].arg < args && 0 <= specs[k].pos <= 1 && !IsUnaryKind(specs[k].element)
  }

  /** A spec says what node n does to the output of the node before it. */
  ghost predicate SpecFor(g: Graph, before: NodeId, n: NodeId, spec: Spec)
    requires before < |g.nodes| && n < |g.nodes|
  {
    var node, v := g.nodes[n], g.nodes[before].output;
    && node.op == Elementwise(spec.element)
    && if |node.inputs| == 1 then spec.arg < 0 && node.inputs[0] == v
       else |node.inputs| == 2 && 0 <= spec.pos <= 1 && node.inputs[spec.pos] == v
            && spec.arg >= 0 && spec.arg == IndexOf(g.inputs, node.inputs[1 - spec.pos])
  }

  ghost predicate SpecsFor(g: Graph, chain: seq<NodeId>, specs: seq<Spec>) {
    && |chain| == |specs| + 1
    && (forall k :: 0 <= k < |chain| ==> chain[k] < |g.nodes|)
    && (forall k :: 0 <= k < |specs| ==> SpecFor(g, chain[k], chain[k + 1], specs[k]))
  }

  /** Applying the specs to an element of the first node's result gives that element of the last node's result. */
  lemma {:induction false} ChainMeans(s: Kinds, g: Graph, args: seq<Tensor>, chain: seq<NodeId>, specs: seq<Spec>, i: nat, j: nat)
    requires Finished(g) && SpecsFor(g, chain, specs) && |args| == |g.inputs|
    ensures g.nodes[chain[0]].output < |g.values| && g.nodes[chain[|specs|]].output < |g.values|
    ensures Apply(s, args, specs, Cell(s, g, args, g.nodes[chain[0]].output, i, j), i, j)
         == Cell(s, g, args, g.nodes[chain[|specs|]].output, i, j)
    decreases |specs|
  {
    hide Cell, Finished;
    FirstOutput(g, chain[0]);
    if specs != [] {
      var k := |specs| - 1;
      ChainMeans(s, g, args, chain[..k + 1], specs[..k], i, j);
      assert SpecFor(g, chain[k], chain[k + 1], specs[k]);
      StepMeans(s, g, args, chain[k], chain[k + 1], specs[k], i, j);
    }
  }

  lemma FirstOutput(g: Graph, n: NodeId)
    requires Finished(g) && n < |g.nodes|
    ensures g.nodes[n].output < |g.values|
  {
  }

  lemma StepMeans(s: Kinds, g: Graph, args: seq<Tensor>, before: NodeId, n: NodeId, spec: Spec, i: nat, j: nat)
    requires Finished(g) && before < |g.nodes| && n < |g.nodes| && SpecFor(g, before, n, spec) && |args| == |g.inputs|
    ensures g.nodes[before].output < |g.values| && g.nodes[n].output < |g.values|
    ensures ApplyOne(s, args, spec, Cell(s, g, args, g.nodes[before].output, i, j), i, j)
         == Cell(s, g, args, g.nodes[n].output, i, j)
  {
    hide Cell, Finished;
    FirstOutput(g, before);
    CellOfNode(s, g, args, n, i, j);
    if |g.nodes[n].inputs| == 2 {
      CellOfInput(s, g, args, g.nodes[n].inputs[1 - spec.pos], i, j);
    }
  }

  // ---- translating a region -----------------------------------------------

  datatype Translation = Specs(specs: seq<Spec>) | Refused

  /** The side the chain's value is on, and the other operand: the last of each kind wins, and without another
      operand value 0 is left. */
  method FindOperands(inputs: seq<ValueId>, current: ValueId) returns (pos: int, boundary: ValueId)
    requires |inputs| == 2
    ensures Count(inputs, current) == 1 ==>
              0 <= pos <= 1 && inputs[pos] == current && inputs[1 - pos] == boundary && boundary != current
    ensures Count(inputs, current) == 0 ==> pos == -1 && boundary == inputs[1]
    ensures Count(inputs, current) == 2 ==> pos == 1 && boundary == 0
  {
    pos, boundary := -1, 0;
    assert inputs[..1] == [inputs[0]] && inputs[..1][..0] == [];
    assert Count(inputs[..1], current) == Count([], current) + if inputs[0] == current then 1 else 0;
    for i := 0 to 2
      invariant i == 1 ==> if inputs[0] == current then pos == 0 && boundary == 0 else pos == -1 && boundary == inputs[0]
      invariant i == 0 ==> pos == -1 && boundary == 0
      invariant i == 2 ==>
                  && pos == (if inputs[1] == current then 1 else if inputs[0] == current then 0 else -1)
                  && boundary == (if inputs[1] != current then inputs[1] else if inputs[0] != current then inputs[0] else 0)
    {
      if inputs[i] == current {
        pos := i;
      } else {
        boundary := inputs[i];
      }
    }
  }

  /** An elementwise node whose other operand, if any, is a graph input of the chain's shape. */
  ghost predicate CanTranslate(g: Graph, before: NodeId, n: NodeId, shape: Shape)
    requires before < |g.nodes| && n < |g.nodes| && forall v :: v in g.inputs ==> v < |g.values|
  {
    var node, v := g.nodes[n], g.nodes[before].output;
    && node.op.Elementwise?
    && (|node.inputs| == 2 ==>
          forall k :: 0 <= k < 2 && node.inputs[k] != v ==>
            IndexOf(g.inputs, node.inputs[k]) >= 0 && g.values[node.inputs[k]].shape == shape)
  }

  /** A chain that translates keeps the shape it starts with: an elementwise result has its first operand's. */
  lemma {:induction false} ChainShape(g: Graph, chain: seq<NodeId>, shape: Shape, k: nat)
    requires Finished(g) && Chain(g, chain) && k < |chain| && (forall v :: v in g.inputs ==> v < |g.values|)
    requires g.nodes[chain[0]].output < |g.values| && g.values[g.nodes[chain[0]].output].shape == shape
    requires forall m :: 0 <= m < k ==> CanTranslate(g, chain[m], chain[m + 1], shape)
    ensures g.nodes[chain[k]].output < |g.values| && g.values[g.nodes[chain[k]].output].shape == shape
  {
    hide Finished, Count;
    if k > 0 {
      ChainShape(g, chain, shape, k - 1);
      assert Linked(g, chain[k - 1], chain[k - 1 + 1]);
      UsedOnce(g, chain[k - 1], chain[k]);
      assert CanTranslate(g, chain[k - 1], chain[k - 1 + 1], shape);
      NodeShape(g, chain[k]);
    }
  }

  /** The shape the tracer declares for a node's result. */
  lemma NodeShape(g: Graph, n: NodeId)
    requires Finished(g) && n < |g.nodes|
    ensures var node := g.nodes[n];
            && node.output < |g.values| && Arity(node.op, |node.inputs|)
            && (forall i :: 0 <= i < |node.inputs| ==> node.inputs[i] < |g.values|)
            && g.values[node.output].shape ==
                 (if node.op.MatMul? then
                    var lhs, rhs := g.values[node.inputs[0]].shape, g.values[node.inputs[1]].shape;
                    Shape(lhs.rows, if node.op.transposeRhs then rhs.rows else rhs.cols)
                  else g.values[node.inputs[0]].shape)
  {
    hide Consistent;
    assert TypedNode(g.values, g.nodes[n]);
  }

  /** The loop both emitters run over the nodes after the first matmul. That every node after the first uses the value
      before it exactly once comes from how regions grow; a value used twice is stored and ends its region. */
  method TranslateChain(g: Graph, chain: seq<NodeId>, shape: Shape) returns (t: Translation)
    requires Finished(g) && chain != [] && Chain(g, chain)
    ensures t.Specs? ==> SpecsFor(g, chain, t.specs)
    ensures t.Specs? <==> forall k :: 0 <= k < |chain| - 1 ==> CanTranslate(g, chain[k], chain[k + 1], shape)
  {
    hide Finished, Count;
    InputsInRange(g);
    var specs: seq<Spec> := [];
    var current := g.nodes[chain[0]].output;
    for k := 1 to |chain|
      invariant current == g.nodes[chain[k - 1]].output
      invariant SpecsFor(g, chain[..k], specs)
      invariant forall m :: 0 <= m < k - 1 ==> CanTranslate(g, chain[m], chain[m + 1], shape)
    {
      var node := g.nodes[chain[k]];
      assert Linked(g, chain[k - 1], chain[k - 1 + 1]);
      UsedOnce(g, chain[k - 1], chain[k]);
      if !node.op.Elementwise? {
        assert !CanTranslate(g, chain[k - 1], chain[k - 1 + 1], shape);
        return Refused;
      }
      var spec := Spec(node.op.element, -1, -1);
      if |node.inputs| == 2 {
        var pos, boundary := FindOperands(node.inputs, current);
        var arg := IndexOf(g.inputs, boundary);
        if arg < 0 || g.values[boundary].shape != shape {
          assert !CanTranslate(g, chain[k - 1], chain[k - 1 + 1], shape);
          return Refused;
        }
        spec := Spec(node.op.element, arg, pos);
      }
      assert SpecFor(g, chain[k - 1], chain[k], spec);
      MoreSpecs(g, chain, k, specs, spec);
      specs, current := specs + [spec], node.output;
    }
    assert chain[..|chain|] == chain;
    t := Specs(specs);
  }

  lemma InputsInRange(g: Graph)
    requires Finished(g)
    ensures forall v :: v in g.inputs ==> v < |g.values|
  {
  }

  lemma UsedOnce(g: Graph, a: NodeId, b: NodeId)
    requires Finished(g) && Linked(g, a, b)
    ensures b < |g.nodes| && Count(g.nodes[b].inputs, g.nodes[a].output) == 1
    ensures Arity(g.nodes[b].op, |g.nodes[b].inputs|)
    ensures |g.nodes[b].inputs| == 1 ==> g.nodes[b].inputs[0] == g.nodes[a].output
  {
    LinkedIsConsumed(g, a, b);
    SingleUse(g.nodes, g.nodes[a].output, b);
    CountPositive(g.nodes[b].inputs, g.nodes[a].output);
    hide Consistent, Consumers, Count;
    assert TypedNode(g.values, g.nodes[b]);
  }

  lemma LinkedIsConsumed(g: Graph, a: NodeId, b: NodeId)
    requires Finished(g) && Linked(g, a, b)
    ensures a < |g.nodes| && Consumers(g.nodes, g.nodes[a].output) == [b]
  {
    hide Typed;
  }

  lemma MoreSpecs(g: Graph, chain: seq<NodeId>, k: nat, specs: seq<Spec>, spec: Spec)
    requires 1 <= k < |chain| && SpecsFor(g, chain[..k], specs) && chain[k] < |g.nodes|
    requires SpecFor(g, chain[k - 1], chain[k], spec)
    ensures SpecsFor(g, chain[..k + 1], specs + [spec])
  {
    hide SpecFor;
    var c, more := chain[..k + 1], specs + [spec];
    forall m | 0 <= m < |more| ensures SpecFor(g, c[m], c[m + 1], more[m]) {
      if m < |specs| {
        assert SpecFor(g, chain[..k][m], chain[..k][m + 1], specs[m]);
      }
    }
  }

  /** What the operand search would make of a value used twice: the other operand would be taken to be value 0. */
  lemma TwiceUsedIsStored(g: Graph, a: NodeId, n: NodeId)
    requires Finished(g) && a < |g.nodes| && n < |g.nodes| && g.nodes[n].inputs == [g.nodes[a].output, g.nodes[a].output]
    ensures g.nodes[a].output < |g.values| && Escapes(g.values[g.nodes[a].output]) && forall b :: !Linked(g, a, b)
  {
    var v := g.nodes[a].output;
    ConsumersAreCounted(g.nodes, v);
    var inputs := g.nodes[n].inputs;
    assert inputs[..1] == [v] && inputs[..1][..0] == [];
    assert Count(inputs[..1], v) == 1;
    assert Count(inputs, v) == 2;
  }
}
