/** The regions the fused kernels are for, from a graph's nodes, inputs and shapes alone. */
module FusibleRegions {
  import opened Trace

  function Declared(g: Graph, v: ValueId): Shape {
    if v < |g.values| then g.values[v].shape else Shape(0, 0)
  }

  /** A right operand as a matmul uses it. */
  function AsUsed(s: Shape, transposed: bool): Shape {
    if transposed then Shape(s.cols, s.rows) else s
  }

  /** Node n is elementwise, on the result of the node before it and on graph inputs of the given shape. */
  ghost predicate Glue(g: Graph, before: NodeId, n: NodeId, shape: Shape) {
    && before < |g.nodes| && n < |g.nodes| && g.nodes[n].op.Elementwise?
    && forall v :: v in g.nodes[n].inputs ==> v == g.nodes[before].output || (v in g.inputs && Declared(g, v) == shape)
  }

  ghost predicate AllGlue(g: Graph, r: seq<NodeId>, upTo: nat, shape: Shape)
    requires upTo <= |r|
  {
    forall k :: 1 <= k < upTo ==> Glue(g, r[k - 1], r[k], shape)
  }

  /** A matmul of two values. */
  predicate IsMatMul(g: Graph, n: NodeId) {
    n < |g.nodes| && g.nodes[n].op.MatMul? && |g.nodes[n].inputs| == 2
  }

  function Left(g: Graph, n: NodeId): ValueId
    requires IsMatMul(g, n)
  {
    g.nodes[n].inputs[0]
  }

  function Right(g: Graph, n: NodeId): ValueId
    requires IsMatMul(g, n)
  {
    g.nodes[n].inputs[1]
  }

  function RightShape(g: Graph, n: NodeId): Shape
    requires IsMatMul(g, n)
  {
    AsUsed(Declared(g, Right(g, n)), g.nodes[n].op.transposeRhs)
  }

  /** A matmul of graph inputs whose inner dimensions agree. */
  predicate OfInputs(g: Graph, n: NodeId) {
    && IsMatMul(g, n) && Left(g, n) in g.inputs && Right(g, n) in g.inputs
    && Declared(g, Left(g, n)).cols == RightShape(g, n).rows
  }

  function ProductShape(g: Graph, n: NodeId): Shape
    requires IsMatMul(g, n)
  {
    Shape(Declared(g, Left(g, n)).rows, RightShape(g, n).cols)
  }

  /** Matmul, then an elementwise chain on its result. */
  ghost predicate WithEpilogue(g: Graph, r: seq<NodeId>) {
    && r != [] && OfInputs(g, r[0]) && !g.nodes[r[0]].op.transposeRhs
    && AllGlue(g, r, |r|, ProductShape(g, r[0]))
  }

  /** A second matmul takes the value before it from the left, and a graph input of agreeing dimensions. */
  predicate SecondMatMul(g: Graph, first: NodeId, before: NodeId, n: NodeId)
    requires IsMatMul(g, first)
  {
    && IsMatMul(g, n) && before < |g.nodes| && Left(g, n) == g.nodes[before].output && Right(g, n) in g.inputs
    && ProductShape(g, first).cols == RightShape(g, n).rows
  }

  /** Matmul, an elementwise chain on its result, matmul of that. */
  ghost predicate WithGlue(g: Graph, r: seq<NodeId>) {
    && |r| >= 2 && OfInputs(g, r[0]) && SecondMatMul(g, r[0], r[|r| - 2], r[|r| - 1])
    && AllGlue(g, r, |r| - 1, ProductShape(g, r[0]))
  }

  /** Matmul, softmax of its rows, matmul of that. */
  predicate WithSoftmax(g: Graph, r: seq<NodeId>) {
    && |r| == 3 && OfInputs(g, r[0])
    && r[1] < |g.nodes| && (g.nodes[r[1]].op == Softmax(-1) || g.nodes[r[1]].op == Softmax(1))
    && g.nodes[r[1]].inputs == [g.nodes[r[0]].output]
    && SecondMatMul(g, r[0], r[1], r[2])
  }
}
