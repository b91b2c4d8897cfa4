/** What a traced expression means and what is recorded of it: a transposed view is kept for the right operand of a
    matmul only. */
module TracerTensors {
  import opened FusedChains
  import opened FusibleRegions
  import opened Operands
  import opened Trace

  /** A symbolic tensor: a value, or its transpose. */
  datatype TracerTensor = TracerTensor(id: ValueId, shape: Shape, transposed: bool)
  {
    function T(): TracerTensor {
      TracerTensor(id, Shape(shape.cols, shape.rows), !transposed)
    }

    /** Its shape is that of the value as viewed. */
    predicate Views(values: seq<Value>) {
      id < |values| && shape == AsUsed(values[id].shape, transposed)
    }

    /** Recording it as the value itself loses nothing of the shape. */
    predicate KeepsShape() {
      !transposed || shape.rows == shape.cols
    }
  }

  lemma TransposeTwice(t: TracerTensor, values: seq<Value>)
    ensures t.T().T() == t
    ensures t.T().Views(values) <==> t.Views(values)
  {
  }

  method AddInput(b: FusionTraceBuilder, symbol: string, shape: Shape) returns (t: TracerTensor)
    requires b.Valid()
    modifies b
    ensures b.Valid() && t.Views(b.values) && b.values == old(b.values) + [Value(symbol, shape, Input, -1, [])]
    ensures t.shape == shape && !t.transposed && (old(b.Recording()) ==> b.Recording())
  {
    var v := b.AddInput(symbol, shape);
    t := TracerTensor(v, shape, false);
  }

  /** x @ y: declared with the rows of x and the columns of y; of the two views only y's is recorded. What is declared
      is what the recorded operation makes exactly when x is no transposed view, or square. */
  method MatMul(b: FusionTraceBuilder, x: TracerTensor, y: TracerTensor) returns (t: TracerTensor)
    requires b.Valid() && x.Views(b.values) && y.Views(b.values)
    modifies b
    ensures b.Valid() && t.Views(b.values) && !t.transposed && t.shape == Shape(x.shape.rows, y.shape.cols)
    ensures b.nodes == old(b.nodes) + [Node(Op.MatMul(y.transposed), [x.id, y.id], t.id)]
    ensures old(b.Recording()) ==> (b.Recording() <==> x.KeepsShape())
  {
    var v := b.AddDeclared("mm", Op.MatMul(y.transposed), [x.id, y.id], Shape(x.shape.rows, y.shape.cols));
    t := TracerTensor(v, Shape(x.shape.rows, y.shape.cols), false);
  }

  /** An elementwise operation of one operand, a cast or a softmax: no view is recorded. */
  method Unary(b: FusionTraceBuilder, op: Op, x: TracerTensor) returns (t: TracerTensor)
    requires b.Valid() && x.Views(b.values) && (op.Cast? || op.Softmax? || (op.Elementwise? && IsUnaryKind(op.element)))
    modifies b
    ensures b.Valid() && t.Views(b.values) && !t.transposed && t.shape == x.shape
    ensures b.nodes == old(b.nodes) + [Node(op, [x.id], t.id)]
    ensures old(b.Recording()) ==> (b.Recording() <==> x.KeepsShape())
  {
    var v := b.AddDeclared("t", op, [x.id], x.shape);
    t := TracerTensor(v, x.shape, false);
  }

  /** An elementwise operation of two operands: declared with the first one's shape, and no view is recorded. */
  method Pointwise(b: FusionTraceBuilder, kind: ElementKind, x: TracerTensor, y: TracerTensor) returns (t: TracerTensor)
    requires b.Valid() && x.Views(b.values) && y.Views(b.values) && !IsUnaryKind(kind)
    modifies b
    ensures b.Valid() && t.Views(b.values) && !t.transposed && t.shape == x.shape
    ensures b.nodes == old(b.nodes) + [Node(Elementwise(kind), [x.id, y.id], t.id)]
    ensures old(b.Recording()) ==> (b.Recording() <==> x.KeepsShape())
  {
    var v := b.AddDeclared("t", Elementwise(kind), [x.id, y.id], x.shape);
    t := TracerTensor(v, x.shape, false);
  }

  // ---- what is asked and what is recorded ---------------------------------

  /** Element (i, j) of a symbolic tensor. */
  ghost function Entry(s: Kinds, g: Graph, args: seq<Tensor>, t: TracerTensor, i: nat, j: nat): real
    requires Finished(g) && t.id < |g.values|
  {
    if t.transposed then Cell(s, g, args, t.id, j, i) else Cell(s, g, args, t.id, i, j)
  }

  /** The first n terms of element (i, j) of the product x @ y. */
  ghost function Product(s: Kinds, g: Graph, args: seq<Tensor>, x: TracerTensor, y: TracerTensor, i: nat, j: nat, n: nat): real
    requires Finished(g) && x.id < |g.values| && y.id < |g.values|
  {
    if n == 0 then 0.0
    else Product(s, g, args, x, y, i, j, n - 1) + Entry(s, g, args, x, i, n - 1) * Entry(s, g, args, y, n - 1, j)
  }

  lemma {:induction false} DotIsProduct(s: Kinds, g: Graph, args: seq<Tensor>, n: NodeId, x: TracerTensor, y: TracerTensor,
                                        i: nat, j: nat, k: nat)
    requires Finished(g) && n < |g.nodes| && x.id < |g.values| && y.id < |g.values| && !x.transposed
    requires g.nodes[n].op == Op.MatMul(y.transposed) && g.nodes[n].inputs == [x.id, y.id]
    ensures Dot(s, g, args, n, i, j, k) == Product(s, g, args, x, y, i, j, k)
  {
    hide Cell, Finished;
    if k > 0 {
      DotIsProduct(s, g, args, n, x, y, i, j, k - 1);
    }
  }

  /** With a plain left operand the recorded matmul is the product asked for, also of a transposed right operand. */
  lemma MatMulMeans(s: Kinds, g: Graph, args: seq<Tensor>, n: NodeId, x: TracerTensor, y: TracerTensor, i: nat, j: nat)
    requires Finished(g) && n < |g.nodes| && x.Views(g.values) && y.id < |g.values| && !x.transposed
    requires g.nodes[n].op == Op.MatMul(y.transposed) && g.nodes[n].inputs == [x.id, y.id]
    ensures g.nodes[n].output < |g.values|
    ensures Cell(s, g, args, g.nodes[n].output, i, j) == Product(s, g, args, x, y, i, j, x.shape.cols)
  {
    hide Cell, Finished;
    CellOfNode(s, g, args, n, i, j);
    DotIsProduct(s, g, args, n, x, y, i, j, x.shape.cols);
  }

  /** A recorded elementwise operation is the one asked for, for all operations and arguments. */
  ghost predicate UnaryRight(g: Graph, n: NodeId, x: TracerTensor)
    requires Finished(g) && n < |g.nodes| && x.id < |g.values| && g.nodes[n].output < |g.values|
  {
    forall s: Kinds, args: seq<Tensor>, i: nat, j: nat ::
      |args| == |g.inputs| && i < x.shape.rows && j < x.shape.cols ==> UnaryRightAt(s, g, args, n, x, i, j)
  }

  ghost predicate UnaryRightAt(s: Kinds, g: Graph, args: seq<Tensor>, n: NodeId, x: TracerTensor, i: nat, j: nat)
    requires Finished(g) && n < |g.nodes| && x.id < |g.values| && g.nodes[n].output < |g.values|
  {
    g.nodes[n].op.Elementwise? ==>
      Cell(s, g, args, g.nodes[n].output, i, j) == s.U(g.nodes[n].op.element, Entry(s, g, args, x, i, j))
  }

  function Identity(): Kinds {
    Kinds((k: ElementKind, x: real) => x, (k: ElementKind, x: real, y: real) => x, (along: int, row: seq<real>, j: nat) => 0.0)
  }

  /** Every argument holds 1 at (0, 1) or (1, 0), and 0 elsewhere. */
  function Spike(g: Graph, i: nat, j: nat): (args: seq<Tensor>)
    ensures |args| == |g.inputs|
  {
    seq(|g.inputs|, k => Tensor(2, 2, (r: int, c: int) => if r == i && c == j then 1.0 else 0.0))
  }

  lemma UnaryMeans(s: Kinds, g: Graph, args: seq<Tensor>, n: NodeId, x: TracerTensor, i: nat, j: nat)
    requires Finished(g) && n < |g.nodes| && x.id < |g.values|
    requires g.nodes[n].op.Elementwise? && g.nodes[n].inputs == [x.id]
    ensures g.nodes[n].output < |g.values|
    ensures Cell(s, g, args, g.nodes[n].output, i, j)
         == s.U(g.nodes[n].op.element, Entry(s, g, args, if x.transposed then x.T() else x, i, j))
  {
    hide Cell, Finished;
    CellOfNode(s, g, args, n, i, j);
  }

  /** An elementwise operation on an input is recorded right, for all operations and arguments, exactly when the operand
      is no transposed view, or has one element at most in every row and column. */
  lemma UnaryRightIff(g: Graph, n: NodeId, x: TracerTensor)
    requires Finished(g) && n < |g.nodes| && x.Views(g.values) && IndexOf(g.inputs, x.id) >= 0
    requires g.nodes[n].op.Elementwise? && g.nodes[n].inputs == [x.id] && g.nodes[n].output < |g.values|
    ensures UnaryRight(g, n, x) <==> !x.transposed || x.shape.rows == 0 || x.shape.cols == 0 || x.shape == Shape(1, 1)
  {
    hide Finished, Cell;
    if !x.transposed || x.shape.rows == 0 || x.shape.cols == 0 || x.shape == Shape(1, 1) {
      forall s: Kinds, args: seq<Tensor>, i: nat, j: nat | |args| == |g.inputs| && i < x.shape.rows && j < x.shape.cols
        ensures UnaryRightAt(s, g, args, n, x, i, j) {
        UnaryMeans(s, g, args, n, x, i, j);
      }
    } else {
      var (i, j) := if x.shape.cols > 1 then (0, 1) else (1, 0);
      var s, args := Identity(), Spike(g, i, j);
      UnaryMeans(s, g, args, n, x, i, j);
      CellOfInput(s, g, args, x.id, i, j);
      CellOfInput(s, g, args, x.id, j, i);
      assert !UnaryRightAt(s, g, args, n, x, i, j);
    }
  }

  /** A product of two inputs is recorded right for all arguments. */
  ghost predicate ProductRight(g: Graph, n: NodeId, x: TracerTensor, y: TracerTensor)
    requires Finished(g) && n < |g.nodes| && x.id < |g.values| && y.id < |g.values| && g.nodes[n].output < |g.values|
  {
    forall s: Kinds, args: seq<Tensor>, i: nat, j: nat ::
      |args| == |g.inputs| && i < x.shape.rows && j < y.shape.cols ==> ProductRightAt(s, g, args, n, x, y, i, j)
  }

  ghost predicate ProductRightAt(s: Kinds, g: Graph, args: seq<Tensor>, n: NodeId, x: TracerTensor, y: TracerTensor,
                                 i: nat, j: nat)
    requires Finished(g) && n < |g.nodes| && x.id < |g.values| && y.id < |g.values| && g.nodes[n].output < |g.values|
  {
    Cell(s, g, args, g.nodes[n].output, i, j) == Product(s, g, args, x, y, i, j, x.shape.cols)
  }

  /** One element of argument x is 1, and all of argument y are. */
  function SpikeAndOnes(g: Graph, x: ValueId, y: ValueId, a: nat, b: nat): (args: seq<Tensor>)
    requires IndexOf(g.inputs, x) >= 0
    ensures |args| == |g.inputs|
  {
    seq(|g.inputs|, k => if k == IndexOf(g.inputs, x)
                         then Tensor(2, 2, (r: int, c: int) => if r == a && c == b then 1.0 else 0.0)
                         else Tensor(2, 2, (r: int, c: int) => 1.0))
  }

  lemma SpikeCells(s: Kinds, g: Graph, x: ValueId, y: ValueId, a: nat, b: nat, i: nat, j: nat)
    requires Finished(g) && IndexOf(g.inputs, x) >= 0 && IndexOf(g.inputs, y) >= 0 && x != y
    ensures x < |g.values| && y < |g.values|
    ensures Cell(s, g, SpikeAndOnes(g, x, y, a, b), x, i, j) == if i == a && j == b then 1.0 else 0.0
    ensures Cell(s, g, SpikeAndOnes(g, x, y, a, b), y, i, j) == 1.0
  {
    hide Finished, Cell;
    CellOfInput(s, g, SpikeAndOnes(g, x, y, a, b), x, i, j);
    CellOfInput(s, g, SpikeAndOnes(g, x, y, a, b), y, i, j);
  }

  /** Against ones, the product picks the spike's row out of what is asked for, and its column out of what is recorded. */
  lemma {:induction false} SpikeProducts(s: Kinds, g: Graph, n: NodeId, x: TracerTensor, y: TracerTensor, a: nat, b: nat,
                                         j: nat, k: nat)
    requires Finished(g) && n < |g.nodes| && x.id < |g.values| && y.id < |g.values| && x.transposed && x.id != y.id && a != b
    requires IndexOf(g.inputs, x.id) >= 0 && IndexOf(g.inputs, y.id) >= 0
    requires g.nodes[n].op == Op.MatMul(y.transposed) && g.nodes[n].inputs == [x.id, y.id]
    ensures Product(s, g, SpikeAndOnes(g, x.id, y.id, a, b), x, y, b, j, k) == if a < k then 1.0 else 0.0
    ensures Dot(s, g, SpikeAndOnes(g, x.id, y.id, a, b), n, b, j, k) == 0.0
  {
    hide Finished, Cell, SpikeAndOnes;
    if k > 0 {
      SpikeProducts(s, g, n, x, y, a, b, j, k - 1);
      SpikeCells(s, g, x.id, y.id, a, b, k - 1, b);
      SpikeCells(s, g, x.id, y.id, a, b, b, k - 1);
      SpikeCells(s, g, x.id, y.id, a, b, k - 1, j);
      SpikeCells(s, g, x.id, y.id, a, b, j, k - 1);
    }
  }

  /** A product of two inputs is recorded right exactly when the left one is no transposed view, or is a single element. */
  lemma ProductRightIff(g: Graph, n: NodeId, x: TracerTensor, y: TracerTensor)
    requires Finished(g) && n < |g.nodes| && x.Views(g.values) && y.id < |g.values| && g.nodes[n].output < |g.values|
    requires IndexOf(g.inputs, x.id) >= 0 && IndexOf(g.inputs, y.id) >= 0 && x.id != y.id
    requires x.shape.rows > 0 && x.shape.cols > 0 && y.shape.cols > 0
    requires g.nodes[n].op == Op.MatMul(y.transposed) && g.nodes[n].inputs == [x.id, y.id]
    ensures ProductRight(g, n, x, y) <==> !x.transposed || x.shape == Shape(1, 1)
  {
    hide Finished, Cell, SpikeAndOnes;
    if !x.transposed {
      forall s: Kinds, args: seq<Tensor>, i: nat, j: nat | |args| == |g.inputs| && i < x.shape.rows && j < y.shape.cols
        ensures ProductRightAt(s, g, args, n, x, y, i, j) {
        MatMulMeans(s, g, args, n, x, y, i, j);
      }
    } else if x.shape == Shape(1, 1) {
      forall s: Kinds, args: seq<Tensor>, i: nat, j: nat | |args| == |g.inputs| && i < x.shape.rows && j < y.shape.cols
        ensures ProductRightAt(s, g, args, n, x, y, i, j) {
        SingleElement(s, g, args, n, x, y, j);
      }
    } else {
      var (a, b) := if x.shape.rows > 1 then (0, 1) else (1, 0);
      var s, args := Identity(), SpikeAndOnes(g, x.id, y.id, a, b);
      CellOfNode(s, g, args, n, b, 0);
      SpikeProducts(s, g, n, x, y, a, b, 0, x.shape.cols);
      SpikeProducts(s, g, n, x, y, a, b, 0, g.values[x.id].shape.cols);
      assert !ProductRightAt(s, g, args, n, x, y, b, 0);
    }
  }

  lemma SingleElement(s: Kinds, g: Graph, args: seq<Tensor>, n: NodeId, x: TracerTensor, y: TracerTensor, j: nat)
    requires Finished(g) && n < |g.nodes| && x.Views(g.values) && y.id < |g.values| && x.transposed && x.shape == Shape(1, 1)
    requires g.nodes[n].op == Op.MatMul(y.transposed) && g.nodes[n].inputs == [x.id, y.id]
    ensures g.nodes[n].output < |g.values|
    ensures Cell(s, g, args, g.nodes[n].output, 0, j) == Product(s, g, args, x, y, 0, j, 1)
  {
    hide Finished, Cell;
    CellOfNode(s, g, args, n, 0, j);
    assert Dot(s, g, args, n, 0, j, 0) == 0.0 && Product(s, g, args, x, y, 0, j, 0) == 0.0;
  }
}
