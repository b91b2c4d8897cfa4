/** The kernel for matmul, elementwise glue, matmul: it computes the middle values afresh for every output element. */
module FamilyB {
  import opened Trace
  import opened FusionRegions
  import opened FusedChains
  import opened FusibleRegions
  import opened Operands
  import opened Grid
  import FamilyA

  /** What the kernel works on: operands a, b and w, and the glue between the matmuls. */
  datatype Kernel = Kernel(s: Kinds, args: seq<Tensor>, specs: seq<Spec>, a: Operand, b: Operand, w: Operand)
  {
    predicate Valid() {
      a.Cols() == b.Rows() && b.Cols() == w.Rows()
    }

    function Inner(i: nat, n: nat, k: nat): real {
      if k == 0 then 0.0 else Inner(i, n, k - 1) + a.At(i, k - 1) * b.At(k - 1, n)
    }

    /** Middle element (i, n), after the glue. */
    function Middle(i: nat, n: nat): real {
      Apply(s, args, specs, Inner(i, n, a.Cols()), i, n)
    }

    function Outer(i: nat, j: nat, n: nat): real {
      if n == 0 then 0.0 else Outer(i, j, n - 1) + Middle(i, n - 1) * w.At(n - 1, j)
    }

    function Element(i: nat, j: nat): real { Outer(i, j, b.Cols()) }
  }

  /** One element: the outer loop over the middle dimension, the inner one over the first matmul's. */
  method ComputeElement(p: Kernel, i: nat, j: nat) returns (outer: real)
    requires p.Valid() && i < p.a.Rows() && j < p.w.Cols()
    ensures outer == p.Element(i, j)
  {
    outer := 0.0;
    for n := 0 to p.b.Cols()
      invariant outer == p.Outer(i, j, n)
    {
      var inner := 0.0;
      for k := 0 to p.a.Cols()
        invariant inner == p.Inner(i, n, k)
      {
        inner := inner + p.a.LoadAt(i, k) * p.b.LoadAt(k, n);
      }
      var transformed := Apply(p.s, p.args, p.specs, inner, i, n);
      outer := outer + transformed * p.w.LoadAt(n, j);
    }
  }

  const BR := 16
  const BLOCK := 256

  /** One block: its threads cover a 16 by 16 tile of the output. */
  method RunBlock(p: Kernel, bidM: nat, bidN: nat, out: array2<real>)
    requires p.Valid() && out.Length0 == p.a.Rows() && out.Length1 == p.w.Cols()
    modifies out
    ensures forall i, j :: 0 <= i < out.Length0 && 0 <= j < out.Length1 ==>
              out[i, j] == if InTile(bidM, bidN, i, j) then p.Element(i, j) else old(out[i, j])
  {
    for tid := 0 to BLOCK
      invariant forall i, j :: 0 <= i < out.Length0 && 0 <= j < out.Length1 ==>
                  out[i, j] == if InTile(bidM, bidN, i, j) && Flat(i - bidM * BR, j - bidN * BR, BR) < tid
                               then p.Element(i, j) else old(out[i, j])
    {
      var elem := tid;
      while elem < BR * BR
        invariant elem == tid || elem == tid + BLOCK
        invariant forall i, j :: 0 <= i < out.Length0 && 0 <= j < out.Length1 ==>
                    out[i, j] == if InTile(bidM, bidN, i, j)
                                    && Flat(i - bidM * BR, j - bidN * BR, BR) < (if elem == tid then tid else tid + 1)
                                 then p.Element(i, j) else old(out[i, j])
      {
        var row, col := bidM * BR + elem / BR, bidN * BR + elem % BR;
        if row < p.a.Rows() && col < p.w.Cols() {
          var value := ComputeElement(p, row, col);
          out[row, col] := value;
        }
        elem := elem + BLOCK;
      }
    }
  }

  predicate InTile(bidM: nat, bidN: nat, i: int, j: int) {
    bidM * BR <= i < bidM * BR + BR && bidN * BR <= j < bidN * BR + BR
  }

  method Launch(p: Kernel, out: array2<real>)
    requires p.Valid() && out.Length0 == p.a.Rows() && out.Length1 == p.w.Cols()
    modifies out
    ensures forall i, j :: 0 <= i < out.Length0 && 0 <= j < out.Length1 ==> out[i, j] == p.Element(i, j)
  {
    for bm := 0 to CeilDiv(out.Length0, BR)
      invariant forall i, j :: 0 <= i < out.Length0 && 0 <= j < out.Length1 && i < bm * BR ==> out[i, j] == p.Element(i, j)
    {
      for bn := 0 to CeilDiv(out.Length1, BR)
        invariant forall i, j :: 0 <= i < out.Length0 && 0 <= j < out.Length1 ==>
                    (i < bm * BR || (i < bm * BR + BR && j < bn * BR) ==> out[i, j] == p.Element(i, j))
      {
        RunBlock(p, bm, bn, out);
      }
    }
  }

  // ---- the graph it stands for --------------------------------------------

  /** A region Family B accepts: the first node a matmul of graph inputs, the last one a matmul whose left operand is
      the glue's result and whose right one is a graph input. */
  predicate Accepts(g: Graph, region: seq<NodeId>) {
    && |region| >= 2 && (forall k :: 0 <= k < |region| ==> region[k] < |g.nodes|)
    && var first, last, before := g.nodes[region[0]], g.nodes[region[|region| - 1]], g.nodes[region[|region| - 2]];
       && first.op.MatMul? && last.op.MatMul? && |first.inputs| == 2 && |last.inputs| == 2
       && IndexOf(g.inputs, first.inputs[0]) >= 0 && IndexOf(g.inputs, first.inputs[1]) >= 0
       && IndexOf(g.inputs, last.inputs[1]) >= 0 && last.inputs[0] == before.output
  }

  /** A right operand's shape as it is used. */
  function UsedShape(g: Graph, v: ValueId, transposed: bool): Shape {
    var s := FamilyA.ShapeOf(g, v);
    if transposed then Shape(s.cols, s.rows) else s
  }

  function ShapeA(g: Graph, region: seq<NodeId>): Shape
    requires Accepts(g, region)
  {
    FamilyA.ShapeOf(g, g.nodes[region[0]].inputs[0])
  }

  function ShapeB(g: Graph, region: seq<NodeId>): Shape
    requires Accepts(g, region)
  {
    UsedShape(g, g.nodes[region[0]].inputs[1], g.nodes[region[0]].op.transposeRhs)
  }

  /** What the second matmul takes from the glue, as the tracer declared it. */
  function MiddleShape(g: Graph, region: seq<NodeId>): Shape
    requires Accepts(g, region)
  {
    FamilyA.ShapeOf(g, g.nodes[region[|region| - 1]].inputs[0])
  }

  function ShapeW(g: Graph, region: seq<NodeId>): Shape
    requires Accepts(g, region)
  {
    var last := g.nodes[region[|region| - 1]];
    UsedShape(g, last.inputs[1], last.op.transposeRhs)
  }

  function OutShape(g: Graph, region: seq<NodeId>): Shape
    requires Accepts(g, region)
  {
    Shape(ShapeA(g, region).rows, ShapeW(g, region).cols)
  }

  /** The inner dimensions agree, the middle is the first matmul's result and the result is declared as the second's. */
  predicate DimensionsAgree(g: Graph, region: seq<NodeId>)
    requires Accepts(g, region)
  {
    && ShapeA(g, region).cols == ShapeB(g, region).rows
    && MiddleShape(g, region) == Shape(ShapeA(g, region).rows, ShapeB(g, region).cols)
    && MiddleShape(g, region).cols == ShapeW(g, region).rows
    && FamilyA.ShapeOf(g, g.nodes[region[|region| - 1]].output) == OutShape(g, region)
  }

  /** The glue can be translated, and a glue node with one operand is of a unary kind. */
  ghost predicate GlueAccepted(g: Graph, region: seq<NodeId>)
    requires Accepts(g, region) && forall v :: v in g.inputs ==> v < |g.values|
  {
    forall k :: 0 <= k < |region| - 2 ==> GlueNodeAccepted(g, region, k)
  }

  ghost predicate GlueNodeAccepted(g: Graph, region: seq<NodeId>, k: nat)
    requires k < |region| - 2 && Accepts(g, region) && forall v :: v in g.inputs ==> v < |g.values|
  {
    var n := g.nodes[region[k + 1]];
    && CanTranslate(g, region[k], region[k + 1], Shape(ShapeA(g, region).rows, ShapeB(g, region).cols))
    && (|n.inputs| == 1 ==> IsUnaryKind(n.op.element))
  }

  /** Exactly matmul, elementwise glue, matmul: the tracer's shapes are those the emitter asks for, and no traced node
      fails the check of kinds. */
  lemma AcceptedIsWithGlue(g: Graph, region: seq<NodeId>)
    requires Finished(g) && region != [] && Chain(g, region) && (forall v :: v in g.inputs ==> v < |g.values|)
    ensures WithGlue(g, region) <==> Accepts(g, region) && DimensionsAgree(g, region) && GlueAccepted(g, region)
  {
    hide Finished, Linked;
    if Accepts(g, region) {
      var glue, shape := region[..|region| - 1], ProductShape(g, region[0]);
      PrefixChain(g, region);
      NodeShape(g, region[0]);
      NodeShape(g, region[|region| - 1]);
      forall k: nat | k < |region| - 2
        ensures GlueNodeAccepted(g, region, k) <==> Glue(g, region[k], region[k + 1], shape) {
        FamilyA.GlueTranslates(g, region, k, shape);
        if g.nodes[region[k + 1]].op.Elementwise? {
          TracedKind(g, region[k + 1]);
        }
      }
      if GlueAccepted(g, region) {
        forall k | 0 <= k < |glue| - 1 ensures CanTranslate(g, glue[k], glue[k + 1], shape) {
          assert GlueNodeAccepted(g, region, k);
        }
        ChainShape(g, glue, shape, |glue| - 1);
      }
      GlueBothWays(g, region, shape);
    }
  }

  lemma GlueBothWays(g: Graph, region: seq<NodeId>, shape: Shape)
    requires Accepts(g, region) && forall v :: v in g.inputs ==> v < |g.values|
    requires forall k: nat :: k < |region| - 2 ==>
               (GlueNodeAccepted(g, region, k) <==> Glue(g, region[k], region[k + 1], shape))
    ensures AllGlue(g, region, |region| - 1, shape) <==> GlueAccepted(g, region)
  {
    hide Glue, GlueNodeAccepted;
    if AllGlue(g, region, |region| - 1, shape) {
      forall k: nat | k < |region| - 2 ensures GlueNodeAccepted(g, region, k) {
        assert Glue(g, region[k + 1 - 1], region[k + 1], shape);
      }
    }
    if GlueAccepted(g, region) {
      forall k | 1 <= k < |region| - 1 ensures Glue(g, region[k - 1], region[k], shape) {
        assert GlueNodeAccepted(g, region, k - 1);
      }
    }
  }

  /** Family B only accepts what discovery calls matmul, elementwise glue, matmul. */
  lemma AcceptedPattern(g: Graph, region: seq<NodeId>)
    requires Finished(g) && Candidate(g, region) && Accepts(g, region) && (forall v :: v in g.inputs ==> v < |g.values|)
    requires GlueAccepted(g, region)
    ensures Classify(g, region) == MatMulElementwiseMatMul
  {
    hide Classify, Finished;
    PatternIs(g, region);
    forall k | 0 <= k < |region| ensures !g.nodes[region[k]].op.Softmax? {
      if 0 < k < |region| - 1 {
        assert GlueNodeAccepted(g, region, k - 1);
      }
    }
  }

  /** The emitter's checks, then the glue chain. */
  method EmitFamilyB(g: Graph, region: seq<NodeId>) returns (t: Translation)
    requires Finished(g) && region != [] && Chain(g, region)
    ensures forall v :: v in g.inputs ==> v < |g.values|
    ensures t.Specs? <==> Accepts(g, region) && DimensionsAgree(g, region) && GlueAccepted(g, region)
    ensures t.Specs? ==> SpecsFor(g, region[..|region| - 1], t.specs)
  {
    InputsInRange(g);
    hide Finished, Chain, SpecsFor, CanTranslate;
    if !Accepts(g, region) {
      return Refused;
    }
    var first, last := g.nodes[region[0]], g.nodes[region[|region| - 1]];
    var a, b := FamilyA.ShapeOf(g, first.inputs[0]), FamilyA.ShapeOf(g, first.inputs[1]);
    var middle, w := FamilyA.ShapeOf(g, last.inputs[0]), FamilyA.ShapeOf(g, last.inputs[1]);
    var (bRows, bCols) := if first.op.transposeRhs then (b.cols, b.rows) else (b.rows, b.cols);
    if a.cols != bRows {
      return Refused;
    }
    var (wRows, wCols) := if last.op.transposeRhs then (w.cols, w.rows) else (w.rows, w.cols);
    if middle.rows != a.rows || middle.cols != bCols || middle.cols != wRows {
      return Refused;
    }
    var out := FamilyA.ShapeOf(g, last.output);
    if out.rows != a.rows || out.cols != wCols {
      return Refused;
    }
    t := TranslateGlue(g, region, Shape(a.rows, bCols));
  }

  /** The glue chain; a node with one operand has to be of a unary kind. */
  method TranslateGlue(g: Graph, region: seq<NodeId>, shape: Shape) returns (t: Translation)
    requires Finished(g) && Accepts(g, region) && Chain(g, region)
    requires shape == Shape(ShapeA(g, region).rows, ShapeB(g, region).cols)
    ensures forall v :: v in g.inputs ==> v < |g.values|
    ensures t.Specs? <==> GlueAccepted(g, region)
    ensures t.Specs? ==> SpecsFor(g, region[..|region| - 1], t.specs)
  {
    InputsInRange(g);
    hide Finished, Chain, SpecsFor, CanTranslate;
    PrefixChain(g, region);
    t := TranslateChain(g, region[..|region| - 1], shape);
    PrefixTranslates(g, region, shape);
    if t.Refused? {
      NotTranslated(g, region, shape);
      return;
    }
    SpecKinds(g, region, t.specs);
    GlueIsUnary(g, region, t.specs);
    if exists k :: 0 <= k < |t.specs| && t.specs[k].arg < 0 && !IsUnaryKind(t.specs[k].element) {
      return Refused;
    }
  }

  lemma NotTranslated(g: Graph, region: seq<NodeId>, shape: Shape)
    requires Accepts(g, region) && (forall v :: v in g.inputs ==> v < |g.values|)
    requires shape == Shape(ShapeA(g, region).rows, ShapeB(g, region).cols)
    requires exists k :: 0 <= k < |region| - 2 && !CanTranslate(g, region[k], region[k + 1], shape)
    ensures !GlueAccepted(g, region)
  {
    hide CanTranslate;
    var k :| 0 <= k < |region| - 2 && !CanTranslate(g, region[k], region[k + 1], shape);
    assert !GlueNodeAccepted(g, region, k);
  }

  lemma GlueIsUnary(g: Graph, region: seq<NodeId>, specs: seq<Spec>)
    requires Accepts(g, region) && (forall v :: v in g.inputs ==> v < |g.values|) && |specs| == |region| - 2
    requires forall k :: 0 <= k < |region| - 2 ==>
               CanTranslate(g, region[k], region[k + 1], Shape(ShapeA(g, region).rows, ShapeB(g, region).cols))
    requires forall k :: 0 <= k < |specs| ==>
               && g.nodes[region[k + 1]].op == Elementwise(specs[k].element)
               && (specs[k].arg < 0 <==> |g.nodes[region[k + 1]].inputs| == 1)
    ensures GlueAccepted(g, region) <==> forall k :: 0 <= k < |specs| && specs[k].arg < 0 ==> IsUnaryKind(specs[k].element)
  {
    hide CanTranslate;
    forall k: nat | k < |specs|
      ensures GlueNodeAccepted(g, region, k) <==> (specs[k].arg < 0 ==> IsUnaryKind(specs[k].element)) {
    }
  }

  lemma PrefixTranslates(g: Graph, region: seq<NodeId>, shape: Shape)
    requires |region| >= 2 && (forall k :: 0 <= k < |region| ==> region[k] < |g.nodes|)
    requires forall v :: v in g.inputs ==> v < |g.values|
    ensures var glue := region[..|region| - 1];
            (forall k :: 0 <= k < |glue| - 1 ==> CanTranslate(g, glue[k], glue[k + 1], shape))
            <==> forall k :: 0 <= k < |region| - 2 ==> CanTranslate(g, region[k], region[k + 1], shape)
  {
    hide CanTranslate;
    var glue := region[..|region| - 1];
    forall k | 0 <= k < |region| - 2
      ensures CanTranslate(g, glue[k], glue[k + 1], shape) == CanTranslate(g, region[k], region[k + 1], shape) {
      assert glue[k] == region[k] && glue[k + 1] == region[k + 1];
    }
  }

  /** A spec without another operand is that of a node with one input, of the same kind. */
  lemma SpecKinds(g: Graph, region: seq<NodeId>, specs: seq<Spec>)
    requires |region| >= 2 && SpecsFor(g, region[..|region| - 1], specs)
    ensures |specs| == |region| - 2
    ensures forall k :: 0 <= k < |specs| ==>
              && region[k + 1] < |g.nodes| && g.nodes[region[k + 1]].op == Elementwise(specs[k].element)
              && (specs[k].arg < 0 <==> |g.nodes[region[k + 1]].inputs| == 1)
  {
    var glue := region[..|region| - 1];
    forall k | 0 <= k < |specs|
      ensures && region[k + 1] < |g.nodes| && g.nodes[region[k + 1]].op == Elementwise(specs[k].element)
              && (specs[k].arg < 0 <==> |g.nodes[region[k + 1]].inputs| == 1) {
      assert SpecFor(g, glue[k], glue[k + 1], specs[k]);
    }
  }

  lemma PrefixChain(g: Graph, region: seq<NodeId>)
    requires region != [] && Chain(g, region)
    ensures Chain(g, region[..|region| - 1])
  {
    hide Linked;
    var before := region[..|region| - 1];
    forall k | 0 <= k < |before| - 1 ensures Linked(g, before[k], before[k + 1]) {
      assert Linked(g, region[k], region[k + 1]);
    }
  }

  function KernelFor(s: Kinds, g: Graph, args: seq<Tensor>, region: seq<NodeId>, specs: seq<Spec>): Kernel
    requires Accepts(g, region) && |args| == |g.inputs|
  {
    var first, last := g.nodes[region[0]], g.nodes[region[|region| - 1]];
    Kernel(s, args, specs, Operand(args[IndexOf(g.inputs, first.inputs[0])], false),
           Operand(args[IndexOf(g.inputs, first.inputs[1])], first.op.transposeRhs),
           Operand(args[IndexOf(g.inputs, last.inputs[1])], last.op.transposeRhs))
  }

  lemma {:induction false} InnerIsDot(s: Kinds, g: Graph, args: seq<Tensor>, region: seq<NodeId>, specs: seq<Spec>,
                                      i: nat, n: nat, k: nat)
    requires Finished(g) && Accepts(g, region) && |args| == |g.inputs|
    ensures KernelFor(s, g, args, region, specs).Inner(i, n, k) == Dot(s, g, args, region[0], i, n, k)
  {
    hide Cell, Finished;
    if k > 0 {
      InnerIsDot(s, g, args, region, specs, i, n, k - 1);
      var first := g.nodes[region[0]];
      CellOfInput(s, g, args, first.inputs[0], i, k - 1);
      if first.op.transposeRhs {
        CellOfInput(s, g, args, first.inputs[1], n, k - 1);
      } else {
        CellOfInput(s, g, args, first.inputs[1], k - 1, n);
      }
    }
  }

  lemma MiddleIsCell(s: Kinds, g: Graph, args: seq<Tensor>, region: seq<NodeId>, specs: seq<Spec>, i: nat, n: nat)
    requires Finished(g) && Accepts(g, region) && FamilyA.Fitting(g, args)
    requires SpecsFor(g, region[..|region| - 1], specs)
    ensures g.nodes[region[|region| - 2]].output < |g.values|
    ensures KernelFor(s, g, args, region, specs).Middle(i, n) == Cell(s, g, args, g.nodes[region[|region| - 2]].output, i, n)
  {
    hide Cell, Finished;
    var p := KernelFor(s, g, args, region, specs);
    InnerIsDot(s, g, args, region, specs, i, n, p.a.Cols());
    CellOfNode(s, g, args, region[0], i, n);
    ChainMeans(s, g, args, region[..|region| - 1], specs, i, n);
  }

  lemma {:induction false} OuterIsDot(s: Kinds, g: Graph, args: seq<Tensor>, region: seq<NodeId>, specs: seq<Spec>,
                                      i: nat, j: nat, n: nat)
    requires Finished(g) && Accepts(g, region) && FamilyA.Fitting(g, args)
    requires SpecsFor(g, region[..|region| - 1], specs)
    ensures KernelFor(s, g, args, region, specs).Outer(i, j, n) == Dot(s, g, args, region[|region| - 1], i, j, n)
  {
    hide Cell, Finished, Apply;
    if n > 0 {
      OuterIsDot(s, g, args, region, specs, i, j, n - 1);
      MiddleIsCell(s, g, args, region, specs, i, n - 1);
      var last := g.nodes[region[|region| - 1]];
      if last.op.transposeRhs {
        CellOfInput(s, g, args, last.inputs[1], j, n - 1);
      } else {
        CellOfInput(s, g, args, last.inputs[1], n - 1, j);
      }
    }
  }

  /** The arguments have the shapes the emitter checked. */
  lemma KernelFits(s: Kinds, g: Graph, args: seq<Tensor>, region: seq<NodeId>, specs: seq<Spec>)
    requires Accepts(g, region) && DimensionsAgree(g, region) && FamilyA.Fitting(g, args)
    ensures var p := KernelFor(s, g, args, region, specs);
            && p.Valid() && p.b.Cols() == MiddleShape(g, region).cols
            && Shape(p.a.Rows(), p.w.Cols()) == OutShape(g, region)
  {
    FamilyA.ArgumentShape(g, args, g.nodes[region[0]].inputs[0]);
    FamilyA.ArgumentShape(g, args, g.nodes[region[0]].inputs[1]);
    FamilyA.ArgumentShape(g, args, g.nodes[region[|region| - 1]].inputs[1]);
  }

  /** The kernel's element is the last node's, evaluated node by node. */
  lemma ElementIsCell(s: Kinds, g: Graph, args: seq<Tensor>, region: seq<NodeId>, specs: seq<Spec>, i: nat, j: nat)
    requires Finished(g) && Accepts(g, region) && DimensionsAgree(g, region) && FamilyA.Fitting(g, args)
    requires SpecsFor(g, region[..|region| - 1], specs)
    ensures g.nodes[region[|region| - 1]].output < |g.values|
    ensures KernelFor(s, g, args, region, specs).Element(i, j)
         == Cell(s, g, args, g.nodes[region[|region| - 1]].output, i, j)
  {
    hide Cell, Apply, SpecsFor;
    var last := region[|region| - 1];
    KernelFits(s, g, args, region, specs);
    OuterIsDot(s, g, args, region, specs, i, j, KernelFor(s, g, args, region, specs).b.Cols());
    CellOfNode(s, g, args, last, i, j);
  }

  /** A whole fused call. */
  method FusedCall(s: Kinds, g: Graph, args: seq<Tensor>, region: seq<NodeId>, specs: seq<Spec>, out: array2<real>)
    requires Finished(g) && Accepts(g, region) && DimensionsAgree(g, region) && FamilyA.Fitting(g, args)
    requires SpecsFor(g, region[..|region| - 1], specs) && Shape(out.Length0, out.Length1) == OutShape(g, region)
    modifies out
    ensures g.nodes[region[|region| - 1]].output < |g.values|
    ensures forall i, j :: 0 <= i < out.Length0 && 0 <= j < out.Length1 ==>
              out[i, j] == Cell(s, g, args, g.nodes[region[|region| - 1]].output, i, j)
  {
    hide Cell, Finished, Apply, SpecsFor;
    FirstOutput(g, region[|region| - 1]);
    KernelFits(s, g, args, region, specs);
    Launch(KernelFor(s, g, args, region, specs), out);
    forall i: nat, j: nat | i < out.Length0 && j < out.Length1
      ensures out[i, j] == Cell(s, g, args, g.nodes[region[|region| - 1]].output, i, j) {
      ElementIsCell(s, g, args, region, specs, i, j);
    }
  }

  /** Emission and call for any discovered region: it is taken exactly when it is matmul, elementwise glue, matmul with
      agreeing dimensions, and then the output is the last node's value, evaluated node by node. */
  method EmitAndCall(s: Kinds, g: Graph, args: seq<Tensor>, region: seq<NodeId>, out: array2<real>)
    returns (taken: bool)
    requires Finished(g) && Candidate(g, region) && FamilyA.Fitting(g, args)
    requires Accepts(g, region) ==> Shape(out.Length0, out.Length1) == OutShape(g, region)
    modifies out
    ensures taken <==> WithGlue(g, region)
    ensures !taken ==> forall i, j :: 0 <= i < out.Length0 && 0 <= j < out.Length1 ==> out[i, j] == old(out[i, j])
    ensures taken ==> g.nodes[region[|region| - 1]].output < |g.values|
                      && forall i, j :: 0 <= i < out.Length0 && 0 <= j < out.Length1 ==>
                           out[i, j] == Cell(s, g, args, g.nodes[region[|region| - 1]].output, i, j)
  {
    hide Cell, Finished, SpecsFor, Chain, DimensionsAgree, Accepts, GlueAccepted, WithGlue;
    CandidateIsChain(g, region);
    InputsInRange(g);
    AcceptedIsWithGlue(g, region);
    var t := EmitFamilyB(g, region);
    if t.Refused? {
      return false;
    }
    FusedCall(s, g, args, region, t.specs, out);
    return true;
  }
}
