/** The kernel that runs a matmul and applies the chain to its result, and the places the chain can be put at. */
module FamilyA {
  import opened Trace
  import opened FusionRegions
  import opened FusedChains
  import opened FusibleRegions
  import opened Operands
  import opened Grid

  /** A region Family A accepts: a matmul of graph inputs, not transposed, then elementwise nodes. */
  predicate Accepts(g: Graph, region: seq<NodeId>) {
    && region != [] && region[0] < |g.nodes| && g.nodes[region[0]].op == MatMul(false)
    && |g.nodes[region[0]].inputs| == 2
    && IndexOf(g.inputs, g.nodes[region[0]].inputs[0]) >= 0 && IndexOf(g.inputs, g.nodes[region[0]].inputs[1]) >= 0
  }

  /** The arguments have the shapes the graph declares. */
  ghost predicate Fitting(g: Graph, args: seq<Tensor>) {
    && |args| == |g.inputs|
    && forall k :: 0 <= k < |args| ==>
         && g.inputs[k] < |g.values|
         && Shape(args[k].rows, args[k].cols) == g.values[g.inputs[k]].shape
  }

  function ShapeOf(g: Graph, v: ValueId): Shape {
    if v < |g.values| then g.values[v].shape else Shape(0, 0)
  }

  lemma ArgumentShape(g: Graph, args: seq<Tensor>, v: ValueId)
    requires Fitting(g, args) && IndexOf(g.inputs, v) >= 0
    ensures var a := args[IndexOf(g.inputs, v)]; Shape(a.rows, a.cols) == ShapeOf(g, v)
  {
  }

  function Lhs(g: Graph, args: seq<Tensor>, region: seq<NodeId>): Tensor
    requires Accepts(g, region) && |args| == |g.inputs|
  {
    args[IndexOf(g.inputs, g.nodes[region[0]].inputs[0])]
  }

  function Rhs(g: Graph, args: seq<Tensor>, region: seq<NodeId>): Tensor
    requires Accepts(g, region) && |args| == |g.inputs|
  {
    args[IndexOf(g.inputs, g.nodes[region[0]].inputs[1])]
  }

  /** The matmul's inner dimension and the shape of its result, as declared. */
  function InnerOf(g: Graph, region: seq<NodeId>): nat
    requires Accepts(g, region)
  {
    ShapeOf(g, g.nodes[region[0]].inputs[0]).cols
  }

  function OutOf(g: Graph, region: seq<NodeId>): Shape
    requires Accepts(g, region)
  {
    var n := g.nodes[region[0]];
    Shape(ShapeOf(g, n.inputs[0]).rows, ShapeOf(g, n.inputs[1]).cols)
  }

  /** The inner dimensions agree and the result is declared with the product's shape. */
  predicate DimensionsAgree(g: Graph, region: seq<NodeId>)
    requires Accepts(g, region) && region[|region| - 1] < |g.nodes|
  {
    && InnerOf(g, region) == ShapeOf(g, g.nodes[region[0]].inputs[1]).rows
    && ShapeOf(g, g.nodes[region[|region| - 1]].output) == OutOf(g, region)
  }

  ghost predicate EpilogueAccepted(g: Graph, region: seq<NodeId>)
    requires Accepts(g, region) && (forall k :: 0 <= k < |region| ==> region[k] < |g.nodes|)
    requires forall v :: v in g.inputs ==> v < |g.values|
  {
    forall k :: 0 <= k < |region| - 1 ==> CanTranslate(g, region[k], region[k + 1], OutOf(g, region))
  }

  /** The checks before emission, then the chain. The output is the last node's. */
  method EmitFamilyA(g: Graph, region: seq<NodeId>) returns (t: Translation)
    requires Finished(g) && region != [] && Chain(g, region)
    ensures forall v :: v in g.inputs ==> v < |g.values|
    ensures t.Specs? <==> Accepts(g, region) && DimensionsAgree(g, region) && EpilogueAccepted(g, region)
    ensures t.Specs? ==> SpecsFor(g, region, t.specs)
  {
    InputsInRange(g);
    hide Finished, SpecsFor, CanTranslate;
    if !Accepts(g, region) {
      return Refused;
    }
    var n := g.nodes[region[0]];
    var lhs, rhs := ShapeOf(g, n.inputs[0]), ShapeOf(g, n.inputs[1]);
    if lhs.cols != rhs.rows {
      return Refused;
    }
    var out := ShapeOf(g, g.nodes[region[|region| - 1]].output);
    if out.rows != lhs.rows || out.cols != rhs.cols {
      return Refused;
    }
    t := TranslateChain(g, region, Shape(lhs.rows, rhs.cols));
  }

  /** Exactly the matmuls with an elementwise epilogue: the tracer's shapes are those the emitter asks for. */
  lemma AcceptedIsWithEpilogue(g: Graph, region: seq<NodeId>)
    requires Finished(g) && region != [] && Chain(g, region) && (forall v :: v in g.inputs ==> v < |g.values|)
    ensures WithEpilogue(g, region) <==> Accepts(g, region) && DimensionsAgree(g, region) && EpilogueAccepted(g, region)
  {
    hide Finished, Linked;
    NodeShape(g, region[0]);
    if Accepts(g, region) {
      var out := OutOf(g, region);
      assert out == ProductShape(g, region[0]);
      forall k | 0 <= k < |region| - 1 ensures CanTranslate(g, region[k], region[k + 1], out) <==> Glue(g, region[k], region[k + 1], out) {
        GlueTranslates(g, region, k, out);
      }
      if EpilogueAccepted(g, region) {
        ChainShape(g, region, out, |region| - 1);
      }
      assert AllGlue(g, region, |region|, out) <==> EpilogueAccepted(g, region) by {
        if AllGlue(g, region, |region|, out) {
          forall k | 0 <= k < |region| - 1 ensures CanTranslate(g, region[k], region[k + 1], out) {
            assert Glue(g, region[k + 1 - 1], region[k + 1], out);
          }
        }
        if EpilogueAccepted(g, region) {
          forall k | 1 <= k < |region| ensures Glue(g, region[k - 1], region[k], out) {
            assert CanTranslate(g, region[k - 1], region[k - 1 + 1], out);
          }
        }
      }
    }
  }

  lemma GlueTranslates(g: Graph, chain: seq<NodeId>, k: nat, shape: Shape)
    requires Finished(g) && Chain(g, chain) && k < |chain| - 1 && (forall v :: v in g.inputs ==> v < |g.values|)
    ensures CanTranslate(g, chain[k], chain[k + 1], shape) <==> Glue(g, chain[k], chain[k + 1], shape)
  {
    hide Finished, Count;
    assert Linked(g, chain[k], chain[k + 1]);
    UsedOnce(g, chain[k], chain[k + 1]);
    if g.nodes[chain[k + 1]].op.Elementwise? {
      TracedKind(g, chain[k + 1]);
    }
  }

  /** Family A only accepts what discovery calls a matmul with an elementwise epilogue. */
  lemma AcceptedPattern(g: Graph, region: seq<NodeId>)
    requires Finished(g) && Candidate(g, region) && Accepts(g, region)
    requires (forall k :: 0 <= k < |region| ==> region[k] < |g.nodes|) && (forall v :: v in g.inputs ==> v < |g.values|)
    requires EpilogueAccepted(g, region)
    ensures Classify(g, region) == MatMulElementwise
  {
    hide Classify, Finished;
    PatternIs(g, region);
    if |region| > 1 {
      assert CanTranslate(g, region[|region| - 2], region[|region| - 2 + 1], OutOf(g, region));
    }
  }

  /** Nothing but the last node's output leaves a region: the others are neither outputs nor used outside. */
  lemma OnlyLastLeaves(g: Graph, region: seq<NodeId>, k: nat, m: NodeId)
    requires Finished(g) && Chain(g, region) && k < |region| - 1
    requires m < |g.nodes| && g.nodes[region[k]].output in g.nodes[m].inputs
    ensures m == region[k + 1] && g.nodes[region[k]].output !in g.outputs
  {
    assert Linked(g, region[k], region[k + 1]);
    SingleUse(g.nodes, g.nodes[region[k]].output, region[k + 1]);
  }

  function Terms(a: Tensor, b: Tensor, i: nat, j: nat, k: nat): real {
    if k == 0 then 0.0 else Terms(a, b, i, j, k - 1) + a.at(i, k - 1) * b.at(k - 1, j)
  }

  /** linalg.matmul: C += A * B. */
  method MatMulInto(a: Tensor, b: Tensor, out: array2<real>)
    requires a.cols == b.rows && out.Length0 == a.rows && out.Length1 == b.cols
    modifies out
    ensures forall i, j :: 0 <= i < out.Length0 && 0 <= j < out.Length1 ==>
              out[i, j] == old(out[i, j]) + Terms(a, b, i, j, a.cols)
  {
    for i := 0 to out.Length0
      invariant forall r, c :: 0 <= r < out.Length0 && 0 <= c < out.Length1 ==>
                  out[r, c] == old(out[r, c]) + if r < i then Terms(a, b, r, c, a.cols) else 0.0
    {
      for j := 0 to out.Length1
        invariant forall r, c :: 0 <= r < out.Length0 && 0 <= c < out.Length1 ==>
                    out[r, c] == old(out[r, c])
                                 + if r < i || (r == i && c < j) then Terms(a, b, r, c, a.cols) else 0.0
      {
        for k := 0 to a.cols
          invariant out[i, j] == old(out[i, j]) + Terms(a, b, i, j, k)
          invariant forall r, c :: 0 <= r < out.Length0 && 0 <= c < out.Length1 && (r != i || c != j) ==>
                      out[r, c] == old(out[r, c])
                                   + if r < i || (r == i && c < j) then Terms(a, b, r, c, a.cols) else 0.0
        {
          out[i, j] := out[i, j] + Load(a, i, k) * Load(b, k, j);
        }
      }
    }
  }

  lemma {:induction false} TermsAreDot(s: Kinds, g: Graph, args: seq<Tensor>, n: NodeId, i: nat, j: nat, k: nat)
    requires Finished(g) && |args| == |g.inputs| && n < |g.nodes| && g.nodes[n].op == MatMul(false)
    requires |g.nodes[n].inputs| == 2
    requires IndexOf(g.inputs, g.nodes[n].inputs[0]) >= 0 && IndexOf(g.inputs, g.nodes[n].inputs[1]) >= 0
    ensures Terms(args[IndexOf(g.inputs, g.nodes[n].inputs[0])], args[IndexOf(g.inputs, g.nodes[n].inputs[1])], i, j, k)
         == Dot(s, g, args, n, i, j, k)
  {
    hide Cell, Finished;
    if k > 0 {
      TermsAreDot(s, g, args, n, i, j, k - 1);
      CellOfInput(s, g, args, g.nodes[n].inputs[0], i, k - 1);
      CellOfInput(s, g, args, g.nodes[n].inputs[1], k - 1, j);
    }
  }

  const EPILOGUE_THREADS := 256

  /** The separate epilogue launch: one thread per element loads it, applies the whole chain and stores it. */
  method FallbackEpilogue(s: Kinds, args: seq<Tensor>, specs: seq<Spec>, out: array2<real>)
    modifies out
    ensures forall i, j :: 0 <= i < out.Length0 && 0 <= j < out.Length1 ==>
              out[i, j] == Apply(s, args, specs, old(out[i, j]), i, j)
  {
    var total := out.Length0 * out.Length1;
    var grid := CeilDiv(total, EPILOGUE_THREADS);
    for block := 0 to grid
      invariant forall i, j :: 0 <= i < out.Length0 && 0 <= j < out.Length1 ==>
                  out[i, j] == After(s, args, specs, old(out[i, j]), i, j, out.Length1, block * EPILOGUE_THREADS)
    {
      for thread := 0 to EPILOGUE_THREADS
        invariant forall i, j :: 0 <= i < out.Length0 && 0 <= j < out.Length1 ==>
                    out[i, j] == After(s, args, specs, old(out[i, j]), i, j, out.Length1, block * EPILOGUE_THREADS + thread)
      {
        var idx := block * EPILOGUE_THREADS + thread;
        forall i, j | 0 <= i < out.Length0 && 0 <= j < out.Length1 && Flat(i, j, out.Length1) == idx
          ensures idx < total && i == idx / out.Length1 && j == idx % out.Length1 {
          FlatSplits(i, j, out.Length1);
          FlatBound(i, j, out.Length1, out.Length0);
        }
        if idx < total {
          FlatUnsplit(idx, out.Length1, out.Length0);
          var row, col := idx / out.Length1, idx % out.Length1;
          out[row, col] := Apply(s, args, specs, out[row, col], row, col);
        }
      }
    }
    forall i, j | 0 <= i < out.Length0 && 0 <= j < out.Length1 ensures Flat(i, j, out.Length1) < grid * EPILOGUE_THREADS {
      FlatBound(i, j, out.Length1, out.Length0);
    }
  }

  /** An element once the first n elements, row by row, have been handled. */
  function After(s: Kinds, args: seq<Tensor>, specs: seq<Spec>, x: real, i: nat, j: nat, cols: nat, n: nat): real {
    if Flat(i, j, cols) < n then Apply(s, args, specs, x, i, j) else x
  }

  /** A whole fused call with the fallback strategy: zeroed output, matmul, epilogue. The output is the last node of
      the region, evaluated node by node. */
  method FusedCall(s: Kinds, g: Graph, args: seq<Tensor>, region: seq<NodeId>, specs: seq<Spec>, out: array2<real>)
    requires Translated(g, region, specs) && DimensionsAgree(g, region) && Fitting(g, args)
    requires Shape(out.Length0, out.Length1) == OutOf(g, region)
    modifies out
    ensures forall i, j :: 0 <= i < out.Length0 && 0 <= j < out.Length1 ==>
              out[i, j] == ResultCell(s, g, args, region, specs, i, j)
  {
    hide Cell, Finished, Apply, Terms, SpecsFor;
    ChainInRange(g, region, specs);
    OperandsFit(g, args, region);
    ZeroOutput(out);
    MatMulInto(Lhs(g, args, region), Rhs(g, args, region), out);
    FallbackEpilogue(s, args, specs, out);
    forall i: nat, j: nat | i < out.Length0 && j < out.Length1
      ensures out[i, j] == ResultCell(s, g, args, region, specs, i, j) {
      FusedCell(s, g, args, region, specs, i, j);
    }
  }

  lemma ChainInRange(g: Graph, region: seq<NodeId>, specs: seq<Spec>)
    requires SpecsFor(g, region, specs)
    ensures |specs| == |region| - 1 && forall k :: 0 <= k < |region| ==> region[k] < |g.nodes|
  {
  }

  /** The arguments have the shapes the emitter checked. */
  lemma OperandsFit(g: Graph, args: seq<Tensor>, region: seq<NodeId>)
    requires Accepts(g, region) && region[|region| - 1] < |g.nodes| && DimensionsAgree(g, region) && Fitting(g, args)
    ensures var a, b := Lhs(g, args, region), Rhs(g, args, region);
            a.cols == b.rows == InnerOf(g, region) && Shape(a.rows, b.cols) == OutOf(g, region)
  {
    ArgumentShape(g, args, g.nodes[region[0]].inputs[0]);
    ArgumentShape(g, args, g.nodes[region[0]].inputs[1]);
  }

  method ZeroOutput(out: array2<real>)
    modifies out
    ensures forall i, j :: 0 <= i < out.Length0 && 0 <= j < out.Length1 ==> out[i, j] == 0.0
  {
    forall i, j | 0 <= i < out.Length0 && 0 <= j < out.Length1 {
      out[i, j] := 0.0;
    }
  }

  /** A region with its translated chain. */
  ghost predicate Translated(g: Graph, region: seq<NodeId>, specs: seq<Spec>) {
    Finished(g) && Accepts(g, region) && SpecsFor(g, region, specs)
  }

  /** Element (i, j) of the region's result, node by node. */
  ghost function ResultCell(s: Kinds, g: Graph, args: seq<Tensor>, region: seq<NodeId>, specs: seq<Spec>,
                            i: nat, j: nat): real
    requires Translated(g, region, specs)
  {
    FirstOutput(g, region[|specs|]);
    Cell(s, g, args, g.nodes[region[|specs|]].output, i, j)
  }

  /** Element (i, j) of the region's matmul. */
  function MatMulCell(g: Graph, args: seq<Tensor>, region: seq<NodeId>, i: nat, j: nat): real
    requires Accepts(g, region) && |args| == |g.inputs|
  {
    Terms(Lhs(g, args, region), Rhs(g, args, region), i, j, Lhs(g, args, region).cols)
  }

  /** The chain applied to the matmul's terms is the last node's element. */
  lemma FusedCell(s: Kinds, g: Graph, args: seq<Tensor>, region: seq<NodeId>, specs: seq<Spec>, i: nat, j: nat)
    requires Finished(g) && Accepts(g, region) && Fitting(g, args) && SpecsFor(g, region, specs)
    ensures g.nodes[region[|specs|]].output < |g.values|
    ensures Apply(s, args, specs, MatMulCell(g, args, region, i, j), i, j)
         == Cell(s, g, args, g.nodes[region[|specs|]].output, i, j)
  {
    var r := region[0];
    TermsAreDot(s, g, args, r, i, j, Lhs(g, args, region).cols);
    CellOfNode(s, g, args, r, i, j);
    ChainMeans(s, g, args, region, specs, i, j);
  }
}
