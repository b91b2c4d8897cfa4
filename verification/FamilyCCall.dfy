/** A discovered region through Family C: the emitter's checks, then the attention kernel, against the graph evaluated
    node by node. */
module FamilyCCall {
  import opened AttentionMath
  import opened ExtendedReal
  import opened FusedChains
  import opened FusibleRegions
  import opened FusionRegions
  import opened Operands
  import opened Trace
  import FamilyA
  import FamilyB
  import FamilyC

  // ---- the emitter's checks -----------------------------------------------

  /** The nodes the emitter picks out of a region, -1 for none: the first matmul, the last other one, the last softmax;
      and how many there are. */
  datatype Parts = Parts(score: int, softmax: int, output: int, matmuls: nat, softmaxes: nat)

  function PartsOf(g: Graph, region: seq<NodeId>): (p: Parts)
    requires forall k :: 0 <= k < |region| ==> region[k] < |g.nodes|
    ensures p.matmuls == MatMuls(g, region)
    ensures -1 <= p.score < |g.nodes| && -1 <= p.softmax < |g.nodes| && -1 <= p.output < |g.nodes|
    ensures p.score >= 0 ==> g.nodes[p.score].op.MatMul? && p.score in region
    ensures p.output >= 0 ==> g.nodes[p.output].op.MatMul?
    ensures p.softmax >= 0 ==> g.nodes[p.softmax].op.Softmax? && p.softmax in region
    ensures (p.score >= 0 <==> p.matmuls >= 1) && (p.output >= 0 <==> p.matmuls >= 2)
    ensures p.softmax >= 0 <==> p.softmaxes >= 1
    ensures p.output >= 0 && g.nodes[region[|region| - 1]].op.MatMul? ==> p.output == region[|region| - 1]
  {
    if region == [] then Parts(-1, -1, -1, 0, 0)
    else
      var p, n := PartsOf(g, region[..|region| - 1]), region[|region| - 1];
      if g.nodes[n].op.MatMul? then
        if p.score < 0 then p.(score := n, matmuls := p.matmuls + 1) else p.(output := n, matmuls := p.matmuls + 1)
      else if g.nodes[n].op.Softmax? then p.(softmax := n, softmaxes := p.softmaxes + 1)
      else p
  }

  method FindParts(g: Graph, region: seq<NodeId>) returns (p: Parts)
    requires forall k :: 0 <= k < |region| ==> region[k] < |g.nodes|
    ensures p == PartsOf(g, region)
  {
    p := Parts(-1, -1, -1, 0, 0);
    for k := 0 to |region|
      invariant p == PartsOf(g, region[..k])
    {
      assert region[..k + 1][..k] == region[..k];
      var n := region[k];
      if g.nodes[n].op.MatMul? {
        if p.score < 0 {
          p := p.(score := n, matmuls := p.matmuls + 1);
        } else {
          p := p.(output := n, matmuls := p.matmuls + 1);
        }
      } else if g.nodes[n].op.Softmax? {
        p := p.(softmax := n, softmaxes := p.softmaxes + 1);
      }
    }
    assert region[..|region|] == region;
  }

  /** Two matmuls and a softmax over the last dimension between them, of graph inputs. */
  predicate Accepts(g: Graph, p: Parts) {
    && p.matmuls == 2 && p.softmaxes == 1
    && 0 <= p.score < |g.nodes| && 0 <= p.softmax < |g.nodes| && 0 <= p.output < |g.nodes|
    && var score, softmax, output := g.nodes[p.score], g.nodes[p.softmax], g.nodes[p.output];
       && score.op.MatMul? && output.op.MatMul? && softmax.op.Softmax?
       && |score.inputs| == 2 && |output.inputs| == 2 && |softmax.inputs| == 1
       && IndexOf(g.inputs, score.inputs[0]) >= 0 && IndexOf(g.inputs, score.inputs[1]) >= 0
       && IndexOf(g.inputs, output.inputs[1]) >= 0
       && softmax.inputs[0] == score.output && output.inputs[0] == softmax.output
       && (softmax.op.along == -1 || softmax.op.along == 1)
  }

  function ShapeQ(g: Graph, p: Parts): Shape
    requires Accepts(g, p)
  {
    FamilyA.ShapeOf(g, g.nodes[p.score].inputs[0])
  }

  function ShapeK(g: Graph, p: Parts): Shape
    requires Accepts(g, p)
  {
    FamilyB.UsedShape(g, g.nodes[p.score].inputs[1], g.nodes[p.score].op.transposeRhs)
  }

  function ShapeV(g: Graph, p: Parts): Shape
    requires Accepts(g, p)
  {
    FamilyB.UsedShape(g, g.nodes[p.output].inputs[1], g.nodes[p.output].op.transposeRhs)
  }

  function OutShape(g: Graph, p: Parts): Shape
    requires Accepts(g, p)
  {
    Shape(ShapeQ(g, p).rows, ShapeV(g, p).cols)
  }

  predicate DimensionsAgree(g: Graph, p: Parts)
    requires Accepts(g, p)
  {
    var scores := Shape(ShapeQ(g, p).rows, ShapeK(g, p).cols);
    && ShapeQ(g, p).cols == ShapeK(g, p).rows
    && FamilyA.ShapeOf(g, g.nodes[p.softmax].inputs[0]) == scores
    && FamilyA.ShapeOf(g, g.nodes[p.output].inputs[0]) == scores
    && ShapeV(g, p).rows == scores.cols
    && FamilyA.ShapeOf(g, g.nodes[p.output].output) == OutShape(g, p)
  }

  predicate NoCasts(g: Graph, region: seq<NodeId>)
    requires forall k :: 0 <= k < |region| ==> region[k] < |g.nodes|
  {
    forall k :: 0 <= k < |region| ==> !g.nodes[region[k]].op.Cast?
  }

  /** Validation and emission, up to building the kernel. */
  method EmitFamilyC(g: Graph, region: seq<NodeId>) returns (taken: bool, p: Parts)
    requires forall k :: 0 <= k < |region| ==> region[k] < |g.nodes|
    ensures p == PartsOf(g, region)
    ensures taken <==> NoCasts(g, region) && Accepts(g, p) && DimensionsAgree(g, p)
  {
    p := FindParts(g, region);
    if !NoCasts(g, region) || !Accepts(g, p) {
      return false, p;
    }
    var score, output := g.nodes[p.score], g.nodes[p.output];
    var q, k, v := FamilyA.ShapeOf(g, score.inputs[0]), FamilyA.ShapeOf(g, score.inputs[1]), FamilyA.ShapeOf(g, output.inputs[1]);
    var (kRows, kCols) := if score.op.transposeRhs then (k.cols, k.rows) else (k.rows, k.cols);
    if q.cols != kRows {
      return false, p;
    }
    var softmaxed := FamilyA.ShapeOf(g, g.nodes[p.softmax].inputs[0]);
    if softmaxed.rows != q.rows || softmaxed.cols != kCols {
      return false, p;
    }
    var weights := FamilyA.ShapeOf(g, output.inputs[0]);
    var (vRows, vCols) := if output.op.transposeRhs then (v.cols, v.rows) else (v.rows, v.cols);
    if weights.rows != q.rows || weights.cols != kCols || vRows != kCols {
      return false, p;
    }
    var out := FamilyA.ShapeOf(g, output.output);
    taken := out.rows == q.rows && out.cols == vCols;
  }

  /** Family C only accepts what discovery calls matmul, softmax, matmul, and its output is the region's last node. */
  lemma AcceptedPattern(g: Graph, region: seq<NodeId>)
    requires Candidate(g, region)
    ensures region != [] && forall k :: 0 <= k < |region| ==> region[k] < |g.nodes|
    ensures var p := PartsOf(g, region);
            Accepts(g, p) ==> Classify(g, region) == MatMulSoftmaxMatMul && p.output == region[|region| - 1]
  {
    hide IsRegion, MatMuls, PartsOf;
    var k :| 0 <= k < |g.topo| && g.topo[k] < |g.nodes| && CandidateAt(g, g.topo[k], region);
    PatternIs(g, region);
    CountMatMuls(g, g.topo[k], region);
    StartsAt(g, g.topo[k], region);
    var p := PartsOf(g, region);
    if Accepts(g, p) {
      var s :| 0 <= s < |region| && region[s] == p.softmax;
    }
  }

  /** Exactly matmul, softmax, matmul: nothing else fits between, and the tracer's shapes are those the emitter asks
      for. */
  lemma AcceptedIsWithSoftmax(g: Graph, region: seq<NodeId>)
    requires Finished(g) && Candidate(g, region) && (forall k :: 0 <= k < |region| ==> region[k] < |g.nodes|)
    ensures var p := PartsOf(g, region);
            WithSoftmax(g, region) <==> NoCasts(g, region) && Accepts(g, p) && DimensionsAgree(g, p)
  {
    hide Finished, IsRegion, WithSoftmax, Accepts, DimensionsAgree;
    if Accepts(g, PartsOf(g, region)) {
      OnlyThree(g, region);
      ThreeFit(g, region);
    } else if WithSoftmax(g, region) {
      SoftmaxHasThree(g, region);
      ThreeFit(g, region);
    }
  }

  lemma SoftmaxHasThree(g: Graph, region: seq<NodeId>)
    requires WithSoftmax(g, region) && forall k :: 0 <= k < |region| ==> region[k] < |g.nodes|
    ensures |region| == 3 && PartsOf(g, region) == Parts(region[0], region[1], region[2], 2, 1)
  {
    ThreeParts(g, region);
  }

  lemma ThreeFit(g: Graph, region: seq<NodeId>)
    requires Finished(g) && |region| == 3 && (forall k :: 0 <= k < |region| ==> region[k] < |g.nodes|)
    requires PartsOf(g, region) == Parts(region[0], region[1], region[2], 2, 1)
    requires g.nodes[region[0]].op.MatMul? && g.nodes[region[1]].op.Softmax? && g.nodes[region[2]].op.MatMul?
    ensures var p := PartsOf(g, region);
            WithSoftmax(g, region) <==> NoCasts(g, region) && Accepts(g, p) && DimensionsAgree(g, p)
  {
    hide Finished, PartsOf;
    NodeShape(g, region[0]);
    NodeShape(g, region[1]);
    NodeShape(g, region[2]);
  }

  lemma ThreeParts(g: Graph, region: seq<NodeId>)
    requires |region| == 3 && forall k :: 0 <= k < 3 ==> region[k] < |g.nodes|
    requires g.nodes[region[0]].op.MatMul? && g.nodes[region[1]].op.Softmax? && g.nodes[region[2]].op.MatMul?
    ensures PartsOf(g, region) == Parts(region[0], region[1], region[2], 2, 1)
  {
    assert region[..2][..1] == region[..1] && region[..1][..0] == [];
    assert PartsOf(g, region[..1]) == Parts(region[0], -1, -1, 1, 0);
    assert PartsOf(g, region[..2]) == Parts(region[0], region[1], -1, 1, 1);
  }

  /** A region with these parts holds nothing else: each result is used once. */
  lemma OnlyThree(g: Graph, region: seq<NodeId>)
    requires Finished(g) && Candidate(g, region) && (forall k :: 0 <= k < |region| ==> region[k] < |g.nodes|)
    requires Accepts(g, PartsOf(g, region))
    ensures |region| == 3 && PartsOf(g, region) == Parts(region[0], region[1], region[2], 2, 1)
  {
    hide Finished, IsRegion, Linked, OnlyUse;
    var p := PartsOf(g, region);
    CandidateIff(g, region);
    AcceptedPattern(g, region);
    FirstPart(g, region);
    var s :| 0 <= s < |region| && region[s] == p.softmax;
    assert 1 <= s < |region| - 1;
    assert OnlyUse(g, region[0], region[0 + 1]);
    OnlyUser(g, region[0], region[1], p.softmax);
    assert OnlyUse(g, region[1], region[1 + 1]);
    OnlyUser(g, region[1], region[2], p.output);
    Rises(g, region, |region| - 1);
    ThreeParts(g, region);
  }

  lemma OnlyUser(g: Graph, a: NodeId, b: NodeId, n: NodeId)
    requires OnlyUse(g, a, b) && n < |g.nodes| && g.nodes[a].output in g.nodes[n].inputs
    ensures n == b
  {
  }

  lemma {:induction false} FirstPart(g: Graph, region: seq<NodeId>)
    requires region != [] && (forall k :: 0 <= k < |region| ==> region[k] < |g.nodes|) && g.nodes[region[0]].op.MatMul?
    ensures PartsOf(g, region).score == region[0]
  {
    if |region| > 1 {
      FirstPart(g, region[..|region| - 1]);
    } else {
      assert region[..0] == [];
    }
  }

  lemma {:induction false} Rises(g: Graph, region: seq<NodeId>, k: nat)
    requires Finished(g) && Follow(g, region) && k < |region|
    ensures forall i :: 0 <= i < k ==> region[i] < region[k]
  {
    hide Finished, Linked, OnlyUse;
    if k > 0 {
      Rises(g, region, k - 1);
      assert OnlyUse(g, region[k - 1], region[k - 1 + 1]);
      LinkedIsOnlyUse(g, region[k - 1], region[k]);
      NextIsLater(g, region[k - 1], region[k]);
    }
  }

  // ---- softmax ------------------------------------------------------------

  function SeqPartition(e: real -> real, row: seq<real>): real {
    if row == [] then 0.0 else SeqPartition(e, row[..|row| - 1]) + e(row[|row| - 1])
  }

  /** The graph's softmax of a row is exponentials over their sum. */
  ghost predicate MeansSoftmax(s: Kinds, e: real -> real) {
    && IsExp(e)
    && forall along, row, j :: (along == -1 || along == 1) && 0 <= j < |row| && SeqPartition(e, row) != 0.0 ==>
         s.S(along, row, j) == e(row[j]) / SeqPartition(e, row)
  }

  lemma {:induction false} SamePartition(e: real -> real, f: int -> real, row: seq<real>)
    requires forall k :: 0 <= k < |row| ==> row[k] == f(k)
    ensures SeqPartition(e, row) == Partition(e, f, |row|)
  {
    if row != [] {
      SamePartition(e, f, row[..|row| - 1]);
    }
  }

  // ---- the kernel against the graph ---------------------------------------

  function ProblemFor(e: real -> real, g: Graph, args: seq<Tensor>, p: Parts): FamilyC.Problem
    requires Accepts(g, p) && |args| == |g.inputs|
  {
    var score, output := g.nodes[p.score], g.nodes[p.output];
    FamilyC.Problem(e, Operand(args[IndexOf(g.inputs, score.inputs[0])], false),
                    Operand(args[IndexOf(g.inputs, score.inputs[1])], score.op.transposeRhs),
                    Operand(args[IndexOf(g.inputs, output.inputs[1])], output.op.transposeRhs))
  }

  lemma ProblemFits(e: real -> real, g: Graph, args: seq<Tensor>, p: Parts)
    requires Accepts(g, p) && DimensionsAgree(g, p) && FamilyA.Fitting(g, args)
    ensures var x := ProblemFor(e, g, args, p);
            && x.ShapesMatch() && Shape(x.M(), x.D()) == OutShape(g, p)
            && x.Dh() == ShapeQ(g, p).cols && x.N() == ShapeK(g, p).cols
  {
    FamilyA.ArgumentShape(g, args, g.nodes[p.score].inputs[0]);
    FamilyA.ArgumentShape(g, args, g.nodes[p.score].inputs[1]);
    FamilyA.ArgumentShape(g, args, g.nodes[p.output].inputs[1]);
  }

  lemma {:induction false} ScoreIsDot(s: Kinds, e: real -> real, g: Graph, args: seq<Tensor>, p: Parts, i: nat, j: nat, n: nat)
    requires Finished(g) && Accepts(g, p) && |args| == |g.inputs|
    ensures ProblemFor(e, g, args, p).Dot(i, j, n) == Dot(s, g, args, p.score, i, j, n)
  {
    hide Cell, Finished;
    if n > 0 {
      ScoreIsDot(s, e, g, args, p, i, j, n - 1);
      var score := g.nodes[p.score];
      CellOfInput(s, g, args, score.inputs[0], i, n - 1);
      if score.op.transposeRhs {
        CellOfInput(s, g, args, score.inputs[1], j, n - 1);
      } else {
        CellOfInput(s, g, args, score.inputs[1], n - 1, j);
      }
    }
  }

  /** Row i of the scores, node by node. */
  ghost function ScoreRow(s: Kinds, g: Graph, args: seq<Tensor>, p: Parts, i: nat): (row: seq<real>)
    requires Finished(g) && Accepts(g, p)
    ensures |row| == FamilyA.ShapeOf(g, g.nodes[p.softmax].inputs[0]).cols
    ensures g.nodes[p.score].output < |g.values|
    ensures forall k :: 0 <= k < |row| ==> row[k] == Cell(s, g, args, g.nodes[p.score].output, i, k)
  {
    hide Cell, Finished;
    FirstOutput(g, p.score);
    seq(FamilyA.ShapeOf(g, g.nodes[p.softmax].inputs[0]).cols,
        k requires 0 <= k => Cell(s, g, args, g.nodes[p.score].output, i, k))
  }

  lemma SoftmaxCell(s: Kinds, g: Graph, args: seq<Tensor>, p: Parts, i: nat, j: nat)
    requires Finished(g) && Accepts(g, p)
    ensures g.nodes[p.softmax].output < |g.values|
    ensures Cell(s, g, args, g.nodes[p.softmax].output, i, j)
         == s.S(g.nodes[p.softmax].op.along, ScoreRow(s, g, args, p, i), j)
  {
    hide Cell, Finished;
    FirstOutput(g, p.score);
    CellOfSoftmax(s, g, args, p.softmax, ScoreRow(s, g, args, p, i), i, j);
  }

  lemma ScoresAgree(s: Kinds, e: real -> real, g: Graph, args: seq<Tensor>, p: Parts, i: nat)
    requires Finished(g) && Accepts(g, p) && DimensionsAgree(g, p) && FamilyA.Fitting(g, args)
    ensures var a, row := ProblemFor(e, g, args, p).Meaning(), ScoreRow(s, g, args, p, i);
            |row| == a.n && forall k :: 0 <= k < |row| ==> row[k] == a.ScoreAt(i, k)
  {
    hide Cell, Finished;
    ProblemFits(e, g, args, p);
    var x, row := ProblemFor(e, g, args, p), ScoreRow(s, g, args, p, i);
    forall k | 0 <= k < |row| ensures row[k] == x.Meaning().ScoreAt(i, k) {
      CellOfNode(s, g, args, p.score, i, k);
      ScoreIsDot(s, e, g, args, p, i, k, x.Dh());
      MeaningIs(x, i, k, 0);
    }
  }

  lemma MeaningIs(x: FamilyC.Problem, i: nat, k: nat, j: nat)
    ensures x.Meaning().ScoreAt(i, k) == x.Dot(i, k, x.Dh())
    ensures x.Meaning().ValueAt(k, j) == x.v.At(k, j)
  {
  }

  /** A softmax weight, node by node. */
  lemma WeightAgrees(s: Kinds, e: real -> real, g: Graph, args: seq<Tensor>, p: Parts, i: nat, k: nat)
    requires Finished(g) && Accepts(g, p) && DimensionsAgree(g, p) && FamilyA.Fitting(g, args) && MeansSoftmax(s, e)
    requires k < ShapeK(g, p).cols
    ensures g.nodes[p.softmax].output < |g.values|
    ensures var a := ProblemFor(e, g, args, p).Meaning();
            && Partition(e, a.Row(i), a.n) != 0.0
            && Cell(s, g, args, g.nodes[p.softmax].output, i, k) == SoftmaxWeight(e, a.Row(i), a.n, k)
  {
    hide Cell, Finished;
    var a, row := ProblemFor(e, g, args, p).Meaning(), ScoreRow(s, g, args, p, i);
    ScoresAgree(s, e, g, args, p, i);
    SoftmaxCell(s, g, args, p, i, k);
    SamePartition(e, a.Row(i), row);
    PartitionPositive(e, a.Row(i), a.n);
  }

  lemma {:induction false} SumAgrees(s: Kinds, e: real -> real, g: Graph, args: seq<Tensor>, p: Parts, i: nat, j: nat, k: nat)
    requires Finished(g) && Accepts(g, p) && DimensionsAgree(g, p) && FamilyA.Fitting(g, args) && MeansSoftmax(s, e)
    requires 0 < ShapeK(g, p).cols && k <= ShapeK(g, p).cols
    ensures var a := ProblemFor(e, g, args, p).Meaning();
            && Partition(e, a.Row(i), a.n) != 0.0
            && WeightedSum(e, a.Row(i), a.Col(j), a.n, k) == Dot(s, g, args, p.output, i, j, k)
  {
    hide Cell, Finished, MeansSoftmax, DimensionsAgree, SoftmaxWeight, Partition;
    WeightAgrees(s, e, g, args, p, i, 0);
    if k > 0 {
      SumAgrees(s, e, g, args, p, i, j, k - 1);
      WeightAgrees(s, e, g, args, p, i, k - 1);
      var x, output := ProblemFor(e, g, args, p), g.nodes[p.output];
      MeaningIs(x, i, k - 1, j);
      if output.op.transposeRhs {
        CellOfInput(s, g, args, output.inputs[1], j, k - 1);
      } else {
        CellOfInput(s, g, args, output.inputs[1], k - 1, j);
      }
    }
  }

  /** With keys, the kernel's element is the last node's, evaluated node by node; without, it is not a number. */
  lemma ResultIsCell(s: Kinds, e: real -> real, g: Graph, args: seq<Tensor>, p: Parts, i: nat, j: nat)
    requires Finished(g) && Accepts(g, p) && DimensionsAgree(g, p) && FamilyA.Fitting(g, args) && MeansSoftmax(s, e)
    ensures g.nodes[p.output].output < |g.values|
    ensures FamilyC.Result(ProblemFor(e, g, args, p).Meaning(), i, j)
         == if ShapeK(g, p).cols > 0 then Fin(Cell(s, g, args, g.nodes[p.output].output, i, j)) else Bad
  {
    hide Cell, Finished;
    ProblemFits(e, g, args, p);
    CellOfNode(s, g, args, p.output, i, j);
    if ShapeK(g, p).cols > 0 {
      SumAgrees(s, e, g, args, p, i, j, ShapeK(g, p).cols);
    }
  }

  /** Emission and call for any discovered region: it is taken exactly when it is matmul, softmax, matmul with agreeing
      dimensions, and then every element is the last node's, evaluated node by node, if and only if there are keys to attend to. */
  method EmitAndCall(s: Kinds, e: real -> real, g: Graph, args: seq<Tensor>, region: seq<NodeId>, plan: FamilyC.TileShape,
                     out: array2<Flt>)
    returns (taken: bool)
    requires Finished(g) && Candidate(g, region) && FamilyA.Fitting(g, args) && MeansSoftmax(s, e)
    requires forall k :: 0 <= k < |region| ==> region[k] < |g.nodes|
    requires Accepts(g, PartsOf(g, region)) ==> Shape(out.Length0, out.Length1) == OutShape(g, PartsOf(g, region))
    modifies out
    ensures taken <==> WithSoftmax(g, region)
    ensures !taken ==> forall i, j :: 0 <= i < out.Length0 && 0 <= j < out.Length1 ==> out[i, j] == old(out[i, j])
    ensures taken ==> region != [] && g.nodes[region[|region| - 1]].output < |g.values|
    ensures taken ==> forall i, j :: 0 <= i < out.Length0 && 0 <= j < out.Length1 ==>
                        out[i, j] == if RightShape(g, region[0]).cols > 0
                                     then Fin(Cell(s, g, args, g.nodes[region[|region| - 1]].output, i, j)) else Bad
  {
    hide Cell, Finished, PartsOf, DimensionsAgree, MeansSoftmax, FamilyC.Result;
    var p;
    AcceptedPattern(g, region);
    AcceptedIsWithSoftmax(g, region);
    taken, p := EmitFamilyC(g, region);
    if taken {
      ProblemFits(e, g, args, p);
      ExpIsExp(s, e);
      FamilyC.Launch(ProblemFor(e, g, args, p), plan, out);
      FirstOutput(g, p.output);
      forall i: nat, j: nat | i < out.Length0 && j < out.Length1
        ensures out[i, j] == if ShapeK(g, p).cols > 0 then Fin(Cell(s, g, args, g.nodes[p.output].output, i, j)) else Bad {
        ResultIsCell(s, e, g, args, p, i, j);
      }
    }
  }

  lemma ExpIsExp(s: Kinds, e: real -> real)
    requires MeansSoftmax(s, e)
    ensures IsExp(e)
  {
  }
}
