/** A discovered region through Family A: emission, then a call with the chain placed where the compiler finds it
    can be. */
module FamilyACall {
  import opened EpiloguePlacement
  import opened FamilyA
  import opened FusedChains
  import opened FusibleRegions
  import opened FusionRegions
  import opened Grid
  import opened InLaunch
  import opened InRegister
  import opened Operands
  import opened Trace

  /** Where the chain goes: onto tagged stores, into the K loop of every tile, into a launch of one tile, or into a
      launch of its own. */
  datatype Strategy =
    | OnStores(stores: seq<TaggedStore>)
    | OnLastK(tiles: seq<Tile>, step: nat, body: seq<Stmt>)
    | OnSingleTile(tile: Tile, body: seq<Stmt>)
    | OwnLaunch

  /** The compiled matmul stores every element of the output, once, and adds all its terms. */
  ghost predicate Computes(st: Strategy, g: Graph, region: seq<NodeId>)
    requires Accepts(g, region)
  {
    var out, inner := OutOf(g, region), InnerOf(g, region);
    match st
    case OnStores(stores) => Apart(stores, out.rows, out.cols) && forall i, j :: Within(out, i, j) ==> Hit(stores, i, j)
    case OnLastK(tiles, step, body) =>
      && step > 0 && Bounds(0, inner, step) && CoversStep(body, step)
      && Tiling(tiles, out.rows, out.cols) && forall i, j :: Within(out, i, j) ==> Tiled(tiles, i, j)
    case OnSingleTile(tile, body) =>
      CoversStep(body, inner) && tile.Inside(out.rows, out.cols) && forall i, j :: Within(out, i, j) ==> tile.Has(i, j)
    case OwnLaunch => true
  }

  predicate Within(s: Shape, i: int, j: int) { 0 <= i < s.rows && 0 <= j < s.cols }

  /** When the placement is right, as the lemmas of InRegister and InLaunch say. */
  ghost predicate RightPlace(st: Strategy, g: Graph, region: seq<NodeId>, specs: seq<Spec>)
    requires Accepts(g, region)
  {
    var inner := InnerOf(g, region);
    match st
    case OnStores(stores) => forall k :: 0 <= k < |stores| ==> OwnIndices(specs, stores[k])
    case OnLastK(_, step, body) =>
      step > 0 && inner > 0 && NothingLate(body, (Trip(0, inner, step) - 1) * step, inner)
    case OnSingleTile(_, body) => UpdatesBeforeFirstBarrier(body)
    case OwnLaunch => true
  }

  ghost predicate IsResult(s: Kinds, g: Graph, args: seq<Tensor>, region: seq<NodeId>, specs: seq<Spec>,
                           out: array2<real>)
    requires Translated(g, region, specs)
    reads out
  {
    forall i, j :: 0 <= i < out.Length0 && 0 <= j < out.Length1 ==>
      out[i, j] == ResultCell(s, g, args, region, specs, i, j)
  }

  /** One call of the compiled kernel; without a chain the pass leaves the matmul as it is. */
  method Call(s: Kinds, g: Graph, args: seq<Tensor>, region: seq<NodeId>, specs: seq<Spec>, st: Strategy,
              out: array2<real>)
    requires Translated(g, region, specs) && DimensionsAgree(g, region) && Fitting(g, args)
    requires Shape(out.Length0, out.Length1) == OutOf(g, region) && Computes(st, g, region)
    modifies out
    ensures specs == [] || st.OwnLaunch? || RightPlace(st, g, region, specs) ==> IsResult(s, g, args, region, specs, out)
  {
    hide Cell, Finished, Apply, Terms, SpecsFor, OnElement, Fused, NothingLate, CoversStep, OwnIndices;
    ChainInRange(g, region, specs);
    OperandsFit(g, args, region);
    if specs == [] || st.OwnLaunch? {
      FusedCall(s, g, args, region, specs, out);
      return;
    }
    ZeroOutput(out);
    var a, b := Lhs(g, args, region), Rhs(g, args, region);
    match st
    case OnStores(stores) =>
      InRegisterLaunch(s, g, args, region, specs, stores, out);
      forall i, j | 0 <= i < out.Length0 && 0 <= j < out.Length1 ensures Hit(stores, i, j) {
        assert Within(OutOf(g, region), i, j);
      }
    case OnLastK(tiles, step, body) =>
      LastKLaunch(Job(s, args, specs, a, b, step, body), tiles, out);
      if RightPlace(st, g, region, specs) {
        LastKIsRight(s, g, args, region, specs, step, body);
        forall i: nat, j: nat | i < out.Length0 && j < out.Length1
          ensures out[i, j] == ResultCell(s, g, args, region, specs, i, j) {
          assert Within(OutOf(g, region), i, j);
          assert ElementRight(s, g, args, region, specs, body, step, Trip(0, InnerOf(g, region), step), i, j);
        }
      }
    case OnSingleTile(tile, body) =>
      SingleTileLaunch(Job(s, args, specs, a, b, a.cols, body), tile, out);
      if RightPlace(st, g, region, specs) {
        SingleTileIsRight(s, g, args, region, specs, body);
        forall i: nat, j: nat | i < out.Length0 && j < out.Length1
          ensures out[i, j] == ResultCell(s, g, args, region, specs, i, j) {
          assert Within(OutOf(g, region), i, j);
          assert ElementRight(s, g, args, region, specs, body, InnerOf(g, region), 1, i, j);
        }
      }
  }

  lemma LastKIsRight(s: Kinds, g: Graph, args: seq<Tensor>, region: seq<NodeId>, specs: seq<Spec>, step: nat,
                     body: seq<Stmt>)
    requires Translated(g, region, specs) && Fitting(g, args)
    requires CoversStep(body, step) && step > 0 && InnerOf(g, region) > 0
    requires NothingLate(body, (Trip(0, InnerOf(g, region), step) - 1) * step, InnerOf(g, region))
    ensures forall i: nat, j: nat ::
              ElementRight(s, g, args, region, specs, body, step, Trip(0, InnerOf(g, region), step), i, j)
  {
    hide ElementRight, Finished, SpecsFor, CoversStep, NothingLate;
    var inner := InnerOf(g, region);
    var trip := Trip(0, inner, step);
    TripIs(0, inner, step, trip);
    TripIs(0, inner, step, 0);
    forall i: nat, j: nat ensures ElementRight(s, g, args, region, specs, body, step, trip, i, j) {
      RightWhenNothingLate(s, g, args, region, specs, body, step, trip, i, j);
    }
  }

  lemma SingleTileIsRight(s: Kinds, g: Graph, args: seq<Tensor>, region: seq<NodeId>, specs: seq<Spec>, body: seq<Stmt>)
    requires Translated(g, region, specs) && Fitting(g, args) && CoversStep(body, InnerOf(g, region))
    requires UpdatesBeforeFirstBarrier(body)
    ensures forall i: nat, j: nat :: ElementRight(s, g, args, region, specs, body, InnerOf(g, region), 1, i, j)
  {
    hide ElementRight, Finished, SpecsFor, CoversStep;
    var inner := InnerOf(g, region);
    forall c | 0 <= c < |Late(body)| ensures !Late(body)[c].Update? {
      assert Late(body)[c] == body[InsertAt(body) + c];
    }
    forall i: nat, j: nat ensures ElementRight(s, g, args, region, specs, body, inner, 1, i, j) {
      RightWhenNothingLate(s, g, args, region, specs, body, inner, 1, i, j);
    }
  }

  /** A node of the chain with one operand is of a unary kind, one with two is not. */
  ghost predicate KindsFit(g: Graph, region: seq<NodeId>)
    requires forall k :: 0 <= k < |region| ==> region[k] < |g.nodes|
  {
    forall k :: 0 <= k < |region| - 1 ==> KindFitsAt(g, region, k)
  }

  ghost predicate KindFitsAt(g: Graph, region: seq<NodeId>, k: nat)
    requires k < |region| - 1 && region[k + 1] < |g.nodes|
  {
    var n := g.nodes[region[k + 1]];
    n.op.Elementwise? ==> (|n.inputs| == 1 <==> IsUnaryKind(n.op.element))
  }

  /** The check that every placement makes of the specs it is handed. */
  lemma AcceptedIsKindsFit(g: Graph, region: seq<NodeId>, specs: seq<Spec>)
    requires SpecsFor(g, region, specs)
    ensures forall k :: 0 <= k < |region| ==> region[k] < |g.nodes|
    ensures Accepted(specs, |g.inputs|) <==> KindsFit(g, region)
  {
    hide IsUnaryKind;
    forall k | 0 <= k < |specs|
      ensures KindFitsAt(g, region, k) <==>
                if specs[k].arg < 0 then IsUnaryKind(specs[k].element)
                else specs[k].arg < |g.inputs| && 0 <= specs[k].pos <= 1 && !IsUnaryKind(specs[k].element) {
      assert SpecFor(g, region[k], region[k + 1], specs[k]);
    }
  }

  /** A traced graph never fails that check. */
  lemma TracedKindsFit(g: Graph, region: seq<NodeId>)
    requires Finished(g) && forall k :: 0 <= k < |region| ==> region[k] < |g.nodes|
    ensures KindsFit(g, region)
  {
    hide Finished;
    forall k: nat | k < |region| - 1 ensures KindFitsAt(g, region, k) {
      if g.nodes[region[k + 1]].op.Elementwise? {
        TracedKind(g, region[k + 1]);
      }
    }
  }

  /** Emission and call for any discovered region: it is taken exactly when it is a matmul of graph inputs with an
      elementwise epilogue, and then, with the chain in a right place, the output is the last node's value, evaluated
      node by node. */
  method EmitAndCall(s: Kinds, g: Graph, args: seq<Tensor>, region: seq<NodeId>, st: Strategy, out: array2<real>)
    returns (t: Translation)
    requires Finished(g) && Candidate(g, region) && Fitting(g, args)
    requires Accepts(g, region) ==> Shape(out.Length0, out.Length1) == OutOf(g, region) && Computes(st, g, region)
    modifies out
    ensures region != [] && (forall k :: 0 <= k < |region| ==> region[k] < |g.nodes|)
    ensures forall v :: v in g.inputs ==> v < |g.values|
    ensures t.Specs? <==> WithEpilogue(g, region)
    ensures t.Refused? ==> forall i, j :: 0 <= i < out.Length0 && 0 <= j < out.Length1 ==> out[i, j] == old(out[i, j])
    ensures t.Specs? ==> Translated(g, region, t.specs)
    ensures t.Specs? && (t.specs == [] || st.OwnLaunch? || RightPlace(st, g, region, t.specs)) ==>
              && g.nodes[region[|region| - 1]].output < |g.values|
              && forall i, j :: 0 <= i < out.Length0 && 0 <= j < out.Length1 ==>
                   out[i, j] == Cell(s, g, args, g.nodes[region[|region| - 1]].output, i, j)
  {
    hide Cell, Finished, SpecsFor, Computes, RightPlace, Accepted, KindsFit, WithEpilogue;
    CandidateIsChain(g, region);
    t := EmitFamilyA(g, region);
    AcceptedIsWithEpilogue(g, region);
    TracedKindsFit(g, region);
    if t.Refused? {
      return;
    }
    AcceptedIsKindsFit(g, region, t.specs);
    if !Accepted(t.specs, |g.inputs|) {
      return Refused;
    }
    ChainInRange(g, region, t.specs);
    FirstOutput(g, region[|region| - 1]);
    Call(s, g, args, region, t.specs, st, out);
  }
}
