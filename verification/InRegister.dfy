/** The chain applied to an accumulator on its way to the output, in registers. */
module InRegister {
  import opened FamilyA
  import opened FusedChains
  import opened FusionRegions
  import opened Operands
  import opened Trace
  import opened Views

  /** A tagged store: element (i, j) of a view of the output. */
  datatype TaggedStore = TaggedStore(view: View, i: nat, j: nat)
  {
    function Target(): (nat, nat) { At(view, i, j) }
  }

  predicate NoBoundary(specs: seq<Spec>) {
    forall k :: 0 <= k < |specs| ==> specs[k].arg < 0
  }

  lemma {:induction false} WithoutBoundary(s: Kinds, args: seq<Tensor>, specs: seq<Spec>, x: real,
                                           i: int, j: int, row: int, col: int)
    requires NoBoundary(specs)
    ensures Apply(s, args, specs, x, i, j) == Apply(s, args, specs, x, row, col)
  {
    if specs != [] {
      WithoutBoundary(s, args, specs[..|specs| - 1], x, i, j, row, col);
    }
  }

  /** What is stored: the accumulator of the target element, and the chain with every other operand loaded at the
      store's own indices, not through its view. */
  function StoredValue(s: Kinds, g: Graph, args: seq<Tensor>, region: seq<NodeId>, specs: seq<Spec>,
                       st: TaggedStore): real
    requires Accepts(g, region) && |args| == |g.inputs|
  {
    Apply(s, args, specs, MatMulCell(g, args, region, st.Target().0, st.Target().1), st.i, st.j)
  }

  ghost predicate StoredRight(s: Kinds, g: Graph, args: seq<Tensor>, region: seq<NodeId>, specs: seq<Spec>,
                              st: TaggedStore)
    requires Translated(g, region, specs) && |args| == |g.inputs|
  {
    StoredValue(s, g, args, region, specs, st) == ResultCell(s, g, args, region, specs, st.Target().0, st.Target().1)
  }

  /** Whatever the operations and the arguments are. */
  ghost predicate AlwaysRight(g: Graph, region: seq<NodeId>, specs: seq<Spec>, st: TaggedStore)
    requires Translated(g, region, specs)
  {
    forall s: Kinds, args: seq<Tensor> :: Fitting(g, args) ==> StoredRight(s, g, args, region, specs, st)
  }

  /** The chain has no boundary operand, or the view starts at the output's origin. */
  predicate OwnIndices(specs: seq<Spec>, st: TaggedStore) {
    NoBoundary(specs) || st.Target() == (st.i, st.j)
  }

  lemma RightAtOwnIndices(s: Kinds, g: Graph, args: seq<Tensor>, region: seq<NodeId>, specs: seq<Spec>, st: TaggedStore)
    requires Translated(g, region, specs) && Fitting(g, args) && OwnIndices(specs, st)
    ensures StoredRight(s, g, args, region, specs, st)
  {
    hide Cell, Finished, Apply, Terms, SpecsFor;
    var (row, col) := st.Target();
    FusedCell(s, g, args, region, specs, row, col);
    if NoBoundary(specs) {
      WithoutBoundary(s, args, specs, MatMulCell(g, args, region, row, col), st.i, st.j, row, col);
    }
  }

  // ---- the other direction ------------------------------------------------

  /** Unary functions that do nothing and binary ones that add. */
  function Adding(): Kinds {
    Kinds((name, x) => x, (name, x, y) => x + y, (along, row, j) => 0.0)
  }

  /** A one at (row, col), zeros elsewhere. */
  function Spot(shape: Shape, row: int, col: int): Tensor {
    Tensor(shape.rows, shape.cols, (i, j) => if i == row && j == col then 1.0 else 0.0)
  }

  function Spots(g: Graph, row: int, col: int): (r: seq<Tensor>)
    ensures |r| == |g.inputs|
    ensures forall k :: 0 <= k < |r| ==> r[k] == Spot(ShapeOf(g, g.inputs[k]), row, col)
  {
    seq(|g.inputs|, k requires 0 <= k < |g.inputs| => Spot(ShapeOf(g, g.inputs[k]), row, col))
  }

  function Boundaries(specs: seq<Spec>): nat {
    if specs == [] then 0
    else Boundaries(specs[..|specs| - 1]) + if specs[|specs| - 1].arg < 0 then 0 else 1
  }

  lemma {:induction false} AddsUp(g: Graph, specs: seq<Spec>, x: real, i: int, j: int, row: int, col: int)
    requires forall k :: 0 <= k < |specs| ==> specs[k].arg < |g.inputs|
    ensures Apply(Adding(), Spots(g, row, col), specs, x, i, j)
         == x + if i == row && j == col then Boundaries(specs) as real else 0.0
    ensures Boundaries(specs) == 0 <==> NoBoundary(specs)
  {
    if specs != [] {
      AddsUp(g, specs[..|specs| - 1], x, i, j, row, col);
      var last, t := specs[|specs| - 1], Spots(g, row, col);
      assert NoBoundary(specs) <==> NoBoundary(specs[..|specs| - 1]) && last.arg < 0;
      assert last.arg >= 0 ==> t[last.arg] == Spot(ShapeOf(g, g.inputs[last.arg]), row, col);
    }
  }

  lemma ArgsInRange(g: Graph, region: seq<NodeId>, specs: seq<Spec>)
    requires SpecsFor(g, region, specs)
    ensures forall k :: 0 <= k < |specs| ==> specs[k].arg < |g.inputs|
  {
    forall k | 0 <= k < |specs| ensures specs[k].arg < |g.inputs| {
      assert SpecFor(g, region[k], region[k + 1], specs[k]);
    }
  }

  lemma SpotsFit(g: Graph, row: int, col: int)
    requires Finished(g)
    ensures Fitting(g, Spots(g, row, col))
  {
    InputsInRange(g);
    forall k | 0 <= k < |g.inputs| ensures g.inputs[k] in g.inputs {}
  }

  lemma WrongElsewhere(g: Graph, region: seq<NodeId>, specs: seq<Spec>, st: TaggedStore)
    requires Translated(g, region, specs) && !OwnIndices(specs, st)
    ensures Fitting(g, Spots(g, st.Target().0, st.Target().1))
    ensures !StoredRight(Adding(), g, Spots(g, st.Target().0, st.Target().1), region, specs, st)
  {
    hide Cell, Finished, Apply, Terms, SpecsFor, Spots;
    var (row, col) := st.Target();
    var args := Spots(g, row, col);
    SpotsFit(g, row, col);
    ArgsInRange(g, region, specs);
    FusedCell(Adding(), g, args, region, specs, row, col);
    AddsUp(g, specs, MatMulCell(g, args, region, row, col), st.i, st.j, row, col);
    AddsUp(g, specs, MatMulCell(g, args, region, row, col), row, col, row, col);
  }

  /** A store with the chain in registers leaves the graph's result in its element, whatever the operations and
      arguments, exactly when the chain has no boundary operand or the store's indices are the element's. */
  lemma InRegisterIsRightIff(g: Graph, region: seq<NodeId>, specs: seq<Spec>, st: TaggedStore)
    requires Translated(g, region, specs)
    ensures AlwaysRight(g, region, specs, st) <==> OwnIndices(specs, st)
  {
    hide StoredRight, Finished, OwnIndices;
    if OwnIndices(specs, st) {
      forall s: Kinds, args: seq<Tensor> | Fitting(g, args) ensures StoredRight(s, g, args, region, specs, st) {
        RightAtOwnIndices(s, g, args, region, specs, st);
      }
    } else {
      WrongElsewhere(g, region, specs, st);
    }
  }

  // ---- the launch ---------------------------------------------------------

  /** The stores hit elements of the output, no two the same. */
  ghost predicate Apart(stores: seq<TaggedStore>, rows: nat, cols: nat) {
    && (forall k :: 0 <= k < |stores| ==> stores[k].Target().0 < rows && stores[k].Target().1 < cols)
    && (forall k, l :: 0 <= k < l < |stores| ==> stores[k].Target() != stores[l].Target())
  }

  ghost predicate Hit(stores: seq<TaggedStore>, i: int, j: int) {
    exists k :: 0 <= k < |stores| && stores[k].Target() == (i, j)
  }

  /** The accumulator of one element, carried from zero. */
  method Accumulate(a: Tensor, b: Tensor, i: nat, j: nat) returns (acc: real)
    requires a.cols == b.rows && i < a.rows && j < b.cols
    ensures acc == Terms(a, b, i, j, a.cols)
  {
    acc := 0.0;
    for k := 0 to a.cols
      invariant acc == Terms(a, b, i, j, k)
    {
      acc := acc + Load(a, i, k) * Load(b, k, j);
    }
  }

  /** Every tagged store of the launch. With stores to all elements, each at its own indices or without boundary
      operands, the output is the last node's value, evaluated node by node. */
  method InRegisterLaunch(s: Kinds, g: Graph, args: seq<Tensor>, region: seq<NodeId>, specs: seq<Spec>,
                          stores: seq<TaggedStore>, out: array2<real>)
    requires Translated(g, region, specs) && Fitting(g, args) && Apart(stores, out.Length0, out.Length1)
    requires var a, b := Lhs(g, args, region), Rhs(g, args, region);
             a.cols == b.rows && out.Length0 == a.rows && out.Length1 == b.cols
    modifies out
    ensures forall k :: 0 <= k < |stores| ==>
              out[stores[k].Target().0, stores[k].Target().1] == StoredValue(s, g, args, region, specs, stores[k])
    ensures forall i, j :: 0 <= i < out.Length0 && 0 <= j < out.Length1 && !Hit(stores, i, j) ==>
              out[i, j] == old(out[i, j])
    ensures (forall k :: 0 <= k < |stores| ==> OwnIndices(specs, stores[k])) ==>
              forall i, j :: 0 <= i < out.Length0 && 0 <= j < out.Length1 && Hit(stores, i, j) ==>
                out[i, j] == ResultCell(s, g, args, region, specs, i, j)
  {
    hide Cell, Finished, Apply, Terms, SpecsFor, OwnIndices, Accepts;
    var a, b := Lhs(g, args, region), Rhs(g, args, region);
    for k := 0 to |stores|
      invariant forall l :: 0 <= l < k ==>
                  out[stores[l].Target().0, stores[l].Target().1] == StoredValue(s, g, args, region, specs, stores[l])
      invariant forall i, j :: 0 <= i < out.Length0 && 0 <= j < out.Length1 && !Hit(stores, i, j) ==>
                  out[i, j] == old(out[i, j])
    {
      var (row, col) := stores[k].Target();
      assert Hit(stores, row, col);
      var acc := Accumulate(a, b, row, col);
      out[row, col] := Apply(s, args, specs, acc, stores[k].i, stores[k].j);
    }
    if forall k :: 0 <= k < |stores| ==> OwnIndices(specs, stores[k]) {
      forall k | 0 <= k < |stores| ensures StoredRight(s, g, args, region, specs, stores[k]) {
        RightAtOwnIndices(s, g, args, region, specs, stores[k]);
      }
    }
  }
}
