/** The chain inside the matmul's own launch: on each tile of the output in the last K iteration, or in a launch of a
    single tile without a K loop. */
module InLaunch {
  import opened EpiloguePlacement
  import opened FamilyA
  import opened FusedChains
  import opened FusionRegions
  import opened Grid
  import opened Operands
  import opened Trace
  import opened Views

  // ---- one element --------------------------------------------------------

  /** The k-th term of element (i, j), nothing past the inner dimension. */
  function Term(a: Tensor, b: Tensor, i: int, j: int, k: int): real {
    if 0 <= k < a.cols then a.at(i, k) * b.at(k, j) else 0.0
  }

  /** What a body that adds term `n * step + id` at its store `id` in iteration n, and the chain, do to
      element (i, j). */
  function OnElement(s: Kinds, args: seq<Tensor>, specs: seq<Spec>, a: Tensor, b: Tensor, step: nat,
                     i: int, j: int): Effect
  {
    Effect((n: int, id: nat, x: real) => x + Term(a, b, i, j, n * step + id),
           (x: real) => Apply(s, args, specs, x, i, j))
  }

  /** The stores of a body, in order. */
  function Ids(body: seq<Stmt>): seq<nat> {
    if body == [] then []
    else Ids(body[..|body| - 1]) + if body[|body| - 1].Update? then [body[|body| - 1].id] else []
  }

  function Upto(n: nat): (r: seq<nat>)
    ensures |r| == n && forall k :: 0 <= k < n ==> r[k] == k
  {
    seq(n, k => k)
  }

  /** One store per term of a K tile, in order. */
  predicate CoversStep(body: seq<Stmt>, step: nat) {
    Ids(body) == Upto(step)
  }

  function Sum(a: Tensor, b: Tensor, i: int, j: int, base: int, ids: seq<nat>): real {
    if ids == [] then 0.0
    else Sum(a, b, i, j, base, ids[..|ids| - 1]) + Term(a, b, i, j, base + ids[|ids| - 1])
  }

  lemma SumSnoc(a: Tensor, b: Tensor, i: int, j: int, base: int, ids: seq<nat>, id: nat)
    ensures Sum(a, b, i, j, base, ids + [id]) == Sum(a, b, i, j, base, ids) + Term(a, b, i, j, base + id)
  {
    assert (ids + [id])[..|ids + [id]| - 1] == ids;
  }

  lemma AddsTerm(s: Kinds, args: seq<Tensor>, specs: seq<Spec>, a: Tensor, b: Tensor, step: nat, i: int, j: int,
                 n: int, id: nat, x: real)
    ensures OnElement(s, args, specs, a, b, step, i, j).Apply(n, id, x) == x + Term(a, b, i, j, n * step + id)
    ensures OnElement(s, args, specs, a, b, step, i, j).Finish(x) == Apply(s, args, specs, x, i, j)
  {
  }

  lemma {:induction false} BodySums(s: Kinds, args: seq<Tensor>, specs: seq<Spec>, a: Tensor, b: Tensor, step: nat,
                                    i: int, j: int, n: nat, body: seq<Stmt>, x: real)
    ensures RunBody(OnElement(s, args, specs, a, b, step, i, j), n, body, x) == x + Sum(a, b, i, j, n * step, Ids(body))
  {
    hide Term, OnElement, Apply;
    if body != [] {
      var before, last := body[..|body| - 1], body[|body| - 1];
      BodySums(s, args, specs, a, b, step, i, j, n, before, x);
      if last.Update? {
        AddsTerm(s, args, specs, a, b, step, i, j, n, last.id,
                 RunBody(OnElement(s, args, specs, a, b, step, i, j), n, before, x));
        SumSnoc(a, b, i, j, n * step, Ids(before), last.id);
      } else {
        assert Ids(body) == Ids(before);
      }
    }
  }

  lemma {:induction false} SumSplits(a: Tensor, b: Tensor, i: int, j: int, base: int, p: seq<nat>, q: seq<nat>)
    ensures Sum(a, b, i, j, base, p + q) == Sum(a, b, i, j, base, p) + Sum(a, b, i, j, base, q)
  {
    if q == [] {
      assert p + q == p;
    } else {
      SumSplits(a, b, i, j, base, p, q[..|q| - 1]);
      assert (p + q)[..|p + q| - 1] == p + q[..|q| - 1];
    }
  }

  lemma {:induction false} IdsSplit(p: seq<Stmt>, q: seq<Stmt>)
    ensures Ids(p + q) == Ids(p) + Ids(q)
  {
    if q == [] {
      assert p + q == p;
    } else {
      IdsSplit(p, q[..|q| - 1]);
      assert (p + q)[..|p + q| - 1] == p + q[..|q| - 1];
    }
  }

  /** The first n terms, or all of them. */
  function TermsTo(a: Tensor, b: Tensor, i: nat, j: nat, n: nat): real {
    Terms(a, b, i, j, if n <= a.cols then n else a.cols)
  }

  lemma {:induction false} SumIsTerms(a: Tensor, b: Tensor, i: nat, j: nat, base: nat, n: nat)
    ensures TermsTo(a, b, i, j, base) + Sum(a, b, i, j, base, Upto(n)) == TermsTo(a, b, i, j, base + n)
  {
    if n > 0 {
      SumIsTerms(a, b, i, j, base, n - 1);
      assert Upto(n)[..n - 1] == Upto(n - 1);
    }
  }

  lemma {:induction false} PlainIsTerms(s: Kinds, args: seq<Tensor>, specs: seq<Spec>, a: Tensor, b: Tensor, step: nat,
                                        i: nat, j: nat, body: seq<Stmt>, n: nat)
    requires CoversStep(body, step)
    ensures Plain(OnElement(s, args, specs, a, b, step, i, j), body, n, 0.0) == TermsTo(a, b, i, j, n * step)
  {
    hide Terms, RunBody;
    if n > 0 {
      PlainIsTerms(s, args, specs, a, b, step, i, j, body, n - 1);
      BodySums(s, args, specs, a, b, step, i, j, n - 1, body, TermsTo(a, b, i, j, (n - 1) * step));
      Next(n, step);
      SumIsTerms(a, b, i, j, (n - 1) * step, step);
    } else {
      NoTerms(a, b, i, j);
    }
  }

  lemma NoTerms(a: Tensor, b: Tensor, i: nat, j: nat)
    ensures TermsTo(a, b, i, j, 0) == 0.0
  {
  }

  lemma Next(n: nat, step: nat)
    requires n > 0
    ensures n * step == (n - 1) * step + step && (n - 1) * step >= 0
  {
  }

  /** The stores that the epilogue comes too early for. */
  function Late(body: seq<Stmt>): seq<Stmt> {
    body[InsertAt(body)..]
  }

  /** In the last iteration no store behind the epilogue adds anything any more. */
  predicate NothingLate(body: seq<Stmt>, base: int, inner: nat) {
    forall c :: 0 <= c < |Late(body)| && Late(body)[c].Update? ==> base + Late(body)[c].id >= inner
  }

  lemma {:induction false} LateSum(a: Tensor, b: Tensor, i: int, j: int, base: int, late: seq<Stmt>)
    requires forall c :: 0 <= c < |late| && late[c].Update? ==> base + late[c].id >= a.cols
    ensures Sum(a, b, i, j, base, Ids(late)) == 0.0
  {
    if late != [] {
      var before, last := late[..|late| - 1], late[|late| - 1];
      LateSum(a, b, i, j, base, before);
      if last.Update? {
        SumSnoc(a, b, i, j, base, Ids(before), last.id);
      } else {
        assert Ids(late) == Ids(before);
      }
    }
  }

  /** The fused loop: the earlier iterations, the early stores of the last one, the chain, the late stores. */
  lemma FusedIs(s: Kinds, args: seq<Tensor>, specs: seq<Spec>, a: Tensor, b: Tensor, step: nat, i: nat, j: nat,
                body: seq<Stmt>, trip: nat)
    requires CoversStep(body, step) && trip >= 1
    ensures var e, base := OnElement(s, args, specs, a, b, step, i, j), (trip - 1) * step;
            var late := Sum(a, b, i, j, base, Ids(Late(body)));
            Fused(e, body, trip, 0.0) == Apply(s, args, specs, TermsTo(a, b, i, j, trip * step) - late, i, j) + late
  {
    hide Terms, RunBody, Plain, Apply, Sum, OnElement, CoversStep, Term;
    var e, base, at := OnElement(s, args, specs, a, b, step, i, j), (trip - 1) * step, InsertAt(body);
    EarlierIterations(e, body, trip, trip - 1, 0.0);
    PlainIsTerms(s, args, specs, a, b, step, i, j, body, trip - 1);
    var x := TermsTo(a, b, i, j, base);
    BodySums(s, args, specs, a, b, step, i, j, trip - 1, body[..at], x);
    var y := RunBody(e, trip - 1, body[..at], x);
    AddsTerm(s, args, specs, a, b, step, i, j, trip - 1, 0, y);
    BodySums(s, args, specs, a, b, step, i, j, trip - 1, Late(body), e.Finish(y));
    EarlyAndLate(a, b, i, j, step, body, base);
    Next(trip, step);
  }

  lemma EarlyAndLate(a: Tensor, b: Tensor, i: nat, j: nat, step: nat, body: seq<Stmt>, base: nat)
    requires CoversStep(body, step)
    ensures TermsTo(a, b, i, j, base) + Sum(a, b, i, j, base, Ids(body[..InsertAt(body)]))
         == TermsTo(a, b, i, j, base + step) - Sum(a, b, i, j, base, Ids(Late(body)))
  {
    hide Term;
    var at := InsertAt(body);
    assert body == body[..at] + Late(body);
    IdsSplit(body[..at], Late(body));
    SumSplits(a, b, i, j, base, Ids(body[..at]), Ids(Late(body)));
    SumIsTerms(a, b, i, j, base, step);
  }

  // ---- against the graph --------------------------------------------------

  /** A body whose stores add all terms in `trip` iterations of `step` terms; one iteration where there is no K loop. */
  predicate Complete(body: seq<Stmt>, step: nat, trip: nat, inner: nat) {
    CoversStep(body, step) && trip * step >= inner
  }

  ghost predicate ElementRight(s: Kinds, g: Graph, args: seq<Tensor>, region: seq<NodeId>, specs: seq<Spec>,
                               body: seq<Stmt>, step: nat, trip: nat, i: nat, j: nat)
    requires Translated(g, region, specs) && |args| == |g.inputs|
  {
    Fused(OnElement(s, args, specs, Lhs(g, args, region), Rhs(g, args, region), step, i, j), body, trip, 0.0)
    == ResultCell(s, g, args, region, specs, i, j)
  }

  /** Whatever the operations and the arguments are. */
  ghost predicate AlwaysRight(g: Graph, region: seq<NodeId>, specs: seq<Spec>, body: seq<Stmt>, step: nat, trip: nat)
    requires Translated(g, region, specs)
  {
    forall s: Kinds, args: seq<Tensor>, i: nat, j: nat ::
      Fitting(g, args) && i < OutOf(g, region).rows && j < OutOf(g, region).cols ==>
        ElementRight(s, g, args, region, specs, body, step, trip, i, j)
  }

  lemma RightWhenNothingLate(s: Kinds, g: Graph, args: seq<Tensor>, region: seq<NodeId>, specs: seq<Spec>,
                             body: seq<Stmt>, step: nat, trip: nat, i: nat, j: nat)
    requires Translated(g, region, specs) && Fitting(g, args)
    requires Complete(body, step, trip, InnerOf(g, region))
    requires trip >= 1 && NothingLate(body, (trip - 1) * step, InnerOf(g, region))
    ensures ElementRight(s, g, args, region, specs, body, step, trip, i, j)
  {
    hide Cell, Finished, Apply, Term, Sum, Terms, OnElement, SpecsFor, CoversStep;
    var a, b := Lhs(g, args, region), Rhs(g, args, region);
    ArgumentShape(g, args, g.nodes[region[0]].inputs[0]);
    FusedIs(s, args, specs, a, b, step, i, j, body, trip);
    LateSum(a, b, i, j, (trip - 1) * step, Late(body));
    FusedCell(s, g, args, region, specs, i, j);
  }

  /** Operations that give the same number whatever they are given. */
  function Constant(c: real): Kinds {
    Kinds((name, x) => c, (name, x, y) => c, (along, row, j) => 0.0)
  }

  lemma ConstantChain(c: real, args: seq<Tensor>, specs: seq<Spec>, x: real, i: int, j: int)
    requires specs != []
    ensures Apply(Constant(c), args, specs, x, i, j) == c
  {
  }

  function OnesLike(shape: Shape): Tensor {
    Tensor(shape.rows, shape.cols, (i, j) => 1.0)
  }

  function Ones(g: Graph): (r: seq<Tensor>)
    ensures |r| == |g.inputs|
    ensures forall k :: 0 <= k < |r| ==> r[k] == OnesLike(ShapeOf(g, g.inputs[k]))
  {
    seq(|g.inputs|, k requires 0 <= k < |g.inputs| => OnesLike(ShapeOf(g, g.inputs[k])))
  }

  lemma OnesTerm(sa: Shape, sb: Shape, i: int, j: int, k: int)
    ensures Term(OnesLike(sa), OnesLike(sb), i, j, k) == if 0 <= k < sa.cols then 1.0 else 0.0
  {
    var a, b := OnesLike(sa), OnesLike(sb);
    assert a.at(i, k) == 1.0 && b.at(k, j) == 1.0;
  }

  /** Some store of the body still adds a term. */
  predicate AddsSome(body: seq<Stmt>, base: int, inner: nat) {
    exists c :: 0 <= c < |body| && body[c].Update? && base + body[c].id < inner
  }

  lemma AddsSomeSplits(body: seq<Stmt>, base: int, inner: nat)
    requires body != []
    ensures var before, last := body[..|body| - 1], body[|body| - 1];
            AddsSome(body, base, inner) ==> AddsSome(before, base, inner) || (last.Update? && base + last.id < inner)
  {
    if c :| 0 <= c < |body| && body[c].Update? && base + body[c].id < inner {
      var before := body[..|body| - 1];
      assert c < |before| ==> before[c] == body[c];
    }
  }

  lemma {:induction false} OnesSum(sa: Shape, sb: Shape, i: int, j: int, base: int, late: seq<Stmt>)
    requires base >= 0
    ensures Sum(OnesLike(sa), OnesLike(sb), i, j, base, Ids(late)) >= if AddsSome(late, base, sa.cols) then 1.0 else 0.0
  {
    if late != [] {
      hide Term, OnesLike, AddsSome, Sum;
      var before, last := late[..|late| - 1], late[|late| - 1];
      OnesSum(sa, sb, i, j, base, before);
      AddsSomeSplits(late, base, sa.cols);
      if last.Update? {
        SumSnoc(OnesLike(sa), OnesLike(sb), i, j, base, Ids(before), last.id);
        OnesTerm(sa, sb, i, j, base + last.id);
      } else {
        assert Ids(late) == Ids(before);
      }
    }
  }

  lemma OnesFit(g: Graph)
    requires Finished(g)
    ensures Fitting(g, Ones(g))
  {
    InputsInRange(g);
    forall k | 0 <= k < |g.inputs| ensures g.inputs[k] in g.inputs {}
  }

  lemma WrongWithoutIterations(g: Graph, region: seq<NodeId>, specs: seq<Spec>, body: seq<Stmt>, step: nat)
    requires Translated(g, region, specs) && specs != [] && |Ones(g)| == |g.inputs|
    ensures !ElementRight(Constant(1.0), g, Ones(g), region, specs, body, step, 0, 0, 0)
  {
    hide Cell, Finished, Apply, Terms, OnElement, SpecsFor, Ones;
    OnesFit(g);
    var s, args := Constant(1.0), Ones(g);
    FusedCell(s, g, args, region, specs, 0, 0);
    ConstantChain(1.0, args, specs, MatMulCell(g, args, region, 0, 0), 0, 0);
  }

  lemma WrongWhenLate(g: Graph, region: seq<NodeId>, specs: seq<Spec>, body: seq<Stmt>, step: nat, trip: nat)
    requires Translated(g, region, specs) && specs != [] && Complete(body, step, trip, InnerOf(g, region)) && trip >= 1
    requires !NothingLate(body, (trip - 1) * step, InnerOf(g, region)) && |Ones(g)| == |g.inputs|
    ensures !ElementRight(Constant(0.0), g, Ones(g), region, specs, body, step, trip, 0, 0)
  {
    hide Cell, Finished, Apply, Terms, OnElement, SpecsFor, Sum, CoversStep;
    OnesFit(g);
    var s, args, base := Constant(0.0), Ones(g), (trip - 1) * step;
    var n := g.nodes[region[0]];
    var sa, sb := ShapeOf(g, n.inputs[0]), ShapeOf(g, n.inputs[1]);
    var a, b := Lhs(g, args, region), Rhs(g, args, region);
    assert a == OnesLike(sa) && b == OnesLike(sb);
    FusedCell(s, g, args, region, specs, 0, 0);
    ConstantChain(0.0, args, specs, MatMulCell(g, args, region, 0, 0), 0, 0);
    FusedIs(s, args, specs, a, b, step, 0, 0, body, trip);
    ConstantChain(0.0, args, specs,
                  TermsTo(a, b, 0, 0, trip * step) - Sum(a, b, 0, 0, base, Ids(Late(body))), 0, 0);
    OnesSum(sa, sb, 0, 0, base, Late(body));
    assert AddsSome(Late(body), base, sa.cols);
  }

  /** The chain inside the launch gives the graph's result in every element, whatever the operations and arguments,
      exactly when the loop runs and its last iteration adds nothing behind the first barrier. */
  lemma InLaunchIsRightIff(g: Graph, region: seq<NodeId>, specs: seq<Spec>, body: seq<Stmt>, step: nat, trip: nat)
    requires Translated(g, region, specs) && specs != [] && Complete(body, step, trip, InnerOf(g, region))
    requires OutOf(g, region).rows > 0 && OutOf(g, region).cols > 0
    ensures AlwaysRight(g, region, specs, body, step, trip)
       <==> trip >= 1 && NothingLate(body, (trip - 1) * step, InnerOf(g, region))
  {
    hide ElementRight, Finished, Complete, NothingLate;
    if trip == 0 {
      OnesFit(g);
      WrongWithoutIterations(g, region, specs, body, step);
    } else if NothingLate(body, (trip - 1) * step, InnerOf(g, region)) {
      forall s: Kinds, args: seq<Tensor>, i: nat, j: nat
        | Fitting(g, args) && i < OutOf(g, region).rows && j < OutOf(g, region).cols
        ensures ElementRight(s, g, args, region, specs, body, step, trip, i, j) {
        RightWhenNothingLate(s, g, args, region, specs, body, step, trip, i, j);
      }
    } else {
      OnesFit(g);
      WrongWhenLate(g, region, specs, body, step, trip);
    }
  }

  /** In the last of the iterations over a K loop. */
  lemma LastKIsRightIff(g: Graph, region: seq<NodeId>, specs: seq<Spec>, body: seq<Stmt>, step: nat)
    requires Translated(g, region, specs) && specs != [] && step > 0 && CoversStep(body, step)
    requires OutOf(g, region).rows > 0 && OutOf(g, region).cols > 0
    ensures var trip := Trip(0, InnerOf(g, region), step);
            AlwaysRight(g, region, specs, body, step, trip)
            <==> InnerOf(g, region) > 0 && NothingLate(body, (trip - 1) * step, InnerOf(g, region))
  {
    hide Finished, CoversStep, NothingLate, AlwaysRight, SpecsFor;
    var inner := InnerOf(g, region);
    var trip := Trip(0, inner, step);
    TripIs(0, inner, step, trip);
    TripIs(0, inner, step, 0);
    InLaunchIsRightIff(g, region, specs, body, step, trip);
  }

  /** In a launch of one tile, whose body adds all terms. */
  lemma SingleTileIsRightIff(g: Graph, region: seq<NodeId>, specs: seq<Spec>, body: seq<Stmt>)
    requires Translated(g, region, specs) && specs != [] && CoversStep(body, InnerOf(g, region))
    requires OutOf(g, region).rows > 0 && OutOf(g, region).cols > 0
    ensures AlwaysRight(g, region, specs, body, InnerOf(g, region), 1) <==> UpdatesBeforeFirstBarrier(body)
  {
    hide Finished, CoversStep, AlwaysRight, SpecsFor;
    var inner := InnerOf(g, region);
    InLaunchIsRightIff(g, region, specs, body, inner, 1);
    forall c | 0 <= c < |body| && body[c].Update? ensures body[c].id < inner {
      IdIsIn(body, c);
      assert body[c].id in Ids(body) && Ids(body) == Upto(inner) by {
        CoversIs(body, inner);
      }
    }
    forall c | 0 <= c < |Late(body)| ensures Late(body)[c] == body[InsertAt(body) + c] {}
    if NothingLate(body, 0, inner) {
      forall c | InsertAt(body) <= c < |body| ensures !body[c].Update? {
        assert Late(body)[c - InsertAt(body)] == body[c];
      }
    }
  }

  lemma CoversIs(body: seq<Stmt>, step: nat)
    requires CoversStep(body, step)
    ensures Ids(body) == Upto(step)
  {
  }

  lemma {:induction false} IdIsIn(body: seq<Stmt>, c: nat)
    requires c < |body| && body[c].Update?
    ensures body[c].id in Ids(body)
  {
    var before := body[..|body| - 1];
    if c < |before| {
      IdIsIn(before, c);
      assert before[c] == body[c];
    }
  }

  // ---- the launch ---------------------------------------------------------

  /** A thread's tile of the output. */
  datatype Tile = Tile(view: View, rows: nat, cols: nat)
  {
    predicate Has(i: int, j: int) {
      At(view, 0, 0).0 <= i < At(view, 0, 0).0 + rows && At(view, 0, 0).1 <= j < At(view, 0, 0).1 + cols
    }

    predicate Inside(m: nat, n: nat) {
      At(view, 0, 0).0 + rows <= m && At(view, 0, 0).1 + cols <= n
    }

    /** Element (i, j) comes before (row, col) of the tile. */
    predicate Passed(i: int, j: int, row: int, col: int) {
      Has(i, j) && (i - At(view, 0, 0).0 < row || (i - At(view, 0, 0).0 == row && j - At(view, 0, 0).1 < col))
    }
  }

  /** What a launch computes. */
  datatype Job = Job(s: Kinds, args: seq<Tensor>, specs: seq<Spec>, a: Tensor, b: Tensor, step: nat, body: seq<Stmt>)
  {
    predicate Valid() { a.cols == b.rows && step > 0 && Bounds(0, a.cols, step) }

    function Element(i: int, j: int): Effect { OnElement(s, args, specs, a, b, step, i, j) }
  }

  predicate For(p: Job, tile: Tile, out: array2<real>) {
    out.Length0 == p.a.rows && out.Length1 == p.b.cols && p.a.cols == p.b.rows && tile.Inside(out.Length0, out.Length1)
  }

  /** One store of the body, to every element of the tile. */
  method UpdateTile(p: Job, tile: Tile, n: nat, id: nat, out: array2<real>)
    requires For(p, tile, out)
    modifies out
    ensures forall i, j :: 0 <= i < out.Length0 && 0 <= j < out.Length1 ==>
              out[i, j] == if tile.Has(i, j) then p.Element(i, j).Apply(n, id, old(out[i, j])) else old(out[i, j])
  {
    for row := 0 to tile.rows
      invariant forall i, j :: 0 <= i < out.Length0 && 0 <= j < out.Length1 ==>
                  out[i, j] == if tile.Passed(i, j, row, 0) then p.Element(i, j).Apply(n, id, old(out[i, j]))
                               else old(out[i, j])
    {
      for col := 0 to tile.cols
        invariant forall i, j :: 0 <= i < out.Length0 && 0 <= j < out.Length1 ==>
                    out[i, j] == if tile.Passed(i, j, row, col) then p.Element(i, j).Apply(n, id, old(out[i, j]))
                                 else old(out[i, j])
      {
        AtShifts(tile.view, row, col);
        var (i, j) := At(tile.view, row, col);
        var k := n * p.step + id;
        AddsTerm(p.s, p.args, p.specs, p.a, p.b, p.step, i, j, n, id, out[i, j]);
        if k < p.a.cols {
          out[i, j] := out[i, j] + Load(p.a, i, k) * Load(p.b, k, j);
        }
      }
    }
  }

  /** The chain on every element of the tile. Other operands are read through the same chain of views. */
  method TileEpilogue(p: Job, tile: Tile, out: array2<real>)
    requires For(p, tile, out)
    modifies out
    ensures forall i, j :: 0 <= i < out.Length0 && 0 <= j < out.Length1 ==>
              out[i, j] == if tile.Has(i, j) then p.Element(i, j).Finish(old(out[i, j])) else old(out[i, j])
  {
    hide Apply;
    for row := 0 to tile.rows
      invariant forall i, j :: 0 <= i < out.Length0 && 0 <= j < out.Length1 ==>
                  out[i, j] == if tile.Passed(i, j, row, 0) then p.Element(i, j).Finish(old(out[i, j]))
                               else old(out[i, j])
    {
      for col := 0 to tile.cols
        invariant forall i, j :: 0 <= i < out.Length0 && 0 <= j < out.Length1 ==>
                    out[i, j] == if tile.Passed(i, j, row, col) then p.Element(i, j).Finish(old(out[i, j]))
                                 else old(out[i, j])
      {
        AtShifts(tile.view, row, col);
        var (i, j) := At(tile.view, row, col);
        AddsTerm(p.s, p.args, p.specs, p.a, p.b, p.step, i, j, 0, 0, out[i, j]);
        out[i, j] := Apply(p.s, p.args, p.specs, out[i, j], i, j);
      }
    }
  }

  method RunOnTile(p: Job, tile: Tile, n: nat, body: seq<Stmt>, out: array2<real>)
    requires For(p, tile, out)
    modifies out
    ensures forall i, j :: 0 <= i < out.Length0 && 0 <= j < out.Length1 ==>
              out[i, j] == if tile.Has(i, j) then RunBody(p.Element(i, j), n, body, old(out[i, j])) else old(out[i, j])
  {
    hide OnElement;
    for c := 0 to |body|
      invariant forall i, j :: 0 <= i < out.Length0 && 0 <= j < out.Length1 ==>
                  out[i, j] == if tile.Has(i, j) then RunBody(p.Element(i, j), n, body[..c], old(out[i, j]))
                               else old(out[i, j])
    {
      assert body[..c + 1][..c] == body[..c];
      if body[c].Update? {
        UpdateTile(p, tile, n, body[c].id, out);
      }
    }
    assert body[..|body|] == body;
  }

  /** One iteration of the rewritten body. */
  method TileIteration(p: Job, tile: Tile, n: nat, last: bool, out: array2<real>)
    requires For(p, tile, out)
    modifies out
    ensures forall i, j :: 0 <= i < out.Length0 && 0 <= j < out.Length1 ==>
              out[i, j] == if tile.Has(i, j) then FusedIteration(p.Element(i, j), p.body, n, last, old(out[i, j]))
                           else old(out[i, j])
  {
    hide RunBody, OnElement;
    var at := InsertAt(p.body);
    RunOnTile(p, tile, n, p.body[..at], out);
    if last {
      TileEpilogue(p, tile, out);
    }
    RunOnTile(p, tile, n, p.body[at..], out);
  }

  /** The K loop of one thread. */
  method LastKTile(p: Job, tile: Tile, out: array2<real>)
    requires p.Valid() && For(p, tile, out)
    modifies out
    ensures forall i, j :: 0 <= i < out.Length0 && 0 <= j < out.Length1 ==>
              out[i, j] == if tile.Has(i, j)
                           then Fused(p.Element(i, j), p.body, Trip(0, p.a.cols, p.step), old(out[i, j]))
                           else old(out[i, j])
  {
    hide FusedIteration, OnElement;
    var k, n, ub := 0, 0, p.a.cols;
    ghost var trip := Trip(0, ub, p.step);
    TripIs(0, ub, p.step, 0);
    while k < ub
      invariant k == 0 + n * p.step && 0 <= n <= trip && (k < ub <==> n < trip)
      invariant forall i, j :: 0 <= i < out.Length0 && 0 <= j < out.Length1 ==>
                  out[i, j] == if tile.Has(i, j) then FusedUpTo(p.Element(i, j), p.body, trip, n, old(out[i, j]))
                               else old(out[i, j])
      decreases trip - n
    {
      TripIs(0, ub, p.step, n + 1);
      GuardAt(0, ub, p.step, n);
      TileIteration(p, tile, n, Guard(k, ub, p.step), out);
      k, n := k + p.step, n + 1;
    }
  }

  /** The tiles are inside the output, no two have an element in common. */
  ghost predicate Tiling(tiles: seq<Tile>, rows: nat, cols: nat) {
    && (forall t :: 0 <= t < |tiles| ==> tiles[t].Inside(rows, cols))
    && (forall t, u, i, j :: 0 <= t < u < |tiles| && tiles[t].Has(i, j) ==> !tiles[u].Has(i, j))
  }

  ghost predicate Tiled(tiles: seq<Tile>, i: int, j: int) {
    exists t :: 0 <= t < |tiles| && tiles[t].Has(i, j)
  }

  /** Every thread runs its K loop on its own tile, so they may run one after another. */
  method LastKLaunch(p: Job, tiles: seq<Tile>, out: array2<real>)
    requires p.Valid() && out.Length0 == p.a.rows && out.Length1 == p.b.cols && Tiling(tiles, out.Length0, out.Length1)
    modifies out
    ensures forall i, j :: 0 <= i < out.Length0 && 0 <= j < out.Length1 ==>
              out[i, j] == if Tiled(tiles, i, j)
                           then Fused(p.Element(i, j), p.body, Trip(0, p.a.cols, p.step), old(out[i, j]))
                           else old(out[i, j])
  {
    hide Fused, OnElement;
    for t := 0 to |tiles|
      invariant forall i, j :: 0 <= i < out.Length0 && 0 <= j < out.Length1 ==>
                  out[i, j] == if Tiled(tiles[..t], i, j)
                               then Fused(p.Element(i, j), p.body, Trip(0, p.a.cols, p.step), old(out[i, j]))
                               else old(out[i, j])
    {
      OneMoreTile(tiles, t);
      LastKTile(p, tiles[t], out);
    }
    assert tiles[..|tiles|] == tiles;
  }

  lemma OneMoreTile(tiles: seq<Tile>, t: nat)
    requires t < |tiles|
    requires forall u, v, i, j :: 0 <= u < v < |tiles| && tiles[u].Has(i, j) ==> !tiles[v].Has(i, j)
    ensures forall i, j :: Tiled(tiles[..t + 1], i, j) <==> Tiled(tiles[..t], i, j) || tiles[t].Has(i, j)
    ensures forall i, j :: tiles[t].Has(i, j) ==> !Tiled(tiles[..t], i, j)
  {
    forall i, j ensures Tiled(tiles[..t + 1], i, j) <==> Tiled(tiles[..t], i, j) || tiles[t].Has(i, j) {
      if Tiled(tiles[..t], i, j) {
        var u :| 0 <= u < t && tiles[..t][u].Has(i, j);
        assert tiles[..t + 1][u].Has(i, j);
      }
      if tiles[t].Has(i, j) {
        assert tiles[..t + 1][t].Has(i, j);
      }
      if Tiled(tiles[..t + 1], i, j) {
        var u :| 0 <= u < t + 1 && tiles[..t + 1][u].Has(i, j);
        assert u < t ==> tiles[..t][u].Has(i, j);
      }
    }
  }

  /** A launch without a K loop: its body once, with the epilogue. */
  method SingleTileLaunch(p: Job, tile: Tile, out: array2<real>)
    requires For(p, tile, out)
    modifies out
    ensures forall i, j :: 0 <= i < out.Length0 && 0 <= j < out.Length1 ==>
              out[i, j] == if tile.Has(i, j) then Fused(p.Element(i, j), p.body, 1, old(out[i, j])) else old(out[i, j])
  {
    hide Fused, FusedIteration, OnElement;
    TileIteration(p, tile, 0, true, out);
    forall i, j | 0 <= i < out.Length0 && 0 <= j < out.Length1
      ensures Fused(p.Element(i, j), p.body, 1, old(out[i, j]))
           == FusedIteration(p.Element(i, j), p.body, 0, true, old(out[i, j])) {
      Once(p.Element(i, j), p.body, old(out[i, j]));
    }
  }

  lemma Once(e: Effect, body: seq<Stmt>, x: real)
    ensures Fused(e, body, 1, x) == FusedIteration(e, body, 0, true, x)
  {
    hide FusedIteration;
    assert FusedUpTo(e, body, 1, 0, x) == x;
  }
}
