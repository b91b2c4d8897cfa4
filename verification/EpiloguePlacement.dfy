/** Putting the chain inside the launch: before the first barrier of the K loop's body in its last iteration, or of a
    launch body without a K loop. */
module EpiloguePlacement {
  import opened Grid

  datatype Stmt = Barrier | Update(id: nat) | Other

  /** What the body's stores and the chain do to one output element; nothing is known about them. */
  datatype Effect = Effect(update: (int, nat, real) -> real, chain: real -> real)
  {
    function Apply(k: int, id: nat, x: real): real { update(k, id, x) }
    function Finish(x: real): real { chain(x) }
  }

  function RunStmt(e: Effect, k: int, c: Stmt, x: real): real {
    if c.Update? then e.Apply(k, c.id, x) else x
  }

  function RunBody(e: Effect, k: int, body: seq<Stmt>, x: real): real {
    if body == [] then x else RunStmt(e, k, body[|body| - 1], RunBody(e, k, body[..|body| - 1], x))
  }

  /** Where the epilogue is inserted: before the first barrier, or at the end. */
  function InsertAt(body: seq<Stmt>): (i: nat)
    ensures i <= |body| && (forall j :: 0 <= j < i ==> body[j] != Barrier) && (i < |body| ==> body[i] == Barrier)
  {
    if body == [] || body[0] == Barrier then 0 else 1 + InsertAt(body[1..])
  }

  /** Iterations 0 to n of the loop as it was. */
  function Plain(e: Effect, body: seq<Stmt>, n: nat, x: real): real {
    if n == 0 then x else RunBody(e, n - 1, body, Plain(e, body, n - 1, x))
  }

  /** An iteration with the guarded epilogue: it runs when the next K index reaches the bound. */
  function FusedIteration(e: Effect, body: seq<Stmt>, k: int, last: bool, x: real): real {
    var at := InsertAt(body);
    var before := RunBody(e, k, body[..at], x);
    RunBody(e, k, body[at..], if last then e.Finish(before) else before)
  }

  const WORD := 0x1_0000_0000_0000_0000

  /** How an unsigned comparison reads an index. */
  function Unsigned(x: int): nat { x % WORD }

  /** The emitted test for the last iteration, an unsigned comparison of the next index with the bound. */
  predicate Guard(k: int, ub: int, step: int) {
    Unsigned(k + step) >= Unsigned(ub)
  }

  /** Bounds as K loops have them: signed words, the upper one an extent. */
  predicate Bounds(lb: int, ub: int, step: int) {
    -(WORD / 2) <= lb && 0 <= ub < WORD / 2 && 0 < step < WORD / 2
  }

  /** The guard holds in the last iteration and in no other, exactly when no index after the first is negative. */
  lemma GuardIsLastIff(lb: int, ub: int, step: int)
    requires Bounds(lb, ub, step) && lb < ub
    ensures (forall i: nat :: i < Trip(lb, ub, step) ==> (Guard(lb + i * step, ub, step) <==> i == Trip(lb, ub, step) - 1))
       <==> lb + step >= 0
  {
    var n := Trip(lb, ub, step);
    TripIs(lb, ub, step, 0);
    if lb + step >= 0 {
      forall i: nat | i < n ensures Guard(lb + i * step, ub, step) <==> i == n - 1 {
        GuardAt(lb, ub, step, i);
      }
    } else {
      TripIs(lb, ub, step, 1);
      assert n > 1;
      assert lb + 0 * step == lb && Guard(lb, ub, step);
      assert !(Guard(lb + 0 * step, ub, step) <==> 0 == n - 1);
    }
  }

  lemma GuardAt(lb: int, ub: int, step: int, i: nat)
    requires Bounds(lb, ub, step) && lb + step >= 0 && i < Trip(lb, ub, step)
    ensures Guard(lb + i * step, ub, step) <==> i == Trip(lb, ub, step) - 1
  {
    TripIs(lb, ub, step, i);
    TripIs(lb, ub, step, i + 1);
    MulMonotone(0, i, step);
  }

  /** The rewritten loop over `for k = lb to ub step step`, on one output element. */
  method FusedLoop(e: Effect, body: seq<Stmt>, lb: int, ub: int, step: int, x: real) returns (r: real)
    requires Bounds(lb, ub, step) && lb + step >= 0
    ensures r == Fused(e, body, Trip(lb, ub, step), x)
  {
    r := x;
    var k, i := lb, 0;
    TripIs(lb, ub, step, 0);
    while k < ub
      invariant k == lb + i * step && 0 <= i <= Trip(lb, ub, step) && (k < ub <==> i < Trip(lb, ub, step))
      invariant r == FusedUpTo(e, body, Trip(lb, ub, step), i, x)
      decreases Trip(lb, ub, step) - i
    {
      TripIs(lb, ub, step, i + 1);
      GuardAt(lb, ub, step, i);
      r := FusedIteration(e, body, i, Guard(k, ub, step), r);
      k, i := k + step, i + 1;
    }
  }

  function FusedUpTo(e: Effect, body: seq<Stmt>, trip: nat, n: nat, x: real): real {
    if n == 0 then x else FusedIteration(e, body, n - 1, n == trip, FusedUpTo(e, body, trip, n - 1, x))
  }

  function Fused(e: Effect, body: seq<Stmt>, trip: nat, x: real): real {
    FusedUpTo(e, body, trip, trip, x)
  }

  /** A launch body without a K loop is a loop that runs once. */
  predicate UpdatesBeforeFirstBarrier(body: seq<Stmt>) {
    forall j :: InsertAt(body) <= j < |body| ==> !body[j].Update?
  }

  lemma {:induction false} RunBodySplits(e: Effect, k: int, a: seq<Stmt>, b: seq<Stmt>, x: real)
    ensures RunBody(e, k, a + b, x) == RunBody(e, k, b, RunBody(e, k, a, x))
  {
    if b == [] {
      assert a + b == a;
    } else {
      RunBodySplits(e, k, a, b[..|b| - 1], x);
      assert (a + b)[..|a + b| - 1] == a + b[..|b| - 1];
    }
  }

  lemma {:induction false} NoUpdates(e: Effect, k: int, body: seq<Stmt>, x: real)
    requires forall j :: 0 <= j < |body| ==> !body[j].Update?
    ensures RunBody(e, k, body, x) == x
  {
    if body != [] {
      NoUpdates(e, k, body[..|body| - 1], x);
    }
  }

  lemma {:induction false} EarlierIterations(e: Effect, body: seq<Stmt>, trip: nat, n: nat, x: real)
    requires n < trip
    ensures FusedUpTo(e, body, trip, n, x) == Plain(e, body, n, x)
  {
    if n > 0 {
      EarlierIterations(e, body, trip, n - 1, x);
      var at := InsertAt(body);
      assert body == body[..at] + body[at..];
      RunBodySplits(e, n - 1, body[..at], body[at..], Plain(e, body, n - 1, x));
    }
  }

  ghost predicate AlwaysRight(body: seq<Stmt>, trip: nat) {
    forall e: Effect, x: real :: Fused(e, body, trip, x) == e.Finish(Plain(e, body, trip, x))
  }

  /** Every update adds one; the chain clears. */
  function Counting(): Effect {
    Effect((k, id, x) => x + 1.0, x => 0.0)
  }

  lemma {:induction false} CountsUpdates(body: seq<Stmt>, k: int, x: real)
    ensures RunBody(Counting(), k, body, x) >= x
    ensures (exists j :: 0 <= j < |body| && body[j].Update?) ==> RunBody(Counting(), k, body, x) > x
  {
    if body != [] {
      CountsUpdates(body[..|body| - 1], k, x);
      if j :| 0 <= j < |body| && body[j].Update? {
        assert j < |body| - 1 ==> body[..|body| - 1][j].Update?;
      }
    }
  }

  /** Whatever the stores and the chain are, the element ends as the finished loop's value with the chain applied once,
      exactly when the loop runs at all and its body has no store to the output behind the first barrier. */
  lemma PlacementIsRightIff(body: seq<Stmt>, trip: nat)
    ensures AlwaysRight(body, trip) <==> trip >= 1 && UpdatesBeforeFirstBarrier(body)
  {
    if trip == 0 {
      var e := Effect((k, id, x) => x, x => x + 1.0);
      assert Fused(e, body, 0, 0.0) == 0.0 && e.Finish(Plain(e, body, 0, 0.0)) == 1.0;
    } else if UpdatesBeforeFirstBarrier(body) {
      forall e: Effect, x: real ensures Fused(e, body, trip, x) == e.Finish(Plain(e, body, trip, x)) {
        RightWhenBefore(e, body, trip, x);
      }
    } else {
      WrongWhenBehind(body, trip);
    }
  }

  lemma RightWhenBefore(e: Effect, body: seq<Stmt>, trip: nat, x: real)
    requires trip >= 1 && UpdatesBeforeFirstBarrier(body)
    ensures Fused(e, body, trip, x) == e.Finish(Plain(e, body, trip, x))
  {
    hide RunBody;
    var at := InsertAt(body);
    assert body == body[..at] + body[at..];
    EarlierIterations(e, body, trip, trip - 1, x);
    var y := Plain(e, body, trip - 1, x);
    RunBodySplits(e, trip - 1, body[..at], body[at..], y);
    NoUpdates(e, trip - 1, body[at..], RunBody(e, trip - 1, body[..at], y));
    NoUpdates(e, trip - 1, body[at..], e.Finish(RunBody(e, trip - 1, body[..at], y)));
  }

  lemma WrongWhenBehind(body: seq<Stmt>, trip: nat)
    requires trip >= 1 && !UpdatesBeforeFirstBarrier(body)
    ensures Fused(Counting(), body, trip, 0.0) != Counting().Finish(Plain(Counting(), body, trip, 0.0))
  {
    var at := InsertAt(body);
    var e := Counting();
    EarlierIterations(e, body, trip, trip - 1, 0.0);
    var j :| at <= j < |body| && body[j].Update?;
    assert body[at..][j - at].Update?;
    CountsUpdates(body[at..], trip - 1, 0.0);
    assert Fused(e, body, trip, 0.0) > 0.0;
  }

  /** The usual body of a staged loop, copy, barrier, accumulate, barrier, is not one of those: its epilogue runs before
      the last tile is accumulated. */
  lemma StagedBodyIsWrong()
    ensures !AlwaysRight([Other, Barrier, Update(0), Barrier], 1)
  {
    var body := [Other, Barrier, Update(0), Barrier];
    assert body[0] == Other && body[1..][0] == Barrier;
    assert InsertAt(body) == 1;
    assert body[2].Update?;
    PlacementIsRightIff(body, 1);
  }
}
