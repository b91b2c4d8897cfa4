/** Keeping matrix accumulators in registers across the K loop instead of loading and storing them each time. */
module AccumulatorHoist {
  type Word = int
  type Fragment = seq<Word>

  /** One multiply-accumulate of the loop body, as one lane sees it: element e of its fragment is loaded from and
      stored to C[addrs[e]]; `target` names the memref and indices of its first store. */
  datatype Mma = Mma(addrs: seq<nat>, target: nat)

  /** mma(k, i, acc) is the i-th multiply-accumulate of iteration k; nothing is known about it but its width. */
  datatype Loop = Loop(mmas: seq<Mma>, trip: nat, width: nat, mma: (nat, nat, Fragment) -> Fragment)
  {
    function Apply(k: nat, i: nat, acc: Fragment): (r: Fragment)
      ensures |r| == width
    {
      var r := mma(k, i, acc);
      if |r| == width then r else Zero()
    }

    function Zero(): (r: Fragment)
      ensures |r| == width
    {
      seq(width, _ => 0)
    }

    /** Equal targets mean equal addresses, different targets mean disjoint ones, and a fragment's elements
        live at different addresses. */
    ghost predicate Valid(size: nat) {
      && (forall i :: 0 <= i < |mmas| ==> |mmas[i].addrs| == width)
      && (forall i, e :: 0 <= i < |mmas| && 0 <= e < width ==> mmas[i].addrs[e] < size)
      && (forall i, j, e, f :: 0 <= i < |mmas| && 0 <= j < |mmas| && 0 <= e < width && 0 <= f < width ==>
            (mmas[i].addrs[e] == mmas[j].addrs[f] <==> mmas[i].target == mmas[j].target && e == f))
    }
  }

  function Load(c: seq<Word>, addrs: seq<nat>): (r: Fragment)
    requires forall e :: 0 <= e < |addrs| ==> addrs[e] < |c|
    ensures |r| == |addrs|
  {
    seq(|addrs|, e requires 0 <= e < |addrs| => c[addrs[e]])
  }

  /** The accumulator of a target after k iterations and the first i multiply-accumulates of the next, when it
      starts as `start`: the target's multiply-accumulates applied in program order. */
  ghost function Chain(p: Loop, start: Fragment, target: nat, k: nat, i: nat): (r: Fragment)
    requires i <= |p.mmas| && |start| == p.width
    ensures |r| == p.width
    decreases k, i
  {
    if i > 0 then
      var before := Chain(p, start, target, k, i - 1);
      if p.mmas[i - 1].target == target then p.Apply(k, i - 1, before) else before
    else if k > 0 then Chain(p, start, target, k - 1, |p.mmas|)
    else start
  }

  ghost predicate Touched(p: Loop, a: nat) {
    exists i, e :: 0 <= i < |p.mmas| && 0 <= e < |p.mmas[i].addrs| && p.mmas[i].addrs[e] == a
  }

  /** C after the loop: every fragment holds its chain, started from what C held or from zero, and nothing
      else has changed. */
  ghost predicate Result(p: Loop, fromZero: bool, before: seq<Word>, after: seq<Word>)
    requires p.Valid(|before|)
  {
    && |after| == |before|
    && (forall i :: 0 <= i < |p.mmas| ==>
          Load(after, p.mmas[i].addrs)
          == Chain(p, if fromZero then p.Zero() else Load(before, p.mmas[i].addrs), p.mmas[i].target, p.trip, 0))
    && (forall a :: 0 <= a < |before| && !Touched(p, a) ==> after[a] == before[a])
  }

  // ---- the loop as it was -------------------------------------------------

  /** Part-way through: k iterations and i multiply-accumulates done. */
  ghost predicate Partial(p: Loop, before: seq<Word>, c: seq<Word>, k: nat, i: nat)
    requires p.Valid(|before|) && i <= |p.mmas|
  {
    && |c| == |before|
    && (forall j :: 0 <= j < |p.mmas| ==>
          Load(c, p.mmas[j].addrs) == Chain(p, Load(before, p.mmas[j].addrs), p.mmas[j].target, k, i))
    && (forall a :: 0 <= a < |before| && !Touched(p, a) ==> c[a] == before[a])
  }

  lemma StoredIsPartial(p: Loop, before: seq<Word>, c: seq<Word>, c': seq<Word>, k: nat, i: nat)
    requires p.Valid(|before|) && i < |p.mmas| && Partial(p, before, c, k, i)
    requires Stored(c, c', p.mmas[i].addrs, p.Apply(k, i, Load(c, p.mmas[i].addrs)), p.width)
    ensures Partial(p, before, c', k, i + 1)
  {
    var m := p.mmas[i];
    forall j | 0 <= j < |p.mmas|
      ensures Load(c', p.mmas[j].addrs) == Chain(p, Load(before, p.mmas[j].addrs), p.mmas[j].target, k, i + 1) {
      if p.mmas[j].target == m.target {
        assert p.mmas[j].addrs == m.addrs;
        assert Load(c', m.addrs) == p.Apply(k, i, Load(c, m.addrs));
      } else {
        forall e | 0 <= e < p.width ensures c'[p.mmas[j].addrs[e]] == c[p.mmas[j].addrs[e]] {
          assert p.mmas[j].addrs[e] !in m.addrs;
        }
        assert Load(c', p.mmas[j].addrs) == Load(c, p.mmas[j].addrs);
      }
    }
    forall a | 0 <= a < |before| && !Touched(p, a) ensures c'[a] == before[a] {
      assert a !in m.addrs;
    }
  }

  /** The first n elements of a fragment are at their addresses and no other cell has changed. */
  ghost predicate Stored(c: seq<Word>, c': seq<Word>, addrs: seq<nat>, f: Fragment, n: nat)
    requires n <= |addrs| && n <= |f| && forall e :: 0 <= e < |addrs| ==> addrs[e] < |c|
  {
    && |c'| == |c|
    && (forall e :: 0 <= e < n ==> c'[addrs[e]] == f[e])
    && (forall a :: 0 <= a < |c| && a !in addrs[..n] ==> c'[a] == c[a])
  }

  method StoreFragment(c: array<Word>, addrs: seq<nat>, f: Fragment)
    requires |addrs| == |f| && forall e :: 0 <= e < |addrs| ==> addrs[e] < c.Length
    requires forall e, g :: 0 <= e < |addrs| && 0 <= g < |addrs| && addrs[e] == addrs[g] ==> e == g
    modifies c
    ensures Stored(old(c[..]), c[..], addrs, f, |addrs|)
  {
    for e := 0 to |addrs|
      invariant Stored(old(c[..]), c[..], addrs, f, e)
    {
      c[addrs[e]] := f[e];
      assert addrs[..e + 1] == addrs[..e] + [addrs[e]];
    }
  }

  /** Load, multiply-accumulate, store, for every one of them in every iteration. */
  method OriginalLoop(p: Loop, c: array<Word>)
    requires p.Valid(c.Length)
    modifies c
    ensures Result(p, false, old(c[..]), c[..])
  {
    hide Partial, Result, Chain, Stored, Load;
    ghost var before := c[..];
    StartIsPartial(p, before);
    for k := 0 to p.trip
      invariant Partial(p, before, c[..], k, 0)
    {
      for i := 0 to |p.mmas|
        invariant Partial(p, before, c[..], k, i)
      {
        ghost var was := c[..];
        var addrs := p.mmas[i].addrs;
        var acc := Load(c[..], addrs);
        StoreFragment(c, addrs, p.Apply(k, i, acc));
        assert addrs[..p.width] == addrs;
        StoredIsPartial(p, before, was, c[..], k, i);
      }
      NextIteration(p, before, c[..], k);
    }
    PartialIsResult(p, before, c[..]);
  }

  lemma StartIsPartial(p: Loop, before: seq<Word>)
    requires p.Valid(|before|)
    ensures Partial(p, before, before, 0, 0)
  {
  }

  lemma NextIteration(p: Loop, before: seq<Word>, c: seq<Word>, k: nat)
    requires p.Valid(|before|) && Partial(p, before, c, k, |p.mmas|)
    ensures Partial(p, before, c, k + 1, 0)
  {
  }

  lemma PartialIsResult(p: Loop, before: seq<Word>, c: seq<Word>)
    requires p.Valid(|before|) && Partial(p, before, c, p.trip, 0)
    ensures Result(p, false, before, c)
  {
  }

  // ---- which operations of the body are not copied ------------------------

  /** Every user of an operation in s is in s: nothing outside s reads a result from inside. */
  ghost predicate Closed(users: seq<set<nat>>, s: set<nat>) {
    forall op, u :: op in s && op < |users| && u in users[op] ==> u in s
  }

  /** What is left out of the copied body: the largest closed set of candidates without the multiply-accumulates, which
      are always copied. So a result that is left out is used by operations left out and by multiply-accumulates only. */
  method SafeToSkip(users: seq<set<nat>>, candidates: set<nat>, mmas: set<nat>) returns (skip: set<nat>)
    requires forall op :: op in candidates ==> op < |users|
    ensures skip <= candidates - mmas
    ensures forall op, u :: op in skip && u in users[op] ==> u in skip || u in mmas
    ensures forall s: set<nat> :: s <= candidates && Closed(users, s) ==> s - mmas <= skip
    ensures exists s: set<nat> :: s <= candidates && Closed(users, s) && skip == s - mmas
  {
    var all := LargestClosed(users, candidates);
    skip := all - mmas;
  }

  /** Drops operations that something outside the set uses until none is left: the largest closed subset. */
  method LargestClosed(users: seq<set<nat>>, candidates: set<nat>) returns (skip: set<nat>)
    requires forall op :: op in candidates ==> op < |users|
    ensures skip <= candidates && Closed(users, skip)
    ensures forall s: set<nat> :: s <= candidates && Closed(users, s) ==> s <= skip
  {
    skip := candidates;
    var changed := true;
    while changed
      invariant skip <= candidates
      invariant !changed ==> Closed(users, skip)
      invariant forall s: set<nat> :: s <= candidates && Closed(users, s) ==> s <= skip
      decreases |skip|, changed
    {
      changed := false;
      var toRemove: set<nat> := {};
      for op := 0 to |users|
        invariant toRemove <= skip
        invariant forall o :: o in toRemove ==> o < |users| && !(users[o] <= skip)
        invariant forall o :: o in skip && o < op && o !in toRemove ==> users[o] <= skip
      {
        if op in skip && !(users[op] <= skip) {
          toRemove := toRemove + {op};
        }
      }
      forall s: set<nat> | s <= candidates && Closed(users, s) ensures s <= skip - toRemove {
        assert s <= skip;
      }
      if toRemove != {} {
        Fewer(skip, toRemove);
        skip, changed := skip - toRemove, true;
      }
    }
  }

  lemma Fewer(a: set<nat>, b: set<nat>)
    requires b <= a && b != {}
    ensures |a - b| < |a|
  {
    assert a == (a - b) + b;
  }

  // ---- grouping -----------------------------------------------------------

  /** Groups are numbered by first appearance; two multiply-accumulates share one exactly when their first stores
      have the same target. */
  ghost predicate Grouped(p: Loop, groupOf: seq<int>, groups: nat)
    requires |groupOf| == |p.mmas|
  {
    && (forall i :: 0 <= i < |groupOf| ==> 0 <= groupOf[i] < groups)
    && (forall i, j :: 0 <= i < |groupOf| && 0 <= j < |groupOf| ==>
          (groupOf[i] == groupOf[j] <==> p.mmas[i].target == p.mmas[j].target))
    && (forall g :: 0 <= g < groups ==> g in groupOf)
  }

  ghost predicate PartlyGrouped(p: Loop, groupOf: seq<int>, groups: nat, i: nat)
    requires |groupOf| == |p.mmas| && i <= |p.mmas|
  {
    && (forall j :: 0 <= j < |groupOf| ==> -1 <= groupOf[j] < groups)
    && (forall j :: 0 <= j < i ==> groupOf[j] >= 0)
    && (forall j, l :: 0 <= j < |groupOf| && 0 <= l < |groupOf| && groupOf[j] >= 0 ==>
          (groupOf[j] == groupOf[l] <==> p.mmas[j].target == p.mmas[l].target))
    && (forall g :: 0 <= g < groups ==> g in groupOf)
  }

  method GroupByTarget(p: Loop) returns (groupOf: seq<int>, groups: nat)
    ensures |groupOf| == |p.mmas| && Grouped(p, groupOf, groups)
  {
    groupOf, groups := seq(|p.mmas|, _ => -1), 0;
    for i := 0 to |p.mmas|
      invariant |groupOf| == |p.mmas| && PartlyGrouped(p, groupOf, groups, i)
    {
      if groupOf[i] < 0 {
        ghost var was := groupOf;
        groupOf := groupOf[i := groups];
        for j := i + 1 to |p.mmas|
          invariant |groupOf| == |p.mmas|
          invariant forall l :: 0 <= l < |was| ==>
                      groupOf[l] == if i <= l < j && p.mmas[l].target == p.mmas[i].target then groups else was[l]
        {
          if groupOf[j] < 0 && p.mmas[j].target == p.mmas[i].target {
            groupOf := groupOf[j := groups];
          }
        }
        NewGroup(p, was, groupOf, groups, i);
        groups := groups + 1;
      }
    }
  }

  lemma NewGroup(p: Loop, was: seq<int>, now: seq<int>, groups: nat, i: nat)
    requires |was| == |p.mmas| == |now| && i < |was| && was[i] < 0 && PartlyGrouped(p, was, groups, i)
    requires forall l :: 0 <= l < |was| ==>
               now[l] == if i <= l && p.mmas[l].target == p.mmas[i].target then groups else was[l]
    ensures PartlyGrouped(p, now, groups + 1, i + 1)
  {
    forall l | 0 <= l < i ensures p.mmas[l].target != p.mmas[i].target {
      assert was[l] >= 0 && was[l] != was[i];
    }
    forall g | 0 <= g < groups + 1 ensures g in now {
      if g < groups {
        assert g in was;
        var l :| 0 <= l < |was| && was[l] == g;
        assert was[l] != was[i];
        assert now[l] == g;
      } else {
        assert now[i] == g;
      }
    }
  }

  // ---- the loop with its accumulators in registers ------------------------

  function LastOf(groupOf: seq<int>, g: int, n: nat): (i: int)
    requires n <= |groupOf|
    ensures -1 <= i < n && (i >= 0 ==> groupOf[i] == g)
    ensures forall j :: i < j < n ==> groupOf[j] != g
  {
    if n == 0 then -1 else if groupOf[n - 1] == g then n - 1 else LastOf(groupOf, g, n - 1)
  }

  /** The value a group's next multiply-accumulate takes: the carried one, or its predecessor's result. */
  function Current(carried: seq<Fragment>, groupOf: seq<int>, results: seq<Fragment>, g: int): Fragment
    requires 0 <= g < |carried| && |results| <= |groupOf|
  {
    var prev := LastOf(groupOf, g, |results|);
    if prev < 0 then carried[g] else results[prev]
  }

  /** In iteration k, after |results| multiply-accumulates, every group is at its chain's value. */
  ghost predicate InStep(p: Loop, groupOf: seq<int>, carried: seq<Fragment>, results: seq<Fragment>, k: nat)
    requires |groupOf| == |p.mmas| && |results| <= |p.mmas| && Grouped(p, groupOf, |carried|)
  {
    forall j :: 0 <= j < |p.mmas| ==>
      Current(carried, groupOf, results, groupOf[j]) == Chain(p, p.Zero(), p.mmas[j].target, k, |results|)
  }

  lemma ChainStep(p: Loop, groupOf: seq<int>, carried: seq<Fragment>, results: seq<Fragment>, k: nat)
    requires |groupOf| == |p.mmas| && |results| < |p.mmas| && Grouped(p, groupOf, |carried|)
    requires InStep(p, groupOf, carried, results, k)
    ensures var i := |results|;
            InStep(p, groupOf, carried, results + [p.Apply(k, i, Current(carried, groupOf, results, groupOf[i]))], k)
  {
    var i := |results|;
    var more := results + [p.Apply(k, i, Current(carried, groupOf, results, groupOf[i]))];
    forall j | 0 <= j < |p.mmas|
      ensures Current(carried, groupOf, more, groupOf[j]) == Chain(p, p.Zero(), p.mmas[j].target, k, i + 1) {
      assert Current(carried, groupOf, results, groupOf[j]) == Chain(p, p.Zero(), p.mmas[j].target, k, i);
    }
  }

  /** What the loop carries into iteration k. */
  ghost predicate Carried(p: Loop, groupOf: seq<int>, carried: seq<Fragment>, k: nat)
    requires |groupOf| == |p.mmas| && Grouped(p, groupOf, |carried|)
  {
    forall i :: 0 <= i < |p.mmas| ==> carried[groupOf[i]] == Chain(p, p.Zero(), p.mmas[i].target, k, 0)
  }

  /** The loop carries one accumulator per group, starting at zero. In an iteration the first of a group takes the
      carried value, every later one the result of its predecessor, and the last one's result is carried on. */
  method AccumulateInRegisters(p: Loop, groupOf: seq<int>, groups: nat) returns (carried: seq<Fragment>)
    requires |groupOf| == |p.mmas| && Grouped(p, groupOf, groups)
    ensures |carried| == groups && Carried(p, groupOf, carried, p.trip)
  {
    carried := seq(groups, _ => p.Zero());
    for k := 0 to p.trip
      invariant |carried| == groups && Carried(p, groupOf, carried, k)
    {
      var results: seq<Fragment> := [];
      for i := 0 to |p.mmas|
        invariant |results| == i && InStep(p, groupOf, carried, results, k)
      {
        ChainStep(p, groupOf, carried, results, k);
        results := results + [p.Apply(k, i, Current(carried, groupOf, results, groupOf[i]))];
      }
      carried := seq(groups, g requires 0 <= g < groups => Current(carried, groupOf, results, g));
    }
  }

  /** After the loop the last of each group is stored. */
  method HoistedLoop(p: Loop, c: array<Word>)
    requires p.Valid(c.Length)
    modifies c
    ensures Result(p, true, old(c[..]), c[..])
  {
    var groupOf, groups := GroupByTarget(p);
    var carried := AccumulateInRegisters(p, groupOf, groups);
    for g := 0 to groups
      invariant forall i :: 0 <= i < |p.mmas| && groupOf[i] < g ==>
                  Load(c[..], p.mmas[i].addrs) == Chain(p, p.Zero(), p.mmas[i].target, p.trip, 0)
      invariant forall a :: 0 <= a < c.Length && !Touched(p, a) ==> c[a] == old(c[a])
    {
      assert g in groupOf;
      var last := LastOf(groupOf, g, |groupOf|);
      ghost var was := c[..];
      StoreFragment(c, p.mmas[last].addrs, carried[g]);
      GroupStored(p, groupOf, groups, was, c[..], last, carried[g]);
    }
  }

  lemma GroupStored(p: Loop, groupOf: seq<int>, groups: nat, c: seq<Word>, c': seq<Word>, last: nat, f: Fragment)
    requires p.Valid(|c|) && |groupOf| == |p.mmas| && Grouped(p, groupOf, groups) && last < |p.mmas|
    requires |f| == p.width && Stored(c, c', p.mmas[last].addrs, f, p.width)
    ensures forall i :: 0 <= i < |p.mmas| && groupOf[i] == groupOf[last] ==> Load(c', p.mmas[i].addrs) == f
    ensures forall i :: 0 <= i < |p.mmas| && groupOf[i] != groupOf[last] ==>
              Load(c', p.mmas[i].addrs) == Load(c, p.mmas[i].addrs)
    ensures forall a :: 0 <= a < |c| && !Touched(p, a) ==> c'[a] == c[a]
  {
    var m := p.mmas[last];
    assert m.addrs[..p.width] == m.addrs;
    forall i | 0 <= i < |p.mmas| && groupOf[i] == groupOf[last] ensures Load(c', p.mmas[i].addrs) == f {
      assert p.mmas[i].addrs == m.addrs;
    }
    forall i | 0 <= i < |p.mmas| && groupOf[i] != groupOf[last]
      ensures Load(c', p.mmas[i].addrs) == Load(c, p.mmas[i].addrs) {
      forall e | 0 <= e < p.width ensures c'[p.mmas[i].addrs[e]] == c[p.mmas[i].addrs[e]] {
        assert p.mmas[i].addrs[e] !in m.addrs;
      }
    }
    forall a | 0 <= a < |c| && !Touched(p, a) ensures c'[a] == c[a] {
      assert a !in m.addrs;
    }
  }

  // ---- when hoisting is right ---------------------------------------------

  ghost predicate PreZeroed(p: Loop, c: seq<Word>)
    requires p.Valid(|c|)
  {
    forall i :: 0 <= i < |p.mmas| ==> Load(c, p.mmas[i].addrs) == p.Zero()
  }

  lemma ResultUnique(p: Loop, before: seq<Word>, x: seq<Word>, y: seq<Word>, fx: bool, fy: bool)
    requires p.Valid(|before|) && Result(p, fx, before, x) && Result(p, fy, before, y)
    requires fx == fy || PreZeroed(p, before)
    ensures x == y
  {
    forall a | 0 <= a < |before| ensures x[a] == y[a] {
      if Touched(p, a) {
        var i, e :| 0 <= i < |p.mmas| && 0 <= e < |p.mmas[i].addrs| && p.mmas[i].addrs[e] == a;
        assert Load(x, p.mmas[i].addrs) == Load(y, p.mmas[i].addrs);
        assert Load(x, p.mmas[i].addrs)[e] == x[a] && Load(y, p.mmas[i].addrs)[e] == y[a];
      }
    }
  }

  /** A multiply-accumulate that adds nothing. */
  function Keep(p: Loop): Loop {
    p.(mma := (k, i, acc) => acc)
  }

  lemma {:induction false} KeepChain(p: Loop, start: Fragment, target: nat, k: nat, i: nat)
    requires i <= |p.mmas| && |start| == p.width
    ensures Chain(Keep(p), start, target, k, i) == start
    decreases k, i
  {
    if i > 0 {
      KeepChain(p, start, target, k, i - 1);
    } else if k > 0 {
      KeepChain(p, start, target, k - 1, |p.mmas|);
    }
  }

  ghost function Cleared(p: Loop, before: seq<Word>): (r: seq<Word>)
    ensures |r| == |before|
    ensures forall a :: 0 <= a < |before| ==> r[a] == if Touched(p, a) then 0 else before[a]
  {
    seq(|before|, a requires 0 <= a < |before| => if Touched(p, a) then 0 else before[a])
  }

  /** The two loops agree on every multiply-accumulate function exactly when the cells they store to are zero
      beforehand, for any trip count: the first loop starts from C, the second from zero. */
  lemma HoistingIsExactIff(p: Loop, before: seq<Word>)
    requires p.Valid(|before|)
    ensures PreZeroed(p, before) <==> forall mma, x, y {:trigger Result(p.(mma := mma), false, before, x),
                                                                 Result(p.(mma := mma), true, before, y)} ::
              p.(mma := mma).Valid(|before|) ==>
                Result(p.(mma := mma), false, before, x) && Result(p.(mma := mma), true, before, y) ==> x == y
  {
    if PreZeroed(p, before) {
      forall mma, x, y | p.(mma := mma).Valid(|before|)
          && Result(p.(mma := mma), false, before, x) && Result(p.(mma := mma), true, before, y) ensures x == y {
        assert PreZeroed(p.(mma := mma), before);
        ResultUnique(p.(mma := mma), before, x, y, false, true);
      }
    } else {
      var q := Keep(p);
      var y := Cleared(p, before);
      KeepResults(p, before);
      assert q == p.(mma := q.mma);
      assert before != y;
    }
  }

  lemma KeepResults(p: Loop, before: seq<Word>)
    requires p.Valid(|before|)
    ensures Keep(p).Valid(|before|)
    ensures Result(Keep(p), false, before, before) && Result(Keep(p), true, before, Cleared(p, before))
    ensures before == Cleared(p, before) ==> PreZeroed(p, before)
  {
    var y := Cleared(p, before);
    forall i | 0 <= i < |p.mmas|
      ensures Chain(Keep(p), Load(before, p.mmas[i].addrs), p.mmas[i].target, p.trip, 0) == Load(before, p.mmas[i].addrs)
      ensures Chain(Keep(p), p.Zero(), p.mmas[i].target, p.trip, 0) == p.Zero() == Load(y, p.mmas[i].addrs) {
      KeepChain(p, Load(before, p.mmas[i].addrs), p.mmas[i].target, p.trip, 0);
      KeepChain(p, p.Zero(), p.mmas[i].target, p.trip, 0);
      forall e | 0 <= e < p.width ensures y[p.mmas[i].addrs[e]] == 0 {
        assert Touched(p, p.mmas[i].addrs[e]);
      }
    }
    forall a | 0 <= a < |before| && !Touched(Keep(p), a) ensures y[a] == before[a] {
      assert !Touched(p, a);
    }
  }
}
