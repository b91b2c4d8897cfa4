/** Dependency edges between captured launches, their level structure, and the two
    traversals a fusion graph runs over them. */
module Schedule {
  import opened Effects
  import opened Options

  /** Edges only run forward in program order, below n. */
  ghost predicate Forward(edges: Edges, n: nat) {
    forall e :: e in edges ==> e.0 < e.1 < n
  }

  function In(edges: Edges, v: nat): set<nat> {
    set e | e in edges && e.1 == v :: e.0
  }

  lemma InMember(edges: Edges, u: nat, v: nat)
    ensures u in In(edges, v) <==> (u, v) in edges
  {
    if (u, v) in edges {
      assert (u, v).0 in In(edges, v);
    }
  }

  lemma InAdd(edges: Edges, u: nat, v: nat, w: nat)
    ensures In(edges + {(u, v)}, w) == if w == v then In(edges, w) + {u} else In(edges, w)
  {
    forall x: nat
      ensures x in In(edges + {(u, v)}, w) <==> x in (if w == v then In(edges, w) + {u} else In(edges, w)) {
      InMember(edges, x, w);
      InMember(edges + {(u, v)}, x, w);
    }
  }

  lemma InRemove(edges: Edges, u: nat, v: nat, w: nat)
    requires (u, v) in edges
    ensures In(edges - {(u, v)}, w) == if w == v then In(edges, w) - {u} else In(edges, w)
    ensures u in In(edges, v)
  {
    forall x: nat
      ensures x in In(edges - {(u, v)}, w) <==> x in (if w == v then In(edges, w) - {u} else In(edges, w)) {
      InMember(edges, x, w);
      InMember(edges - {(u, v)}, x, w);
    }
    InMember(edges, u, v);
  }

  // ---- levels -------------------------------------------------------------

  /** Length of the longest chain of edges that ends in v. */
  ghost function Level(edges: Edges, v: nat): nat
    decreases v, v + 1
  {
    LevelBelow(edges, v, v)
  }

  ghost function LevelBelow(edges: Edges, v: nat, k: nat): nat
    requires k <= v
    decreases v, k
  {
    if k == 0 then 0
    else
      var rest := LevelBelow(edges, v, k - 1);
      if (k - 1, v) in edges && Level(edges, k - 1) + 1 > rest then Level(edges, k - 1) + 1 else rest
  }

  lemma {:induction false} LevelBelowBounds(edges: Edges, v: nat, k: nat, u: nat)
    requires u < k <= v && (u, v) in edges
    ensures Level(edges, u) + 1 <= LevelBelow(edges, v, k)
  {
    if u < k - 1 {
      LevelBelowBounds(edges, v, k - 1, u);
    }
  }

  lemma {:induction false} LevelBelowReached(edges: Edges, v: nat, k: nat) returns (u: nat)
    requires k <= v && LevelBelow(edges, v, k) > 0
    ensures u < k && (u, v) in edges && Level(edges, u) + 1 == LevelBelow(edges, v, k)
  {
    if (k - 1, v) in edges && Level(edges, k - 1) + 1 > LevelBelow(edges, v, k - 1) {
      u := k - 1;
    } else {
      u := LevelBelowReached(edges, v, k - 1);
    }
  }

  lemma EdgeRaisesLevel(edges: Edges, n: nat, u: nat, v: nat)
    requires Forward(edges, n) && (u, v) in edges
    ensures Level(edges, u) < Level(edges, v)
  {
    assert (u, v).0 < (u, v).1;
    LevelBelowBounds(edges, v, v, u);
  }

  /** A chain of edges, source first. */
  ghost predicate Chain(edges: Edges, path: seq<nat>) {
    |path| > 0 && forall i :: 0 <= i < |path| - 1 ==> (path[i], path[i + 1]) in edges
  }

  /** A node's level is the length of its longest incoming chain: none is longer, one is that long. */
  lemma {:induction false} LevelIsLongestChain(edges: Edges, n: nat, v: nat) returns (path: seq<nat>)
    requires Forward(edges, n)
    ensures Chain(edges, path) && path[|path| - 1] == v && |path| == Level(edges, v) + 1
    ensures forall p :: Chain(edges, p) && p[|p| - 1] == v ==> |p| <= Level(edges, v) + 1
    decreases v
  {
    if Level(edges, v) == 0 {
      path := [v];
    } else {
      var u := LevelBelowReached(edges, v, v);
      var before := LevelIsLongestChain(edges, n, u);
      path := before + [v];
    }
    forall p | Chain(edges, p) && p[|p| - 1] == v
      ensures |p| <= Level(edges, v) + 1 {
      ChainBelowLevel(edges, n, p);
    }
  }

  lemma {:induction false} ChainBelowLevel(edges: Edges, n: nat, p: seq<nat>)
    requires Forward(edges, n) && Chain(edges, p)
    ensures |p| <= Level(edges, p[|p| - 1]) + 1
  {
    if |p| > 1 {
      ChainBelowLevel(edges, n, p[..|p| - 1]);
      EdgeRaisesLevel(edges, n, p[|p| - 2], p[|p| - 1]);
    }
  }

  /** The order never returns to an earlier level. */
  ghost predicate LevelsRise(edges: Edges, order: seq<nat>) {
    forall i, j :: 0 <= i < j < |order| ==> Level(edges, order[i]) <= Level(edges, order[j])
  }

  /** Any order that goes level by level, however each level is permuted, keeps every edge. */
  lemma LevelOrderExtends(edges: Edges, n: nat, order: seq<nat>)
    requires Forward(edges, n) && LevelsRise(edges, order)
    ensures LinearExtension(order, edges)
  {
    forall i, j | 0 <= i < j < |order|
      ensures (order[j], order[i]) !in edges {
      if (order[j], order[i]) in edges {
        EdgeRaisesLevel(edges, n, order[j], order[i]);
      }
    }
  }

  // ---- adjacency ----------------------------------------------------------

  datatype Hazard = RAW | WAW | WAR
  datatype Edge = Edge(src: nat, dst: nat, hazards: seq<Hazard>)

  function Pairs(edges: seq<Edge>): Edges {
    set e | e in edges :: (e.src, e.dst)
  }

  ghost predicate DistinctPairs(edges: seq<Edge>) {
    forall i, j :: 0 <= i < j < |edges| ==> (edges[i].src, edges[i].dst) != (edges[j].src, edges[j].dst)
  }

  lemma PairsSnoc(edges: seq<Edge>, k: nat)
    requires k < |edges| && DistinctPairs(edges)
    ensures Pairs(edges[..k + 1]) == Pairs(edges[..k]) + {(edges[k].src, edges[k].dst)}
    ensures (edges[k].src, edges[k].dst) !in Pairs(edges[..k])
  {
    assert edges[..k + 1] == edges[..k] + [edges[k]];
  }

  predicate Ascending(s: seq<nat>) {
    forall i, j :: 0 <= i < j < |s| ==> s[i] <= s[j]
  }

  function Insert(x: nat, s: seq<nat>): (r: seq<nat>)
    ensures multiset(r) == multiset(s) + multiset{x}
  {
    if s == [] || x <= s[0] then [x] + s
    else
      assert s == [s[0]] + s[1..];
      [s[0]] + Insert(x, s[1..])
  }

  /** Sorting a successor list. */
  function Sort(s: seq<nat>): (r: seq<nat>)
    ensures multiset(r) == multiset(s)
  {
    if s == [] then []
    else
      assert s == [s[0]] + s[1..];
      Insert(s[0], Sort(s[1..]))
  }

  lemma {:induction false} InsertAscends(x: nat, s: seq<nat>)
    requires Ascending(s)
    ensures Ascending(Insert(x, s))
  {
    if s != [] && x > s[0] {
      InsertAscends(x, s[1..]);
      var r := Insert(x, s[1..]);
      forall k | 0 <= k < |r| ensures s[0] <= r[k] {
        assert r[k] in multiset(r);
        assert r[k] == x || r[k] in s[1..];
      }
    }
  }

  lemma {:induction false} SortAscends(s: seq<nat>)
    ensures Ascending(Sort(s))
  {
    if s != [] {
      SortAscends(s[1..]);
      InsertAscends(s[0], Sort(s[1..]));
    }
  }

  ghost predicate Distinct(s: seq<nat>) {
    forall i, j :: 0 <= i < j < |s| ==> s[i] != s[j]
  }

  lemma DuplicateCounts(s: seq<nat>, i: nat, j: nat)
    requires i < j < |s| && s[i] == s[j]
    ensures multiset(s)[s[j]] >= 2
  {
    assert s == s[..j] + [s[j]] + s[j + 1..];
    assert s[i] in s[..j];
  }

  lemma {:induction false} DistinctCounts(s: seq<nat>)
    requires Distinct(s)
    ensures forall x :: multiset(s)[x] <= 1
  {
    if s != [] {
      var t := s[..|s| - 1];
      assert s == t + [s[|s| - 1]];
      DistinctCounts(t);
      assert s[|s| - 1] !in t;
    }
  }

  lemma SortKeeps(s: seq<nat>)
    requires Distinct(s)
    ensures Distinct(Sort(s)) && forall x :: x in Sort(s) <==> x in s
  {
    var r := Sort(s);
    forall x ensures x in r <==> x in s {
      assert x in multiset(r) <==> x in multiset(s);
    }
    DistinctCounts(s);
    forall i, j | 0 <= i < j < |r|
      ensures r[i] != r[j] {
      if r[i] == r[j] {
        DuplicateCounts(r, i, j);
      }
    }
  }

  ghost predicate Successors(n: nat, edges: Edges, outgoing: seq<seq<nat>>) {
    && |outgoing| == n
    && (forall u :: 0 <= u < n ==> Distinct(outgoing[u]))
    && (forall u, v :: 0 <= u < n ==> (v in outgoing[u] <==> (u, v) in edges))
  }

  /** outgoing and indegree say exactly what the edges say. */
  ghost predicate Adjacent(n: nat, edges: Edges, outgoing: seq<seq<nat>>, indegree: seq<int>) {
    && Successors(n, edges, outgoing)
    && |indegree| == n
    && (forall v :: 0 <= v < n ==> indegree[v] == |In(edges, v)|)
  }

  lemma AdjacentStep(n: nat, edges: Edges, outgoing: seq<seq<nat>>, indegree: seq<int>, src: nat, dst: nat)
    requires Adjacent(n, edges, outgoing, indegree) && src < n && dst < n && (src, dst) !in edges
    ensures Adjacent(n, edges + {(src, dst)}, outgoing[src := outgoing[src] + [dst]],
                     indegree[dst := indegree[dst] + 1])
  {
    forall v | 0 <= v < n
      ensures |In(edges + {(src, dst)}, v)| == |In(edges, v)| + if v == dst then 1 else 0 {
      InAdd(edges, src, dst, v);
      InMember(edges, src, dst);
    }
  }

  lemma AdjacentSorted(n: nat, edges: Edges, outgoing: seq<seq<nat>>, indegree: seq<int>, src: nat)
    requires Adjacent(n, edges, outgoing, indegree) && src < n
    ensures Adjacent(n, edges, outgoing[src := Sort(outgoing[src])], indegree)
  {
    SortKeeps(outgoing[src]);
  }

  method BuildAdjacency(n: nat, edges: seq<Edge>) returns (outgoing: seq<seq<nat>>, indegree: seq<int>)
    requires Forward(Pairs(edges), n) && DistinctPairs(edges)
    ensures Adjacent(n, Pairs(edges), outgoing, indegree)
    ensures forall u :: 0 <= u < n ==> Ascending(outgoing[u])
  {
    outgoing, indegree := seq(n, _ => []), seq(n, _ => 0);
    assert Pairs(edges[..0]) == {};
    for k := 0 to |edges|
      invariant Adjacent(n, Pairs(edges[..k]), outgoing, indegree)
    {
      PairsSnoc(edges, k);
      var src, dst := edges[k].src, edges[k].dst;
      assert (src, dst) in Pairs(edges);
      AdjacentStep(n, Pairs(edges[..k]), outgoing, indegree, src, dst);
      outgoing := outgoing[src := outgoing[src] + [dst]];
      indegree := indegree[dst := indegree[dst] + 1];
    }
    assert edges[..|edges|] == edges;
    for src := 0 to n
      invariant Adjacent(n, Pairs(edges), outgoing, indegree)
      invariant forall u :: 0 <= u < src ==> Ascending(outgoing[u])
    {
      AdjacentSorted(n, Pairs(edges), outgoing, indegree, src);
      SortAscends(outgoing[src]);
      outgoing := outgoing[src := Sort(outgoing[src])];
    }
  }

  // ---- a stable order -----------------------------------------------------

  /** The position of v's last predecessor in an order, -1 if there is none. */
  ghost function LastBefore(edges: Edges, order: seq<nat>, v: nat): (p: int)
    ensures -1 <= p < |order|
  {
    if order == [] then -1
    else if (order[|order| - 1], v) in edges then |order| - 1
    else LastBefore(edges, order[..|order| - 1], v)
  }

  /** v is due before w: its last predecessor comes earlier, or they have the same one, or none, and v is captured
      earlier. */
  ghost predicate DueBefore(edges: Edges, order: seq<nat>, v: nat, w: nat) {
    var p, q := LastBefore(edges, order, v), LastBefore(edges, order, w);
    p < q || (p == q && v < w)
  }

  ghost predicate Fifo(edges: Edges, done: seq<nat>, seen: seq<nat>) {
    forall i, j :: 0 <= i < j < |seen| ==> DueBefore(edges, done, seen[i], seen[j])
  }

  /** First in, first out: nodes come as they fall due. */
  ghost predicate Stable(edges: Edges, order: seq<nat>) {
    Fifo(edges, order, order)
  }

  /** Later nodes that are no predecessors do not matter. */
  lemma {:induction false} LastBeforePrefix(edges: Edges, order: seq<nat>, k: nat, v: nat)
    requires k <= |order| && forall i :: k <= i < |order| ==> (order[i], v) !in edges
    ensures LastBefore(edges, order, v) == LastBefore(edges, order[..k], v)
  {
    if k < |order| {
      LastBeforePrefix(edges, order[..|order| - 1], k, v);
      assert order[..|order| - 1][..k] == order[..k];
    } else {
      assert order[..k] == order;
    }
  }

  lemma NoLoop(edges: Edges, n: nat, v: nat)
    requires Forward(edges, n)
    ensures (v, v) !in edges
  {
    assert (v, v) in edges ==> (v, v).0 < (v, v).1;
  }

  /** Two orders with a common prefix: what one has behind it, the other has behind it too. */
  lemma BehindInBoth(n: nat, a: seq<nat>, b: seq<nat>, k: nat, m: nat, l: nat)
    requires Permutation(a, n) && k <= m < |a| && k <= |b| && a[..k] == b[..k] && l < |b| && b[l] == a[m]
    ensures l >= k
  {
    forall x | 0 <= x < k ensures b[x] != a[m] {
      assert b[..k][x] == a[..k][x] && a[x] != a[m];
    }
  }

  /** All predecessors of b's next node w are in the common prefix, so it falls due at the same place in a. */
  lemma PredecessorsBefore(edges: Edges, n: nat, a: seq<nat>, b: seq<nat>, k: nat, w: nat)
    requires Forward(edges, n) && LinearExtension(b, edges) && Permutation(a, n) && Permutation(b, n)
    requires k <= |a| && k < |b| && a[..k] == b[..k] && b[k] == w
    ensures LastBefore(edges, a, w) == LastBefore(edges, a[..k], w)
  {
    forall m | k <= m < |a| ensures (a[m], w) !in edges {
      assert a[m] in b;
      var l :| 0 <= l < |b| && b[l] == a[m];
      BehindInBoth(n, a, b, k, m, l);
      NoLoop(edges, n, w);
    }
    LastBeforePrefix(edges, a, k, w);
  }

  /** If the next nodes differ, a's falls due before b's. */
  lemma DueFirst(edges: Edges, n: nat, a: seq<nat>, b: seq<nat>, k: nat)
    requires Forward(edges, n) && LinearExtension(a, edges) && LinearExtension(b, edges) && Stable(edges, a)
    requires Permutation(a, n) && Permutation(b, n) && k < |a| && k < |b| && a[..k] == b[..k] && a[k] != b[k]
    ensures DueBefore(edges, a[..k], a[k], b[k])
  {
    assert b[k] in a;
    var i :| 0 <= i < |a| && a[i] == b[k];
    BehindInBoth(n, b, a, k, k, i);
    PredecessorsBefore(edges, n, a, a, k, a[k]);
    PredecessorsBefore(edges, n, a, b, k, b[k]);
    assert DueBefore(edges, a, a[k], a[i]);
  }

  /** What comes next in a stable order follows from what came before. */
  lemma NextIsDetermined(edges: Edges, n: nat, a: seq<nat>, b: seq<nat>, k: nat)
    requires Forward(edges, n) && LinearExtension(a, edges) && LinearExtension(b, edges) && Stable(edges, a) && Stable(edges, b)
    requires Permutation(a, n) && Permutation(b, n) && k < |a| && k < |b| && a[..k] == b[..k]
    ensures a[k] == b[k]
  {
    if a[k] != b[k] {
      DueFirst(edges, n, a, b, k);
      DueFirst(edges, n, b, a, k);
    }
  }

  /** There is one stable order. */
  lemma {:induction false} StableOrderUnique(edges: Edges, n: nat, a: seq<nat>, b: seq<nat>, k: nat)
    requires Forward(edges, n) && LinearExtension(a, edges) && LinearExtension(b, edges) && Stable(edges, a) && Stable(edges, b)
    requires Permutation(a, n) && Permutation(b, n) && k <= n
    ensures |a| == |b| == n && a[..k] == b[..k]
    ensures k == n ==> a == b
  {
    PermutationLength(a, n);
    PermutationLength(b, n);
    if k > 0 {
      StableOrderUnique(edges, n, a, b, k - 1);
      NextIsDetermined(edges, n, a, b, k - 1);
      assert a[..k] == a[..k - 1] + [a[k - 1]] && b[..k] == b[..k - 1] + [b[k - 1]];
    }
    assert a[..|a|] == a && b[..|b|] == b;
  }

  lemma LastBeforeAppend(edges: Edges, done: seq<nat>, current: nat, v: nat)
    ensures LastBefore(edges, done + [current], v)
         == if (current, v) in edges then |done| else LastBefore(edges, done, v)
  {
    assert (done + [current])[..|done|] == done;
  }

  lemma FifoStep(edges: Edges, done: seq<nat>, current: nat, seen: seq<nat>, more: seq<nat>)
    requires Fifo(edges, done, seen) && forall i :: 0 <= i < |seen| ==> (current, seen[i]) !in edges
    requires forall i :: 0 <= i < |more| ==> (current, more[i]) in edges
    requires forall i, j :: 0 <= i < j < |more| ==> more[i] < more[j]
    ensures Fifo(edges, done + [current], seen + more)
  {
    var all := seen + more;
    forall i, j | 0 <= i < j < |all| ensures DueBefore(edges, done + [current], all[i], all[j]) {
      LastBeforeAppend(edges, done, current, all[i]);
      LastBeforeAppend(edges, done, current, all[j]);
      if j < |seen| {
        assert DueBefore(edges, done, seen[i], seen[j]);
      }
    }
  }

  /** No edge leads from the node taken next to one that is seen. */
  lemma NoneSeen(n: nat, edges: Edges, rem: Edges, done: seq<nat>, x: nat, seen: seq<nat>, indegree: seq<int>, current: nat)
    requires Remaining(edges, rem, done, x, []) && Counted(n, rem, seen, indegree) && current !in done
    ensures forall i :: 0 <= i < |seen| ==> (current, seen[i]) !in edges
  {
    forall i | 0 <= i < |seen| ensures (current, seen[i]) !in edges {
      assert seen[i] in seen;
      InMember(rem, current, seen[i]);
      assert (current, seen[i]) !in rem;
    }
  }

  // ---- Kahn's algorithm ---------------------------------------------------

  /** `seen` lists, once each, the nodes none of whose incoming edges is left in rem, and
      indegree counts the edges of rem. */
  ghost predicate Counted(n: nat, rem: Edges, seen: seq<nat>, indegree: seq<int>) {
    && |indegree| == n && InRange(seen, n) && Distinct(seen)
    && (forall v: nat :: v < n ==> (v in seen <==> In(rem, v) == {}))
    && (forall v: nat :: v < n ==> indegree[v] == |In(rem, v)|)
  }

  /** rem holds the edges out of nodes not in `done`, and those from `current` to `todo`. */
  ghost predicate Remaining(edges: Edges, rem: Edges, done: seq<nat>, current: nat, todo: seq<nat>) {
    forall e :: e in rem <==> e in edges && (e.0 !in done || (e.0 == current && e.1 in todo))
  }

  /** Taking one edge off: its target becomes seen exactly when its count reaches zero. */
  lemma CountDown(n: nat, rem: Edges, seen: seq<nat>, indegree: seq<int>, u: nat, v: nat)
    requires Counted(n, rem, seen, indegree) && (u, v) in rem && v < n
    ensures v !in seen
    ensures var deg := indegree[v := indegree[v] - 1];
            Counted(n, rem - {(u, v)}, if deg[v] == 0 then seen + [v] else seen, deg)
  {
    InMember(rem, u, v);
    forall w | 0 <= w < n
      ensures In(rem - {(u, v)}, w) == if w == v then In(rem, w) - {u} else In(rem, w) {
      InRemove(rem, u, v, w);
    }
    EmptyCard(In(rem, v) - {u});
  }

  lemma EmptyCard(s: set<nat>)
    ensures |s| == 0 <==> s == {}
  {}

  /** A node whose last incoming edge is taken off while `current` is processed sits one level above it. */
  lemma NextLevel(edges: Edges, n: nat, rem: Edges, done: seq<nat>, current: nat, todo: seq<nat>, v: nat)
    requires Forward(edges, n) && Remaining(edges, rem, done, current, todo)
    requires (current, v) in edges && In(rem, v) == {}
    requires forall x :: x in done ==> Level(edges, x) <= Level(edges, current)
    ensures Level(edges, v) == Level(edges, current) + 1
  {
    EdgeRaisesLevel(edges, n, current, v);
    var u := LevelBelowReached(edges, v, v);
    InMember(rem, u, v);
    assert (u, v) !in rem;
  }

  lemma RelaxOne(n: nat, edges: Edges, current: nat, v: nat, rest: seq<nat>, seen: seq<nat>, indegree: seq<int>,
                 done: seq<nat>, rem: Edges)
    requires Forward(edges, n) && v !in rest && (current, v) in edges
    requires current in done && Remaining(edges, rem, done, current, [v] + rest)
    requires forall x :: x in done ==> Level(edges, x) <= Level(edges, current)
    requires Counted(n, rem, seen, indegree)
    ensures v < n && Remaining(edges, rem - {(current, v)}, done, current, rest)
    ensures var deg := indegree[v := indegree[v] - 1];
            && Counted(n, rem - {(current, v)}, if deg[v] == 0 then seen + [v] else seen, deg)
            && (deg[v] == 0 ==> Level(edges, v) == Level(edges, current) + 1)
  {
    assert (current, v) in rem && (current, v).1 < n;
    CountDown(n, rem, seen, indegree, current, v);
    EmptyCard(In(rem - {(current, v)}, v));
    if In(rem - {(current, v)}, v) == {} {
      NextLevel(edges, n, rem - {(current, v)}, done, current, rest, v);
    }
  }

  /** All successors of a node, ascending. */
  ghost predicate Outs(edges: Edges, current: nat, outs: seq<nat>) {
    Distinct(outs) && Ascending(outs) && forall v :: v in outs <==> (current, v) in edges
  }

  /** What has joined the queue: some of the first i successors, in ascending order. */
  ghost predicate Joined(edges: Edges, current: nat, outs: seq<nat>, i: nat, more: seq<nat>)
    requires i <= |outs|
  {
    && (forall j :: 0 <= j < |more| ==> (current, more[j]) in edges && more[j] in outs[..i])
    && (forall j, k :: 0 <= j < k < |more| ==> more[j] < more[k])
  }

  lemma NothingJoined(edges: Edges, current: nat, outs: seq<nat>)
    ensures Joined(edges, current, outs, 0, [])
  {
  }

  lemma JoinOne(edges: Edges, current: nat, outs: seq<nat>, i: nat, more: seq<nat>)
    requires i < |outs| && Joined(edges, current, outs, i, more) && Outs(edges, current, outs)
    ensures Joined(edges, current, outs, i + 1, more) && Joined(edges, current, outs, i + 1, more + [outs[i]])
    ensures (current, outs[i]) in edges && outs[i] !in outs[i + 1..]
  {
    assert outs[..i + 1] == outs[..i] + [outs[i]];
    forall j | 0 <= j < |more| ensures more[j] < outs[i] {
      var k :| 0 <= k < i && outs[k] == more[j];
      assert outs[k] != outs[i];
    }
  }

  lemma JoinedIs(edges: Edges, current: nat, outs: seq<nat>, more: seq<nat>)
    requires Joined(edges, current, outs, |outs|, more)
    ensures forall i :: 0 <= i < |more| ==> (current, more[i]) in edges
    ensures forall i, j :: 0 <= i < j < |more| ==> more[i] < more[j]
  {
  }

  /** The first i successors of `current` have been handled; `more` joined the queue. */
  ghost predicate Relaxed(n: nat, edges: Edges, current: nat, outs: seq<nat>, i: nat, seen: seq<nat>, more: seq<nat>,
                          indegree: seq<int>, done: seq<nat>, rem: Edges)
    requires i <= |outs|
  {
    && Remaining(edges, rem, done, current, outs[i..]) && Counted(n, rem, seen + more, indegree)
    && Joined(edges, current, outs, i, more)
    && (forall j :: 0 <= j < |more| ==> Level(edges, more[j]) == Level(edges, current) + 1)
  }

  lemma RelaxStart(n: nat, edges: Edges, current: nat, outs: seq<nat>, seen: seq<nat>, indegree: seq<int>,
                   done: seq<nat>, rem: Edges)
    requires Remaining(edges, rem, done, current, outs) && Counted(n, rem, seen, indegree)
    ensures Relaxed(n, edges, current, outs, 0, seen, [], indegree, done, rem)
  {
    hide Counted, Remaining;
    NothingJoined(edges, current, outs);
    assert outs[0..] == outs && seen + [] == seen;
  }

  lemma RelaxNext(n: nat, edges: Edges, current: nat, outs: seq<nat>, i: nat, v: nat, seen: seq<nat>, more: seq<nat>,
                  indegree: seq<int>, done: seq<nat>, rem: Edges)
    requires i < |outs| && v == outs[i] && Relaxed(n, edges, current, outs, i, seen, more, indegree, done, rem)
    requires Forward(edges, n) && Outs(edges, current, outs)
    requires current in done && forall x :: x in done ==> Level(edges, x) <= Level(edges, current)
    ensures v < n == |indegree|
    ensures var deg := indegree[v := indegree[v] - 1];
            var next := if deg[v] == 0 then more + [v] else more;
            Relaxed(n, edges, current, outs, i + 1, seen, next, deg, done, rem - {(current, v)})
  {
    hide Joined, Outs, Counted, Remaining, Level, Forward, Relaxed;
    RelaxedIs(n, edges, current, outs, i, seen, more, indegree, done, rem);
    JoinOne(edges, current, outs, i, more);
    assert outs[i..] == [v] + outs[i + 1..];
    RelaxOne(n, edges, current, v, outs[i + 1..], seen + more, indegree, done, rem);
    var deg := indegree[v := indegree[v] - 1];
    if deg[v] == 0 {
      assert seen + more + [v] == seen + (more + [v]);
      IsRelaxed(n, edges, current, outs, i + 1, seen, more + [v], deg, done, rem - {(current, v)});
    } else {
      IsRelaxed(n, edges, current, outs, i + 1, seen, more, deg, done, rem - {(current, v)});
    }
  }

  lemma RelaxedIs(n: nat, edges: Edges, current: nat, outs: seq<nat>, i: nat, seen: seq<nat>, more: seq<nat>,
                  indegree: seq<int>, done: seq<nat>, rem: Edges)
    requires i <= |outs| && Relaxed(n, edges, current, outs, i, seen, more, indegree, done, rem)
    ensures Remaining(edges, rem, done, current, outs[i..]) && Counted(n, rem, seen + more, indegree) && |indegree| == n
    ensures Joined(edges, current, outs, i, more)
    ensures forall j :: 0 <= j < |more| ==> Level(edges, more[j]) == Level(edges, current) + 1
  {
  }

  lemma IsRelaxed(n: nat, edges: Edges, current: nat, outs: seq<nat>, i: nat, seen: seq<nat>, more: seq<nat>,
                  indegree: seq<int>, done: seq<nat>, rem: Edges)
    requires i <= |outs| && Remaining(edges, rem, done, current, outs[i..]) && Counted(n, rem, seen + more, indegree)
    requires Joined(edges, current, outs, i, more)
    requires forall j :: 0 <= j < |more| ==> Level(edges, more[j]) == Level(edges, current) + 1
    ensures Relaxed(n, edges, current, outs, i, seen, more, indegree, done, rem)
  {
  }

  /** Decrement the successors of `current`; those that reach zero join the end of `ready`. */
  method Relax(n: nat, ghost edges: Edges, current: nat, outs: seq<nat>, ready: seq<nat>, indegree: seq<int>,
               ghost pre: seq<nat>, ghost done: seq<nat>, ghost rem: Edges)
    returns (ready': seq<nat>, indegree': seq<int>, ghost rem': Edges, ghost more: seq<nat>)
    requires Forward(edges, n) && Outs(edges, current, outs)
    requires current in done && Remaining(edges, rem, done, current, outs)
    requires forall x :: x in done ==> Level(edges, x) <= Level(edges, current)
    requires Counted(n, rem, pre + ready, indegree)
    ensures ready' == ready + more && Joined(edges, current, outs, |outs|, more)
    ensures Remaining(edges, rem', done, current, [])
    ensures Counted(n, rem', pre + ready', indegree')
    ensures forall i :: 0 <= i < |more| ==> Level(edges, more[i]) == Level(edges, current) + 1
  {
    hide Relaxed, Joined, Outs, Counted, Remaining, Level, Forward;
    ready', indegree', rem', more := ready, indegree, rem, [];
    RelaxStart(n, edges, current, outs, pre + ready, indegree, done, rem);
    assert ready + [] == ready;
    for i := 0 to |outs|
      invariant ready' == ready + more && Relaxed(n, edges, current, outs, i, pre + ready, more, indegree', done, rem')
    {
      var v := outs[i];
      RelaxNext(n, edges, current, outs, i, v, pre + ready, more, indegree', done, rem');
      rem' := rem' - {(current, v)};
      indegree' := indegree'[v := indegree'[v] - 1];
      if indegree'[v] == 0 {
        assert ready + more + [v] == ready + (more + [v]);
        ready', more := ready' + [v], more + [v];
      }
    }
    RelaxedAll(n, edges, current, outs, pre + ready, more, indegree', done, rem');
    assert pre + ready + more == pre + (ready + more);
  }

  lemma RelaxedAll(n: nat, edges: Edges, current: nat, outs: seq<nat>, seen: seq<nat>, more: seq<nat>,
                   indegree: seq<int>, done: seq<nat>, rem: Edges)
    requires Relaxed(n, edges, current, outs, |outs|, seen, more, indegree, done, rem)
    ensures Remaining(edges, rem, done, current, []) && Counted(n, rem, seen + more, indegree)
    ensures Joined(edges, current, outs, |outs|, more)
    ensures forall j :: 0 <= j < |more| ==> Level(edges, more[j]) == Level(edges, current) + 1
  {
    assert outs[|outs|..] == [];
  }

  /** The nodes without incoming edges, in order. */
  method Roots(n: nat, ghost edges: Edges, indegree: seq<int>) returns (roots: seq<nat>)
    requires Forward(edges, n) && |indegree| == n
    requires forall v: nat :: v < n ==> indegree[v] == |In(edges, v)|
    ensures Counted(n, edges, roots, indegree)
    ensures forall i, j :: 0 <= i < j < |roots| ==> roots[i] < roots[j]
    ensures forall i :: 0 <= i < |roots| ==> Level(edges, roots[i]) == 0
  {
    roots := [];
    for v := 0 to n
      invariant InRange(roots, v) && Distinct(roots)
      invariant forall i, j :: 0 <= i < j < |roots| ==> roots[i] < roots[j]
      invariant forall w: nat :: w < v ==> (w in roots <==> In(edges, w) == {})
      invariant forall i :: 0 <= i < |roots| ==> Level(edges, roots[i]) == 0
    {
      EmptyCard(In(edges, v));
      if indegree[v] == 0 {
        if Level(edges, v) > 0 {
          var u := LevelBelowReached(edges, v, v);
          InMember(edges, u, v);
        }
        roots := roots + [v];
      }
    }
  }

  /** Before `current` is taken, all its edges are still there. */
  lemma TakeNode(edges: Edges, rem: Edges, done: seq<nat>, x: nat, current: nat, outs: seq<nat>)
    requires Remaining(edges, rem, done, x, []) && current !in done
    requires forall v :: v in outs <==> (current, v) in edges
    ensures Remaining(edges, rem, done + [current], current, outs)
  {
    forall e
      ensures e in rem <==> e in edges && (e.0 !in done + [current] || (e.0 == current && e.1 in outs)) {
      assert e == (e.0, e.1);
    }
  }

  /** Nothing can be left over: the least node not seen would have all its predecessors processed. */
  lemma {:induction false} EveryNodeSeen(n: nat, edges: Edges, rem: Edges, done: seq<nat>, x: nat, indegree: seq<int>, v: nat)
    requires Forward(edges, n) && Remaining(edges, rem, done, x, []) && Counted(n, rem, done, indegree) && v < n
    ensures v in done
    decreases v
  {
    if v !in done {
      var u :| u in In(rem, v);
      InMember(rem, u, v);
      assert (u, v).0 < (u, v).1;
      EveryNodeSeen(n, edges, rem, done, x, indegree, u);
    }
  }

  lemma {:induction false} DistinctBound(s: seq<nat>, n: nat)
    requires Distinct(s) && InRange(s, n)
    ensures |s| <= n
    decreases n
  {
    if n == 0 {
      EmptyRange(s);
    } else if n - 1 in s {
      var p :| 0 <= p < |s| && s[p] == n - 1;
      DistinctBound(s[..p] + s[p + 1..], n - 1);
    } else {
      DistinctBound(s, n - 1);
    }
  }

  lemma {:induction false} PermutationLength(s: seq<nat>, n: nat)
    requires Permutation(s, n)
    ensures |s| == n
  {
    DistinctBound(s, n);
    if n > 0 {
      assert n - 1 in s;
      var p :| 0 <= p < |s| && s[p] == n - 1;
      WithoutLast(s, n, p);
      PermutationLength(s[..p] + s[p + 1..], n - 1);
    }
  }

  /** Between iterations: processed nodes, then the queue, level by level. */
  ghost predicate KahnState(n: nat, edges: Edges, rem: Edges, done: seq<nat>, ready: seq<nat>, indegree: seq<int>, x: nat) {
    && Remaining(edges, rem, done, x, [])
    && Counted(n, rem, done + ready, indegree)
    && LevelsRise(edges, done + ready)
    && (forall i :: 0 <= i < |ready| ==> Level(edges, ready[i]) <= Level(edges, ready[0]) + 1)
  }

  lemma TakeFirst(n: nat, edges: Edges, rem: Edges, done: seq<nat>, ready: seq<nat>, indegree: seq<int>, x: nat,
                  outs: seq<nat>)
    requires KahnState(n, edges, rem, done, ready, indegree, x) && ready != []
    requires forall v :: v in outs <==> (ready[0], v) in edges
    ensures ready[0] < n && |done| < n && done + [ready[0]] + ready[1..] == done + ready
    ensures Remaining(edges, rem, done + [ready[0]], ready[0], outs)
    ensures forall y :: y in done + [ready[0]] ==> Level(edges, y) <= Level(edges, ready[0])
  {
    var seen := done + ready;
    assert seen[|done|] == ready[0];
    assert forall i :: 0 <= i < |done| ==> done[i] == seen[i];
    TakeNode(edges, rem, done, x, ready[0], outs);
    DistinctBound(seen, n);
  }

  lemma AllDone(n: nat, edges: Edges, rem: Edges, done: seq<nat>, indegree: seq<int>, x: nat)
    requires Forward(edges, n) && KahnState(n, edges, rem, done, [], indegree, x)
    ensures Permutation(done, n) && |done| == n && LevelsRise(edges, done) && LinearExtension(done, edges)
  {
    assert done + [] == done;
    forall v: nat | v < n ensures v in done { EveryNodeSeen(n, edges, rem, done, x, indegree, v); }
    PermutationLength(done, n);
    LevelOrderExtends(edges, n, done);
  }

  ghost predicate Sorted(n: nat, edges: Edges, outgoing: seq<seq<nat>>) {
    Successors(n, edges, outgoing) && forall u :: 0 <= u < n ==> Ascending(outgoing[u])
  }

  /** Takes the first of the queue. */
  method TakeReady(n: nat, ghost edges: Edges, outgoing: seq<seq<nat>>, ghost rem: Edges, done: seq<nat>, ready: seq<nat>,
                   indegree: seq<int>, ghost x: nat)
    returns (ready': seq<nat>, indegree': seq<int>, ghost rem': Edges, done': seq<nat>, ghost x': nat)
    requires Forward(edges, n) && Sorted(n, edges, outgoing) && ready != []
    requires KahnState(n, edges, rem, done, ready, indegree, x) && Fifo(edges, done, done + ready)
    ensures |done| < n && |done'| == |done| + 1
    ensures KahnState(n, edges, rem', done', ready', indegree', x') && Fifo(edges, done', done' + ready')
  {
    hide Fifo, Ascending, Joined, Remaining;
    var current := ready[0];
    assert (done + ready)[|done|] == current;
    TakeFirst(n, edges, rem, done, ready, indegree, x, outgoing[current]);
    ghost var seen, queued, more := done + ready, ready[1..], [];
    done', x' := done + [current], current;
    ready', indegree', rem', more := Relax(n, edges, current, outgoing[current], ready[1..], indegree, done', done', rem);
    QueueRises(edges, seen, done', queued, ready', current);
    FifoNext(n, edges, rem, done, x, ready, indegree, outgoing[current], more);
  }

  lemma FirstIsNew(n: nat, rem: Edges, done: seq<nat>, ready: seq<nat>, indegree: seq<int>)
    requires Counted(n, rem, done + ready, indegree) && ready != []
    ensures ready[0] !in done
  {
    var seen := done + ready;
    forall i | 0 <= i < |done| ensures done[i] != ready[0] {
      assert seen[i] == done[i] && seen[|done|] == ready[0];
    }
  }

  lemma FifoNext(n: nat, edges: Edges, rem: Edges, done: seq<nat>, x: nat, ready: seq<nat>, indegree: seq<int>,
                 outs: seq<nat>, more: seq<nat>)
    requires Fifo(edges, done, done + ready) && ready != []
    requires Remaining(edges, rem, done, x, []) && Counted(n, rem, done + ready, indegree)
    requires Joined(edges, ready[0], outs, |outs|, more)
    ensures Fifo(edges, done + [ready[0]], done + [ready[0]] + (ready[1..] + more))
  {
    hide Fifo;
    FirstIsNew(n, rem, done, ready, indegree);
    NoneSeen(n, edges, rem, done, x, done + ready, indegree, ready[0]);
    JoinedIs(edges, ready[0], outs, more);
    FifoStep(edges, done, ready[0], done + ready, more);
    assert done + ready + more == done + [ready[0]] + (ready[1..] + more);
  }

  lemma RootsFifo(edges: Edges, roots: seq<nat>)
    requires forall i, j :: 0 <= i < j < |roots| ==> roots[i] < roots[j]
    ensures Fifo(edges, [], [] + roots)
  {
  }

  lemma KahnStart(n: nat, edges: Edges, outgoing: seq<seq<nat>>, ready: seq<nat>, indegree: seq<int>)
    requires Adjacent(n, edges, outgoing, indegree) && forall u :: 0 <= u < n ==> Ascending(outgoing[u])
    requires Counted(n, edges, ready, indegree) && forall i :: 0 <= i < |ready| ==> Level(edges, ready[i]) == 0
    requires forall i, j :: 0 <= i < j < |ready| ==> ready[i] < ready[j]
    ensures KahnState(n, edges, edges, [], ready, indegree, 0) && Sorted(n, edges, outgoing)
    ensures Fifo(edges, [], [] + ready)
  {
    hide Fifo, Counted, Ascending, Successors;
    RootsFifo(edges, ready);
    assert [] + ready == ready;
  }

  /** First-in first-out topological order; None is the dependency cycle error. */
  method StableTopologicalOrder(n: nat, edges: seq<Edge>) returns (order: Option<seq<nat>>)
    requires Forward(Pairs(edges), n) && DistinctPairs(edges)
    ensures order.Some?
    ensures Permutation(order.value, n) && LinearExtension(order.value, Pairs(edges))
    ensures LevelsRise(Pairs(edges), order.value)
    ensures Stable(Pairs(edges), order.value)
  {
    hide KahnState, Fifo, Ascending, Successors, Sorted, Forward, Counted;
    ghost var es, rem, x := Pairs(edges), Pairs(edges), 0;
    var outgoing, indegree := BuildAdjacency(n, edges);
    var ready := Roots(n, es, indegree);
    var done: seq<nat> := [];
    KahnStart(n, es, outgoing, ready, indegree);
    while ready != []
      invariant Sorted(n, es, outgoing)
      invariant KahnState(n, es, rem, done, ready, indegree, x) && Fifo(es, done, done + ready)
      decreases n - |done|
    {
      ready, indegree, rem, done, x := TakeReady(n, es, outgoing, rem, done, ready, indegree, x);
    }
    AllDone(n, es, rem, done, indegree, x);
    assert done + [] == done;
    if |done| != n {
      return None;
    }
    return Some(done);
  }

  lemma QueueRises(edges: Edges, seen: seq<nat>, done: seq<nat>, queued: seq<nat>, ready: seq<nat>, current: nat)
    requires LevelsRise(edges, seen) && seen == done + queued && |done| > 0 && done[|done| - 1] == current
    requires |queued| <= |ready| && ready[..|queued|] == queued
    requires forall i :: 0 <= i < |queued| ==> Level(edges, queued[i]) <= Level(edges, current) + 1
    requires forall i :: |queued| <= i < |ready| ==> Level(edges, ready[i]) == Level(edges, current) + 1
    ensures LevelsRise(edges, done + ready)
    ensures forall i :: 0 <= i < |ready| ==> Level(edges, ready[i]) <= Level(edges, ready[0]) + 1
  {
    var all := done + ready;
    forall i | 0 <= i < |all|
      ensures i < |seen| ==> all[i] == seen[i]
      ensures i >= |seen| ==> Level(edges, all[i]) == Level(edges, current) + 1 {}
    forall i | 0 <= i < |seen|
      ensures Level(edges, seen[i]) <= Level(edges, current) + 1 {
      if i < |done| { assert seen[|done| - 1] == current; } else { assert seen[i] == queued[i - |done|]; }
    }
    if ready != [] {
      assert all[|done|] == ready[0] && all[|done| - 1] == current;
    }
  }

  // ---- parallel levels ----------------------------------------------------

  /** levels[k] lists the nodes of level k, in ascending order, and nothing else. */
  ghost predicate LevelLists(edges: Edges, n: nat, levels: seq<seq<nat>>) {
    forall k :: 0 <= k < |levels| ==> LevelList(edges, n, levels[k], k)
  }

  ghost predicate LevelList(edges: Edges, n: nat, level: seq<nat>, k: nat) {
    Ascending(level) && Distinct(level) && forall v: nat :: v in level <==> v < n && Level(edges, v) == k
  }

  /** `done` is every node below level k, `frontier` every node of level k. */
  ghost predicate AtLevel(n: nat, edges: Edges, rem: Edges, done: seq<nat>, frontier: seq<nat>, indegree: seq<int>,
                          x: nat, k: nat) {
    && Remaining(edges, rem, done, x, [])
    && Counted(n, rem, done + frontier, indegree)
    && (forall v: nat :: v < n && Level(edges, v) < k ==> v in done)
    && (forall i :: 0 <= i < |done| ==> Level(edges, done[i]) < k)
    && (forall i :: 0 <= i < |frontier| ==> Level(edges, frontier[i]) == k)
  }

  lemma FrontierIsLevel(n: nat, edges: Edges, rem: Edges, done: seq<nat>, frontier: seq<nat>, indegree: seq<int>,
                        x: nat, k: nat)
    requires Forward(edges, n) && AtLevel(n, edges, rem, done, frontier, indegree, x, k)
    ensures Distinct(frontier) && forall v: nat :: v in frontier <==> v < n && Level(edges, v) == k
    ensures LevelList(edges, n, Sort(frontier), k)
    ensures Counted(n, rem, done + Sort(frontier), indegree)
  {
    var seen := done + frontier;
    forall i, j | 0 <= i < j < |frontier| ensures frontier[i] != frontier[j] {
      assert seen[|done| + i] != seen[|done| + j];
    }
    forall v: nat ensures v in frontier <==> v < n && Level(edges, v) == k {
      assert v in frontier ==> v in seen;
      if v < n && Level(edges, v) == k {
        forall u: nat ensures u !in In(rem, v) {
          InMember(rem, u, v);
          if (u, v) in edges { EdgeRaisesLevel(edges, n, u, v); assert (u, v).0 < n; }
        }
        assert v in seen;
      }
    }
    SortKeeps(frontier);
    SortAscends(frontier);
    PermuteTail(done, frontier, Sort(frontier), n);
  }

  lemma PermuteTail(done: seq<nat>, tail: seq<nat>, tail': seq<nat>, n: nat)
    requires Distinct(done + tail) && InRange(done + tail, n)
    requires Distinct(tail') && forall x :: x in tail' <==> x in tail
    ensures Distinct(done + tail') && InRange(done + tail', n)
    ensures forall x :: x in done + tail' <==> x in done + tail
  {
    var seen, all := done + tail, done + tail';
    forall i, j | 0 <= i < j < |all| ensures all[i] != all[j] {
      if i < |done| <= j {
        assert tail'[j - |done|] in tail;
        var k :| 0 <= k < |tail| && tail[k] == all[j];
        assert seen[i] != seen[|done| + k];
      } else if i < |done| {
        assert seen[i] != seen[j];
      } else {
        assert tail'[i - |done|] != tail'[j - |done|];
      }
    }
    forall i | 0 <= i < |all| ensures all[i] < n {
      assert all[i] in seen by { if i >= |done| { assert tail'[i - |done|] in tail; } }
    }
  }

  /** Process one level: every successor that becomes free goes to the next frontier. */
  method NextFrontier(n: nat, ghost edges: Edges, outgoing: seq<seq<nat>>, level: seq<nat>, indegree: seq<int>,
                      ghost done: seq<nat>, ghost rem: Edges, ghost x: nat, ghost k: nat)
    returns (next: seq<nat>, indegree': seq<int>, ghost rem': Edges, ghost x': nat)
    requires Forward(edges, n) && Successors(n, edges, outgoing) && forall u :: 0 <= u < n ==> Ascending(outgoing[u])
    requires Remaining(edges, rem, done, x, []) && Counted(n, rem, done + level, indegree)
    requires forall i :: 0 <= i < |done| ==> Level(edges, done[i]) < k
    requires forall i :: 0 <= i < |level| ==> Level(edges, level[i]) == k
    ensures Remaining(edges, rem', done + level, x', []) && Counted(n, rem', done + level + next, indegree')
    ensures forall i :: 0 <= i < |next| ==> Level(edges, next[i]) == k + 1
  {
    next, indegree', rem', x' := [], indegree, rem, x;
    assert done + level[..0] == done && done + level + next == done + level;
    for i := 0 to |level|
      invariant Remaining(edges, rem', done + level[..i], x', [])
      invariant Counted(n, rem', done + level + next, indegree')
      invariant forall j :: 0 <= j < |next| ==> Level(edges, next[j]) == k + 1
    {
      ghost var all := done + level + next;
      ghost var before, after := done + level[..i], done + level[..i + 1];
      assert all[|done| + i] == level[i] && after == before + [level[i]];
      forall j | 0 <= j < |after|
        ensures after[j] == all[j] && Level(edges, after[j]) <= k {
        if j < |done| { assert after[j] == done[j]; } else { assert after[j] == level[j - |done|]; }
      }
      assert forall j :: 0 <= j < |before| ==> before[j] == all[j];
      TakeNode(edges, rem', before, x', level[i], outgoing[level[i]]);
      ghost var more;
      next, indegree', rem', more := Relax(n, edges, level[i], outgoing[level[i]], next, indegree', done + level, after, rem');
      x' := level[i];
    }
    assert level[..|level|] == level;
  }

  /** Groups of nodes that may run in parallel. */
  method ParallelizableLevels(n: nat, edges: seq<Edge>) returns (levels: seq<seq<nat>>)
    requires Forward(Pairs(edges), n) && DistinctPairs(edges)
    ensures LevelLists(Pairs(edges), n, levels)
    ensures forall k :: 0 <= k < |levels| ==> levels[k] != []
    ensures forall v: nat :: v < n ==> Level(Pairs(edges), v) < |levels|
  {
    hide Pairs, DistinctPairs, Level, In;
    ghost var es, rem, x := Pairs(edges), Pairs(edges), 0;
    var outgoing, indegree := BuildAdjacency(n, edges);
    var frontier := Roots(n, es, indegree);
    levels := [];
    ghost var done: seq<nat> := [];
    assert done + frontier == frontier;
    while frontier != []
      invariant Successors(n, es, outgoing) && forall u :: 0 <= u < n ==> Ascending(outgoing[u])
      invariant AtLevel(n, es, rem, done, frontier, indegree, x, |levels|)
      invariant LevelLists(es, n, levels) && forall k :: 0 <= k < |levels| ==> levels[k] != []
      decreases n - |done|
    {
      FrontierIsLevel(n, es, rem, done, frontier, indegree, x, |levels|);
      var level := Sort(frontier);
      assert |level| == |multiset(level)| == |frontier|;
      DistinctBound(done + level, n);
      frontier, indegree, rem, x := NextFrontier(n, es, outgoing, level, indegree, done, rem, x, |levels|);
      done := done + level;
      levels := levels + [level];
    }
    forall v: nat | v < n ensures Level(es, v) < |levels| {
      assert done + frontier == done;
      EveryNodeSeen(n, es, rem, done, x, indegree, v);
    }
  }

  /** Two nodes of one level have no edge between them. */
  lemma LevelIsIndependent(edges: Edges, n: nat, levels: seq<seq<nat>>, k: nat, u: nat, v: nat)
    requires Forward(edges, n) && LevelLists(edges, n, levels) && k < |levels| && u in levels[k] && v in levels[k]
    ensures (u, v) !in edges
  {
    assert LevelList(edges, n, levels[k], k);
    if (u, v) in edges {
      EdgeRaisesLevel(edges, n, u, v);
    }
  }
}
