/** Running a launch on device copies of the host buffers it captures. */
module Staging {
  import opened Options

  type Word = int
  type Local = int
  type Memory = seq<Word>
  type Value = nat   // memref values, numbered so that a view comes after its source

  /** A view-like operation: element i of the result is element at(i) of the source. `metadata` marks the base buffer of
      extracted metadata, which counts as an alias but is not traced through. */
  datatype ViewOp = ViewOp(result: Value, source: Value, at: nat -> nat, metadata: bool)
  {
    function At(i: nat): nat { at(i) }
  }
  datatype Place = Place(value: Value, index: nat)

  /** A store: its value and the kernel's other state (registers, shared memory) come from loads and that state. */
  datatype Instr = Instr(dst: Place, srcs: seq<Place>, f: (Local, seq<Word>) -> (Local, Word))
  {
    function Eval(l: Local, xs: seq<Word>): (Local, Word) { f(l, xs) }
  }
  datatype Launch = Launch(views: seq<ViewOp>, code: seq<Instr>)
  {
    predicate Valid() {
      && (forall i :: 0 <= i < |views| ==> views[i].source < views[i].result)
      && (forall i, j :: 0 <= i < |views| && 0 <= j < |views| && views[i].result == views[j].result ==> i == j)
    }
  }

  // ---- views --------------------------------------------------------------

  function Defining(views: seq<ViewOp>, v: Value): (i: int)
    ensures -1 <= i < |views|
    ensures i >= 0 ==> views[i].result == v
    ensures i < 0 ==> forall j :: 0 <= j < |views| ==> views[j].result != v
  {
    if views == [] then -1
    else if views[|views| - 1].result == v then |views| - 1
    else Defining(views[..|views| - 1], v)
  }

  /** The buffer a value is a view of. */
  function Root(l: Launch, v: Value): (r: Value)
    requires l.Valid()
    ensures Defining(l.views, r) < 0 && r <= v
    decreases v
  {
    var i := Defining(l.views, v);
    if i < 0 then v else Root(l, l.views[i].source)
  }

  function IndexAtRoot(l: Launch, v: Value, index: nat): nat
    requires l.Valid()
    decreases v
  {
    var i := Defining(l.views, v);
    if i < 0 then index else IndexAtRoot(l, l.views[i].source, l.views[i].At(index))
  }

  function Resolve(l: Launch, p: Place): Place
    requires l.Valid()
  {
    Place(Root(l, p.value), IndexAtRoot(l, p.value, p.index))
  }

  /** What element `index` of a value holds: the source's element that the view maps it to, down to a buffer. */
  ghost function Read(l: Launch, buffers: Place -> Word, v: Value, index: nat): Word
    requires l.Valid()
    decreases v
  {
    if exists i :: 0 <= i < |l.views| && l.views[i].result == v then
      var i :| 0 <= i < |l.views| && l.views[i].result == v;
      Read(l, buffers, l.views[i].source, l.views[i].At(index))
    else buffers(Place(v, index))
  }

  /** Reading through views is reading the buffer at the resolved place. */
  lemma {:induction false} ReadIsResolved(l: Launch, buffers: Place -> Word, p: Place)
    requires l.Valid()
    ensures Read(l, buffers, p.value, p.index) == buffers(Resolve(l, p))
    decreases p.value
  {
    var i := Defining(l.views, p.value);
    if i >= 0 {
      ReadIsResolved(l, buffers, Place(l.views[i].source, l.views[i].At(p.index)));
    }
  }

  /** No metadata operation between a value and its buffer. */
  predicate Traceable(l: Launch, v: Value)
    requires l.Valid()
    decreases v
  {
    var i := Defining(l.views, v);
    i >= 0 ==> !l.views[i].metadata && Traceable(l, l.views[i].source)
  }

  /** Follows definitions until none is a view: the function argument a value is a view of, if its chain of views can
      be followed and ends at one. */
  method TraceToFuncArg(l: Launch, v: Value, arguments: set<Value>) returns (arg: Option<Value>)
    requires l.Valid() && forall a :: a in arguments ==> Defining(l.views, a) < 0
    ensures arg == if Traceable(l, v) && Root(l, v) in arguments then Some(Root(l, v)) else None
  {
    var current := v;
    while Defining(l.views, current) >= 0 && !l.views[Defining(l.views, current)].metadata
      invariant Root(l, current) == Root(l, v) && Traceable(l, current) == Traceable(l, v)
      decreases current
    {
      current := l.views[Defining(l.views, current)].source;
    }
    arg := if current in arguments then Some(current) else None;
  }

  ghost predicate AliasesOnly(l: Launch, root: Value, aliases: set<Value>)
    requires l.Valid()
  {
    root in aliases && forall v :: v in aliases ==> Root(l, v) == root
  }

  ghost predicate NoEdgeOut(l: Launch, aliases: set<Value>) {
    forall i :: 0 <= i < |l.views| && l.views[i].source in aliases ==> l.views[i].result in aliases
  }

  /** Grows the set along view edges until a pass over the body adds nothing: it ends with exactly the values
      that are views, however indirect, of the buffer. */
  method BuildAliasSet(l: Launch, root: Value) returns (aliases: set<Value>)
    requires l.Valid() && Defining(l.views, root) < 0
    ensures forall v :: v in aliases <==> Root(l, v) == root
  {
    aliases := {root};
    var changed := true;
    ghost var results := set i | 0 <= i < |l.views| :: l.views[i].result;
    while changed
      invariant AliasesOnly(l, root, aliases)
      invariant !changed ==> NoEdgeOut(l, aliases)
      decreases |results - aliases|, changed
    {
      changed := false;
      ghost var before := aliases;
      for i := 0 to |l.views|
        invariant AliasesOnly(l, root, aliases) && before <= aliases
        invariant !changed ==> aliases == before
        invariant changed ==> |results - aliases| < |results - before|
        invariant forall j :: 0 <= j < i && l.views[j].source in before ==> l.views[j].result in aliases
      {
        var op := l.views[i];
        if op.source in aliases && op.result !in aliases {
          DefinedByItsOp(l, i);
          assert op.result in results;
          Shrinks(results, aliases, op.result);
          aliases, changed := aliases + {op.result}, true;
        }
      }
    }
    forall v ensures v in aliases <==> Root(l, v) == root {
      AllAliasesFound(l, root, aliases, v);
    }
  }

  lemma DefinedByItsOp(l: Launch, i: nat)
    requires l.Valid() && i < |l.views|
    ensures Defining(l.views, l.views[i].result) == i
    ensures Root(l, l.views[i].result) == Root(l, l.views[i].source)
  {
  }

  lemma Shrinks(all: set<Value>, s: set<Value>, v: Value)
    requires v in all && v !in s
    ensures |all - (s + {v})| < |all - s|
  {
    assert all - s == (all - (s + {v})) + {v};
  }

  lemma {:induction false} AllAliasesFound(l: Launch, root: Value, aliases: set<Value>, v: Value)
    requires l.Valid() && AliasesOnly(l, root, aliases) && NoEdgeOut(l, aliases)
    ensures v in aliases <==> Root(l, v) == root
    decreases v
  {
    var i := Defining(l.views, v);
    if i >= 0 {
      AllAliasesFound(l, root, aliases, l.views[i].source);
    }
  }

  /** Does any store of the body go through an alias of the buffer? */
  method IsWritten(l: Launch, root: Value) returns (written: bool)
    requires l.Valid() && Defining(l.views, root) < 0
    ensures written <==> Written(l, root)
  {
    var aliases := BuildAliasSet(l, root);
    written := false;
    for i := 0 to |l.code|
      invariant written <==> exists j :: 0 <= j < i && Root(l, l.code[j].dst.value) == root
    {
      if l.code[i].dst.value in aliases {
        written := true;
      }
    }
  }

  predicate Written(l: Launch, root: Value)
    requires l.Valid()
  {
    exists j :: 0 <= j < |l.code| && Root(l, l.code[j].dst.value) == root
  }

  // ---- buffers ------------------------------------------------------------

  /** Where the elements of each buffer are in memory, and which buffers are on the device already. */
  datatype Buffers = Buffers(at: map<Value, seq<nat>>, resident: set<Value>)

  function Address(b: Buffers, p: Place): nat
    requires p.value in b.at && p.index < |b.at[p.value]|
  {
    b.at[p.value][p.index]
  }

  predicate InBuffer(l: Launch, b: Buffers, p: Place)
    requires l.Valid()
  {
    var q := Resolve(l, p);
    q.value in b.at && q.index < |b.at[q.value]|
  }

  /** Buffers lie in memory and none overlaps itself. */
  ghost predicate InMemory(b: Buffers, size: nat) {
    && (forall v, k :: v in b.at && 0 <= k < |b.at[v]| ==> b.at[v][k] < size)
    && (forall v, k, m :: v in b.at && 0 <= k < m < |b.at[v]| ==> b.at[v][k] != b.at[v][m])
  }

  /** Every access is to an element of a captured buffer. */
  ghost predicate Fits(l: Launch, b: Buffers, size: nat) {
    && l.Valid() && InMemory(b, size)
    && (forall v :: v in b.at ==> Defining(l.views, v) < 0)
    && (forall i :: 0 <= i < |l.code| ==> InBuffer(l, b, l.code[i].dst))
    && (forall i, k :: 0 <= i < |l.code| && 0 <= k < |l.code[i].srcs| ==> InBuffer(l, b, l.code[i].srcs[k]))
  }

  predicate Overlap(b: Buffers, v: Value, w: Value)
    requires v in b.at && w in b.at
  {
    exists k, m :: 0 <= k < |b.at[v]| && 0 <= m < |b.at[w]| && b.at[v][k] == b.at[w][m]
  }

  /** No buffer on the host shares memory with another captured one. */
  ghost predicate Separate(b: Buffers) {
    forall v, w :: v in b.at && w in b.at && v != w && v !in b.resident ==> !Overlap(b, v, w)
  }

  // ---- running directly and staged ----------------------------------------

  ghost function DirectLoad(l: Launch, b: Buffers, mem: Memory, p: Place): Word
    requires Fits(l, b, |mem|) && InBuffer(l, b, p)
  {
    mem[Address(b, Resolve(l, p))]
  }

  /** A load reads what its place holds, views and all. */
  lemma LoadsThroughViews(l: Launch, b: Buffers, mem: Memory, p: Place)
    requires Fits(l, b, |mem|) && InBuffer(l, b, p)
    ensures DirectLoad(l, b, mem, p)
         == Read(l, (q: Place) => if q.value in b.at && q.index < |b.at[q.value]| then mem[b.at[q.value][q.index]] else 0,
                 p.value, p.index)
  {
    ReadIsResolved(l, (q: Place) => if q.value in b.at && q.index < |b.at[q.value]| then mem[b.at[q.value][q.index]] else 0, p);
  }

  ghost function DirectLoads(l: Launch, b: Buffers, mem: Memory, srcs: seq<Place>): (xs: seq<Word>)
    requires Fits(l, b, |mem|) && forall k :: 0 <= k < |srcs| ==> InBuffer(l, b, srcs[k])
    ensures |xs| == |srcs|
  {
    seq(|srcs|, k requires 0 <= k < |srcs| => DirectLoad(l, b, mem, srcs[k]))
  }

  ghost function DirectStep(l: Launch, b: Buffers, s: Local, m: Memory, n: nat): (r: (Local, Memory))
    requires Fits(l, b, |m|) && n < |l.code|
    ensures |r.1| == |m|
  {
    var c := l.code[n];
    var (s', w) := c.Eval(s, DirectLoads(l, b, m, c.srcs));
    (s', m[Address(b, Resolve(l, c.dst)) := w])
  }

  /** The first n stores, on memory itself. */
  ghost function Direct(l: Launch, b: Buffers, mem: Memory, n: nat): (r: (Local, Memory))
    requires Fits(l, b, |mem|) && n <= |l.code|
    ensures |r.1| == |mem|
  {
    if n == 0 then (0, mem)
    else
      var (s, m) := Direct(l, b, mem, n - 1);
      DirectStep(l, b, s, m, n - 1)
  }

  type Device = map<Value, seq<Word>>

  /** The device holds a copy of the right size for every buffer that is not there already. */
  ghost predicate DeviceFits(b: Buffers, dev: Device) {
    forall v :: v in b.at && v !in b.resident ==> v in dev && |dev[v]| == |b.at[v]|
  }

  function DeviceLoad(l: Launch, b: Buffers, mem: Memory, dev: Device, p: Place): Word
    requires Fits(l, b, |mem|) && DeviceFits(b, dev) && InBuffer(l, b, p)
  {
    var q := Resolve(l, p);
    if q.value in b.resident then mem[Address(b, q)] else dev[q.value][q.index]
  }

  function DeviceLoads(l: Launch, b: Buffers, mem: Memory, dev: Device, srcs: seq<Place>): (xs: seq<Word>)
    requires Fits(l, b, |mem|) && DeviceFits(b, dev) && forall k :: 0 <= k < |srcs| ==> InBuffer(l, b, srcs[k])
    ensures |xs| == |srcs|
  {
    seq(|srcs|, k requires 0 <= k < |srcs| => DeviceLoad(l, b, mem, dev, srcs[k]))
  }

  ghost function DeviceStep(l: Launch, b: Buffers, s: Local, m: Memory, d: Device, n: nat): (r: (Local, Memory, Device))
    requires Fits(l, b, |m|) && DeviceFits(b, d) && n < |l.code|
    ensures |r.1| == |m| && DeviceFits(b, r.2)
  {
    var c := l.code[n];
    var (s', w) := c.Eval(s, DeviceLoads(l, b, m, d, c.srcs));
    var p := Resolve(l, c.dst);
    if p.value in b.resident then (s', m[Address(b, p) := w], d)
    else (s', m, d[p.value := d[p.value][p.index := w]])
  }

  /** The first n stores with captured buffers replaced by their device counterparts. */
  ghost function OnDevice(l: Launch, b: Buffers, mem: Memory, dev: Device, n: nat): (r: (Local, Memory, Device))
    requires Fits(l, b, |mem|) && DeviceFits(b, dev) && n <= |l.code|
    ensures |r.1| == |mem| && DeviceFits(b, r.2)
  {
    if n == 0 then (0, mem, dev)
    else
      var (s, m, d) := OnDevice(l, b, mem, dev, n - 1);
      DeviceStep(l, b, s, m, d, n - 1)
  }

  ghost function CopyIn(b: Buffers, mem: Memory): (dev: Device)
    requires forall v, k :: v in b.at && 0 <= k < |b.at[v]| ==> b.at[v][k] < |mem|
    ensures DeviceFits(b, dev)
    ensures forall v, k :: v in b.at && v !in b.resident && 0 <= k < |b.at[v]| ==> dev[v][k] == mem[b.at[v][k]]
  {
    map v | v in b.at && v !in b.resident :: seq(|b.at[v]|, k requires 0 <= k < |b.at[v]| => mem[b.at[v][k]])
  }

  ghost function CopyOne(at: seq<nat>, data: seq<Word>, mem: Memory, n: nat): (r: Memory)
    requires n <= |at| == |data| && forall k :: 0 <= k < |at| ==> at[k] < |mem|
    ensures |r| == |mem|
  {
    if n == 0 then mem else CopyOne(at, data, mem, n - 1)[at[n - 1] := data[n - 1]]
  }

  /** Copies the written buffers back, in the order they were captured. */
  ghost function CopyBack(l: Launch, b: Buffers, order: seq<Value>, dev: Device, mem: Memory, n: nat): (r: Memory)
    requires Fits(l, b, |mem|) && DeviceFits(b, dev) && n <= |order|
    requires forall i :: 0 <= i < |order| ==> order[i] in b.at && order[i] !in b.resident
    ensures |r| == |mem|
  {
    if n == 0 then mem
    else
      var m := CopyBack(l, b, order, dev, mem, n - 1);
      var v := order[n - 1];
      if Written(l, v) then CopyOne(b.at[v], dev[v], m, |b.at[v]|) else m
  }

  /** The order in which captured host buffers are met; each is met once. */
  ghost predicate Order(b: Buffers, order: seq<Value>) {
    && (forall i :: 0 <= i < |order| ==> order[i] in b.at && order[i] !in b.resident)
    && (forall v :: v in b.at && v !in b.resident ==> v in order)
    && (forall i, j :: 0 <= i < j < |order| ==> order[i] != order[j])
  }

  ghost function StagedRun(l: Launch, b: Buffers, order: seq<Value>, mem: Memory): (r: Memory)
    requires Fits(l, b, |mem|) && Order(b, order)
    ensures |r| == |mem|
  {
    var (_, m, dev) := OnDevice(l, b, mem, CopyIn(b, mem), |l.code|);
    CopyBack(l, b, order, dev, m, |order|)
  }

  ghost function DirectRun(l: Launch, b: Buffers, mem: Memory): (r: Memory)
    requires Fits(l, b, |mem|)
    ensures |r| == |mem|
  {
    Direct(l, b, mem, |l.code|).1
  }

  // ---- staging is transparent ---------------------------------------------

  /** The device copies mirror what running directly has put in memory; memory itself still has the old contents
      of the staged buffers and the new ones of the rest. */
  ghost predicate Mirrors(b: Buffers, direct: Memory, mem: Memory, dev: Device)
    requires |direct| == |mem| && DeviceFits(b, dev)
    requires forall v, k :: v in b.at && 0 <= k < |b.at[v]| ==> b.at[v][k] < |mem|
  {
    && (forall v, k :: v in b.at && v !in b.resident && 0 <= k < |b.at[v]| ==> dev[v][k] == direct[b.at[v][k]])
    && (forall v, k :: v in b.at && v in b.resident && 0 <= k < |b.at[v]| ==> mem[b.at[v][k]] == direct[b.at[v][k]])
  }

  lemma SameLoads(l: Launch, b: Buffers, direct: Memory, mem: Memory, dev: Device, srcs: seq<Place>)
    requires |direct| == |mem| && Fits(l, b, |mem|) && DeviceFits(b, dev) && Mirrors(b, direct, mem, dev)
    requires forall k :: 0 <= k < |srcs| ==> InBuffer(l, b, srcs[k])
    ensures DirectLoads(l, b, direct, srcs) == DeviceLoads(l, b, mem, dev, srcs)
  {
    forall k | 0 <= k < |srcs| ensures DirectLoad(l, b, direct, srcs[k]) == DeviceLoad(l, b, mem, dev, srcs[k]) {
      var q := Resolve(l, srcs[k]);
      assert b.at[q.value][q.index] == Address(b, q);
    }
  }

  ghost predicate Restaged(l: Launch, b: Buffers, a: nat)
    requires l.Valid()
  {
    exists v, k :: v in b.at && v !in b.resident && Written(l, v) && 0 <= k < |b.at[v]| && b.at[v][k] == a
  }

  /** What is not an element of a staged buffer written so far is the same in both memories. */
  ghost predicate SameElsewhere(l: Launch, b: Buffers, direct: Memory, mem: Memory)
    requires l.Valid() && |direct| == |mem|
  {
    forall a :: 0 <= a < |mem| && !Restaged(l, b, a) ==> mem[a] == direct[a]
  }

  lemma {:induction false} DeviceMirrorsDirect(l: Launch, b: Buffers, mem: Memory, n: nat)
    requires Fits(l, b, |mem|) && Separate(b) && n <= |l.code|
    ensures var (s, direct) := Direct(l, b, mem, n);
            var (s', m, dev) := OnDevice(l, b, mem, CopyIn(b, mem), n);
            s == s' && Mirrors(b, direct, m, dev) && SameElsewhere(l, b, direct, m)
  {
    if n > 0 {
      DeviceMirrorsDirect(l, b, mem, n - 1);
      var (s, direct) := Direct(l, b, mem, n - 1);
      var (s', m, dev) := OnDevice(l, b, mem, CopyIn(b, mem), n - 1);
      StepMirrors(l, b, s, direct, m, dev, n - 1);
    }
  }

  lemma StepMirrors(l: Launch, b: Buffers, s: Local, direct: Memory, mem: Memory, dev: Device, n: nat)
    requires |direct| == |mem| && Fits(l, b, |mem|) && Separate(b) && DeviceFits(b, dev) && n < |l.code|
    requires Mirrors(b, direct, mem, dev) && SameElsewhere(l, b, direct, mem)
    ensures var (s1, direct1) := DirectStep(l, b, s, direct, n);
            var (s2, mem2, dev2) := DeviceStep(l, b, s, mem, dev, n);
            s1 == s2 && Mirrors(b, direct1, mem2, dev2) && SameElsewhere(l, b, direct1, mem2)
  {
    hide Mirrors, SameElsewhere;
    SameLoads(l, b, direct, mem, dev, l.code[n].srcs);
    var (_, w) := l.code[n].Eval(s, DirectLoads(l, b, direct, l.code[n].srcs));
    StoreMirrors(l, b, direct, mem, dev, n, w);
  }

  lemma StoreMirrors(l: Launch, b: Buffers, direct: Memory, mem: Memory, dev: Device, n: nat, w: Word)
    requires |direct| == |mem| && Fits(l, b, |mem|) && Separate(b) && DeviceFits(b, dev) && n < |l.code|
    requires Mirrors(b, direct, mem, dev) && SameElsewhere(l, b, direct, mem)
    ensures var p := Resolve(l, l.code[n].dst);
            var direct' := direct[Address(b, p) := w];
            if p.value in b.resident
            then var mem' := mem[Address(b, p) := w]; Mirrors(b, direct', mem', dev) && SameElsewhere(l, b, direct', mem')
            else var dev' := dev[p.value := dev[p.value][p.index := w]];
                 Mirrors(b, direct', mem, dev') && SameElsewhere(l, b, direct', mem)
  {
    var p := Resolve(l, l.code[n].dst);
    assert InBuffer(l, b, l.code[n].dst);
    var at := b.at[p.value];
    assert at[p.index] == Address(b, p);
    forall v, k | v in b.at && v !in b.resident && 0 <= k < |b.at[v]| && (v != p.value || k != p.index)
      ensures b.at[v][k] != Address(b, p) {
      if v != p.value {
        assert !Overlap(b, v, p.value);
      }
    }
    if p.value !in b.resident {
      assert Written(l, p.value);
      forall v, k | v in b.at && v in b.resident && 0 <= k < |b.at[v]| ensures b.at[v][k] != Address(b, p) {
        assert !Overlap(b, p.value, v);
      }
    }
  }

  lemma {:induction false} CopiedOne(at: seq<nat>, data: seq<Word>, mem: Memory, n: nat)
    requires n <= |at| == |data| && forall k :: 0 <= k < |at| ==> at[k] < |mem|
    requires forall k, m :: 0 <= k < m < |at| ==> at[k] != at[m]
    ensures forall k :: 0 <= k < n ==> CopyOne(at, data, mem, n)[at[k]] == data[k]
    ensures forall a :: 0 <= a < |mem| && a !in at[..n] ==> CopyOne(at, data, mem, n)[a] == mem[a]
  {
    if n > 0 {
      CopiedOne(at, data, mem, n - 1);
      assert at[..n] == at[..n - 1] + [at[n - 1]];
    }
  }

  /** After the first n buffers have been copied back they hold what running directly put there. */
  lemma {:induction false} CopiedBack(l: Launch, b: Buffers, order: seq<Value>, dev: Device, direct: Memory, mem: Memory, n: nat)
    requires |direct| == |mem| && Fits(l, b, |mem|) && Order(b, order) && DeviceFits(b, dev) && n <= |order|
    requires Mirrors(b, direct, mem, dev)
    ensures var r := CopyBack(l, b, order, dev, mem, n);
            && (forall a :: 0 <= a < |mem| && mem[a] == direct[a] ==> r[a] == direct[a])
            && (forall i, k :: 0 <= i < n && Written(l, order[i]) && 0 <= k < |b.at[order[i]]| ==>
                  r[b.at[order[i]][k]] == direct[b.at[order[i]][k]])
  {
    if n > 0 {
      CopiedBack(l, b, order, dev, direct, mem, n - 1);
      var v := order[n - 1];
      var m := CopyBack(l, b, order, dev, mem, n - 1);
      if Written(l, v) {
        CopiedOne(b.at[v], dev[v], m, |b.at[v]|);
        assert b.at[v][..|b.at[v]|] == b.at[v];
        forall a | 0 <= a < |mem| && a in b.at[v] ensures CopyOne(b.at[v], dev[v], m, |b.at[v]|)[a] == direct[a] {
          var k :| 0 <= k < |b.at[v]| && b.at[v][k] == a;
        }
      }
    }
  }

  /** With captured host buffers separate from all others, staging a launch is running it on host memory. */
  lemma StagedIsDirect(l: Launch, b: Buffers, order: seq<Value>, mem: Memory)
    requires Fits(l, b, |mem|) && Order(b, order) && Separate(b)
    ensures StagedRun(l, b, order, mem) == DirectRun(l, b, mem)
  {
    var direct := DirectRun(l, b, mem);
    var (_, m, dev) := OnDevice(l, b, mem, CopyIn(b, mem), |l.code|);
    DeviceMirrorsDirect(l, b, mem, |l.code|);
    CopiedBack(l, b, order, dev, direct, m, |order|);
    var r := StagedRun(l, b, order, mem);
    forall a | 0 <= a < |mem| ensures r[a] == direct[a] {
      if v, k :| v in b.at && v !in b.resident && Written(l, v) && 0 <= k < |b.at[v]| && b.at[v][k] == a {
        assert v in order;
        var i :| 0 <= i < |order| && order[i] == v;
        assert r[b.at[order[i]][k]] == direct[b.at[order[i]][k]];
      } else {
        assert m[a] == direct[a];
      }
    }
  }

  // ---- and only then ------------------------------------------------------

  /** One element gets one more than another holds, twice. */
  function Bump(v: Value, k: nat, w: Value, m: nat): Launch {
    var add := Instr(Place(v, k), [Place(w, m)], (s: Local, xs: seq<Word>) => (s, if |xs| == 1 then xs[0] + 1 else 0));
    Launch([], [add, add])
  }

  lemma OverlapBreaks(b: Buffers, order: seq<Value>, mem: Memory, v: Value, w: Value, k: nat, m: nat)
    requires v in b.at && w in b.at && v != w && v !in b.resident && k < |b.at[v]| && m < |b.at[w]|
    requires b.at[v][k] == b.at[w][m] && Fits(Bump(v, k, w, m), b, |mem|) && Order(b, order)
    ensures StagedRun(Bump(v, k, w, m), b, order, mem) != DirectRun(Bump(v, k, w, m), b, mem)
  {
    var l := Bump(v, k, w, m);
    var a := b.at[v][k];
    assert Resolve(l, Place(v, k)) == Place(v, k) && Resolve(l, Place(w, m)) == Place(w, m);
    var x := mem[a];
    assert Direct(l, b, mem, 0) == (0, mem);
    assert DirectLoads(l, b, mem, l.code[0].srcs) == [x];
    assert l.code[0].Eval(0, [x]) == (0, x + 1);
    var d1 := Direct(l, b, mem, 1).1;
    assert d1 == mem[a := x + 1];
    assert DirectLoads(l, b, d1, l.code[1].srcs) == [x + 1];
    assert l.code[1].Eval(0, [x + 1]) == (0, x + 2);
    assert DirectRun(l, b, mem)[a] == x + 2;
    BumpStaged(b, order, mem, v, w, k, m);
  }

  lemma BumpStaged(b: Buffers, order: seq<Value>, mem: Memory, v: Value, w: Value, k: nat, m: nat)
    requires v in b.at && w in b.at && v != w && v !in b.resident && k < |b.at[v]| && m < |b.at[w]|
    requires b.at[v][k] == b.at[w][m] && Fits(Bump(v, k, w, m), b, |mem|) && Order(b, order)
    ensures StagedRun(Bump(v, k, w, m), b, order, mem)[b.at[v][k]] <= mem[b.at[v][k]] + 1
  {
    var l := Bump(v, k, w, m);
    var x := mem[b.at[v][k]];
    assert Resolve(l, Place(v, k)) == Place(v, k) && Resolve(l, Place(w, m)) == Place(w, m);
    var dev0 := CopyIn(b, mem);
    assert OnDevice(l, b, mem, dev0, 0) == (0, mem, dev0);
    assert DeviceLoads(l, b, mem, dev0, l.code[0].srcs) == [x];
    assert l.code[0].Eval(0, [x]) == (0, x + 1);
    var (_, m1, dev1) := OnDevice(l, b, mem, dev0, 1);
    assert m1 == mem && dev1 == dev0[v := dev0[v][k := x + 1]];
    var (_, m2, dev2) := OnDevice(l, b, mem, dev0, 2);
    assert DeviceLoads(l, b, mem, dev1, l.code[1].srcs) == [x];
    assert m2 == mem && dev2[v][k] == x + 1;
    assert forall u :: u in b.at && u !in b.resident && u != v ==> !Written(l, u);
    OnlyOneCopiedBack(l, b, order, dev2, mem, v, k, |order|);
  }

  lemma {:induction false} OnlyOneCopiedBack(l: Launch, b: Buffers, order: seq<Value>, dev: Device, mem: Memory, v: Value,
                                             k: nat, n: nat)
    requires Fits(l, b, |mem|) && Order(b, order) && DeviceFits(b, dev) && n <= |order|
    requires v in b.at && v !in b.resident && k < |b.at[v]| && dev[v][k] == mem[b.at[v][k]] + 1
    requires forall u :: u in b.at && u !in b.resident && u != v ==> !Written(l, u)
    ensures CopyBack(l, b, order, dev, mem, n)[b.at[v][k]] <= mem[b.at[v][k]] + 1
  {
    if n > 0 {
      OnlyOneCopiedBack(l, b, order, dev, mem, v, k, n - 1);
      if order[n - 1] == v {
        CopiedOne(b.at[v], dev[v], CopyBack(l, b, order, dev, mem, n - 1), |b.at[v]|);
      }
    }
  }

  /** Staging is transparent to every launch over these buffers exactly when no host buffer among them shares
      memory with another. */
  lemma TransparentIff(b: Buffers, order: seq<Value>, mem: Memory)
    requires InMemory(b, |mem|) && Order(b, order)
    ensures Separate(b) <==>
              forall l :: Fits(l, b, |mem|) ==> StagedRun(l, b, order, mem) == DirectRun(l, b, mem)
  {
    if Separate(b) {
      forall l | Fits(l, b, |mem|) ensures StagedRun(l, b, order, mem) == DirectRun(l, b, mem) {
        StagedIsDirect(l, b, order, mem);
      }
    } else {
      var v, w :| v in b.at && w in b.at && v != w && v !in b.resident && Overlap(b, v, w);
      var k, m :| 0 <= k < |b.at[v]| && 0 <= m < |b.at[w]| && b.at[v][k] == b.at[w][m];
      BumpFits(b, |mem|, v, k, w, m);
      OverlapBreaks(b, order, mem, v, w, k, m);
    }
  }

  lemma BumpFits(b: Buffers, size: nat, v: Value, k: nat, w: Value, m: nat)
    requires InMemory(b, size) && v in b.at && w in b.at && k < |b.at[v]| && m < |b.at[w]|
    ensures Fits(Bump(v, k, w, m), b, size)
  {
    var l := Bump(v, k, w, m);
    assert Resolve(l, Place(v, k)) == Place(v, k) && Resolve(l, Place(w, m)) == Place(w, m);
    assert InBuffer(l, b, Place(v, k)) && InBuffer(l, b, Place(w, m));
  }

  // ---- the launches of a function, one after another ----------------------

  datatype Stage = Stage(l: Launch, b: Buffers, order: seq<Value>)

  ghost predicate Stages(ls: seq<Stage>, size: nat) {
    forall i :: 0 <= i < |ls| ==> Fits(ls[i].l, ls[i].b, size) && Order(ls[i].b, ls[i].order) && Separate(ls[i].b)
  }

  ghost function RunStaged(ls: seq<Stage>, mem: Memory): Memory
    requires Stages(ls, |mem|)
  {
    if ls == [] then mem else RunStaged(ls[1..], StagedRun(ls[0].l, ls[0].b, ls[0].order, mem))
  }

  ghost function RunDirect(ls: seq<Stage>, mem: Memory): Memory
    requires Stages(ls, |mem|)
  {
    if ls == [] then mem else RunDirect(ls[1..], DirectRun(ls[0].l, ls[0].b, mem))
  }

  lemma {:induction false} AllStagedIsDirect(ls: seq<Stage>, mem: Memory)
    requires Stages(ls, |mem|)
    ensures RunStaged(ls, mem) == RunDirect(ls, mem)
  {
    if ls != [] {
      StagedIsDirect(ls[0].l, ls[0].b, ls[0].order, mem);
      AllStagedIsDirect(ls[1..], DirectRun(ls[0].l, ls[0].b, mem));
    }
  }

  // ---- the staged launch, step by step ------------------------------------

  ghost predicate CopiedIn(b: Buffers, order: seq<Value>, mem: Memory, dev: Device, n: nat)
    requires InMemory(b, |mem|) && Order(b, order) && n <= |order|
  {
    && dev.Keys == (set i | 0 <= i < n :: order[i])
    && forall v :: v in dev ==> v in b.at && v !in b.resident && dev[v] == CopyIn(b, mem)[v]
  }

  /** Allocate and copy in, run, copy back what the body may have written. */
  method StageDataForLaunch(l: Launch, b: Buffers, order: seq<Value>, mem: array<Word>)
    requires Fits(l, b, mem.Length) && Order(b, order)
    modifies mem
    ensures mem[..] == StagedRun(l, b, order, old(mem[..]))
  {
    ghost var before := mem[..];
    var dev: Device := map[];
    for i := 0 to |order|
      invariant mem[..] == before && CopiedIn(b, order, before, dev, i)
    {
      var m, at := mem[..], b.at[order[i]];
      dev := dev[order[i] := seq(|at|, k requires 0 <= k < |at| => m[at[k]])];
    }
    assert dev == CopyIn(b, before);
    dev := RunCode(l, b, mem, dev);
    CopyWrittenBack(l, b, order, dev, mem);
  }

  method RunCode(l: Launch, b: Buffers, mem: array<Word>, copies: Device) returns (dev: Device)
    requires Fits(l, b, mem.Length) && DeviceFits(b, copies)
    modifies mem
    ensures DeviceFits(b, dev)
    ensures OnDevice(l, b, old(mem[..]), copies, |l.code|).1 == mem[..]
    ensures OnDevice(l, b, old(mem[..]), copies, |l.code|).2 == dev
  {
    dev := copies;
    var s: Local := 0;
    for n := 0 to |l.code|
      invariant DeviceFits(b, dev)
      invariant OnDevice(l, b, old(mem[..]), copies, n) == (s, mem[..], dev)
    {
      s, dev := RunInstr(l, b, s, dev, n, mem);
    }
  }

  method RunInstr(l: Launch, b: Buffers, s: Local, dev: Device, n: nat, mem: array<Word>) returns (s': Local, dev': Device)
    requires Fits(l, b, mem.Length) && DeviceFits(b, dev) && n < |l.code|
    modifies mem
    ensures DeviceFits(b, dev') && DeviceStep(l, b, s, old(mem[..]), dev, n) == (s', mem[..], dev')
  {
    var c := l.code[n];
    var p := Resolve(l, c.dst);
    assert InBuffer(l, b, c.dst);
    var (t, w) := c.Eval(s, DeviceLoads(l, b, mem[..], dev, c.srcs));
    s', dev' := t, dev;
    if p.value in b.resident {
      mem[Address(b, p)] := w;
    } else {
      dev' := dev[p.value := dev[p.value][p.index := w]];
    }
  }

  method CopyWrittenBack(l: Launch, b: Buffers, order: seq<Value>, dev: Device, mem: array<Word>)
    requires Fits(l, b, mem.Length) && Order(b, order) && DeviceFits(b, dev)
    modifies mem
    ensures mem[..] == CopyBack(l, b, order, dev, old(mem[..]), |order|)
  {
    for i := 0 to |order|
      invariant mem[..] == CopyBack(l, b, order, dev, old(mem[..]), i)
    {
      var written := IsWritten(l, order[i]);
      if written {
        ghost var m := mem[..];
        var at := b.at[order[i]];
        for k := 0 to |at|
          invariant mem[..] == CopyOne(at, dev[order[i]], m, k)
        {
          mem[at[k]] := dev[order[i]][k];
        }
      }
    }
  }
}
