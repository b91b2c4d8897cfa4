/** The GPU runtime entry points a compiled kernel calls, and the per-thread capture state
    that redirects them while a graph is being recorded. */
module CaptureRuntime {
  import opened Options

  type Address = nat
  type Value = int
  type Memory = map<Address, Value>
  type Module = nat

  /** A kernel function: its code object and entry name. A loaded module gives handles to it. */
  datatype Function = Function(blob: nat, name: string)
  datatype FunctionHandle = FunctionHandle(m: Module, f: Function)

  /** One launch of the compiled host code: load the module, get the function, launch, unload. */
  datatype Launch = Launch(f: Function, args: seq<Address>)

  /** What a function does to memory. */
  type Effect = (Function, seq<Address>, Memory) -> Memory

  /** An operation a stream executes, or a graph records. */
  datatype GpuOp = Zero(a: Address) | Call(h: FunctionHandle, args: seq<Address>)

  function Perform(effect: Effect, op: GpuOp, m: Memory): Memory {
    match op
    case Zero(a) => m[a := 0]
    case Call(h, args) => effect(h.f, args, m)
  }

  function PerformAll(effect: Effect, ops: seq<GpuOp>, m: Memory): Memory {
    if ops == [] then m
    else Perform(effect, ops[|ops| - 1], PerformAll(effect, ops[..|ops| - 1], m))
  }

  lemma PerformLast(effect: Effect, ops: seq<GpuOp>, op: GpuOp, m: Memory)
    ensures PerformAll(effect, ops + [op], m) == Perform(effect, op, PerformAll(effect, ops, m))
  {
    assert (ops + [op])[..|ops|] == ops;
  }

  lemma {:induction false} PerformConcat(effect: Effect, a: seq<GpuOp>, b: seq<GpuOp>, m: Memory)
    ensures PerformAll(effect, a + b, m) == PerformAll(effect, b, PerformAll(effect, a, m))
  {
    if b == [] {
      assert a + b == a;
    } else {
      assert (a + b)[..|a + b| - 1] == a + b[..|b| - 1];
      PerformConcat(effect, a, b[..|b| - 1], m);
    }
  }

  // ---- what the entry points do -------------------------------------------

  /** The runtime's state on one thread, but for memory. A capture is open on the override stream while `capturing`; the
      runtime's flag for an active capture is set and cleared with the override. */
  datatype Control = Control(
    loaded: set<Module>,                      // modules the driver has loaded
    nextModule: Module,
    capturing: bool,
    recording: seq<GpuOp>,
    warmup: bool,
    cachedModule: Option<Module>,
    cachedFunction: Option<FunctionHandle>)
  {
    /** As it is between two kernels. */
    predicate Valid() {
      && (forall m :: m in loaded ==> m < nextModule)
      && (cachedModule.Some? <==> cachedFunction.Some?)
    }
  }

  /** The state after some entry points, the operations the device performed, and whether none threw. */
  datatype Moved = Moved(c: Control, ops: seq<GpuOp>, ok: bool)

  /** mgpuModuleLoadJIT: while capturing, the cached module if there is one. `loads` says whether the driver loads
      modules while a capture is open. */
  function LoadJIT(loads: bool, c: Control): (Control, Option<Module>) {
    if c.capturing && c.cachedModule.Some? then (c, c.cachedModule)
    else if c.capturing && !loads then (c, None)
    else
      var m := c.nextModule;
      (c.(loaded := c.loaded + {m}, nextModule := m + 1, cachedModule := Some(m)), Some(m))
  }

  /** mgpuModuleGetFunction: while capturing, whatever function was cached last. */
  function GetFunction(c: Control, m: Module, f: Function): (Control, FunctionHandle) {
    if c.capturing && c.cachedFunction.Some? then (c, c.cachedFunction.value)
    else (c.(cachedFunction := Some(FunctionHandle(m, f))), FunctionHandle(m, f))
  }

  /** On the stream a kernel gets: recorded while the override is set, performed otherwise. */
  function Submitted(c: Control, op: GpuOp): (Control, seq<GpuOp>) {
    if c.capturing then (c.(recording := c.recording + [op]), []) else (c, [op])
  }

  /** mgpuModuleUnload: not while capturing or warming up. */
  function Unloaded(c: Control, m: Module): Control {
    if c.capturing || c.warmup then c else c.(loaded := c.loaded - {m})
  }

  function LaunchOne(loads: bool, c: Control, l: Launch): Moved {
    var (c1, m) := LoadJIT(loads, c);
    if m.None? then Moved(c1, [], false)
    else
      var (c2, h) := GetFunction(c1, m.value, l.f);
      var (c3, ops) := Submitted(c2, Call(h, l.args));
      Moved(Unloaded(c3, m.value), ops, true)
  }

  /** The host code of a compiled kernel, up to the first launch that throws. */
  function Invoked(loads: bool, c: Control, launches: seq<Launch>): Moved {
    if launches == [] then Moved(c, [], true)
    else
      var before := Invoked(loads, c, launches[..|launches| - 1]);
      if !before.ok then before
      else
        var last := LaunchOne(loads, before.c, launches[|launches| - 1]);
        Moved(last.c, before.ops + last.ops, last.ok)
  }

  /** Outside a capture the launches run, and the last function is left in the cache. */
  lemma {:induction false} InvokedRuns(effect: Effect, loads: bool, c: Control, launches: seq<Launch>, m: Memory)
    requires c.Valid() && !c.capturing
    ensures var r := Invoked(loads, c, launches);
            && r.ok && PerformAll(effect, r.ops, m) == RunLaunches(effect, launches, m)
            && r.c.Valid() && c.loaded <= r.c.loaded && c.nextModule <= r.c.nextModule
            && !r.c.capturing && r.c.recording == c.recording && r.c.warmup == c.warmup
            && (launches == [] ==> r.c == c)
            && (launches != [] ==>
                  (r.c.cachedModule.Some?
                   && r.c.cachedFunction == Some(FunctionHandle(r.c.cachedModule.value, launches[|launches| - 1].f))
                   && (c.warmup ==> r.c.cachedModule.value in r.c.loaded)))
  {
    if launches != [] {
      var rest, l := launches[..|launches| - 1], launches[|launches| - 1];
      InvokedRuns(effect, loads, c, rest, m);
      var before := Invoked(loads, c, rest);
      var last := LaunchOne(loads, before.c, l);
      assert before.c.nextModule !in before.c.loaded;
      assert last.ops == [Call(FunctionHandle(before.c.nextModule, l.f), l.args)];
      PerformLast(effect, before.ops, last.ops[0], m);
    }
  }

  /** Outside a capture every launch loads a module, which stays only if it is a warm-up. */
  lemma {:induction false} InvokedLoads(loads: bool, c: Control, launches: seq<Launch>)
    requires c.Valid() && !c.capturing
    ensures Invoked(loads, c, launches).ok
    ensures var r := Invoked(loads, c, launches).c;
            && !r.capturing && r.warmup == c.warmup && r.nextModule == c.nextModule + |launches| && r.Valid()
            && forall m: Module :: m in r.loaded <==> m in c.loaded || (c.warmup && c.nextModule <= m < r.nextModule)
  {
    if launches != [] {
      InvokedLoads(loads, c, launches[..|launches| - 1]);
    }
  }

  /** What every launch under an open capture is recorded as a call of: the cached function, or else the first one. */
  function BoundTo(c: Control, launches: seq<Launch>): FunctionHandle
    requires launches != []
  {
    if c.cachedFunction.Some? then c.cachedFunction.value else FunctionHandle(c.nextModule, launches[0].f)
  }

  /** Under an open capture nothing is performed: the launches are recorded, all of one function, or the first one throws
      because its module is not cached and cannot be loaded. */
  lemma {:induction false} InvokedRecords(loads: bool, c: Control, launches: seq<Launch>)
    requires c.Valid() && c.capturing && launches != []
    ensures var r, h := Invoked(loads, c, launches), BoundTo(c, launches);
            && r.ops == [] && r.c.Valid() && r.c.capturing && r.c.warmup == c.warmup && c.loaded <= r.c.loaded
            && (r.ok <==> c.cachedFunction.Some? || loads)
            && (!r.ok ==> r.c == c)
            && (r.ok ==> r.c.recording == c.recording + Recorded(h, launches) && r.c.cachedFunction == Some(h))
            && (c.cachedFunction.Some? ==> r.c == c.(recording := r.c.recording))
            && (r.ok && c.cachedFunction.None? ==> h.m in r.c.loaded)
  {
    var rest, l := launches[..|launches| - 1], launches[|launches| - 1];
    if rest == [] {
      assert Recorded(BoundTo(c, launches), rest) == [];
      assert Invoked(loads, c, rest) == Moved(c, [], true);
    } else {
      InvokedRecords(loads, c, rest);
      assert BoundTo(c, rest) == BoundTo(c, launches);
    }
  }

  // ---- the runtime --------------------------------------------------------

  /** The runtime of one thread. */
  class Runtime {
    const effect: Effect
    const loadsWhileCapturing: bool     // what the driver does; the source takes it to refuse
    var memory: Memory
    var loaded: set<Module>
    var nextModule: Module
    var capturing: bool
    var recording: seq<GpuOp>
    var warmup: bool
    var cachedModule: Option<Module>
    var cachedFunction: Option<FunctionHandle>

    ghost function State(): Control
      reads this
    {
      Control(loaded, nextModule, capturing, recording, warmup, cachedModule, cachedFunction)
    }

    constructor (effect: Effect, loadsWhileCapturing: bool, memory: Memory)
      ensures State() == Control({}, 0, false, [], false, None, None) && State().Valid()
      ensures this.effect == effect && this.loadsWhileCapturing == loadsWhileCapturing && this.memory == memory
    {
      this.effect, this.loadsWhileCapturing, this.memory := effect, loadsWhileCapturing, memory;
      loaded, nextModule, capturing, recording, warmup := {}, 0, false, [], false;
      cachedModule, cachedFunction := None, None;
    }

    /** Warm-up starts from an empty cache. */
    method SetGraphWarmup(enable: bool)
      modifies this`warmup, this`cachedModule, this`cachedFunction
      ensures State() == old(State()).(warmup := enable,
                                       cachedModule := if enable then None else old(cachedModule),
                                       cachedFunction := if enable then None else old(cachedFunction))
    {
      warmup := enable;
      if enable {
        cachedModule, cachedFunction := None, None;
      }
    }

    /** Sets the override and opens a capture. */
    method BeginCapture()
      modifies this`capturing, this`recording
      ensures State() == old(State()).(capturing := true, recording := [])
    {
      capturing, recording := true, [];
    }

    method EndCapture() returns (graph: seq<GpuOp>)
      modifies this`capturing
      ensures State() == old(State()).(capturing := false) && graph == recording
    {
      capturing := false;
      graph := recording;
    }

    /** A graph launch performs everything that was recorded. */
    method GraphLaunch(graph: seq<GpuOp>)
      modifies this`memory
      ensures memory == PerformAll(effect, graph, old(memory))
    {
      for i := 0 to |graph|
        invariant memory == PerformAll(effect, graph[..i], old(memory))
      {
        assert graph[..i + 1][..i] == graph[..i];
        memory := Perform(effect, graph[i], memory);
      }
      assert graph[..|graph|] == graph;
    }

    /** mgpuModuleLoadJIT; None if the driver refuses. */
    method ModuleLoadJIT() returns (m: Option<Module>)
      modifies this`loaded, this`nextModule, this`cachedModule
      ensures (State(), m) == LoadJIT(loadsWhileCapturing, old(State()))
    {
      if capturing && cachedModule.Some? {
        return cachedModule;
      }
      if capturing && !loadsWhileCapturing {
        return None;
      }
      m := Some(nextModule);
      loaded, nextModule, cachedModule := loaded + {nextModule}, nextModule + 1, m;
    }

    /** mgpuModuleGetFunction */
    method ModuleGetFunction(m: Module, f: Function) returns (h: FunctionHandle)
      modifies this`cachedFunction
      ensures (State(), h) == GetFunction(old(State()), m, f)
    {
      if capturing && cachedFunction.Some? {
        return cachedFunction.value;
      }
      h := FunctionHandle(m, f);
      cachedFunction := Some(h);
    }

    /** mgpuModuleUnload: a module is unloaded outside captures and warm-ups only. */
    method ModuleUnload(m: Module)
      modifies this`loaded
      ensures State() == Unloaded(old(State()), m)
      ensures loaded == if capturing || warmup then old(loaded) else old(loaded) - {m}
    {
      if capturing || warmup {
        return;
      }
      loaded := loaded - {m};
    }

    /** A launch or a zeroing on the stream the runtime hands out. */
    method Submit(op: GpuOp)
      modifies this`memory, this`recording
      ensures State() == Submitted(old(State()), op).0
      ensures memory == PerformAll(effect, Submitted(old(State()), op).1, old(memory))
    {
      if capturing {
        recording := recording + [op];
      } else {
        memory := Perform(effect, op, memory);
        PerformLast(effect, [], op, old(memory));
        assert [] + [op] == [op];
      }
    }

    /** The host code of a compiled kernel. Outside a capture the launches run and no loaded module goes; under an open
        capture they are recorded as calls of one function, or the first one throws. */
    method InvokeCompiledKernel(launches: seq<Launch>) returns (ok: bool)
      requires State().Valid() && launches != []
      modifies this`memory, this`recording, this`loaded, this`nextModule, this`cachedModule, this`cachedFunction
      ensures var r := Invoked(loadsWhileCapturing, old(State()), launches);
              State() == r.c && ok == r.ok && memory == PerformAll(effect, r.ops, old(memory))
      ensures State().Valid() && old(loaded) <= loaded
      ensures !capturing ==> ok && memory == RunLaunches(effect, launches, old(memory)) && recording == old(recording)
      ensures !capturing && warmup ==> cachedModule.Some? && cachedModule.value in loaded
      ensures !capturing ==> nextModule == old(nextModule) + |launches|
      ensures !capturing ==>
                forall m: Module :: m in loaded <==> m in old(loaded) || (warmup && old(nextModule) <= m < nextModule)
      ensures capturing ==> memory == old(memory) && (ok <==> old(cachedFunction).Some? || loadsWhileCapturing)
      ensures capturing && ok ==> recording == old(recording) + Recorded(BoundTo(old(State()), launches), launches)
    {
      hide PerformAll, LaunchOne, RunLaunches, Recorded, BoundTo;
      ok := true;
      NothingPerformed(effect, memory);
      var i := 0;
      while i < |launches| && ok
        invariant 0 <= i <= |launches|
        invariant var r := Invoked(loadsWhileCapturing, old(State()), launches[..i]);
                  State() == r.c && ok == r.ok && memory == PerformAll(effect, r.ops, old(memory))
        decreases |launches| - i
      {
        ghost var before := Invoked(loadsWhileCapturing, old(State()), launches[..i]);
        ghost var was := memory;
        assert launches[..i + 1][..i] == launches[..i];
        ok := LaunchKernel(launches[i]);
        PerformConcat(effect, before.ops, LaunchOne(loadsWhileCapturing, before.c, launches[i]).ops, old(memory));
        i := i + 1;
      }
      FirstThrowEnds(loadsWhileCapturing, old(State()), launches, i);
      if capturing {
        InvokedRecords(loadsWhileCapturing, old(State()), launches);
      } else {
        InvokedRuns(effect, loadsWhileCapturing, old(State()), launches, old(memory));
        InvokedLoads(loadsWhileCapturing, old(State()), launches);
      }
    }

    /** One launch: load the module, get the function, launch, unload. */
    method LaunchKernel(l: Launch) returns (ok: bool)
      modifies this`memory, this`recording, this`loaded, this`nextModule, this`cachedModule, this`cachedFunction
      ensures var r := LaunchOne(loadsWhileCapturing, old(State()), l);
              State() == r.c && ok == r.ok && memory == PerformAll(effect, r.ops, old(memory))
    {
      hide PerformAll;
      var m := ModuleLoadJIT();
      NothingPerformed(effect, memory);
      if m.None? {
        return false;
      }
      var h := ModuleGetFunction(m.value, l.f);
      Submit(Call(h, l.args));
      ModuleUnload(m.value);
      return true;
    }
  }

  lemma NothingPerformed(effect: Effect, m: Memory)
    ensures PerformAll(effect, [], m) == m
  {
  }

  /** Launches after one that throws are not reached. */
  lemma {:induction false} FirstThrowEnds(loads: bool, c: Control, launches: seq<Launch>, i: nat)
    requires i <= |launches| && (i == |launches| || !Invoked(loads, c, launches[..i]).ok)
    ensures Invoked(loads, c, launches) == Invoked(loads, c, launches[..i])
  {
    if i == |launches| {
      assert launches[..i] == launches;
    } else {
      var rest := launches[..|launches| - 1];
      assert rest[..i] == launches[..i];
      FirstThrowEnds(loads, c, rest, i);
    }
  }

  /** What the launches do when they simply run. */
  function RunLaunches(effect: Effect, launches: seq<Launch>, m: Memory): Memory {
    if launches == [] then m
    else
      var l := launches[|launches| - 1];
      effect(l.f, l.args, RunLaunches(effect, launches[..|launches| - 1], m))
  }

  /** What a capture records of them: the cached function, with each launch's arguments. */
  function Recorded(h: FunctionHandle, launches: seq<Launch>): seq<GpuOp> {
    if launches == [] then []
    else Recorded(h, launches[..|launches| - 1]) + [Call(h, launches[|launches| - 1].args)]
  }

  ghost predicate SameFunction(launches: seq<Launch>, f: Function) {
    forall i :: 0 <= i < |launches| ==> launches[i].f == f
  }

  lemma {:induction false} RecordedRuns(effect: Effect, h: FunctionHandle, launches: seq<Launch>, m: Memory)
    requires SameFunction(launches, h.f)
    ensures PerformAll(effect, Recorded(h, launches), m) == RunLaunches(effect, launches, m)
  {
    if launches != [] {
      var rest := launches[..|launches| - 1];
      RecordedRuns(effect, h, rest, m);
      assert (Recorded(h, rest) + [Call(h, launches[|launches| - 1].args)])[..|Recorded(h, rest)|] == Recorded(h, rest);
    }
  }

  // ---- when a recording means the same as the launches ---------------------

  /** An effect that counts, at address 0, the calls of one function. */
  function Counting(f: Function): Effect {
    (g: Function, args: seq<Address>, m: Memory) => if g == f then m[0 := (if 0 in m then m[0] else 0) + 1] else m
  }

  function CountAt0(m: Memory): int { if 0 in m then m[0] else 0 }

  lemma {:induction false} RecordingDoesNotCount(f: Function, h: FunctionHandle, launches: seq<Launch>, m: Memory)
    requires h.f != f
    ensures PerformAll(Counting(f), Recorded(h, launches), m) == m
  {
    if launches != [] {
      var rest := launches[..|launches| - 1];
      RecordingDoesNotCount(f, h, rest, m);
      assert (Recorded(h, rest) + [Call(h, launches[|launches| - 1].args)])[..|Recorded(h, rest)|] == Recorded(h, rest);
    }
  }

  lemma {:induction false} RunningCounts(f: Function, launches: seq<Launch>, m: Memory)
    ensures CountAt0(RunLaunches(Counting(f), launches, m)) >= CountAt0(m)
    ensures (exists i :: 0 <= i < |launches| && launches[i].f == f)
              ==> CountAt0(RunLaunches(Counting(f), launches, m)) > CountAt0(m)
  {
    if launches != [] {
      var rest := launches[..|launches| - 1];
      RunningCounts(f, rest, m);
      if launches[|launches| - 1].f != f && exists i :: 0 <= i < |launches| && launches[i].f == f {
        var i :| 0 <= i < |launches| && launches[i].f == f;
        assert rest[i].f == f;
      }
    }
  }

  /** A recorded graph replays a kernel exactly when all launches of the kernel are of one function: the
      capture cache holds a single function, the last one the warm-up looked up. */
  lemma RecordingIsFaithfulIff(launches: seq<Launch>, m: Module)
    requires launches != []
    ensures var h := FunctionHandle(m, launches[|launches| - 1].f);
            (forall effect: Effect, mem :: PerformAll(effect, Recorded(h, launches), mem) == RunLaunches(effect, launches, mem))
            <==> SameFunction(launches, launches[|launches| - 1].f)
  {
    var h := FunctionHandle(m, launches[|launches| - 1].f);
    if SameFunction(launches, h.f) {
      forall effect: Effect, mem
        ensures PerformAll(effect, Recorded(h, launches), mem) == RunLaunches(effect, launches, mem) {
        RecordedRuns(effect, h, launches, mem);
      }
    } else {
      var i :| 0 <= i < |launches| && launches[i].f != h.f;
      var f := launches[i].f;
      RecordingDoesNotCount(f, h, launches, map[]);
      RunningCounts(f, launches, map[]);
      assert PerformAll(Counting(f), Recorded(h, launches), map[]) != RunLaunches(Counting(f), launches, map[]);
    }
  }
}
