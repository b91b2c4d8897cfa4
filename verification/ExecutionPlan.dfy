/** Pre-compiled plans: validation, warm-up, capture and replay. */
module ExecutionPlan {
  import opened CaptureRuntime
  import opened Options

  datatype Meta = Meta(dtype: nat, shape: seq<nat>, strides: seq<int>, deviceResident: bool, quantization: Option<(int, int)>)
  datatype Tensor = Tensor(data: Address, meta: Meta)

  /** Address 0 is the null pointer. */
  const NULL: Address := 0

  /** A compiled kernel; on a GPU it launches something. */
  datatype AnyKernel = Kernel(functions: seq<Function>, outputs: set<nat>, needsZeroing: bool)
  type Kernel = k: AnyKernel | k.functions != [] witness Kernel([Function(0, "")], {}, false)

  function Pointers(tensors: seq<Tensor>): seq<Address> {
    seq(|tensors|, i requires 0 <= i < |tensors| => tensors[i].data)
  }

  function LaunchesOn(k: Kernel, ptrs: seq<Address>): (r: seq<Launch>)
    ensures |r| == |k.functions| && forall i :: 0 <= i < |r| ==> r[i].f == k.functions[i]
  {
    seq(|k.functions|, i requires 0 <= i < |k.functions| => Launch(k.functions[i], ptrs))
  }

  /** Which of the outputs: all, or those on one side. */
  datatype Side = Any | OnHost | OnDevice

  predicate Selects(side: Side, t: Tensor) {
    side == Any || (side == OnDevice <==> t.meta.deviceResident)
  }

  /** The zeroing before a kernel, on the first n tensors. */
  function ZeroOps(k: Kernel, tensors: seq<Tensor>, n: nat, side: Side): seq<GpuOp>
    requires n <= |tensors|
  {
    if n == 0 then []
    else ZeroOps(k, tensors, n - 1, side)
         + if k.needsZeroing && n - 1 in k.outputs && tensors[n - 1].data != NULL && Selects(side, tensors[n - 1])
           then [Zero(tensors[n - 1].data)] else []
  }

  /** Memory with some addresses cleared. */
  ghost function Cleared(addresses: set<Address>, m: Memory): Memory {
    map a | a in m.Keys + addresses :: if a in addresses then 0 else m[a]
  }

  /** Tensor i is an output, and somewhere. */
  ghost predicate IsOutput(k: Kernel, tensors: seq<Tensor>, i: int) {
    0 <= i < |tensors| && i in k.outputs && tensors[i].data != NULL
  }

  ghost function OutputAddresses(k: Kernel, tensors: seq<Tensor>): set<Address> {
    set i | 0 <= i < |tensors| && IsOutput(k, tensors, i) :: tensors[i].data
  }

  /** A kernel's functions, one after another, on the same addresses. */
  ghost function RunFunctions(effect: Effect, functions: seq<Function>, args: seq<Address>, m: Memory): Memory {
    if functions == [] then m
    else effect(functions[|functions| - 1], args, RunFunctions(effect, functions[..|functions| - 1], args, m))
  }

  /** What one valid call must do to memory: with the outputs cleared, if the kernel accumulates, and all else as it was,
      run the kernel's functions on the tensors' addresses. */
  ghost function KernelEffect(effect: Effect, k: Kernel, tensors: seq<Tensor>, m: Memory): Memory {
    RunFunctions(effect, k.functions, seq(|tensors|, i requires 0 <= i < |tensors| => tensors[i].data),
                 if k.needsZeroing then Cleared(OutputAddresses(k, tensors), m) else m)
  }

  ghost predicate OneFunction(k: Kernel) {
    forall i, j :: 0 <= i < j < |k.functions| ==> k.functions[i] == k.functions[j]
  }

  predicate AllOnDevice(tensors: seq<Tensor>) {
    forall i :: 0 <= i < |tensors| ==> tensors[i].meta.deviceResident
  }

  /** Success, or why the call threw. */
  datatype Result = Success | TensorMismatch | PointerChanged | CaptureFailed | StagingRefused | LoadRefused

  datatype Graph = Graph(ops: seq<GpuOp>, ptrs: seq<Address>)

  /** A plan, but for the driver's handles. */
  datatype Plan = Plan(kernel: Kernel, frozen: seq<Meta>, graphMode: bool, captured: Option<Graph>)
  {
    predicate Validates(tensors: seq<Tensor>) {
      |tensors| == |frozen| && forall i :: 0 <= i < |tensors| ==> tensors[i].meta == frozen[i]
    }

    /** A captured graph holds the zeroing and the kernel on the captured addresses, all launches as calls of one of the
        kernel's functions, from a module that is loaded. */
    ghost predicate Valid(c: Control) {
      captured.Some? ==>
        (forall i :: 0 <= i < |frozen| ==> frozen[i].deviceResident)
        && exists h: FunctionHandle, ts: seq<Tensor> :: Baked(h, ts, c)
    }

    ghost predicate Baked(h: FunctionHandle, ts: seq<Tensor>, c: Control)
      requires captured.Some?
    {
      && |ts| == |frozen| && captured.value.ptrs == Pointers(ts)
      && h.m in c.loaded && h.f in kernel.functions
      && captured.value.ops == ZeroOps(kernel, ts, |ts|, Any) + Recorded(h, LaunchesOn(kernel, captured.value.ptrs))
    }
  }

  // ---- one call, as the states it goes through ----------------------------

  /** The runtime and the plan after a call, what the device and the host performed, and the result. */
  datatype Done = Done(c: Control, p: Plan, ops: seq<GpuOp>, result: Result)

  /** A kernel's host code. A host tensor needs a staging buffer for the first launch, and the runtime refuses to
      allocate one while the override is set. */
  function RunHostCode(loads: bool, c: Control, k: Kernel, tensors: seq<Tensor>): (Moved, Result) {
    if c.capturing && !AllOnDevice(tensors) then (Moved(c, [], false), StagingRefused)
    else
      var r := Invoked(loads, c, LaunchesOn(k, Pointers(tensors)));
      (r, if r.ok then Success else LoadRefused)
  }

  /** Outputs are zeroed at once, whether or not a capture is open: not on the stream the runtime hands out. */
  function RunAtOnce(loads: bool, c: Control, k: Kernel, tensors: seq<Tensor>): (Moved, Result) {
    var (r, why) := RunHostCode(loads, c, k, tensors);
    (Moved(r.c, ZeroOps(k, tensors, |tensors|, Any) + r.ops, r.ok), why)
  }

  function WarmedUp(c: Control): Control {
    c.(warmup := true, cachedModule := None, cachedFunction := None)
  }

  /** The capture opens, device outputs are zeroed on its stream and host outputs at once. */
  function Opened(c: Control, k: Kernel, tensors: seq<Tensor>): Control {
    c.(capturing := true, recording := ZeroOps(k, tensors, |tensors|, OnDevice))
  }

  /** A call of the plan on a thread whose runtime is in state c. What throws leaves flags and captures as they are. */
  function Called(loads: bool, c: Control, p: Plan, tensors: seq<Tensor>): Done {
    if !p.Validates(tensors) then Done(c, p, [], TensorMismatch)
    else if !p.graphMode then
      var (r, why) := RunAtOnce(loads, c, p.kernel, tensors);
      Done(r.c, p, r.ops, why)
    else if p.captured.Some? then
      if Pointers(tensors) != p.captured.value.ptrs then Done(c, p, [], PointerChanged)
      else Done(c, p, p.captured.value.ops, Success)
    else
      var (warm, why) := RunAtOnce(loads, WarmedUp(c), p.kernel, tensors);
      if !warm.ok then Done(warm.c, p, warm.ops, why)
      else
        var open := Opened(warm.c.(warmup := false), p.kernel, tensors);
        var ops := warm.ops + ZeroOps(p.kernel, tensors, |tensors|, OnHost);
        var (rec, _) := RunHostCode(loads, open, p.kernel, tensors);
        if !rec.ok then Done(rec.c, p, ops + rec.ops, CaptureFailed)
        else Done(rec.c.(capturing := false), p.(captured := Some(Graph(rec.c.recording, Pointers(tensors)))),
                  ops + rec.ops, Success)
  }

  // ---- the plan -----------------------------------------------------------

  class MatcorePlan {
    const rt: Runtime
    const kernel: Kernel
    const frozen: seq<Meta>
    const graphMode: bool
    var graphExec: seq<GpuOp>
    var graphCaptured: bool
    var capturedPtrs: seq<Address>

    ghost function State(): Plan
      reads this
    {
      Plan(kernel, frozen, graphMode, if graphCaptured then Some(Graph(graphExec, capturedPtrs)) else None)
    }

    /** The plan's own invariant; whether a capture is open on the thread is not its business. */
    ghost predicate Valid()
      reads this, rt
    {
      rt.State().Valid() && State().Valid(rt.State()) && (graphCaptured ==> |capturedPtrs| == |frozen|)
    }

    constructor (rt: Runtime, kernel: Kernel, templates: seq<Tensor>, graphMode: bool)
      requires rt.State().Valid()
      ensures Valid() && this.rt == rt
      ensures State() == Plan(kernel, seq(|templates|, i requires 0 <= i < |templates| => templates[i].meta), graphMode, None)
    {
      this.rt, this.kernel, this.graphMode := rt, kernel, graphMode;
      frozen := seq(|templates|, i requires 0 <= i < |templates| => templates[i].meta);
      graphExec, graphCaptured, capturedPtrs := [], false, [];
    }

    predicate ValidateTensors(tensors: seq<Tensor>) {
      |tensors| == |frozen| && forall i :: 0 <= i < |tensors| ==> tensors[i].meta == frozen[i]
    }

    /** zeroOutputs: every output is zeroed at once. */
    method ZeroOutputs(tensors: seq<Tensor>)
      requires kernel.needsZeroing
      modifies rt`memory
      ensures rt.memory == PerformAll(rt.effect, ZeroOps(kernel, tensors, |tensors|, Any), old(rt.memory))
      ensures forall i :: IsOutput(kernel, tensors, i) ==> ZeroAt(tensors[i].data, rt.memory)
      ensures forall a :: (forall i :: IsOutput(kernel, tensors, i) ==> tensors[i].data != a)
                          ==> SameAt(a, old(rt.memory), rt.memory)
    {
      hide Perform, PerformAll;
      NothingZeroed(rt.effect, kernel, tensors, Any, rt.memory);
      ZeroOpsClear(rt.effect, kernel, tensors, |tensors|, Any, rt.memory);
      hide ZeroOps;
      for i := 0 to |tensors|
        invariant rt.memory == PerformAll(rt.effect, ZeroOps(kernel, tensors, i, Any), old(rt.memory))
      {
        ZeroStep(rt.effect, kernel, tensors, i, Any, old(rt.memory));
        if i in kernel.outputs && tensors[i].data != NULL {
          rt.memory := Perform(rt.effect, Zero(tensors[i].data), rt.memory);
        }
      }
    }

    /** zeroOutputsOnStream, on the stream that captures: device outputs are recorded, host outputs cleared at once. */
    method ZeroOutputsOnStream(tensors: seq<Tensor>)
      requires kernel.needsZeroing && rt.capturing
      modifies rt`memory, rt`recording
      ensures rt.memory == PerformAll(rt.effect, ZeroOps(kernel, tensors, |tensors|, OnHost), old(rt.memory))
      ensures rt.recording == old(rt.recording) + ZeroOps(kernel, tensors, |tensors|, OnDevice)
      ensures forall i :: IsOutput(kernel, tensors, i) && !tensors[i].meta.deviceResident ==>
                ZeroAt(tensors[i].data, rt.memory)
      ensures forall a :: (forall i :: IsOutput(kernel, tensors, i) && !tensors[i].meta.deviceResident ==> tensors[i].data != a)
                          ==> SameAt(a, old(rt.memory), rt.memory)
      ensures forall op :: op in rt.recording[|old(rt.recording)|..] <==>
                exists i :: IsOutput(kernel, tensors, i) && tensors[i].meta.deviceResident && op == Zero(tensors[i].data)
    {
      hide Perform, PerformAll;
      ZeroOpsClear(rt.effect, kernel, tensors, |tensors|, OnHost, rt.memory);
      ZeroOpsAre(kernel, tensors, |tensors|, OnDevice);
      NothingZeroed(rt.effect, kernel, tensors, OnHost, rt.memory);
      NothingZeroed(rt.effect, kernel, tensors, OnDevice, rt.memory);
      hide ZeroOps;
      for i := 0 to |tensors|
        invariant rt.memory == PerformAll(rt.effect, ZeroOps(kernel, tensors, i, OnHost), old(rt.memory))
        invariant rt.recording == old(rt.recording) + ZeroOps(kernel, tensors, i, OnDevice)
      {
        var op := Zero(tensors[i].data);
        ZeroStep(rt.effect, kernel, tensors, i, OnHost, old(rt.memory));
        ZeroStep(rt.effect, kernel, tensors, i, OnDevice, old(rt.memory));
        if i in kernel.outputs && tensors[i].data != NULL {
          if tensors[i].meta.deviceResident {
            rt.recording := rt.recording + [op];
          } else {
            rt.memory := Perform(rt.effect, op, rt.memory);
          }
        }
      }
    }

    /** invokeCompiledKernel, up to what throws. */
    method InvokeHostCode(tensors: seq<Tensor>) returns (why: Result)
      requires rt.State().Valid()
      modifies rt
      ensures var (r, w) := RunHostCode(rt.loadsWhileCapturing, old(rt.State()), kernel, tensors);
              rt.State() == r.c && why == w && (why == Success <==> r.ok)
              && rt.memory == PerformAll(rt.effect, r.ops, old(rt.memory))
      ensures rt.State().Valid()
    {
      if rt.capturing && !AllOnDevice(tensors) {
        NothingPerformed(rt.effect, rt.memory);
        return StagingRefused;
      }
      var ok := rt.InvokeCompiledKernel(LaunchesOn(kernel, Pointers(tensors)));
      why := if ok then Success else LoadRefused;
    }

    /** Zeroing at once, then the kernel. */
    method RunKernel(tensors: seq<Tensor>) returns (why: Result)
      requires rt.State().Valid()
      modifies rt
      ensures var (r, w) := RunAtOnce(rt.loadsWhileCapturing, old(rt.State()), kernel, tensors);
              rt.State() == r.c && why == w && (why == Success <==> r.ok)
              && rt.memory == PerformAll(rt.effect, r.ops, old(rt.memory))
      ensures rt.State().Valid()
    {
      hide PerformAll, RunHostCode;
      if kernel.needsZeroing {
        ZeroOutputs(tensors);
      } else {
        NoZeroing(kernel, tensors, |tensors|, Any);
        NothingPerformed(rt.effect, rt.memory);
      }
      ghost var (r, _) := RunHostCode(rt.loadsWhileCapturing, rt.State(), kernel, tensors);
      PerformConcat(rt.effect, ZeroOps(kernel, tensors, |tensors|, Any), r.ops, old(rt.memory));
      why := InvokeHostCode(tensors);
    }

    /** Records the zeroing and the kernel on the graph stream. If the kernel throws, the capture stays open and the
        override set: the handler that would close it is for errors that are returned. */
    method Capture(tensors: seq<Tensor>) returns (graph: Option<seq<GpuOp>>)
      requires rt.State().Valid()
      modifies rt
      ensures var open := Opened(old(rt.State()), kernel, tensors);
              var (r, _) := RunHostCode(rt.loadsWhileCapturing, open, kernel, tensors);
              && rt.State() == (if r.ok then r.c.(capturing := false) else r.c)
              && graph == (if r.ok then Some(r.c.recording) else None)
              && rt.memory == PerformAll(rt.effect, ZeroOps(kernel, tensors, |tensors|, OnHost) + r.ops, old(rt.memory))
      ensures rt.State().Valid()
    {
      hide PerformAll, RunHostCode;
      rt.BeginCapture();
      if kernel.needsZeroing {
        ZeroOutputsOnStream(tensors);
      } else {
        NoZeroing(kernel, tensors, |tensors|, OnHost);
        NoZeroing(kernel, tensors, |tensors|, OnDevice);
        NothingPerformed(rt.effect, rt.memory);
      }
      assert [] + ZeroOps(kernel, tensors, |tensors|, OnDevice) == ZeroOps(kernel, tensors, |tensors|, OnDevice);
      assert rt.State() == Opened(old(rt.State()), kernel, tensors);
      ghost var (r, _) := RunHostCode(rt.loadsWhileCapturing, rt.State(), kernel, tensors);
      PerformConcat(rt.effect, ZeroOps(kernel, tensors, |tensors|, OnHost), r.ops, old(rt.memory));
      var why := InvokeHostCode(tensors);
      if why != Success {
        return None;
      }
      var recorded := rt.EndCapture();
      graph := Some(recorded);
    }

    /** One call of the plan. On a thread without an open capture, a successful call has the kernel's effect exactly
        once, by running, warming up or replaying; what throws part-way leaves what has been done. */
    method Execute(tensors: seq<Tensor>) returns (r: Result)
      requires Valid()
      modifies this, rt
      ensures Valid()
      ensures var d := Called(rt.loadsWhileCapturing, old(rt.State()), old(State()), tensors);
              && rt.State() == d.c && State() == d.p && r == d.result
              && rt.memory == PerformAll(rt.effect, d.ops, old(rt.memory))
      ensures r == TensorMismatch || r == PointerChanged ==>
                rt.memory == old(rt.memory) && rt.State() == old(rt.State()) && State() == old(State())
      ensures r == Success && (if graphMode && old(graphCaptured) then OneFunction(kernel) else !old(rt.capturing)) ==>
                rt.memory == KernelEffect(rt.effect, kernel, tensors, old(rt.memory))
      ensures r == CaptureFailed ==> rt.capturing && !graphCaptured
      ensures r == TensorMismatch <==> |tensors| != |frozen| || exists i :: 0 <= i < |frozen| && tensors[i].meta != frozen[i]
      ensures r == PointerChanged <==> r != TensorMismatch && graphMode && old(graphCaptured)
                                       && exists i :: 0 <= i < |tensors| && tensors[i].data != old(capturedPtrs)[i]
      ensures r == CaptureFailed || r == Success || r == TensorMismatch || r == PointerChanged || old(rt.capturing)
      ensures !old(rt.capturing) ==>
                (r == CaptureFailed <==> r != TensorMismatch && graphMode && !old(graphCaptured)
                                         && exists i :: 0 <= i < |tensors| && !tensors[i].meta.deviceResident)
      ensures old(rt.loaded) <= rt.loaded
    {
      hide PerformAll, RunAtOnce, RunHostCode, Opened, Control.Valid;
      ghost var c0, p0, loads := rt.State(), State(), rt.loadsWhileCapturing;
      ghost var d := Called(loads, c0, p0, tensors);
      CalledKeepsValid(loads, c0, p0, tensors);
      ResultSays(loads, c0, p0, tensors);
      NothingPerformed(rt.effect, rt.memory);
      assert p0.Validates(tensors) <==> ValidateTensors(tensors);
      if d.result == Success && (if graphMode && graphCaptured then OneFunction(kernel) else !rt.capturing) {
        RightWhenNothingOpen(rt.effect, loads, c0, p0, tensors, rt.memory);
      }
      if !ValidateTensors(tensors) {
        return TensorMismatch;
      }
      if graphMode && graphCaptured {
        for i := 0 to |tensors|
          invariant forall j :: 0 <= j < i ==> tensors[j].data == capturedPtrs[j]
        {
          if tensors[i].data != capturedPtrs[i] {
            assert Pointers(tensors)[i] != capturedPtrs[i];
            return PointerChanged;
          }
        }
        assert Pointers(tensors) == capturedPtrs;
        rt.GraphLaunch(graphExec);
        return Success;
      }
      if graphMode {
        r := WarmUpAndCapture(tensors);
        return;
      }
      r := RunKernel(tensors);
    }

    /** The first call of a plan in graph mode. */
    method WarmUpAndCapture(tensors: seq<Tensor>) returns (r: Result)
      requires rt.State().Valid() && ValidateTensors(tensors) && graphMode && !graphCaptured
      modifies this, rt
      ensures var d := Called(rt.loadsWhileCapturing, old(rt.State()), old(State()), tensors);
              && rt.State() == d.c && State() == d.p && r == d.result
              && rt.memory == PerformAll(rt.effect, d.ops, old(rt.memory))
    {
      hide PerformAll, RunAtOnce, RunHostCode, Opened, Control.Valid;
      ghost var c0, loads := rt.State(), rt.loadsWhileCapturing;
      assert State().Validates(tensors) && State().captured == None;
      rt.SetGraphWarmup(true);
      WarmUpIsValid(c0);
      RunAtOnceKeeps(loads, WarmedUp(c0), kernel, tensors);
      r := RunKernel(tensors);
      if r != Success {
        return;
      }
      ghost var warm := RunAtOnce(loads, WarmedUp(c0), kernel, tensors).0;
      rt.SetGraphWarmup(false);
      FlagsKeepValid(warm.c);
      assert rt.State() == warm.c.(warmup := false);
      ghost var rec := RunHostCode(loads, Opened(warm.c.(warmup := false), kernel, tensors), kernel, tensors).0;
      var graph := Capture(tensors);
      MoreOps(rt.effect, warm.ops, ZeroOps(kernel, tensors, |tensors|, OnHost), rec.ops, old(rt.memory));
      if graph.None? {
        return CaptureFailed;
      }
      graphExec, graphCaptured, capturedPtrs := graph.value, true, Pointers(tensors);
      return Success;
    }
  }

  lemma ResultSays(loads: bool, c: Control, p: Plan, tensors: seq<Tensor>)
    requires c.Valid()
    ensures var d := Called(loads, c, p, tensors);
            && (d.result == TensorMismatch || d.result == PointerChanged ==> d.c == c && d.p == p && d.ops == [])
            && (d.result == CaptureFailed ==> d.c.capturing && d.p.captured.None? && !AllOnDevice(tensors))
            && (d.result == TensorMismatch <==> !p.Validates(tensors))
            && (d.result == PointerChanged <==>
                  p.Validates(tensors) && p.graphMode && p.captured.Some? && Pointers(tensors) != p.captured.value.ptrs)
            && (!c.capturing ==> d.result != StagingRefused && d.result != LoadRefused)
            && (!c.capturing ==> (d.result == CaptureFailed <==>
                                    p.Validates(tensors) && p.graphMode && p.captured.None? && !AllOnDevice(tensors)))
  {
    hide RunAtOnce, RunHostCode, Opened, Control.Valid;
    if p.Validates(tensors) && p.graphMode && p.captured.None? {
      WarmUpIsValid(c);
      RunAtOnceKeeps(loads, WarmedUp(c), p.kernel, tensors);
      var warm := RunAtOnce(loads, WarmedUp(c), p.kernel, tensors).0;
      if warm.ok {
        var done := warm.c.(warmup := false);
        FlagsKeepValid(warm.c);
        OpenedKeeps(done, p.kernel, tensors);
        CachesAfterWarmUp(loads, c, p.kernel, tensors);
        OpenedCache(done, p.kernel, tensors);
        HostCodeKeeps(loads, Opened(done, p.kernel, tensors), p.kernel, tensors);
      }
    } else {
      RunAtOnceKeeps(loads, c, p.kernel, tensors);
    }
  }

  lemma MoreOps(effect: Effect, a: seq<GpuOp>, b: seq<GpuOp>, c: seq<GpuOp>, m: Memory)
    ensures PerformAll(effect, b + c, PerformAll(effect, a, m)) == PerformAll(effect, a + b + c, m)
  {
    PerformConcat(effect, a, b + c, m);
    assert a + b + c == a + (b + c);
  }

  lemma WarmUpIsValid(c: Control)
    requires c.Valid()
    ensures WarmedUp(c).Valid()
  {
  }

  lemma FlagsKeepValid(c: Control)
    requires c.Valid()
    ensures forall w :: c.(warmup := w).Valid()
    ensures forall w, r :: c.(capturing := w, recording := r).Valid()
    ensures forall w :: c.(capturing := w).Valid()
  {
  }

  // ---- what calls keep and do ---------------------------------------------

  lemma HostCodeKeeps(loads: bool, c: Control, k: Kernel, tensors: seq<Tensor>)
    requires c.Valid()
    ensures var (r, why) := RunHostCode(loads, c, k, tensors);
            && r.c.Valid() && c.loaded <= r.c.loaded && r.c.capturing == c.capturing && r.c.warmup == c.warmup
            && (why == Success <==> r.ok) && (!c.capturing ==> r.ok) && (c.capturing ==> r.ops == [])
            && (c.capturing ==> (r.ok <==> AllOnDevice(tensors) && (c.cachedFunction.Some? || loads)))
  {
    if !(c.capturing && !AllOnDevice(tensors)) {
      var launches := LaunchesOn(k, Pointers(tensors));
      if c.capturing {
        InvokedRecords(loads, c, launches);
      } else {
        InvokedRuns(Counting(launches[0].f), loads, c, launches, map[]);
      }
    }
  }

  /** The warm-up leaves one of the kernel's functions in the cache, from a module that stays loaded. */
  lemma WarmUpCaches(loads: bool, c: Control, k: Kernel, tensors: seq<Tensor>)
    requires c.Valid()
    ensures var (r, _) := RunHostCode(loads, WarmedUp(c), k, tensors);
            r.ok ==> r.c.cachedFunction.Some? && r.c.cachedFunction.value.f in k.functions
                     && r.c.cachedFunction.value.m in r.c.loaded
  {
    var w, launches := WarmedUp(c), LaunchesOn(k, Pointers(tensors));
    var r := RunHostCode(loads, w, k, tensors).0;
    if r.ok {
      if c.capturing {
        InvokedRecords(loads, w, launches);
        assert k.functions[0] in k.functions;
      } else {
        InvokedRuns(Counting(launches[0].f), loads, w, launches, map[]);
        assert k.functions[|k.functions| - 1] in k.functions;
      }
    }
  }

  /** What the second half of a first graph-mode call records, after a warm-up that cached a function. */
  lemma CaptureRecords(loads: bool, c: Control, k: Kernel, tensors: seq<Tensor>)
    requires c.Valid() && c.cachedFunction.Some? && AllOnDevice(tensors)
    ensures var r := RunHostCode(loads, Opened(c, k, tensors), k, tensors).0;
            && r.ok && r.ops == [] && r.c.Valid() && r.c.loaded == c.loaded && r.c.capturing
            && r.c == Opened(c, k, tensors).(recording := r.c.recording)
            && r.c.recording == ZeroOps(k, tensors, |tensors|, Any)
                                + Recorded(c.cachedFunction.value, LaunchesOn(k, Pointers(tensors)))
  {
    var open := Opened(c, k, tensors);
    InvokedRecords(loads, open, LaunchesOn(k, Pointers(tensors)));
    ZeroOpsOnDevice(k, tensors, |tensors|);
  }

  predicate Zeroes(k: Kernel, tensors: seq<Tensor>, i: nat, side: Side)
    requires i < |tensors|
  {
    k.needsZeroing && i in k.outputs && tensors[i].data != NULL && Selects(side, tensors[i])
  }

  lemma ZeroStep(effect: Effect, k: Kernel, tensors: seq<Tensor>, i: nat, side: Side, m: Memory)
    requires i < |tensors|
    ensures var ops, op := ZeroOps(k, tensors, i, side), Zero(tensors[i].data);
            if Zeroes(k, tensors, i, side)
            then ZeroOps(k, tensors, i + 1, side) == ops + [op]
                 && PerformAll(effect, ops + [op], m) == Perform(effect, op, PerformAll(effect, ops, m))
            else ZeroOps(k, tensors, i + 1, side) == ops
  {
    PerformLast(effect, ZeroOps(k, tensors, i, side), Zero(tensors[i].data), m);
  }

  /** An address holds the same, or is unmapped as before. */
  ghost predicate SameAt(a: Address, m: Memory, m': Memory) {
    (a in m <==> a in m') && (a in m ==> m[a] == m'[a])
  }

  ghost predicate ZeroAt(a: Address, m: Memory) {
    a in m && m[a] == 0
  }

  ghost function ZeroedAddresses(k: Kernel, tensors: seq<Tensor>, n: nat, side: Side): set<Address>
    requires n <= |tensors|
  {
    set i | 0 <= i < n && Zeroes(k, tensors, i, side) :: tensors[i].data
  }

  lemma ClearOneMore(addresses: set<Address>, a: Address, m: Memory)
    ensures Cleared(addresses, m)[a := 0] == Cleared(addresses + {a}, m)
    ensures Cleared({}, m) == m
  {
  }

  /** Performing the zeroing clears the outputs and nothing else. */
  lemma {:induction false} ZeroOpsClear(effect: Effect, k: Kernel, tensors: seq<Tensor>, n: nat, side: Side, m: Memory)
    requires n <= |tensors|
    ensures PerformAll(effect, ZeroOps(k, tensors, n, side), m) == Cleared(ZeroedAddresses(k, tensors, n, side), m)
  {
    hide Cleared, PerformAll, ZeroOps, Zeroes;
    if n > 0 {
      ZeroOpsClear(effect, k, tensors, n - 1, side, m);
      ZeroStep(effect, k, tensors, n - 1, side, m);
      var before, after := ZeroedAddresses(k, tensors, n - 1, side), ZeroedAddresses(k, tensors, n, side);
      ClearOneMore(before, tensors[n - 1].data, m);
      assert after == before + if Zeroes(k, tensors, n - 1, side) then {tensors[n - 1].data} else {};
      assert before + {} == before;
    } else {
      NothingZeroed(effect, k, tensors, side, m);
      ClearOneMore({}, 0, m);
      assert ZeroedAddresses(k, tensors, 0, side) == {};
    }
  }

  /** The zeroing is one operation for every output that is not null. */
  lemma {:induction false} ZeroOpsAre(k: Kernel, tensors: seq<Tensor>, n: nat, side: Side)
    requires n <= |tensors|
    ensures forall i :: 0 <= i < n && Zeroes(k, tensors, i, side) ==> Zero(tensors[i].data) in ZeroOps(k, tensors, n, side)
    ensures forall op :: op in ZeroOps(k, tensors, n, side) ==>
              exists i :: 0 <= i < n && Zeroes(k, tensors, i, side) && op == Zero(tensors[i].data)
  {
    if n > 0 {
      ZeroOpsAre(k, tensors, n - 1, side);
    }
  }

  lemma {:induction false} FunctionsAreLaunches(effect: Effect, launches: seq<Launch>, functions: seq<Function>,
                                                args: seq<Address>, m: Memory)
    requires |launches| == |functions|
    requires forall i :: 0 <= i < |launches| ==> launches[i] == Launch(functions[i], args)
    ensures RunLaunches(effect, launches, m) == RunFunctions(effect, functions, args, m)
  {
    if launches != [] {
      FunctionsAreLaunches(effect, launches[..|launches| - 1], functions[..|functions| - 1], args, m);
    }
  }

  /** The kernel's effect, as the operations that have it. */
  lemma KernelEffectIs(effect: Effect, k: Kernel, tensors: seq<Tensor>, m: Memory)
    ensures KernelEffect(effect, k, tensors, m)
         == RunLaunches(effect, LaunchesOn(k, Pointers(tensors)),
                        PerformAll(effect, ZeroOps(k, tensors, |tensors|, Any), m))
  {
    hide PerformAll, ZeroOps, RunLaunches, RunFunctions;
    ZeroOpsClear(effect, k, tensors, |tensors|, Any, m);
    var zeroed := ZeroedAddresses(k, tensors, |tensors|, Any);
    if k.needsZeroing {
      assert zeroed == OutputAddresses(k, tensors);
    } else {
      assert zeroed == {} && Cleared({}, m) == m;
    }
    var args := seq(|tensors|, i requires 0 <= i < |tensors| => tensors[i].data);
    assert args == Pointers(tensors);
    FunctionsAreLaunches(effect, LaunchesOn(k, args), k.functions, args, if k.needsZeroing then Cleared(zeroed, m) else m);
  }

  lemma NothingZeroed(effect: Effect, k: Kernel, tensors: seq<Tensor>, side: Side, m: Memory)
    ensures ZeroOps(k, tensors, 0, side) == [] && PerformAll(effect, [], m) == m
  {
  }

  lemma {:induction false} NoZeroing(k: Kernel, tensors: seq<Tensor>, n: nat, side: Side)
    requires !k.needsZeroing && n <= |tensors|
    ensures ZeroOps(k, tensors, n, side) == []
  {
    if n > 0 {
      NoZeroing(k, tensors, n - 1, side);
    }
  }

  lemma {:induction false} ZeroOpsOnDevice(k: Kernel, tensors: seq<Tensor>, n: nat)
    requires AllOnDevice(tensors) && n <= |tensors|
    ensures ZeroOps(k, tensors, n, OnHost) == [] && ZeroOps(k, tensors, n, OnDevice) == ZeroOps(k, tensors, n, Any)
  {
    if n > 0 {
      ZeroOpsOnDevice(k, tensors, n - 1);
    }
  }

  /** Zeroing depends on the tensors' addresses only. */
  lemma {:induction false} ZeroOpsByAddress(k: Kernel, a: seq<Tensor>, b: seq<Tensor>, n: nat)
    requires Pointers(a) == Pointers(b) && n <= |a| && n <= |b|
    ensures ZeroOps(k, a, n, Any) == ZeroOps(k, b, n, Any)
  {
    if n > 0 {
      ZeroOpsByAddress(k, a, b, n - 1);
      assert Pointers(a)[n - 1] == Pointers(b)[n - 1];
    }
  }

  // ---- when a call has its kernel's effect --------------------------------

  lemma ReplayIsKernel(effect: Effect, c: Control, p: Plan, tensors: seq<Tensor>, m: Memory)
    requires p.Valid(c) && p.captured.Some? && Pointers(tensors) == p.captured.value.ptrs && OneFunction(p.kernel)
    ensures PerformAll(effect, p.captured.value.ops, m) == KernelEffect(effect, p.kernel, tensors, m)
  {
    var k := p.kernel;
    KernelEffectIs(effect, k, tensors, m);
    var h: FunctionHandle, ts: seq<Tensor> :| p.Baked(h, ts, c);
    assert |tensors| == |Pointers(tensors)| == |ts|;
    ZeroOpsByAddress(k, ts, tensors, |ts|);
    var launches := LaunchesOn(k, p.captured.value.ptrs);
    var zeroed := PerformAll(effect, ZeroOps(k, ts, |ts|, Any), m);
    PerformConcat(effect, ZeroOps(k, ts, |ts|, Any), Recorded(h, launches), m);
    var j :| 0 <= j < |k.functions| && k.functions[j] == h.f;
    forall i | 0 <= i < |launches| ensures launches[i].f == h.f {
      assert i != j ==> k.functions[i] == k.functions[j];
    }
    RecordedRuns(effect, h, launches, zeroed);
  }

  predicate Replays(p: Plan) { p.graphMode && p.captured.Some? }

  /** A capture that an earlier call left open. For a replay it does not matter, but the graph holds one function. */
  ghost predicate HasEffect(c: Control, p: Plan) {
    if Replays(p) then OneFunction(p.kernel) else !c.capturing
  }

  lemma RunAtOnceRuns(effect: Effect, loads: bool, c: Control, k: Kernel, tensors: seq<Tensor>, m: Memory)
    requires c.Valid() && !c.capturing
    ensures PerformAll(effect, RunAtOnce(loads, c, k, tensors).0.ops, m) == KernelEffect(effect, k, tensors, m)
  {
    KernelEffectIs(effect, k, tensors, m);
    var zero := ZeroOps(k, tensors, |tensors|, Any);
    var launches := LaunchesOn(k, Pointers(tensors));
    PerformConcat(effect, zero, Invoked(loads, c, launches).ops, m);
    InvokedRuns(effect, loads, c, launches, PerformAll(effect, zero, m));
  }

  /** What a first successful graph-mode call performs is its warm-up. */
  lemma FirstGraphCall(loads: bool, c: Control, p: Plan, tensors: seq<Tensor>)
    requires c.Valid() && p.graphMode && p.captured.None? && Called(loads, c, p, tensors).result == Success
    ensures AllOnDevice(tensors)
    ensures Called(loads, c, p, tensors).ops == RunAtOnce(loads, WarmedUp(c), p.kernel, tensors).0.ops
  {
    hide RunAtOnce, RunHostCode, Opened, Control.Valid;
    var warm := RunAtOnce(loads, WarmedUp(c), p.kernel, tensors).0;
    WarmUpIsValid(c);
    RunAtOnceKeeps(loads, WarmedUp(c), p.kernel, tensors);
    var done := warm.c.(warmup := false);
    FlagsKeepValid(warm.c);
    OpenedKeeps(done, p.kernel, tensors);
    HostCodeKeeps(loads, Opened(done, p.kernel, tensors), p.kernel, tensors);
    ZeroOpsOnDevice(p.kernel, tensors, |tensors|);
  }

  lemma RunAtOnceKeeps(loads: bool, c: Control, k: Kernel, tensors: seq<Tensor>)
    requires c.Valid()
    ensures var (r, why) := RunAtOnce(loads, c, k, tensors);
            && r.c.Valid() && c.loaded <= r.c.loaded && r.c.capturing == c.capturing && r.c.warmup == c.warmup
            && (why == Success <==> r.ok) && (!r.ok ==> why == StagingRefused || why == LoadRefused)
            && (!c.capturing ==> r.ok)
            && (c.capturing ==> r.ops == ZeroOps(k, tensors, |tensors|, Any))
            && (c.capturing ==> (r.ok <==> AllOnDevice(tensors) && (c.cachedFunction.Some? || loads)))
  {
    HostCodeKeeps(loads, c, k, tensors);
  }

  lemma RightWhenNothingOpen(effect: Effect, loads: bool, c: Control, p: Plan, tensors: seq<Tensor>, m: Memory)
    requires c.Valid() && p.Valid(c) && Called(loads, c, p, tensors).result == Success && HasEffect(c, p)
    ensures PerformAll(effect, Called(loads, c, p, tensors).ops, m) == KernelEffect(effect, p.kernel, tensors, m)
  {
    hide RunAtOnce, RunHostCode, Opened, PerformAll, KernelEffect;
    if Replays(p) {
      ReplayIsKernel(effect, c, p, tensors, m);
    } else if p.graphMode {
      FirstGraphCall(loads, c, p, tensors);
      WarmUpIsValid(c);
      RunAtOnceRuns(effect, loads, WarmedUp(c), p.kernel, tensors, m);
    } else {
      RunAtOnceRuns(effect, loads, c, p.kernel, tensors, m);
    }
  }

  /** Zeroing never touches the address the counting effect counts at: it is the null pointer. */
  lemma {:induction false} ZeroingKeepsCount(effect: Effect, k: Kernel, tensors: seq<Tensor>, n: nat, side: Side, m: Memory)
    requires n <= |tensors|
    ensures CountAt0(PerformAll(effect, ZeroOps(k, tensors, n, side), m)) == CountAt0(m)
  {
    if n > 0 {
      ZeroingKeepsCount(effect, k, tensors, n - 1, side, m);
      ZeroStep(effect, k, tensors, n - 1, side, m);
    }
  }

  lemma KernelCounts(f: Function, k: Kernel, tensors: seq<Tensor>, m: Memory)
    requires f in k.functions
    ensures CountAt0(KernelEffect(Counting(f), k, tensors, m)) > CountAt0(m)
  {
    hide PerformAll, RunLaunches;
    var launches := LaunchesOn(k, Pointers(tensors));
    var i :| 0 <= i < |k.functions| && k.functions[i] == f;
    assert launches[i].f == f;
    KernelEffectIs(Counting(f), k, tensors, m);
    ZeroingKeepsCount(Counting(f), k, tensors, |tensors|, Any, m);
    RunningCounts(f, launches, PerformAll(Counting(f), ZeroOps(k, tensors, |tensors|, Any), m));
  }

  /** A replay of several functions misses all but one of them. */
  lemma ReplayMisses(c: Control, p: Plan, tensors: seq<Tensor>) returns (f: Function)
    requires p.Valid(c) && p.captured.Some? && !OneFunction(p.kernel)
    ensures f in p.kernel.functions
    ensures forall m :: CountAt0(PerformAll(Counting(f), p.captured.value.ops, m)) == CountAt0(m)
  {
    var k := p.kernel;
    var h: FunctionHandle, ts: seq<Tensor> :| p.Baked(h, ts, c);
    var i, j :| 0 <= i < j < |k.functions| && k.functions[i] != k.functions[j];
    f := if k.functions[i] != h.f then k.functions[i] else k.functions[j];
    var zero, launches := ZeroOps(k, ts, |ts|, Any), LaunchesOn(k, p.captured.value.ptrs);
    forall m ensures CountAt0(PerformAll(Counting(f), zero + Recorded(h, launches), m)) == CountAt0(m) {
      PerformConcat(Counting(f), zero, Recorded(h, launches), m);
      ZeroingKeepsCount(Counting(f), k, ts, |ts|, Any, m);
      RecordingDoesNotCount(f, h, launches, PerformAll(Counting(f), zero, m));
    }
  }

  /** Under an open capture only the zeroing is performed. */
  lemma OnlyZeroes(loads: bool, c: Control, p: Plan, tensors: seq<Tensor>)
    requires c.Valid() && c.capturing && !Replays(p) && Called(loads, c, p, tensors).result == Success
    ensures Called(loads, c, p, tensors).ops == ZeroOps(p.kernel, tensors, |tensors|, Any)
  {
    if p.graphMode {
      FirstGraphCall(loads, c, p, tensors);
      WarmUpIsValid(c);
      RunAtOnceKeeps(loads, WarmedUp(c), p.kernel, tensors);
    } else {
      RunAtOnceKeeps(loads, c, p.kernel, tensors);
    }
  }

  /** Otherwise some function's calls are missed, in whatever memory the call starts. */
  lemma MissesOtherwise(loads: bool, c: Control, p: Plan, tensors: seq<Tensor>) returns (f: Function)
    requires c.Valid() && p.Valid(c) && Called(loads, c, p, tensors).result == Success && !HasEffect(c, p)
    ensures forall m :: PerformAll(Counting(f), Called(loads, c, p, tensors).ops, m)
                        != KernelEffect(Counting(f), p.kernel, tensors, m)
  {
    hide RunAtOnce, RunHostCode, Opened, PerformAll, KernelEffect;
    var d := Called(loads, c, p, tensors);
    if Replays(p) {
      f := ReplayMisses(c, p, tensors);
    } else {
      f := p.kernel.functions[0];
      OnlyZeroes(loads, c, p, tensors);
      forall m ensures CountAt0(PerformAll(Counting(f), d.ops, m)) == CountAt0(m) {
        ZeroingKeepsCount(Counting(f), p.kernel, tensors, |tensors|, Any, m);
      }
    }
    forall m ensures PerformAll(Counting(f), d.ops, m) != KernelEffect(Counting(f), p.kernel, tensors, m) {
      KernelCounts(f, p.kernel, tensors, m);
    }
  }

  /** A call that succeeds has its kernel's effect, whatever the functions do and whatever is in memory, exactly when no
      capture is open on the thread, or, for a replay, when the kernel launches one function only. */
  lemma CallHasEffectIff(loads: bool, c: Control, p: Plan, tensors: seq<Tensor>)
    requires c.Valid() && p.Valid(c) && Called(loads, c, p, tensors).result == Success
    ensures (forall effect: Effect, m :: PerformAll(effect, Called(loads, c, p, tensors).ops, m)
                                         == KernelEffect(effect, p.kernel, tensors, m))
       <==> HasEffect(c, p)
  {
    var d := Called(loads, c, p, tensors);
    if HasEffect(c, p) {
      forall effect: Effect, m ensures PerformAll(effect, d.ops, m) == KernelEffect(effect, p.kernel, tensors, m) {
        RightWhenNothingOpen(effect, loads, c, p, tensors, m);
      }
    } else {
      var f := MissesOtherwise(loads, c, p, tensors);
      assert PerformAll(Counting(f), d.ops, map[]) != KernelEffect(Counting(f), p.kernel, tensors, map[]);
    }
  }

  /** Under an open capture a call on host tensors, a retry for instance, throws once it has zeroed the outputs. */
  lemma OpenCaptureRefusesHostTensors(loads: bool, c: Control, p: Plan, tensors: seq<Tensor>)
    requires c.Valid() && c.capturing && !Replays(p) && p.Validates(tensors) && !AllOnDevice(tensors)
    ensures var d := Called(loads, c, p, tensors);
            && d.result == StagingRefused && d.c.capturing && d.p == p
            && d.ops == ZeroOps(p.kernel, tensors, |tensors|, Any)
  {
    RunAtOnceKeeps(loads, if p.graphMode then WarmedUp(c) else c, p.kernel, tensors);
  }

  // ---- what a call leaves behind ------------------------------------------

  lemma StaysValid(p: Plan, c: Control, c': Control)
    requires p.Valid(c) && c.loaded <= c'.loaded
    ensures p.Valid(c')
  {
    if p.captured.Some? {
      var h: FunctionHandle, ts: seq<Tensor> :| p.Baked(h, ts, c);
      assert p.Baked(h, ts, c');
    }
  }

  /** No call unloads a module, so every captured graph's stays. */
  lemma CalledKeepsValid(loads: bool, c: Control, p: Plan, tensors: seq<Tensor>)
    requires c.Valid() && p.Valid(c)
    ensures var d := Called(loads, c, p, tensors);
            && d.c.Valid() && d.p.Valid(d.c) && c.loaded <= d.c.loaded
            && d.p == p.(captured := d.p.captured)
            && (d.p.captured.Some? ==> |d.p.captured.value.ptrs| == |p.frozen|)
  {
    hide RunAtOnce, RunHostCode, Opened, Control.Valid;
    var d := Called(loads, c, p, tensors);
    if p.Validates(tensors) && p.graphMode && p.captured.None? {
      WarmUpIsValid(c);
      RunAtOnceKeeps(loads, WarmedUp(c), p.kernel, tensors);
      var warm := RunAtOnce(loads, WarmedUp(c), p.kernel, tensors).0;
      if warm.ok {
        var done := warm.c.(warmup := false);
        FlagsKeepValid(warm.c);
        OpenedKeeps(done, p.kernel, tensors);
        HostCodeKeeps(loads, Opened(done, p.kernel, tensors), p.kernel, tensors);
        FirstCapture(loads, c, p, tensors);
      }
    } else {
      RunAtOnceKeeps(loads, c, p.kernel, tensors);
    }
    if p.captured.Some? {
      var h: FunctionHandle, ts: seq<Tensor> :| p.Baked(h, ts, c);
      assert |p.captured.value.ptrs| == |ts|;
    }
    if d.p == p {
      StaysValid(p, c, d.c);
    }
  }

  lemma OpenedKeeps(c: Control, k: Kernel, tensors: seq<Tensor>)
    requires c.Valid()
    ensures Opened(c, k, tensors).Valid() && Opened(c, k, tensors).loaded == c.loaded && Opened(c, k, tensors).capturing
  {
  }

  /** The first graph-mode call that succeeds bakes its kernel. */
  lemma FirstCapture(loads: bool, c: Control, p: Plan, tensors: seq<Tensor>)
    requires c.Valid() && p.Validates(tensors) && p.graphMode && p.captured.None?
    ensures var d := Called(loads, c, p, tensors);
            d.result == Success ==> d.p.Valid(d.c) && d.c.Valid() && |d.p.captured.value.ptrs| == |p.frozen|
  {
    var d := Called(loads, c, p, tensors);
    if d.result == Success {
      FirstGraphCall(loads, c, p, tensors);
      WarmUpIsValid(c);
      RunAtOnceKeeps(loads, WarmedUp(c), p.kernel, tensors);
      WarmUpCaches(loads, c, p.kernel, tensors);
      var done := RunAtOnce(loads, WarmedUp(c), p.kernel, tensors).0.c.(warmup := false);
      FlagsKeepValid(RunAtOnce(loads, WarmedUp(c), p.kernel, tensors).0.c);
      CaptureRecords(loads, done, p.kernel, tensors);
      assert d.p.Baked(done.cachedFunction.value, tensors, d.c);
      forall i | 0 <= i < |p.frozen| ensures p.frozen[i].deviceResident {
        assert tensors[i].meta == p.frozen[i];
      }
    }
  }

  /** A graph-mode call with host tensors: its capture fails. */
  predicate Trips(p: Plan, tensors: seq<Tensor>) {
    p.graphMode && p.Validates(tensors) && !AllOnDevice(tensors)
  }

  /** A call that captures, as the driver loads modules under an open capture: it clears the override. */
  predicate Resets(loads: bool, p: Plan, tensors: seq<Tensor>) {
    loads && p.graphMode && p.captured.None? && p.Validates(tensors) && AllOnDevice(tensors)
  }

  /** What a call does to the thread's capture state follows from its mode and its tensors' residency. */
  lemma CallMoves(loads: bool, c: Control, p: Plan, tensors: seq<Tensor>)
    requires c.Valid() && p.Valid(c)
    ensures var d := Called(loads, c, p, tensors);
            && (d.c.capturing <==> Trips(p, tensors) || (c.capturing && !Resets(loads, p, tensors)))
            && (d.p.captured.Some? <==> p.captured.Some? || (d.result == Success && p.graphMode))
            && (loads ==> (d.p.captured.Some? <==>
                  p.captured.Some? || (p.graphMode && p.Validates(tensors) && AllOnDevice(tensors))))
  {
    hide RunAtOnce, RunHostCode, Opened, Control.Valid;
    if p.captured.Some? && p.Validates(tensors) {
      forall i | 0 <= i < |tensors| ensures tensors[i].meta.deviceResident {
        assert p.frozen[i].deviceResident;
      }
    }
    if p.Validates(tensors) && p.graphMode && p.captured.None? {
      WarmUpIsValid(c);
      RunAtOnceKeeps(loads, WarmedUp(c), p.kernel, tensors);
      var warm := RunAtOnce(loads, WarmedUp(c), p.kernel, tensors).0;
      if warm.ok {
        var done := warm.c.(warmup := false);
        FlagsKeepValid(warm.c);
        OpenedKeeps(done, p.kernel, tensors);
        HostCodeKeeps(loads, Opened(done, p.kernel, tensors), p.kernel, tensors);
        CachesAfterWarmUp(loads, c, p.kernel, tensors);
        OpenedCache(done, p.kernel, tensors);
      }
    } else {
      RunAtOnceKeeps(loads, c, p.kernel, tensors);
    }
  }

  lemma CachesAfterWarmUp(loads: bool, c: Control, k: Kernel, tensors: seq<Tensor>)
    requires c.Valid()
    ensures var r := RunAtOnce(loads, WarmedUp(c), k, tensors).0; r.ok ==> r.c.cachedFunction.Some?
  {
    WarmUpCaches(loads, c, k, tensors);
  }

  lemma OpenedCache(c: Control, k: Kernel, tensors: seq<Tensor>)
    ensures Opened(c, k, tensors).cachedFunction == c.cachedFunction
  {
  }
}
