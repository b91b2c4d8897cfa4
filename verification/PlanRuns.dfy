/** Any sequence of calls of any plans on one thread: which of the calls that succeed have their kernel's effect. */
module PlanRuns {
  import opened CaptureRuntime
  import opened ExecutionPlan
  import opened Options

  datatype Request = Request(plan: nat, tensors: seq<Tensor>)

  /** The plans of a thread, none captured yet, and the calls it makes. */
  datatype History = History(loads: bool, plans: seq<Plan>, calls: seq<Request>)
  {
    predicate Valid() {
      && (forall i :: 0 <= i < |plans| ==> plans[i].captured.None?)
      && (forall i :: 0 <= i < |calls| ==> calls[i].plan < |plans|)
    }
  }

  const Untouched := Control({}, 0, false, [], false, None, None)

  datatype World = World(c: Control, plans: seq<Plan>)

  /** The runtime and the plans after n calls. */
  function After(h: History, n: nat): (w: World)
    requires h.Valid() && n <= |h.calls|
    ensures |w.plans| == |h.plans|
    decreases n, 0
  {
    if n == 0 then World(Untouched, h.plans)
    else
      var d := CallAt(h, n - 1);
      World(d.c, After(h, n - 1).plans[h.calls[n - 1].plan := d.p])
  }

  function CallAt(h: History, i: nat): Done
    requires h.Valid() && i < |h.calls|
    decreases i, 1
  {
    var w := After(h, i);
    Called(h.loads, w.c, w.plans[h.calls[i].plan], h.calls[i].tensors)
  }

  function PlanAt(h: History, i: nat): Plan
    requires h.Valid() && i < |h.calls|
  {
    After(h, i).plans[h.calls[i].plan]
  }

  function MemoryAfter(h: History, effect: Effect, m: Memory, n: nat): Memory
    requires h.Valid() && n <= |h.calls|
  {
    if n == 0 then m else PerformAll(effect, CallAt(h, n - 1).ops, MemoryAfter(h, effect, m, n - 1))
  }

  predicate Succeeds(h: History, i: nat)
    requires h.Valid() && i < |h.calls|
  {
    CallAt(h, i).result == Success
  }

  /** Call i has taken memory through its kernel's effect, once. */
  ghost predicate EffectAt(h: History, effect: Effect, m: Memory, i: nat)
    requires h.Valid() && i < |h.calls|
  {
    MemoryAfter(h, effect, m, i + 1)
    == KernelEffect(effect, h.plans[h.calls[i].plan].kernel, h.calls[i].tensors, MemoryAfter(h, effect, m, i))
  }

  /** Every call that succeeds has its effect, whatever the functions do and whatever memory holds at first. */
  ghost predicate EveryCallHasEffect(h: History)
    requires h.Valid()
  {
    forall effect: Effect, m: Memory, i: nat :: i < |h.calls| && Succeeds(h, i) ==> EffectAt(h, effect, m, i)
  }

  // ---- what a caller can see ----------------------------------------------

  /** Call j was of a graph-mode plan, on host tensors. */
  predicate TripsAt(h: History, j: nat)
    requires h.Valid() && j < |h.calls|
  {
    Trips(h.plans[h.calls[j].plan], h.calls[j].tensors)
  }

  /** Call j was of a graph-mode plan, on device tensors. */
  predicate CapturesAt(h: History, j: nat)
    requires h.Valid() && j < |h.calls|
  {
    var p := h.plans[h.calls[j].plan];
    p.graphMode && p.Validates(h.calls[j].tensors) && AllOnDevice(h.calls[j].tensors)
  }

  predicate CapturedBefore(h: History, p: nat, i: nat)
    requires h.Valid() && i <= |h.calls|
  {
    exists j :: 0 <= j < i && h.calls[j].plan == p && CapturesAt(h, j)
  }

  /** Call j was the first on device tensors of a graph-mode plan, and the driver loads modules under an open capture. */
  predicate ResetsAt(h: History, j: nat)
    requires h.Valid() && j < |h.calls|
  {
    h.loads && CapturesAt(h, j) && !CapturedBefore(h, h.calls[j].plan, j)
  }

  /** A graph-mode call before call i was given host tensors, and none since has reset the override. */
  predicate Stuck(h: History, i: nat)
    requires h.Valid() && i <= |h.calls|
  {
    exists j :: 0 <= j < i && TripsAt(h, j) && forall l :: j < l < i ==> !ResetsAt(h, l)
  }

  // ---- invariants of a run ------------------------------------------------

  ghost predicate Kept(h: History, w: World)
    requires h.Valid()
  {
    && w.c.Valid() && |w.plans| == |h.plans|
    && (forall p :: 0 <= p < |w.plans| ==> w.plans[p].Valid(w.c) && w.plans[p] == h.plans[p].(captured := w.plans[p].captured))
  }

  lemma {:induction false} RunKeeps(h: History, n: nat)
    requires h.Valid() && n <= |h.calls|
    ensures Kept(h, After(h, n))
  {
    if n > 0 {
      RunKeeps(h, n - 1);
      CallKeeps(h, After(h, n - 1), h.calls[n - 1]);
    }
  }

  lemma CallKeeps(h: History, w: World, r: Request)
    requires h.Valid() && Kept(h, w) && r.plan < |h.plans|
    ensures var d := Called(h.loads, w.c, w.plans[r.plan], r.tensors);
            Kept(h, World(d.c, w.plans[r.plan := d.p]))
  {
    hide Called, Control.Valid;
    var d := Called(h.loads, w.c, w.plans[r.plan], r.tensors);
    CalledKeepsValid(h.loads, w.c, w.plans[r.plan], r.tensors);
    forall p | 0 <= p < |w.plans| ensures w.plans[p].Valid(d.c) {
      StaysValid(w.plans[p], w.c, d.c);
    }
  }

  /** Which plans are captured, when the driver loads modules under an open capture. */
  lemma {:induction false} CapturedIff(h: History, n: nat, p: nat)
    requires h.Valid() && n <= |h.calls| && p < |h.plans| && h.loads
    ensures After(h, n).plans[p].captured.Some? <==> CapturedBefore(h, p, n)
  {
    hide Called;
    if n > 0 {
      CapturedIff(h, n - 1, p);
      RunKeeps(h, n - 1);
      var w, r := After(h, n - 1), h.calls[n - 1];
      CallMoves(h.loads, w.c, w.plans[r.plan], r.tensors);
      OneMoreCapture(h, p, n - 1);
    }
  }

  lemma OneMoreCapture(h: History, p: nat, n: nat)
    requires h.Valid() && n < |h.calls|
    ensures CapturedBefore(h, p, n + 1) <==> CapturedBefore(h, p, n) || (h.calls[n].plan == p && CapturesAt(h, n))
  {
    hide CapturesAt;
  }

  lemma OneMoreStuck(h: History, n: nat)
    requires h.Valid() && n < |h.calls|
    ensures Stuck(h, n + 1) <==> TripsAt(h, n) || (Stuck(h, n) && !ResetsAt(h, n))
  {
    hide TripsAt, ResetsAt;
    if Stuck(h, n + 1) {
      var j :| 0 <= j < n + 1 && TripsAt(h, j) && forall l :: j < l < n + 1 ==> !ResetsAt(h, l);
      if j < n {
        assert !ResetsAt(h, n);
      }
    }
    if Stuck(h, n) && !ResetsAt(h, n) {
      var j :| 0 <= j < n && TripsAt(h, j) && forall l :: j < l < n ==> !ResetsAt(h, l);
      assert forall l :: j < l < n + 1 ==> !ResetsAt(h, l);
    }
  }

  /** The thread has an open capture exactly when a caller would say it is stuck. */
  lemma {:induction false} OpenIffStuck(h: History, n: nat)
    requires h.Valid() && n <= |h.calls|
    ensures After(h, n).c.capturing <==> Stuck(h, n)
  {
    hide Called;
    if n > 0 {
      OpenIffStuck(h, n - 1);
      OneMoreStuck(h, n - 1);
      RunKeeps(h, n - 1);
      var w, r := After(h, n - 1), h.calls[n - 1];
      CallMoves(h.loads, w.c, w.plans[r.plan], r.tensors);
      if h.loads {
        CapturedIff(h, n - 1, r.plan);
      }
    }
  }

  // ---- the main result ----------------------------------------------------

  /** Call i may be trusted: a replay of a kernel with one function, or a call while the thread is not stuck. */
  ghost predicate Sound(h: History, i: nat)
    requires h.Valid() && i < |h.calls|
  {
    if Replays(PlanAt(h, i)) then OneFunction(h.plans[h.calls[i].plan].kernel) else !Stuck(h, i)
  }

  lemma SoundIs(h: History, i: nat)
    requires h.Valid() && i < |h.calls|
    ensures Kept(h, After(h, i)) && PlanAt(h, i).kernel == h.plans[h.calls[i].plan].kernel
    ensures Sound(h, i) <==> HasEffect(After(h, i).c, PlanAt(h, i))
  {
    hide Called, Stuck;
    RunKeeps(h, i);
    OpenIffStuck(h, i);
  }

  /** Over any calls of any plans: every call that succeeds has its kernel's effect exactly once, for all effects and
      memories, exactly when no call that runs its kernel comes after a graph-mode call on host tensors that nothing has
      reset, and replayed kernels launch one function. */
  lemma EveryCallHasEffectIff(h: History)
    requires h.Valid()
    ensures EveryCallHasEffect(h) <==> forall i: nat :: i < |h.calls| && Succeeds(h, i) ==> Sound(h, i)
  {
    hide Called, PerformAll, KernelEffect, Sound, Stuck, HasEffect;
    if forall i: nat :: i < |h.calls| && Succeeds(h, i) ==> Sound(h, i) {
      forall effect: Effect, m: Memory, i: nat | i < |h.calls| && Succeeds(h, i) ensures EffectAt(h, effect, m, i) {
        SoundIs(h, i);
        RightWhenNothingOpen(effect, h.loads, After(h, i).c, PlanAt(h, i), h.calls[i].tensors, MemoryAfter(h, effect, m, i));
      }
    } else {
      var i: nat :| i < |h.calls| && Succeeds(h, i) && !Sound(h, i);
      SoundIs(h, i);
      var f := MissesOtherwise(h.loads, After(h, i).c, PlanAt(h, i), h.calls[i].tensors);
      assert !EffectAt(h, Counting(f), map[], i);
    }
  }

  /** In particular, without graph-mode calls on host tensors. */
  lemma NothingStuck(h: History)
    requires h.Valid() && forall j :: 0 <= j < |h.calls| ==> !TripsAt(h, j)
    requires forall p :: 0 <= p < |h.plans| ==> OneFunction(h.plans[p].kernel)
    ensures EveryCallHasEffect(h)
  {
    hide TripsAt, OneFunction;
    EveryCallHasEffectIff(h);
    forall i: nat | i < |h.calls| ensures Sound(h, i) {
      assert OneFunction(h.plans[h.calls[i].plan].kernel);
    }
  }

  // ---- a call that is lost ------------------------------------------------

  /** A plan in graph mode whose kernel gets a host tensor, then one without on a device tensor. */
  function Lost(loads: bool): History {
    var k := Kernel([Function(0, "k")], {}, false);
    var host, device := Meta(0, [4], [1], false, None), Meta(0, [4], [1], true, None);
    History(loads, [Plan(k, [host], true, None), Plan(k, [device], false, None)],
            [Request(0, [Tensor(16, host)]), Request(1, [Tensor(32, device)])])
  }

  /** The first call throws. The second one succeeds, performs nothing and is recorded in the capture that nobody closes. */
  lemma CallIsLost(loads: bool)
    ensures var h := Lost(loads);
            && h.Valid() && CallAt(h, 0).result == CaptureFailed
            && CallAt(h, 1).result == Success && CallAt(h, 1).ops == []
            && |After(h, 2).c.recording| == 1 && After(h, 2).c.recording[0].Call? && After(h, 2).c.recording[0].args == [32]
            && !EveryCallHasEffect(h)
  {
    var h := Lost(loads);
    var k := h.plans[0].kernel;
    FailedCall(loads);
    SecondCall(loads);
    assert TripsAt(h, 0) by {
      assert !h.calls[0].tensors[0].meta.deviceResident;
    }
    assert Stuck(h, 1);
    assert !Sound(h, 1);
    EveryCallHasEffectIff(h);
  }

  function KernelHandle(): FunctionHandle { FunctionHandle(0, Function(0, "k")) }

  lemma FailedCall(loads: bool)
    ensures var h := Lost(loads);
            h.Valid() && CallAt(h, 0).result == CaptureFailed
            && After(h, 1).c == Control({0}, 1, true, [], false, Some(0), Some(KernelHandle()))
            && After(h, 1).plans == h.plans
  {
    var h := Lost(loads);
    var p, tensors := h.plans[0], h.calls[0].tensors;
    var launches := LaunchesOn(p.kernel, Pointers(tensors));
    assert |launches| == 1 && launches[..0] == [];
    assert Pointers(tensors) == [16] && !AllOnDevice(tensors) by {
      assert !tensors[0].meta.deviceResident;
    }
    NoZeroing(p.kernel, tensors, 1, Any);
    NoZeroing(p.kernel, tensors, 1, OnHost);
    NoZeroing(p.kernel, tensors, 1, OnDevice);
    assert After(h, 0) == World(Untouched, h.plans);
    var warm := WarmedUp(Untouched);
    assert Invoked(loads, warm, launches[..0]) == Moved(warm, [], true);
    assert Invoked(loads, warm, launches).c == Control({0}, 1, false, [], true, Some(0), Some(KernelHandle()));
  }

  lemma SecondCall(loads: bool)
    requires Lost(loads).Valid()
    requires After(Lost(loads), 1).c == Control({0}, 1, true, [], false, Some(0), Some(KernelHandle()))
    requires After(Lost(loads), 1).plans == Lost(loads).plans
    ensures var h := Lost(loads);
            CallAt(h, 1).result == Success && CallAt(h, 1).ops == []
            && After(h, 2).c.recording == [Call(KernelHandle(), [32])]
  {
    hide After;
    var h := Lost(loads);
    var c, p, tensors := After(h, 1).c, h.plans[1], h.calls[1].tensors;
    var launches := LaunchesOn(p.kernel, Pointers(tensors));
    assert |launches| == 1 && launches[..0] == [] && Pointers(tensors) == [32];
    assert AllOnDevice(tensors);
    NoZeroing(p.kernel, tensors, 1, Any);
    assert Invoked(loads, c, launches[..0]) == Moved(c, [], true);
    AfterCall(h, 2);
  }

  lemma AfterCall(h: History, n: nat)
    requires h.Valid() && 0 < n <= |h.calls|
    ensures After(h, n).c == CallAt(h, n - 1).c
  {
  }
}
