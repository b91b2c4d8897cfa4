/** Who owns a plan's graph executable and stream, across creation, capture, moves and destruction. */
module PlanLifecycle {
  import opened Options

  type Handle = nat
  type Object = nat

  /** The two driver resources of a plan object. */
  datatype Resources = Resources(exec: Option<Handle>, stream: Option<Handle>)

  const Nothing := Resources(None, None)

  function HandlesOf(r: Resources): multiset<Handle> {
    (if r.exec.Some? then multiset{r.exec.value} else multiset{})
    + (if r.stream.Some? then multiset{r.stream.value} else multiset{})
  }

  function Count(r: Resources, h: Handle): nat {
    (if r.exec == Some(h) then 1 else 0) + (if r.stream == Some(h) then 1 else 0)
  }

  /** The driver: handles are numbered as they are created; every destruction is counted. */
  datatype Driver = Driver(next: Handle, destroyed: multiset<Handle>)

  function Destroy(d: Driver, r: Resources): Driver {
    d.(destroyed := d.destroyed + HandlesOf(r))
  }

  lemma DestroyCounts(d: Driver, r: Resources, h: Handle)
    ensures Destroy(d, r).destroyed[h] == d.destroyed[h] + Count(r, h)
    ensures Destroy(d, r).next == d.next
  {}

  // ---- the operations on one or two plan objects ---------------------------

  class PlanDriver {
    var state: Driver
    constructor () ensures state == Driver(0, multiset{}) { state := Driver(0, multiset{}); }
  }

  class PlanObject {
    var graphExec: Option<Handle>
    var graphStream: Option<Handle>
    var graphCaptured: bool

    function Owned(): Resources reads this { Resources(graphExec, graphStream) }

    constructor (d: PlanDriver, graphMode: bool)
      modifies d
      ensures Owned() == (if graphMode then Resources(None, Some(old(d.state).next)) else Nothing) && !graphCaptured
      ensures d.state == if graphMode then old(d.state).(next := old(d.state).next + 1) else old(d.state)
    {
      graphExec, graphCaptured := None, false;
      if graphMode {
        graphStream := Some(d.state.next);
      } else {
        graphStream := None;
      }
      new;
      if graphMode {
        d.state := d.state.(next := d.state.next + 1);
      }
    }

    /** Move construction: the new object takes everything, the source keeps nothing to destroy. */
    constructor Move(other: PlanObject)
      modifies other
      ensures Owned() == old(other.Owned()) && graphCaptured == old(other.graphCaptured)
      ensures other.Owned() == Nothing && !other.graphCaptured
    {
      graphExec, graphStream, graphCaptured := other.graphExec, other.graphStream, other.graphCaptured;
      new;
      other.graphStream, other.graphExec, other.graphCaptured := None, None, false;
    }

    /** Move assignment: what this object owned is destroyed first; assigning to itself does nothing. */
    method MoveAssign(other: PlanObject, d: PlanDriver)
      modifies this, other, d
      ensures other == this ==> Owned() == old(Owned()) && graphCaptured == old(graphCaptured) && d.state == old(d.state)
      ensures other != this ==> Owned() == old(other.Owned()) && graphCaptured == old(other.graphCaptured)
      ensures other != this ==> other.Owned() == Nothing && !other.graphCaptured
      ensures other != this ==> d.state == Destroy(old(d.state), old(Owned()))
    {
      if this != other {
        d.state := Destroy(d.state, Owned());
        graphExec, graphStream, graphCaptured := other.graphExec, other.graphStream, other.graphCaptured;
        other.graphStream, other.graphExec, other.graphCaptured := None, None, false;
      }
    }

    /** The destructor. */
    method Drop(d: PlanDriver)
      modifies this, d
      ensures Owned() == Nothing && d.state == Destroy(old(d.state), old(Owned()))
    {
      d.state := Destroy(d.state, Owned());
      graphExec, graphStream := None, None;
    }
  }

  // ---- any sequence of operations on any number of plans -------------------

  datatype System = System(plans: map<Object, Resources>, driver: Driver)

  datatype Step =
    | Create(o: Object, graphMode: bool)
    | Capture(o: Object)
    | CaptureFails(o: Object)
    | MoveConstruct(o: Object, from: Object)
    | MoveAssign(o: Object, from: Object)
    | Drop(o: Object)

  ghost predicate Enabled(s: System, step: Step) {
    match step
    case Create(o, _) => o !in s.plans
    case Capture(o) => o in s.plans && s.plans[o].exec.None? && s.plans[o].stream.Some?
    case CaptureFails(o) => o in s.plans && s.plans[o].exec.None? && s.plans[o].stream.Some?
    case MoveConstruct(o, from) => o !in s.plans && from in s.plans
    case MoveAssign(o, from) => o in s.plans && from in s.plans
    case Drop(o) => o in s.plans
  }

  ghost function Apply(s: System, step: Step): System
    requires Enabled(s, step)
  {
    var n := s.driver.next;
    match step
    case Create(o, graphMode) =>
      if graphMode then System(s.plans[o := Resources(None, Some(n))], s.driver.(next := n + 1))
      else System(s.plans[o := Nothing], s.driver)
    case Capture(o) => System(s.plans[o := s.plans[o].(exec := Some(n))], s.driver.(next := n + 1))
    case CaptureFails(o) => System(s.plans, Destroy(s.driver.(next := n + 1), Resources(Some(n), None)))
    case MoveConstruct(o, from) => System(s.plans[o := s.plans[from]][from := Nothing], s.driver)
    case MoveAssign(o, from) =>
      if o == from then s
      else System(s.plans[o := s.plans[from]][from := Nothing], Destroy(s.driver, s.plans[o]))
    case Drop(o) => System(s.plans - {o}, Destroy(s.driver, s.plans[o]))
  }

  /** Times a handle is owned, over all plan objects. */
  ghost function Owners(plans: map<Object, Resources>, h: Handle): nat
    decreases plans.Keys
  {
    if plans == map[] then 0
    else
      var o :| o in plans;
      Count(plans[o], h) + Owners(plans - {o}, h)
  }

  lemma {:induction false} OwnersTake(plans: map<Object, Resources>, o: Object, h: Handle)
    requires o in plans
    ensures Owners(plans, h) == Count(plans[o], h) + Owners(plans - {o}, h)
    decreases plans.Keys
  {
    var x :| x in plans && Owners(plans, h) == Count(plans[x], h) + Owners(plans - {x}, h);
    if x != o {
      OwnersTake(plans - {x}, o, h);
      OwnersTake(plans - {o}, x, h);
      assert plans - {x} - {o} == plans - {o} - {x};
    }
  }

  lemma OwnersPut(plans: map<Object, Resources>, o: Object, r: Resources, h: Handle)
    ensures Owners(plans[o := r], h) == Count(r, h) + Owners(plans - {o}, h)
  {
    OwnersTake(plans[o := r], o, h);
    assert plans[o := r] - {o} == plans - {o};
  }

  /** Every created resource is owned once and not destroyed, or not owned and destroyed once. */
  ghost predicate OwnedOrDestroyedOnce(s: System) {
    forall h: Handle :: Owners(s.plans, h) + s.driver.destroyed[h] == if h < s.driver.next then 1 else 0
  }

  lemma StepKeeps(s: System, step: Step)
    requires OwnedOrDestroyedOnce(s) && Enabled(s, step)
    ensures OwnedOrDestroyedOnce(Apply(s, step))
  {
    var s' := Apply(s, step);
    forall h: Handle
      ensures Owners(s'.plans, h) + s'.driver.destroyed[h] == if h < s'.driver.next then 1 else 0
    {
      match step
      case Create(o, graphMode) =>
        OwnersPut(s.plans, o, s'.plans[o], h);
        assert s.plans - {o} == s.plans;
      case Capture(o) =>
        OwnersPut(s.plans, o, s'.plans[o], h);
        OwnersTake(s.plans, o, h);
      case CaptureFails(o) =>
        DestroyCounts(s.driver.(next := s.driver.next + 1), Resources(Some(s.driver.next), None), h);
      case MoveConstruct(o, from) =>
        MoveOwners(s.plans, o, from, h);
      case MoveAssign(o, from) =>
        if o != from {
          MoveOwners(s.plans, o, from, h);
          DestroyCounts(s.driver, s.plans[o], h);
        }
      case Drop(o) =>
        OwnersTake(s.plans, o, h);
        DestroyCounts(s.driver, s.plans[o], h);
    }
  }

  lemma MoveOwners(plans: map<Object, Resources>, o: Object, from: Object, h: Handle)
    requires from in plans && o != from
    ensures Owners(plans[o := plans[from]][from := Nothing], h)
            + (if o in plans then Count(plans[o], h) else 0) == Owners(plans, h)
  {
    var moved := plans[o := plans[from]];
    OwnersPut(moved, from, Nothing, h);
    OwnersPut(plans - {from}, o, plans[from], h);
    assert moved - {from} == (plans - {from})[o := plans[from]];
    OwnersTake(plans, from, h);
    if o in plans {
      OwnersTake(plans - {from}, o, h);
    } else {
      assert plans - {from} - {o} == plans - {from};
    }
  }

  ghost predicate IsRun(states: seq<System>, steps: seq<Step>) {
    && |states| == |steps| + 1
    && states[0] == System(map[], Driver(0, multiset{}))
    && forall i :: 0 <= i < |steps| ==> Enabled(states[i], steps[i]) && states[i + 1] == Apply(states[i], steps[i])
  }

  /** Runs start with no plan, and go on with any step that is enabled. */
  lemma RunGoesOn(states: seq<System>, steps: seq<Step>, step: Step)
    requires IsRun(states, steps) && Enabled(states[|steps|], step)
    ensures IsRun(states + [Apply(states[|steps|], step)], steps + [step])
    ensures IsRun([System(map[], Driver(0, multiset{}))], [])
  {
  }

  lemma {:induction false} ReachableOwnedOnce(states: seq<System>, steps: seq<Step>, i: nat)
    requires IsRun(states, steps) && i < |states|
    ensures OwnedOrDestroyedOnce(states[i])
  {
    if i > 0 {
      ReachableOwnedOnce(states, steps, i - 1);
      StepKeeps(states[i - 1], steps[i - 1]);
    }
  }

  /** Whatever is created, captured, moved and assigned in between: once every plan object is gone, every
      graph and every stream ever created has been destroyed exactly once. */
  lemma NothingLeaksNothingTwice(states: seq<System>, steps: seq<Step>, h: Handle)
    requires IsRun(states, steps) && states[|steps|].plans == map[]
    ensures states[|steps|].driver.destroyed[h] == if h < states[|steps|].driver.next then 1 else 0
  {
    ReachableOwnedOnce(states, steps, |steps|);
    assert Owners(states[|steps|].plans, h) == 0;
  }
}
