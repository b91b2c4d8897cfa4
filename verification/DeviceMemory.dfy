/** Device memory under every interleaving of allocate, free, acquire and release. Each locked
    region of the pool and of the handle manager, and each driver call between them, is one step. */
module DeviceMemory {
  import opened DeviceHandles
  import opened Options
  import opened PoolState

  type Thread = nat

  /** What a thread holds between two steps. */
  datatype Local =
    | Idle
    | Missed(size: nat)                    // acquire found nothing pooled
    | Got(p: Ptr, size: nat)               // the driver returned p, its size is not recorded yet
    | Acquired(p: Ptr, size: nat)          // acquire is about to return p
    | Releasing(p: Ptr)                    // about to enter the pool's release
    | Evicting(victims: set<Ptr>)          // release took these out of the pool, the driver still has to free them

  datatype System = System(
    pool: Pool,
    onDevice: set<Ptr>,          // what the driver considers allocated
    live: map<Id, Live>,          // buffers owned through handles
    nextId: Id,
    held: set<Ptr>,               // buffers owned directly (staging buffers of compiled kernels)
    threads: map<Thread, Local>)

  /** The one place a pointer can be at. */
  datatype Place = Pooled | InThread(t: Thread) | Owned(id: Id) | Held

  ghost predicate Holds(l: Local, p: Ptr) {
    match l
    case Idle => false
    case Missed(_) => false
    case Got(q, _) => p == q
    case Acquired(q, _) => p == q
    case Releasing(q) => p == q
    case Evicting(vs) => p in vs
  }

  ghost predicate At(s: System, p: Ptr, place: Place) {
    match place
    case Pooled => p in s.pool.entries
    case InThread(t) => t in s.threads && Holds(s.threads[t], p)
    case Owned(id) => id in s.live && s.live[id].p == p
    case Held => p in s.held
  }

  ghost predicate OnePlace(s: System, p: Ptr) {
    forall a, b :: At(s, p, a) && At(s, p, b) ==> a == b
  }

  /** Whether the size of p is on record: not before a driver allocation is recorded, nor once p is being evicted. */
  ghost predicate Recorded(s: System, p: Ptr, place: Place) {
    match place
    case InThread(t) => t in s.threads && (Holds(s.threads[t], p) ==> RecordedIn(s.pool, s.threads[t], p))
    case Owned(id) => p in s.pool.sizes && id in s.live && s.pool.sizes[p] == s.live[id].size
    case _ => p in s.pool.sizes
  }

  ghost predicate RecordedIn(pool: Pool, l: Local, p: Ptr) {
    match l
    case Acquired(_, size) => p in pool.sizes && pool.sizes[p] == size
    case Releasing(_) => p in pool.sizes
    case _ => p !in pool.sizes
  }

  ghost predicate Somewhere(s: System, p: Ptr) {
    exists place :: At(s, p, place)
  }

  ghost predicate Inv(s: System) {
    && Consistent(s.pool)
    && (forall p: Ptr :: OnePlace(s, p))
    && (forall p: Ptr, place :: At(s, p, place) ==> p in s.onDevice && Recorded(s, p, place))
    && (forall p: Ptr :: p in s.pool.sizes ==> Somewhere(s, p))
    && (forall id :: id in s.live ==> id < s.nextId)
  }

  /** A handle names a buffer that is owned through it now. */
  ghost predicate IsValid(s: System, h: Handle) {
    Names(s.live, h)
  }

  // ---- steps --------------------------------------------------------------

  datatype Step =
    | AcquireHit(size: nat, p: Ptr)
    | AcquireMiss(size: nat)
    | DriverAlloc(p: Ptr)
    | RecordSize
    | RegisterHandle
    | HandOut
    | FreeHandle(h: Handle)
    | GiveBack(p: Ptr)
    | ReleaseLocked(fence: Option<Event>, k: nat)
    | DriverFree(p: Ptr)
    | ReleaseRefused(p: Ptr)      // release of a pointer nobody gave back; the pool raises its error
    | FreeRefused(h: Handle)      // free through a stale or made up handle; the manager raises its error

  ghost predicate Next(s: System, s': System, t: Thread, step: Step) {
    t in s.threads &&
    match step
    case AcquireHit(size, p) =>
      && s.threads[t].Idle? && size > 0 && Reuses(s.pool, s'.pool, size, p) && Consistent(s'.pool)
      && s' == s.(pool := s'.pool, threads := s.threads[t := Acquired(p, size)])
    case AcquireMiss(size) =>
      && s.threads[t].Idle? && size > 0 && Misses(s.pool, s'.pool, size) && Consistent(s'.pool)
      && s' == s.(pool := s'.pool, threads := s.threads[t := Missed(size)])
    case DriverAlloc(p) =>
      && s.threads[t].Missed? && p !in s.onDevice
      && s' == s.(onDevice := s.onDevice + {p}, threads := s.threads[t := Got(p, s.threads[t].size)])
    case RecordSize =>
      && s.threads[t].Got?
      && var l := s.threads[t];
         s' == s.(pool := s.pool.(sizes := s.pool.sizes[l.p := l.size]), threads := s.threads[t := Acquired(l.p, l.size)])
    case RegisterHandle =>
      && s.threads[t].Acquired?
      && var l := s.threads[t];
         s' == s.(live := s.live[s.nextId := Live(l.p, l.size)], nextId := s.nextId + 1, threads := s.threads[t := Idle])
    case HandOut =>
      && s.threads[t].Acquired?
      && s' == s.(held := s.held + {s.threads[t].p}, threads := s.threads[t := Idle])
    case FreeHandle(h) =>
      && s.threads[t].Idle? && IsValid(s, h)
      && s' == s.(live := s.live - {h.id}, threads := s.threads[t := Releasing(h.p)])
    case GiveBack(p) =>
      && s.threads[t].Idle? && p in s.held
      && s' == s.(held := s.held - {p}, threads := s.threads[t := Releasing(p)])
    case ReleaseLocked(fence, k) =>
      && s.threads[t].Releasing? && Pools(s.pool, s'.pool, s.threads[t].p, fence, k) && Consistent(s'.pool)
      && s' == s.(pool := s'.pool, threads := s.threads[t := AfterRelease(Victims(s.pool.order + [s.threads[t].p], k))])
    case DriverFree(p) =>
      && s.threads[t].Evicting? && p in s.threads[t].victims
      && var rest := s.threads[t].victims - {p};
         s' == s.(onDevice := s.onDevice - {p}, threads := s.threads[t := AfterRelease(rest)])
    case ReleaseRefused(p) => s.threads[t].Idle? && Refuses(s.pool, p) && s' == s
    case FreeRefused(h) => s.threads[t].Idle? && !IsValid(s, h) && s' == s
  }

  /** The pool's two errors: an unknown pointer, and one that is pooled already. */
  predicate Refuses(pool: Pool, p: Ptr) {
    p !in pool.sizes || p in pool.entries
  }

  ghost function AfterRelease(victims: set<Ptr>): Local {
    if victims == {} then Idle else Evicting(victims)
  }

  ghost function Victims(order: seq<Ptr>, k: nat): set<Ptr>
    requires k <= |order|
  {
    set i | 0 <= i < k :: order[i]
  }

  ghost predicate Initial(s: System) {
    && (exists cap :: s.pool == Pool(map[], map[], map[], [], 0, cap))
    && s.onDevice == {} && s.live == map[] && s.held == {} && s.nextId == 1
    && forall t :: t in s.threads ==> s.threads[t] == Idle
  }

  // ---- invariant ----------------------------------------------------------

  lemma InitialInv(s: System)
    requires Initial(s)
    ensures Inv(s)
  {}

  /** A pointer is only found where it was, except those in `moved`, which are found at `to` only. */
  ghost predicate Moves(s: System, s': System, moved: set<Ptr>, to: Ptr -> Place) {
    forall q: Ptr, place :: At(s', q, place) ==> if q in moved then place == to(q) else At(s, q, place)
  }

  lemma MovesKeepInv(s: System, s': System, moved: set<Ptr>, to: Ptr -> Place)
    requires Inv(s) && Consistent(s'.pool) && Moves(s, s', moved, to)
    requires forall q: Ptr, place :: At(s', q, place) ==> q in s'.onDevice && Recorded(s', q, place)
    requires forall q: Ptr :: q in s'.pool.sizes ==> Somewhere(s', q)
    requires forall id :: id in s'.live ==> id < s'.nextId
    ensures Inv(s')
  {
    forall p: Ptr, a, b | At(s', p, a) && At(s', p, b) ensures a == b {
      assert OnePlace(s, p);
    }
  }

  lemma AcquireHitKeeps(s: System, s': System, t: Thread, size: nat, p: Ptr)
    requires Inv(s) && Next(s, s', t, AcquireHit(size, p))
    ensures Inv(s')
  {
    assert At(s, p, Pooled) && OnePlace(s, p);
    forall q: Ptr, place | At(s', q, place)
      ensures if q == p then place == InThread(t) else At(s, q, place)
      ensures q in s'.onDevice && Recorded(s', q, place)
    {
      if place != InThread(t) { assert At(s, q, place); }
      if q != p { assert At(s, q, place); }
    }
    forall q: Ptr | q in s'.pool.sizes ensures Somewhere(s', q) {
      if q == p {
        assert At(s', q, InThread(t));
      } else {
        var place :| At(s, q, place);
        assert At(s', q, place);
      }
    }
    MovesKeepInv(s, s', {p}, _ => InThread(t));
  }

  lemma AcquireMissKeeps(s: System, s': System, t: Thread, size: nat)
    requires Inv(s) && Next(s, s', t, AcquireMiss(size))
    ensures Inv(s')
  {
    forall q: Ptr, place | At(s', q, place)
      ensures At(s, q, place) && q in s'.onDevice && Recorded(s', q, place) {
      assert At(s, q, place);
    }
    forall q: Ptr | q in s'.pool.sizes ensures Somewhere(s', q) {
      var place :| At(s, q, place);
      assert At(s', q, place);
    }
    MovesKeepInv(s, s', {}, _ => Held);
  }

  lemma DriverAllocKeeps(s: System, s': System, t: Thread, p: Ptr)
    requires Inv(s) && Next(s, s', t, DriverAlloc(p))
    ensures Inv(s')
  {
    forall q: Ptr, place | At(s', q, place)
      ensures if q == p then place == InThread(t) else At(s, q, place)
      ensures q in s'.onDevice && Recorded(s', q, place)
    {
      if place != InThread(t) { assert At(s, q, place); }
    }
    forall q: Ptr | q in s'.pool.sizes ensures Somewhere(s', q) {
      var place :| At(s, q, place);
      assert At(s', q, place);
    }
    MovesKeepInv(s, s', {p}, _ => InThread(t));
  }

  lemma RecordSizeKeeps(s: System, s': System, t: Thread)
    requires Inv(s) && Next(s, s', t, RecordSize)
    ensures Inv(s')
  {
    var p := s.threads[t].p;
    assert At(s, p, InThread(t)) && OnePlace(s, p);
    assert !At(s, p, Pooled);
    forall q: Ptr, place | At(s', q, place)
      ensures At(s, q, place) && q in s'.onDevice && Recorded(s', q, place) {
      assert At(s, q, place);
    }
    forall q: Ptr | q in s'.pool.sizes ensures Somewhere(s', q) {
      if q == p {
        assert At(s', q, InThread(t));
      } else {
        var place :| At(s, q, place);
        assert At(s', q, place);
      }
    }
    MovesKeepInv(s, s', {}, _ => Held);
  }

  lemma RegisterHandleKeeps(s: System, s': System, t: Thread)
    requires Inv(s) && Next(s, s', t, RegisterHandle)
    ensures Inv(s')
  {
    var p := s.threads[t].p;
    assert At(s, p, InThread(t)) && OnePlace(s, p) && Recorded(s, p, InThread(t));
    forall q: Ptr, place | At(s', q, place)
      ensures if q == p then place == Owned(s.nextId) else At(s, q, place)
      ensures q in s'.onDevice && Recorded(s', q, place)
    {
      if place != Owned(s.nextId) { assert At(s, q, place); }
    }
    forall q: Ptr | q in s'.pool.sizes ensures Somewhere(s', q) {
      if q == p {
        assert At(s', q, Owned(s.nextId));
      } else {
        var place :| At(s, q, place);
        assert At(s', q, place);
      }
    }
    MovesKeepInv(s, s', {p}, _ => Owned(s.nextId));
  }

  lemma HandOutKeeps(s: System, s': System, t: Thread)
    requires Inv(s) && Next(s, s', t, HandOut)
    ensures Inv(s')
  {
    var p := s.threads[t].p;
    assert At(s, p, InThread(t)) && OnePlace(s, p) && Recorded(s, p, InThread(t));
    forall q: Ptr, place | At(s', q, place)
      ensures if q == p then place == Held else At(s, q, place)
      ensures q in s'.onDevice && Recorded(s', q, place)
    {
      if place != Held { assert At(s, q, place); } else if q != p { assert At(s, q, place); }
    }
    forall q: Ptr | q in s'.pool.sizes ensures Somewhere(s', q) {
      if q == p {
        assert At(s', q, Held);
      } else {
        var place :| At(s, q, place);
        assert At(s', q, place);
      }
    }
    MovesKeepInv(s, s', {p}, _ => Held);
  }

  lemma FreeHandleKeeps(s: System, s': System, t: Thread, h: Handle)
    requires Inv(s) && Next(s, s', t, FreeHandle(h))
    ensures Inv(s')
  {
    assert At(s, h.p, Owned(h.id)) && OnePlace(s, h.p) && Recorded(s, h.p, Owned(h.id));
    forall q: Ptr, place | At(s', q, place)
      ensures if q == h.p then place == InThread(t) else At(s, q, place)
      ensures q in s'.onDevice && Recorded(s', q, place)
    {
      if place != InThread(t) { assert At(s, q, place); }
    }
    forall q: Ptr | q in s'.pool.sizes ensures Somewhere(s', q) {
      if q == h.p {
        assert At(s', q, InThread(t));
      } else {
        var place :| At(s, q, place);
        assert At(s', q, place);
      }
    }
    MovesKeepInv(s, s', {h.p}, _ => InThread(t));
  }

  lemma GiveBackKeeps(s: System, s': System, t: Thread, p: Ptr)
    requires Inv(s) && Next(s, s', t, GiveBack(p))
    ensures Inv(s')
  {
    assert At(s, p, Held) && OnePlace(s, p) && Recorded(s, p, Held);
    forall q: Ptr, place | At(s', q, place)
      ensures if q == p then place == InThread(t) else At(s, q, place)
      ensures q in s'.onDevice && Recorded(s', q, place)
    {
      if place != InThread(t) { assert At(s, q, place); }
    }
    forall q: Ptr | q in s'.pool.sizes ensures Somewhere(s', q) {
      if q == p {
        assert At(s', q, InThread(t));
      } else {
        var place :| At(s, q, place);
        assert At(s', q, place);
      }
    }
    MovesKeepInv(s, s', {p}, _ => InThread(t));
  }

  lemma ReleasedAreSomewhere(s: System, s': System, t: Thread, fence: Option<Event>, k: nat)
    requires Inv(s) && Next(s, s', t, ReleaseLocked(fence, k))
    ensures forall q: Ptr :: q in s'.pool.sizes ==> Somewhere(s', q)
  {
    var p := s.threads[t].p;
    forall q: Ptr | q in s'.pool.sizes ensures Somewhere(s', q) {
      if q == p {
        assert At(s', q, Pooled);
      } else {
        var place :| At(s, q, place);
        assert At(s', q, place);
      }
    }
  }

  lemma ReleaseLockedKeeps(s: System, s': System, t: Thread, fence: Option<Event>, k: nat)
    requires Inv(s) && Next(s, s', t, ReleaseLocked(fence, k))
    ensures Inv(s')
  {
    var p, order := s.threads[t].p, s.pool.order + [s.threads[t].p];
    var victims := Victims(order, k);
    assert At(s, p, InThread(t)) && OnePlace(s, p) && Recorded(s, p, InThread(t));
    ListedElements(s.pool.order, s.pool.entries.Keys);
    forall v | v in victims ensures v == p || At(s, v, Pooled) {
      var i :| 0 <= i < k && order[i] == v;
      assert i < |s.pool.order| ==> v in Elements(s.pool.order);
    }
    var to := (q: Ptr) => if q in victims then InThread(t) else Pooled;
    forall q: Ptr, place | At(s', q, place)
      ensures if q in victims + {p} then place == to(q) else At(s, q, place)
      ensures q in s'.onDevice && Recorded(s', q, place)
    {
      assert OnePlace(s, q);
      if q != p && q !in victims {
        assert At(s, q, place);
      } else if place != Pooled && place != InThread(t) {
        assert At(s, q, place);
      }
    }
    ReleasedAreSomewhere(s, s', t, fence, k);
    MovesKeepInv(s, s', victims + {p}, to);
  }

  lemma DriverFreeKeeps(s: System, s': System, t: Thread, p: Ptr)
    requires Inv(s) && Next(s, s', t, DriverFree(p))
    ensures Inv(s')
  {
    assert At(s, p, InThread(t)) && OnePlace(s, p);
    forall q: Ptr, place | At(s', q, place)
      ensures At(s, q, place) && q in s'.onDevice && Recorded(s', q, place) {
      assert At(s, q, place);
    }
    forall q: Ptr | q in s'.pool.sizes ensures Somewhere(s', q) {
      var place :| At(s, q, place);
      assert At(s', q, place);
    }
    MovesKeepInv(s, s', {}, _ => Held);
  }

  lemma NextKeepsInv(s: System, s': System, t: Thread, step: Step)
    requires Inv(s) && Next(s, s', t, step)
    ensures Inv(s')
  {
    match step
    case AcquireHit(size, p) => AcquireHitKeeps(s, s', t, size, p);
    case AcquireMiss(size) => AcquireMissKeeps(s, s', t, size);
    case DriverAlloc(p) => DriverAllocKeeps(s, s', t, p);
    case RecordSize => RecordSizeKeeps(s, s', t);
    case RegisterHandle => RegisterHandleKeeps(s, s', t);
    case HandOut => HandOutKeeps(s, s', t);
    case FreeHandle(h) => FreeHandleKeeps(s, s', t, h);
    case GiveBack(p) => GiveBackKeeps(s, s', t, p);
    case ReleaseLocked(fence, k) => ReleaseLockedKeeps(s, s', t, fence, k);
    case DriverFree(p) => DriverFreeKeeps(s, s', t, p);
    case ReleaseRefused(_) =>
    case FreeRefused(_) =>
  }

  // ---- runs ---------------------------------------------------------------

  datatype Run = Run(states: seq<System>, threads: seq<Thread>, steps: seq<Step>)

  /** Any interleaving: at each point some thread makes some step. */
  ghost predicate IsRun(r: Run) {
    && |r.states| == |r.steps| + 1 == |r.threads| + 1
    && Initial(r.states[0])
    && forall i :: 0 <= i < |r.steps| ==> Next(r.states[i], r.states[i + 1], r.threads[i], r.steps[i])
  }

  lemma {:induction false} ReachableInv(r: Run, i: nat)
    requires IsRun(r) && i < |r.states|
    ensures Inv(r.states[i])
  {
    if i == 0 {
      InitialInv(r.states[0]);
    } else {
      ReachableInv(r, i - 1);
      NextKeepsInv(r.states[i - 1], r.states[i], r.threads[i - 1], r.steps[i - 1]);
    }
  }

  /** In every reachable state a pointer is pooled, in one thread's hands, owned through one handle id or
      held directly: never two of these, and always a current driver allocation. */
  lemma Exclusive(r: Run, i: nat, p: Ptr, a: Place, b: Place)
    requires IsRun(r) && i < |r.states| && At(r.states[i], p, a) && At(r.states[i], p, b)
    ensures a == b && p in r.states[i].onDevice
  {
    ReachableInv(r, i);
    assert OnePlace(r.states[i], p);
  }

  // ---- releases nobody is entitled to -------------------------------------

  /** p is with a client: on its way out of the pool or back, owned through a handle, or held directly. */
  ghost predicate InUse(s: System, p: Ptr) {
    exists place :: At(s, p, place) && Client(s, place)
  }

  ghost predicate Client(s: System, place: Place) {
    match place
    case Pooled => false
    case InThread(t) => t in s.threads && (s.threads[t].Acquired? || s.threads[t].Releasing?)
    case _ => true
  }

  /** In every interleaving the pool refuses exactly the pointers that are in nobody's use: a client that gives back
      what it owns never sees an error, and a second release is refused for as long as the pointer is pooled, being
      evicted or gone. */
  lemma ReleaseAcceptsExactlyUsed(r: Run, i: nat, p: Ptr)
    requires IsRun(r) && i < |r.states|
    ensures Refuses(r.states[i].pool, p) <==> !InUse(r.states[i], p)
    ensures forall t :: t in r.states[i].threads && r.states[i].threads[t] == Releasing(p) ==>
              !Refuses(r.states[i].pool, p)
  {
    ReachableInv(r, i);
    RefusesUnused(r.states[i], p);
    forall t | t in r.states[i].threads && r.states[i].threads[t] == Releasing(p) ensures InUse(r.states[i], p) {
      assert At(r.states[i], p, InThread(t)) && Client(r.states[i], InThread(t));
    }
  }

  lemma RefusesUnused(s: System, p: Ptr)
    requires Inv(s)
    ensures Refuses(s.pool, p) <==> !InUse(s, p)
  {
    if InUse(s, p) {
      var place :| At(s, p, place) && Client(s, place);
      assert Recorded(s, p, place) && OnePlace(s, p);
      assert !At(s, p, Pooled);
    }
    if p in s.pool.sizes && p !in s.pool.entries {
      var place :| At(s, p, place);
      assert Recorded(s, p, place) && Client(s, place);
    }
  }

  /** An idle thread releases any pointer at all. Refused, nothing changes; otherwise the pool takes it. */
  ghost predicate ForeignRelease(s: System, s': System, t: Thread, p: Ptr, fence: Option<Event>, k: nat) {
    && t in s.threads && s.threads[t].Idle?
    && if Refuses(s.pool, p) then s' == s
       else Pools(s.pool, s'.pool, p, fence, k) && Consistent(s'.pool)
            && s' == s.(pool := s'.pool, threads := s.threads[t := AfterRelease(Victims(s.pool.order + [p], k))])
  }

  /** Such a release is harmless exactly when nobody uses the pointer. One that is taken, say a second release after
      the address has gone to another owner, leaves the pointer in two places. */
  lemma ForeignReleaseIsSafeIff(s: System, s': System, t: Thread, p: Ptr, fence: Option<Event>, k: nat)
    requires Inv(s) && ForeignRelease(s, s', t, p, fence, k)
    ensures Inv(s') <==> !InUse(s, p)
    ensures InUse(s, p) ==> !OnePlace(s', p)
  {
    RefusesUnused(s, p);
    if InUse(s, p) {
      var place :| At(s, p, place) && Client(s, place);
      var order := s.pool.order + [p];
      assert order[|s.pool.order|] == p;
      assert At(s', p, place);
      if p in Victims(order, k) {
        assert At(s', p, InThread(t));
      } else {
        assert At(s', p, Pooled);
      }
      assert !OnePlace(s', p);
    }
  }

  /** Thread 0 acquires buffer 1 and gives it back, then thread 1 acquires it. */
  ghost function RecycledState(i: nat): System {
    var none, recorded := Pool(map[], map[], map[], [], 0, 1), Pool(map[], map[1 := 1], map[], [], 0, 1);
    match i
    case 0 => System(none, {}, map[], 1, {}, map[0 := Idle, 1 := Idle])
    case 1 => System(none, {}, map[], 1, {}, map[0 := Missed(1), 1 := Idle])
    case 2 => System(none, {1}, map[], 1, {}, map[0 := Got(1, 1), 1 := Idle])
    case 3 => System(recorded, {1}, map[], 1, {}, map[0 := Acquired(1, 1), 1 := Idle])
    case 4 => System(recorded, {1}, map[], 1, {1}, map[0 := Idle, 1 := Idle])
    case 5 => System(recorded, {1}, map[], 1, {}, map[0 := Releasing(1), 1 := Idle])
    case 6 => System(Pool(map[1 := [1]], map[1 := 1], map[1 := Entry(1, None)], [1], 1, 1), {1}, map[], 1, {},
                     map[0 := Idle, 1 := Idle])
    case _ => System(Pool(map[1 := [1]], map[1 := 1], map[], [], 0, 1), {1}, map[], 1, {},
                     map[0 := Idle, 1 := Acquired(1, 1)])
  }

  lemma RecycledFirst()
    ensures Initial(RecycledState(0))
    ensures Next(RecycledState(0), RecycledState(1), 0, AcquireMiss(1))
    ensures Next(RecycledState(1), RecycledState(2), 0, DriverAlloc(1))
    ensures Next(RecycledState(2), RecycledState(3), 0, RecordSize)
  {
  }

  lemma RecycledHeld()
    ensures Next(RecycledState(3), RecycledState(4), 0, HandOut)
    ensures Next(RecycledState(4), RecycledState(5), 0, GiveBack(1))
  {
  }

  lemma OnePooled()
    ensures var s, s' := RecycledState(5), RecycledState(6); Pools(s.pool, s'.pool, 1, None, 0) && Consistent(s'.pool)
  {
    var s, s' := RecycledState(5), RecycledState(6);
    assert Listed([1], {1}) && Bytes([1], s'.pool.entries) == 1;
    assert [] + [1] == s'.pool.freeLists[1];
    assert s.pool.freeLists[1 := [1]] == s'.pool.freeLists;
  }

  lemma RecycledPooled()
    ensures Next(RecycledState(5), RecycledState(6), 0, ReleaseLocked(None, 0))
  {
    OnePooled();
    hide Pools, Consistent;
    assert Victims([1], 0) == {};
  }

  lemma RecycledTaken()
    ensures Next(RecycledState(6), RecycledState(7), 1, AcquireHit(1, 1)) && InUse(RecycledState(7), 1)
  {
    assert RecycledState(6).pool.entries - {1} == map[];
    assert At(RecycledState(7), 1, InThread(1)) && Client(RecycledState(7), InThread(1));
  }

  /** A second release after recycling happens in some run: thread 0 has released buffer 1, is idle, and thread 1 has
      the buffer, so the pool would take it again. */
  lemma RecycledReleaseIsTaken() returns (r: Run)
    ensures IsRun(r) && |r.states| == 8
    ensures 0 in r.states[5].threads && r.states[5].threads[0] == Releasing(1)
    ensures r.threads[5] == 0 && r.steps[5].ReleaseLocked?
    ensures 0 in r.states[7].threads && r.states[7].threads[0].Idle? && InUse(r.states[7], 1)
  {
    RecycledFirst();
    RecycledHeld();
    RecycledPooled();
    RecycledTaken();
    hide Next, Initial, InUse;
    r := Run(seq(8, i requires 0 <= i < 8 => RecycledState(i)), [0, 0, 0, 0, 0, 0, 1],
             [AcquireMiss(1), DriverAlloc(1), RecordSize, HandOut, GiveBack(1), ReleaseLocked(None, 0), AcquireHit(1, 1)]);
  }

  /** An id once given out is given out only once: it is never that of a later handle. */
  lemma {:induction false} IdsOnlyGrow(r: Run, i: nat, j: nat)
    requires IsRun(r) && i <= j < |r.states|
    ensures r.states[i].nextId <= r.states[j].nextId
    decreases j
  {
    if i < j {
      IdsOnlyGrow(r, i, j - 1);
    }
  }

  /** A freed handle is never valid again, even when its address is handed out again. */
  lemma {:induction false} FreedStaysInvalid(r: Run, i: nat, j: nat, h: Handle)
    requires IsRun(r) && i < j < |r.states| && r.steps[i] == FreeHandle(h)
    ensures h.id < r.states[j].nextId && h.id !in r.states[j].live && !IsValid(r.states[j], h)
    decreases j
  {
    if j == i + 1 {
      ReachableInv(r, i);
    } else {
      FreedStaysInvalid(r, i, j - 1, h);
    }
  }

  /** The handle a thread gets for the buffer it registers. */
  function GivenHandle(s: System, t: Thread): Handle
    requires t in s.threads && s.threads[t].Acquired?
  {
    Handle(s.threads[t].p, s.threads[t].size, s.nextId)
  }

  lemma {:induction false} IdKeepsBuffer(r: Run, i: nat, j: nat, h: Handle)
    requires IsRun(r) && i <= j < |r.states| && IsValid(r.states[i], h)
    ensures h.id < r.states[j].nextId && (h.id in r.states[j].live ==> IsValid(r.states[j], h))
    decreases j
  {
    if j == i {
      ReachableInv(r, i);
    } else {
      IdKeepsBuffer(r, i, j - 1, h);
    }
  }

  /** Through a handle as it was given out, a transfer that passes at any later time stays inside the buffer. */
  lemma GivenHandlesFit(r: Run, i: nat, j: nat, bytes: nat)
    requires IsRun(r) && i < j < |r.states| && r.steps[i] == RegisterHandle
    ensures r.threads[i] in r.states[i].threads && r.states[i].threads[r.threads[i]].Acquired?
    ensures var h := GivenHandle(r.states[i], r.threads[i]);
            Passes(r.states[j].live, h, bytes) ==> Fits(r.states[j].live, h, bytes)
  {
    assert Next(r.states[i], r.states[i + 1], r.threads[i], r.steps[i]);
    IdKeepsBuffer(r, i + 1, j, GivenHandle(r.states[i], r.threads[i]));
  }

  /** Two valid handles to the same address are the same handle. */
  lemma ValidHandlesDiffer(r: Run, i: nat, a: Handle, b: Handle)
    requires IsRun(r) && i < |r.states| && IsValid(r.states[i], a) && IsValid(r.states[i], b) && a.p == b.p
    ensures a == b
  {
    Exclusive(r, i, a.p, Owned(a.id), Owned(b.id));
  }
}
