/** Handle-tracked device buffers on top of the pool. */
module DeviceBuffers {
  import opened DeviceHandles
  import opened MemoryPool
  import opened Options
  import opened PoolState

  datatype Refusal = ZeroSize | InvalidHandle | HandleMismatch | PoolRefused | TooLarge
  datatype Reply<T> = Done(value: T) | Refused(why: Refusal)

  /** Ids are below the next one; buffers are distinct, on record with their size, and not pooled. */
  ghost predicate Tracks(live: map<Id, Live>, nextId: Id, s: Pool) {
    && (forall id :: id in live ==> id < nextId && OutOfPool(live[id], s))
    && (forall a, b :: a in live && b in live && live[a].p == live[b].p ==> a == b)
  }

  ghost predicate OutOfPool(l: Live, s: Pool) {
    l.p in s.sizes && s.sizes[l.p] == l.size && l.p !in s.entries
  }

  lemma RegisterKeeps(live: map<Id, Live>, nextId: Id, s: Pool, s': Pool, p: Ptr, size: nat)
    requires Tracks(live, nextId, s) && OutOfPool(Live(p, size), s')
    requires forall q :: q in s.sizes && q !in s.entries ==> q != p && q in s'.sizes && s'.sizes[q] == s.sizes[q] && q !in s'.entries
    ensures Tracks(live[nextId := Live(p, size)], nextId + 1, s')
  {}

  class DeviceBufferManager {
    var live: map<Id, Live>
    var nextId: Id
    const pool: GpuMemoryPool

    ghost predicate Valid()
      reads this, pool
    {
      pool.Valid() && Tracks(live, nextId, pool.State())
    }

    constructor (pool: GpuMemoryPool)
      requires pool.Valid()
      ensures Valid() && live == map[] && nextId == 1 && this.pool == pool
    {
      live, nextId, this.pool := map[], 1, pool;
    }

    predicate IsValid(h: Handle)
      reads this
    {
      Names(live, h)
    }

    /** `newPtr` is what the driver would return: a pointer it has not allocated. */
    method Allocate(size: nat, newPtr: Ptr, pending: (Event, nat) -> bool, ghost horizon: nat)
      returns (r: Reply<Handle>)
      requires Valid() && newPtr !in pool.allocationSizes
      requires forall e, k :: k >= horizon ==> !pending(e, k)
      modifies this, pool
      ensures size == 0 ==> r == Refused(ZeroSize) && live == old(live) && pool.State() == old(pool.State())
      ensures size > 0 ==> Valid() && r.Done? && IsValid(r.value) && r.value.id == old(nextId) && r.value.size == size
      ensures size > 0 ==> live == old(live)[r.value.id := Live(r.value.p, size)] && nextId == old(nextId) + 1
      ensures size > 0 ==> forall h: Handle :: old(IsValid(h)) ==> IsValid(h) && h.p != r.value.p
      ensures size > 0 ==> (r.value.p == newPtr || (r.value.p in old(pool.pooledEntries) && r.value.p !in pool.pooledEntries))
    {
      if size == 0 {
        return Refused(ZeroSize);
      }
      var p := pool.Acquire(size, newPtr, pending, horizon);
      RegisterKeeps(live, nextId, old(pool.State()), pool.State(), p, size);
      r := Done(Handle(p, size, nextId));
      live, nextId := live[nextId := Live(p, size)], nextId + 1;
    }

    /** After the context is synchronised the buffer goes back to the pool without a fence. */
    method Free(h: Handle) returns (r: Reply<seq<Ptr>>)
      requires Valid()
      modifies this, pool
      ensures Valid() && nextId == old(nextId)
      ensures h.id !in old(live) ==> r == Refused(InvalidHandle)
      ensures h.id in old(live) && !old(IsValid(h)) ==> r == Refused(HandleMismatch)
      ensures !old(IsValid(h)) ==> live == old(live) && pool.State() == old(pool.State())
      ensures old(IsValid(h)) ==> r.Done? && live == old(live) - {h.id}
      ensures old(IsValid(h)) ==> Pools(old(pool.State()), pool.State(), h.p, None, |r.value|)
    {
      if h.id !in live {
        return Refused(InvalidHandle);
      }
      if live[h.id] != Live(h.p, h.size) {
        return Refused(HandleMismatch);
      }
      live := live - {h.id};
      ListedElements(pool.pooledOrder, pool.pooledEntries.Keys);
      ghost var order := pool.pooledOrder + [h.p];
      forall i | 0 <= i < |order|
        ensures order[i] == h.p || order[i] in pool.pooledEntries {
        assert i < |pool.pooledOrder| ==> order[i] in Elements(pool.pooledOrder);
      }
      var o := pool.ReleaseLocked(h.p, None);
      match o
      case Fail(_) => r := Refused(PoolRefused);
      case Ok(victims) => r := Done(victims);
    }

    /** The checks of an upload or download of `bytes` bytes: id and pointer against the live buffer, the size against
        the handle. What passes stays inside the buffer unless the handle claims more than the buffer has, which no
        handle given out here does. */
    method CheckTransfer(h: Handle, bytes: nat) returns (r: Reply<()>)
      requires Valid()
      ensures r.Done? <==> Passes(live, h, bytes)
      ensures h.id !in live ==> r == Refused(InvalidHandle)
      ensures IsValid(h) ==> (r.Done? <==> Fits(live, h, bytes))
      ensures r.Done? && !Fits(live, h, bytes) ==> h.size > live[h.id].size
    {
      if h.id !in live {
        return Refused(InvalidHandle);
      }
      if live[h.id].p != h.p {
        return Refused(HandleMismatch);
      }
      if bytes > h.size {
        return Refused(TooLarge);
      }
      r := Done(());
    }
  }
}
