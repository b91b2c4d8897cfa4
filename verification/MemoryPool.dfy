/** The memory pool as the runtime runs it: searching, releasing, evicting. */
module MemoryPool {
  import opened Options
  import opened PoolState

  datatype Error = UnknownPointer | DoubleFree
  datatype Outcome<T> = Ok(value: T) | Fail(error: Error)

  class GpuMemoryPool {
    var freeLists: map<nat, seq<Ptr>>
    var allocationSizes: map<Ptr, nat>
    var pooledEntries: map<Ptr, Entry>
    var pooledOrder: seq<Ptr>
    var pooledBytes: nat
    const maxPooledBytes: nat

    ghost function State(): Pool
      reads this
    {
      Pool(freeLists, allocationSizes, pooledEntries, pooledOrder, pooledBytes, maxPooledBytes)
    }

    ghost predicate Valid()
      reads this
    {
      Consistent(State())
    }

    constructor (max: nat)
      ensures Valid() && State() == Pool(map[], map[], map[], [], 0, max)
    {
      freeLists, allocationSizes, pooledEntries, pooledOrder, pooledBytes := map[], map[], map[], [], 0;
      maxPooledBytes := max;
    }

    predicate IsValidPooledEntry(p: Ptr, expectedSize: nat)
      reads this
    {
      p in pooledEntries && pooledEntries[p].size == expectedSize
    }

    /** Entry k of a free list is the last that can be reused, and needs no waiting for. */
    ghost predicate Newest(list: seq<Ptr>, k: int, size: nat, pending: (Event, nat) -> bool)
      requires 0 <= k < |list|
      reads this
    {
      && IsValidPooledEntry(list[k], size) && (forall j :: k < j < |list| ==> !IsValidPooledEntry(list[j], size))
      && (pooledEntries[list[k]].fence.Some? ==> !pending(pooledEntries[list[k]].fence.value, 0))
    }

    /** The search loop of acquire: candidates come off the end of the free list; stale ones are
        dropped, pending ones go back to the front to be asked again. `pending(e, k)` is the k-th event
        query, and every event is done from query `horizon` on. */
    method Search(size: nat, pending: (Event, nat) -> bool, ghost horizon: nat)
      returns (found: Option<Ptr>, rest: seq<Ptr>, queries: nat)
      requires Findable(freeLists, pooledEntries)
      requires forall e, k :: k >= horizon ==> !pending(e, k)
      ensures found.Some? <==> exists p :: p in pooledEntries && pooledEntries[p].size == size
      ensures found.Some? ==> found.value in pooledEntries && pooledEntries[found.value].size == size
      ensures found.Some? && pooledEntries[found.value].fence.Some? ==>
                queries > 0 && !pending(pooledEntries[found.value].fence.value, queries - 1)
      ensures forall p :: p in pooledEntries && pooledEntries[p].size == size && found != Some(p) ==> p in rest
      ensures size !in freeLists || found.None? ==> rest == []
      ensures size in freeLists && found.Some? ==> |rest| < |freeLists[size]|
      ensures size in freeLists ==> forall k :: 0 <= k < |freeLists[size]| && Newest(freeLists[size], k, size, pending) ==>
                found == Some(freeLists[size][k]) && rest == freeLists[size][..k]
    {
      found, queries, rest := None, 0, if size in freeLists then freeLists[size] else [];
      while rest != []
        invariant forall p :: p in pooledEntries && pooledEntries[p].size == size ==> p in rest
        invariant size !in freeLists ==> rest == []
        invariant size in freeLists ==> |rest| <= |freeLists[size]|
        invariant queries == 0 && size in freeLists ==>
                    && rest == freeLists[size][..|rest|] && |rest| <= |freeLists[size]|
                    && forall j :: |rest| <= j < |freeLists[size]| ==> !IsValidPooledEntry(freeLists[size][j], size)
        invariant queries > 0 && size in freeLists ==>
                    forall k :: 0 <= k < |freeLists[size]| ==> !Newest(freeLists[size], k, size, pending)
        decreases if queries < horizon then horizon - queries else 0, |rest|
      {
        var candidate := rest[|rest| - 1];
        ghost var before := rest;
        rest := rest[..|rest| - 1];
        assert before == rest + [candidate];
        if IsValidPooledEntry(candidate, size) {
          var entry := pooledEntries[candidate];
          if entry.fence.Some? {
            queries := queries + 1;
            if pending(entry.fence.value, queries - 1) {
              rest := [candidate] + rest;
              continue;
            }
          }
          return Some(candidate), rest, queries;
        }
      }
    }

    /** The locked part of acquire: ends with a buffer if and only if one of the wanted size is pooled,
        however many stale or pending entries its free list holds. */
    method AcquireLocked(size: nat, pending: (Event, nat) -> bool, ghost horizon: nat)
      returns (found: Option<Ptr>, queries: nat)
      requires Valid()
      requires forall e, k :: k >= horizon ==> !pending(e, k)
      modifies this
      ensures Valid()
      ensures found.Some? <==> exists p :: p in old(pooledEntries) && old(pooledEntries)[p].size == size
      ensures found.None? ==> Misses(old(State()), State(), size)
      ensures found.Some? ==> Reuses(old(State()), State(), size, found.value)
      ensures size !in old(freeLists) ==> freeLists == old(freeLists) && found.None?
      ensures size in old(freeLists) ==>
                size in freeLists && freeLists == old(freeLists)[size := freeLists[size]]
                && if found.None? then freeLists[size] == [] else |freeLists[size]| < |old(freeLists)[size]|
      ensures size in old(freeLists) ==>
                forall k :: 0 <= k < |old(freeLists[size])| && old(Newest(freeLists[size], k, size, pending)) ==>
                  found == Some(old(freeLists[size])[k])
      ensures found.Some? && old(pooledEntries)[found.value].fence.Some? ==>
                queries > 0 && !pending(old(pooledEntries)[found.value].fence.value, queries - 1)
    {
      hide Newest;
      var rest;
      found, rest, queries := Search(size, pending, horizon);
      if size in freeLists {
        freeLists := freeLists[size := rest];
      }
      if found.Some? {
        Forget(old(State()), found.value, rest);
        pooledOrder, pooledEntries, pooledBytes :=
          Remove(pooledOrder, found.value), pooledEntries - {found.value}, pooledBytes - size;
      }
    }

    /** The locked part of release. */
    method ReleaseLocked(p: Ptr, fence: Option<Event>) returns (r: Outcome<seq<Ptr>>)
      requires Valid()
      modifies this
      ensures Valid()
      ensures p !in old(allocationSizes) ==> r == Fail(UnknownPointer) && State() == old(State())
      ensures p in old(allocationSizes) && p in old(pooledEntries) ==> r == Fail(DoubleFree) && State() == old(State())
      ensures p in old(allocationSizes) && p !in old(pooledEntries) ==>
                && r.Ok? && Pools(old(State()), State(), p, fence, |r.value|)
                && r.value == (old(pooledOrder) + [p])[..|r.value|]
    {
      hide ListsEntries, Listed, Findable, Bytes;
      if p !in allocationSizes {
        return Fail(UnknownPointer);
      }
      var size := allocationSizes[p];
      if p in pooledEntries {
        return Fail(DoubleFree);
      }
      AddEntry(State(), p, fence);
      freeLists, pooledOrder, pooledEntries, pooledBytes :=
        freeLists[size := (if size in freeLists then freeLists[size] else []) + [p]], pooledOrder + [p],
        pooledEntries[p := Entry(size, fence)], pooledBytes + size;
      var victims := Evict();
      return Ok(victims);
    }

    /** The second locked part of acquire, after the driver returned a new buffer. */
    method RecordAllocation(p: Ptr, size: nat)
      requires Valid() && p !in allocationSizes
      modifies this
      ensures Valid() && State() == old(State()).(sizes := old(allocationSizes)[p := size])
    {
      allocationSizes := allocationSizes[p := size];
    }

    /** acquire without interference: a pooled buffer of the size if there is one, otherwise the
        buffer `newPtr` the driver returns. */
    method Acquire(size: nat, newPtr: Ptr, pending: (Event, nat) -> bool, ghost horizon: nat) returns (p: Ptr)
      requires Valid() && newPtr !in allocationSizes
      requires forall e, k :: k >= horizon ==> !pending(e, k)
      modifies this
      ensures Valid() && p !in pooledEntries
      ensures allocationSizes == old(allocationSizes)[p := size] && pooledEntries == old(pooledEntries) - {p}
      ensures if exists q :: q in old(pooledEntries) && old(pooledEntries)[q].size == size
              then p in old(pooledEntries) && old(pooledEntries)[p].size == size else p == newPtr
    {
      var found, _ := AcquireLocked(size, pending, horizon);
      if found.Some? {
        return found.value;
      }
      RecordAllocation(newPtr, size);
      return newPtr;
    }

    /** Evict the least recently released while the cap is exceeded. */
    method Evict() returns (toFree: seq<Ptr>)
      requires Consistent(State().(cap := pooledBytes))
      modifies this
      ensures Valid()
      ensures Evicted(old(State()), State(), toFree)
    {
      toFree := [];
      while pooledBytes > maxPooledBytes && pooledOrder != []
        invariant Consistent(State().(cap := pooledBytes))
        invariant Evicted(old(State()), State(), toFree)
        decreases |pooledOrder|
      {
        var victim := pooledOrder[0];
        EvictOne(old(State()), State(), toFree);
        pooledOrder := pooledOrder[1..];
        if victim in pooledEntries {
          pooledEntries, pooledBytes, allocationSizes, toFree :=
            pooledEntries - {victim}, pooledBytes - pooledEntries[victim].size, allocationSizes - {victim},
            toFree + [victim];
        }
      }
    }
  }

  /** The least recently released buffers are gone, no more of them than the cap demands, and nothing else. */
  ghost predicate Evicted(s: Pool, s': Pool, toFree: seq<Ptr>) {
    var k := |toFree|;
    && k <= |s.order| && s'.order == s.order[k..] && toFree == s.order[..k]
    && s'.entries == s.entries - (set i | 0 <= i < k :: s.order[i])
    && s'.sizes == s.sizes - (set i | 0 <= i < k :: s.order[i])
    && (k > 0 ==> s.order[k - 1] in s.entries && s'.bytes + s.entries[s.order[k - 1]].size > s.cap)
    && s'.freeLists == s.freeLists && s'.cap == s.cap
  }

  lemma EvictOne(s0: Pool, s: Pool, toFree: seq<Ptr>)
    requires Consistent(s.(cap := s.bytes)) && s.order != [] && Evicted(s0, s, toFree)
    ensures var v := s.order[0];
            && v in s.entries && s.entries[v].size <= s.bytes
            && (var s' := Without(s, v, s.order[1..]);
                Consistent(s'.(cap := s'.bytes)) && (s.bytes > s.cap ==> Evicted(s0, s', toFree + [v])))
  {
    var v, k := s.order[0], |toFree|;
    assert Remove(s.order, v) == s.order[1..];
    TakeOut(s, v);
    assert s0.order[k] == v && s0.order[..k + 1] == s0.order[..k] + [v];
    assert (set i | 0 <= i < k + 1 :: s0.order[i]) == (set i | 0 <= i < k :: s0.order[i]) + {v};
  }

  /** The pool with buffer p evicted. */
  ghost function Without(s: Pool, p: Ptr, order: seq<Ptr>): Pool
    requires p in s.entries && s.entries[p].size <= s.bytes
  {
    s.(order := order, entries := s.entries - {p}, sizes := s.sizes - {p}, bytes := s.bytes - s.entries[p].size)
  }

  lemma TakeOut(s: Pool, p: Ptr)
    requires ListsEntries(s.order, s.entries) && s.bytes == Bytes(s.order, s.entries) && p in s.entries
    ensures s.entries[p].size <= s.bytes
    ensures ListsEntries(Remove(s.order, p), s.entries - {p})
    ensures s.bytes - s.entries[p].size == Bytes(Remove(s.order, p), s.entries - {p})
  {
    ListedRemove(s.order, s.entries.Keys, p);
    BytesWithout(s.order, s.entries.Keys, s.entries, p);
    assert (s.entries - {p}).Keys == s.entries.Keys - {p};
  }

  lemma AddEntry(s: Pool, p: Ptr, fence: Option<Event>)
    requires Consistent(s) && p in s.sizes && p !in s.entries
    ensures var size := s.sizes[p];
            var s' := s.(freeLists := s.freeLists[size := (if size in s.freeLists then s.freeLists[size] else []) + [p]],
                         order := s.order + [p], entries := s.entries[p := Entry(size, fence)], bytes := s.bytes + size);
            Consistent(s'.(cap := s'.bytes))
  {
    var e := Entry(s.sizes[p], fence);
    ListedElements(s.order, s.entries.Keys);
    assert p !in s.order by { assert p !in Elements(s.order); }
    ListedAppend(s.order, s.entries.Keys, p);
    assert s.entries[p := e].Keys == s.entries.Keys + {p};
    BytesAppend(s.order, s.entries, p, e);
  }

  /** Taking a buffer out keeps the pool consistent, whatever the rest of its free list. */
  lemma Forget(s: Pool, p: Ptr, list: seq<Ptr>)
    requires Consistent(s) && p in s.entries
    requires forall q :: q in s.entries && s.entries[q].size == s.entries[p].size && q != p ==> q in list
    ensures var size := s.entries[p].size;
            && size <= s.bytes
            && Consistent(s.(freeLists := s.freeLists[size := list], order := Remove(s.order, p),
                             entries := s.entries - {p}, bytes := s.bytes - size))
  {
    TakeOut(s, p);
  }
}
