/** The caching device allocator: free lists by size that may hold stale pointers, fences on
    pooled buffers, and eviction of the least recently released. */
module PoolState {
  import opened Options

  type Ptr = p: nat | p > 0 witness 1
  type Event = nat

  datatype Entry = Entry(size: nat, fence: Option<Event>)

  datatype Pool = Pool(freeLists: map<nat, seq<Ptr>>, sizes: map<Ptr, nat>, entries: map<Ptr, Entry>,
                       order: seq<Ptr>, bytes: nat, cap: nat)

  function SizeIn(entries: map<Ptr, Entry>, p: Ptr): nat {
    if p in entries then entries[p].size else 0
  }

  /** Bytes of the pooled buffers listed. */
  function Bytes(order: seq<Ptr>, entries: map<Ptr, Entry>): nat {
    if order == [] then 0 else SizeIn(entries, order[0]) + Bytes(order[1..], entries)
  }

  function Elements(s: seq<Ptr>): set<Ptr> { set p | p in s }

  /** The eviction order lists the pooled buffers once each. */
  ghost predicate ListsEntries(order: seq<Ptr>, entries: map<Ptr, Entry>) {
    Listed(order, entries.Keys)
  }

  ghost predicate Listed(order: seq<Ptr>, keys: set<Ptr>) {
    if order == [] then keys == {}
    else order[0] in keys && Listed(order[1..], keys - {order[0]})
  }

  /** Every pooled buffer can be found: it occurs in the free list of its size. The lists may hold
      more: pointers that are no longer pooled, duplicates, pointers since pooled with another size. */
  ghost predicate Findable(freeLists: map<nat, seq<Ptr>>, entries: map<Ptr, Entry>) {
    forall p :: p in entries ==> entries[p].size in freeLists && p in freeLists[entries[p].size]
  }

  /** Sizes are recorded for every pooled buffer. */
  ghost predicate Sized(sizes: map<Ptr, nat>, entries: map<Ptr, Entry>) {
    forall p :: p in entries ==> p in sizes && sizes[p] == entries[p].size
  }

  ghost predicate Consistent(s: Pool) {
    && ListsEntries(s.order, s.entries)
    && Findable(s.freeLists, s.entries)
    && Sized(s.sizes, s.entries)
    && s.bytes == Bytes(s.order, s.entries)
    && s.bytes <= s.cap
  }

  function Remove(s: seq<Ptr>, p: Ptr): (r: seq<Ptr>) {
    if s == [] then [] else if s[0] == p then s[1..] else [s[0]] + Remove(s[1..], p)
  }

  lemma {:induction false} ListedElements(order: seq<Ptr>, keys: set<Ptr>)
    requires Listed(order, keys)
    ensures Elements(order) == keys
    ensures forall i, j :: 0 <= i < j < |order| ==> order[i] != order[j]
  {
    if order != [] {
      ListedElements(order[1..], keys - {order[0]});
      assert order == [order[0]] + order[1..];
      assert Elements(order) == {order[0]} + Elements(order[1..]);
      forall i, j | 0 <= i < j < |order| ensures order[i] != order[j] {
        assert order[j] == order[1..][j - 1] && order[j] in Elements(order[1..]);
        if i > 0 { assert order[i] == order[1..][i - 1]; }
      }
    }
  }

  lemma {:induction false} ListedRemove(order: seq<Ptr>, keys: set<Ptr>, p: Ptr)
    requires Listed(order, keys) && p in keys
    ensures Listed(Remove(order, p), keys - {p})
  {
    if order[0] != p {
      ListedRemove(order[1..], keys - {order[0]}, p);
      assert keys - {order[0]} - {p} == keys - {p} - {order[0]};
    }
  }

  lemma {:induction false} ListedAppend(order: seq<Ptr>, keys: set<Ptr>, p: Ptr)
    requires Listed(order, keys) && p !in keys
    ensures Listed(order + [p], keys + {p})
  {
    if order == [] {
      assert ([p] + [])[1..] == [] && {p} - {p} == {};
      assert order + [p] == [p];
    } else {
      ListedAppend(order[1..], keys - {order[0]}, p);
      assert (order + [p])[1..] == order[1..] + [p];
      assert keys + {p} - {order[0]} == keys - {order[0]} + {p};
    }
  }

  lemma {:induction false} BytesDependOnListed(order: seq<Ptr>, a: map<Ptr, Entry>, b: map<Ptr, Entry>)
    requires forall p :: p in order ==> SizeIn(a, p) == SizeIn(b, p)
    ensures Bytes(order, a) == Bytes(order, b)
  {
    if order != [] {
      BytesDependOnListed(order[1..], a, b);
    }
  }

  /** Taking one listed buffer out of the entries takes its size off the bytes. */
  lemma {:induction false} BytesWithout(order: seq<Ptr>, keys: set<Ptr>, entries: map<Ptr, Entry>, p: Ptr)
    requires Listed(order, keys) && p in keys && p in entries
    ensures Bytes(order, entries) == Bytes(Remove(order, p), entries - {p}) + entries[p].size
  {
    if order[0] == p {
      ListedElements(order[1..], keys - {p});
      assert forall q :: q in order[1..] ==> q in Elements(order[1..]);
      BytesDependOnListed(order[1..], entries, entries - {p});
    } else {
      BytesWithout(order[1..], keys - {order[0]}, entries, p);
    }
  }

  lemma {:induction false} BytesAppend(order: seq<Ptr>, entries: map<Ptr, Entry>, p: Ptr, e: Entry)
    requires p !in order
    ensures Bytes(order + [p], entries[p := e]) == Bytes(order, entries) + e.size
  {
    if order == [] {
      assert order + [p] == [p] && [p][1..] == [];
    } else {
      BytesAppend(order[1..], entries, p, e);
      assert (order + [p])[1..] == order[1..] + [p];
    }
  }

  // ---- what each critical section does ------------------------------------

  /** acquire reuses the pooled buffer p of the wanted size. Free lists may change in stale and rotated
      entries only; everything else about the pool is as before, without p. */
  ghost predicate Reuses(s: Pool, s': Pool, size: nat, p: Ptr) {
    && p in s.entries && s.entries[p].size == size
    && s'.entries == s.entries - {p}
    && s'.order == Remove(s.order, p)
    && s'.bytes == s.bytes - size
    && s'.sizes == s.sizes && s'.cap == s.cap
  }

  /** acquire finds nothing: no buffer of the wanted size is pooled. */
  ghost predicate Misses(s: Pool, s': Pool, size: nat) {
    && (forall p :: p in s.entries ==> s.entries[p].size != size)
    && s' == s.(freeLists := s'.freeLists)
  }

  /** release pools p behind the others and then evicts the k least recently released, no more of
      them than the cap demands. */
  ghost predicate Pools(s: Pool, s': Pool, p: Ptr, fence: Option<Event>, k: nat) {
    var order := s.order + [p];
    && p in s.sizes && p !in s.entries && k <= |order|
    && s'.order == order[k..]
    && s'.entries == s.entries[p := Entry(s.sizes[p], fence)] - (set i | 0 <= i < k :: order[i])
    && s'.sizes == s.sizes - (set i | 0 <= i < k :: order[i])
    && s'.freeLists == s.freeLists[s.sizes[p] := (if s.sizes[p] in s.freeLists then s.freeLists[s.sizes[p]] else []) + [p]]
    && (k > 0 ==> order[k - 1] in s.sizes && s'.bytes + s.sizes[order[k - 1]] > s.cap)
    && s'.cap == s.cap
  }
}
