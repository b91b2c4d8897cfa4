/** Idle streams kept for the next plan: at most eight, each once. */
module StreamPool {
  type Stream = nat

  const MAX_POOLED := 8

  datatype Release = Kept | Destroyed | DoubleDestroy

  /** The list and the set hold the same streams, none twice. */
  ghost predicate Agree(free: seq<Stream>, pooled: set<Stream>) {
    && (forall i, j :: 0 <= i < j < |free| ==> free[i] != free[j])
    && (forall s :: s in free <==> s in pooled)
  }

  lemma IsPooled(free: seq<Stream>, pooled: set<Stream>, i: nat)
    requires Agree(free, pooled) && i < |free|
    ensures free[i] in pooled
  {
    assert free[i] in free;
  }

  /** Nothing listed is stale, so the first stream looked at is taken. */
  lemma LastIsFirst(before: seq<Stream>, pooled: set<Stream>, free: seq<Stream>, s: Stream)
    requires Agree(before, pooled) && |free| <= |before| && free == before[..|free|]
    requires forall i :: |free| < i < |before| ==> before[i] !in pooled
    requires s in pooled ==> |free| < |before| && before[|free|] == s
    requires s !in pooled ==> free == [] && forall i :: 0 <= i < |before| ==> before[i] !in pooled
    ensures if s in pooled then before == free + [s] && Agree(free, pooled - {s}) else before == [] && pooled == {}
  {
    if s in pooled {
      if |free| + 1 < |before| {
        IsPooled(before, pooled, |free| + 1);
      }
      assert before == free + [s];
      assert forall i :: 0 <= i < |free| ==> before[i] == free[i];
    } else {
      if before != [] {
        IsPooled(before, pooled, 0);
      }
      assert forall x :: x in pooled ==> x in before;
    }
  }

  class GpuStreamPool {
    var freeStreams: seq<Stream>
    var pooledStreams: set<Stream>

    ghost predicate Valid()
      reads this
    {
      Agree(freeStreams, pooledStreams) && |freeStreams| <= MAX_POOLED
    }

    constructor ()
      ensures Valid() && freeStreams == []
    {
      freeStreams, pooledStreams := [], {};
    }

    /** The stream released last, or the one the driver creates. Nobody else gets it while it is out. */
    method Acquire(created: Stream) returns (s: Stream)
      requires Valid() && created !in pooledStreams
      modifies this
      ensures Valid() && s !in pooledStreams && pooledStreams == old(pooledStreams) - {s}
      ensures if old(freeStreams) == [] then s == created && freeStreams == []
              else old(freeStreams) == freeStreams + [s]
    {
      hide Agree;
      while freeStreams != []
        invariant pooledStreams == old(pooledStreams) && |freeStreams| <= |old(freeStreams)|
        invariant freeStreams == old(freeStreams)[..|freeStreams|]
        invariant forall i :: |freeStreams| <= i < |old(freeStreams)| ==> old(freeStreams)[i] !in pooledStreams
        decreases |freeStreams|
      {
        s := freeStreams[|freeStreams| - 1];
        freeStreams := freeStreams[..|freeStreams| - 1];
        if s in pooledStreams {
          LastIsFirst(old(freeStreams), pooledStreams, freeStreams, s);
          pooledStreams := pooledStreams - {s};
          return;
        }
      }
      LastIsFirst(old(freeStreams), pooledStreams, freeStreams, created);
      s := created;
    }

    /** A stream that is pooled already is refused; a ninth one is destroyed instead of kept. */
    method GiveBack(s: Stream) returns (r: Release)
      requires Valid()
      modifies this
      ensures Valid()
      ensures r.DoubleDestroy? <==> s in old(pooledStreams)
      ensures r.Kept? <==> s !in old(pooledStreams) && |old(freeStreams)| < MAX_POOLED
      ensures freeStreams == if r.Kept? then old(freeStreams) + [s] else old(freeStreams)
    {
      if s in pooledStreams {
        return DoubleDestroy;
      }
      pooledStreams := pooledStreams + {s};
      if |freeStreams| < MAX_POOLED {
        freeStreams := freeStreams + [s];
        return Kept;
      }
      pooledStreams := pooledStreams - {s};
      return Destroyed;
    }
  }
}
