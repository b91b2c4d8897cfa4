/** Handles to device buffers, and when a transfer through one stays inside its buffer. */
module DeviceHandles {
  import opened PoolState

  type Id = nat
  datatype Handle = Handle(p: Ptr, size: nat, id: Id)
  datatype Live = Live(p: Ptr, size: nat)

  /** The handle names a buffer that is owned through it now. */
  predicate Names(live: map<Id, Live>, h: Handle) {
    h.id in live && live[h.id] == Live(h.p, h.size)
  }

  /** What a transfer asks of a handle's id and pointer; the size in it is not compared. */
  predicate Reaches(live: map<Id, Live>, h: Handle) {
    h.id in live && live[h.id].p == h.p
  }

  /** An upload or download of so many bytes is let through. */
  predicate Passes(live: map<Id, Live>, h: Handle, bytes: nat) {
    Reaches(live, h) && bytes <= h.size
  }

  predicate Fits(live: map<Id, Live>, h: Handle, bytes: nat) {
    h.id in live && bytes <= live[h.id].size
  }

  /** Every transfer that passes stays inside the live buffer exactly when the handle reaches none or does not claim
      more than the buffer has. */
  lemma TransfersFitIff(live: map<Id, Live>, h: Handle)
    ensures (forall bytes: nat :: Passes(live, h, bytes) ==> Fits(live, h, bytes))
       <==> !Reaches(live, h) || h.size <= live[h.id].size
  {
    if Reaches(live, h) && h.size > live[h.id].size {
      assert Passes(live, h, h.size) && !Fits(live, h, h.size);
    }
  }

  /** A handle that claims 8 bytes of a buffer of 4: the transfer passes and runs past the end. */
  lemma OversizedHandlePasses()
    ensures var live, h := map[1 := Live(16, 4)], Handle(16, 8, 1);
            Passes(live, h, 8) && !Fits(live, h, 8) && !Names(live, h)
  {
  }
}
