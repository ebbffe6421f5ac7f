/** Where memory_queue_allocate puts an entry and what it evicts for it, in indices and byte counts. */
module Placement {
  import opened RingGeometry
  import opened RingIndex
  import opened RingRun

  /** The entries in the way: going on behind the write index, those of a wrapped ring that begin not
      beyond one header behind the new entry; going back to the front, all up to the marker, and
      then those. */
  lemma InTheWay(r: Ring, total: nat, i: nat)
    requires Shape(r) && i < |Live(r)|
    ensures var at := Live(r)[i].offset;
            Doomed(r, total, i) <==>
              if r.write + total + 16 < r.capacity then r.write <= r.read <= at <= r.write + total + 16
              else (r.write < r.read && r.read <= at) || at <= total + 16
  {
    WrappedWhenAhead(r);
    LiveBounds(r, i);
    if i < |r.older| {
      assert r.older != [];
    } else {
      assert Live(r)[i] == r.newer[i - |r.older|] && Live(r)[i].offset < r.write;
    }
  }

  /** Room for the entry and a marker behind the write index: nothing is in the way. */
  lemma RoomAhead(r: Ring, total: nat)
    requires Shape(r) && r.write + total + 16 < r.capacity
    requires r.read < r.write || Live(r) == [] || r.write + total + 16 < r.read
    ensures forall i: nat :: i < |Live(r)| ==> !Doomed(r, total, i)
  {
    forall i: nat | i < |Live(r)| ensures !Doomed(r, total, i) {
      InTheWay(r, total, i);
    }
  }
}
