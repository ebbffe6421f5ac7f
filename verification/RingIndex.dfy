/** The agreement between the ring and the index: which entries the index may point at,
    and how erasing a key or reclaiming an entry keeps the two in step. */
module RingIndex {
  import opened Bytes
  import opened EntryHeader
  import opened RingGeometry
  import opened EntryHashMap

  ghost predicate Active(m: seq<byte>, b: Block) {
    b.End() <= |m| && HeaderAt(m, b.offset).active
  }

  ghost predicate Locked(m: seq<byte>, b: Block) {
    b.End() <= |m| && HeaderAt(m, b.offset).locks != 0
  }

  /** The index points from k at entry b. */
  ghost predicate PointsAt(view: map<Key, EntryRef>, k: seq<byte>, b: Block) {
    |k| < U16 && k in view && view[k] == InRing(b.offset, k)
  }

  /** Key k leads to a live entry stored under k. */
  ghost predicate Leads(m: seq<byte>, live: seq<Block>, view: map<Key, EntryRef>, k: Key, i: nat) {
    i < |live| && PointsAt(view, k, live[i]) && live[i].End() <= |m| && KeyBytes(m, live[i]) == k
  }

  /** Every mapped key leads to a live entry under that key, which is active unless the key
      is `but`; and the keys of active entries are in play. */
  ghost predicate SoundBut(m: seq<byte>, live: seq<Block>, view: map<Key, EntryRef>, keys: iset<Key>, but: seq<byte>) {
    && (forall k: Key :: k in view ==>
          exists i: nat :: Leads(m, live, view, k, i) && (k != but ==> Active(m, live[i])))
    && (forall i: nat :: i < |live| && Active(m, live[i]) ==> KeyBytes(m, live[i]) in keys)
  }

  /** No mapped entry has been reclaimed: every mapped key leads to a live, active entry
      under that key. */
  ghost predicate Sound(m: seq<byte>, live: seq<Block>, view: map<Key, EntryRef>, keys: iset<Key>) {
    && (forall k: Key :: k in view ==> exists i: nat :: Leads(m, live, view, k, i) && Active(m, live[i]))
    && (forall i: nat :: i < |live| && Active(m, live[i]) ==> KeyBytes(m, live[i]) in keys)
  }

  /** Every active live entry is the one its key is mapped to. */
  ghost predicate Exact(m: seq<byte>, live: seq<Block>, view: map<Key, EntryRef>) {
    forall i: nat :: i < |live| && Active(m, live[i]) ==> PointsAt(view, KeyBytes(m, live[i]), live[i])
  }

  /** b's lock count, expiry, sizes and payload are as before, and it has not become active. */
  ghost predicate Kept(m: seq<byte>, m': seq<byte>, b: Block) {
    && b.End() <= |m| && b.End() <= |m'|
    && Header0(m', b).(active := false) == Header0(m, b).(active := false)
    && Payload(m', b) == Payload(m, b)
    && (Active(m', b) ==> Active(m, b))
  }

  lemma SameIsKept(m: seq<byte>, m': seq<byte>, b: Block)
    requires SameEntry(m, m', b)
    ensures Kept(m, m', b) && (Active(m', b) <==> Active(m, b)) && KeyBytes(m', b) == KeyBytes(m, b)
    ensures Locked(m', b) <==> Locked(m, b)
  {
    PayloadGivesKey(m, m', b);
    assert Header0(m', b).active == Header0(m, b).active && Header0(m', b).locks == Header0(m, b).locks;
  }

  lemma KeptTrans(m: seq<byte>, m1: seq<byte>, m2: seq<byte>, b: Block)
    requires Kept(m, m1, b) && Kept(m1, m2, b)
    ensures Kept(m, m2, b)
  {
  }

  lemma KeptLocks(m: seq<byte>, m': seq<byte>, b: Block)
    requires Kept(m, m', b)
    ensures Locked(m', b) <==> Locked(m, b)
    ensures KeyBytes(m', b) == KeyBytes(m, b)
  {
    PayloadGivesKey(m, m', b);
    assert Header0(m', b).(active := false).locks == Header0(m, b).(active := false).locks;
  }

  /** Sound pointers stay inside the buffer. */
  lemma SoundPointers(m: seq<byte>, live: seq<Block>, view: map<Key, EntryRef>, keys: iset<Key>, but: seq<byte>)
    requires SoundBut(m, live, view, keys, but)
    ensures Pointers(view, |m|)
  {
    forall k: Key | k in view ensures view[k].InRing? && view[k].offset + H <= |m| {
      var i: nat :| Leads(m, live, view, k, i) && (k != but ==> Active(m, live[i]));
    }
  }

  lemma SoundIsSoundBut(m: seq<byte>, live: seq<Block>, view: map<Key, EntryRef>, keys: iset<Key>, but: seq<byte>)
    requires Sound(m, live, view, keys)
    ensures SoundBut(m, live, view, keys, but)
  {
    forall k: Key | k in view
      ensures exists i: nat :: Leads(m, live, view, k, i) && (k != but ==> Active(m, live[i]))
    {
      var i: nat :| Leads(m, live, view, k, i) && Active(m, live[i]);
    }
  }

  /** Writes that leave every live entry as it is keep the agreement. */
  lemma SoundSame(m: seq<byte>, m': seq<byte>, live: seq<Block>, view: map<Key, EntryRef>, keys: iset<Key>)
    requires Sound(m, live, view, keys) && forall i: nat :: i < |live| ==> SameEntry(m, m', live[i])
    ensures Sound(m', live, view, keys)
    ensures Exact(m, live, view) ==> Exact(m', live, view)
  {
    hide HeaderAt, KeyBytes, Payload;
    forall i: nat | i < |live|
      ensures (Active(m', live[i]) <==> Active(m, live[i])) && KeyBytes(m', live[i]) == KeyBytes(m, live[i])
    {
      SameIsKept(m, m', live[i]);
    }
    forall k: Key | k in view ensures exists i: nat :: Leads(m', live, view, k, i) && Active(m', live[i]) {
      var i: nat :| Leads(m, live, view, k, i) && Active(m, live[i]);
      assert Leads(m', live, view, k, i) && Active(m', live[i]);
    }
  }

  lemma FindLead(m: seq<byte>, live: seq<Block>, view: map<Key, EntryRef>, keys: iset<Key>, but: seq<byte>, k: Key)
      returns (i: nat)
    requires SoundBut(m, live, view, keys, but) && k in view
    ensures Leads(m, live, view, k, i) && (k != but ==> Active(m, live[i]))
  {
    i :| Leads(m, live, view, k, i) && (k != but ==> Active(m, live[i]));
  }

  // ----- erasing a key -----

  /** Buffer and map after entry_hash_map_delete for key k. */
  ghost function ErasedMemory(m: seq<byte>, view: map<Key, EntryRef>, k: Key): (r: seq<byte>)
    requires Pointers(view, |m|)
    ensures |r| == |m|
  {
    if k in view then Deactivated(m, view[k].offset) else m
  }

  lemma EraseKeepsRing(m: seq<byte>, r: Ring, view: map<Key, EntryRef>, keys: iset<Key>, k: Key)
    requires RingOk(m, r) && SoundBut(m, Live(r), view, keys, k) && Pointers(view, |m|)
    ensures RingOk(ErasedMemory(m, view, k), r)
    ensures forall i: nat :: i < |Live(r)| ==> Kept(m, ErasedMemory(m, view, k), Live(r)[i])
    ensures forall i: nat :: i < |Live(r)| && !PointsAt(view, k, Live(r)[i]) ==>
              SameEntry(m, ErasedMemory(m, view, k), Live(r)[i])
    ensures forall i: nat :: i < |Live(r)| && PointsAt(view, k, Live(r)[i]) ==>
              !Active(ErasedMemory(m, view, k), Live(r)[i]) && KeyBytes(m, Live(r)[i]) == k
    ensures forall i: nat :: i < |Live(r)| ==>
              (Marked(ErasedMemory(m, view, k), Live(r)[i].offset) <==> Marked(m, Live(r)[i].offset))
  {
    hide HeaderAt, WithHeader, Tiles;
    var live, m' := Live(r), ErasedMemory(m, view, k);
    if k in view {
      var j := FindLead(m, live, view, keys, k, k);
      var h := HeaderAt(m, live[j].offset).(active := false);
      HeaderInRange(m, live[j].offset);
      assert Recorded(m, live[j]) && (j > 0 ==> !Marked(m, live[j].offset));
      assert m' == WithHeader(m, live[j].offset, h);
      TouchHeader(m, r, j, h);
      forall i: nat | i < |live| ensures Kept(m, m', live[i]) {
        if i != j {
          SameIsKept(m, m', live[i]);
        }
      }
      forall i: nat | i < |live|
        ensures PointsAt(view, k, live[i]) <==> i == j
        ensures Marked(m', live[i].offset) <==> Marked(m, live[i].offset)
      {
        if i != j {
          LiveApart(r, i, j);
          assert Recorded(m, live[i]);
          WriteApart(m, live[j].offset, h, live[i]);
        }
      }
    } else {
      forall i: nat | i < |live| ensures SameEntry(m, m', live[i]) && Kept(m, m', live[i]) {
        assert Recorded(m, live[i]);
        SameIsKept(m, m', live[i]);
      }
    }
  }

  /** Erasing a key keeps the agreement, and mends it for a key whose entry was inactive. */
  lemma EraseKeepsSound(m: seq<byte>, r: Ring, view: map<Key, EntryRef>, keys: iset<Key>, k: Key)
    requires RingOk(m, r) && SoundBut(m, Live(r), view, keys, k) && Pointers(view, |m|)
    ensures Sound(ErasedMemory(m, view, k), Live(r), view - {k}, keys)
    ensures Exact(m, Live(r), view) ==> Exact(ErasedMemory(m, view, k), Live(r), view - {k})
  {
    hide HeaderAt, KeyBytes, Payload, RingOk, ErasedMemory, Header0;
    var live, m' := Live(r), ErasedMemory(m, view, k);
    var view' := view - {k};
    EraseKeepsRing(m, r, view, keys, k);
    forall i: nat | i < |live|
      ensures KeyBytes(m', live[i]) == KeyBytes(m, live[i])
      ensures Active(m', live[i]) ==> Active(m, live[i]) && !PointsAt(view, k, live[i])
      ensures Active(m, live[i]) && !PointsAt(view, k, live[i]) ==> Active(m', live[i])
    {
      KeptLocks(m, m', live[i]);
      if !PointsAt(view, k, live[i]) {
        SameIsKept(m, m', live[i]);
      }
    }
    forall k': Key | k' in view' ensures exists i: nat :: Leads(m', live, view', k', i) && Active(m', live[i]) {
      var i: nat :| Leads(m, live, view, k', i) && (k' != k ==> Active(m, live[i]));
      assert !PointsAt(view, k, live[i]);
      assert Leads(m', live, view', k', i) && Active(m', live[i]);
    }
    if Exact(m, live, view) {
      forall i: nat | i < |live| && Active(m', live[i]) ensures PointsAt(view', KeyBytes(m', live[i]), live[i]) {
        assert PointsAt(view, KeyBytes(m, live[i]), live[i]);
      }
    }
  }

  /** Entries may be dropped from the live list once the index no longer leads to them. */
  lemma DropFirst(m: seq<byte>, live: seq<Block>, view: map<Key, EntryRef>, keys: iset<Key>)
    requires Sound(m, live, view, keys) && live != []
    requires Active(m, live[0]) ==> KeyBytes(m, live[0]) !in view
    ensures Sound(m, live[1..], view, keys)
    ensures Exact(m, live, view) ==> Exact(m, live[1..], view)
  {
    hide HeaderAt, KeyBytes;
    forall k: Key | k in view ensures exists i: nat :: Leads(m, live[1..], view, k, i) && Active(m, live[1..][i]) {
      var i: nat :| Leads(m, live, view, k, i) && Active(m, live[i]);
      assert i > 0;
      assert Leads(m, live[1..], view, k, i - 1) && Active(m, live[1..][i - 1]);
    }
  }

  /** A new inactive entry does not concern the index. */
  lemma AddInactive(m: seq<byte>, live: seq<Block>, view: map<Key, EntryRef>, keys: iset<Key>, b: Block)
    requires Sound(m, live, view, keys) && !Active(m, b)
    ensures Sound(m, live + [b], view, keys)
    ensures Exact(m, live, view) ==> Exact(m, live + [b], view)
  {
    hide HeaderAt, KeyBytes;
    forall k: Key | k in view ensures exists i: nat :: Leads(m, live + [b], view, k, i) && Active(m, (live + [b])[i]) {
      var i: nat :| Leads(m, live, view, k, i) && Active(m, live[i]);
      assert Leads(m, live + [b], view, k, i) && Active(m, (live + [b])[i]);
    }
  }

  // ----- reclaiming the oldest entry -----

  /** Memory and map once the index has forgotten the oldest entry, if it is active. */
  ghost function ForgetMemory(m: seq<byte>, r: Ring, view: map<Key, EntryRef>): (m': seq<byte>)
    requires Live(r) != [] && Pointers(view, |m|) && Live(r)[0].End() <= |m| && WellSized(Live(r)[0])
    ensures |m'| == |m|
  {
    if Active(m, Live(r)[0]) then ErasedMemory(m, view, KeyBytes(m, Live(r)[0])) else m
  }

  ghost function ForgetView(m: seq<byte>, r: Ring, view: map<Key, EntryRef>): map<Key, EntryRef>
    requires Live(r) != [] && Live(r)[0].End() <= |m| && WellSized(Live(r)[0])
  {
    if Active(m, Live(r)[0]) then view - {KeyBytes(m, Live(r)[0])} else view
  }

  lemma FirstFacts(m: seq<byte>, r: Ring, view: map<Key, EntryRef>, keys: iset<Key>)
    requires RingOk(m, r) && Live(r) != [] && Sound(m, Live(r), view, keys)
    ensures Live(r)[0].End() <= |m| && WellSized(Live(r)[0]) && Pointers(view, |m|)
  {
    assert Recorded(m, Live(r)[0]) && Live(r)[0] in Live(r);
    SoundIsSoundBut(m, Live(r), view, keys, []);
    SoundPointers(m, Live(r), view, keys, []);
  }

  /** Forgetting the oldest entry keeps everything else as it is. */
  lemma Forget(m: seq<byte>, r: Ring, view: map<Key, EntryRef>, keys: iset<Key>)
      returns (m': seq<byte>, view': map<Key, EntryRef>)
    requires RingOk(m, r) && Live(r) != [] && Sound(m, Live(r), view, keys)
    ensures Live(r)[0].End() <= |m| && WellSized(Live(r)[0]) && Pointers(view, |m|)
    ensures m' == ForgetMemory(m, r, view) && view' == ForgetView(m, r, view)
    ensures RingOk(m', r) && Sound(m', Live(r), view', keys)
    ensures Active(m', Live(r)[0]) ==> KeyBytes(m', Live(r)[0]) !in view'
    ensures Exact(m, Live(r), view) ==> Exact(m', Live(r), view')
    ensures forall i: nat :: i < |Live(r)| ==> Kept(m, m', Live(r)[i])
    ensures Exact(m, Live(r), view) ==>
              forall i: nat :: 0 < i < |Live(r)| && Active(m, Live(r)[i]) ==> Active(m', Live(r)[i])
    ensures r.older == [] && r.write + H <= |m| ==> (Marked(m', r.write) <==> Marked(m, r.write))
  {
    hide HeaderAt, KeyBytes, Payload, RingOk, Header0;
    var live := Live(r);
    FirstFacts(m, r, view, keys);
    m', view' := ForgetMemory(m, r, view), ForgetView(m, r, view);
    forall i: nat | i < |live| ensures live[i].End() <= |m| && SameEntry(m, m, live[i]) && Kept(m, m, live[i]) {
      LiveWithin(m, r, i);
      SameIsKept(m, m, live[i]);
    }
    if Active(m, live[0]) {
      var k := KeyBytes(m, live[0]);
      SoundIsSoundBut(m, live, view, keys, k);
      EraseKeepsRing(m, r, view, keys, k);
      EraseKeepsSound(m, r, view, keys, k);
      KeptLocks(m, m', live[0]);
      forall i: nat | 0 < i < |live| && Active(m, live[i]) && Exact(m, live, view) ensures Active(m', live[i]) {
        assert PointsAt(view, k, live[0]) && live[i].offset != live[0].offset by { FirstApart(m, r, i); }
        SameIsKept(m, m', live[i]);
      }
      if r.older == [] && r.write + H <= |m| && k in view {
        var j := FindLead(m, live, view, keys, k, k);
        FreeMarkKept(m, r, j);
      }
    }
  }

  lemma LiveWithin(m: seq<byte>, r: Ring, i: nat)
    requires RingOk(m, r) && i < |Live(r)|
    ensures Live(r)[i].End() <= |m| && WellSized(Live(r)[i])
  {
    assert Recorded(m, Live(r)[i]);
  }

  lemma FirstApart(m: seq<byte>, r: Ring, i: nat)
    requires RingOk(m, r) && 0 < i < |Live(r)|
    ensures Live(r)[i].offset != Live(r)[0].offset
  {
    LiveApart(r, 0, i);
  }

  lemma FreeMarkKept(m: seq<byte>, r: Ring, j: nat)
    requires RingOk(m, r) && r.older == [] && r.write + H <= |m| && j < |Live(r)|
    ensures Live(r)[j].End() <= |m|
    ensures Marked(Deactivated(m, Live(r)[j].offset), r.write) <==> Marked(m, r.write)
  {
    hide HeaderAt, WithHeader;
    LiveWithin(m, r, j);
    FreeApart(r, r.write + H, j);
    HeaderKept(m, Live(r)[j].offset, HeaderAt(m, Live(r)[j].offset).(active := false), r.write);
  }

  /** Entries from index `from` on that were active still are. */
  ghost predicate StillActive(m: seq<byte>, m': seq<byte>, live: seq<Block>, from: nat) {
    forall i: nat :: from <= i < |live| && Active(m, live[i]) ==> Active(m', live[i])
  }

  ghost predicate KeptFrom(m: seq<byte>, m': seq<byte>, live: seq<Block>, from: nat) {
    forall i: nat :: from <= i < |live| ==> Kept(m, m', live[i])
  }

  ghost predicate AllKept(m: seq<byte>, m': seq<byte>, live: seq<Block>) {
    forall i: nat :: i < |live| ==> Kept(m, m', live[i])
  }

  /** Deactivating the oldest entry leaves its own key to mend. */
  lemma FirstInactive(m: seq<byte>, m1: seq<byte>, live: seq<Block>, view: map<Key, EntryRef>, keys: iset<Key>)
    requires live != [] && live[0].End() <= |m| && Sound(m, live, view, keys) && !Active(m1, live[0])
    requires forall i: nat :: i < |live| ==>
               live[i].End() <= |m| == |m1| && KeyBytes(m1, live[i]) == KeyBytes(m, live[i])
    requires forall i: nat :: 0 < i < |live| ==> (Active(m1, live[i]) <==> Active(m, live[i]))
    ensures SoundBut(m1, live, view, keys, KeyBytes(m, live[0]))
    ensures Exact(m, live, view) ==> Exact(m1, live, view)
  {
    hide HeaderAt, Active, KeyBytes;
    forall k: Key | k in view
      ensures exists i: nat :: Leads(m1, live, view, k, i) && (k != KeyBytes(m, live[0]) ==> Active(m1, live[i]))
    {
      var i: nat :| Leads(m, live, view, k, i) && Active(m, live[i]);
      assert Leads(m1, live, view, k, i) && (k != KeyBytes(m, live[0]) ==> Active(m1, live[i]));
    }
  }

  /** Clearing the oldest entry's active bit leaves only its own key in want of mending. */
  lemma DeactivateFirst(m: seq<byte>, r: Ring, view: map<Key, EntryRef>, keys: iset<Key>)
    requires RingOk(m, r) && Live(r) != [] && Sound(m, Live(r), view, keys) && Active(m, Live(r)[0])
    ensures WellSized(Live(r)[0]) && Live(r)[0].End() <= |m|
    ensures var m1 := Deactivated(m, Live(r)[0].offset);
            && RingOk(m1, r) && SoundBut(m1, Live(r), view, keys, KeyBytes(m, Live(r)[0]))
            && AllKept(m, m1, Live(r)) && !Active(m1, Live(r)[0]) && StillActive(m, m1, Live(r), 1)
            && (Exact(m, Live(r), view) ==> Exact(m1, Live(r), view))
  {
    hide HeaderAt, WithHeader, KeyBytes, Tiles;
    var live := Live(r);
    LiveWithin(m, r, 0);
    var h := HeaderAt(m, live[0].offset).(active := false);
    HeaderInRange(m, live[0].offset);
    assert Recorded(m, live[0]);
    TouchHeader(m, r, 0, h);
    var m1 := Deactivated(m, live[0].offset);
    assert m1 == WithHeader(m, live[0].offset, h);
    forall i: nat | i < |live|
      ensures Kept(m, m1, live[i]) && KeyBytes(m1, live[i]) == KeyBytes(m, live[i])
      ensures i > 0 ==> (Active(m1, live[i]) <==> Active(m, live[i]))
    {
      LiveWithin(m, r, i);
      if i > 0 {
        SameIsKept(m, m1, live[i]);
      } else {
        PayloadGivesKey(m, m1, live[0]);
      }
    }
    hide Active, Kept, RingOk;
    FirstInactive(m, m1, live, view, keys);
  }

  /** What force_clean does to a locked oldest entry: it goes inactive and unmapped. */
  lemma RetireFirst(m: seq<byte>, r: Ring, view: map<Key, EntryRef>, keys: iset<Key>)
    requires RingOk(m, r) && Live(r) != [] && Sound(m, Live(r), view, keys) && Active(m, Live(r)[0])
    ensures WellSized(Live(r)[0]) && Live(r)[0].End() <= |m| && Pointers(view, |m|)
    ensures var k := KeyBytes(m, Live(r)[0]);
            var m1 := Deactivated(m, Live(r)[0].offset);
            var m2 := ErasedMemory(m1, view, k);
            && RingOk(m2, r) && Sound(m2, Live(r), view - {k}, keys)
            && AllKept(m, m2, Live(r)) && !Active(m2, Live(r)[0])
            && (Exact(m, Live(r), view) ==> Exact(m2, Live(r), view - {k}) && StillActive(m, m2, Live(r), 1))
            && KeyBytes(m1, Live(r)[0]) == k
  {
    hide HeaderAt, KeyBytes, Payload, RingOk, Header0, Deactivated, ErasedMemory, Sound, SoundBut;
    var live := Live(r);
    FirstFacts(m, r, view, keys);
    DeactivateFirst(m, r, view, keys);
    var k := KeyBytes(m, live[0]);
    var m1 := Deactivated(m, live[0].offset);
    var m2 := ErasedMemory(m1, view, k);
    EraseKeepsRing(m1, r, view, keys, k);
    EraseKeepsSound(m1, r, view, keys, k);
    KeptLocks(m, m1, live[0]);
    forall i: nat | i < |live| ensures Kept(m, m2, live[i]) {
      KeptTrans(m, m1, m2, live[i]);
    }
    if Exact(m, live, view) {
      forall i: nat | 1 <= i < |live| && Active(m, live[i]) ensures Active(m2, live[i]) {
        FirstApart(m, r, i);
        assert PointsAt(view, k, live[0]) && !PointsAt(view, k, live[i]);
        assert SameEntry(m1, m2, live[i]);
        SameIsKept(m1, m2, live[i]);
      }
    }
  }

  // ----- cleaning ahead of an allocation -----

  /** From (m0, r0) to (m, r) only the k oldest entries were reclaimed, none of them locked. */
  ghost predicate Cleaned(m0: seq<byte>, r0: Ring, m: seq<byte>, r: Ring, k: nat) {
    && k <= |Live(r0)| && Live(r) == Live(r0)[k..]
    && (forall i: nat :: i < k ==> !Locked(m0, Live(r0)[i]))
    && (forall i: nat :: k <= i < |Live(r0)| ==> Kept(m0, m, Live(r0)[i]))
  }

  lemma CleanedNone(m: seq<byte>, r: Ring)
    requires RingOk(m, r)
    ensures Cleaned(m, r, m, r, 0) && StillActive(m, m, Live(r), 0)
  {
    hide HeaderAt;
    forall i: nat | i < |Live(r)| ensures Kept(m, m, Live(r)[i]) {
      LiveWithin(m, r, i);
      SameIsKept(m, m, Live(r)[i]);
    }
  }

  /** One more step of force_clean, successful or not. */
  lemma CleanedStep(m0: seq<byte>, r0: Ring, m1: seq<byte>, r1: Ring, m2: seq<byte>, r2: Ring, k: nat)
    requires Cleaned(m0, r0, m1, r1, k) && Live(r1) != [] && AllKept(m1, m2, Live(r1))
    requires Locked(m1, Live(r1)[0]) ==> r2 == r1
    requires !Locked(m1, Live(r1)[0]) ==> Live(r2) == Live(r1)[1..]
    ensures Locked(m0, Live(r0)[k]) <==> Locked(m1, Live(r1)[0])
    ensures Cleaned(m0, r0, m2, r2, if Locked(m1, Live(r1)[0]) then k else k + 1)
    ensures StillActive(m0, m1, Live(r0), k) && StillActive(m1, m2, Live(r1), 1) ==>
              StillActive(m0, m2, Live(r0), k + 1)
  {
    hide HeaderAt, Kept, Locked, Active;
    var live := Live(r0);
    assert Live(r1)[0] == live[k];
    KeptLocks(m0, m1, live[k]);
    forall i: nat | k <= i < |live| ensures Kept(m0, m2, live[i]) {
      assert Live(r1)[i - k] == live[i];
      KeptTrans(m0, m1, m2, live[i]);
    }
    if StillActive(m0, m1, live, k) && StillActive(m1, m2, Live(r1), 1) {
      forall i: nat | k + 1 <= i < |live| && Active(m0, live[i]) ensures Active(m2, live[i]) {
        assert Live(r1)[i - k] == live[i];
      }
    }
  }

  /** A write that leaves the remaining entries alone is no further cleaning. */
  lemma CleanedSame(m0: seq<byte>, r0: Ring, m1: seq<byte>, r1: Ring, m2: seq<byte>, r2: Ring, k: nat)
    requires Cleaned(m0, r0, m1, r1, k) && Live(r2) == Live(r1)
    requires forall i: nat :: i < |Live(r1)| ==> SameEntry(m1, m2, Live(r1)[i])
    ensures Cleaned(m0, r0, m2, r2, k)
    ensures StillActive(m0, m1, Live(r0), k) ==> StillActive(m0, m2, Live(r0), k)
  {
    hide HeaderAt, Kept, Locked, Active, SameEntry;
    var live := Live(r0);
    forall i: nat | k <= i < |live| ensures Kept(m0, m2, live[i]) && (Active(m2, live[i]) <==> Active(m1, live[i])) {
      assert Live(r1)[i - k] == live[i];
      SameIsKept(m1, m2, live[i]);
      KeptTrans(m0, m1, m2, live[i]);
    }
  }

  /** Two cleanings in a row. */
  lemma CleanedTrans(m0: seq<byte>, r0: Ring, m1: seq<byte>, r1: Ring, m2: seq<byte>, r2: Ring, k1: nat, k2: nat)
    requires Cleaned(m0, r0, m1, r1, k1) && Cleaned(m1, r1, m2, r2, k2)
    ensures Cleaned(m0, r0, m2, r2, k1 + k2)
    ensures forall from: nat ::
              from <= |Live(r1)| && StillActive(m0, m1, Live(r0), k1) && StillActive(m1, m2, Live(r1), from) ==>
                StillActive(m0, m2, Live(r0), k1 + from)
    ensures forall i: nat :: i < |Live(r1)| ==> (Locked(m0, Live(r0)[k1 + i]) <==> Locked(m1, Live(r1)[i]))
  {
    hide HeaderAt, Kept, Locked, Active;
    var live := Live(r0);
    forall i: nat | k1 <= i < |live|
      ensures Locked(m0, live[i]) <==> Locked(m1, live[i])
      ensures Live(r1)[i - k1] == live[i]
    {
      KeptLocks(m0, m1, live[i]);
    }
    forall i: nat | k1 + k2 <= i < |live| ensures Kept(m0, m2, live[i]) {
      assert Live(r1)[i - k1] == live[i];
      KeptTrans(m0, m1, m2, live[i]);
    }
    forall i: nat | i < k1 + k2 ensures !Locked(m0, live[i]) {
      if i >= k1 {
        assert Live(r1)[i - k1] == live[i];
      }
    }
    forall from: nat | from <= |Live(r1)| && StillActive(m0, m1, live, k1) && StillActive(m1, m2, Live(r1), from)
      ensures StillActive(m0, m2, live, k1 + from)
    {
      forall i: nat | k1 + from <= i < |live| && Active(m0, live[i]) ensures Active(m2, live[i]) {
        assert Live(r1)[i - k1] == live[i];
      }
    }
  }

  /** Cleaning so far, for an allocation that began in (m0, r0): k entries reclaimed, and if
      the index was exact, all from `from` on as active as before.  (The comparisons with
      true keep the parts whole for the verifier.) */
  ghost predicate Progress(m0: seq<byte>, r0: Ring, exact: bool, m: seq<byte>, r: Ring, k: nat, from: nat) {
    && k <= |Live(r0)| && Live(r) == Live(r0)[k..]
    && (forall i: nat :: i < k ==> !Locked(m0, Live(r0)[i]))
    && Cleaned(m0, r0, m, r, k) == true
    && (exact ==> StillActive(m0, m, Live(r0), from) == true)
  }

  lemma ProgressNone(m: seq<byte>, r: Ring, exact: bool)
    requires RingOk(m, r)
    ensures Progress(m, r, exact, m, r, 0, 0)
  {
    CleanedNone(m, r);
  }

  lemma ProgressIf(m0: seq<byte>, r0: Ring, was: bool, exact: bool, m: seq<byte>, r: Ring, k: nat, from: nat)
    requires Progress(m0, r0, was, m, r, k, from) == true && (exact ==> was)
    ensures Progress(m0, r0, exact, m, r, k, from) == true
  {
  }

  lemma ProgressStep(m0: seq<byte>, r0: Ring, exact: bool, m1: seq<byte>, r1: Ring, m2: seq<byte>, r2: Ring, k: nat,
      locked: bool)
    requires Progress(m0, r0, exact, m1, r1, k, k) && Live(r1) != [] && AllKept(m1, m2, Live(r1))
    requires exact ==> StillActive(m1, m2, Live(r1), 1)
    requires locked == Locked(m1, Live(r1)[0])
    requires if locked then r2 == r1 else Live(r2) == Live(r1)[1..]
    ensures Locked(m0, Live(r0)[k]) == locked
    ensures Progress(m0, r0, exact, m2, r2, if locked then k else k + 1, k + 1)
  {
    CleanedStep(m0, r0, m1, r1, m2, r2, k);
  }

  lemma ProgressSame(m0: seq<byte>, r0: Ring, exact: bool, m1: seq<byte>, r1: Ring, m2: seq<byte>, r2: Ring, k: nat)
    requires Progress(m0, r0, exact, m1, r1, k, k) && Live(r2) == Live(r1)
    requires forall i: nat :: i < |Live(r1)| ==> SameEntry(m1, m2, Live(r1)[i])
    ensures Progress(m0, r0, exact, m2, r2, k, k)
  {
    CleanedSame(m0, r0, m1, r1, m2, r2, k);
  }

  // ----- which entries an allocation has to evict -----

  ghost predicate NeedsWrap(r: Ring, total: nat) {
    r.write + total + H >= r.capacity
  }

  /** Entry i stands in the way of an allocation of `total` bytes: it begins inside, or not
      beyond one header after, the space to be written; before wrapping around, all entries
      up to the marker must also go. */
  ghost predicate Doomed(r: Ring, total: nat, i: nat)
    requires i < |Live(r)|
  {
    if NeedsWrap(r, total) then (i < |r.older| && r.write < r.read) || Live(r)[i].offset <= total + H
    else i < |r.older| && Live(r)[i].offset <= r.write + total + H
  }

  lemma WrappedWhenAhead(r: Ring)
    requires Shape(r)
    ensures r.write < r.read ==> r.older != []
    ensures r.write <= r.read && Live(r) != [] ==> r.older != []
    ensures r.older != [] && r.read <= r.write ==> r.newer == [] && r.write == 0 && r.read == 0
  {
    TilesBytes(r.newer, if r.older == [] then r.read else 0, r.write);
  }

  /** The state the second cleaning loop stops in. */
  ghost predicate RoomMade(r: Ring, limit: nat, r': Ring, k: nat) {
    && k <= |r.older| && r'.older == r.older[k..] && r'.newer == r.newer
    && (forall i: nat :: i < k ==> r.older[i].offset <= limit)
    && (r'.older != [] ==> limit < r'.read)
  }

  /** Making room evicts exactly the entries that begin at or below the limit. */
  lemma MadeExactly(r: Ring, limit: nat, r': Ring, k: nat, i: nat)
    requires Shape(r) && Shape(r') && RoomMade(r, limit, r', k) && i < |r.older|
    ensures i < k <==> r.older[i].offset <= limit
  {
    if i >= k {
      assert Live(r')[i - k] == r.older[i];
      LiveBounds(r', i - k);
    }
  }

  /** Evicting k entries is evicting exactly the doomed ones. */
  ghost predicate EvictsDoomed(r: Ring, total: nat, k: nat) {
    forall i: nat :: i < |Live(r)| ==> (i < k <==> Doomed(r, total, i))
  }

  /** Entry k is the first locked one among those in the way. */
  ghost predicate BlockedAt(m: seq<byte>, r: Ring, total: nat, k: nat) {
    && k < |Live(r)| && Doomed(r, total, k) && Locked(m, Live(r)[k])
    && forall i: nat :: i < k ==> Doomed(r, total, i) && !Locked(m, Live(r)[i])
  }

  /** No locked entry is in the way of an allocation of `total` bytes. */
  ghost predicate Free(m: seq<byte>, r: Ring, total: nat) {
    forall k: nat :: !BlockedAt(m, r, total, k)
  }

  /** An allocation of `total` bytes reclaims, of the entries in the way, those up to the first
      locked one. */
  ghost predicate Reclaims(m: seq<byte>, r: Ring, total: nat, k: nat) {
    && k <= |Live(r)|
    && forall i: nat :: i < |Live(r)| ==> (i < k <==> Clears(m, r, total, i))
  }

  /** Entry i and all older ones are in the way and unlocked. */
  ghost predicate Clears(m: seq<byte>, r: Ring, total: nat, i: nat)
    requires i < |Live(r)|
  {
    forall j: nat :: j <= i ==> Doomed(r, total, j) && !Locked(m, Live(r)[j])
  }

  /** The cleaning loops get to entry i: it is in the way, and so are all older ones, none of these
      locked. */
  ghost predicate Reaches(m: seq<byte>, r: Ring, total: nat, i: nat)
    requires i < |Live(r)|
  {
    Doomed(r, total, i) && forall j: nat :: j < i ==> Doomed(r, total, j) && !Locked(m, Live(r)[j])
  }

  lemma ReclaimsAll(m: seq<byte>, r: Ring, total: nat, k: nat)
    requires EvictsDoomed(r, total, k) && k <= |Live(r)| && forall i: nat :: i < k ==> !Locked(m, Live(r)[i])
    ensures Reclaims(m, r, total, k)
  {
    hide Doomed, Locked;
    forall i: nat | i < |Live(r)| ensures i < k <==> Clears(m, r, total, i) {
      assert i >= k ==> !Doomed(r, total, i);
    }
  }

  lemma ReclaimsSome(m: seq<byte>, r: Ring, total: nat, k: nat)
    requires BlockedAt(m, r, total, k)
    ensures Reclaims(m, r, total, k)
  {
    forall i: nat | i < |Live(r)|
      ensures i < k ==> Clears(m, r, total, i)
      ensures i >= k ==> !Clears(m, r, total, i)
    {
      assert i >= k ==> Locked(m, Live(r)[k]);
    }
  }

  /** How a ring r came to r2 on the way to an allocation, k1 entries later. */
  ghost predicate Positioned(r: Ring, total: nat, r1: Ring, r2: Ring, k1: nat) {
    if NeedsWrap(r, total) then
      && k1 == (if r.write < r.read then |r.older| else 0)
      && Shape(r1) && r2 == Wrapped(r1)
      && r1.older == r.older[k1..] && r1.newer == r.newer
      && (r1.older == [] || (r1.read == 0 && r1.write == 0))
    else r2 == r && k1 == 0
  }

  lemma WrapStart(r: Ring)
    requires Shape(r) && (r.older == [] || (r.read == 0 && r.write == 0))
    ensures Wrapped(r).write == 0 && Live(Wrapped(r)) == Live(r) && Wrapped(r).older == Live(r)
  {
    WrappedWhenAhead(r);
  }

  /** Which entries are doomed, in terms of the ring r2 the second cleaning loop starts from. */
  lemma PositionedAt(r: Ring, total: nat, r1: Ring, r2: Ring, k1: nat, i: nat)
    requires Positioned(r, total, r1, r2, k1) == true && i < |Live(r)|
    ensures if i < k1 then Doomed(r, total, i)
            else if i - k1 < |r2.older| then
              && r2.older[i - k1] == Live(r)[i]
              && (Doomed(r, total, i) <==> r2.older[i - k1].offset <= r2.write + total + H)
            else !Doomed(r, total, i)
  {
    if NeedsWrap(r, total) {
      WrapStart(r1);
      hide Shape;
      if i >= k1 {
        assert Live(r1)[i - k1] == Live(r)[i];
      }
    }
  }

  lemma DoomedSettled(r: Ring, total: nat, r1: Ring, r2: Ring, k1: nat, r': Ring, k2: nat)
    requires Shape(r2) && Shape(r') && Positioned(r, total, r1, r2, k1) == true
    requires RoomMade(r2, r2.write + total + H, r', k2) == true
    ensures EvictsDoomed(r, total, k1 + k2)
  {
    hide Shape, Doomed, Positioned, RoomMade;
    forall i: nat | i < |Live(r)| ensures i < k1 + k2 <==> Doomed(r, total, i) {
      PositionedAt(r, total, r1, r2, k1, i);
      MadeAtMost(r2, r2.write + total + H, r', k2);
      if 0 <= i - k1 < |r2.older| {
        MadeExactly(r2, r2.write + total + H, r', k2, i - k1);
      }
    }
  }

  lemma MadeAtMost(r: Ring, limit: nat, r': Ring, k: nat)
    requires RoomMade(r, limit, r', k) == true
    ensures k <= |r.older|
  {
  }

  lemma DoomedSoFar(m: seq<byte>, r: Ring, total: nat, r1: Ring, r2: Ring, k1: nat, k2: nat)
    requires Positioned(r, total, r1, r2, k1) == true && k2 < |r2.older|
    requires forall i: nat :: i <= k2 ==> r2.older[i].offset <= r2.write + total + H
    requires k1 + k2 < |Live(r)| && Locked(m, Live(r)[k1 + k2])
    requires forall i: nat :: i < k1 + k2 ==> !Locked(m, Live(r)[i])
    ensures BlockedAt(m, r, total, k1 + k2)
  {
    hide Doomed, Locked, Positioned;
    forall i: nat | i <= k1 + k2 ensures Doomed(r, total, i) {
      PositionedAt(r, total, r1, r2, k1, i);
    }
  }

  /** The second cleaning loop, from (m, r): room is made, or it has stopped at a locked entry. */
  ghost predicate RoomSought(m: seq<byte>, r: Ring, exact: bool, total: nat,
                             m': seq<byte>, r': Ring, k: nat, ok: bool)
  {
    var limit := r.write + total + H;
    && Progress(m, r, exact, m', r', k, if ok then k else k + 1)
    && if ok then RoomMade(r, limit, r', k)
       else
         && k < |r.older| && Locked(m, Live(r)[k])
         && forall i: nat :: i <= k ==> r.older[i].offset <= limit
  }

  /** Everything before the new entry is written, from (m, r). */
  ghost predicate Prepared(m: seq<byte>, r: Ring, exact: bool, total: nat,
                           m': seq<byte>, r': Ring, k: nat, ok: bool)
  {
    && Progress(m, r, exact, m', r', k, if ok then k else k + 1)
    && if ok then EvictsDoomed(r, total, k) && (r'.older != [] ==> r'.write + total + H < r'.read)
       else BlockedAt(m, r, total, k)
  }

  lemma PreparedIsFree(m: seq<byte>, r: Ring, exact: bool, total: nat, m': seq<byte>, r': Ring, k: nat)
    requires Prepared(m, r, exact, total, m', r', k, true) == true
    ensures Free(m, r, total) == true
  {
    hide Doomed, Locked, Cleaned, StillActive;
  }

  lemma ProgressOn(m0: seq<byte>, r0: Ring, exact: bool, m1: seq<byte>, r1: Ring, k1: nat,
                   m2: seq<byte>, r2: Ring, k2: nat, from: nat)
    requires Progress(m0, r0, exact, m1, r1, k1, k1) == true && Progress(m1, r1, exact, m2, r2, k2, from) == true
    requires from <= |Live(r1)|
    ensures Progress(m0, r0, exact, m2, r2, k1 + k2, k1 + from) == true
    ensures k1 + k2 <= |Live(r0)| && forall i: nat :: i < k1 + k2 ==> !Locked(m0, Live(r0)[i])
    ensures |Live(r1)| == |Live(r0)| - k1
    ensures k2 < |Live(r1)| ==> (Locked(m0, Live(r0)[k1 + k2]) <==> Locked(m1, Live(r1)[k2]))
  {
    hide Kept, Locked, StillActive, Live;
    CleanedTrans(m0, r0, m1, r1, m2, r2, k1, k2);
  }

  lemma RoomIsPrepared(
      m0: seq<byte>, r0: Ring, exact: bool, total: nat, r1: Ring, m2: seq<byte>, r2: Ring, k1: nat, was: bool,
      m: seq<byte>, r: Ring, k2: nat, ok: bool)
    requires Shape(r0) && Shape(r2) && Shape(r) && Positioned(r0, total, r1, r2, k1) == true && r.write == r2.write
    requires Progress(m0, r0, exact, m2, r2, k1, k1) == true && (exact ==> was)
    requires RoomSought(m2, r2, was, total, m, r, k2, ok) == true
    ensures Prepared(m0, r0, exact, total, m, r, k1 + k2, ok) == true
  {
    hide HeaderAt, Kept, Locked, Active, Shape, Positioned, Doomed, StillActive, Cleaned;
    var from := if ok then k2 else k2 + 1;
    ProgressIf(m2, r2, was, exact, m, r, k2, from);
    ProgressOn(m0, r0, exact, m2, r2, k1, m, r, k2, from);
    if ok {
      RoomFound(r0, total, r1, r2, k1, r, k2);
    } else {
      RoomBlocked(m0, r0, total, r1, r2, k1, k2);
    }
  }

  lemma RoomFound(r0: Ring, total: nat, r1: Ring, r2: Ring, k1: nat, r: Ring, k2: nat)
    requires Shape(r0) && Shape(r2) && Shape(r) && Positioned(r0, total, r1, r2, k1) == true
    requires RoomMade(r2, r2.write + total + H, r, k2) == true
    ensures EvictsDoomed(r0, total, k1 + k2) == true
  {
    DoomedSettled(r0, total, r1, r2, k1, r, k2);
  }

  lemma RoomBlocked(m0: seq<byte>, r0: Ring, total: nat, r1: Ring, r2: Ring, k1: nat, k2: nat)
    requires Shape(r0) && Positioned(r0, total, r1, r2, k1) == true && k2 < |r2.older|
    requires k1 + k2 < |Live(r0)| && Locked(m0, Live(r0)[k1 + k2])
    requires forall i: nat :: i < k1 + k2 ==> !Locked(m0, Live(r0)[i])
    requires forall i: nat :: i <= k2 ==> r2.older[i].offset <= r2.write + total + H
    ensures BlockedAt(m0, r0, total, k1 + k2) == true
  {
    DoomedSoFar(m0, r0, total, r1, r2, k1, k2);
  }

  /** Wrapping around keeps ring and agreement. */
  lemma WrapConsistent(m: seq<byte>, r: Ring, view: map<Key, EntryRef>, keys: iset<Key>)
    requires RingOk(m, r) && r.write + H <= r.capacity && Sound(m, Live(r), view, keys)
    requires r.older == [] || (r.read == 0 && r.write == 0)
    ensures RingOk(MarkAt(m, r.write), Wrapped(r)) && Live(Wrapped(r)) == Live(r) && Room(Wrapped(r))
    ensures Sound(MarkAt(m, r.write), Live(r), view, keys)
    ensures Exact(m, Live(r), view) ==> Exact(MarkAt(m, r.write), Live(r), view)
    ensures Wrapped(r).read == if r.read == r.write then 0 else r.read
    ensures forall i: nat :: i < |Live(r)| ==> SameEntry(m, MarkAt(m, r.write), Live(r)[i])
  {
    hide HeaderAt, SameEntry;
    WrapKeeps(m, r);
    SoundSame(m, MarkAt(m, r.write), Live(r), view, keys);
  }
}
