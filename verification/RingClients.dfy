/** What the users of an entry do to the buffer and the index: filling the payload, setting
    the active bit, publishing under the key, and taking or giving back reader locks. */
module RingClients {
  import opened Bytes
  import opened EntryHeader
  import opened RingGeometry
  import opened RingIndex
  import opened RingRun
  import opened EntryHashMap

  /** The index holds every active live entry, entry `but` perhaps excepted. */
  ghost predicate ExactBut(m: seq<byte>, live: seq<Block>, view: map<Key, EntryRef>, but: int) {
    forall i: nat :: i < |live| && i != but && Active(m, live[i]) ==> PointsAt(view, KeyBytes(m, live[i]), live[i])
  }

  lemma SameStays(m: seq<byte>, m': seq<byte>, b: Block)
    requires Kept(m, m', b)
    ensures Stays(m, m', b)
  {
  }

  /** One operation that neither reclaims nor adds. */
  lemma QuietStep(m: seq<byte>, m': seq<byte>, r: Ring)
    requires forall i: nat :: i < |Live(r)| ==> Stays(m, m', Live(r)[i])
    ensures Quiet(QueueState(m, r), QueueState(m', r))
  {
    assert Live(r)[0..] + [] == Live(r);
  }

  /** Two quiet operations in a row, the first of which activates entry i and touches no other. */
  lemma QuietTwice(m: seq<byte>, m1: seq<byte>, m2: seq<byte>, r: Ring, i: nat)
    requires Quiet(QueueState(m, r), QueueState(m1, r)) && Quiet(QueueState(m1, r), QueueState(m2, r))
    requires i < |Live(r)| && Active(m1, Live(r)[i])
    requires forall j: nat :: j < |Live(r)| && j != i ==> SameEntry(m, m1, Live(r)[j])
    ensures Quiet(QueueState(m, r), QueueState(m2, r))
  {
    forall j: nat | j < |Live(r)| && Active(m, Live(r)[j]) ensures Active(m1, Live(r)[j]) {
      if j != i {
        SameIsKept(m, m1, Live(r)[j]);
      }
    }
    hide HeaderAt, Payload;
    assert Live(r)[0..] + [] == Live(r);
    forall i: nat | i < |Live(r)| ensures Stays(m, m2, Live(r)[i]) {
      assert Stays(m, m1, Live(r)[i]) && Stays(m1, m2, Live(r)[i]);
    }
  }

  // ----- header changes -----

  ghost function Rewritten(m: seq<byte>, b: Block, h: Header): (r: seq<byte>)
    requires b.End() <= |m|
    ensures |r| == |m|
  {
    WithHeader(m, b.offset, h)
  }

  /** Changing lock count or expiry, or setting the active bit on an entry whose key is in
      play, keeps the agreement. */
  lemma RewriteKeeps(m: seq<byte>, r: Ring, i: nat, h: Header, view: map<Key, EntryRef>, keys: iset<Key>)
    requires RingOk(m, r) && Sound(m, Live(r), view, keys) && i < |Live(r)| && InRange(h)
    requires Live(r)[i].End() <= |m|
    requires var h0 := HeaderAt(m, Live(r)[i].offset);
             && h.keySize == h0.keySize && h.valueSize == h0.valueSize && h.endOfBuffer == h0.endOfBuffer
             && (h0.active ==> h.active)
    requires h.active ==> KeyBytes(m, Live(r)[i]) in keys
    ensures var m' := Rewritten(m, Live(r)[i], h);
            && RingOk(m', r) && Sound(m', Live(r), view, keys)
            && HeaderAt(m', Live(r)[i].offset) == h && KeyBytes(m', Live(r)[i]) == KeyBytes(m, Live(r)[i])
            && (Exact(m, Live(r), view) ==> ExactBut(m', Live(r), view, i))
            && (Exact(m, Live(r), view) && (h.active ==> Active(m, Live(r)[i])) ==> Exact(m', Live(r), view))
            && Quiet(QueueState(m, r), QueueState(m', r))
    ensures forall j: nat :: j < |Live(r)| && j != i ==> SameEntry(m, Rewritten(m, Live(r)[i], h), Live(r)[j])
  {
    hide HeaderAt, WithHeader, KeyBytes, Tiles, Payload;
    var live := Live(r);
    var m' := Rewritten(m, live[i], h);
    assert Recorded(m, live[i]) && (i > 0 ==> !Marked(m, live[i].offset));
    TouchHeader(m, r, i, h);
    forall j: nat | j < |live|
      ensures KeyBytes(m', live[j]) == KeyBytes(m, live[j]) && Stays(m, m', live[j])
      ensures j != i ==> (Active(m', live[j]) <==> Active(m, live[j]))
    {
      LiveWithin(m, r, j);
      if j != i {
        SameIsKept(m, m', live[j]);
      } else {
        PayloadGivesKey(m, m', live[i]);
      }
    }
    assert Active(m', live[i]) <==> h.active;
    forall k: Key | k in view ensures exists j: nat :: Leads(m', live, view, k, j) && Active(m', live[j]) {
      var j: nat :| Leads(m, live, view, k, j) && Active(m, live[j]);
      assert Leads(m', live, view, k, j) && Active(m', live[j]);
    }
    QuietStep(m, m', r);
  }

  // ----- filling the payload -----

  /** A write inside one entry's payload reaches no other entry, no header and no marker. */
  lemma FillRing(m: seq<byte>, r: Ring, i: nat, pos: nat, data: seq<byte>)
    requires RingOk(m, r) && i < |Live(r)| && H <= pos && pos + |data| <= Live(r)[i].Size()
    ensures Live(r)[i].End() <= |m|
    ensures RingOk(Splice(m, Live(r)[i].offset + pos, data), r)
    ensures forall j: nat :: j < |Live(r)| ==>
              Live(r)[j].End() <= |m|
              && HeaderAt(Splice(m, Live(r)[i].offset + pos, data), Live(r)[j].offset) == HeaderAt(m, Live(r)[j].offset)
    ensures forall j: nat :: j < |Live(r)| && j != i ==>
              SameEntry(m, Splice(m, Live(r)[i].offset + pos, data), Live(r)[j])
  {
    hide HeaderAt, Tiles, Splice, Payload;
    LiveWithin(m, r, i);
    var live, at := Live(r), Live(r)[i].offset + pos;
    var m' := Splice(m, at, data);
    forall j: nat | j < |live|
      ensures Recorded(m, live[j]) && HeaderAt(m', live[j].offset) == HeaderAt(m, live[j].offset)
      ensures j != i ==> Payload(m', live[j]) == Payload(m, live[j])
    {
      LiveWithin(m, r, j);
      assert Recorded(m, live[j]);
      if j != i {
        LiveApart(r, i, j);
        PayloadOutside(m, at, data, live[j]);
      }
      HeaderOutside(m, at, data, live[j].offset);
    }
    if r.older != [] {
      MarkApart(r, i);
      HeaderOutside(m, at, data, r.mark);
    }
  }

  lemma HeaderOutside(m: seq<byte>, at: nat, s: seq<byte>, other: nat)
    requires at + |s| <= |m| && other + H <= |m| && (other + H <= at || at + |s| <= other)
    ensures HeaderAt(Splice(m, at, s), other) == HeaderAt(m, other)
  {
    hide Unpack;
    SpliceOutside(m, at, s, other, other + H);
  }

  lemma PayloadOutside(m: seq<byte>, at: nat, s: seq<byte>, b: Block)
    requires at + |s| <= |m| && b.End() <= |m| && Apart(at, at + |s|, b)
    ensures Payload(Splice(m, at, s), b) == Payload(m, b)
  {
    SpliceOutside(m, at, s, b.offset + H, b.End());
  }

  /** Bytes received into the payload of an inactive entry that nobody reads keep ring and
      agreement. */
  lemma FillKeeps(m: seq<byte>, r: Ring, i: nat, pos: nat, data: seq<byte>, view: map<Key, EntryRef>, keys: iset<Key>)
    requires RingOk(m, r) && Sound(m, Live(r), view, keys) && i < |Live(r)|
    requires !Active(m, Live(r)[i]) && !Locked(m, Live(r)[i]) && H <= pos && pos + |data| <= Live(r)[i].Size()
    ensures Live(r)[i].End() <= |m|
    ensures var m' := Splice(m, Live(r)[i].offset + pos, data);
            && RingOk(m', r) && Sound(m', Live(r), view, keys)
            && (Exact(m, Live(r), view) ==> Exact(m', Live(r), view))
            && Quiet(QueueState(m, r), QueueState(m', r))
  {
    hide HeaderAt, Tiles, Splice, KeyBytes, RingOk, Payload;
    FillRing(m, r, i, pos, data);
    var live := Live(r);
    var m' := Splice(m, live[i].offset + pos, data);
    forall j: nat | j < |live|
      ensures (Active(m', live[j]) <==> Active(m, live[j])) && Stays(m, m', live[j])
      ensures Active(m, live[j]) ==> KeyBytes(m', live[j]) == KeyBytes(m, live[j])
    {
      if j != i {
        SameIsKept(m, m', live[j]);
      }
    }
    SoundByKeys(m, m', live, view, keys);
    QuietStep(m, m', r);
  }

  /** The agreement only depends on which entries are active, and on their keys. */
  lemma SoundByKeys(m: seq<byte>, m': seq<byte>, live: seq<Block>, view: map<Key, EntryRef>, keys: iset<Key>)
    requires Sound(m, live, view, keys)
    requires forall j: nat :: j < |live| ==> live[j].End() <= |m| && live[j].End() <= |m'|
    requires forall j: nat :: j < |live| ==> (Active(m', live[j]) <==> Active(m, live[j]))
    requires forall j: nat :: j < |live| && Active(m, live[j]) ==> KeyBytes(m', live[j]) == KeyBytes(m, live[j])
    ensures Sound(m', live, view, keys)
    ensures Exact(m, live, view) ==> Exact(m', live, view)
  {
    hide HeaderAt, KeyBytes;
    forall k: Key | k in view ensures exists j: nat :: Leads(m', live, view, k, j) && Active(m', live[j]) {
      var j: nat :| Leads(m, live, view, k, j) && Active(m, live[j]);
      assert Leads(m', live, view, k, j) && Active(m', live[j]);
    }
  }

  // ----- publishing -----

  ghost function Activated(m: seq<byte>, b: Block): (r: seq<byte>)
    requires b.End() <= |m|
    ensures |r| == |m|
  {
    WithHeader(m, b.offset, HeaderAt(m, b.offset).(active := true))
  }

  ghost function PutMemory(m: seq<byte>, view: map<Key, EntryRef>, k: Key): (r: seq<byte>)
    requires Pointers(view, |m|)
    ensures |r| == |m|
  {
    ErasedMemory(m, view, k)
  }

  /** Putting entry i under its key keeps the agreement exactly when the entry is active and
      is not the one already mapped: otherwise the index ends up with an inactive entry. */
  lemma PutKeeps(m: seq<byte>, r: Ring, i: nat, view: map<Key, EntryRef>, keys: iset<Key>)
    requires RingOk(m, r) && Sound(m, Live(r), view, keys) && i < |Live(r)|
    requires Live(r)[i].End() <= |m| && WellSized(Live(r)[i]) && Pointers(view, |m|)
    requires KeyBytes(m, Live(r)[i]) in keys
    ensures var k: Key := KeyBytes(m, Live(r)[i]);
            var m' := PutMemory(m, view, k);
            var view' := view[k := InRing(Live(r)[i].offset, k)];
            && RingOk(m', r) && Quiet(QueueState(m, r), QueueState(m', r))
            && (Sound(m', Live(r), view', keys) <==> Active(m, Live(r)[i]) && !PointsAt(view, k, Live(r)[i]))
            && (ExactBut(m, Live(r), view, i) ==> Exact(m', Live(r), view'))
            && AllKept(m, m', Live(r))
  {
    hide HeaderAt, KeyBytes, Payload, RingOk, ErasedMemory, Header0, Sound;
    var live := Live(r);
    var k: Key := KeyBytes(m, live[i]);
    var m' := PutMemory(m, view, k);
    var view' := view[k := InRing(live[i].offset, k)];
    SoundIsSoundBut(m, live, view, keys, k);
    EraseKeepsRing(m, r, view, keys, k);
    EraseKeepsSound(m, r, view, keys, k);
    forall j: nat | j < |live|
      ensures KeyBytes(m', live[j]) == KeyBytes(m, live[j]) && Stays(m, m', live[j])
      ensures Active(m', live[j]) ==> Active(m, live[j]) && !PointsAt(view, k, live[j])
      ensures Active(m, live[j]) && !PointsAt(view, k, live[j]) ==> Active(m', live[j])
      ensures j != i ==> live[j].offset != live[i].offset
    {
      LiveWithin(m, r, j);
      KeptLocks(m, m', live[j]);
      if !PointsAt(view, k, live[j]) {
        SameIsKept(m, m', live[j]);
      }
      if j != i {
        OffsetsDiffer(m, r, i, j);
      }
    }
    QuietStep(m, m', r);
    PutSound(m', live, i, k, view, view', keys);
  }

  lemma OffsetsDiffer(m: seq<byte>, r: Ring, i: nat, j: nat)
    requires RingOk(m, r) && i < |Live(r)| && j < |Live(r)| && i != j
    ensures Live(r)[i].offset != Live(r)[j].offset
  {
    LiveApart(r, i, j);
  }

  /** On a buffer in which nothing else answers to k, mapping k to entry i is sound exactly
      when the entry is active. */
  lemma PutSound(m: seq<byte>, live: seq<Block>, i: nat, k: Key, view: map<Key, EntryRef>, view': map<Key, EntryRef>,
      keys: iset<Key>)
    requires i < |live| && live[i].End() <= |m| && KeyBytes(m, live[i]) == k
    requires Sound(m, live, view - {k}, keys) && view' == view[k := InRing(live[i].offset, k)]
    requires forall j: nat :: j < |live| && j != i ==> live[j].offset != live[i].offset
    ensures Sound(m, live, view', keys) <==> Active(m, live[i])
  {
    hide HeaderAt, KeyBytes;
    assert k in view';
    if Active(m, live[i]) {
      forall k': Key | k' in view' ensures exists j: nat :: Leads(m, live, view', k', j) && Active(m, live[j]) {
        if k' == k {
          assert Leads(m, live, view', k, i);
        } else {
          assert k' in view - {k};
          var j: nat :| Leads(m, live, view - {k}, k', j) && Active(m, live[j]);
          assert Leads(m, live, view', k', j);
        }
      }
    }
  }

  /** An allocation is one step of a run. */
  lemma AllocationStep(m: seq<byte>, r: Ring, m': seq<byte>, r': Ring, k: nat, added: seq<Block>)
    requires k <= |Live(r)| && |added| <= 1 && Live(r') == Live(r)[k..] + added
    requires forall i: nat :: i < k ==> !Locked(m, Live(r)[i])
    requires forall i: nat :: k <= i < |Live(r)| ==> Kept(m, m', Live(r)[i])
    requires forall i: nat :: k <= i < |Live(r)| && added != [] ==> Apart(added[0].offset, added[0].End(), Live(r)[i])
    ensures StepBy(QueueState(m, r), QueueState(m', r'), k, added) == true
  {
    hide HeaderAt;
    forall i: nat | k <= i < |Live(r)| ensures Stays(m, m', Live(r)[i]) {
      SameStays(m, m', Live(r)[i]);
    }
  }
}
