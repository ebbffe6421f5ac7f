/** What the operations of `QueueRun` do to the queue, in indices, byte counts and header fields. */
module QueueNumbers {
  import opened Bytes
  import opened EntryHeader
  import opened RingGeometry
  import opened RingIndex
  import opened RingRun
  import opened RingClients
  import opened Placement
  import opened EntryHashMap
  import opened MemoryQueue
  import opened QueueRun

  /** An entry in the way of an allocation, and locked. */
  lemma LockedInNumbers(op: QueueOp, s: QueueState, i: nat)
    requires RingOk(s.m, s.r) && op.AllocateOp? && i < |Live(s.r)|
    ensures Live(s.r)[i].End() <= |s.m|
    ensures Locked(s.m, Live(s.r)[i]) <==> HeaderAt(s.m, Live(s.r)[i].offset).locks != 0
    ensures var total, write, read := (16 + op.keySize + op.valueSize) % 0x1_0000_0000, s.r.write, s.r.read;
            Doomed(s.r, Total(op.keySize, op.valueSize), i) <==>
              if write + total + 16 < s.r.capacity then write <= read <= Live(s.r)[i].offset <= write + total + 16
              else (write < read && read <= Live(s.r)[i].offset) || Live(s.r)[i].offset <= total + 16
  {
    hide Shape, Doomed, HeaderAt;
    LiveWithin(s.m, s.r, i);
    InTheWay(s.r, Total(op.keySize, op.valueSize), i);
  }

  /** Which entries an allocation reclaims, in indices and byte counts: those that begin, with all older
      ones, not beyond one header behind the new entry, or before the marker it leaves behind, and are
      unlocked. */
  lemma LosesInNumbers(op: QueueOp, s: QueueState, i: nat)
    requires RingOk(s.m, s.r) && op.AllocateOp? && i < |Live(s.r)|
    ensures var total, write, read := (16 + op.keySize + op.valueSize) % 0x1_0000_0000, s.r.write, s.r.read;
            Loses(op, s, i) <==> total <= s.r.capacity && forall j: nat :: j <= i ==>
              && HeaderAt(s.m, Live(s.r)[j].offset).locks == 0
              && if write + total + 16 < s.r.capacity then write <= read <= Live(s.r)[j].offset <= write + total + 16
                 else (write < read && read <= Live(s.r)[j].offset) || Live(s.r)[j].offset <= total + 16
  {
    hide RingOk, Doomed, HeaderAt;
    var total := Total(op.keySize, op.valueSize);
    forall j: nat | j < |Live(s.r)|
      ensures Live(s.r)[j].End() <= |s.m|
      ensures Locked(s.m, Live(s.r)[j]) <==> HeaderAt(s.m, Live(s.r)[j].offset).locks != 0
      ensures Doomed(s.r, total, j) <==>
                if s.r.write + total + 16 < s.r.capacity then
                  s.r.write <= s.r.read <= Live(s.r)[j].offset <= s.r.write + total + 16
                else (s.r.write < s.r.read && s.r.read <= Live(s.r)[j].offset) || Live(s.r)[j].offset <= total + 16
    {
      LockedInNumbers(op, s, j);
    }
    hide Locked;
    if total <= s.r.capacity && !Clears(s.m, s.r, total, i) {
      var j: nat :| j <= i && (!Doomed(s.r, total, j) || Locked(s.m, Live(s.r)[j]));
      assert Live(s.r)[j].End() <= |s.m|;
    }
  }

  /** Where an allocation puts its entry, and that only a locked entry in the way keeps it from doing so. */
  lemma EffectInNumbers(op: QueueOp, s: QueueState, s': QueueState, c: Change)
    requires RingOk(s.m, s.r) && op.AllocateOp? && Effect(op, s, s', c)
    ensures var total, k := (16 + op.keySize + op.valueSize) % 0x1_0000_0000, c.reclaimed;
            var write, read := s.r.write, s.r.read;
            && (total > s.r.capacity ==> c.added == [])
            && (total <= s.r.capacity ==>
                  (c.added == [] <==>
                     && k < |Live(s.r)| && HeaderAt(s.m, Live(s.r)[k].offset).locks != 0
                     && if write + total + 16 < s.r.capacity then
                          write <= read <= Live(s.r)[k].offset <= write + total + 16
                        else (write < read && read <= Live(s.r)[k].offset) || Live(s.r)[k].offset <= total + 16))
            && (c.added != [] ==>
                  c.added == [Block(if write + total + 16 >= s.r.capacity then 0 else write, op.keySize, op.valueSize)])
  {
    hide Shape, Doomed, HeaderAt, StepBy;
    var total, k := Total(op.keySize, op.valueSize), c.reclaimed;
    if k < |Live(s.r)| {
      LiveWithin(s.m, s.r, k);
      InTheWay(s.r, total, k);
      assert Locked(s.m, Live(s.r)[k]) <==> HeaderAt(s.m, Live(s.r)[k].offset).locks != 0;
    }
    hide RingOk, Locked;
    if 0 < k <= |Live(s.r)| {
      assert Loses(op, s, k - 1);
    }
  }

  /** When an allocation takes an entry out of the index: when it reclaims it, or is blocked by it. */
  lemma UnmapsInNumbers(op: QueueOp, s: QueueState, v: map<Key, EntryRef>, i: nat)
    requires RingOk(s.m, s.r) && op.AllocateOp? && i < |Live(s.r)|
    ensures var total, write, read := (16 + op.keySize + op.valueSize) % 0x1_0000_0000, s.r.write, s.r.read;
            Unmaps(op, s, v, i) <==> total <= s.r.capacity && forall j: nat :: j <= i ==>
              && (j < i ==> HeaderAt(s.m, Live(s.r)[j].offset).locks == 0)
              && if write + total + 16 < s.r.capacity then write <= read <= Live(s.r)[j].offset <= write + total + 16
                 else (write < read && read <= Live(s.r)[j].offset) || Live(s.r)[j].offset <= total + 16
  {
    forall j: nat | j < |Live(s.r)|
      ensures Live(s.r)[j].End() <= |s.m|
      ensures Locked(s.m, Live(s.r)[j]) <==> HeaderAt(s.m, Live(s.r)[j].offset).locks != 0
      ensures Doomed(s.r, Total(op.keySize, op.valueSize), j) <==>
                var total, write, read := (16 + op.keySize + op.valueSize) % 0x1_0000_0000, s.r.write, s.r.read;
                if write + total + 16 < s.r.capacity then write <= read <= Live(s.r)[j].offset <= write + total + 16
                else (write < read && read <= Live(s.r)[j].offset) || Live(s.r)[j].offset <= total + 16
    {
      LockedInNumbers(op, s, j);
    }
    hide RingOk, Doomed, Locked, HeaderAt;
  }

  /** What blocks an allocation is what it would otherwise take out of the index, and locked. */
  lemma BlockedInNumbers(op: QueueOp, s: QueueState, k: nat)
    requires RingOk(s.m, s.r) && op.AllocateOp? && k < |Live(s.r)|
    requires Total(op.keySize, op.valueSize) <= s.r.capacity
    ensures Live(s.r)[k].End() <= |s.m|
    ensures BlockedAt(s.m, s.r, Total(op.keySize, op.valueSize), k) <==>
              HeaderAt(s.m, Live(s.r)[k].offset).locks != 0 && Unmaps(op, s, map[], k)
  {
    hide Doomed, HeaderAt, RingOk;
    LockedInNumbers(op, s, k);
    hide Locked;
  }

  /** When an allocation loses the queue: nothing locked is in the way, and the sum of the sizes overflows
      32 bits, or leaves no 16 bytes behind the entry in an otherwise empty buffer. */
  lemma SpoilsInNumbers(op: QueueOp, s: QueueState)
    requires RingOk(s.m, s.r) && op.AllocateOp?
    ensures var total, write, read := (16 + op.keySize + op.valueSize) % 0x1_0000_0000, s.r.write, s.r.read;
            LosesQueue(op, s) <==>
              && total <= s.r.capacity
              && (16 + op.keySize + op.valueSize >= 0x1_0000_0000
                  || 16 + op.keySize + op.valueSize + 16 > s.r.capacity)
              && forall k: nat :: k < |Live(s.r)| && HeaderAt(s.m, Live(s.r)[k].offset).locks != 0 ==>
                   !Unmaps(op, s, map[], k)
  {
    hide RingOk, BlockedAt, HeaderAt, Unmaps;
    var total := Total(op.keySize, op.valueSize);
    if total <= s.r.capacity {
      forall k: nat | k < |Live(s.r)|
        ensures Live(s.r)[k].End() <= |s.m|
        ensures BlockedAt(s.m, s.r, total, k) <==>
                  HeaderAt(s.m, Live(s.r)[k].offset).locks != 0 && Unmaps(op, s, map[], k)
      {
        BlockedInNumbers(op, s, k);
      }
      BlockedLive(s.m, s.r, total);
    }
  }

  lemma BlockedLive(m: seq<byte>, r: Ring, total: nat)
    ensures forall k: nat :: BlockedAt(m, r, total, k) ==> k < |Live(r)|
  {
    hide Doomed, Locked;
  }

  /** A cleaning reclaims the oldest entry, if it is inactive or expired and unlocked; and loses the queue
      if, besides, that is the only entry and the bit behind it is set. */
  lemma CleanInNumbers(op: QueueOp, s: QueueState, i: nat)
    requires RingOk(s.m, s.r) && Room(s.r) && op.CleanOp? && i < |Live(s.r)|
    ensures var h := HeaderAt(s.m, Live(s.r)[0].offset);
            Loses(op, s, i) <==> i == 0 && (!h.active || h.expiry <= op.time) && h.locks == 0
    ensures s.r.write + 16 <= |s.m|
    ensures LosesQueue(op, s) <==>
              && Loses(op, s, 0) && |Live(s.r)| == 1 && s.r.read < s.r.write
              && HeaderAt(s.m, s.r.write).endOfBuffer
  {
    LiveWithin(s.m, s.r, 0);
    WrappedWhenAhead(s.r);
    LiveBounds(s.r, 0);
    hide HeaderAt;
  }

  /** Rewriting a header changes its 16 bytes. */
  lemma OneHeader(m: seq<byte>, at: nat, h: Header)
    requires at + 16 <= |m| && InRange(h)
    ensures var m' := WithHeader(m, at, h);
            |m'| == |m| && m'[..at] == m[..at] && m'[at + 16..] == m[at + 16..] && HeaderAt(m', at) == h
  {
    hide HeaderAt, WithHeader;
    HeaderWritten(m, at, h);
    BytesKept(m, at, h, 0, at);
    BytesKept(m, at, h, at + H, |m|);
  }

  /** Locking and unlocking change one lock count, up to 65535 and modulo 65536. */
  lemma LocksInNumbers(op: QueueOp, s: QueueState, v: map<Key, EntryRef>, m': seq<byte>, v': map<Key, EntryRef>)
    requires RingOk(s.m, s.r) && (op.LockOp? || op.UnlockOp?) && op.i < |Live(s.r)| && Touched(op, s, v, m', v')
    ensures var at := Live(s.r)[op.i].offset;
            && at + 16 <= |s.m| == |m'| && v' == v
            && m'[..at] == s.m[..at] && m'[at + 16..] == s.m[at + 16..]
            && var h := HeaderAt(s.m, at);
               HeaderAt(m', at) ==
                 if op.LockOp? then h.(locks := if h.locks == 65535 then 65535 else h.locks + 1)
                 else h.(locks := if h.locks == 0 then 65535 else h.locks - 1)
  {
    hide HeaderAt, WithHeader, RingOk, Live;
    var b := Live(s.r)[op.i];
    LiveWithin(s.m, s.r, op.i);
    HeaderInRange(s.m, b.offset);
    var h := HeaderAt(s.m, b.offset);
    OneHeader(s.m, b.offset, h.(locks := if op.LockOp? then Acquire(h.locks).0 else Release(h.locks).0));
  }

  /** Erasing a key takes out the entry with these bytes behind its header, and clears the active bit of the
      header the key led to. */
  lemma EraseInNumbers(op: QueueOp, s: QueueState, v: map<Key, EntryRef>, m': seq<byte>, v': map<Key, EntryRef>, i: nat)
    requires RingOk(s.m, s.r) && op.EraseOp? && i < |Live(s.r)| && Touched(op, s, v, m', v')
    ensures var b := Live(s.r)[i];
            && b.offset + 16 + b.keySize <= |s.m|
            && (Unmaps(op, s, v, i) <==> op.key == s.m[b.offset + 16..b.offset + 16 + b.keySize])
    ensures op.key !in v ==> m' == s.m && v' == v
    ensures op.key in v ==>
              v[op.key].InRing? && var at := v[op.key].offset;
              && at + 16 <= |s.m| == |m'| && v' == v - {op.key}
              && m'[..at] == s.m[..at] && m'[at + 16..] == s.m[at + 16..]
              && HeaderAt(m', at) == HeaderAt(s.m, at).(active := false)
  {
    hide HeaderAt, WithHeader, RingOk, Live, Recorded;
    LiveWithin(s.m, s.r, i);
    if op.key in v {
      var at := v[op.key].offset;
      HeaderInRange(s.m, at);
      OneHeader(s.m, at, HeaderAt(s.m, at).(active := false));
    } else {
      assert v - {op.key} == v;
    }
  }

  /** Publishing sets the active bit of the entry's header and puts the entry under the bytes behind it; the
      entry its key led to, if any, loses its active bit.  Only memory for the index can be missing. */
  lemma PublishInNumbers(op: QueueOp, s: QueueState, v: map<Key, EntryRef>, m': seq<byte>, v': map<Key, EntryRef>)
    requires RingOk(s.m, s.r) && op.PublishOp? && Ready(op, s, v) && Touched(op, s, v, m', v')
    ensures var b := Live(s.r)[op.i];
            var at := b.offset;
            && at + 16 + b.keySize <= |s.m| == |m'| && op.key == s.m[at + 16..at + 16 + b.keySize]
            && (v' == v[op.key := InRing(at, op.key)] || (v' == v && !op.memory.Granted()))
            && (op.key !in v || v' != v[op.key := InRing(at, op.key)] ==>
                  && m'[..at] == s.m[..at] && m'[at + 16..] == s.m[at + 16..]
                  && HeaderAt(m', at) == HeaderAt(s.m, at).(active := true))
            && (op.key in v && (v' != v || op.memory.Granted()) ==>
                  && v[op.key].InRing? && v[op.key].offset + 16 <= |m'|
                  && !HeaderAt(m', v[op.key].offset).active)
  {
    hide HeaderAt, WithHeader, RingOk, Live, Recorded;
    var b := Live(s.r)[op.i];
    LiveWithin(s.m, s.r, op.i);
    HeaderInRange(s.m, b.offset);
    var m1 := Activated(s.m, b);
    OneHeader(s.m, b.offset, HeaderAt(s.m, b.offset).(active := true));
    if op.key in v && Pointers(v, |s.m|) {
      var p := v[op.key].offset;
      HeaderInRange(m1, p);
      OneHeader(m1, p, HeaderAt(m1, p).(active := false));
    }
  }
}
