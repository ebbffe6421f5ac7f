/** Any sequence of operations on the queue and its index, as connections perform them: what each
    reclaims and adds, and when an entry survives them. */
module QueueRun {
  import opened Bytes
  import opened EntryHeader
  import opened RingGeometry
  import opened RingIndex
  import opened RingRun
  import opened RingClients
  import opened Crowding
  import opened HashMap
  import opened EntryHashMap
  import opened MemoryQueue

  /** Entries are named by their age among the live ones.  An operation whose entry does not
      exist, or is not in the state it needs, does nothing. */
  datatype QueueOp =
    | AllocateOp(keySize: nat, valueSize: nat, expiry: nat)
    | FillOp(i: nat, pos: nat, data: seq<byte>)
    | PublishOp(i: nat, key: Key, memory: Memory)
    | EraseOp(key: Key, memory: Memory)
    | LockOp(i: nat)
    | UnlockOp(i: nat)
    | CleanOp(time: nat)

  /** Sizes have 16 and 32 bits, and keys are in play. */
  ghost predicate Proper(op: QueueOp, keys: iset<Key>) {
    match op
    case AllocateOp(keySize, valueSize, _) => keySize < U16 && valueSize < U32
    case PublishOp(_, key, _) => key in keys
    case EraseOp(key, _) => key in keys
    case _ => true
  }

  /** Exactly when an operation loses the whole queue. */
  ghost predicate LosesQueue(op: QueueOp, s: QueueState) {
    match op
    case AllocateOp(keySize, valueSize, _) => Spoils(s.m, s.r, keySize, valueSize)
    case CleanOp(time) => StaleMark(s.m, s.r) && Expired(s.m, Live(s.r)[0], time) && !Locked(s.m, Live(s.r)[0])
    case _ => false
  }

  /** Exactly when an operation that keeps the queue reclaims the entry that is i-th oldest. */
  ghost predicate Loses(op: QueueOp, s: QueueState, i: int) {
    && 0 <= i < |Live(s.r)|
    && match op
       case AllocateOp(keySize, valueSize, _) =>
         var total := Total(keySize, valueSize); total <= s.r.capacity && Clears(s.m, s.r, total, i)
       case CleanOp(time) =>
         i == 0 && Expired(s.m, Live(s.r)[0], time) && !Locked(s.m, Live(s.r)[0])
       case _ => false
  }

  /** What an operation does to the live entries. */
  ghost predicate Effect(op: QueueOp, s: QueueState, s': QueueState, c: Change) {
    && StepBy(s, s', c.reclaimed, c.added)
    && (forall i: nat :: i < |Live(s.r)| ==> (i < c.reclaimed <==> Loses(op, s, i)))
    && match op
       case AllocateOp(keySize, valueSize, _) =>
         var total := Total(keySize, valueSize);
         if total > s.r.capacity || BlockedAt(s.m, s.r, total, c.reclaimed) then c.added == []
         else c.added == [Block(if NeedsWrap(s.r, total) then 0 else s.r.write, keySize, valueSize)]
       case _ => c.added == []
  }

  /** Where the entry a filling, publishing or locking operation names is, if the operation may
      go ahead. */
  ghost predicate Ready(op: QueueOp, s: QueueState, v: map<Key, EntryRef>) {
    && !op.AllocateOp? && !op.CleanOp? && !op.EraseOp?
    && op.i < |Live(s.r)| && Live(s.r)[op.i].End() <= |s.m|
    && var b := Live(s.r)[op.i];
       match op
       case FillOp(_, pos, data) => !Active(s.m, b) && !Locked(s.m, b) && H <= pos && pos + |data| <= b.Size()
       case PublishOp(_, key, _) => !Active(s.m, b) && KeyBytes(s.m, b) == key && |v| < 65535
       case _ => true
  }

  /** b's lock count after one reader more, or one less. */
  ghost function Relocked(m: seq<byte>, b: Block, more: bool): seq<byte>
    requires b.End() <= |m|
  {
    HeaderInRange(m, b.offset);
    var h := HeaderAt(m, b.offset);
    WithHeader(m, b.offset, h.(locks := if more then Acquire(h.locks).0 else Release(h.locks).0))
  }

  /** What filling, publishing, erasing, locking and unlocking do to the buffer and the index. */
  ghost predicate Touched(op: QueueOp, s: QueueState, v: map<Key, EntryRef>, m': seq<byte>, v': map<Key, EntryRef>) {
    match op
    case FillOp(i, pos, data) =>
      v' == v && m' == if Ready(op, s, v) then Splice(s.m, Live(s.r)[i].offset + pos, data) else s.m
    case PublishOp(i, key, memory) =>
      if Ready(op, s, v) then
        var b, m1 := Live(s.r)[i], Activated(s.m, Live(s.r)[i]);
        || (Pointers(v, |s.m|) && m' == PutMemory(m1, v, key) && v' == v[key := InRing(b.offset, key)])
        || (!memory.Granted() && m' == m1 && v' == v)
      else m' == s.m && v' == v
    case EraseOp(key, _) => Pointers(v, |s.m|) && m' == ErasedMemory(s.m, v, key) && v' == v - {key}
    case LockOp(i) => v' == v && m' == if Ready(op, s, v) then Relocked(s.m, Live(s.r)[i], true) else s.m
    case UnlockOp(i) => v' == v && m' == if Ready(op, s, v) then Relocked(s.m, Live(s.r)[i], false) else s.m
    case _ => true
  }

  /** Ring and index agree, and the index holds every active live entry. */
  ghost predicate Coherent(s: QueueState, v: map<Key, EntryRef>, keys: iset<Key>) {
    RingOk(s.m, s.r) && Sound(s.m, Live(s.r), v, keys) && Exact(s.m, Live(s.r), v)
  }

  /** Exactly when an operation takes the entry that is i-th oldest out of the index: an allocation
      gets to it, and reclaims it or, if it is locked, retires it; a cleaning reclaims it; its key is
      erased, or published for another entry. */
  ghost predicate Unmaps(op: QueueOp, s: QueueState, v: map<Key, EntryRef>, i: int) {
    && 0 <= i < |Live(s.r)| && Live(s.r)[i].End() <= |s.m|
    && match op
       case AllocateOp(keySize, valueSize, _) =>
         var total := Total(keySize, valueSize); total <= s.r.capacity && Reaches(s.m, s.r, total, i)
       case CleanOp(_) => Loses(op, s, i)
       case EraseOp(key, _) => key == KeyBytes(s.m, Live(s.r)[i])
       case PublishOp(_, key, _) => Ready(op, s, v) && key == KeyBytes(s.m, Live(s.r)[i])
       case _ => false
  }

  /** Of the active entries, the index keeps those the operation does not take out. */
  ghost predicate Retains(op: QueueOp, s: QueueState, v: map<Key, EntryRef>, v': map<Key, EntryRef>) {
    forall i: nat :: i < |Live(s.r)| && Active(s.m, Live(s.r)[i]) ==>
      (PointsAt(v', KeyBytes(s.m, Live(s.r)[i]), Live(s.r)[i]) <==> !Unmaps(op, s, v, i))
  }

  /** Where the index leads is a live, active entry. */
  lemma LedTo(m: seq<byte>, live: seq<Block>, v: map<Key, EntryRef>, keys: iset<Key>, key: seq<byte>, b: Block)
      returns (i: nat)
    requires Sound(m, live, v, keys) == true && PointsAt(v, key, b)
    ensures i < |live| && Active(m, live[i]) && live[i].offset == b.offset
  {
    hide Active, KeyBytes;
    i :| Leads(m, live, v, key, i) && Active(m, live[i]);
  }

  /** The index leads to an active entry under the key its payload has had before. */
  lemma StillLed(m: seq<byte>, m': seq<byte>, live': seq<Block>, v': map<Key, EntryRef>, b: Block, j: nat)
    requires j < |live'| && live'[j] == b && Exact(m', live', v') == true && Active(m', b)
    requires b.End() <= |m| && Payload(m', b) == Payload(m, b)
    ensures PointsAt(v', KeyBytes(m, b), b)
  {
    hide KeyBytes, PointsAt;
    PayloadGivesKey(m, m', b);
  }

  /** If the k oldest entries have been reclaimed, and those before `from` are not active any more,
      the index leads to exactly the others. */
  lemma RemovalUnmaps(s: QueueState, s': QueueState, v': map<Key, EntryRef>, keys: iset<Key>, k: nat, from: nat,
                      added: seq<Block>, i: nat)
    requires RingOk(s.m, s.r) == true && Sound(s'.m, Live(s'.r), v', keys) == true
    requires Exact(s'.m, Live(s'.r), v') == true
    requires k <= |Live(s.r)| && Live(s'.r) == Live(s.r)[k..] + added && k <= from <= k + 1
    requires KeptFrom(s.m, s'.m, Live(s.r), k) && StillActive(s.m, s'.m, Live(s.r), from)
    requires from == k + 1 ==> k < |Live(s.r)| && !Active(s'.m, Live(s.r)[k])
    requires forall b :: b in added ==> !Active(s'.m, b)
    requires i < |Live(s.r)| && Live(s.r)[i].End() <= |s.m| && Active(s.m, Live(s.r)[i])
    ensures PointsAt(v', KeyBytes(s.m, Live(s.r)[i]), Live(s.r)[i]) <==> i >= from
  {
    hide RingOk, Sound, Exact, Active, KeyBytes, PointsAt, Header0, Live;
    var b, live, live' := Live(s.r)[i], Live(s.r), Live(s'.r);
    if i >= from {
      assert live'[i - k] == b && Kept(s.m, s'.m, b);
      StillLed(s.m, s'.m, live', v', b, i - k);
    } else if PointsAt(v', KeyBytes(s.m, b), b) {
      hide KeptFrom, StillActive;
      var j := LedTo(s'.m, live', v', keys, KeyBytes(s.m, b), b);
      if k + j < |live| && k + j != i {
        OffsetsDiffer(s.m, s.r, k + j, i);
      }
    }
  }

  /** An operation that takes nothing out of the index and adds nothing. */
  lemma IdleRetains(op: QueueOp, s: QueueState, v: map<Key, EntryRef>, keys: iset<Key>)
    requires Coherent(s, v, keys) == true && forall i: nat :: i < |Live(s.r)| ==> !Unmaps(op, s, v, i)
    ensures Retains(op, s, v, v) == true
  {
    hide RingOk, Sound, Unmaps, Active, KeyBytes, PointsAt;
  }

  lemma AllocationRetains(op: QueueOp, s: QueueState, v: map<Key, EntryRef>, s': QueueState, v': map<Key, EntryRef>,
                          keys: iset<Key>, c: Change)
    requires op.AllocateOp? && Total(op.keySize, op.valueSize) <= s.r.capacity
    requires Coherent(s, v, keys) == true && Coherent(s', v', keys) == true
    requires Allocates(s, s', op.keySize, op.valueSize, c.reclaimed, c.added) == true
    requires Spared(s, s', c.reclaimed, c.added, true) == true
    ensures Retains(op, s, v, v') == true
  {
    hide RingOk, Sound, Exact, HeaderAt, KeyBytes, PointsAt, KeptFrom, StillActive, Reaches, Allocates, Live;
    var from := if c.added == [] then c.reclaimed + 1 else c.reclaimed;
    forall i: nat | i < |Live(s.r)| && Active(s.m, Live(s.r)[i])
      ensures PointsAt(v', KeyBytes(s.m, Live(s.r)[i]), Live(s.r)[i]) <==> !Unmaps(op, s, v, i)
    {
      AllocationReaches(op, s, s', c, i);
      RemovalUnmaps(s, s', v', keys, c.reclaimed, from, c.added, i);
    }
  }

  /** The entries an allocation gets to are those it reclaims, and the one that blocks it. */
  lemma AllocationReaches(op: QueueOp, s: QueueState, s': QueueState, c: Change, i: nat)
    requires op.AllocateOp? && i < |Live(s.r)|
    requires Allocates(s, s', op.keySize, op.valueSize, c.reclaimed, c.added) == true
    ensures c.reclaimed <= |Live(s.r)| && Live(s'.r) == Live(s.r)[c.reclaimed..] + c.added
    ensures c.added == [] ==> c.reclaimed < |Live(s.r)| && Live(s'.r)[0] == Live(s.r)[c.reclaimed]
    ensures Reaches(s.m, s.r, Total(op.keySize, op.valueSize), i) <==>
              i < if c.added == [] then c.reclaimed + 1 else c.reclaimed
  {
    hide Doomed, Locked, Stays, Apart, Clears;
  }

  lemma CleaningUnmaps(op: QueueOp, s: QueueState, v: map<Key, EntryRef>, i: nat)
    requires op.CleanOp? && i < |Live(s.r)| && Live(s.r)[i].End() <= |s.m|
    requires Expired(s.m, Live(s.r)[0], op.time) && !Locked(s.m, Live(s.r)[0])
    ensures Unmaps(op, s, v, i) <==> i == 0
  {
    hide Expired, Locked;
  }

  lemma CleaningRetains(op: QueueOp, s: QueueState, v: map<Key, EntryRef>, s': QueueState, v': map<Key, EntryRef>,
                        keys: iset<Key>)
    requires op.CleanOp? && Coherent(s, v, keys) == true && Coherent(s', v', keys) == true
    requires Live(s.r) != [] && Expired(s.m, Live(s.r)[0], op.time) && !Locked(s.m, Live(s.r)[0])
    requires Live(s'.r) == Live(s.r)[1..]
    requires AllKept(s.m, s'.m, Live(s.r)) == true && StillActive(s.m, s'.m, Live(s.r), 1) == true
    ensures Retains(op, s, v, v') == true
  {
    hide RingOk, Sound, Exact, Expired, Locked, StillActive, Unmaps, KeyBytes, PointsAt, Kept, HeaderAt, Live;
    var live := Live(s.r);
    assert live[1..] + [] == live[1..];
    forall i: nat | i < |live| && Active(s.m, live[i])
      ensures PointsAt(v', KeyBytes(s.m, live[i]), live[i]) <==> !Unmaps(op, s, v, i)
    {
      CleaningUnmaps(op, s, v, i);
      RemovalUnmaps(s, s', v', keys, 1, 1, [], i);
    }
  }

  /** Filling, publishing, erasing, locking and unlocking take at most one key out of the index. */
  lemma TouchedRetains(op: QueueOp, s: QueueState, v: map<Key, EntryRef>, m': seq<byte>, v': map<Key, EntryRef>,
                       keys: iset<Key>)
    requires !op.AllocateOp? && !op.CleanOp? && (op.PublishOp? ==> op.memory.Granted())
    requires Coherent(s, v, keys) == true && Touched(op, s, v, m', v') == true
    ensures Retains(op, s, v, v') == true
  {
    hide RingOk, Sound, KeyBytes, HeaderAt, Live, Splice, Relocked, Activated, PutMemory, ErasedMemory, Pointers;
    forall i: nat | i < |Live(s.r)| && Active(s.m, Live(s.r)[i])
      ensures PointsAt(v', KeyBytes(s.m, Live(s.r)[i]), Live(s.r)[i]) <==> !Unmaps(op, s, v, i)
    {
      if op.PublishOp? && Ready(op, s, v) {
        OffsetsDiffer(s.m, s.r, op.i, i);
      }
    }
  }

  lemma CoherentIs(q: MemoryQueue)
    requires q.Valid() && q.IndexExact()
    ensures Coherent(q.S(), q.View(), q.index.keys) == true
  {
    hide RingOk, Sound, Exact, HashMap.Valid, Calm;
  }

  /** An allocation that is out of memory does nothing. */
  lemma NoEffect(q: MemoryQueue, op: QueueOp)
    requires q.Valid() && op.AllocateOp? && Total(op.keySize, op.valueSize) > q.capacityBytes
    ensures Effect(op, q.S(), q.S(), Change(0, [])) == true
  {
    hide StepBy;
    q.StandStill();
  }

  lemma AllocationEffect(op: QueueOp, s: QueueState, s': QueueState, c: Change)
    requires op.AllocateOp? && Total(op.keySize, op.valueSize) <= s.r.capacity
    requires Allocates(s, s', op.keySize, op.valueSize, c.reclaimed, c.added) == true
    ensures Effect(op, s, s', c) == true
    ensures c.reclaimed <= |Live(s.r)| && Live(s'.r) == Live(s.r)[c.reclaimed..] + c.added
    ensures |Live(s.r)| + |c.added| - |Live(s'.r)| == c.reclaimed
  {
    hide Clears, Doomed;
  }

  /** memory_queue_allocate. */
  method Allocation(q: MemoryQueue, live: seq<Block>, op: QueueOp)
      returns (live': seq<Block>, lost: bool, ghost c: Change)
    requires q.Valid() && live == q.Entries() && H <= q.capacityBytes
    requires op.AllocateOp? && op.keySize < U16 && op.valueSize < U32
    modifies q, q.buffer, q.index.hashmap, q.index.hashmap.buckets
    ensures lost == LosesQueue(op, old(q.S())) && q.Valid() == !lost
    ensures q.buffer == old(q.buffer) && q.capacityBytes == old(q.capacityBytes)
    ensures q.index.hashmap.buckets == old(q.index.hashmap.buckets) || fresh(q.index.hashmap.buckets)
    ensures !lost ==>
              && live' == q.Entries() && (old(q.IndexExact()) ==> q.IndexExact() == true)
              && Effect(op, old(q.S()), q.S(), c) == true
              && (old(q.IndexExact()) ==> Retains(op, old(q.S()), old(q.View()), q.View()) == true)
  {
    hide RingOk, Sound, HashMap.Valid, Calm, Exact, Allocates, Effect, Room, Spoils, Spared, Coherent, Retains, Unmaps,
         Fits, Total;
    ghost var s, v, exact := q.S(), q.View(), q.IndexExact();
    if Total(op.keySize, op.valueSize) > q.capacityBytes {
      NoEffect(q, op);
    }
    if exact {
      CoherentIs(q);
    }
    q.CountIs();
    var before := q.entryCount;
    assert live == Live(s.r) && s.r.capacity == q.capacityBytes;
    var added;
    ghost var k;
    added, lost, k := q.Reserve(op.keySize, op.valueSize, op.expiry);
    c := Change(k, added);
    live' := live;
    if !lost && Total(op.keySize, op.valueSize) <= q.capacityBytes {
      AllocationEffect(op, s, q.S(), c);
      q.CountIs();
      live' := live[before + |added| - q.entryCount..] + added;
      if exact {
        CoherentIs(q);
        AllocationRetains(op, s, v, q.S(), q.View(), q.index.keys, c);
      }
    } else if !lost && exact {
      AllocationIdle(op, s, v);
      IdleRetains(op, s, v, q.index.keys);
    }
  }

  /** memory_queue_clean. */
  method Cleaning(q: MemoryQueue, live: seq<Block>, op: QueueOp)
      returns (live': seq<Block>, lost: bool, ghost c: Change)
    requires q.Valid() && live == q.Entries() && op.CleanOp?
    modifies q, q.buffer, q.index.hashmap, q.index.hashmap.buckets
    ensures lost == LosesQueue(op, old(q.S())) && q.Valid() == !lost
    ensures q.buffer == old(q.buffer) && q.capacityBytes == old(q.capacityBytes)
    ensures q.index.hashmap.buckets == old(q.index.hashmap.buckets) || fresh(q.index.hashmap.buckets)
    ensures !lost ==>
              && live' == q.Entries() && (old(q.IndexExact()) ==> q.IndexExact() == true)
              && Effect(op, old(q.S()), q.S(), c) == true
              && (old(q.IndexExact()) ==> Retains(op, old(q.S()), old(q.View()), q.View()) == true)
  {
    hide Sound, HashMap.Valid, Calm, Exact, Expired, Locked, AllKept, StepBy, StillActive, Coherent, Retains;
    ghost var s, v, exact := q.S(), q.View(), q.IndexExact();
    if exact {
      CoherentIs(q);
    }
    q.StaleMarkIs();
    var stale := q.entryCount == 1 && q.readIndex < q.writeIndex && HeaderAt(q.buffer[..], q.writeIndex).endOfBuffer;
    assert live == Live(s.r) && stale == StaleMark(s.m, s.r) && (stale ==> live != []);
    hide RingOk, Room, StaleMark;
    var result := q.Clean(op.time);
    lost := stale && result == Success;
    live' := if result == Success then live[1..] else live;
    c := Change(if result == Success then 1 else 0, []);
    if !lost {
      CleaningEffect(op, s, q.S(), c);
      if exact && result == Success {
        CoherentIs(q);
        CleaningRetains(op, s, v, q.S(), q.View(), q.index.keys);
      } else if exact {
        CleaningIdle(op, s, v);
        IdleRetains(op, s, v, q.index.keys);
      }
    }
  }

  lemma CleaningEffect(op: QueueOp, s: QueueState, s': QueueState, c: Change)
    requires op.CleanOp? && StepBy(s, s', c.reclaimed, []) == true && c.added == []
    requires c.reclaimed ==
             if Live(s.r) != [] && Expired(s.m, Live(s.r)[0], op.time) && !Locked(s.m, Live(s.r)[0]) then 1 else 0
    ensures Effect(op, s, s', c) == true
    ensures Live(s'.r) == if c.reclaimed == 1 then Live(s.r)[1..] else Live(s.r)
  {
    hide Expired, Locked;
  }

  lemma AllocationIdle(op: QueueOp, s: QueueState, v: map<Key, EntryRef>)
    requires op.AllocateOp? && Total(op.keySize, op.valueSize) > s.r.capacity
    ensures forall i: nat :: i < |Live(s.r)| ==> !Unmaps(op, s, v, i)
  {
  }

  lemma CleaningIdle(op: QueueOp, s: QueueState, v: map<Key, EntryRef>)
    requires op.CleanOp?
    requires Live(s.r) == [] || !Expired(s.m, Live(s.r)[0], op.time) || Locked(s.m, Live(s.r)[0])
    ensures forall i: nat :: i < |Live(s.r)| ==> !Unmaps(op, s, v, i)
  {
    hide Expired, Locked;
  }

  lemma QuietEffect(op: QueueOp, s: QueueState, s': QueueState)
    requires !op.AllocateOp? && !op.CleanOp? && Quiet(s, s') == true
    ensures Effect(op, s, s', Change(0, [])) == true
    ensures Live(s'.r) == Live(s.r)
  {
  }

  /** When a filling, publishing or locking operation may go ahead, as the code can tell. */
  lemma Readiness(q: MemoryQueue, op: QueueOp)
    requires q.Valid() && !op.AllocateOp? && !op.CleanOp? && !op.EraseOp?
    ensures op.i >= |q.Entries()| ==> !Ready(op, q.S(), q.View())
    ensures op.i < |q.Entries()| ==>
              var b := q.Entries()[op.i];
              && b.End() <= q.buffer.Length && HeaderAt(q.buffer[..], b.offset).keySize == b.keySize
              && match op
                 case FillOp(_, pos, data) =>
                   Ready(op, q.S(), q.View()) <==>
                     !HeaderAt(q.buffer[..], b.offset).active && HeaderAt(q.buffer[..], b.offset).locks == 0
                     && H <= pos && pos + |data| <= b.Size()
                 case PublishOp(_, key, _) =>
                   Ready(op, q.S(), q.View()) <==>
                     !HeaderAt(q.buffer[..], b.offset).active && q.KeyAt(b.offset) == key
                     && q.index.hashmap.count < 65535
                 case _ => Ready(op, q.S(), q.View())
  {
    hide RingOk, Sound, Calm, Exact, Room, HeaderAt, Active, KeyBytes, Distinguishes;
    if op.i < |q.Entries()| {
      q.NamedFacts(op.i);
      q.index.hashmap.CountIsSize();
    }
  }

  /** An operation that may not go ahead does nothing. */
  lemma Idle(op: QueueOp, s: QueueState, v: map<Key, EntryRef>)
    requires !op.AllocateOp? && !op.CleanOp? && !op.EraseOp? && !Ready(op, s, v)
    ensures Touched(op, s, v, s.m, v) == true
  {
    hide Ready;
  }

  /** Bytes received into an entry that is not active yet. */
  method Filling(q: MemoryQueue, live: seq<Block>, op: QueueOp)
    requires q.Valid() && live == q.Entries() && op.FillOp?
    modifies q.buffer
    ensures q.Valid() == true && (old(q.IndexExact()) ==> q.IndexExact() == true)
    ensures Quiet(old(q.S()), q.S()) == true
    ensures Touched(op, old(q.S()), old(q.View()), q.M(), q.View()) == true
  {
    hide RingOk, Sound, HashMap.Valid, Calm, Exact, Room, Quiet, Active, HeaderAt, Ready, Touched;
    ghost var s, v := q.S(), q.View();
    q.StandStill();
    Readiness(q, op);
    if op.i < |live| {
      var at := live[op.i].offset;
      var h := HeaderAt(q.buffer[..], at);
      if !h.active && h.locks == 0 && H <= op.pos && op.pos + |op.data| <= live[op.i].Size() {
        Fills(op, s, v);
        q.Fill(op.i, at, op.pos, op.data);
        return;
      }
    }
    Idle(op, s, v);
  }

  lemma Fills(op: QueueOp, s: QueueState, v: map<Key, EntryRef>)
    requires op.FillOp? && Ready(op, s, v) == true
    ensures op.i < |Live(s.r)| && Live(s.r)[op.i].offset + op.pos + |op.data| <= |s.m|
    ensures !Active(s.m, Live(s.r)[op.i]) && !Locked(s.m, Live(s.r)[op.i])
    ensures Touched(op, s, v, Splice(s.m, Live(s.r)[op.i].offset + op.pos, op.data), v) == true
  {
    hide Active;
  }

  /** Activating and putting an entry under its key. */
  method Publishing(q: MemoryQueue, live: seq<Block>, op: QueueOp)
    requires q.Valid() && live == q.Entries() && op.PublishOp? && op.key in q.index.keys
    modifies q.buffer, q.index.hashmap, q.index.hashmap.buckets
    ensures q.Valid() == true
    ensures q.index.hashmap.buckets == old(q.index.hashmap.buckets) || fresh(q.index.hashmap.buckets)
    ensures old(q.IndexExact()) && op.memory.Granted() ==> q.IndexExact() == true
    ensures Quiet(old(q.S()), q.S()) == true
    ensures Touched(op, old(q.S()), old(q.View()), q.M(), q.View()) == true
  {
    hide RingOk, Sound, HashMap.Valid, Calm, Exact, Room, Quiet, Active, HeaderAt, KeyBytes, Ready, Touched;
    ghost var s, v := q.S(), q.View();
    q.StandStill();
    Readiness(q, op);
    if op.i < |live| {
      var at := live[op.i].offset;
      if !HeaderAt(q.buffer[..], at).active && q.KeyAt(at) == op.key && q.index.hashmap.count < 65535 {
        q.index.TakesFew(InRing(at, op.key));
        Publishes(op, s, v);
        var status := q.Publish(op.i, InRing(at, op.key), op.memory);
        return;
      }
    }
    Idle(op, s, v);
  }

  lemma Publishes(op: QueueOp, s: QueueState, v: map<Key, EntryRef>)
    requires op.PublishOp? && Ready(op, s, v) == true
    ensures op.i < |Live(s.r)| && Live(s.r)[op.i].End() <= |s.m| && !Active(s.m, Live(s.r)[op.i])
    ensures KeyBytes(s.m, Live(s.r)[op.i]) == op.key
    ensures var b, m1 := Live(s.r)[op.i], Activated(s.m, Live(s.r)[op.i]);
            && (Pointers(v, |s.m|) ==>
                  Touched(op, s, v, PutMemory(m1, v, op.key), v[op.key := InRing(b.offset, op.key)]) == true)
            && (!op.memory.Granted() ==> Touched(op, s, v, m1, v) == true)
  {
    hide Active, KeyBytes, Activated, PutMemory, Pointers;
  }

  /** Taking and giving back reader locks. */
  method Locking(q: MemoryQueue, live: seq<Block>, op: QueueOp)
    requires q.Valid() && live == q.Entries() && (op.LockOp? || op.UnlockOp?)
    modifies q.buffer
    ensures q.Valid() == true && (old(q.IndexExact()) ==> q.IndexExact() == true)
    ensures Quiet(old(q.S()), q.S()) == true
    ensures Touched(op, old(q.S()), old(q.View()), q.M(), q.View()) == true
  {
    hide RingOk, Sound, HashMap.Valid, Calm, Exact, Room, Quiet, Active, HeaderAt, KeyBytes, Ready, Touched, WithHeader;
    ghost var s, v := q.S(), q.View();
    q.StandStill();
    Readiness(q, op);
    if op.i < |live| {
      Relocks(op, s, v);
      if op.LockOp? {
        var event := q.AcquireLock(op.i, live[op.i].offset);
      } else {
        var event := q.ReleaseLock(op.i, live[op.i].offset);
      }
      return;
    }
    Idle(op, s, v);
  }

  lemma Relocks(op: QueueOp, s: QueueState, v: map<Key, EntryRef>)
    requires (op.LockOp? || op.UnlockOp?) && op.i < |Live(s.r)| && Live(s.r)[op.i].End() <= |s.m|
    ensures Touched(op, s, v, Relocked(s.m, Live(s.r)[op.i], op.LockOp?), v) == true
  {
    hide Relocked;
  }

  method Touching(q: MemoryQueue, live: seq<Block>, op: QueueOp)
    requires q.Valid() && live == q.Entries() && Proper(op, q.index.keys) && !op.AllocateOp? && !op.CleanOp?
    modifies q.buffer, q.index.hashmap, q.index.hashmap.buckets
    ensures q.Valid() == true
    ensures q.index.hashmap.buckets == old(q.index.hashmap.buckets) || fresh(q.index.hashmap.buckets)
    ensures old(q.IndexExact()) && (op.PublishOp? ==> op.memory.Granted()) ==> q.IndexExact() == true
    ensures Quiet(old(q.S()), q.S()) == true
    ensures Touched(op, old(q.S()), old(q.View()), q.M(), q.View()) == true
    ensures old(q.IndexExact()) && (op.PublishOp? ==> op.memory.Granted()) ==>
              Retains(op, old(q.S()), old(q.View()), q.View()) == true
  {
    hide RingOk, Sound, HashMap.Valid, Calm, Exact, Room, Quiet, Coherent, Retains;
    ghost var s, v, exact := q.S(), q.View(), q.IndexExact() && (op.PublishOp? ==> op.memory.Granted());
    if exact {
      CoherentIs(q);
    }
    match op {
      case FillOp(_, _, _) =>
        Filling(q, live, op);
      case PublishOp(_, _, _) =>
        Publishing(q, live, op);
      case EraseOp(key, memory) =>
        q.Erase(key, memory);
      case LockOp(_) =>
        Locking(q, live, op);
      case UnlockOp(_) =>
        Locking(q, live, op);
    }
    if exact {
      TouchedRetains(op, s, v, q.M(), q.View(), q.index.keys);
    }
  }

  /** One operation. */
  method Perform(q: MemoryQueue, live: seq<Block>, op: QueueOp)
      returns (live': seq<Block>, lost: bool, ghost c: Change)
    requires q.Valid() && live == q.Entries() && Proper(op, q.index.keys) && H <= q.capacityBytes
    modifies q, q.buffer, q.index.hashmap, q.index.hashmap.buckets
    ensures lost == LosesQueue(op, old(q.S())) && q.Valid() == !lost
    ensures q.buffer == old(q.buffer) && q.capacityBytes == old(q.capacityBytes)
    ensures q.index.hashmap.buckets == old(q.index.hashmap.buckets) || fresh(q.index.hashmap.buckets)
    ensures !lost ==>
              && live' == q.Entries() && Effect(op, old(q.S()), q.S(), c) == true
              && Touched(op, old(q.S()), old(q.View()), q.M(), q.View()) == true
              && (old(q.IndexExact()) && (op.PublishOp? ==> op.memory.Granted()) ==>
                    q.IndexExact() == true && Retains(op, old(q.S()), old(q.View()), q.View()) == true)
  {
    hide RingOk, Sound, HashMap.Valid, Calm, Exact, Room, Quiet, Effect, Spoils, StaleMark, Expired, Locked, Retains;
    ghost var s := q.S();
    if op.AllocateOp? {
      live', lost, c := Allocation(q, live, op);
    } else if op.CleanOp? {
      live', lost, c := Cleaning(q, live, op);
    } else {
      Touching(q, live, op);
      QuietEffect(op, s, q.S());
      live', lost, c := live, false, Change(0, []);
    }
  }

  /** Operations, and what each did. */
  ghost predicate Performed(ops: seq<QueueOp>, trace: seq<QueueState>, changes: seq<Change>) {
    && |changes| == |ops| && |trace| == |ops| + 1
    && forall i: nat :: i < |ops| ==> Effect(ops[i], trace[i], trace[i + 1], changes[i])
  }

  lemma PerformedOneMore(
      ops: seq<QueueOp>, trace: seq<QueueState>, changes: seq<Change>, op: QueueOp, s': QueueState, c: Change)
    requires Performed(ops, trace, changes) == true && |trace| == |ops| + 1
    requires Effect(op, trace[|ops|], s', c) == true
    ensures Performed(ops + [op], trace + [s'], changes + [c]) == true
  {
    hide Effect;
  }

  /** Operations, and what they did to buffer and index. */
  ghost predicate TouchedAll(ops: seq<QueueOp>, trace: seq<QueueState>, views: seq<map<Key, EntryRef>>) {
    && |views| == |trace| == |ops| + 1
    && forall i: nat :: i < |ops| ==> Touched(ops[i], trace[i], views[i], trace[i + 1].m, views[i + 1])
  }

  lemma TouchedOneMore(ops: seq<QueueOp>, trace: seq<QueueState>, views: seq<map<Key, EntryRef>>, op: QueueOp,
                       s': QueueState, v': map<Key, EntryRef>)
    requires TouchedAll(ops, trace, views) == true && |views| == |trace| == |ops| + 1
    requires Touched(op, trace[|ops|], views[|ops|], s'.m, v') == true
    ensures TouchedAll(ops + [op], trace + [s'], views + [v']) == true
  {
    hide Touched;
  }

  lemma PerformedIsRun(ops: seq<QueueOp>, trace: seq<QueueState>, changes: seq<Change>)
    requires Performed(ops, trace, changes)
    ensures RunBy(trace, changes) && RingRun.Run(trace)
  {
    hide Loses, StepBy;
    forall i: nat | i < |changes|
      ensures StepBy(trace[i], trace[i + 1], changes[i].reclaimed, changes[i].added) && Step(trace[i], trace[i + 1])
    {
      assert Effect(ops[i], trace[i], trace[i + 1], changes[i]);
    }
  }

  /** No operation of the run loses the queue. */
  ghost predicate Sustained(ops: seq<QueueOp>, trace: seq<QueueState>) {
    |trace| == |ops| + 1 && forall i: nat :: i < |ops| ==> !LosesQueue(ops[i], trace[i])
  }

  lemma SustainedOneMore(ops: seq<QueueOp>, trace: seq<QueueState>, op: QueueOp, s': QueueState)
    requires Sustained(ops, trace) == true && |trace| == |ops| + 1 && !LosesQueue(op, trace[|ops|])
    ensures Sustained(ops + [op], trace + [s']) == true
  {
    hide LosesQueue;
  }

  /** Ring and index agree in every state of the run, and every operation takes out of the index
      what it says and nothing else. */
  ghost predicate Indexed(ops: seq<QueueOp>, trace: seq<QueueState>, views: seq<map<Key, EntryRef>>, keys: iset<Key>) {
    && |views| == |trace| == |ops| + 1
    && (forall i: nat :: i < |trace| ==> Coherent(trace[i], views[i], keys))
    && (forall i: nat :: i < |ops| ==> Retains(ops[i], trace[i], views[i], views[i + 1]))
  }

  lemma IndexedAtFirst(s: QueueState, v: map<Key, EntryRef>, keys: iset<Key>)
    requires Coherent(s, v, keys)
    ensures Indexed([], [s], [v], keys) == true
  {
  }

  lemma IndexedOneMore(ops: seq<QueueOp>, trace: seq<QueueState>, views: seq<map<Key, EntryRef>>, keys: iset<Key>,
                       op: QueueOp, s': QueueState, v': map<Key, EntryRef>)
    requires Indexed(ops, trace, views, keys) == true && |views| == |trace| == |ops| + 1
    requires Coherent(s', v', keys) == true && Retains(op, trace[|ops|], views[|ops|], v') == true
    ensures Indexed(ops + [op], trace + [s'], views + [v'], keys) == true
  {
    hide Coherent, Retains;
  }

  /** Any sequence of operations, up to the first that loses the queue, if any: it is lost exactly
      when some operation does so in the state it finds.  Until then the queue stays valid, and every
      step does to the live entries, the buffer and the index what its operation says; and if there
      is memory for the index to grow, it holds exactly the active live entries all the time. */
  method Run(q: MemoryQueue, names: seq<Block>, ops: seq<QueueOp>)
      returns (live: seq<Block>, lost: bool, ghost n: nat, ghost trace: seq<QueueState>,
               ghost views: seq<map<Key, EntryRef>>, ghost changes: seq<Change>)
    requires q.Valid() && names == q.Entries() && forall op :: op in ops ==> Proper(op, q.index.keys)
    requires H <= q.capacityBytes
    modifies q, q.buffer, q.index.hashmap, q.index.hashmap.buckets
    ensures n <= |ops| && |trace| == |views| == n + 1 && trace[0] == old(q.S()) && views[0] == old(q.View())
    ensures Performed(ops[..n], trace, changes) == true && TouchedAll(ops[..n], trace, views) == true
    ensures Sustained(ops[..n], trace) == true && q.Valid() == !lost
    ensures if lost then n < |ops| && LosesQueue(ops[n], trace[n])
            else n == |ops| && live == q.Entries() && trace[n] == q.S() && views[n] == q.View()
    ensures old(q.IndexExact()) && (forall op :: op in ops && op.PublishOp? ==> op.memory.Granted()) ==>
              Indexed(ops[..n], trace, views, q.index.keys) == true && (!lost ==> q.IndexExact() == true)
  {
    hide *;
    TableFits(q);
    live, lost, n, trace, views, changes := names, false, 0, [q.S()], [q.View()], [];
    ghost var exact := q.IndexExact() && forall op :: op in ops && op.PublishOp? ==> op.memory.Granted();
    if exact {
      CoherentIs(q);
      IndexedAtFirst(q.S(), views[0], q.index.keys);
    }
    PerformedNothing(q.S(), views[0]);
    assert ops[..0] == [];
    for i := 0 to |ops|
      invariant n == i && q.Valid() == true && live == q.Entries() && q.buffer == old(q.buffer) && !lost
      invariant H <= q.capacityBytes
      invariant q.index.hashmap.buckets == old(q.index.hashmap.buckets) || fresh(q.index.hashmap.buckets)
      invariant |trace| == |views| == i + 1 && Performed(ops[..i], trace, changes) == true
      invariant TouchedAll(ops[..i], trace, views) == true && Sustained(ops[..i], trace) == true
      invariant trace[0] == old(q.S()) && trace[i] == q.S()
      invariant q.index.hashmap.nbuckets <= q.index.hashmap.buckets.Length
      invariant views[0] == old(q.View()) && views[i] == q.View()
      invariant exact ==> q.IndexExact() == true && Indexed(ops[..i], trace, views, q.index.keys) == true
    {
      assert ops[i] in ops && ops[..i + 1] == ops[..i] + [ops[i]];
      ghost var c;
      live, lost, c := Perform(q, live, ops[i]);
      if lost {
        return;
      }
      TableFits(q);
      PerformedOneMore(ops[..i], trace, changes, ops[i], q.S(), c);
      TouchedOneMore(ops[..i], trace, views, ops[i], q.S(), q.View());
      SustainedOneMore(ops[..i], trace, ops[i], q.S());
      if exact {
        CoherentIs(q);
        IndexedOneMore(ops[..i], trace, views, q.index.keys, ops[i], q.S(), q.View());
      }
      n, trace, views, changes := i + 1, trace + [q.S()], views + [q.View()], changes + [c];
    }
    assert ops[..|ops|] == ops;
  }

  lemma TableFits(q: MemoryQueue)
    requires q.Valid()
    ensures q.index.hashmap.nbuckets <= q.index.hashmap.buckets.Length && q.S().m == q.M()
  {
  }

  lemma PerformedNothing(s: QueueState, v: map<Key, EntryRef>)
    ensures Performed([], [s], []) == true && TouchedAll([], [s], [v]) == true && Sustained([], [s]) == true
  {
  }

  // ----- whether an entry survives -----

  /** Entry i of the first state is lost at step n, as the entry it has come to be by then. */
  ghost predicate LostAt(ops: seq<QueueOp>, trace: seq<QueueState>, changes: seq<Change>, i: nat, n: nat)
    requires n < |ops| && |changes| == |ops| && |trace| == |ops| + 1
  {
    Loses(ops[n], trace[n], i - Reclaimed(changes[..n]))
  }

  ghost predicate NeverLost(ops: seq<QueueOp>, trace: seq<QueueState>, changes: seq<Change>, i: nat)
    requires |changes| == |ops| && |trace| == |ops| + 1
  {
    forall n: nat :: n < |ops| ==> !LostAt(ops, trace, changes, i, n)
  }

  /** A reservation, or any other entry, survives a run exactly when no operation on the way
      loses it: no allocation for which it and all older entries are in the way and unlocked, and
      no cleaning while it is the oldest, expired or inactive, and unlocked. */
  lemma {:induction false} Survives(ops: seq<QueueOp>, trace: seq<QueueState>, changes: seq<Change>, i: nat)
    requires |changes| == |ops| && |trace| == |ops| + 1
    requires Performed(ops, trace, changes) && i < |Live(trace[0].r)|
    ensures Reclaimed(changes) <= i <==> NeverLost(ops, trace, changes, i)
    ensures Reclaimed(changes) <= i ==>
              && i - Reclaimed(changes) < |Live(trace[|ops|].r)|
              && Live(trace[|ops|].r)[i - Reclaimed(changes)] == Live(trace[0].r)[i]
    decreases |ops|
  {
    hide *;
    if ops == [] {
      SurvivesNothing(trace, changes, i);
    } else {
      var n := |ops| - 1;
      PerformedPrefix(ops, trace, changes);
      NeverLostPrefix(ops, trace, changes, i);
      Survives(ops[..n], trace[..n + 1], changes[..n], i);
      var gone := Reclaimed(changes[..n]);
      SurvivesStep(ops[n], trace[n], trace[n + 1], changes[n], i - gone);
      ReclaimedLast(changes);
      SurvivesOn(Live(trace[0].r), Live(trace[n].r), Live(trace[n + 1].r), i, gone, changes[n].reclaimed,
                 NeverLost(ops[..n], trace[..n + 1], changes[..n], i), Loses(ops[n], trace[n], i - gone));
    }
  }

  lemma SurvivesNothing(trace: seq<QueueState>, changes: seq<Change>, i: nat)
    requires |changes| == 0 && |trace| == 1
    ensures Reclaimed(changes) == 0 && NeverLost([], trace, changes, i)
  {
  }

  lemma SurvivesOn(first: seq<Block>, before: seq<Block>, after: seq<Block>, i: nat, gone: nat, more: nat,
                   never: bool, loses: bool)
    requires i < |first| && (gone <= i <==> never)
    requires gone <= i ==> i - gone < |before| && before[i - gone] == first[i] && (more <= i - gone <==> !loses)
    requires gone + more <= i ==> i - gone - more < |after| && after[i - gone - more] == before[i - gone]
    ensures gone + more <= i <==> never && !loses
    ensures gone + more <= i ==> i - (gone + more) < |after| && after[i - (gone + more)] == first[i]
  {
  }

  lemma ReclaimedLast(changes: seq<Change>)
    requires changes != []
    ensures Reclaimed(changes) == Reclaimed(changes[..|changes| - 1]) + changes[|changes| - 1].reclaimed
  {
  }

  lemma NeverLostPrefix(ops: seq<QueueOp>, trace: seq<QueueState>, changes: seq<Change>, i: nat)
    requires |changes| == |ops| && |trace| == |ops| + 1 && ops != []
    ensures var n := |ops| - 1;
            NeverLost(ops, trace, changes, i) <==>
              && NeverLost(ops[..n], trace[..n + 1], changes[..n], i)
              && !Loses(ops[n], trace[n], i - Reclaimed(changes[..n]))
  {
    hide Loses, Reclaimed;
    var n := |ops| - 1;
    var ops', trace', changes' := ops[..n], trace[..n + 1], changes[..n];
    forall k: nat | k < n ensures LostAt(ops', trace', changes', i, k) == LostAt(ops, trace, changes, i, k) {
      assert changes'[..k] == changes[..k];
    }
    assert LostAt(ops, trace, changes, i, n) == Loses(ops[n], trace[n], i - Reclaimed(changes'));
    hide LostAt;
    if NeverLost(ops, trace, changes, i) {
      forall k: nat | k < n ensures !LostAt(ops', trace', changes', i, k) {
        assert !LostAt(ops, trace, changes, i, k);
      }
    }
  }

  lemma PerformedPrefix(ops: seq<QueueOp>, trace: seq<QueueState>, changes: seq<Change>)
    requires Performed(ops, trace, changes) && ops != []
    ensures Performed(ops[..|ops| - 1], trace[..|ops|], changes[..|ops| - 1])
    ensures Effect(ops[|ops| - 1], trace[|ops| - 1], trace[|ops|], changes[|ops| - 1])
  {
    hide Effect;
  }

  lemma SurvivesStep(op: QueueOp, s: QueueState, s': QueueState, c: Change, i: int)
    requires Effect(op, s, s', c)
    ensures 0 <= i < |Live(s.r)| ==> (c.reclaimed <= i <==> !Loses(op, s, i))
    ensures c.reclaimed <= i < |Live(s.r)| ==>
              i - c.reclaimed < |Live(s'.r)| && Live(s'.r)[i - c.reclaimed] == Live(s.r)[i]
    ensures i < 0 ==> !Loses(op, s, i)
  {
    hide Clears, Expired, Locked;
  }

  // ----- three ways to lose -----

  /** A buffer of 64 bytes and two connections, each putting a key of one byte and a value of 15.
      The second reservation reclaims the first, which is neither active nor locked, and takes its
      place; the key byte the first connection then receives becomes the second one's key. */
  method ReservationLost(q: MemoryQueue, x: byte) returns (first: nat, second: nat)
    requires q.Valid() && q.Entries() == [] && q.capacityBytes == 64 && q.readIndex == 0 && q.writeIndex == 0
    modifies q, q.buffer, q.index.hashmap, q.index.hashmap.buckets
    ensures first == second == 0 && q.Entries() == [Block(second, 1, 15)]
    ensures Block(second, 1, 15).End() <= |q.M()| && KeyBytes(q.M(), Block(second, 1, 15)) == [x]
  {
    hide RingOk, Sound, HashMap.Valid, Calm, Exact, HeaderAt, Locked;
    first := FirstReservation(q);
    second := NextReservation(q);
    q.NamedFacts(0);
    q.buffer[second + H] := x;
  }

  /** The first reservation. */
  method FirstReservation(q: MemoryQueue) returns (entry: nat)
    requires q.Valid() && q.Entries() == [] && q.capacityBytes == 64 && q.readIndex == 0 && q.writeIndex == 0
    modifies q, q.buffer, q.index.hashmap, q.index.hashmap.buckets
    ensures q.Valid() == true && entry == 0 && q.Entries() == [Block(0, 1, 15)] && q.buffer == old(q.buffer)
    ensures q.capacityBytes == 64 && q.writeIndex == 32 && !Locked(q.M(), Block(0, 1, 15))
    ensures q.index.hashmap.buckets == old(q.index.hashmap.buckets) || fresh(q.index.hashmap.buckets)
  {
    hide RingOk, Sound, HashMap.Valid, Calm, Exact, StepBy, Reclaims, Kept, Active, HeaderAt, Locked;
    var result;
    ghost var k;
    q.HeadPlace();
    result, entry, k := q.Allocate(1, 15, 0);
    UnlockedAtFirst(q.M(), Block(0, 1, 15));
  }

  /** The second reservation. */
  method NextReservation(q: MemoryQueue) returns (entry: nat)
    requires q.Valid() && q.Entries() == [Block(0, 1, 15)] && q.capacityBytes == 64 && q.writeIndex == 32
    requires !Locked(q.M(), Block(0, 1, 15))
    modifies q, q.buffer, q.index.hashmap, q.index.hashmap.buckets
    ensures q.Valid() == true && entry == 0 && q.Entries() == [Block(0, 1, 15)] && q.buffer == old(q.buffer)
  {
    hide RingOk, Sound, HashMap.Valid, Calm, Exact, StepBy, Reclaims, Kept, Active;
    var result;
    ghost var k;
    ghost var s := q.S();
    assert Doomed(s.r, 32, 0);
    result, entry, k := q.Allocate(1, 15, 0);
  }

  lemma UnlockedAtFirst(m: seq<byte>, b: Block)
    requires b.offset + H <= |m| && HeaderAt(m, b.offset).locks == 0
    ensures !Locked(m, b)
  {
  }

  /** Allocating 57 bytes in a buffer of 64 succeeds, but leaves no room for a marker. */
  method NoRoomForMarker(q: MemoryQueue) returns (entry: nat)
    requires q.Valid() && q.Entries() == [] && q.capacityBytes == 64 && q.readIndex == 0 && q.writeIndex == 0
    modifies q, q.buffer, q.index.hashmap, q.index.hashmap.buckets
    ensures entry == 0 && q.entryCount == 1 && q.writeIndex == 57 && !q.Valid()
  {
    hide Sound, HashMap.Valid, Calm, Exact, StepBy, Reclaims, Kept, Active;
    var result;
    ghost var k;
    result, entry, k := q.Allocate(1, 40, 0);
  }

  /** A value of 4294967280 bytes makes the total zero: the allocation succeeds, sets nothing
      aside, and loses the queue. */
  method TotalOverflows(q: MemoryQueue) returns (entry: nat)
    requires q.Valid() && q.Entries() == [] && q.capacityBytes == 64 && q.readIndex == 0 && q.writeIndex == 0
    modifies q, q.buffer, q.index.hashmap, q.index.hashmap.buckets
    ensures entry == 0 && q.writeIndex == 0 && !q.Valid()
  {
    hide Sound, HashMap.Valid, Calm, Exact, StepBy, Reclaims, Kept, Active;
    var result;
    ghost var k;
    result, entry, k := q.Allocate(0, 0xFFFF_FFF0, 0);
  }
}
