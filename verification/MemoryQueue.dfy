/** src/memory_queue.c: variable-size entries in a fixed buffer, allocated in FIFO order,
    evicted oldest first, together with the index of src/entry_hash_map.c. */
module MemoryQueue {
  import opened Wrappers
  import opened Bytes
  import opened EntryHeader
  import opened RingGeometry
  import opened RingIndex
  import opened RingRun
  import opened RingClients
  import opened Placement
  import opened Crowding
  import opened HashMap
  import opened EntryHashMap

  datatype QueueResult = Success | NoAction | OutOfMemory | WriteBlocked

  /** `total_size`: the sum is kept in 32 bits. */
  function Total(keySize: nat, valueSize: nat): (t: nat)
    ensures H + keySize + valueSize < U32 <==> t == H + keySize + valueSize
  {
    (H + keySize + valueSize) % U32
  }

  lemma EmptyIsValid(m: seq<byte>, r: Ring, view: map<Key, EntryRef>, keys: iset<Key>)
    requires r == Ring(|m|, 0, 0, [], [], 0) && view == map[]
    ensures RingOk(m, r) && Room(r) && Live(r) == [] && Sound(m, Live(r), view, keys) && Exact(m, Live(r), view)
  {
  }

  /** The sum of the sizes is the true size of the entry. */
  predicate Fits(keySize: nat, valueSize: nat) {
    H + keySize + valueSize < U32
  }

  /** The header of a new entry: inactive, unlocked, and not a marker. */
  function NewHeader(keySize: nat, valueSize: nat, expiry: nat): Header {
    Header(false, false, expiry % EXPIRY_LIMIT, valueSize, keySize, 0)
  }

  lemma Oversized(r: Ring, b: Block)
    requires b in r.newer && b.Size() >= U32
    ensures !Shape(r)
  {
    assert b in Live(r);
  }

  /** The oldest entry is the only one, no marker is in use, and the stale bytes behind it
      happen to have the end-of-buffer bit set. */
  ghost predicate StaleMark(m: seq<byte>, r: Ring) {
    r.older == [] && |r.newer| == 1 && Marked(m, r.write)
  }

  const PLAIN := Header(false, false, 0, 1, 1, 0)
  const STALE := PLAIN.(endOfBuffer := true)

  /** One entry with a one-byte key and a one-byte value, and behind it a header left over from
      earlier use. */
  function Leftover(): seq<byte> {
    Pack(PLAIN) + [107, 118] + Pack(STALE) + Pack(PLAIN)
  }

  const ONLY: Block := Block(0, 1, 1)

  /** A consistent, unlocked queue on which memory_queue_clean loses its place: it removes the
      only entry, and sends the read index to the front while the write index stays. */
  lemma StaleMarkHappens(keys: iset<Key>)
    ensures var m, r := Leftover(), Ring(3 * H + 2, 0, H + 2, [], [ONLY], 0);
            && RingOk(m, r) && Room(r) && Sound(m, Live(r), map[], keys) && Exact(m, Live(r), map[])
            && StaleMark(m, r) && Expired(m, Live(r)[0], 0) && !Locked(m, Live(r)[0])
            && !RingOk(m, WithoutFirst(r).(read := 0))
  {
    hide Pack, Unpack;
    var m := Leftover();
    assert m[0..H] == Pack(PLAIN) && m[H + 2..2 * H + 2] == Pack(STALE);
    UnpackPack(PLAIN);
    UnpackPack(STALE);
    assert Tiles([ONLY][1..], H + 2, H + 2);
    assert !Active(m, ONLY);
  }

  lemma LeftoverKey()
    ensures |Leftover()| == 3 * H + 2 && KeyBytes(Leftover(), ONLY) == [107] && !Active(Leftover(), ONLY)
  {
    hide Pack, Unpack;
    var m := Leftover();
    assert m[0..H] == Pack(PLAIN);
    UnpackPack(PLAIN);
  }

  /** On the same queue, entry_hash_map_put of the entry, whose active bit is clear, leaves the
      index pointing at an inactive entry. */
  lemma InactivePutBreaks(keys: iset<Key>)
    requires [107] in keys
    ensures var m, live := Leftover(), [ONLY];
            && Sound(m, live, map[], keys)
            && !Sound(PutMemory(m, map[], [107]), live, map[[107] := InRing(0, [107])], keys)
  {
    hide Pack, Unpack, Sound, RingOk, Leftover, KeyBytes;
    var m, live := Leftover(), [ONLY];
    var r := Ring(3 * H + 2, 0, H + 2, [], live, 0);
    StaleMarkHappens(keys);
    LeftoverKey();
    assert Live(r) == live;
    PutKeeps(m, r, 0, map[], keys);
  }

  /** Such an entry is never taken out of the index.  The next allocation of 18 bytes goes back to
      the front, reclaims the entry, and reserves its place; once the next key byte x and value
      byte y have been received, the item the index keeps under key 107 points at an entry whose
      key is x. */
  lemma InactivePutDangles(x: byte, y: byte)
    ensures var r, view := Ring(3 * H + 2, 0, H + 2, [], [ONLY], 0), map[[107] := InRing(0, [107])];
            var m1, r1 := MarkAt(Leftover(), r.write), Wrapped(r);
            && NeedsWrap(r, H + 2) && Doomed(r, H + 2, 0) && !Locked(m1, ONLY) && Pointers(view, |m1|)
            && WellSized(ONLY) && Live(r1) == [ONLY]
            && var m2, view2, r2 := ForgetMemory(m1, r1, view), ForgetView(m1, r1, view), WithoutFirst(r1);
               var m3, r3 := Splice(WithHeader(m2, 0, NewHeader(1, 1, 0)), H, [x, y]), Appended(r2, ONLY);
               && RingOk(m3, r3) && Live(r3) == [ONLY] && KeyBytes(m3, ONLY) == [x]
               && view2 == map[[107] := InRing(0, [107])]
  {
    hide Pack, Unpack, Sound, RingOk, Leftover, KeyBytes, HeaderAt, WithHeader;
    var m, r := Leftover(), Ring(3 * H + 2, 0, H + 2, [], [ONLY], 0);
    StaleMarkHappens(iset{});
    LeftoverKey();
    WrapKeeps(m, r);
    var m1, r1 := MarkAt(m, r.write), Wrapped(r);
    assert Live(r1)[0] == ONLY && SameEntry(m, m1, Live(r)[0]);
    RemoveFirst(m1, r1);
    var r2, h := WithoutFirst(r1), NewHeader(1, 1, 0);
    AppendKeeps(m1, r2, ONLY, h);
    var m3 := WithHeader(m1, 0, h);
    FillRing(m3, Appended(r2, ONLY), 0, H, [x, y]);
    SpliceInside(m3, H, [x, y]);
    FirstKey(Splice(m3, H, [x, y]), x, y);
  }

  lemma FirstKey(m: seq<byte>, x: byte, y: byte)
    requires |m| >= H + 2 && m[H..H + 2] == [x, y]
    ensures KeyBytes(m, ONLY) == [x]
  {
    assert m[H] == m[H..H + 2][0];
  }

  /** An allocation that is not refused for lack of memory reclaims, of the oldest entries in the
      way, all up to the first locked one.  If that leaves one in the way, it adds nothing; if
      not, it adds a block at the write index, or at the front of the buffer. */
  ghost predicate Allocates(s: QueueState, s': QueueState, keySize: nat, valueSize: nat, k: nat, added: seq<Block>) {
    var total := Total(keySize, valueSize);
    && StepBy(s, s', k, added) && Reclaims(s.m, s.r, total, k)
    && if added == [] then BlockedAt(s.m, s.r, total, k)
       else EvictsDoomed(s.r, total, k)
            && added == [Block(if NeedsWrap(s.r, total) then 0 else s.r.write, keySize, valueSize)]
  }

  lemma AllocatesBlocked(m: seq<byte>, r: Ring, m': seq<byte>, r': Ring, keySize: nat, valueSize: nat, k: nat)
    requires StepBy(QueueState(m, r), QueueState(m', r'), k, []) == true
    requires BlockedAt(m, r, Total(keySize, valueSize), k) == true
    ensures Allocates(QueueState(m, r), QueueState(m', r'), keySize, valueSize, k, []) == true
  {
    ReclaimsSome(m, r, Total(keySize, valueSize), k);
  }

  /** When an allocation loses the queue: it goes ahead, but the entry leaves no room for a marker,
      or the sum of its sizes overflows. */
  ghost predicate Spoils(m: seq<byte>, r: Ring, keySize: nat, valueSize: nat) {
    && Total(keySize, valueSize) <= r.capacity && Free(m, r, Total(keySize, valueSize)) == true
    && !(Fits(keySize, valueSize) && H + keySize + valueSize + H <= r.capacity)
  }

  /** What an allocation leaves of the entries it does not reclaim: if it is blocked, the oldest of
      them has been retired; the others are as active as before, and the new entry is not active. */
  ghost predicate Spared(s: QueueState, s': QueueState, k: nat, added: seq<Block>, exact: bool) {
    && k <= |Live(s.r)| && KeptFrom(s.m, s'.m, Live(s.r), k)
    && (exact ==> StillActive(s.m, s'.m, Live(s.r), if added == [] then k + 1 else k))
    && (added == [] ==> Live(s'.r) != [] && !Active(s'.m, Live(s'.r)[0]))
    && (forall b :: b in added ==> !Active(s'.m, b))
  }

  lemma NewIsInactive(m: seq<byte>, b: Block)
    requires b.End() <= |m| ==> !HeaderAt(m, b.offset).active
    ensures !Active(m, b)
  {
    hide HeaderAt;
  }

  lemma AllocatesNothing(s: QueueState, s': QueueState, keySize: nat, valueSize: nat, k: nat)
    requires Allocates(s, s', keySize, valueSize, k, []) == true
    ensures !Free(s.m, s.r, Total(keySize, valueSize)) && Live(s'.r) != []
  {
    hide Doomed, Locked, Stays, Clears;
  }

  lemma AllocatesPlaced(m: seq<byte>, r: Ring, m': seq<byte>, r': Ring, entry: nat, keySize: nat, valueSize: nat,
                        k: nat)
    requires StepBy(QueueState(m, r), QueueState(m', r'), k, [Block(entry, keySize, valueSize)]) == true
    requires EvictsDoomed(r, Total(keySize, valueSize), k) == true
    requires entry == if NeedsWrap(r, Total(keySize, valueSize)) then 0 else r.write
    ensures var b := Block(entry, keySize, valueSize);
            Allocates(QueueState(m, r), QueueState(m', r'), keySize, valueSize, k, [b]) == true
  {
    ReclaimsAll(m, r, Total(keySize, valueSize), k);
  }

  lemma AllocatesBounds(s: QueueState, s': QueueState, keySize: nat, valueSize: nat, k: nat, added: seq<Block>)
    requires Allocates(s, s', keySize, valueSize, k, added) == true
    ensures k <= |Live(s.r)| && (added == [] ==> k < |Live(s.r)|)
  {
    hide Doomed, StepBy, Locked, Clears;
  }

  lemma AllocatesDoomed(s: QueueState, s': QueueState, keySize: nat, valueSize: nat, k: nat, added: seq<Block>, i: nat)
    requires Allocates(s, s', keySize, valueSize, k, added) == true && i < |Live(s.r)|
    ensures i < k || (added == [] && i == k) ==> Doomed(s.r, Total(keySize, valueSize), i)
    ensures added != [] && Doomed(s.r, Total(keySize, valueSize), i) ==> i < k
  {
    hide Doomed, StepBy, Locked, Reclaims;
  }

  /** What an allocation evicts, in indices and byte counts: the i-th oldest entry goes exactly if it is in
      the way; a blocked allocation has only got to entries in the way. */
  lemma AllocatesInNumbers(s: QueueState, s': QueueState, keySize: nat, valueSize: nat, k: nat, added: seq<Block>,
                           i: nat)
    requires Shape(s.r) && Allocates(s, s', keySize, valueSize, k, added) == true && i < |Live(s.r)|
    ensures k <= |Live(s.r)| && (added == [] ==> k < |Live(s.r)|)
    ensures var total, at := (16 + keySize + valueSize) % 0x1_0000_0000, Live(s.r)[i].offset;
            var write, read := s.r.write, s.r.read;
            var near := if write + total + 16 < s.r.capacity then write <= read <= at <= write + total + 16
                        else (write < read && read <= at) || at <= total + 16;
            (added != [] ==> (i < k <==> near)) && (added == [] && i <= k ==> near)
  {
    hide Shape, Doomed, Allocates;
    AllocatesBounds(s, s', keySize, valueSize, k, added);
    AllocatesDoomed(s, s', keySize, valueSize, k, added, i);
    InTheWay(s.r, Total(keySize, valueSize), i);
  }

  /** With room for the entry and a marker behind the write index, an allocation evicts nothing. */
  lemma AllocatesWithRoom(s: QueueState, s': QueueState, keySize: nat, valueSize: nat, k: nat, added: seq<Block>)
    requires Shape(s.r) && Allocates(s, s', keySize, valueSize, k, added) == true
    ensures var total, write := 16 + keySize + valueSize, s.r.write;
            && total < 0x1_0000_0000 && write + total + 16 < s.r.capacity
            && (s.r.read < write || Live(s.r) == [] || write + total + 16 < s.r.read) ==>
              k == 0 && added != []
  {
    hide Shape, Doomed, Allocates;
    AllocatesBounds(s, s', keySize, valueSize, k, added);
    if Live(s.r) != [] {
      AllocatesInNumbers(s, s', keySize, valueSize, k, added, 0);
    }
  }

  ghost predicate Expired(m: seq<byte>, b: Block, time: nat) {
    b.End() <= |m| && (!HeaderAt(m, b.offset).active || HeaderAt(m, b.offset).expiry <= time)
  }

  lemma SoundActive(m: seq<byte>, r: Ring, view: map<Key, EntryRef>, keys: iset<Key>)
    requires RingOk(m, r) && Live(r) != [] && Sound(m, Live(r), view, keys)
    ensures Live(r)[0].End() <= |m|
    ensures Active(m, Live(r)[0]) ==> KeyBytes(m, Live(r)[0]) in keys
  {
    assert Recorded(m, Live(r)[0]);
  }

  class MemoryQueue {
    const index: EntryHashMap
    var buffer: array<byte>
    var entryCount: nat
    var occupiedBytes: nat
    var capacityBytes: nat
    var readIndex: nat
    var writeIndex: nat

    ghost var older: seq<Block>
    ghost var newer: seq<Block>
    ghost var mark: nat

    ghost function R(): Ring
      reads this
    {
      Ring(capacityBytes, readIndex, writeIndex, older, newer, mark)
    }

    ghost function M(): seq<byte>
      reads this, buffer
    {
      buffer[..]
    }

    ghost function S(): QueueState
      reads this, buffer
    {
      QueueState(M(), R())
    }

    /** The live entries, oldest first. */
    ghost function Entries(): seq<Block>
      reads this
    {
      Live(R())
    }

    ghost function View(): map<Key, EntryRef>
      reads index.hashmap, index.hashmap.buckets
      requires index.hashmap.nbuckets <= index.hashmap.buckets.Length
    {
      index.View()
    }

    /** Layout and counters; the marker need not fit behind the last entry. */
    ghost predicate RingValid()
      reads this, buffer
    {
      && RingOk(M(), R())
      && entryCount == |Entries()|
      && occupiedBytes == TotalSize(Entries())
    }

    ghost predicate IndexSound()
      reads this, buffer, index.hashmap, index.hashmap.buckets
    {
      index.Valid() && Sound(M(), Entries(), View(), index.keys)
    }

    // The two comparisons with true keep the parts whole for the verifier.
    ghost predicate Valid()
      reads this, buffer, index.hashmap, index.hashmap.buckets
    {
      && index.hashmap.nbuckets <= index.hashmap.buckets.Length
      && RingValid() == true && Room(R()) && IndexSound() == true
    }

    /** The index holds every active live entry. */
    ghost predicate IndexExact()
      reads this, buffer, index.hashmap, index.hashmap.buckets
      requires index.hashmap.nbuckets <= index.hashmap.buckets.Length
    {
      Exact(M(), Entries(), View())
    }

    /** memory_queue_open on malloc'ed memory of any content. */
    constructor (memory: array<byte>, index: EntryHashMap)
      requires index.Valid() && index.View() == map[]
      ensures Valid() && IndexExact() && Entries() == []
      ensures buffer == memory && this.index == index && capacityBytes == memory.Length
    {
      this.index, buffer := index, memory;
      entryCount, occupiedBytes, capacityBytes, readIndex, writeIndex := 0, 0, memory.Length, 0, 0;
      older, newer, mark := [], [], 0;
      new;
      hide HashMap.Valid, Calm, RingOk, Sound, Exact;
      EmptyIsValid(M(), R(), View(), index.keys);
    }

    function TotalOf(h: Header): nat {
      Total(h.keySize, h.valueSize)
    }

    /** The key behind the header at `at`. */
    function KeyAt(at: nat): (k: seq<byte>)
      reads this, buffer
      requires at + H <= buffer.Length && at + H + HeaderAt(buffer[..], at).keySize <= buffer.Length
    {
      buffer[at + H..at + H + HeaderAt(buffer[..], at).keySize]
    }

    lemma HeadFacts()
      requires RingValid() && Entries() != []
      ensures Entries()[0].offset == readIndex && Entries()[0].End() <= buffer.Length
      ensures var h := HeaderAt(buffer[..], readIndex);
              && InRange(h) && TotalOf(h) == Entries()[0].Size()
              && h.keySize == Entries()[0].keySize && h.valueSize == Entries()[0].valueSize
              && KeyAt(readIndex) == KeyBytes(M(), Entries()[0]) && |KeyAt(readIndex)| < U16
      ensures entryCount > 0 && occupiedBytes >= Entries()[0].Size()
    {
      hide HeaderAt;
      HeaderInRange(buffer[..], readIndex) by {
        RemoveFirst(M(), R());
        LiveBounds(R(), 0);
      }
      RemoveFirst(M(), R());
      assert Recorded(M(), Entries()[0]);
      assert Entries()[0] in Entries();
    }

    /** What remove_entry finds at the read index, and behind the entry there. */
    lemma RemoveFacts()
      requires Valid() && Entries() != []
      ensures Entries()[0].offset == readIndex && Entries()[0].End() + H <= buffer.Length
      ensures var h := HeaderAt(M(), readIndex);
              && TotalOf(h) == Entries()[0].Size()
              && (h.locks != 0 <==> Locked(M(), Entries()[0])) && (h.active <==> Active(M(), Entries()[0]))
              && readIndex + H + h.keySize <= buffer.Length && |KeyAt(readIndex)| < U16
              && KeyAt(readIndex) == KeyBytes(M(), Entries()[0])
              && (h.active ==> KeyAt(readIndex) in index.keys)
      ensures entryCount > 0 && occupiedBytes >= Entries()[0].Size() && Pointers(View(), buffer.Length)
      ensures WellSized(Entries()[0])
      ensures Marked(ForgetMemory(M(), R(), View()), Entries()[0].End()) <==> |older| == 1 || StaleMark(M(), R())
    {
      hide HeaderAt, ErasedMemory, HashMap.Valid, Calm;
      HeadFacts();
      var m', view' := Forget(M(), R(), View(), index.keys);
      NextHeader(m', R());
      SoundActive(M(), R(), View(), index.keys);
    }

    /** entry_hash_map_delete for the entry at `at`; the environment decides whether the
        index finds memory to shrink. */
    method Unmap(at: nat)
      requires index.Valid() && Pointers(View(), buffer.Length)
      requires at + H <= buffer.Length && at + H + HeaderAt(M(), at).keySize <= buffer.Length
      requires |KeyAt(at)| < U16 && KeyAt(at) in index.keys
      modifies buffer, index.hashmap, index.hashmap.buckets
      ensures index.Valid() && (index.hashmap.buckets == old(index.hashmap.buckets) || fresh(index.hashmap.buckets))
      ensures M() == ErasedMemory(old(M()), old(View()), old(KeyAt(at)))
      ensures View() == old(View()) - {old(KeyAt(at))}
    {
      hide Deactivated, HeaderAt, HashMap.Valid, Calm;
      var memory: Memory := *;
      index.Delete(buffer, InRing(at, KeyAt(at)), memory);
    }

    /** Lines 140-143: start over at the front if the header at the read index is the marker. */
    method SkipMarker()
      requires readIndex + H <= buffer.Length
      modifies this`readIndex
      ensures readIndex == if Marked(M(), old(readIndex)) then 0 else old(readIndex)
    {
      if HeaderAt(buffer[..], readIndex).endOfBuffer {
        readIndex := 0;
      }
    }

    /** remove_entry.  It reads one header beyond the removed entry; if that is stale memory
        with the marker bit set, the ring is lost. */
    method RemoveEntry(at: nat) returns (result: QueueResult)
      requires Valid() && Entries() != [] && at == readIndex
      modifies this`entryCount, this`readIndex, this`occupiedBytes, this`older, this`newer
      modifies buffer, index.hashmap, index.hashmap.buckets
      ensures index.Valid() && (index.hashmap.buckets == old(index.hashmap.buckets) || fresh(index.hashmap.buckets))
      ensures result == if old(Locked(M(), Entries()[0])) then WriteBlocked else Success
      ensures result == WriteBlocked ==>
                && R() == old(R()) && M() == old(M()) && View() == old(View())
                && entryCount == old(entryCount) && occupiedBytes == old(occupiedBytes)
      ensures result == Success ==>
                M() == old(ForgetMemory(M(), R(), View())) && View() == old(ForgetView(M(), R(), View()))
      ensures result == Success ==>
                R() == if old(StaleMark(M(), R())) then old(WithoutFirst(R())).(read := 0) else old(WithoutFirst(R()))
      ensures result == Success ==>
                entryCount == old(entryCount) - 1 && occupiedBytes == old(occupiedBytes - Entries()[0].Size())
    {
      hide HeaderAt, ErasedMemory, HashMap.Valid, Calm, RingOk, Sound, Pointers, Active, Locked, KeyBytes, StaleMark,
           WellSized, Marked;
      RemoveFacts();
      var h := HeaderAt(buffer[..], at);
      var total := TotalOf(h);
      if h.locks != 0 {
        return WriteBlocked;
      }
      entryCount := entryCount - 1;
      readIndex := readIndex + total;
      occupiedBytes := occupiedBytes - total;
      if h.active {
        Unmap(at);
      }
      if older != [] {
        older := older[1..];
      } else {
        newer := newer[1..];
      }
      SkipMarker();
      return Success;
    }

    /** Mark the entry at the read index inactive and take it out of the index. */
    method Retire(at: nat)
      requires Valid() && Entries() != [] && at == readIndex && Active(M(), Entries()[0])
      modifies buffer, index.hashmap, index.hashmap.buckets
      ensures Valid() && (index.hashmap.buckets == old(index.hashmap.buckets) || fresh(index.hashmap.buckets))
      ensures AllKept(old(M()), M(), Entries()) && !Active(M(), Entries()[0])
      ensures old(IndexExact()) ==> IndexExact() && StillActive(old(M()), M(), Entries(), 1)
    {
      hide HeaderAt, ErasedMemory, Deactivated, HashMap.Valid, Calm, KeyBytes;
      RemoveFacts();
      RetireFirst(M(), R(), View(), index.keys);
      DeactivateFirst(M(), R(), View(), index.keys);
      Deactivate(buffer, at);
      HeadFacts();
      Unmap(at);
    }

    /** force_clean: evict the oldest entry, or, when readers hold it, retire it. */
    method ForceClean() returns (result: QueueResult)
      requires Valid() && older != []
      modifies this`entryCount, this`readIndex, this`occupiedBytes, this`older, this`newer
      modifies buffer, index.hashmap, index.hashmap.buckets
      ensures Valid() && (index.hashmap.buckets == old(index.hashmap.buckets) || fresh(index.hashmap.buckets))
      ensures result == if old(Locked(M(), Entries()[0])) then WriteBlocked else Success
      ensures R() == if result == Success then old(WithoutFirst(R())) else old(R())
      ensures result == WriteBlocked ==> !Active(M(), Entries()[0])
      ensures AllKept(old(M()), M(), old(Entries()))
      ensures old(IndexExact()) ==> IndexExact() && StillActive(old(M()), M(), old(Entries()), 1)
    {
      hide HeaderAt, ErasedMemory, Deactivated, HashMap.Valid, Calm, KeyBytes, Tiles, Marked, Recorded, Pointers, Leads,
           SameEntry, Locked, RingOk, Sound;
      assert entryCount > 0;
      var at := readIndex;
      EvictFacts();
      result := RemoveEntry(at);
      if result == WriteBlocked {
        if HeaderAt(buffer[..], at).active {
          Retire(at);
        }
      }
    }

    /** Removing the oldest entry leaves a valid queue, unless stale memory is mistaken for
        the marker. */
    lemma EvictFacts()
      requires Valid() && Entries() != []
      ensures WellSized(Entries()[0]) && Entries()[0].offset == readIndex && Entries()[0].End() <= |M()|
      ensures Pointers(View(), |M()|)
      ensures var m', r', view' := ForgetMemory(M(), R(), View()), WithoutFirst(R()), ForgetView(M(), R(), View());
              && RingOk(m', r') && Room(r') && Sound(m', Live(r'), view', index.keys)
              && Live(r') == Entries()[1..]
              && AllKept(M(), m', Entries())
              && (IndexExact() ==> Exact(m', Live(r'), view') && StillActive(M(), m', Entries(), 1))
      ensures entryCount == |Entries()| && occupiedBytes == Entries()[0].Size() + TotalSize(Entries()[1..])
      ensures HeaderAt(M(), readIndex).active <==> Active(M(), Entries()[0])
      ensures AllKept(M(), M(), Entries())
    {
      hide HeaderAt, ErasedMemory, HashMap.Valid, Calm, KeyBytes;
      HeadFacts();
      var m', view' := Forget(M(), R(), View(), index.keys);
      RemoveFirst(m', R());
      RemoveFirst(M(), R());
      DropFirst(m', Entries(), view', index.keys);
      forall i: nat | i < |Entries()| ensures Kept(M(), M(), Entries()[i]) {
        LiveWithin(M(), R(), i);
        SameIsKept(M(), M(), Entries()[i]);
      }
    }

    /** memory_queue_clean.  The ring survives exactly when the code does not mistake stale
        memory behind the last entry for the end-of-buffer marker. */
    method Clean(time: nat) returns (result: QueueResult)
      requires Valid()
      modifies this`entryCount, this`readIndex, this`occupiedBytes, this`older, this`newer
      modifies buffer, index.hashmap, index.hashmap.buckets
      ensures index.hashmap.buckets == old(index.hashmap.buckets) || fresh(index.hashmap.buckets)
      ensures result == if old(Entries() == [] || !Expired(M(), Entries()[0], time)) then NoAction
                        else if old(Locked(M(), Entries()[0])) then WriteBlocked
                        else Success
      ensures result != Success ==> Valid() && R() == old(R()) && M() == old(M()) && View() == old(View())
      ensures result == Success ==> Valid() == !old(StaleMark(M(), R()))
      ensures Valid() && result == Success ==> R() == old(WithoutFirst(R())) && AllKept(old(M()), M(), old(Entries()))
      ensures result == Success && old(StaleMark(M(), R())) ==> entryCount == 0 && readIndex == 0 < writeIndex
      ensures Valid() ==> StepBy(old(S()), S(), if result == Success then 1 else 0, []) == true
      ensures Valid() && old(IndexExact()) ==> IndexExact() == true
      ensures Valid() && result == Success && old(IndexExact()) ==>
                StillActive(old(M()), M(), old(Entries()), 1) == true
      // in fields: when it removes the oldest entry, and when it is kept from doing so
      ensures old(entryCount) > 0 ==> old(readIndex) + 16 <= buffer.Length
      ensures old(entryCount) == 0 ==> result == NoAction
      ensures old(entryCount) > 0 ==>
                var h := HeaderAt(old(M()), old(readIndex));
                result == if h.active && h.expiry > time then NoAction
                          else if h.locks != 0 then WriteBlocked else Success
      ensures result == Success ==> entryCount == old(entryCount) - 1
    {
      hide HeaderAt, ErasedMemory, Deactivated, HashMap.Valid, Calm, KeyBytes, StepBy, Expired, Locked, AllKept,
           StaleMark, RingOk, Sound, Exact, Room, StillActive, Active, Pointers, Marked, WellSized;
      CountIs();
      StandStill();
      if entryCount != 0 {
        RemoveFacts();
        ExpiredHead(time);
        var h := HeaderAt(buffer[..], readIndex);
        if !h.active || h.expiry <= time {
          result := CleanHead();
          return;
        }
      }
      result := NoAction;
    }

    lemma ExpiredHead(time: nat)
      requires Valid() && Entries() != [] && readIndex + H <= buffer.Length
      ensures Expired(M(), Entries()[0], time) <==>
              !HeaderAt(buffer[..], readIndex).active || HeaderAt(buffer[..], readIndex).expiry <= time
    {
      hide HeaderAt;
      HeadFacts();
    }

    /** A stale marker can be recognised before the call. */
    lemma StaleMarkIs()
      requires Valid()
      ensures entryCount > 0 ==> writeIndex + H <= buffer.Length
      ensures StaleMark(M(), R()) <==>
              entryCount == 1 && readIndex < writeIndex && HeaderAt(buffer[..], writeIndex).endOfBuffer
    {
      hide HeaderAt;
      HeadPlace();
      StaleIsNotAtStart();
      TilesBytes(newer, if older == [] then readIndex else 0, writeIndex);
    }

    lemma StandStill()
      requires Valid()
      ensures Quiet(S(), S())
    {
      forall i: nat | i < |Entries()| ensures Stays(M(), M(), Entries()[i]) {
        LiveWithin(M(), R(), i);
      }
      QuietStep(M(), M(), R());
    }

    /** memory_queue_clean once it has decided to remove the oldest entry. */
    method CleanHead() returns (result: QueueResult)
      requires Valid() && Entries() != []
      modifies this`entryCount, this`readIndex, this`occupiedBytes, this`older, this`newer
      modifies buffer, index.hashmap, index.hashmap.buckets
      ensures index.hashmap.buckets == old(index.hashmap.buckets) || fresh(index.hashmap.buckets)
      ensures result == if old(Locked(M(), Entries()[0])) then WriteBlocked else Success
      ensures result != Success ==> Valid() && R() == old(R()) && M() == old(M()) && View() == old(View())
      ensures result == Success ==> Valid() == !old(StaleMark(M(), R()))
      ensures Valid() && result == Success ==> R() == old(WithoutFirst(R())) && AllKept(old(M()), M(), old(Entries()))
      ensures Valid() ==> StepBy(old(S()), S(), if result == Success then 1 else 0, []) == true
      ensures Valid() && old(IndexExact()) ==> IndexExact() == true
      ensures Valid() && result == Success && old(IndexExact()) ==>
                StillActive(old(M()), M(), old(Entries()), 1) == true
      ensures result == Success && old(StaleMark(M(), R())) ==> entryCount == 0 && readIndex == 0 < writeIndex
      ensures result == Success ==> entryCount == old(entryCount) - 1
    {
      hide HeaderAt, ErasedMemory, ForgetMemory, ForgetView, Deactivated, HashMap.Valid, Calm, KeyBytes, Sound, Kept,
           Active, StepBy;
      EvictFacts();
      HeadPlace();
      StaleIsNotAtStart();
      StandStill();
      ghost var m, r := M(), R();
      result := RemoveEntry(readIndex);
      if result == Success && !StaleMark(m, r) {
        CleanStep(m, r, M(), R());
      }
    }

    lemma CleanStep(m: seq<byte>, r: Ring, m': seq<byte>, r': Ring)
      requires RingOk(m, r) && Live(r) != [] && r' == WithoutFirst(r)
      requires AllKept(m, m', Live(r)) && !Locked(m, Live(r)[0])
      ensures StepBy(QueueState(m, r), QueueState(m', r'), 1, [])
    {
      hide HeaderAt, Kept, Locked;
      RemoveFirst(m, r);
      AllocationStep(m, r, m', r', 1, []);
    }

    lemma StaleIsNotAtStart()
      requires Valid()
      ensures StaleMark(M(), R()) ==> writeIndex > 0
    {
      if StaleMark(M(), R()) {
        TilesBytes(newer, readIndex, writeIndex);
      }
    }

    /** One turn of either cleaning loop, for an allocation that began in (m0, r0). */
    method CleanOne(ghost m0: seq<byte>, ghost r0: Ring, ghost exact: bool, ghost k: nat) returns (result: QueueResult)
      requires Valid() && older != [] && Progress(m0, r0, exact, M(), R(), k, k)
      requires exact ==> IndexExact() == true
      modifies this`entryCount, this`readIndex, this`occupiedBytes, this`older, this`newer
      modifies buffer, index.hashmap, index.hashmap.buckets
      ensures Valid() && (index.hashmap.buckets == old(index.hashmap.buckets) || fresh(index.hashmap.buckets))
      ensures exact ==> IndexExact() == true
      ensures k < |Live(r0)| && newer == old(newer)
      ensures result == Success ==>
                && Progress(m0, r0, exact, M(), R(), k + 1, k + 1)
                && older == old(older)[1..] && (older == [] || writeIndex < readIndex)
      ensures result != Success ==>
                && result == WriteBlocked && Progress(m0, r0, exact, M(), R(), k, k + 1)
                && older == old(older) && Locked(m0, Live(r0)[k]) && !Active(M(), Entries()[0])
    {
      hide HeaderAt, HashMap.Valid, Calm, Kept, Active, Locked, KeyBytes, Recorded, IndexSound, IndexExact, RingValid,
           Cleaned, StillActive, Sound;
      ghost var m1, r1 := M(), R();
      HeadPlace();
      result := ForceClean();
      ProgressStep(m0, r0, exact, m1, r1, M(), R(), k, result != Success);
      HeadPlace();
    }

    /** The first cleaning loop of memory_queue_allocate, lines 59-64: everything up to the
        marker goes. */
    method CleanAhead() returns (result: QueueResult, ghost k: nat)
      requires Valid()
      modifies this`entryCount, this`readIndex, this`occupiedBytes, this`older, this`newer
      modifies buffer, index.hashmap, index.hashmap.buckets
      ensures Valid() && (index.hashmap.buckets == old(index.hashmap.buckets) || fresh(index.hashmap.buckets))
      ensures Progress(old(M()), old(R()), old(IndexExact()), M(), R(), k, if result == Success then k else k + 1)
      ensures k <= |old(older)| && older == old(older)[k..] && newer == old(newer)
      ensures result == Success ==>
                writeIndex >= readIndex && k == if old(writeIndex < readIndex) then |old(older)| else 0
      ensures result != Success ==>
                && result == WriteBlocked && old(writeIndex < readIndex) && k < |old(older)|
                && Locked(old(M()), old(Entries())[k]) && !Active(M(), Entries()[0])
      ensures old(IndexExact()) ==> IndexExact() == true
    {
      hide HeaderAt, HashMap.Valid, Calm, Active, Locked, IndexSound, IndexExact, RingValid, Cleaned, StillActive;
      ghost var m0, r0, exact := M(), R(), IndexExact();
      k := 0;
      NoProgress(exact);
      while writeIndex < readIndex
        invariant Valid() && (index.hashmap.buckets == old(index.hashmap.buckets) || fresh(index.hashmap.buckets))
        invariant Progress(m0, r0, exact, M(), R(), k, k)
        invariant k <= |r0.older| && older == r0.older[k..] && newer == r0.newer
        invariant k == 0 ==> readIndex == r0.read
        invariant k > 0 ==> r0.write < r0.read && (older == [] || writeIndex < readIndex)
        invariant exact ==> IndexExact() == true
        decreases |older|
      {
        HeadPlace();
        result := CleanOne(m0, r0, exact, k);
        if result != Success {
          return;
        }
        k := k + 1;
      }
      HeadPlace();
      result := Success;
    }

    /** The second cleaning loop of memory_queue_allocate, lines 75-82: evict while the oldest
        entry is in the way of `total` bytes and a header. */
    method MakeRoom(total: nat) returns (result: QueueResult, ghost k: nat)
      requires Valid()
      modifies this`entryCount, this`readIndex, this`occupiedBytes, this`older, this`newer
      modifies buffer, index.hashmap, index.hashmap.buckets
      ensures Valid() && (index.hashmap.buckets == old(index.hashmap.buckets) || fresh(index.hashmap.buckets))
      ensures RoomSought(old(M()), old(R()), old(IndexExact()), total, M(), R(), k, result == Success) == true
      ensures result != Success ==> result == WriteBlocked && Entries() != [] && !Active(M(), Entries()[0])
      ensures old(IndexExact()) ==> IndexExact() == true
    {
      hide HeaderAt, HashMap.Valid, Calm, Active, Locked, IndexSound, IndexExact, RingValid, Cleaned, StillActive;
      ghost var m0, r0, exact := M(), R(), IndexExact();
      k := 0;
      NoProgress(exact);
      while entryCount > 0 && writeIndex <= readIndex && writeIndex + total + H >= readIndex
        invariant Valid() && (index.hashmap.buckets == old(index.hashmap.buckets) || fresh(index.hashmap.buckets))
        invariant Progress(m0, r0, exact, M(), R(), k, k)
        invariant k <= |r0.older| && older == r0.older[k..] && newer == r0.newer
        invariant forall i: nat :: i < k ==> r0.older[i].offset <= writeIndex + total + H
        invariant exact ==> IndexExact() == true
        decreases |older|
      {
        HeadPlace();
        assert r0.older[k] == older[0];
        result := CleanOne(m0, r0, exact, k);
        if result != Success {
          return;
        }
        k := k + 1;
      }
      HeadPlace();
      result := Success;
    }

    method SetMark(at: nat)
      requires at + H <= buffer.Length
      modifies buffer
      ensures M() == MarkAt(old(M()), at)
    {
      Write(buffer, at, HeaderAt(buffer[..], at).(endOfBuffer := true));
    }

    /** Lines 66-72: set the marker at the write index and start over at the front. */
    method WrapAround()
      requires Valid() && writeIndex + H <= buffer.Length
      requires older == [] || (readIndex == 0 && writeIndex == 0)
      modifies buffer, this`readIndex, this`writeIndex, this`older, this`newer, this`mark
      ensures Valid() && R() == Wrapped(old(R())) && Entries() == old(Entries())
      ensures forall i: nat :: i < |Entries()| ==> SameEntry(old(M()), M(), Entries()[i])
      ensures old(IndexExact()) ==> IndexExact() == true
    {
      hide HeaderAt, HashMap.Valid, Calm, SameEntry, KeyBytes, Marked, Tiles, MarkAt, RingOk, Sound;
      HeadPlace();
      WrapConsistent(M(), R(), View(), index.keys);
      SetMark(writeIndex);
      if older == [] && newer != [] {
        older, newer, mark := newer, [], writeIndex;
      }
      if readIndex == writeIndex {
        readIndex := 0;
      }
      writeIndex := 0;
    }

    /** Lines 84-93: write the new entry's header and account for it. */
    method WriteEntry(keySize: nat, valueSize: nat, expiry: nat, total: nat)
      requires writeIndex + H <= buffer.Length && keySize < U16 && valueSize < U32
      modifies buffer, this`entryCount, this`writeIndex, this`occupiedBytes, this`newer
      ensures M() == WithHeader(old(M()), old(writeIndex), NewHeader(keySize, valueSize, expiry))
      ensures R() == old(R()).(newer := old(newer) + [Block(old(writeIndex), keySize, valueSize)],
                               write := old(writeIndex) + total)
      ensures entryCount == old(entryCount) + 1 && occupiedBytes == old(occupiedBytes) + total
    {
      Write(buffer, writeIndex, NewHeader(keySize, valueSize, expiry));
      newer := newer + [Block(writeIndex, keySize, valueSize)];
      entryCount := entryCount + 1;
      writeIndex := writeIndex + total;
      occupiedBytes := occupiedBytes + total;
    }

    /** The new header and block keep layout and agreement, if their size fits 32 bits. */
    lemma PlaceFacts(keySize: nat, valueSize: nat, expiry: nat)
      requires Valid() && WellSized(Block(writeIndex, keySize, valueSize))
      requires Block(writeIndex, keySize, valueSize).End() <= capacityBytes
      requires older != [] ==> Block(writeIndex, keySize, valueSize).End() + H < readIndex
      ensures var b, h := Block(writeIndex, keySize, valueSize), NewHeader(keySize, valueSize, expiry);
              var m', r' := WithHeader(M(), writeIndex, h), Appended(R(), b);
              && RingOk(m', r') && Sound(m', Live(r'), View(), index.keys) && Live(r') == Entries() + [b]
              && (IndexExact() ==> Exact(m', Live(r'), View()))
              && (Room(r') <==> b.End() + H <= capacityBytes)
              && TotalSize(Live(r')) == TotalSize(Entries()) + b.Size() && HeaderAt(m', writeIndex) == h
              && (forall i: nat :: i < |Entries()| ==>
                    SameEntry(M(), m', Entries()[i]) && Apart(b.offset, b.End(), Entries()[i]))
    {
      hide HeaderAt, HashMap.Valid, Calm, SameEntry, KeyBytes, Marked, Shape, Headers, WithHeader;
      var b, h := Block(writeIndex, keySize, valueSize), NewHeader(keySize, valueSize, expiry);
      AppendKeeps(M(), R(), b, h);
      var m' := WithHeader(M(), writeIndex, h);
      SoundSame(M(), m', Entries(), View(), index.keys);
      assert !Active(m', b);
      AddInactive(m', Entries(), View(), index.keys, b);
    }

    /** What lines 84-93 make of the queue.  If the total has overflowed, the header claims more
        bytes than were set aside, and the queue is lost. */
    method PlaceEntry(keySize: nat, valueSize: nat, expiry: nat)
      requires Valid() && keySize < U16 && valueSize < U32
      requires writeIndex + H <= capacityBytes && writeIndex + Total(keySize, valueSize) <= capacityBytes
      requires older != [] ==> writeIndex + Total(keySize, valueSize) + H < readIndex
      modifies buffer, this`entryCount, this`writeIndex, this`occupiedBytes, this`newer
      ensures index.Valid() && writeIndex == old(writeIndex) + Total(keySize, valueSize)
      ensures !Fits(keySize, valueSize) ==> !RingValid()
      ensures Fits(keySize, valueSize) ==>
                && RingValid() == true && IndexSound() == true
                && R() == Appended(old(R()), Block(old(writeIndex), keySize, valueSize))
                && (Room(R()) <==> writeIndex + H <= capacityBytes)
                && Entries() == old(Entries()) + [Block(old(writeIndex), keySize, valueSize)]
                && HeaderAt(M(), old(writeIndex)) == NewHeader(keySize, valueSize, expiry)
                && (forall i: nat :: i < |old(Entries())| ==>
                      && SameEntry(old(M()), M(), old(Entries())[i])
                      && Apart(old(writeIndex), writeIndex, old(Entries())[i]))
                && (old(IndexExact()) ==> IndexExact() == true)
    {
      hide HeaderAt, HashMap.Valid, Calm, SameEntry, KeyBytes, Marked, Shape, Headers, WithHeader, NewHeader, Sound,
           Exact;
      if Fits(keySize, valueSize) {
        PlaceFacts(keySize, valueSize, expiry);
      }
      WriteEntry(keySize, valueSize, expiry, Total(keySize, valueSize));
      if !Fits(keySize, valueSize) {
        Oversized(R(), Block(old(writeIndex), keySize, valueSize));
      }
    }

    /** Lines 56-73: go back to the front of the buffer if `total` bytes and a marker do not fit
        behind the write index.  r1 is the ring just before the wrap. */
    method WrapIfNeeded(total: nat) returns (result: QueueResult, entry: nat, ghost k: nat, ghost r1: Ring)
      requires Valid() && H <= capacityBytes && total <= capacityBytes
      modifies this`entryCount, this`readIndex, this`writeIndex, this`occupiedBytes, this`older, this`newer, this`mark
      modifies buffer, index.hashmap, index.hashmap.buckets
      ensures Valid() && (index.hashmap.buckets == old(index.hashmap.buckets) || fresh(index.hashmap.buckets))
      ensures Progress(old(M()), old(R()), old(IndexExact()), M(), R(), k, if result == Success then k else k + 1)
      ensures result == Success ==>
                && entry == writeIndex == (if old(writeIndex) + total + 16 >= capacityBytes then 0 else old(writeIndex))
                && Positioned(old(R()), total, r1, R(), k)
      ensures result != Success ==>
                && BlockedAt(old(M()), old(R()), total, k)
                && result == WriteBlocked && Entries() != [] && !Active(M(), Entries()[0])
      ensures old(IndexExact()) ==> IndexExact() == true
    {
      hide HeaderAt, HashMap.Valid, Calm, Kept, Active, Locked, KeyBytes, Recorded, RingValid, IndexSound, IndexExact,
           SameEntry, Marked, Cleaned, StillActive;
      entry, k, r1 := writeIndex, 0, R();
      NoProgress(old(IndexExact()));
      result := Success;
      if writeIndex + total + H >= capacityBytes {
        result, k := CleanAhead();
        if result != Success {
          return;
        }
        HeadPlace();
        r1 := R();
        ghost var m := M();
        WrapAround();
        ProgressSame(old(M()), old(R()), old(IndexExact()), m, r1, M(), R(), k);
        entry := 0;
      }
    }

    /** Lines 56-82: find the place for `total` bytes, wrapping around and evicting. */
    method Prepare(total: nat) returns (result: QueueResult, entry: nat, ghost k: nat)
      requires Valid() && H <= capacityBytes && total <= capacityBytes
      modifies this`entryCount, this`readIndex, this`writeIndex, this`occupiedBytes, this`older, this`newer, this`mark
      modifies buffer, index.hashmap, index.hashmap.buckets
      ensures Valid() && (index.hashmap.buckets == old(index.hashmap.buckets) || fresh(index.hashmap.buckets))
      ensures Prepared(old(M()), old(R()), old(IndexExact()), total, M(), R(), k, result == Success) == true
      ensures result == Success ==>
                entry == writeIndex == (if old(writeIndex) + total + 16 >= capacityBytes then 0 else old(writeIndex))
      ensures result != Success ==> result == WriteBlocked && Entries() != [] && !Active(M(), Entries()[0])
      ensures old(IndexExact()) ==> IndexExact() == true
    {
      hide HeaderAt, HashMap.Valid, Calm, Kept, Active, Locked, KeyBytes, Recorded, RingValid, IndexSound, IndexExact,
           SameEntry, Marked, Cleaned, StillActive, EvictsDoomed, BlockedAt, Doomed;
      ShapeOf();
      ghost var m0, r0, exact := M(), R(), IndexExact();
      ghost var k1, r1;
      result, entry, k1, r1 := WrapIfNeeded(total);
      k := k1;
      if result == Success {
        result, k := RoomAt(total, m0, r0, r1, k1, exact);
      }
    }

    /** The second loop, in terms of the state (m0, r0) the allocation started from. */
    method RoomAt(total: nat, ghost m0: seq<byte>, ghost r0: Ring, ghost r1: Ring, ghost k1: nat, ghost exact: bool)
        returns (result: QueueResult, ghost k: nat)
      requires Valid() && Shape(r0) && Positioned(r0, total, r1, R(), k1)
      requires Progress(m0, r0, exact, M(), R(), k1, k1)
      requires exact ==> IndexExact()
      modifies this`entryCount, this`readIndex, this`occupiedBytes, this`older, this`newer
      modifies buffer, index.hashmap, index.hashmap.buckets
      ensures Valid() && (index.hashmap.buckets == old(index.hashmap.buckets) || fresh(index.hashmap.buckets))
      ensures Prepared(m0, r0, exact, total, M(), R(), k, result == Success) == true
      ensures result != Success ==> result == WriteBlocked && Entries() != [] && !Active(M(), Entries()[0])
      ensures exact ==> IndexExact() == true
    {
      hide HeaderAt, HashMap.Valid, Calm, RingValid, IndexSound, IndexExact, Positioned, Progress, Prepared, RoomSought,
           Active, Shape;
      ghost var m2, r2, was := M(), R(), IndexExact();
      ShapeOf();
      ghost var k2;
      result, k2 := MakeRoom(total);
      ShapeOf();
      k := k1 + k2;
      RoomIsPrepared(m0, r0, exact, total, r1, m2, r2, k1, was, M(), R(), k2, result == Success);
    }

    lemma NoProgress(exact: bool)
      requires Valid()
      ensures Progress(M(), R(), exact, M(), R(), 0, 0)
    {
      ProgressNone(M(), R(), exact);
    }

    /** How the indices order the two runs of entries. */
    lemma HeadPlace()
      requires Valid()
      ensures entryCount == |Entries()| && capacityBytes == buffer.Length
      ensures Entries() != [] ==> Entries()[0].offset == readIndex
      ensures writeIndex < readIndex ==> older != []
      ensures writeIndex <= readIndex && entryCount > 0 ==> older != []
      ensures older != [] && readIndex <= writeIndex ==> newer == [] && writeIndex == 0 && readIndex == 0
      ensures older != [] ==> writeIndex <= readIndex
      ensures Shape(R())
    {
      WrappedWhenAhead(R());
      if Entries() != [] {
        RemoveFirst(M(), R());
      }
    }

    lemma CountIs()
      requires Valid()
      ensures entryCount == |Entries()| && capacityBytes == R().capacity
    {
    }

    lemma ShapeOf()
      requires Valid()
      ensures Shape(R())
    {
    }

    /** memory_queue_allocate.  `k` counts the entries it evicts. */
    method Allocate(keySize: nat, valueSize: nat, expiry: nat) returns (result: QueueResult, entry: nat, ghost k: nat)
      requires Valid() && keySize < U16 && valueSize < U32 && (Fits(keySize, valueSize) || H <= capacityBytes)
      modifies this`entryCount, this`readIndex, this`writeIndex, this`occupiedBytes, this`older, this`newer, this`mark
      modifies buffer, index.hashmap, index.hashmap.buckets
      ensures index.hashmap.buckets == old(index.hashmap.buckets) || fresh(index.hashmap.buckets)
      // the queue is lost exactly when the sum of sizes overflows, or leaves no room for a marker
      ensures Valid() ==
              (result != Success || (Fits(keySize, valueSize) && H + keySize + valueSize + H <= capacityBytes))
      ensures Fits(keySize, valueSize) || result != Success ==> RingValid() == true && IndexSound() == true
      ensures (Fits(keySize, valueSize) || result != Success) && old(IndexExact()) ==> IndexExact() == true
      // out of memory: nothing happens
      ensures result == OutOfMemory <==> Total(keySize, valueSize) > capacityBytes
      ensures result == OutOfMemory ==> R() == old(R()) && M() == old(M()) && View() == old(View()) && k == 0
      // blocked: the oldest entry left is locked, in the way, and retired
      ensures result == WriteBlocked ==>
                && Allocates(old(S()), S(), keySize, valueSize, k, []) == true
                && k < |old(Entries())| && Entries() == old(Entries())[k..] && !Active(M(), Entries()[0])
      // success: nothing is left in the way, and the new block overlaps no other
      ensures result == Success || result == WriteBlocked || result == OutOfMemory
      ensures result == Success ==>
                && Free(old(M()), old(R()), Total(keySize, valueSize)) == true
                && writeIndex == entry + Total(keySize, valueSize)
      ensures result == Success && Fits(keySize, valueSize) ==>
                && Allocates(old(S()), S(), keySize, valueSize, k, [Block(entry, keySize, valueSize)]) == true
                && Entries() == old(Entries())[k..] + [Block(entry, keySize, valueSize)]
                && writeIndex <= capacityBytes
                && HeaderAt(M(), entry) == Header(false, false, expiry % 0x4000_0000_0000_0000, valueSize, keySize, 0)
      // in numbers: out of memory, where the entry goes, and that nothing goes for it when there is room for
      // it and a marker behind the write index
      ensures result == OutOfMemory <==> (16 + keySize + valueSize) % 0x1_0000_0000 > capacityBytes
      ensures result == Success ==>
                entry == if old(writeIndex) + (16 + keySize + valueSize) % 0x1_0000_0000 + 16 >= capacityBytes then 0
                         else old(writeIndex)
      ensures var total, write := 16 + keySize + valueSize, old(writeIndex);
              && total < 0x1_0000_0000 && write + total + 16 < capacityBytes
              && (old(readIndex) < write || old(entryCount) == 0 || write + total + 16 < old(readIndex)) ==>
                && result == Success && k == 0 && entry == write
                && Entries() == old(Entries()) + [Block(write, keySize, valueSize)]
      // the rest is kept
      ensures Fits(keySize, valueSize) || result != Success ==>
                && k <= |old(Entries())| && KeptFrom(old(M()), M(), old(Entries()), k) == true
                && (old(IndexExact()) ==>
                      StillActive(old(M()), M(), old(Entries()), if result == WriteBlocked then k + 1 else k) == true)
    {
      hide HeaderAt, HashMap.Valid, Calm, Kept, Active, Locked, KeyBytes, Recorded, IndexSound, IndexExact, SameEntry,
           Marked, RingValid, Doomed, Clears, Reclaims, Allocates, StepBy, EvictsDoomed, BlockedAt, Free,
           Shape, Room;
      var total := Total(keySize, valueSize);
      k, entry := 0, 0;
      NoProgress(old(IndexExact()));
      ShapeOf();
      CountIs();
      ghost var m0, r0 := M(), R();
      if total > capacityBytes {
        return OutOfMemory, entry, k;
      }
      result, entry, k := Prepare(total);
      if result != Success {
        AllocationStep(m0, r0, M(), R(), k, []);
        AllocatesBlocked(m0, r0, M(), R(), keySize, valueSize, k);
        AllocatesWithRoom(QueueState(m0, r0), S(), keySize, valueSize, k, []);
        return;
      }
      ghost var m1, r1 := M(), R();
      PreparedIsFree(m0, r0, old(IndexExact()), total, m1, r1, k);
      PlaceEntry(keySize, valueSize, expiry);
      if Fits(keySize, valueSize) {
        ProgressSame(m0, r0, old(IndexExact()), m1, r1, M(), r1, k);
        AllocationStep(m0, r0, M(), R(), k, [Block(entry, keySize, valueSize)]);
        AllocatesPlaced(m0, r0, M(), R(), entry, keySize, valueSize, k);
        AllocatesWithRoom(QueueState(m0, r0), S(), keySize, valueSize, k, [Block(entry, keySize, valueSize)]);
      }
      return Success, entry, k;
    }

    /** memory_queue_allocate, and whether it loses the queue. */
    method Reserve(keySize: nat, valueSize: nat, expiry: nat) returns (added: seq<Block>, lost: bool, ghost k: nat)
      requires Valid() && keySize < U16 && valueSize < U32 && H <= capacityBytes
      modifies this`entryCount, this`readIndex, this`writeIndex, this`occupiedBytes, this`older, this`newer, this`mark
      modifies buffer, index.hashmap, index.hashmap.buckets
      ensures index.hashmap.buckets == old(index.hashmap.buckets) || fresh(index.hashmap.buckets)
      ensures lost == Spoils(old(M()), old(R()), keySize, valueSize) && Valid() == !lost
      ensures !lost && old(IndexExact()) ==> IndexExact() == true
      ensures Total(keySize, valueSize) > capacityBytes ==>
                added == [] && k == 0 && S() == old(S()) && View() == old(View())
      ensures !lost && Total(keySize, valueSize) <= capacityBytes ==>
                && Allocates(old(S()), S(), keySize, valueSize, k, added) == true
                && Spared(old(S()), S(), k, added, old(IndexExact())) == true
      // with room behind the write index, for the entry and a marker, that is where it goes, and nothing else does
      ensures var total, write := 16 + keySize + valueSize, old(writeIndex);
              && total < 0x1_0000_0000 && write + total + 16 < capacityBytes
              && (old(readIndex) < write || old(entryCount) == 0 || write + total + 16 < old(readIndex)) ==>
                !lost && k == 0 && added == [Block(write, keySize, valueSize)] && Entries() == old(Entries()) + added
    {
      hide HeaderAt, HashMap.Valid, Calm, IndexSound, IndexExact, RingValid, Room, Allocates, Free, KeptFrom,
           StillActive, Active;
      ghost var m, r := M(), R();
      var result, entry;
      result, entry, k := Allocate(keySize, valueSize, expiry);
      added := if result == Success then [Block(entry, keySize, valueSize)] else [];
      lost := result == Success && !(Fits(keySize, valueSize) && H + keySize + valueSize + H <= capacityBytes);
      if result == WriteBlocked {
        AllocatesNothing(QueueState(m, r), S(), keySize, valueSize, k);
      } else if result == Success && !lost {
        NewIsInactive(M(), added[0]);
      }
    }

    // ----- what connections and tests do to entries -----

    lemma EntryFacts(i: nat)
      requires RingValid() && i < |Entries()|
      ensures Entries()[i].End() <= |M()| && WellSized(Entries()[i])
      ensures InRange(HeaderAt(M(), Entries()[i].offset))
    {
      LiveWithin(M(), R(), i);
      HeaderInRange(M(), Entries()[i].offset);
    }

    /** What a client finds at the offset of a live entry. */
    lemma NamedFacts(i: nat)
      requires Valid() && i < |Entries()|
      ensures var b := Entries()[i];
              && b.End() <= buffer.Length && HeaderAt(buffer[..], b.offset).keySize == b.keySize
              && (HeaderAt(buffer[..], b.offset).active <==> Active(M(), b))
              && KeyAt(b.offset) == KeyBytes(M(), b) && |KeyAt(b.offset)| < U16
    {
      hide HeaderAt;
      assert Recorded(M(), Entries()[i]) && Entries()[i] in Entries();
    }

    /** Received bytes go into the payload of an entry that is not active yet.  Readers reach
        entries through the index, which holds active ones only, so nobody reads it. */
    method Fill(ghost i: nat, offset: nat, pos: nat, data: seq<byte>)
      requires Valid() && i < |Entries()| && Entries()[i].offset == offset
      requires !Active(M(), Entries()[i]) && !Locked(M(), Entries()[i])
      requires H <= pos && pos + |data| <= Entries()[i].Size()
      modifies buffer
      ensures Valid() && Quiet(old(S()), S())
      ensures offset + pos + |data| <= buffer.Length && M() == Splice(old(M()), offset + pos, data)
      ensures old(IndexExact()) ==> IndexExact() == true
    {
      hide HeaderAt, HashMap.Valid, Calm, KeyBytes, Tiles, Quiet;
      FillKeeps(M(), R(), i, pos, data, View(), index.keys);
      ghost var m := M();
      forall k | 0 <= k < |data| {
        buffer[offset + pos + k] := data[k];
      }
      assert M() == Splice(m, offset + pos, data);
    }

    /** Rewrite the header of a live entry in a way RewriteKeeps allows. */
    method Rewrite(ghost i: nat, offset: nat, h: Header)
      requires Valid() && i < |Entries()| && Entries()[i].offset == offset && InRange(h)
      requires Entries()[i].End() <= |M()|
      requires var h0 := HeaderAt(M(), offset);
               && h.keySize == h0.keySize && h.valueSize == h0.valueSize && h.endOfBuffer == h0.endOfBuffer
               && (h0.active ==> h.active)
      requires h.active ==> KeyBytes(M(), Entries()[i]) in index.keys
      modifies buffer
      ensures Valid() && Quiet(old(S()), S()) && Entries()[i].End() <= |M()|
      ensures M() == WithHeader(old(M()), offset, h) && HeaderAt(M(), offset) == h
      ensures KeyBytes(M(), Entries()[i]) == old(KeyBytes(M(), Entries()[i]))
      ensures old(IndexExact()) ==> ExactBut(M(), Entries(), View(), i)
      ensures old(IndexExact()) && (h.active ==> old(Active(M(), Entries()[i]))) ==> IndexExact() == true
      ensures forall j: nat :: j < |Entries()| && j != i ==> SameEntry(old(M()), M(), Entries()[j])
    {
      hide HeaderAt, HashMap.Valid, Calm, KeyBytes, Tiles, Quiet, WithHeader;
      RewriteKeeps(M(), R(), i, h, View(), index.keys);
      Write(buffer, offset, h);
    }

    /** `entry_header->active = 1`, for an entry whose key is in play. */
    method Activate(ghost i: nat, offset: nat)
      requires Valid() && i < |Entries()| && Entries()[i].offset == offset && Entries()[i].End() <= |M()|
      requires KeyBytes(M(), Entries()[i]) in index.keys
      modifies buffer
      ensures Valid() && Quiet(old(S()), S()) && Active(M(), Entries()[i])
      ensures M() == Activated(old(M()), Entries()[i])
      ensures Entries()[i].End() <= |M()| && KeyBytes(M(), Entries()[i]) == old(KeyBytes(M(), Entries()[i]))
      ensures old(IndexExact()) ==> ExactBut(M(), Entries(), View(), i)
      ensures forall j: nat :: j < |Entries()| && j != i ==> SameEntry(old(M()), M(), Entries()[j])
    {
      hide HeaderAt, HashMap.Valid, Calm, KeyBytes, Tiles, Quiet, RingValid, IndexSound, IndexExact, ExactBut;
      EntryFacts(i);
      Rewrite(i, offset, HeaderAt(buffer[..], offset).(active := true));
    }

    /** entry_header_acquire_lock on a live entry. */
    method AcquireLock(ghost i: nat, offset: nat) returns (event: LockEvent)
      requires Valid() && i < |Entries()| && Entries()[i].offset == offset && Entries()[i].End() <= |M()|
      modifies buffer
      ensures Valid() && Quiet(old(S()), S()) && Entries()[i].End() <= |M()|
      ensures old(IndexExact()) ==> IndexExact() == true
      ensures HeaderAt(old(M()), offset).locks < U16 && event == Acquire(HeaderAt(old(M()), offset).locks).1
      ensures var h := HeaderAt(old(M()), offset).(locks := Acquire(HeaderAt(old(M()), offset).locks).0);
              M() == WithHeader(old(M()), offset, h) && HeaderAt(M(), offset) == h
      ensures event != Blocked ==> Locked(M(), Entries()[i])
    {
      hide HeaderAt, HashMap.Valid, Calm, KeyBytes, Tiles, Quiet, RingValid, IndexExact, ExactBut;
      EntryFacts(i);
      KeyInPlay(i);
      var h := HeaderAt(buffer[..], offset);
      event := Acquire(h.locks).1;
      Rewrite(i, offset, h.(locks := Acquire(h.locks).0));
    }

    /** entry_header_release_lock on a live entry. */
    method ReleaseLock(ghost i: nat, offset: nat) returns (event: LockEvent)
      requires Valid() && i < |Entries()| && Entries()[i].offset == offset && Entries()[i].End() <= |M()|
      modifies buffer
      ensures Valid() && Quiet(old(S()), S()) && Entries()[i].End() <= |M()|
      ensures old(IndexExact()) ==> IndexExact() == true
      ensures HeaderAt(old(M()), offset).locks < U16 && event == Release(HeaderAt(old(M()), offset).locks).1
      ensures var h := HeaderAt(old(M()), offset).(locks := Release(HeaderAt(old(M()), offset).locks).0);
              M() == WithHeader(old(M()), offset, h) && HeaderAt(M(), offset) == h
    {
      hide HeaderAt, HashMap.Valid, Calm, KeyBytes, Tiles, Quiet, RingValid, IndexExact, ExactBut;
      EntryFacts(i);
      KeyInPlay(i);
      var h := HeaderAt(buffer[..], offset);
      event := Release(h.locks).1;
      Rewrite(i, offset, h.(locks := Release(h.locks).0));
    }

    lemma KeyInPlay(i: nat)
      requires Valid() && i < |Entries()| && Entries()[i].End() <= |M()|
      ensures HeaderAt(M(), Entries()[i].offset).active ==> KeyBytes(M(), Entries()[i]) in index.keys
    {
      assert Active(M(), Entries()[i]) == HeaderAt(M(), Entries()[i].offset).active;
    }

    /** entry_hash_map_put.  No mapped entry is left dangling exactly when the entry is active
        and not the one its key is already mapped to; connection.c never sets the bit. */
    method Put(ghost i: nat, entry: EntryRef, memory: Memory) returns (status: nat)
      requires Valid() && i < |Entries()| && Entries()[i].End() <= |M()|
      requires entry.InRing? && entry.offset == Entries()[i].offset && entry.key == KeyBytes(M(), Entries()[i])
               && entry.key in index.keys
      requires index.Takes(entry)
      modifies buffer, index.hashmap, index.hashmap.buckets
      ensures index.Valid() && RingValid() && Room(R()) && Quiet(old(S()), S())
      ensures index.hashmap.buckets == old(index.hashmap.buckets) || fresh(index.hashmap.buckets)
      ensures status != 0 <==> old(index.hashmap.count == index.hashmap.growat) && !memory.Granted()
      ensures status != 0 ==> M() == old(M()) && View() == old(View()) && Valid()
      ensures status == 0 ==> View() == old(View())[entry.key := entry]
      ensures old(Pointers(View(), |M()|))
      ensures status == 0 ==> M() == PutMemory(old(M()), old(View()), entry.key)
      ensures status == 0 ==>
                (Valid() <==> old(Active(M(), Entries()[i])) && !old(PointsAt(View(), entry.key, Entries()[i])))
      ensures status == 0 && old(ExactBut(M(), Entries(), View(), i)) ==> IndexExact() == true
    {
      hide HeaderAt, HashMap.Valid, Calm, KeyBytes, Tiles, Quiet, ErasedMemory, ExactBut, Active;
      PutFacts(i);
      status := index.Put(buffer, entry, memory);
    }

    lemma PutFacts(i: nat)
      requires Valid() && i < |Entries()| && Entries()[i].End() <= |M()|
      requires KeyBytes(M(), Entries()[i]) in index.keys
      ensures WellSized(Entries()[i]) && Pointers(View(), |M()|)
      ensures var k: Key := KeyBytes(M(), Entries()[i]);
              var m' := PutMemory(M(), View(), k);
              var view' := View()[k := InRing(Entries()[i].offset, k)];
              && RingOk(m', R()) && Quiet(S(), QueueState(m', R()))
              && (Sound(m', Entries(), view', index.keys) <==>
                        Active(M(), Entries()[i]) && !PointsAt(View(), k, Entries()[i]))
              && (ExactBut(M(), Entries(), View(), i) ==> Exact(m', Entries(), view'))
              && m' == if k in View() then Deactivated(M(), View()[k].offset) else M()
      ensures Quiet(S(), S())
    {
      hide HeaderAt, HashMap.Valid, Calm, KeyBytes, Tiles, Payload;
      EntryFacts(i);
      FirstFacts(M(), R(), View(), index.keys);
      PutKeeps(M(), R(), i, View(), index.keys);
      StandStill();
    }

    /** Activating an entry and putting it under its key, as the tests of entry_hash_map.c do:
        map and ring stay in agreement, and the map goes on holding every active entry. */
    method Publish(ghost i: nat, entry: EntryRef, memory: Memory) returns (status: nat)
      requires Valid() && i < |Entries()| && Entries()[i].End() <= |M()| && !Active(M(), Entries()[i])
      requires entry.InRing? && entry.offset == Entries()[i].offset && entry.key == KeyBytes(M(), Entries()[i])
               && entry.key in index.keys
      requires index.Takes(entry)
      modifies buffer, index.hashmap, index.hashmap.buckets
      ensures Valid() == true && Quiet(old(S()), S())
      ensures index.hashmap.buckets == old(index.hashmap.buckets) || fresh(index.hashmap.buckets)
      ensures status != 0 <==> old(index.hashmap.count == index.hashmap.growat) && !memory.Granted()
      ensures status != 0 ==> View() == old(View())
      ensures status == 0 ==> View() == old(View())[entry.key := entry]
      ensures old(Pointers(View(), |M()|))
      ensures M() == if status == 0 then PutMemory(Activated(old(M()), old(Entries())[i]), old(View()), entry.key)
                     else Activated(old(M()), old(Entries())[i])
      ensures status == 0 && old(IndexExact()) ==> IndexExact() == true
    {
      hide HeaderAt, HashMap.Valid, Calm, KeyBytes, Tiles, Quiet, RingValid, IndexSound, IndexExact, ExactBut, Active,
           PointsAt, Room, ErasedMemory, SameEntry, PutMemory, Activated, Pointers;
      InactiveIsUnmapped(i);
      ghost var m := M();
      Activate(i, entry.offset);
      ghost var m1 := M();
      status := Put(i, entry, memory);
      QuietTwice(m, m1, M(), R(), i);
    }

    lemma InactiveIsUnmapped(i: nat)
      requires Valid() && i < |Entries()| && Entries()[i].End() <= |M()| && !Active(M(), Entries()[i])
      ensures forall k: Key :: !PointsAt(View(), k, Entries()[i])
    {
      hide HeaderAt, HashMap.Valid, Calm, KeyBytes, Tiles;
      forall j: nat | j < |Entries()| && j != i ensures Entries()[j].offset != Entries()[i].offset {
        OffsetsDiffer(M(), R(), i, j);
      }
    }

    /** entry_hash_map_delete for a key header of a request. */
    method Erase(key: Key, memory: Memory)
      requires Valid() && key in index.keys
      modifies buffer, index.hashmap, index.hashmap.buckets
      ensures Valid() && Quiet(old(S()), S())
      ensures index.hashmap.buckets == old(index.hashmap.buckets) || fresh(index.hashmap.buckets)
      ensures View() == old(View()) - {key}
      ensures old(Pointers(View(), |M()|)) && M() == ErasedMemory(old(M()), old(View()), key)
      ensures old(IndexExact()) ==> IndexExact() == true
    {
      hide HeaderAt, HashMap.Valid, Calm, KeyBytes, Tiles, Quiet, Deactivated;
      EraseFacts(key);
      index.Delete(buffer, KeyHeader(key), memory);
    }

    lemma EraseFacts(key: Key)
      requires Valid()
      ensures Pointers(View(), |M()|)
      ensures var m' := ErasedMemory(M(), View(), key);
              && RingOk(m', R()) && Sound(m', Entries(), View() - {key}, index.keys) && Quiet(S(), QueueState(m', R()))
              && (IndexExact() ==> Exact(m', Entries(), View() - {key}))
    {
      hide HeaderAt, HashMap.Valid, Calm, KeyBytes, Tiles, Payload, ErasedMemory;
      SoundIsSoundBut(M(), Entries(), View(), index.keys, key);
      SoundPointers(M(), Entries(), View(), index.keys, key);
      EraseKeepsRing(M(), R(), View(), index.keys, key);
      EraseKeepsSound(M(), R(), View(), index.keys, key);
      var m' := ErasedMemory(M(), View(), key);
      forall j: nat | j < |Entries()| ensures Stays(M(), m', Entries()[j]) {
        SameStays(M(), m', Entries()[j]);
      }
      QuietStep(M(), m', R());
    }

    /** entry_hash_map_get: what it returns has not been reclaimed. */
    method Look(key: Key) returns (found: Option<EntryRef>, ghost i: nat)
      requires Valid() && key in index.keys
      ensures found == Lookup(View(), key)
      ensures found.Some? ==>
                && i < |Entries()| && Entries()[i].End() <= |M()|
                && found.value == InRing(Entries()[i].offset, key)
                && Active(M(), Entries()[i]) && KeyBytes(M(), Entries()[i]) == key
      ensures found.None? && IndexExact() ==>
                forall j: nat :: j < |Entries()| && Active(M(), Entries()[j]) ==> KeyBytes(M(), Entries()[j]) != key
    {
      hide HeaderAt, HashMap.Valid, Calm, KeyBytes, Tiles;
      i := 0;
      found := index.Get(KeyHeader(key));
      if found.Some? {
        assert key in View();
        i :| Leads(M(), Entries(), View(), key, i) && Active(M(), Entries()[i]);
      }
    }
  }
}
