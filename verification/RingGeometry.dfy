/** The ring of src/memory_queue.c as a value: which bytes belong to which entry, and what
    removing, wrapping and appending do to that layout. */
module RingGeometry {
  import opened Bytes
  import opened EntryHeader

  datatype Block = Block(offset: nat, keySize: nat, valueSize: nat) {
    function Size(): nat { H + keySize + valueSize }
    function End(): nat { offset + Size() }
  }

  predicate WellSized(b: Block) {
    b.keySize < U16 && b.Size() < U32
  }

  /** Entries in allocation order: `older` up to the end-of-buffer marker at `mark`, then
      `newer` from the start of the buffer.  Without a marker in use, `older` is empty and
      `newer` runs from `read` to `write`. */
  datatype Ring = Ring(capacity: nat, read: nat, write: nat, older: seq<Block>, newer: seq<Block>, mark: nat)

  function Live(r: Ring): seq<Block> { r.older + r.newer }

  /** bs covers [from, to) without gaps or overlaps. */
  ghost predicate Tiles(bs: seq<Block>, from: nat, to: nat) {
    if bs == [] then from == to
    else bs[0].offset == from && Tiles(bs[1..], bs[0].End(), to)
  }

  ghost predicate Shape(r: Ring) {
    && (if r.older == [] then Tiles(r.newer, r.read, r.write)
        else
          && Tiles(r.older, r.read, r.mark) && r.mark + H <= r.capacity
          && Tiles(r.newer, 0, r.write) && (r.write < r.read || r.write == 0))
    && r.write <= r.capacity
    && (forall b :: b in Live(r) ==> WellSized(b))
  }

  /** There is room for an end-of-buffer marker at the write index. */
  ghost predicate Room(r: Ring) {
    r.write + H <= r.capacity || (r.write == 0 && Live(r) == [])
  }

  /** The header of b is in the buffer and records b's sizes. */
  ghost predicate Recorded(m: seq<byte>, b: Block) {
    && b.End() <= |m|
    && HeaderAt(m, b.offset).keySize == b.keySize
    && HeaderAt(m, b.offset).valueSize == b.valueSize
  }

  ghost predicate Marked(m: seq<byte>, at: nat) {
    at + H <= |m| && HeaderAt(m, at).endOfBuffer
  }

  /** Only the oldest entry may carry a (harmless) end-of-buffer bit. */
  ghost predicate Headers(m: seq<byte>, live: seq<Block>) {
    forall i: nat :: i < |live| ==> Recorded(m, live[i]) && (i > 0 ==> !Marked(m, live[i].offset))
  }

  ghost predicate RingOk(m: seq<byte>, r: Ring) {
    && |m| == r.capacity
    && Shape(r)
    && Headers(m, Live(r))
    && (r.older != [] ==> Marked(m, r.mark))
  }

  ghost function TotalSize(bs: seq<Block>): nat {
    if bs == [] then 0 else bs[0].Size() + TotalSize(bs[1..])
  }

  // ----- tilings -----

  lemma {:induction false} TilesBytes(bs: seq<Block>, from: nat, to: nat)
    requires Tiles(bs, from, to)
    ensures to == from + TotalSize(bs)
    ensures bs != [] ==> from + H <= to
  {
    if bs != [] {
      TilesBytes(bs[1..], bs[0].End(), to);
    }
  }

  lemma {:induction false} TilesAppend(bs: seq<Block>, from: nat, to: nat, b: Block)
    requires Tiles(bs, from, to) && b.offset == to
    ensures Tiles(bs + [b], from, b.End())
  {
    if bs == [] {
      assert (bs + [b])[1..] == [];
    } else {
      TilesAppend(bs[1..], bs[0].End(), to, b);
      assert (bs + [b])[1..] == bs[1..] + [b];
    }
  }

  lemma {:induction false} TilesWithin(bs: seq<Block>, from: nat, to: nat, i: nat)
    requires Tiles(bs, from, to) && i < |bs|
    ensures from <= bs[i].offset && bs[i].End() <= to
  {
    TilesBytes(bs[1..], bs[0].End(), to);
    if i > 0 {
      TilesWithin(bs[1..], bs[0].End(), to, i - 1);
    }
  }

  lemma {:induction false} TilesOrdered(bs: seq<Block>, from: nat, to: nat, i: nat, j: nat)
    requires Tiles(bs, from, to) && i < j < |bs|
    ensures bs[i].End() <= bs[j].offset
  {
    if i == 0 {
      TilesWithin(bs[1..], bs[0].End(), to, j - 1);
    } else {
      TilesOrdered(bs[1..], bs[0].End(), to, i - 1, j - 1);
    }
  }

  lemma {:induction false} BytesAppend(a: seq<Block>, b: seq<Block>)
    ensures TotalSize(a + b) == TotalSize(a) + TotalSize(b)
  {
    if a == [] {
      assert a + b == b;
    } else {
      assert (a + b)[1..] == a[1..] + b;
      BytesAppend(a[1..], b);
    }
  }

  // ----- where live entries lie -----

  ghost predicate Apart(lo: nat, hi: nat, b: Block) {
    hi <= b.offset || b.End() <= lo
  }

  lemma LiveBounds(r: Ring, i: nat)
    requires Shape(r) && i < |Live(r)|
    ensures Live(r)[i].End() <= r.capacity
    ensures i < |r.older| ==> r.read <= Live(r)[i].offset && Live(r)[i].End() <= r.mark
    ensures i >= |r.older| ==> Live(r)[i].End() <= r.write
    ensures i >= |r.older| && r.older == [] ==> r.read <= Live(r)[i].offset
  {
    if i < |r.older| {
      TilesWithin(r.older, r.read, r.mark, i);
    } else {
      TilesWithin(r.newer, if r.older == [] then r.read else 0, r.write, i - |r.older|);
    }
  }

  /** Live entries do not overlap. */
  lemma LiveApart(r: Ring, i: nat, j: nat)
    requires Shape(r) && i < |Live(r)| && j < |Live(r)| && i != j
    ensures Apart(Live(r)[i].offset, Live(r)[i].End(), Live(r)[j])
  {
    if j < i {
      LiveApart(r, j, i);
    } else {
      var k := |r.older|;
      if j < k {
        TilesOrdered(r.older, r.read, r.mark, i, j);
      } else if i >= k {
        TilesOrdered(r.newer, if r.older == [] then r.read else 0, r.write, i - k, j - k);
      } else {
        LiveBounds(r, i);
        LiveBounds(r, j);
      }
    }
  }

  /** The marker in use lies outside every live entry. */
  lemma MarkApart(r: Ring, i: nat)
    requires Shape(r) && r.older != [] && i < |Live(r)|
    ensures Apart(r.mark, r.mark + H, Live(r)[i])
  {
    LiveBounds(r, i);
    TilesBytes(r.older, r.read, r.mark);
  }

  /** The bytes from the write index on are free: up to the end of the buffer, or up to the
      oldest entry when the ring is wrapped. */
  lemma FreeApart(r: Ring, hi: nat, i: nat)
    requires Shape(r) && i < |Live(r)| && (r.older != [] ==> hi <= r.read)
    ensures Apart(r.write, hi, Live(r)[i])
  {
    LiveBounds(r, i);
  }

  lemma WrappedBelowMark(r: Ring)
    requires Shape(r) && r.older != []
    ensures r.read < r.mark
  {
    TilesBytes(r.older, r.read, r.mark);
  }

  // ----- what one write does -----

  /** What an entry holds, apart from the end-of-buffer bit. */
  ghost function Header0(m: seq<byte>, b: Block): Header
    requires b.End() <= |m|
  {
    HeaderAt(m, b.offset).(endOfBuffer := false)
  }

  ghost function Payload(m: seq<byte>, b: Block): seq<byte>
    requires b.End() <= |m|
  {
    m[b.offset + H..b.End()]
  }

  ghost function KeyBytes(m: seq<byte>, b: Block): (k: seq<byte>)
    requires b.End() <= |m|
    ensures |k| == b.keySize
  {
    m[b.offset + H..b.offset + H + b.keySize]
  }

  ghost predicate SameEntry(m: seq<byte>, m': seq<byte>, b: Block) {
    && b.End() <= |m| && b.End() <= |m'|
    && Header0(m', b) == Header0(m, b)
    && Payload(m', b) == Payload(m, b)
  }

  lemma SliceOfSlice(m: seq<byte>, lo: nat, mid: nat, hi: nat)
    requires lo <= mid <= hi <= |m|
    ensures m[lo..hi][..mid - lo] == m[lo..mid]
  {
  }

  lemma PayloadGivesKey(m: seq<byte>, m': seq<byte>, b: Block)
    requires b.End() <= |m| && b.End() <= |m'| && Payload(m', b) == Payload(m, b)
    ensures KeyBytes(m', b) == KeyBytes(m, b)
  {
    SliceOfSlice(m, b.offset + H, b.offset + H + b.keySize, b.End());
    SliceOfSlice(m', b.offset + H, b.offset + H + b.keySize, b.End());
  }

  /** A header written clear of b leaves b alone. */
  lemma WriteApart(m: seq<byte>, at: nat, h: Header, b: Block)
    requires at + H <= |m| && b.End() <= |m| && Apart(at, at + H, b)
    ensures SameEntry(m, WithHeader(m, at, h), b)
    ensures HeaderAt(WithHeader(m, at, h), b.offset) == HeaderAt(m, b.offset)
  {
    HeaderKept(m, at, h, b.offset);
    BytesKept(m, at, h, b.offset + H, b.End());
  }

  /** Rewriting b's own header leaves its payload alone. */
  lemma WriteOwn(m: seq<byte>, b: Block, h: Header)
    requires b.End() <= |m| && InRange(h)
    ensures HeaderAt(WithHeader(m, b.offset, h), b.offset) == h
    ensures Payload(WithHeader(m, b.offset, h), b) == Payload(m, b)
  {
    HeaderWritten(m, b.offset, h);
    BytesKept(m, b.offset, h, b.offset + H, b.End());
  }

  /** Changing flags, expiry or lock count of a live entry keeps the ring. */
  lemma TouchHeader(m: seq<byte>, r: Ring, i: nat, h: Header)
    requires RingOk(m, r) && i < |Live(r)| && InRange(h)
    requires h.keySize == Live(r)[i].keySize && h.valueSize == Live(r)[i].valueSize
    requires i > 0 ==> !h.endOfBuffer
    ensures RingOk(WithHeader(m, Live(r)[i].offset, h), r)
    ensures HeaderAt(WithHeader(m, Live(r)[i].offset, h), Live(r)[i].offset) == h
    ensures Payload(WithHeader(m, Live(r)[i].offset, h), Live(r)[i]) == Payload(m, Live(r)[i])
    ensures forall j: nat :: j < |Live(r)| && j != i ==> SameEntry(m, WithHeader(m, Live(r)[i].offset, h), Live(r)[j])
  {
    hide HeaderAt, WithHeader, Tiles;
    var live := Live(r);
    var at := live[i].offset;
    var m' := WithHeader(m, at, h);
    LiveBounds(r, i);
    WriteOwn(m, live[i], h);
    forall j: nat | j < |live| && j != i
      ensures SameEntry(m, m', live[j]) && HeaderAt(m', live[j].offset) == HeaderAt(m, live[j].offset)
      ensures Recorded(m, live[j])
    {
      LiveBounds(r, j);
      LiveApart(r, i, j);
      WriteApart(m, at, h, live[j]);
    }
    if r.older != [] {
      MarkApart(r, i);
      HeaderKept(m, at, h, r.mark);
    }
  }

  // ----- removing, wrapping, appending -----

  /** The ring without its oldest entry. */
  ghost function WithoutFirst(r: Ring): Ring
    requires Live(r) != []
  {
    if r.older == [] then r.(newer := r.newer[1..], read := r.newer[0].End())
    else if |r.older| == 1 then r.(older := [], read := 0)
    else r.(older := r.older[1..], read := r.older[0].End())
  }

  lemma RemoveFirst(m: seq<byte>, r: Ring)
    requires RingOk(m, r) && Live(r) != []
    ensures RingOk(m, WithoutFirst(r)) && Live(WithoutFirst(r)) == Live(r)[1..]
    ensures Room(r) ==> Room(WithoutFirst(r))
    ensures TotalSize(Live(r)) == Live(r)[0].Size() + TotalSize(Live(r)[1..])
    ensures Live(r)[0].offset == r.read
  {
    hide HeaderAt;
    var r' := WithoutFirst(r);
    assert Live(r') == Live(r)[1..];
    if |r.older| == 1 {
      assert r.older[1..] == [];
    }
    forall i: nat | i < |Live(r')|
      ensures Recorded(m, Live(r')[i]) && (i > 0 ==> !Marked(m, Live(r')[i].offset))
    {
      assert Live(r')[i] == Live(r)[i + 1];
    }
  }

  /** What remove_entry reads behind the oldest entry: the marker exactly when that entry is
      the last before it. */
  lemma NextHeader(m: seq<byte>, r: Ring)
    requires RingOk(m, r) && Room(r) && Live(r) != []
    ensures Live(r)[0].End() + H <= |m|
    ensures r.older != [] ==> (Marked(m, Live(r)[0].End()) <==> |r.older| == 1)
    ensures r.older == [] && |r.newer| > 1 ==> !Marked(m, Live(r)[0].End())
    ensures r.older == [] && |r.newer| == 1 ==> Live(r)[0].End() == r.write
  {
    hide HeaderAt;
    var live := Live(r);
    assert Recorded(m, live[0]);
    var run, to := if r.older != [] then r.older else r.newer, if r.older != [] then r.mark else r.write;
    assert run[0] == live[0] && Tiles(run[1..], run[0].End(), to);
    if |run| == 1 {
      assert run[1..] == [];
    } else {
      assert run[1..][0] == run[1] && live[1] == run[1];
      assert Recorded(m, live[1]);
    }
  }

  /** The ring after the write index goes back to the start. */
  ghost function Wrapped(r: Ring): Ring {
    if r.older != [] then r
    else if r.newer == [] then r.(read := 0, write := 0)
    else r.(older := r.newer, newer := [], mark := r.write, write := 0)
  }

  ghost function MarkAt(m: seq<byte>, at: nat): seq<byte>
    requires at + H <= |m|
  {
    WithHeader(m, at, HeaderAt(m, at).(endOfBuffer := true))
  }

  lemma WrapKeeps(m: seq<byte>, r: Ring)
    requires RingOk(m, r) && r.write + H <= r.capacity
    requires r.older == [] || (r.read == 0 && r.write == 0)
    ensures RingOk(MarkAt(m, r.write), Wrapped(r)) && Live(Wrapped(r)) == Live(r)
    ensures Wrapped(r).write == 0 && Room(Wrapped(r))
    ensures Wrapped(r).read == if r.read == r.write then 0 else r.read
    ensures forall i: nat :: i < |Live(r)| ==> SameEntry(m, MarkAt(m, r.write), Live(r)[i])
  {
    hide HeaderAt, WithHeader;
    var h := HeaderAt(m, r.write).(endOfBuffer := true);
    HeaderInRange(m, r.write);
    HeaderWritten(m, r.write, h);
    TilesBytes(r.newer, if r.older == [] then r.read else 0, r.write);
    assert Live(Wrapped(r)) == Live(r);
    if r.older != [] {
      TouchHeader(m, r, 0, h);
    } else {
      forall i: nat | i < |Live(r)|
        ensures SameEntry(m, MarkAt(m, r.write), Live(r)[i])
        ensures HeaderAt(MarkAt(m, r.write), Live(r)[i].offset) == HeaderAt(m, Live(r)[i].offset)
      {
        assert Recorded(m, Live(r)[i]);
        FreeApart(r, r.write + H, i);
        WriteApart(m, r.write, h, Live(r)[i]);
      }
    }
  }

  ghost function Appended(r: Ring, b: Block): Ring {
    r.(newer := r.newer + [b], write := b.End())
  }

  lemma AppendShape(r: Ring, b: Block)
    requires Shape(r) && WellSized(b) && b.offset == r.write && b.End() <= r.capacity
    requires r.older != [] ==> b.End() + H < r.read
    ensures Shape(Appended(r, b)) && Live(Appended(r, b)) == Live(r) + [b]
    ensures Room(Appended(r, b)) <==> b.End() + H <= r.capacity
    ensures TotalSize(Live(Appended(r, b))) == TotalSize(Live(r)) + b.Size()
  {
    TilesAppend(r.newer, if r.older == [] then r.read else 0, r.write, b);
    BytesAppend(Live(r), [b]);
    hide Tiles;
    assert Live(Appended(r, b)) == Live(r) + [b];
  }

  lemma AppendHeaders(m: seq<byte>, m': seq<byte>, live: seq<Block>, b: Block, h: Header)
    requires Headers(m, live) && b.End() <= |m'| && HeaderAt(m', b.offset) == h
    requires h.keySize == b.keySize && h.valueSize == b.valueSize && !h.endOfBuffer
    requires |m'| == |m| && forall i: nat :: i < |live| ==>
               live[i].End() <= |m| && HeaderAt(m', live[i].offset) == HeaderAt(m, live[i].offset)
    ensures Headers(m', live + [b])
  {
    hide HeaderAt;
    forall i: nat | i < |live + [b]|
      ensures Recorded(m', (live + [b])[i]) && (i > 0 ==> !Marked(m', (live + [b])[i].offset))
    {
      if i < |live| {
        assert Recorded(m, live[i]);
      }
    }
  }

  /** A new entry at the write index keeps the layout; the marker still fits behind it
      exactly when H more bytes do. */
  lemma AppendKeeps(m: seq<byte>, r: Ring, b: Block, h: Header)
    requires RingOk(m, r) && WellSized(b) && b.offset == r.write && b.End() <= r.capacity
    requires r.older != [] ==> b.End() + H < r.read
    requires InRange(h) && h.keySize == b.keySize && h.valueSize == b.valueSize && !h.endOfBuffer
    ensures RingOk(WithHeader(m, r.write, h), Appended(r, b))
    ensures Room(Appended(r, b)) <==> b.End() + H <= r.capacity
    ensures Live(Appended(r, b)) == Live(r) + [b]
    ensures TotalSize(Live(Appended(r, b))) == TotalSize(Live(r)) + b.Size()
    ensures HeaderAt(WithHeader(m, r.write, h), b.offset) == h
    ensures forall i: nat :: i < |Live(r)| ==> SameEntry(m, WithHeader(m, r.write, h), Live(r)[i])
    ensures forall i: nat :: i < |Live(r)| ==> Apart(b.offset, b.End(), Live(r)[i])
  {
    hide HeaderAt, WithHeader, Tiles, TotalSize, SameEntry, Headers, Shape, Appended, Room;
    var m', live := WithHeader(m, r.write, h), Live(r);
    AppendShape(r, b);
    HeaderWritten(m, r.write, h);
    forall i: nat | i < |live|
      ensures SameEntry(m, m', live[i]) && Apart(b.offset, b.End(), live[i]) && live[i].End() <= |m|
      ensures HeaderAt(m', live[i].offset) == HeaderAt(m, live[i].offset)
    {
      LiveBounds(r, i);
      FreeApart(r, b.End(), i);
      WriteApart(m, r.write, h, live[i]);
    }
    AppendHeaders(m, m', live, b, h);
    if r.older != [] {
      WrappedBelowMark(r);
      HeaderKept(m, r.write, h, r.mark);
    }
    AppendedOk(m, m', r, b);
  }

  lemma AppendedOk(m: seq<byte>, m': seq<byte>, r: Ring, b: Block)
    requires RingOk(m, r) && |m'| == |m| && Shape(Appended(r, b)) && Headers(m', Live(Appended(r, b)))
    requires r.older != [] ==> Marked(m', r.mark)
    ensures RingOk(m', Appended(r, b))
  {
    hide Shape, Headers, Live, Marked;
  }
}
