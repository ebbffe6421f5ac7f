/** src/entry_header.h and src/entry_header.c: the 16-byte header in front of every entry,
    as it lies in the buffer, and its reader lock. */
module EntryHeader {
  import opened BitMask
  import opened Bytes

  const H: nat := 16                       // sizeof(entry_header_t)
  const LOCK_CAPACITY: nat := 0xFFFF
  const EXPIRY_LIMIT: nat := 0x4000_0000_0000_0000   // a 62-bit field
  const U32: nat := 0x1_0000_0000
  const U16: nat := 0x1_0000

  datatype Header = Header(active: bool, endOfBuffer: bool, expiry: nat, valueSize: nat, keySize: nat, locks: nat)

  predicate InRange(h: Header) {
    h.expiry < EXPIRY_LIMIT && h.valueSize < U32 && h.keySize < U16 && h.locks < U16
  }

  function Bit(b: bool): nat { if b then 1 else 0 }

  /** The flag word: `active` is bit 0, `end_of_buffer` bit 1, `expiry` the 62 bits above. */
  function Flags(h: Header): nat {
    Bit(h.active) + 2 * Bit(h.endOfBuffer) + 4 * h.expiry
  }

  function Pack(h: Header): (s: seq<byte>)
    ensures |s| == H
  {
    Encode(Flags(h), 8) + Encode(h.valueSize, 4) + Encode(h.keySize, 2) + Encode(h.locks, 2)
  }

  function Unpack(s: seq<byte>): Header
    requires |s| == H
  {
    var w := Decode(s[..8]);
    Header(w % 2 == 1, w / 2 % 2 == 1, w / 4, Decode(s[8..12]), Decode(s[12..14]), Decode(s[14..16]))
  }

  lemma FlagBits(h: Header)
    ensures var w := Flags(h); (w % 2 == 1) == h.active && (w / 2 % 2 == 1) == h.endOfBuffer && w / 4 == h.expiry
  {
  }

  lemma Fields(a: seq<byte>, b: seq<byte>, c: seq<byte>, d: seq<byte>)
    requires |a| == 8 && |b| == 4 && |c| == 2 && |d| == 2
    ensures var s := a + b + c + d; s[..8] == a && s[8..12] == b && s[12..14] == c && s[14..16] == d
  {
  }

  lemma UnpackPack(h: Header)
    requires InRange(h)
    ensures Unpack(Pack(h)) == h
  {
    hide Flags, Encode, Decode;
    assert Flags(h) < Pow256(8) by {
      FlagBits(h);
      Widths();
      assert Flags(h) / 4 == h.expiry;
    }
    Widths();
    Fields(Encode(Flags(h), 8), Encode(h.valueSize, 4), Encode(h.keySize, 2), Encode(h.locks, 2));
    DecodeEncode(Flags(h), 8);
    DecodeEncode(h.valueSize, 4);
    DecodeEncode(h.keySize, 2);
    DecodeEncode(h.locks, 2);
    FlagBits(h);
  }

  lemma UnpackInRange(s: seq<byte>)
    requires |s| == H
    ensures InRange(Unpack(s))
  {
    Widths();
    EncodeDecode(s[..8]);
    EncodeDecode(s[8..12]);
    EncodeDecode(s[12..14]);
    EncodeDecode(s[14..16]);
  }

  /** Every 16 bytes are the packing of the header they unpack to. */
  lemma PackUnpack(s: seq<byte>)
    requires |s| == H
    ensures Pack(Unpack(s)) == s
  {
    hide Encode, Decode;
    EncodeDecode(s[..8]);
    EncodeDecode(s[8..12]);
    EncodeDecode(s[12..14]);
    EncodeDecode(s[14..16]);
    assert s == s[..8] + s[8..12] + s[12..14] + s[14..16];
  }

  /** The header field by field, on its 16 bytes. */
  lemma Layout(s: seq<byte>)
    requires |s| == 16
    ensures var h := Unpack(s);
            && (h.active <==> s[0] % 2 == 1) && (h.endOfBuffer <==> s[0] / 2 % 2 == 1)
            && h.expiry == s[0] / 4 + 64 * Decode(s[1..8])
            && h.valueSize == s[8] + 0x100 * (s[9] as nat) + 0x1_0000 * (s[10] as nat)
                              + 0x100_0000 * (s[11] as nat)
            && h.keySize == s[12] + 0x100 * (s[13] as nat) && h.locks == s[14] + 0x100 * (s[15] as nat)
  {
    hide Decode;
    TwoBytes(s[12..14]);
    TwoBytes(s[14..16]);
    FourBytes(s[8..12]);
    LowByte(s[..8]);
    assert s[..8][1..] == s[1..8];
    SplitByte(s[0], Decode(s[1..8]));
  }

  lemma LowByte(s: seq<byte>)
    requires s != []
    ensures Decode(s) == s[0] + 256 * Decode(s[1..])
  {
  }

  lemma SplitByte(b: byte, rest: nat)
    ensures var w := b + 256 * rest;
            w % 2 == b % 2 && w / 2 % 2 == b / 2 % 2 && w / 4 == b / 4 + 64 * rest
  {
    var q, r := b / 4, b % 4;
    Remainder(b + 256 * rest, 4, q + 64 * rest, r);
    Remainder(b + 256 * rest, 2, 2 * q + 128 * rest + r / 2, r % 2);
    Remainder(2 * q + 128 * rest + r / 2, 2, q + 64 * rest, r / 2);
    Remainder(b, 2, 2 * q + r / 2, r % 2);
    Remainder(2 * q + r / 2, 2, q, r / 2);
  }

  /** What the fields hold. */
  lemma FieldLimits(h: Header)
    ensures InRange(h) <==>
              && h.expiry < 0x4000_0000_0000_0000 && h.valueSize < 0x1_0000_0000
              && h.keySize < 0x1_0000 && h.locks < 0x1_0000
  {
  }

  // ----- headers in a buffer -----

  function HeaderAt(m: seq<byte>, at: nat): Header
    requires at + H <= |m|
  {
    Unpack(m[at..at + H])
  }

  function WithHeader(m: seq<byte>, at: nat, h: Header): (r: seq<byte>)
    requires at + H <= |m|
    ensures |r| == |m|
  {
    Splice(m, at, Pack(h))
  }

  lemma HeaderInRange(m: seq<byte>, at: nat)
    requires at + H <= |m|
    ensures InRange(HeaderAt(m, at))
  {
    UnpackInRange(m[at..at + H]);
  }

  lemma HeaderWritten(m: seq<byte>, at: nat, h: Header)
    requires at + H <= |m| && InRange(h)
    ensures HeaderAt(WithHeader(m, at, h), at) == h
  {
    SpliceInside(m, at, Pack(h));
    UnpackPack(h);
  }

  lemma BytesKept(m: seq<byte>, at: nat, h: Header, lo: nat, hi: nat)
    requires at + H <= |m| && lo <= hi <= |m| && (hi <= at || at + H <= lo)
    ensures WithHeader(m, at, h)[lo..hi] == m[lo..hi]
  {
    SpliceOutside(m, at, Pack(h), lo, hi);
  }

  lemma HeaderKept(m: seq<byte>, at: nat, h: Header, other: nat)
    requires at + H <= |m| && other + H <= |m| && (other + H <= at || at + H <= other)
    ensures HeaderAt(WithHeader(m, at, h), other) == HeaderAt(m, other)
  {
    BytesKept(m, at, h, other, other + H);
  }

  method Write(buffer: array<byte>, at: nat, h: Header)
    requires at + H <= buffer.Length
    modifies buffer
    ensures buffer[..] == WithHeader(old(buffer[..]), at, h)
  {
    var s := Pack(h);
    forall k | 0 <= k < H {
      buffer[at + k] := s[k];
    }
  }

  // ----- the reader lock -----

  datatype LockEvent = NoEvent | Blocked | ReadsUnblocked | WritesUnblocked

  /** entry_header_acquire_lock. */
  function Acquire(locks: nat): (nat, LockEvent)
    requires locks < U16
  {
    if locks == LOCK_CAPACITY then (locks, Blocked) else (locks + 1, NoEvent)
  }

  /** entry_header_release_lock; the 16-bit count wraps below zero. */
  function Release(locks: nat): (nat, LockEvent)
    requires locks < U16
  {
    var after := (locks + U16 - 1) % U16;
    (after, if after == 0 then WritesUnblocked else if after == LOCK_CAPACITY - 1 then ReadsUnblocked else NoEvent)
  }

  /** Releasing gives back exactly what acquiring took, unless the acquire was refused;
      the events mark the two edges at which blocked callers may go on. */
  lemma ReleaseUndoesAcquire(locks: nat)
    requires locks <= 65535
    ensures Acquire(locks).1 == Blocked <==> locks == 65535
    ensures Acquire(locks).0 == if locks == 65535 then 65535 else locks + 1
    ensures Acquire(locks).1 != Blocked ==> Release(Acquire(locks).0).0 == locks
    ensures 0 < locks ==> Release(locks).0 == locks - 1
    ensures 0 < locks ==> (Release(locks).1 == WritesUnblocked <==> locks == 1)
    ensures 0 < locks ==> (Release(locks).1 == ReadsUnblocked <==> locks == 65535)
    ensures Release(0).0 == 65535
  {
  }
}
