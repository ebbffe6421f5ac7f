/** SIP64 of src/hashmap.c against SipHash-2-4 as section 2 of "SipHash: a fast
    short-input PRF" (Aumasson and Bernstein) defines it. */
module SipHash {

  datatype State = State(v0: bv64, v1: bv64, v2: bv64, v3: bv64)

  function Rotl(x: bv64, b: bv8): bv64
    requires 0 < b < 64
  {
    (x << b) | (x >> (64 - b))
  }

  function Plus(x: bv64, y: bv64): bv64 { x + y }

  function Xor(x: bv64, y: bv64): bv64 { x ^ y }

  lemma XorCommutes(x: bv64, y: bv64)
    ensures Xor(x, y) == Xor(y, x)
  {
  }

  // ----- little-endian words -----

  function Word(b0: bv8, b1: bv8, b2: bv8, b3: bv8, b4: bv8, b5: bv8, b6: bv8, b7: bv8): bv64 {
    (b0 as bv64) | (b1 as bv64 << 8) | (b2 as bv64 << 16) | (b3 as bv64 << 24)
    | (b4 as bv64 << 32) | (b5 as bv64 << 40) | (b6 as bv64 << 48) | (b7 as bv64 << 56)
  }

  /** U8TO64_LE. */
  function Load(p: seq<bv8>): bv64
    requires |p| == 8
  {
    Word(p[0], p[1], p[2], p[3], p[4], p[5], p[6], p[7])
  }

  function ByteAt(v: bv64, shift: bv8): bv8
    requires shift < 64
  {
    ((v >> shift) & 0xFF) as bv8
  }

  /** U64TO8_LE. */
  function Stored(v: bv64): (p: seq<bv8>)
    ensures |p| == 8
  {
    [ByteAt(v, 0), ByteAt(v, 8), ByteAt(v, 16), ByteAt(v, 24),
     ByteAt(v, 32), ByteAt(v, 40), ByteAt(v, 48), ByteAt(v, 56)]
  }

  lemma LoadStored(v: bv64)
    ensures Load(Stored(v)) == v
  {
  }

  lemma BytesOfWord(b0: bv8, b1: bv8, b2: bv8, b3: bv8, b4: bv8, b5: bv8, b6: bv8, b7: bv8)
    ensures Stored(Word(b0, b1, b2, b3, b4, b5, b6, b7)) == [b0, b1, b2, b3, b4, b5, b6, b7]
  {
    var v := Word(b0, b1, b2, b3, b4, b5, b6, b7);
    assert ByteAt(v, 0) == b0 && ByteAt(v, 8) == b1 && ByteAt(v, 16) == b2 && ByteAt(v, 24) == b3;
    assert ByteAt(v, 32) == b4 && ByteAt(v, 40) == b5 && ByteAt(v, 48) == b6 && ByteAt(v, 56) == b7;
  }

  lemma StoredLoad(p: seq<bv8>)
    requires |p| == 8
    ensures Stored(Load(p)) == p
  {
    hide Stored, Word;
    BytesOfWord(p[0], p[1], p[2], p[3], p[4], p[5], p[6], p[7]);
  }

  // ----- the definition -----

  /** One SipRound: two layers of two half rounds that do not touch each other's words. */
  function SipRound(s: State): State {
    var a0 := Plus(s.v0, s.v1);
    var a2 := Plus(s.v2, s.v3);
    var a1 := Xor(Rotl(s.v1, 13), a0);
    var a3 := Xor(Rotl(s.v3, 16), a2);
    var b2 := Plus(a2, a1);
    var b0 := Plus(Rotl(a0, 32), a3);
    State(b0, Xor(Rotl(a1, 17), b2), Rotl(b2, 32), Xor(Rotl(a3, 21), b0))
  }

  function Initial(k0: bv64, k1: bv64): State {
    State(Xor(k0, 0x736f6d6570736575), Xor(k1, 0x646f72616e646f6d),
          Xor(k0, 0x6c7967656e657261), Xor(k1, 0x7465646279746573))
  }

  function Compress(s: State, m: bv64): State {
    var t := SipRound(SipRound(s.(v3 := Xor(s.v3, m))));
    t.(v0 := Xor(t.v0, m))
  }

  function Finish(s: State): bv64 {
    var t := SipRound(SipRound(SipRound(SipRound(s.(v2 := Xor(s.v2, 0xff))))));
    Xor(Xor(Xor(t.v0, t.v1), t.v2), t.v3)
  }

  function Zeros(n: nat): (z: seq<bv8>)
    ensures |z| == n
  {
    seq(n, _ => 0)
  }

  /** The message, zero bytes, and the length modulo 256 as the last byte of a whole word. */
  function Padded(m: seq<bv8>): (p: seq<bv8>)
    requires |m| < 0x1_0000_0000_0000_0000
    ensures |p| == |m| - |m| % 8 + 8
  {
    m + Zeros(7 - |m| % 8) + [ByteAt(|m| as bv64, 0)]
  }

  function Words(p: seq<bv8>): seq<bv64>
    requires |p| % 8 == 0
  {
    if p == [] then [] else [Load(p[..8])] + Words(p[8..])
  }

  function Absorb(s: State, ws: seq<bv64>): State
    decreases |ws|
  {
    if ws == [] then s else Absorb(Compress(s, ws[0]), ws[1..])
  }

  function SipHash24(m: seq<bv8>, k0: bv64, k1: bv64): bv64
    requires |m| < 0x1_0000_0000_0000_0000
  {
    Finish(Absorb(Initial(k0, k1), Words(Padded(m))))
  }

  // ----- the code -----

  /** The SIPROUND macro, statement by statement. */
  method Round(s: State) returns (r: State)
    ensures r == SipRound(s)
  {
    hide Plus, Xor, Rotl;
    var v0, v1, v2, v3 := s.v0, s.v1, s.v2, s.v3;
    v0 := Plus(v0, v1); v1 := Rotl(v1, 13);
    v1 := Xor(v1, v0); v0 := Rotl(v0, 32);
    v2 := Plus(v2, v3); v3 := Rotl(v3, 16);
    v3 := Xor(v3, v2);
    v0 := Plus(v0, v3); v3 := Rotl(v3, 21);
    v3 := Xor(v3, v0);
    v2 := Plus(v2, v1); v1 := Rotl(v1, 17);
    v1 := Xor(v1, v2); v2 := Rotl(v2, 32);
    r := State(v0, v1, v2, v3);
  }

  /** Or-ing the bytes in from the top, as the switch does, gives the same word. */
  lemma TopDown(b0: bv8, b1: bv8, b2: bv8, b3: bv8, b4: bv8, b5: bv8, b6: bv8, n: bv64)
    ensures (((((((n << 56) | (b6 as bv64 << 48)) | (b5 as bv64 << 40)) | (b4 as bv64 << 32))
              | (b3 as bv64 << 24)) | (b2 as bv64 << 16)) | (b1 as bv64 << 8)) | (b0 as bv64)
            == Word(b0, b1, b2, b3, b4, b5, b6, ByteAt(n, 0))
  {
  }

  /** A byte of the tail, or the padding zero behind it. */
  function TailByte(input: seq<bv8>, at: nat, left: nat, k: nat): bv8
    requires at + left <= |input|
  {
    if k < left then input[at + k] else 0
  }

  lemma TailBlock(input: seq<bv8>, at: nat, left: nat, n: bv64)
    requires left < 8 && at + left <= |input|
    ensures Load(input[at..at + left] + Zeros(7 - left) + [ByteAt(n, 0)]) ==
            Word(TailByte(input, at, left, 0), TailByte(input, at, left, 1), TailByte(input, at, left, 2),
                 TailByte(input, at, left, 3), TailByte(input, at, left, 4), TailByte(input, at, left, 5),
                 TailByte(input, at, left, 6), ByteAt(n, 0))
  {
    hide Word, ByteAt;
    var block := input[at..at + left] + Zeros(7 - left) + [ByteAt(n, 0)];
    assert forall k: nat :: k < 7 ==> block[k] == TailByte(input, at, left, k);
  }

  /** One case of the switch; skipping it is or-ing in a zero byte. */
  method OrByte(b: bv64, input: seq<bv8>, at: nat, left: nat, k: nat, shift: bv8) returns (r: bv64)
    requires at + left <= |input| && shift < 64
    ensures r == b | (TailByte(input, at, left, k) as bv64 << shift)
  {
    r := b;
    if left >= k + 1 { r := b | (input[at + k] as bv64 << shift); }
  }

  /** The switch of SIP64: each case falls through to the next. */
  method Tail(input: seq<bv8>, at: nat, left: nat, inlen: bv64) returns (b: bv64)
    requires left < 8 && at + left <= |input|
    ensures b == Load(input[at..at + left] + Zeros(7 - left) + [ByteAt(inlen, 0)])
  {
    hide TailByte, Load, Word, ByteAt;
    TopDown(TailByte(input, at, left, 0), TailByte(input, at, left, 1), TailByte(input, at, left, 2),
            TailByte(input, at, left, 3), TailByte(input, at, left, 4), TailByte(input, at, left, 5),
            TailByte(input, at, left, 6), inlen);
    TailBlock(input, at, left, inlen);
    b := inlen << 56;
    b := OrByte(b, input, at, left, 6, 48);
    b := OrByte(b, input, at, left, 5, 40);
    b := OrByte(b, input, at, left, 4, 32);
    b := OrByte(b, input, at, left, 3, 24);
    b := OrByte(b, input, at, left, 2, 16);
    b := OrByte(b, input, at, left, 1, 8);
    b := OrByte(b, input, at, left, 0, 0);
  }

  lemma SplitWord(p: seq<bv8>, i: nat, q: nat)
    requires |p| % 8 == 0 && i == 8 * q && i + 8 <= |p|
    ensures |p[i..]| % 8 == 0 && |p[i + 8..]| % 8 == 0
    ensures Words(p[i..]) == [Load(p[i..i + 8])] + Words(p[i + 8..])
  {
    assert p[i..][..8] == p[i..i + 8];
    assert p[i..][8..] == p[i + 8..];
  }

  lemma OneWord(p: seq<bv8>)
    requires |p| == 8
    ensures Words(p) == [Load(p[..8])]
  {
    assert p[8..] == [];
  }

  lemma PaddedTail(m: seq<bv8>, at: nat, left: nat)
    requires |m| < 0x1_0000_0000_0000_0000 && left == |m| % 8 && at + left == |m|
    ensures Padded(m)[at..at + 8] == m[at..at + left] + Zeros(7 - left) + [ByteAt(|m| as bv64, 0)]
  {
    hide ByteAt;
    var last := Zeros(7 - left) + [ByteAt(|m| as bv64, 0)];
    assert Padded(m) == m + last;
    assert Padded(m)[at..] == m[at..] + last;
  }

  /** The loop of SIP64 over the whole words of the message, which is a prefix of p. */
  method Blocks(input: seq<bv8>, ghost p: seq<bv8>, s0: State) returns (s: State, i: nat)
    requires input <= p && |p| == |input| - |input| % 8 + 8
    ensures i == |input| - |input| % 8
    ensures Absorb(s, Words(p[i..])) == Absorb(s0, Words(p))
  {
    hide SipRound, Load, Xor;
    var end := |input| - |input| % 8;
    assert p[0..] == p;
    s, i := s0, 0;
    ghost var q := 0;
    ghost var blocks := |input| / 8;
    assert end == 8 * blocks && |p| == 8 * blocks + 8;
    while i != end
      invariant 0 <= q <= blocks && i == 8 * q
      invariant |p[i..]| % 8 == 0 && Absorb(s, Words(p[i..])) == Absorb(s0, Words(p))
      decreases end - i
    {
      SplitWord(p, i, q);
      assert p[i..i + 8] == input[i..i + 8];
      var m := Load(input[i..i + 8]);
      s := s.(v3 := Xor(s.v3, m));
      s := Round(s);
      s := Round(s);
      s := s.(v0 := Xor(s.v0, m));
      i, q := i + 8, q + 1;
    }
  }

  method Sip64(input: seq<bv8>, seed0: bv64, seed1: bv64) returns (out: bv64)
    requires |input| < 0x1_0000_0000_0000_0000
    ensures out == SipHash24(input, seed0, seed1)
  {
    hide SipRound, Load, ByteAt, Stored, Xor, Rotl;
    LoadStored(seed0);
    LoadStored(seed1);
    var k0, k1 := Load(Stored(seed0)), Load(Stored(seed1));
    XorCommutes(0x736f6d6570736575, k0);
    XorCommutes(0x646f72616e646f6d, k1);
    XorCommutes(0x6c7967656e657261, k0);
    XorCommutes(0x7465646279746573, k1);
    var s := State(Xor(0x736f6d6570736575, k0), Xor(0x646f72616e646f6d, k1),
                   Xor(0x6c7967656e657261, k0), Xor(0x7465646279746573, k1));
    var inlen := |input| as bv64;
    ghost var p := Padded(input);
    ghost var s0 := s;
    var i: nat;
    s, i := Blocks(input, p, s);
    var left := |input| % 8;
    var b := Tail(input, i, left, inlen);
    PaddedTail(input, i, left);
    OneWord(p[i..]);
    assert p[i..][..8] == p[i..i + 8];
    s := s.(v3 := Xor(s.v3, b));
    s := Round(s);
    s := Round(s);
    s := s.(v0 := Xor(s.v0, b));
    s := s.(v2 := Xor(s.v2, 0xff));
    s := Round(s);
    s := Round(s);
    s := Round(s);
    s := Round(s);
    b := Xor(Xor(Xor(s.v0, s.v1), s.v2), s.v3);
    LoadStored(b);
    out := Load(Stored(b));
  }
}
