/** Bytes, little-endian numbers, and splicing into a byte buffer. */
module Bytes {
  type byte = x: int | 0 <= x < 256

  function Pow256(n: nat): nat {
    if n == 0 then 1 else 256 * Pow256(n - 1)
  }

  function Encode(v: nat, n: nat): (s: seq<byte>)
    ensures |s| == n
  {
    if n == 0 then [] else [v % 256] + Encode(v / 256, n - 1)
  }

  function Decode(s: seq<byte>): nat {
    if s == [] then 0 else s[0] + 256 * Decode(s[1..])
  }

  lemma {:induction false} DecodeEncode(v: nat, n: nat)
    requires v < Pow256(n)
    ensures Decode(Encode(v, n)) == v
  {
    if n > 0 {
      DecodeEncode(v / 256, n - 1);
      assert Encode(v, n)[1..] == Encode(v / 256, n - 1);
    }
  }

  lemma LowByte(b: byte, rest: nat)
    ensures (b + 256 * rest) % 256 == b && (b + 256 * rest) / 256 == rest
  {
  }

  lemma {:induction false} EncodeDecode(s: seq<byte>)
    ensures Decode(s) < Pow256(|s|)
    ensures Encode(Decode(s), |s|) == s
  {
    if s != [] {
      EncodeDecode(s[1..]);
      var v := Decode(s);
      assert v % 256 == s[0] && v / 256 == Decode(s[1..]) by {
        LowByte(s[0], Decode(s[1..]));
      }
      assert s == [s[0]] + s[1..];
    }
  }

  lemma Widths()
    ensures Pow256(2) == 0x1_0000 && Pow256(4) == 0x1_0000_0000 && Pow256(8) == 0x1_0000_0000_0000_0000
  {
    assert Pow256(3) == 0x100_0000;
    assert Pow256(6) == 0x1_0000_0000_0000;
  }

  lemma TwoBytes(s: seq<byte>)
    requires |s| == 2
    ensures Decode(s) == s[0] + 0x100 * (s[1] as nat)
  {
    assert s[1..][1..] == [] && Decode(s[1..]) == s[1] + 256 * Decode(s[1..][1..]);
  }

  lemma FourBytes(s: seq<byte>)
    requires |s| == 4
    ensures Decode(s) == s[0] + 0x100 * (s[1] as nat) + 0x1_0000 * (s[2] as nat) + 0x100_0000 * (s[3] as nat)
  {
    assert Decode(s) == s[0] + 256 * Decode(s[1..]) && Decode(s[1..]) == s[1] + 256 * Decode(s[1..][1..]);
    assert s[1..][1..] == s[2..];
    TwoBytes(s[2..]);
  }

  /** m with the bytes from `at` on overwritten by s. */
  function Splice(m: seq<byte>, at: nat, s: seq<byte>): (r: seq<byte>)
    requires at + |s| <= |m|
    ensures |r| == |m|
  {
    m[..at] + s + m[at + |s|..]
  }

  lemma SpliceInside(m: seq<byte>, at: nat, s: seq<byte>)
    requires at + |s| <= |m|
    ensures Splice(m, at, s)[at..at + |s|] == s
  {
  }

  lemma SpliceOutside(m: seq<byte>, at: nat, s: seq<byte>, lo: nat, hi: nat)
    requires at + |s| <= |m| && lo <= hi <= |m|
    requires hi <= at || at + |s| <= lo
    ensures Splice(m, at, s)[lo..hi] == m[lo..hi]
  {
  }
}
