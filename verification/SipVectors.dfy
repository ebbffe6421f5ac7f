/** Published values of SipHash-2-4: appendix A of "SipHash: a fast short-input PRF" (Aumasson and
    Bernstein) and two more of its authors' test vectors, all with the key 00 01 .. 0f and a message
    00 01 02 .. of the given length. */
module SipVectors {
  import opened SipHash

  // ----- the state, round by round -----

  lemma Key()
    ensures Initial(0x0706050403020100, 0x0f0e0d0c0b0a0908) ==
            State(0x7469686173716475, 0x6b617f6d656e6665, 0x6b7f62616d677361, 0x7b6b696e727e6c7b)
  {
  }

  lemma EmptyCompress()
    ensures Compress(State(0x7469686173716475, 0x6b617f6d656e6665, 0x6b7f62616d677361, 0x7b6b696e727e6c7b),
                     0x0) ==
            State(0x75126fd44af190b6, 0x084235164f06142b, 0x37b04f9f8026831d, 0x1b4678cde8253231)
  {
    assert SipRound(State(0x7469686173716475, 0x6b617f6d656e6665, 0x6b7f62616d677361, 0x7b6b696e727e6c7b)) ==
           State(0x6864848c93698c85, 0x41d43f143c94a7dc, 0xf3f94792d7121732, 0x5e52f75805987c12);
  }

  lemma EmptyFinish()
    ensures Finish(State(0x75126fd44af190b6, 0x084235164f06142b, 0x37b04f9f8026831d, 0x1b4678cde8253231)) ==
            0x726fdb47dd0e0e31
  {
    assert SipRound(State(0x75126fd44af190b6, 0x084235164f06142b, 0x37b04f9f802683e2, 0x1b4678cde8253231)) ==
           State(0xc432c529d7cf523f, 0x54f98392486c0c10, 0xc3be7bfc8eed3577, 0xcd398a7c7d6a155b);
    assert SipRound(State(0xc432c529d7cf523f, 0x54f98392486c0c10, 0xc3be7bfc8eed3577, 0xcd398a7c7d6a155b)) ==
           State(0x3abfd9623238d0a7, 0xb9354b5807b0cd1e, 0xae109fa2ba56082a, 0x58dcf8f2cf5b8028);
    assert SipRound(State(0x3abfd9623238d0a7, 0xb9354b5807b0cd1e, 0xae109fa2ba56082a, 0x58dcf8f2cf5b8028)) ==
           State(0x3808f593fd8ef548, 0x2913fc753c3d6609, 0xa9fbd335618bbce1, 0xc1c9c6a9ec5136a2);
  }

  lemma FirstCompress()
    ensures Compress(State(0x7469686173716475, 0x6b617f6d656e6665, 0x6b7f62616d677361, 0x7b6b696e727e6c7b),
                     0x0706050403020100) ==
            State(0x4a017198de0a59e0, 0x0d52f6f62a4f59a4, 0x634cb3577b01fd3d, 0xa5224d6f55c7d9c8)
  {
    assert SipRound(State(0x7469686173716475, 0x6b617f6d656e6665, 0x6b7f62616d677361, 0x7c6d6c6a717c6d7b)) ==
           State(0x64668a929363847f, 0x4ed232083d9aa8dc, 0xf2f74892d8141a2e, 0x9290f9810552f4a8);
  }

  lemma EightCompress()
    ensures Compress(State(0x4a017198de0a59e0, 0x0d52f6f62a4f59a4, 0x634cb3577b01fd3d, 0xa5224d6f55c7d9c8),
                     0x0800000000000000) ==
            State(0x89d9124023d9a50f, 0xb1d61ba5fb187052, 0x923c25dba476bcad, 0x2db69326a593860d)
  {
    assert SipRound(State(0x4a017198de0a59e0, 0x0d52f6f62a4f59a4, 0x634cb3577b01fd3d, 0xad224d6f55c7d9c8)) ==
           State(0x655a08856055e2b6, 0x42746857d06b1a26, 0xb437093319f9ae8d, 0xc57b28aa24be42bc);
  }

  lemma EightFinish()
    ensures Finish(State(0x89d9124023d9a50f, 0xb1d61ba5fb187052, 0x923c25dba476bcad, 0x2db69326a593860d)) ==
            0x93f5f5799a932462
  {
    assert SipRound(State(0x89d9124023d9a50f, 0xb1d61ba5fb187052, 0x923c25dba476bc52, 0x2db69326a593860d)) ==
           State(0x4bc631f307b69dcf, 0x9dc46a77ddb5740d, 0x5b0285bab8ce4b87, 0xd9ffb11efa93074c);
    assert SipRound(State(0x4bc631f307b69dcf, 0x9dc46a77ddb5740d, 0x5b0285bab8ce4b87, 0xd9ffb11efa93074c)) ==
           State(0x6988de279db82796, 0x567e096ebb863cbf, 0xff4ef53799c69eb5, 0xe0de5b96f828a40f);
    assert SipRound(State(0x6988de279db82796, 0x567e096ebb863cbf, 0xff4ef53799c69eb5, 0xe0de5b96f828a40f)) ==
           State(0x14fa0d3bf5e789b0, 0x8095bce62dacd308, 0x3098d15ee15881b5, 0x083cb12fb6b0fec5);
  }

  lemma FifteenCompress()
    ensures Compress(State(0x4a017198de0a59e0, 0x0d52f6f62a4f59a4, 0x634cb3577b01fd3d, 0xa5224d6f55c7d9c8),
                     0x0f0e0d0c0b0a0908) ==
            State(0x3c85b3ab6f55be51, 0x414fc3fb98efe374, 0xccf13ea527b9f4bd, 0x5293f5da84008f82)
  {
    assert SipRound(State(0x4a017198de0a59e0, 0x0d52f6f62a4f59a4, 0x634cb3577b01fd3d, 0xaa2c40635ecdd0c0)) ==
           State(0x557560fb6063d060, 0x4c8e675bd961133e, 0xbd3d002b1703a181, 0xfb9441179a4a7315);
  }

  lemma FifteenFinish()
    ensures Finish(State(0x3c85b3ab6f55be51, 0x414fc3fb98efe374, 0xccf13ea527b9f4bd, 0x5293f5da84008f82)) ==
            0xa129ca6149be45e5
  {
    assert SipRound(State(0x3c85b3ab6f55be51, 0x414fc3fb98efe374, 0xccf13ea527b9f442, 0x5293f5da84008f82)) ==
           State(0xf2a55244a20e48fe, 0xac5ad16ccc3ca6e4, 0x9fe5adb0a52f393a, 0xfd41d55e88f30308);
    assert SipRound(State(0xf2a55244a20e48fe, 0xac5ad16ccc3ca6e4, 0x9fe5adb0a52f393a, 0xfd41d55e88f30308)) ==
           State(0xb6c3fbdecc2ae4b4, 0x1638c86adc6b3cf0, 0x28b8b6ab62553d46, 0xc9465e86ec43eb95);
    assert SipRound(State(0xb6c3fbdecc2ae4b4, 0x1638c86adc6b3cf0, 0x28b8b6ab62553d46, 0xc9465e86ec43eb95)) ==
           State(0x58101b167209a5e6, 0xf8792ae75b66e7dd, 0x1da14c3ec7f0b4f7, 0x7624ba8a41bc4ad9);
  }

  // ----- the words -----

  lemma EmptyWords()
    ensures Words(Padded([])) == [0]
  {
    var p: seq<bv8> := [0, 0, 0, 0, 0, 0, 0, 0];
    assert Padded([]) == p;
    OneWord(p);
  }

  lemma TwoWords(p: seq<bv8>)
    requires |p| == 16
    ensures Words(p) == [Load(p[..8]), Load(p[8..])]
  {
    hide Load;
    OneWord(p[8..]);
    assert p[8..][..8] == p[8..];
  }

  lemma EightWords()
    ensures Words(Padded([0, 1, 2, 3, 4, 5, 6, 7])) == [0x0706050403020100, 0x0800000000000000]
  {
    var p: seq<bv8> := [0, 1, 2, 3, 4, 5, 6, 7, 0, 0, 0, 0, 0, 0, 0, 8];
    assert Padded([0, 1, 2, 3, 4, 5, 6, 7]) == p;
    TwoWords(p);
  }

  lemma FifteenWords()
    ensures Words(Padded([0, 1, 2, 3, 4, 5, 6, 7, 8, 9, 10, 11, 12, 13, 14])) ==
            [0x0706050403020100, 0x0f0e0d0c0b0a0908]
  {
    var p: seq<bv8> := [0, 1, 2, 3, 4, 5, 6, 7, 8, 9, 10, 11, 12, 13, 14, 15];
    assert Padded([0, 1, 2, 3, 4, 5, 6, 7, 8, 9, 10, 11, 12, 13, 14]) == p;
    TwoWords(p);
  }

  lemma AbsorbOne(s: State, a: bv64)
    ensures Absorb(s, [a]) == Compress(s, a)
  {
    hide Compress;
    assert [a][1..] == [];
  }

  lemma AbsorbTwo(s: State, a: bv64, b: bv64)
    ensures Absorb(s, [a, b]) == Compress(Compress(s, a), b)
  {
    hide Compress;
    assert [a, b][1..] == [b];
    AbsorbOne(Compress(s, a), b);
  }

  // ----- the hashes -----

  lemma EmptyHashed()
    ensures SipHash24([], 0x0706050403020100, 0x0f0e0d0c0b0a0908) == 0x726fdb47dd0e0e31
  {
    hide Compress, Finish, Words, Padded, Initial;
    EmptyWords();
    Key();
    EmptyCompress();
    EmptyFinish();
    AbsorbOne(Initial(0x0706050403020100, 0x0f0e0d0c0b0a0908), 0);
  }

  lemma EightHashed()
    ensures SipHash24([0, 1, 2, 3, 4, 5, 6, 7], 0x0706050403020100, 0x0f0e0d0c0b0a0908) == 0x93f5f5799a932462
  {
    hide Compress, Finish, Words, Padded, Initial;
    EightWords();
    Key();
    FirstCompress();
    EightCompress();
    EightFinish();
    AbsorbTwo(Initial(0x0706050403020100, 0x0f0e0d0c0b0a0908), 0x0706050403020100, 0x0800000000000000);
  }

  lemma FifteenHashed()
    ensures SipHash24([0, 1, 2, 3, 4, 5, 6, 7, 8, 9, 10, 11, 12, 13, 14],
                      0x0706050403020100, 0x0f0e0d0c0b0a0908) == 0xa129ca6149be45e5
  {
    hide Compress, Finish, Words, Padded, Initial;
    FifteenWords();
    Key();
    FirstCompress();
    FifteenCompress();
    FifteenFinish();
    AbsorbTwo(Initial(0x0706050403020100, 0x0f0e0d0c0b0a0908), 0x0706050403020100, 0x0f0e0d0c0b0a0908);
  }

  /** SIP64 on the three messages. */
  method Published() returns (empty: bv64, eight: bv64, fifteen: bv64)
    ensures empty == 0x726fdb47dd0e0e31 && eight == 0x93f5f5799a932462 && fifteen == 0xa129ca6149be45e5
  {
    hide SipHash24;
    EmptyHashed();
    EightHashed();
    FifteenHashed();
    empty := Sip64([], 0x0706050403020100, 0x0f0e0d0c0b0a0908);
    eight := Sip64([0, 1, 2, 3, 4, 5, 6, 7], 0x0706050403020100, 0x0f0e0d0c0b0a0908);
    fifteen := Sip64([0, 1, 2, 3, 4, 5, 6, 7, 8, 9, 10, 11, 12, 13, 14], 0x0706050403020100, 0x0f0e0d0c0b0a0908);
  }
}
