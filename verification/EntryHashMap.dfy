/** src/entry_hash_map.c: the index from keys to entries, over the Robin Hood map. */
module EntryHashMap {
  import opened Wrappers
  import opened Bytes
  import opened EntryHeader
  import opened BitMask
  import opened RobinHood
  import opened Crowding
  import opened HashMap
  import SipHash

  type Key = k: seq<byte> | |k| < U16

  /** An entry_header_t pointer together with the key bytes behind the header: an entry of
      the ring at some offset, or a key header allocated for one request. */
  datatype EntryRef = InRing(offset: nat, key: Key) | KeyHeader(key: Key)

  // ----- comparing and hashing keys -----

  /** strncmp(a, b, |a|) on two byte strings of the same length. */
  function Strncmp(a: seq<byte>, b: seq<byte>): int
    requires |a| == |b|
  {
    if a == [] then 0
    else if a[0] != b[0] then a[0] - b[0]
    else if a[0] == 0 then 0
    else Strncmp(a[1..], b[1..])
  }

  /** The C string a byte string starts with. */
  function CutAtNul(a: seq<byte>): seq<byte> {
    if a == [] || a[0] == 0 then [] else [a[0]] + CutAtNul(a[1..])
  }

  lemma {:induction false} StrncmpIsCString(a: seq<byte>, b: seq<byte>)
    requires |a| == |b|
    ensures Strncmp(a, b) == 0 <==> CutAtNul(a) == CutAtNul(b)
  {
    if a != [] && a[0] == b[0] && a[0] != 0 {
      StrncmpIsCString(a[1..], b[1..]);
      assert CutAtNul(a)[1..] == CutAtNul(a[1..]) && CutAtNul(b)[1..] == CutAtNul(b[1..]);
    } else if a != [] && a[0] != b[0] && a[0] != 0 && b[0] != 0 {
      assert CutAtNul(a)[0] != CutAtNul(b)[0];
    }
  }

  lemma {:induction false} NulFreeIsWhole(a: seq<byte>)
    requires 0 !in a
    ensures CutAtNul(a) == a
  {
    if a != [] {
      NulFreeIsWhole(a[1..]);
    }
  }

  /** entry_compare. */
  function Compare(a: EntryRef, b: EntryRef): int {
    if |a.key| != |b.key| then if |a.key| > |b.key| then 1 else 0
    else Strncmp(a.key, b.key)
  }

  /** entry_compare is not symmetric: a shorter first key counts as equal. */
  lemma CompareNotSymmetric()
    ensures exists a, b :: Compare(a, b) == 0 && Compare(b, a) != 0
  {
    var a, b := KeyHeader([1]), KeyHeader([1, 1]);
    assert Compare(a, b) == 0 && Compare(b, a) == 1;
  }

  /** entry_hash: hashmap_sip with both seeds zero. */
  function Hash(e: EntryRef): nat {
    SipHash.SipHash24(seq(|e.key|, i requires 0 <= i < |e.key| => e.key[i] as bv8), 0, 0) as nat
  }

  /** entry_hash is SIP64 of the key's bytes with both seeds zero. */
  lemma HashIs(e: EntryRef, bytes: seq<bv8>)
    requires |bytes| == |e.key| && forall i: nat :: i < |bytes| ==> bytes[i] as int == e.key[i]
    ensures Hash(e) == SipHash.SipHash24(bytes, 0, 0) as nat && Hash48(e) == Hash(e) % 0x1_0000_0000_0000
  {
    hide SipHash.SipHash24;
    assert bytes == seq(|e.key|, i requires 0 <= i < |e.key| => e.key[i] as bv8);
  }

  /** entry_compare is zero for a second key that is longer, or of the same length and equal up to its
      first NUL. */
  lemma CompareIs(a: EntryRef, b: EntryRef)
    ensures Compare(a, b) == 0 <==> |a.key| < |b.key| || (|a.key| == |b.key| && CutAtNul(a.key) == CutAtNul(b.key))
  {
    if |a.key| == |b.key| {
      StrncmpIsCString(a.key, b.key);
    }
  }

  function Hash48(e: EntryRef): nat {
    Hash(e) % HASH_LIMIT
  }

  function KeyOf(e: EntryRef): Key { e.key }

  ghost function EntryKeying(keys: iset<Key>): Keying<Key, EntryRef> {
    Keying(Hash48, KeyOf, Universe(keys))
  }

  ghost function Universe(keys: iset<Key>): iset<EntryRef> {
    iset e: EntryRef | e.key in keys
  }

  /** Different keys in play that share a 48-bit hash have the same length and differ
      before their first NUL. */
  ghost predicate Separated(keys: iset<Key>) {
    forall a: EntryRef, b: EntryRef {:trigger Compare(a, b)} ::
      a.key in keys && b.key in keys && a.key != b.key && Hash48(a) == Hash48(b) ==>
        |a.key| == |b.key| && CutAtNul(a.key) != CutAtNul(b.key)
  }

  lemma SameKeySame(a: EntryRef, b: EntryRef)
    requires a.key == b.key
    ensures Hash48(a) == Hash48(b) && Compare(a, b) == 0
  {
    StrncmpIsCString(a.key, b.key);
    hide SipHash.SipHash24;
    assert Hash(a) == Hash(b);
  }

  /** The map's match test means "same key" exactly on separated key sets. */
  lemma SeparatedIffDistinguished(keys: iset<Key>)
    ensures Separated(keys) <==> Distinguishes(Hash, Compare, EntryKeying(keys))
  {
    hide Hash, Strncmp, CutAtNul;
    var kg := EntryKeying(keys);
    if Separated(keys) {
      forall a: EntryRef, b: EntryRef | a in kg.universe && b in kg.universe
        ensures kg.hash(a) == kg.hash(b) && Compare(a, b) == 0 <==> kg.keyOf(a) == kg.keyOf(b)
      {
        if a.key == b.key {
          SameKeySame(a, b);
        } else if |a.key| == |b.key| {
          StrncmpIsCString(a.key, b.key);
        }
      }
    }
    if Distinguishes(Hash, Compare, kg) {
      forall a: EntryRef, b: EntryRef | a.key in keys && b.key in keys && a.key != b.key && Hash48(a) == Hash48(b)
        ensures |a.key| == |b.key| && CutAtNul(a.key) != CutAtNul(b.key)
      {
        assert a in kg.universe && b in kg.universe;
        var c, d := Compare(a, b), Compare(b, a);
        if |a.key| == |b.key| {
          StrncmpIsCString(a.key, b.key);
        }
      }
    }
  }

  // ----- the index -----

  /** The buffer after `active = 0` on the header at `at`. */
  function Deactivated(m: seq<byte>, at: nat): (r: seq<byte>)
    requires at + H <= |m|
    ensures |r| == |m|
  {
    WithHeader(m, at, HeaderAt(m, at).(active := false))
  }

  method Deactivate(buffer: array<byte>, at: nat)
    requires at + H <= buffer.Length
    modifies buffer
    ensures buffer[..] == Deactivated(old(buffer[..]), at)
  {
    Write(buffer, at, HeaderAt(buffer[..], at).(active := false));
  }

  /** Every stored pointer is an entry of the ring with its header inside the buffer. */
  ghost predicate Pointers(view: map<Key, EntryRef>, capacity: nat) {
    forall k :: k in view ==> view[k].InRing? && view[k].offset + H <= capacity
  }

  class EntryHashMap {
    const hashmap: HashMap<Key, EntryRef>
    ghost const keys: iset<Key>

    // `== true` keeps each of these predicates one fact for the verifier, instead of the many
    // it is made of.
    ghost predicate Valid()
      reads hashmap, hashmap.buckets
    {
      hashmap.Valid() == true && hashmap.nbuckets <= hashmap.buckets.Length
      && hashmap.kg.keyOf == KeyOf && hashmap.kg.universe == Universe(keys)
      && Calm(hashmap.kg, hashmap.View(), hashmap.nbuckets, hashmap.cap) == true
    }

    /** There is a place for this entry: its hash crowds no part of the table, now or after later
        deletions, and growing stays within the range of the constructor. */
    ghost predicate Takes(entry: EntryRef)
      reads hashmap, hashmap.buckets
    {
      var grows := hashmap.count == hashmap.growat;
      && hashmap.nbuckets <= hashmap.buckets.Length && (grows ==> hashmap.nbuckets < CAP_LIMIT)
      && Calm(hashmap.kg, hashmap.View()[entry.key := entry],
              if grows then hashmap.nbuckets * 2 else hashmap.nbuckets, hashmap.cap) == true
    }

    /** Up to 65535 keys there is a place for any. */
    lemma TakesFew(entry: EntryRef)
      requires Valid() && hashmap.count < 65535
      ensures Takes(entry)
    {
      hashmap.CountIsSize();
      hashmap.Capacity(0);
      FewCalm(hashmap.kg, hashmap.View()[entry.key := entry],
              if hashmap.count == hashmap.growat then hashmap.nbuckets * 2 else hashmap.nbuckets, hashmap.cap);
    }

    ghost function View(): map<Key, EntryRef>
      reads hashmap, hashmap.buckets
      requires hashmap.nbuckets <= hashmap.buckets.Length
    {
      hashmap.View()
    }

    constructor (hashmap: HashMap<Key, EntryRef>, ghost keys: iset<Key>)
      ensures this.hashmap == hashmap && this.keys == keys
    {
      this.hashmap, this.keys := hashmap, keys;
    }

    /** entry_hash_map_open; null when memory runs out. */
    static method Open(ghost keys: iset<Key>, memory: Memory) returns (index: EntryHashMap?)
      requires Separated(keys)
      ensures index == null <==> !memory.Granted()
      ensures index != null ==>
                && fresh(index) && fresh(index.hashmap) && fresh(index.hashmap.buckets)
                && index.Valid() && index.keys == keys && index.View() == map[]
                && index.hashmap.hash == Hash && index.hashmap.compare == Compare && index.hashmap.nbuckets == 16
    {
      SeparatedIffDistinguished(keys);
      var hm := HashMap<Key, EntryRef>.New(Hash, Compare, KeyHeader([]), EntryKeying(keys), 0, memory);
      if hm == null {
        return null;
      }
      index := new EntryHashMap(hm, keys);
    }

    /** entry_hash_map_get. */
    method Get(key: EntryRef) returns (entry: Option<EntryRef>)
      requires Valid() && key.key in keys
      ensures entry == Lookup(View(), key.key)
    {
      entry := hashmap.Get(key);
    }

    /** entry_hash_map_put: non-zero means out of memory. */
    method Put(buffer: array<byte>, entry: EntryRef, memory: Memory) returns (status: nat)
      requires Valid() && entry.key in keys && Takes(entry)
      requires Pointers(View(), buffer.Length)
      modifies hashmap, hashmap.buckets, buffer
      ensures Valid() && (hashmap.buckets == old(hashmap.buckets) || fresh(hashmap.buckets))
      ensures status != 0 <==> old(hashmap.count == hashmap.growat) && !memory.Granted()
      ensures status != 0 ==> View() == old(View()) && buffer[..] == old(buffer[..])
      ensures status == 0 ==> View() == old(View())[entry.key := entry]
      ensures status == 0 ==>
                buffer[..] == if entry.key in old(View()) then
                                Deactivated(old(buffer[..]), old(View())[entry.key].offset)
                              else old(buffer[..])
    {
      hide Deactivated, Hash, Compare;
      var previous := hashmap.Set(entry, memory);
      if previous.Some? {
        Deactivate(buffer, previous.value.offset);
        return 0;
      }
      return if hashmap.oom then 1 else 0;
    }

    /** Deleting a key leaves a calm index, whether or not the table shrinks. */
    lemma DeleteCalm(key: EntryRef)
      requires Valid()
      ensures var m, n := View() - {key.key}, hashmap.nbuckets;
              && Spread(hashmap.kg, m, n) == true && Calm(hashmap.kg, m, n, hashmap.cap) == true
              && (n > hashmap.cap && hashmap.count - (if key.key in View() then 1 else 0) <= n / 10 ==>
                    Spread(hashmap.kg, m, n / 2) == true && Calm(hashmap.kg, m, n / 2, hashmap.cap) == true)
    {
      hide Hash, Compare, Spread;
      var m, n := View() - {key.key}, hashmap.nbuckets;
      hashmap.CountAfterDelete(key);
      CalmSubmap(hashmap.kg, m, View(), n, hashmap.cap);
      if n > hashmap.cap {
        HalfCovers(n, hashmap.cap);
        if |m| <= n / 10 {
          CalmShrinks(hashmap.kg, m, n / 2, hashmap.cap);
        }
      }
    }

    /** entry_hash_map_delete. */
    method Delete(buffer: array<byte>, key: EntryRef, memory: Memory)
      requires Valid() && key.key in keys && Pointers(View(), buffer.Length)
      modifies hashmap, hashmap.buckets, buffer
      ensures Valid() && (hashmap.buckets == old(hashmap.buckets) || fresh(hashmap.buckets))
      ensures View() == old(View()) - {key.key}
      ensures buffer[..] == if key.key in old(View()) then Deactivated(old(buffer[..]), old(View())[key.key].offset)
                            else old(buffer[..])
    {
      DeleteCalm(key);
      hide Deactivated, Hash, Compare, Calm, Spread;
      var previous := hashmap.Delete(key, memory);
      if previous.Some? {
        Deactivate(buffer, previous.value.offset);
      }
    }
  }
}
