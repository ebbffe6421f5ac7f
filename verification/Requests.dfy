/** Each kind of request on its bytes: which calls it makes on memory, index and ring, what it is answered
    and whether the connection goes on. */
module Requests {
  import opened Bytes
  import opened EntryHeader
  import opened Protocol
  import opened Connection
  import opened Chunking
  import opened Sessions

  lemma SmallSize(n: nat)
    requires n < 0x1_0000
    ensures n / 256 < 256 && Decode([n % 256, n / 256]) == n
  {
    TwoBytes([n % 256, n / 256]);
  }

  lemma LargeSize(n: nat)
    requires n < 0x1_0000_0000
    ensures n / 0x100_0000 < 256
    ensures Encode(n, 4) == [n % 256, n / 256 % 256, n / 0x1_0000 % 256, n / 0x100_0000]
    ensures Decode([n % 256, n / 256 % 256, n / 0x1_0000 % 256, n / 0x100_0000]) == n
  {
    var s := [n % 256, n / 256 % 256, n / 0x1_0000 % 256, n / 0x100_0000];
    FourBytes(s);
    assert n / 256 / 256 == n / 0x1_0000 && n / 0x1_0000 / 256 == n / 0x100_0000;
    EncodeDecode(s);
  }

  /** GET and DELETE, up to where they differ. */
  lemma Keyed(o: Oracle, log: seq<Call>, flags: byte, kind: byte, key: seq<byte>, more: seq<byte>)
    requires kind in {1, 3} && 0 < |key| < 0x1_0000
    ensures var x := OneShot(o, log, [1, 0, flags, kind, |key| % 256, |key| / 256] + key + more);
            var asked := log + [AllocateKey(|key|)];
            if o.granted(asked) then
              x == ServeKeyed(o, asked, kind == 3, flags % 2 == 1, 6 + |key|, key)
            else x == Served(6, [6], asked, false)
  {
    var h, args := [1, 0, flags, kind], [|key| % 256, |key| / 256];
    var input := [1, 0, flags, kind, |key| % 256, |key| / 256] + key + more;
    SmallSize(|key|);
    assert input[..2] == [1, 0] && input[4..6] == args && input[6..6 + |key|] == key;
    SmallSize(1);
    hide Decode, ServeKeyed;
  }

  /** DELETE of a key: it allocates memory for the key, erases the key and nothing else, and is answered
      OK; without memory it is answered so, and hung up on. */
  lemma Delete(o: Oracle, log: seq<Call>, flags: byte, key: seq<byte>, more: seq<byte>)
    requires 0 < |key| < 0x1_0000
    ensures var x := OneShot(o, log, [1, 0, flags, 3, |key| % 256, |key| / 256] + key + more);
            var asked := log + [AllocateKey(|key|)];
            x == if o.granted(asked) then Served(6 + |key|, [1], asked + [Erase(key)], flags % 2 == 1)
                 else Served(6, [6], asked, false)
  {
    hide OneShot, Decode;
    Keyed(o, log, flags, 3, key, more);
  }

  /** GET of a key: one lookup; not found, or the value behind its size. */
  lemma Get(o: Oracle, log: seq<Call>, flags: byte, key: seq<byte>, more: seq<byte>)
    requires 0 < |key| < 0x1_0000
    requires var found := o.found(log + [AllocateKey(|key|), Lookup(key)]);
             found != null ==> 0 < |found.value| < 0x1_0000_0000
    ensures var x := OneShot(o, log, [1, 0, flags, 1, |key| % 256, |key| / 256] + key + more);
            var asked, looked := log + [AllocateKey(|key|)], log + [AllocateKey(|key|), Lookup(key)];
            var found := o.found(looked);
            if !o.granted(asked) then x == Served(6, [6], asked, false)
            else if found == null then x == Served(6 + |key|, [5], looked, flags % 2 == 1)
            else
              var n := |found.value|;
              x == Served(6 + |key|, [2, n % 256, n / 256 % 256, n / 0x1_0000 % 256, n / 0x100_0000] + found.value,
                          looked, flags % 2 == 1)
  {
    hide OneShot, Decode, Encode;
    Keyed(o, log, flags, 1, key, more);
    assert log + [AllocateKey(|key|)] + [Lookup(key)] == log + [AllocateKey(|key|), Lookup(key)];
    var found := o.found(log + [AllocateKey(|key|), Lookup(key)]);
    if found != null {
      LargeSize(|found.value|);
    }
  }

  /** Where the fields of a PUT are. */
  lemma PutFields(flags: byte, a: seq<byte>, b: seq<byte>, key: seq<byte>, value: seq<byte>, more: seq<byte>)
    requires |a| == 2 && |b| == 4
    ensures var input := [1, 0, flags, 2] + (a + b) + (key + value) + more;
            && |input| == 10 + |key| + |value| + |more| && input[..2] == [1, 0] && input[2] == flags && input[3] == 2
            && input[4..6] == a && input[6..10] == b && input[10..10 + (|key| + |value|)] == key + value
  {
  }

  /** A PUT whose fields are known. */
  lemma PutDecided(o: Oracle, log: seq<Call>, flags: byte, input: seq<byte>, key: seq<byte>, value: seq<byte>)
    requires |input| >= 10 + |key| + |value| && 0 < |key| + |value| < 0x1_0000_0000
    requires Decode(input[..2]) == 1 && input[2] == flags && input[3] == 2
    requires Decode(input[4..6]) == |key| && Decode(input[6..10]) == |value|
    requires input[10..10 + (|key| + |value|)] == key + value
    ensures var k, v := |key|, |value|;
            var reserved := log + [Reserve(k, v)];
            var stored, x := reserved + [Store(k, key + value)], OneShot(o, log, input);
            match o.reserve(reserved)
            case Full => x == Served(10, [6], reserved, false)
            case Busy => x == Refused(10, reserved)
            case Reserved =>
              x == if o.granted(stored) then Served(10 + k + v, [1], stored + [Lookup(key)], flags % 2 == 1)
                   else Served(10 + k + v, [6], stored + [Lookup(key)], false)
  {
    hide Decode;
    assert (key + value)[..|key|] == key;
  }

  /** PUT of a key and a value: it reserves room for both, stores them, looks the key up once more, and is
      answered OK or out of memory; with the ring full it is answered out of memory, with the ring
      write-blocked not at all. */
  lemma Put(o: Oracle, log: seq<Call>, flags: byte, key: seq<byte>, value: seq<byte>, more: seq<byte>)
    requires |key| < 0x1_0000 && 0 < |key| + |value| < 0x1_0000_0000
    ensures |value| / 0x100_0000 < 256
    ensures var k, v := |key|, |value|;
            var sizes := [k % 256, k / 256] + [v % 256, v / 256 % 256, v / 0x1_0000 % 256, v / 0x100_0000];
            var x := OneShot(o, log, [1, 0, flags, 2] + sizes + (key + value) + more);
            var reserved := log + [Reserve(k, v)];
            var stored := reserved + [Store(k, key + value)];
            match o.reserve(reserved)
            case Full => x == Served(10, [6], reserved, false)
            case Busy => x == Refused(10, reserved)
            case Reserved =>
              x == if o.granted(stored) then Served(10 + k + v, [1], stored + [Lookup(key)], flags % 2 == 1)
                   else Served(10 + k + v, [6], stored + [Lookup(key)], false)
  {
    hide OneShot, Decode;
    var k, v := |key|, |value|;
    LargeSize(v);
    SmallSize(k);
    SmallSize(1);
    var a, b := [k % 256, k / 256], [v % 256, v / 256 % 256, v / 0x1_0000 % 256, v / 0x100_0000];
    PutFields(flags, a, b, key, value, more);
    PutDecided(o, log, flags, [1, 0, flags, 2] + (a + b) + (key + value) + more, key, value);
  }

  /** PING is answered, another kind of request and another version are refused and hung up on. */
  lemma Short(o: Oracle, log: seq<Call>, low: byte, high: byte, flags: byte, kind: byte, more: seq<byte>)
    ensures var x := OneShot(o, log, [low, high, flags, kind] + more);
            && (low != 1 || high != 0 ==> x == Served(4, [8], log, false))
            && (low == 1 && high == 0 && kind == 4 ==> x == Served(4, [3], log, flags % 2 == 1))
            && (low == 1 && high == 0 && kind !in {1, 2, 3, 4} ==> x == Served(4, [7], log, false))
  {
    var input := [low, high, flags, kind] + more;
    assert input[..2] == [low, high] && [low, high][1..] == [high] && [high][1..] == [];
    assert Decode([low, high]) == low + 256 * Decode([high]);
    assert Decode([high]) == high + 256 * Decode([]);
  }

  // ----- the same of a connection, however its traffic is split -----

  method Deleting(c: Connection, b: Backend, flags: byte, key: seq<byte>, more: seq<byte>, schedule: seq<Poll>)
      returns (result: Result, consumed: nat, output: seq<byte>, broken: bool)
    requires Ready(c, b) && 0 < |key| < 0x1_0000 && b.oracle.granted(b.log + [AllocateKey(|key|)])
    modifies c, b`log, b.entries`locks
    ensures result in {NewRequest, Disconnect} && !broken ==>
              && consumed == 6 + |key| && output == [1] && b.log == old(b.log) + [AllocateKey(|key|), Erase(key)]
              && (result == NewRequest <==> flags % 2 == 1)
    ensures (forall p :: p in schedule && p.Move? ==> p.limit > 0) && Chunking.Moves(schedule) >= 7 + |key| ==>
              !broken ==> result in {NewRequest, Disconnect}
  {
    hide OneShot, Decode, Ready;
    Delete(b.oracle, b.log, flags, key, more);
    assert b.log + [AllocateKey(|key|)] + [Erase(key)] == b.log + [AllocateKey(|key|), Erase(key)];
    ghost var polls;
    result, consumed, output, broken, polls :=
      Serve(c, b, [1, 0, flags, 3, |key| % 256, |key| / 256] + key + more, schedule);
  }

  method Getting(c: Connection, b: Backend, flags: byte, key: seq<byte>, more: seq<byte>, schedule: seq<Poll>)
      returns (result: Result, consumed: nat, output: seq<byte>, broken: bool)
    requires Ready(c, b) && 0 < |key| < 0x1_0000 && b.oracle.granted(b.log + [AllocateKey(|key|)])
    requires var found := b.oracle.found(b.log + [AllocateKey(|key|), Lookup(key)]);
             found != null ==> 0 < |found.value| < 0x1_0000_0000
    modifies c, b`log, b.entries`locks
    ensures result in {NewRequest, Disconnect} && !broken ==>
              var found := b.oracle.found(old(b.log) + [AllocateKey(|key|), Lookup(key)]);
              && consumed == 6 + |key| && b.log == old(b.log) + [AllocateKey(|key|), Lookup(key)]
              && (result == NewRequest <==> flags % 2 == 1)
              && (found == null ==> output == [5])
              && (found != null ==>
                    var n := |found.value|;
                    && n / 0x100_0000 < 256
                    && output ==
                         [2, n % 256, n / 256 % 256, n / 0x1_0000 % 256, n / 0x100_0000] + found.value)
    ensures var found := b.oracle.found(old(b.log) + [AllocateKey(|key|), Lookup(key)]);
            var answer := if found == null then 1 else 5 + |found.value|;
            (forall p :: p in schedule && p.Move? ==> p.limit > 0) && Chunking.Moves(schedule) >= 6 + |key| + answer ==>
              !broken ==>
              result in {NewRequest, Disconnect, ReadBlocked}
  {
    hide OneShot, Decode, Ready;
    Get(b.oracle, b.log, flags, key, more);
    ghost var polls;
    result, consumed, output, broken, polls :=
      Serve(c, b, [1, 0, flags, 1, |key| % 256, |key| / 256] + key + more, schedule);
  }

  method Putting(c: Connection, b: Backend, flags: byte, key: seq<byte>, value: seq<byte>, more: seq<byte>,
                 schedule: seq<Poll>) returns (result: Result, consumed: nat, output: seq<byte>, broken: bool)
    requires Ready(c, b) && |key| < 0x1_0000 && 0 < |key| + |value| < 0x1_0000_0000
    modifies c, b`log, b.entries`locks
    ensures result in {NewRequest, Disconnect} && !broken ==>
              var reserved := old(b.log) + [Reserve(|key|, |value|)];
              var stored := reserved + [Store(|key|, key + value)];
              if b.oracle.reserve(reserved) == Full then
                consumed == 10 && output == [6] && b.log == reserved && result == Disconnect
              else
                && consumed == 10 + |key| + |value| && b.log == stored + [Lookup(key)]
                && output == (if b.oracle.granted(stored) then [1] else [6])
                && (result == NewRequest <==> b.oracle.granted(stored) && flags % 2 == 1)
    ensures result == WriteBlocked ==> b.oracle.reserve(old(b.log) + [Reserve(|key|, |value|)]) == Busy
    ensures (forall p :: p in schedule && p.Move? ==> p.limit > 0) && !broken ==>
              Chunking.Moves(schedule) >= 11 + |key| + |value| ==>
              result in if b.oracle.reserve(old(b.log) + [Reserve(|key|, |value|)]) == Busy then {WriteBlocked}
                        else {NewRequest, Disconnect}
  {
    hide OneShot, Decode, Ready;
    Put(b.oracle, b.log, flags, key, value, more);
    var k, v := |key|, |value|;
    var sizes := [k % 256, k / 256] + [v % 256, v / 256 % 256, v / 0x1_0000 % 256, v / 0x100_0000];
    ghost var polls;
    result, consumed, output, broken, polls := Serve(c, b, [1, 0, flags, 2] + sizes + (key + value) + more, schedule);
  }

  /** A request that is all header: a PING, another kind of request, or another version. */
  method Answering(c: Connection, b: Backend, low: byte, high: byte, flags: byte, kind: byte, more: seq<byte>,
                   schedule: seq<Poll>) returns (result: Result, consumed: nat, output: seq<byte>, broken: bool)
    requires Ready(c, b) && (low != 1 || high != 0 || kind !in {1, 2, 3})
    modifies c, b`log, b.entries`locks
    ensures result in {NewRequest, Disconnect} && !broken ==>
              && consumed == 4 && b.log == old(b.log)
              && output == (if low != 1 || high != 0 then [8] else if kind == 4 then [3] else [7])
              && (result == NewRequest <==> low == 1 && high == 0 && kind == 4 && flags % 2 == 1)
    ensures (forall p :: p in schedule && p.Move? ==> p.limit > 0) && Chunking.Moves(schedule) >= 5 ==>
              !broken ==> result in {NewRequest, Disconnect}
  {
    hide OneShot, Decode, Ready;
    Short(b.oracle, b.log, low, high, flags, kind, more);
    ghost var polls;
    result, consumed, output, broken, polls := Serve(c, b, [low, high, flags, kind] + more, schedule);
  }

  // ----- and of a connection that is served among others -----

  lemma NothingYet(o: Oracle)
    ensures forall log :: OneShot(o, log, []) == Incomplete
  {
  }

  lemma OneOutcome(log: seq<Call>, x: Outcome)
    requires x.Served?
    ensures Consumed([x]) == x.consumed && Outputs([x]) == x.output && LogAfter(log, [x]) == x.log
  {
    assert [x][..0] == [];
  }

  lemma {:induction false} AtMostOne(o: Oracle, input: seq<byte>, outs: seq<Outcome>)
    requires Stream(o, [], input, outs) == true
    requires var x := OneShot(o, [], input); x.Served? && x.consumed == |input|
    ensures outs == [] || outs == [OneShot(o, [], input)]
    decreases |outs|
  {
    if outs != [] {
      hide OneShot, Stream;
      var init, x := outs[..|outs| - 1], OneShot(o, [], input);
      StreamLast(o, [], input, outs);
      AtMostOne(o, input, init);
      NothingYet(o);
      OneOutcome([], x);
      assert input[0..] == input && input[|input|..] == [] && outs[|outs| - 1] in outs;
      if init == [] {
        assert Consumed(init) == 0 && LogAfter([], init) == [] && outs == [outs[0]];
      }
    }
  }

  /** If all a connection has received is one request, and that has been decided by all of it, the
      connection has sent the beginning of the response; and all of it when it is hung up on. */
  lemma OneRequest(o: Oracle, k: Book)
    requires var x := OneShot(o, [], k.input); x.Served? && x.consumed == |k.input|
    ensures InStream(o, k) ==> k.output <= OneShot(o, [], k.input).output
    ensures Whole(o, k) ==> k.output == OneShot(o, [], k.input).output && !OneShot(o, [], k.input).again
  {
    hide OneShot, Stream;
    var x := OneShot(o, [], k.input);
    NothingYet(o);
    OneOutcome([], x);
    assert k.input[0..] == k.input && k.input[|k.input|..] == [];
    if InStream(o, k) || Whole(o, k) {
      AtMostOne(o, k.input, k.outs);
    }
  }

  /** A DELETE in a server, whoever else is served meanwhile: it is answered OK, and nothing else is sent. */
  lemma DeleteAnswered(o: Oracle, k: Book, flags: byte, key: seq<byte>)
    requires 0 < |key| < 0x1_0000 && o.granted([AllocateKey(|key|)])
    requires k.input == [1, 0, flags, 3, |key| % 256, |key| / 256] + key
    ensures InStream(o, k) ==> k.output <= [1]
    ensures Whole(o, k) ==> k.output == [1] && flags % 2 == 0
  {
    hide OneShot, InStream, Whole;
    Delete(o, [], flags, key, []);
    assert [] + [AllocateKey(|key|)] == [AllocateKey(|key|)];
    assert k.input + [] == k.input;
    OneRequest(o, k);
  }
}
