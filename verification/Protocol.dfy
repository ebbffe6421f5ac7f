/** The wire format of src/cache_protocol.h, and what one request does when all of its bytes
    are there at once: how much input it uses, which calls it makes on the cache, and which
    bytes it answers with. */
module Protocol {
  import opened Bytes
  import opened EntryHeader

  const VERSION: nat := 1
  const GET: byte := 1
  const PUT: byte := 2
  const DELETE: byte := 3
  const PING: byte := 4

  const OK: byte := 1
  const VALUE: byte := 2
  const PONG: byte := 3
  const KEY_OVERSIZED: byte := 4
  const NOT_FOUND: byte := 5
  const OUT_OF_MEMORY: byte := 6
  const UNKNOWN_REQUEST: byte := 7
  const UNSUPPORTED_VERSION: byte := 8
  const VALUE_OVERSIZED: byte := 9

  const REQUEST_SIZE: nat := 4     // sizeof(request_header_t): version, flags, type
  const KEY_ARGS: nat := 2         // sizeof(key_arguments_t)
  const KEY_VALUE_ARGS: nat := 6   // sizeof(key_value_arguments_t)
  const RESPONSE_SIZE: nat := 1    // sizeof(response_header_t)
  const VALUE_RESPONSE: nat := 5   // sizeof(aggregate_response_header_t)

  /** Responses after which the server hangs up whatever the client asked for. */
  predicate Fatal(code: byte) {
    code in {KEY_OVERSIZED, OUT_OF_MEMORY, UNKNOWN_REQUEST, UNSUPPORTED_VERSION, VALUE_OVERSIZED}
  }

  /** An entry as a connection sees it: its value, and the shared reader count. */
  class Entry {
    const value: seq<byte>
    var locks: nat

    constructor (value: seq<byte>)
      ensures this.value == value && locks == 0
    {
      this.value, locks := value, 0;
    }
  }

  /** The calls a connection makes on memory, index and ring. */
  datatype Call =
    | AllocateKey(size: nat)
    | Lookup(key: seq<byte>)
    | Erase(key: seq<byte>)
    | Reserve(keySize: nat, valueSize: nat)
    | Store(keySize: nat, payload: seq<byte>)

  datatype Reservation = Reserved | Full | Busy   // allocated, out of memory, write blocked

  /** The cache behind a connection: the answer to the last call of a history. */
  datatype Oracle = Oracle(
    granted: seq<Call> -> bool,
    found: seq<Call> -> Entry?,
    reserve: seq<Call> -> Reservation)

  /** What becomes of a request. */
  datatype Outcome =
    | Incomplete
    | Served(consumed: nat, output: seq<byte>, log: seq<Call>, again: bool)
    | Stalled(consumed: nat, output: seq<byte>, log: seq<Call>)   // waits on a zero-length transfer
    | Refused(consumed: nat, log: seq<Call>)                      // the ring refuses to write

  function RequestVersion(h: seq<byte>): nat
    requires |h| >= REQUEST_SIZE
  {
    Decode(h[..2])
  }

  predicate WantsMore(h: seq<byte>)
    requires |h| >= REQUEST_SIZE
  {
    h[2] % 2 == 1
  }

  function RequestType(h: seq<byte>): byte
    requires |h| >= REQUEST_SIZE
  {
    h[3]
  }

  /** The key within a stored payload. */
  function KeyOfPayload(keySize: nat, payload: seq<byte>): seq<byte> {
    if keySize <= |payload| then payload[..keySize] else payload
  }

  /** A one-byte response. */
  function Plain(consumed: nat, code: byte, log: seq<Call>, keep: bool): Outcome {
    Served(consumed, [code], log, keep && !Fatal(code))
  }

  function ValueResponse(value: seq<byte>): (r: seq<byte>)
    ensures |r| == VALUE_RESPONSE
  {
    [VALUE] + Encode(|value|, 4)
  }

  /** Answering with an entry: five header bytes, then the value; an empty value is never
      sent, because a zero-length send looks like no transfer. */
  function Answer(consumed: nat, value: seq<byte>, log: seq<Call>, keep: bool): Outcome {
    if value == [] then Stalled(consumed, ValueResponse(value), log)
    else Served(consumed, ValueResponse(value) + value, log, keep)
  }

  function ServeKey(o: Oracle, log: seq<Call>, deletes: bool, keep: bool, input: seq<byte>): Outcome
    requires |input| >= REQUEST_SIZE
  {
    var start := REQUEST_SIZE + KEY_ARGS;
    if |input| < start then Incomplete
    else
      var size := Decode(input[REQUEST_SIZE..start]);
      var log1 := log + [AllocateKey(size)];
      if !o.granted(log1) then Plain(start, OUT_OF_MEMORY, log1, keep)
      else if size == 0 then Stalled(start, [], log1)
      else if |input| < start + size then Incomplete
      else ServeKeyed(o, log1, deletes, keep, start + size, input[start..start + size])
  }

  /** A GET or DELETE whose key has arrived. */
  function ServeKeyed(o: Oracle, log: seq<Call>, deletes: bool, keep: bool, consumed: nat, key: seq<byte>): Outcome {
    if deletes then Plain(consumed, OK, log + [Erase(key)], keep)
    else
      var log2 := log + [Lookup(key)];
      var entry := o.found(log2);
      if entry == null then Plain(consumed, NOT_FOUND, log2, keep)
      else Answer(consumed, entry.value, log2, keep)
  }

  function ServePut(o: Oracle, log: seq<Call>, keep: bool, input: seq<byte>): Outcome
    requires |input| >= REQUEST_SIZE
  {
    var start := REQUEST_SIZE + KEY_VALUE_ARGS;
    if |input| < start then Incomplete
    else
      var keySize, valueSize := Decode(input[REQUEST_SIZE..REQUEST_SIZE + 2]), Decode(input[REQUEST_SIZE + 2..start]);
      var log1 := log + [Reserve(keySize, valueSize)];
      match o.reserve(log1)
      case Full => Plain(start, OUT_OF_MEMORY, log1, keep)
      case Busy => Refused(start, log1)
      case Reserved =>
        var size := (keySize + valueSize) % U32;
        if size == 0 then Stalled(start, [], log1)
        else if |input| < start + size then Incomplete
        else ServeStored(o, log1, keep, start + size, keySize, input[start..start + size])
  }

  /** A PUT whose key and value have arrived. */
  function ServeStored(o: Oracle, log: seq<Call>, keep: bool, consumed: nat, keySize: nat,
      payload: seq<byte>): Outcome {
    var log2 := log + [Store(keySize, payload)];
    Plain(consumed, if o.granted(log2) then OK else OUT_OF_MEMORY,
          log2 + [Lookup(KeyOfPayload(keySize, payload))], keep)
  }

  /** One request, given all the bytes its connection will ever receive. */
  function OneShot(o: Oracle, log: seq<Call>, input: seq<byte>): Outcome {
    if |input| < REQUEST_SIZE then Incomplete
    else if RequestVersion(input) != VERSION then Plain(REQUEST_SIZE, UNSUPPORTED_VERSION, log, false)
    else if RequestType(input) == PING then Plain(REQUEST_SIZE, PONG, log, WantsMore(input))
    else if RequestType(input) == GET then ServeKey(o, log, false, WantsMore(input), input)
    else if RequestType(input) == DELETE then ServeKey(o, log, true, WantsMore(input), input)
    else if RequestType(input) == PUT then ServePut(o, log, WantsMore(input), input)
    else Plain(REQUEST_SIZE, UNKNOWN_REQUEST, log, WantsMore(input))
  }

  /** `sent` is the beginning of the response to a request with this outcome. */
  predicate PartWay(x: Outcome, sent: seq<byte>) {
    sent == [] || ((x.Served? || x.Stalled?) && sent <= x.output)
  }

  /** Two inputs that agree on their first n bytes agree on every field within these. */
  lemma SameField(a: seq<byte>, b: seq<byte>, n: nat, lo: nat, hi: nat)
    requires n <= |a| && n <= |b| && a[..n] == b[..n] && lo <= hi <= n
    ensures a[lo..hi] == b[lo..hi]
  {
    assert a[lo..hi] == a[..n][lo..hi] && b[lo..hi] == b[..n][lo..hi];
  }

  lemma KeyedConsumes(o: Oracle, log: seq<Call>, deletes: bool, keep: bool, consumed: nat, key: seq<byte>)
    ensures var x := ServeKeyed(o, log, deletes, keep, consumed, key); !x.Incomplete? && x.consumed == consumed
  {
  }

  lemma StoredConsumes(o: Oracle, log: seq<Call>, keep: bool, consumed: nat, keySize: nat, payload: seq<byte>)
    ensures var x := ServeStored(o, log, keep, consumed, keySize, payload); !x.Incomplete? && x.consumed == consumed
  {
  }

  lemma SameKeyOutcome(o: Oracle, log: seq<Call>, deletes: bool, keep: bool, a: seq<byte>, b: seq<byte>, n: nat)
    requires REQUEST_SIZE <= n <= |a| && n <= |b| && a[..n] == b[..n]
    requires var x := ServeKey(o, log, deletes, keep, a); !x.Incomplete? && x.consumed <= n
    ensures ServeKey(o, log, deletes, keep, b) == ServeKey(o, log, deletes, keep, a)
  {
    hide Decode, ServeKeyed;
    var size := Decode(a[4..6]);
    if 6 + size <= |a| {
      KeyedConsumes(o, log + [AllocateKey(size)], deletes, keep, 6 + size, a[6..6 + size]);
    }
    SameField(a, b, n, 4, 6);
    if 6 + size <= n {
      SameField(a, b, n, 6, 6 + size);
    }
  }

  lemma SamePutOutcome(o: Oracle, log: seq<Call>, keep: bool, a: seq<byte>, b: seq<byte>, n: nat)
    requires REQUEST_SIZE <= n <= |a| && n <= |b| && a[..n] == b[..n]
    requires var x := ServePut(o, log, keep, a); !x.Incomplete? && x.consumed <= n
    ensures ServePut(o, log, keep, b) == ServePut(o, log, keep, a)
  {
    hide Decode, ServeStored;
    var size := (Decode(a[4..6]) + Decode(a[6..10])) % U32;
    if 10 + size <= |a| {
      StoredConsumes(o, log + [Reserve(Decode(a[4..6]), Decode(a[6..10]))], keep, 10 + size,
                     Decode(a[4..6]), a[10..10 + size]);
    }
    SameField(a, b, n, 4, 6);
    SameField(a, b, n, 6, 10);
    if 10 + size <= n {
      SameField(a, b, n, 10, 10 + size);
    }
  }

  /** A decided request has used at least its header and at most what is there. */
  lemma ConsumedBounds(o: Oracle, log: seq<Call>, input: seq<byte>)
    requires !OneShot(o, log, input).Incomplete?
    ensures REQUEST_SIZE <= OneShot(o, log, input).consumed <= |input|
  {
    hide Decode, RequestVersion;
    if |input| >= 6 && |input| >= 6 + Decode(input[4..6]) {
      var size := Decode(input[4..6]);
      KeyedConsumes(o, log + [AllocateKey(size)], RequestType(input) == DELETE, WantsMore(input), 6 + size,
                    input[6..6 + size]);
    }
  }

  /** What becomes of a request is decided by the bytes it consumes: any other input that
      begins with them has the same outcome. */
  lemma ConsumedDecides(o: Oracle, log: seq<Call>, a: seq<byte>, b: seq<byte>)
    requires var x := OneShot(o, log, a); !x.Incomplete? && x.consumed <= |a| && x.consumed <= |b|
                                          && a[..x.consumed] == b[..x.consumed]
    ensures OneShot(o, log, b) == OneShot(o, log, a)
  {
    hide Decode, ServeKey, ServePut;
    var n := OneShot(o, log, a).consumed;
    ConsumedBounds(o, log, a);
    SameField(a, b, n, 0, 2);
    assert a[2] == a[..n][2] && b[2] == b[..n][2] && a[3] == a[..n][3] && b[3] == b[..n][3];
    if RequestVersion(a) == VERSION {
      if RequestType(a) == GET {
        SameKeyOutcome(o, log, false, WantsMore(a), a, b, n);
      } else if RequestType(a) == DELETE {
        SameKeyOutcome(o, log, true, WantsMore(a), a, b, n);
      } else if RequestType(a) == PUT {
        SamePutOutcome(o, log, WantsMore(a), a, b, n);
      }
    }
  }
}
