/** src/connection.c: one client connection as a state machine driven by partial transfers. */
module Connection {
  import opened Bytes
  import opened EntryHeader
  import opened Protocol

  datatype State =
    | ReceivingHeader | ReceivingArguments | AwaitingWriteUnblock | ReceivingBody
    | AwaitingReadUnblock | SendingHeader | SendingBody

  datatype Result = Success | NoTransfer | NewRequest | Disconnect | ReadBlocked | WriteBlocked

  /** The outcome of one recv or send call. */
  datatype Io =
    | WouldBlock                 // nothing moved: would block, or a transfer of length zero
    | Failed                     // any other socket error
    | Received(data: seq<byte>)
    | Sent(n: nat)

  /** The memory `connection->buffer` points at. */
  datatype Target = HeaderBuffer | ArgumentsBuffer | PayloadBuffer | ValueBuffer

  /** The cache and allocator as one connection meets them; `log` is the history of its calls.  How
      a call is answered may be any function of these, and so takes in whatever other connections
      have done in between. */
  class Backend {
    const oracle: Oracle
    ghost const entries: set<Entry>
    var log: seq<Call>

    /** Lookups return entries of this cache, whose values have 32-bit sizes and whose lock
        counts fit their 16 bits. */
    ghost predicate Valid()
      reads this, entries
    {
      EntriesFit(entries) && Closed(oracle, entries)
    }

    constructor (oracle: Oracle, ghost entries: set<Entry>)
      ensures this.oracle == oracle && this.entries == entries && log == []
    {
      this.oracle, this.entries, log := oracle, entries, [];
    }

    method Ask(call: Call)
      modifies this`log
      ensures log == old(log) + [call]
    {
      log := log + [call];
    }
  }

  ghost predicate EntriesFit(entries: set<Entry>)
    reads entries`locks
  {
    forall e :: e in entries ==> |e.value| < U32 && e.locks < U16
  }

  ghost predicate Closed(o: Oracle, entries: set<Entry>) {
    forall h: seq<Call> {:trigger o.found(h)} :: o.found(h) != null ==> o.found(h) in entries
  }

  predicate Receiving(s: State) { s.ReceivingHeader? || s.ReceivingArguments? || s.ReceivingBody? }

  predicate Sending(s: State) { s.SendingHeader? || s.SendingBody? }

  /** How far a request has got; a step never goes back. */
  function Phase(s: State): nat {
    match s
    case ReceivingHeader => 4
    case ReceivingArguments => 3
    case AwaitingWriteUnblock => 2
    case ReceivingBody => 2
    case AwaitingReadUnblock => 1
    case SendingHeader => 1
    case SendingBody => 0
  }

  function Arguments(kind: byte): nat {
    if kind == PUT then KEY_VALUE_ARGS else KEY_ARGS
  }

  predicate Keyed(kind: byte) { kind == GET || kind == DELETE || kind == PUT }

  /** Where a connection is in its request: its state, and how many bytes of the present phase
      have been moved and are still to be moved. */
  datatype Position = Position(state: State, index: nat, remaining: nat)

  const START: Position := Position(ReceivingHeader, 0, REQUEST_SIZE)

  function Moved(io: Io): nat {
    if io.Received? then |io.data| else if io.Sent? then io.n else 0
  }

  /** What recv and send can do at a position: move at least one byte and at most the bytes
      remaining, or none. */
  predicate PossibleAt(p: Position, io: Io) {
    match io
    case WouldBlock => Receiving(p.state) || Sending(p.state)
    case Failed => Receiving(p.state) || Sending(p.state)
    case Received(data) => Receiving(p.state) && 1 <= |data| <= p.remaining
    case Sent(n) => Sending(p.state) && 1 <= n <= p.remaining
  }

  /** One step of connection_proc as seen from outside.  Moving part of a phase's bytes is all
      that happens; moving the last of them starts a later phase, ends the request (only after
      sending), or blocks it (only after its sizes or its key). */
  ghost predicate Moves(p: Position, io: Io, r: Result, p': Position) {
    if io.WouldBlock? then r == NoTransfer && p' == p
    else if io.Failed? then r == Disconnect
    else if Moved(io) < p.remaining then
      r == Success && p' == Position(p.state, p.index + Moved(io), p.remaining - Moved(io))
    else
      && r != NoTransfer
      && (r == Success ==> Phase(p'.state) < Phase(p.state) && p'.index == 0)
      && (r == NewRequest ==> p' == START)
      && (r in {NewRequest, Disconnect} ==> Sending(p.state))
      && (r == WriteBlocked ==> p.state == ReceivingArguments)
      && (r == ReadBlocked ==> p.state == ReceivingBody)
  }

  // ----- what the bytes received so far decide -----

  /** A complete request header. */
  lemma HeaderDecides(o: Oracle, start: seq<Call>, h: seq<byte>)
    requires |h| == REQUEST_SIZE
    ensures RequestVersion(h) != VERSION ==>
              OneShot(o, start, h) == Plain(REQUEST_SIZE, UNSUPPORTED_VERSION, start, false)
    ensures RequestVersion(h) == VERSION && RequestType(h) == PING ==>
              OneShot(o, start, h) == Plain(REQUEST_SIZE, PONG, start, WantsMore(h))
    ensures RequestVersion(h) == VERSION && RequestType(h) != PING && !Keyed(RequestType(h)) ==>
              OneShot(o, start, h) == Plain(REQUEST_SIZE, UNKNOWN_REQUEST, start, WantsMore(h))
  {
  }

  /** Header and key size of a GET or DELETE. */
  lemma KeyArgumentsDecide(o: Oracle, start: seq<Call>, h: seq<byte>, args: seq<byte>)
    requires |h| == REQUEST_SIZE && |args| == KEY_ARGS
    requires RequestVersion(h) == VERSION && (RequestType(h) == GET || RequestType(h) == DELETE)
    ensures var log1 := start + [AllocateKey(Decode(args))];
            && (!o.granted(log1) ==>
                  OneShot(o, start, h + args) == Plain(|h + args|, OUT_OF_MEMORY, log1, WantsMore(h)))
            && (o.granted(log1) && Decode(args) == 0 ==> OneShot(o, start, h + args) == Stalled(|h + args|, [], log1))
  {
    hide Decode;
    var all := h + args;
    assert all[..2] == h[..2] && all[4..6] == args && all[2] == h[2] && all[3] == h[3];
  }

  lemma KeyDecides(o: Oracle, start: seq<Call>, h: seq<byte>, args: seq<byte>, key: seq<byte>)
    requires |h| == REQUEST_SIZE && |args| == KEY_ARGS && |key| == Decode(args) && key != []
    requires RequestVersion(h) == VERSION && (RequestType(h) == GET || RequestType(h) == DELETE)
    requires o.granted(start + [AllocateKey(|key|)])
    ensures OneShot(o, start, h + args + key) ==
            ServeKeyed(o, start + [AllocateKey(|key|)], RequestType(h) == DELETE, WantsMore(h), |h + args + key|, key)
  {
    hide Decode, ServeKeyed;
    var all := h + args + key;
    assert all[..2] == h[..2] && all[4..6] == args && all[2] == h[2] && all[3] == h[3];
    assert all[6..6 + |key|] == key;
  }

  /** Header and sizes of a PUT. */
  lemma PutArgumentsDecide(o: Oracle, start: seq<Call>, h: seq<byte>, args: seq<byte>)
    requires |h| == REQUEST_SIZE && |args| == KEY_VALUE_ARGS
    requires RequestVersion(h) == VERSION && RequestType(h) == PUT
    ensures var keySize, valueSize := Decode(args[..2]), Decode(args[2..6]);
            var log1 := start + [Reserve(keySize, valueSize)];
            && (o.reserve(log1) == Full ==>
                  OneShot(o, start, h + args) == Plain(|h + args|, OUT_OF_MEMORY, log1, WantsMore(h)))
            && (o.reserve(log1) == Busy ==> OneShot(o, start, h + args) == Refused(|h + args|, log1))
            && (o.reserve(log1) == Reserved && (keySize + valueSize) % U32 == 0 ==>
                  OneShot(o, start, h + args) == Stalled(|h + args|, [], log1))
  {
    hide Decode;
    var all := h + args;
    assert all[..2] == h[..2] && all[4..6] == args[..2] && all[6..10] == args[2..6] && all[2] == h[2] && all[3] == h[3];
  }

  lemma PayloadDecides(o: Oracle, start: seq<Call>, h: seq<byte>, args: seq<byte>, body: seq<byte>)
    requires |h| == REQUEST_SIZE && |args| == KEY_VALUE_ARGS && body != []
    requires |body| == (Decode(args[..2]) + Decode(args[2..6])) % U32
    requires RequestVersion(h) == VERSION && RequestType(h) == PUT
    requires o.reserve(start + [Reserve(Decode(args[..2]), Decode(args[2..6]))]) == Reserved
    ensures OneShot(o, start, h + args + body) ==
            ServeStored(o, start + [Reserve(Decode(args[..2]), Decode(args[2..6]))], WantsMore(h),
                        |h + args + body|, Decode(args[..2]), body)
  {
    hide Decode, ServeStored;
    var all := h + args + body;
    assert all[..2] == h[..2] && all[4..6] == args[..2] && all[6..10] == args[2..6] && all[2] == h[2] && all[3] == h[3];
    assert all[10..10 + |body|] == body;
  }

  /** While bytes of the request are still missing, nothing is decided. */
  lemma ArgumentsMissing(o: Oracle, start: seq<Call>, h: seq<byte>, args: seq<byte>)
    requires |h| == REQUEST_SIZE && RequestVersion(h) == VERSION && Keyed(RequestType(h))
    requires |args| < Arguments(RequestType(h))
    ensures OneShot(o, start, h + args).Incomplete?
  {
    hide Decode;
    var all := h + args;
    assert all[..2] == h[..2] && all[2] == h[2] && all[3] == h[3];
  }

  lemma KeyMissing(o: Oracle, start: seq<Call>, h: seq<byte>, args: seq<byte>, key: seq<byte>)
    requires |h| == REQUEST_SIZE && |args| == KEY_ARGS && |key| < Decode(args)
    requires RequestVersion(h) == VERSION && (RequestType(h) == GET || RequestType(h) == DELETE)
    requires o.granted(start + [AllocateKey(Decode(args))])
    ensures OneShot(o, start, h + args + key).Incomplete?
  {
    hide Decode, ServeKeyed;
    var all := h + args + key;
    assert all[..2] == h[..2] && all[4..6] == args && all[2] == h[2] && all[3] == h[3];
  }

  lemma PayloadMissing(o: Oracle, start: seq<Call>, h: seq<byte>, args: seq<byte>, body: seq<byte>)
    requires |h| == REQUEST_SIZE && |args| == KEY_VALUE_ARGS
    requires |body| < (Decode(args[..2]) + Decode(args[2..6])) % U32
    requires RequestVersion(h) == VERSION && RequestType(h) == PUT
    requires o.reserve(start + [Reserve(Decode(args[..2]), Decode(args[2..6]))]) == Reserved
    ensures OneShot(o, start, h + args + body).Incomplete?
  {
    hide Decode, ServeStored;
    var all := h + args + body;
    assert all[..2] == h[..2] && all[4..6] == args[..2] && all[6..10] == args[2..6] && all[2] == h[2] && all[3] == h[3];
  }

  /** Memory of a given size and arbitrary content. */
  method AnyMemory(size: nat) returns (m: seq<byte>)
    ensures |m| == size
  {
    m := *;
    if |m| != size {
      m := seq(size, _ => 0);
    }
  }

  class Connection {
    var previous: Connection?
    var next: Connection?
    var buffer: Target
    var remainingBytes: nat
    var bufferIndex: nat
    var state: State
    var header: seq<byte>      // request and response header share these bytes
    var arguments: seq<byte>
    var payload: seq<byte>     // the key header's key, or the reserved entry's key and value
    var entry: Entry?          // the entry being read
    var lockReleaseEvent: LockEvent
    var keepAlive: bool
    var allocatedBuffer: bool
    var lockAcquired: bool

    const cache: Backend            // the cache as this connection meets it

    ghost var received: seq<byte>   // input of this request so far
    ghost var sent: seq<byte>       // output of this request so far
    ghost var start: seq<Call>      // history when the request began

    /** Whether this connection holds a reader lock on e. */
    ghost predicate Holds(e: Entry)
      reads this`lockAcquired, this`entry
    {
      lockAcquired && entry == e
    }

    // Neither Holds nor Well looks at the list links.
    ghost predicate Well()
      reads this`header, this`arguments, this`payload, this`lockAcquired, this`entry, this`state
      reads this`buffer, this`bufferIndex, this`remainingBytes
    {
      && |header| == VALUE_RESPONSE && |arguments| == KEY_VALUE_ARGS && |payload| < U32
      && (lockAcquired ==> entry != null)
      && match state
         case ReceivingHeader =>
           buffer == HeaderBuffer && bufferIndex + remainingBytes == REQUEST_SIZE && !lockAcquired
         case ReceivingArguments =>
           && buffer == ArgumentsBuffer && !lockAcquired
           && Keyed(header[3]) && bufferIndex + remainingBytes == Arguments(header[3])
         case ReceivingBody =>
           && buffer == PayloadBuffer && !lockAcquired
           && Keyed(header[3]) && bufferIndex + remainingBytes == |payload|
         case SendingHeader =>
           && buffer == HeaderBuffer
           && (lockAcquired <==> header[0] == VALUE)
           && (header[0] in {OK, VALUE, PONG, NOT_FOUND} || Fatal(header[0]))
           && bufferIndex + remainingBytes == (if header[0] == VALUE then VALUE_RESPONSE else RESPONSE_SIZE)
         case SendingBody =>
           && buffer == ValueBuffer && lockAcquired && header[0] == VALUE
           && bufferIndex + remainingBytes == |entry.value|
         case _ => !lockAcquired
    }

    /** init_request. */
    method InitRequest(ghost b: Backend)
      modifies this`buffer, this`remainingBytes, this`bufferIndex, this`state, this`entry, this`keepAlive
      modifies this`allocatedBuffer, this`lockAcquired, this`lockReleaseEvent
      modifies this`received, this`sent, this`start
      ensures state == ReceivingHeader && bufferIndex == 0 && remainingBytes == REQUEST_SIZE && buffer == HeaderBuffer
      ensures entry == null && !keepAlive && !allocatedBuffer && !lockAcquired && lockReleaseEvent == NoEvent
      ensures received == [] && sent == [] && start == b.log
    {
      buffer, remainingBytes, bufferIndex, state := HeaderBuffer, REQUEST_SIZE, 0, ReceivingHeader;
      entry, keepAlive, allocatedBuffer, lockAcquired := null, false, false, false;
      lockReleaseEvent := NoEvent;
      received, sent, start := [], [], b.log;
    }

    /** connection_init, once the socket has been made non-blocking.  The header and argument
        bytes are whatever malloc returned. */
    constructor (b: Backend, header: seq<byte>, arguments: seq<byte>)
      requires |header| == VALUE_RESPONSE && |arguments| == KEY_VALUE_ARGS
      ensures cache == b && Well() && Tracks(b.oracle, b.log) && received == [] && sent == [] && start == b.log
      ensures previous == null && next == null && !lockAcquired && state == ReceivingHeader
    {
      cache, previous, next := b, null, null;
      this.header, this.arguments, payload := header, arguments, [];
      buffer, remainingBytes, bufferIndex, state := HeaderBuffer, REQUEST_SIZE, 0, ReceivingHeader;
      entry, keepAlive, allocatedBuffer, lockAcquired := null, false, false, false;
      lockReleaseEvent := NoEvent;
      received, sent, start := [], [], b.log;
    }

    /** The response this connection is sending, as far as it is decided. */
    ghost function Response(): seq<byte>
      reads this`header
      requires |header| == VALUE_RESPONSE
    {
      if header[0] == VALUE then header else [header[0]]
    }

    /** This connection is exactly as far into its request as the bytes moved so far say, for the
        answers its own calls were given. */
    ghost predicate Tracks(o: Oracle, log: seq<Call>)
      reads this`header, this`arguments, this`payload, this`state, this`bufferIndex, this`entry, this`keepAlive
      reads this`received, this`sent, this`start
    {
      && |header| == VALUE_RESPONSE && |arguments| == KEY_VALUE_ARGS
      && match state
         case ReceivingHeader =>
           && bufferIndex <= REQUEST_SIZE && received == header[..bufferIndex]
           && sent == [] && log == start && !keepAlive
         case ReceivingArguments =>
           && bufferIndex <= KEY_VALUE_ARGS && received == header[..REQUEST_SIZE] + arguments[..bufferIndex]
           && sent == [] && log == start
           && RequestVersion(header) == VERSION && keepAlive == WantsMore(header)
         case ReceivingBody =>
           && sent == [] && bufferIndex <= |payload|
           && RequestVersion(header) == VERSION && keepAlive == WantsMore(header)
           && received == header[..REQUEST_SIZE] + arguments[..Arguments(header[3])] + payload[..bufferIndex]
           && PayloadExpected(o, start, log, header[3], arguments, |payload|)
         case SendingHeader =>
           && bufferIndex <= |Response()| && sent == Response()[..bufferIndex]
           && (header[0] == VALUE ==> entry != null)
           && OneShot(o, start, received) ==
              (if header[0] == VALUE then Answer(|received|, entry.value, log, keepAlive)
               else Plain(|received|, header[0], log, keepAlive))
           && (header[0] == VALUE ==> header == ValueResponse(entry.value))
         case SendingBody =>
           && entry != null && bufferIndex <= |entry.value|
           && header == ValueResponse(entry.value)
           && sent == header + entry.value[..bufferIndex]
           && OneShot(o, start, received) == Answer(|received|, entry.value, log, keepAlive)
         case AwaitingWriteUnblock => OneShot(o, start, received) == Refused(|received|, log)
         case AwaitingReadUnblock =>
           && entry != null && entry == o.found(log)
           && OneShot(o, start, received) == Answer(|received|, entry.value, log, keepAlive)
    }

    /** The sizes of a PUT are there, and the ring refuses to write. */
    ghost predicate WriteRefused(b: Backend)
      reads this`state, this`header, this`arguments, b`log
      requires |header| == VALUE_RESPONSE && |arguments| == KEY_VALUE_ARGS
    {
      && state == ReceivingArguments && header[3] == PUT
      && b.oracle.reserve(b.log + [Reserve(Decode(arguments[..2]), Decode(arguments[2..6]))]) == Busy
    }

    /** The key of a GET is there, and leads to an entry whose readers are full. */
    ghost predicate ReadRefused(b: Backend)
      reads this`state, this`header, this`payload, b`log, b.entries`locks
      requires |header| == VALUE_RESPONSE
    {
      && state == ReceivingBody && header[3] == GET
      && var found := b.oracle.found(b.log + [Call.Lookup(payload)]);
         found != null && found in b.entries && found.locks == LOCK_CAPACITY
    }

    /** Exactly when a step ends blocked on a write: it receives the last of a PUT's sizes, and
        the ring refuses to write. */
    ghost predicate WriteBlocks(io: Io, b: Backend)
      reads this`state, this`header, this`arguments, this`bufferIndex, this`remainingBytes, b`log
    {
      && |header| == VALUE_RESPONSE && |arguments| == KEY_VALUE_ARGS && state == ReceivingArguments && header[3] == PUT
      && io.Received? && |io.data| == remainingBytes && bufferIndex + remainingBytes == KEY_VALUE_ARGS
      && var whole := Splice(arguments, bufferIndex, io.data);
         b.oracle.reserve(b.log + [Reserve(Decode(whole[..2]), Decode(whole[2..6]))]) == Busy
    }

    /** Exactly when a step ends blocked on a read: it receives the last of a GET's key, and the
        key leads to an entry that has all the readers it can. */
    ghost predicate ReadBlocks(io: Io, b: Backend)
      reads this`state, this`header, this`payload, this`bufferIndex, this`remainingBytes, b`log, b.entries`locks
    {
      && |header| == VALUE_RESPONSE && state == ReceivingBody && header[3] == GET
      && io.Received? && |io.data| == remainingBytes && bufferIndex + remainingBytes == |payload|
      && var found := b.oracle.found(b.log + [Call.Lookup(Splice(payload, bufferIndex, io.data))]);
         found != null && found in b.entries && found.locks == LOCK_CAPACITY
    }

    /** send_header. */
    method SendHeader(code: byte)
      requires |header| == VALUE_RESPONSE
      modifies this`header, this`buffer, this`remainingBytes, this`bufferIndex, this`state
      ensures header == old(header)[0 := code] && buffer == HeaderBuffer && remainingBytes == RESPONSE_SIZE
      ensures bufferIndex == 0 && state == SendingHeader
    {
      header := header[0 := code];
      buffer, remainingBytes, bufferIndex, state := HeaderBuffer, RESPONSE_SIZE, 0, SendingHeader;
    }

    /** event_received_header. */
    method EventReceivedHeader(ghost o: Oracle, ghost log: seq<Call>)
      requires Well() && state == ReceivingHeader && remainingBytes == 0
      modifies this`header, this`buffer, this`remainingBytes, this`bufferIndex, this`state, this`keepAlive
      ensures Well() && state in {SendingHeader, ReceivingArguments} && bufferIndex == 0
      ensures old(Tracks(o, log)) ==> Tracks(o, log)
    {
      ghost var h := header[..REQUEST_SIZE];
      HeaderDecides(o, start, h);
      assert RequestVersion(header) == RequestVersion(h) by { assert header[..2] == h[..2]; }
      hide RequestVersion, OneShot;
      if RequestVersion(header) != VERSION {
        SendHeader(UNSUPPORTED_VERSION);
        return;
      }
      if WantsMore(header) {
        keepAlive := true;
      }
      var kind := header[3];
      if kind == PING {
        SendHeader(PONG);
      } else if kind == GET || kind == DELETE {
        buffer, remainingBytes, bufferIndex, state := ArgumentsBuffer, KEY_ARGS, 0, ReceivingArguments;
      } else if kind == PUT {
        buffer, remainingBytes, bufferIndex, state := ArgumentsBuffer, KEY_VALUE_ARGS, 0, ReceivingArguments;
      } else {
        SendHeader(UNKNOWN_REQUEST);
      }
    }

    /** The GET and DELETE case of event_received_arguments: allocate a key header.  The new
        memory holds arbitrary bytes. */
    method AllocateKeyHeader(b: Backend)
      requires |header| == VALUE_RESPONSE && |arguments| == KEY_VALUE_ARGS
      modifies this`header, this`buffer, this`remainingBytes, this`bufferIndex, this`state
      modifies this`allocatedBuffer, this`payload, b`log
      ensures var size := Decode(arguments[..2]);
              && b.log == old(b.log) + [AllocateKey(size)] && bufferIndex == 0
              && (!b.oracle.granted(b.log) ==>
                    state == SendingHeader && header == old(header)[0 := OUT_OF_MEMORY] && buffer == HeaderBuffer
                    && remainingBytes == RESPONSE_SIZE && payload == old(payload))
              && (b.oracle.granted(b.log) ==>
                    state == ReceivingBody && header == old(header) && buffer == PayloadBuffer
                    && remainingBytes == |payload| == size)
    {
      var size := Decode(arguments[..2]);
      b.Ask(AllocateKey(size));
      if !b.oracle.granted(b.log) {
        SendHeader(OUT_OF_MEMORY);
        return;
      }
      allocatedBuffer := true;
      payload := AnyMemory(size);
      buffer, remainingBytes, bufferIndex, state := PayloadBuffer, size, 0, ReceivingBody;
    }

    /** event_received_arguments for GET and DELETE. */
    method ReceivedKeyArguments(b: Backend)
      requires Well() && state == ReceivingArguments && remainingBytes == 0 && header[3] != PUT
      modifies this`header, this`buffer, this`remainingBytes, this`bufferIndex, this`state
      modifies this`allocatedBuffer, this`payload, b`log
      ensures Well() && state in {SendingHeader, ReceivingBody} && bufferIndex == 0
      ensures old(Tracks(b.oracle, b.log)) ==> Tracks(b.oracle, b.log)
    {
      ghost var h, args := header[..REQUEST_SIZE], arguments[..KEY_ARGS];
      assert header[..2] == h[..2] && arguments[..2] == args;
      if RequestVersion(h) == VERSION {
        KeyArgumentsDecide(b.oracle, b.log, h, args);
      }
      hide RequestVersion, OneShot, Decode;
      SizeFits(arguments[..2]);
      AllocateKeyHeader(b);
    }

    /** attempt_memory_read: answer with the entry found, taking a reader lock on it. */
    method AttemptMemoryRead(b: Backend) returns (result: Result)
      requires |header| == VALUE_RESPONSE && !lockAcquired && b.Valid() && (entry != null ==> entry in b.entries)
      modifies this`header, this`buffer, this`remainingBytes, this`bufferIndex, this`state
      modifies this`lockAcquired, b.entries`locks
      ensures b.Valid() && |header| == VALUE_RESPONSE
      ensures result == if entry != null && old(entry.locks) == LOCK_CAPACITY then ReadBlocked else Success
      ensures result == ReadBlocked ==> state == AwaitingReadUnblock && !lockAcquired
      ensures result == Success ==>
                && state == SendingHeader && buffer == HeaderBuffer && bufferIndex == 0
                   && (lockAcquired <==> entry != null)
                && header[0] == (if entry == null then NOT_FOUND else VALUE)
                && remainingBytes == if entry == null then RESPONSE_SIZE else VALUE_RESPONSE
      ensures lockAcquired ==> header == ValueResponse(entry.value)
      ensures forall e :: e in b.entries ==> e.locks == old(e.locks) + (if Holds(e) then 1 else 0)
    {
      if entry == null {
        SendHeader(NOT_FOUND);
        return Success;
      }
      var (locks, event) := Acquire(entry.locks);
      if event == Blocked {
        state := AwaitingReadUnblock;
        return ReadBlocked;
      }
      entry.locks := locks;
      lockAcquired := true;
      SendHeader(VALUE);
      header := header[..1] + Encode(|entry.value|, 4);
      remainingBytes := VALUE_RESPONSE;
      return Success;
    }

    /** attempt_memory_write: reserve an entry of the ring for the key and value to come. */
    method AttemptMemoryWrite(b: Backend) returns (result: Result)
      requires |header| == VALUE_RESPONSE && |arguments| == KEY_VALUE_ARGS
      modifies this`header, this`buffer, this`remainingBytes, this`bufferIndex, this`state, this`payload, b`log
      ensures var keySize, valueSize := Decode(arguments[..2]), Decode(arguments[2..6]);
              && b.log == old(b.log) + [Reserve(keySize, valueSize)]
              && result == (if b.oracle.reserve(b.log) == Busy then WriteBlocked else Success)
              && (result == WriteBlocked ==>
                        state == AwaitingWriteUnblock && header == old(header) && payload == old(payload))
              && (b.oracle.reserve(b.log) == Full ==>
                    state == SendingHeader && header == old(header)[0 := OUT_OF_MEMORY] && buffer == HeaderBuffer
                    && remainingBytes == RESPONSE_SIZE && bufferIndex == 0 && payload == old(payload))
              && (b.oracle.reserve(b.log) == Reserved ==>
                    state == ReceivingBody && header == old(header) && buffer == PayloadBuffer && bufferIndex == 0
                    && remainingBytes == |payload| == (keySize + valueSize) % U32)
    {
      var keySize, valueSize := Decode(arguments[..2]), Decode(arguments[2..6]);
      b.Ask(Reserve(keySize, valueSize));
      match b.oracle.reserve(b.log) {
        case Full =>
          SendHeader(OUT_OF_MEMORY);
          return Success;
        case Busy =>
          state := AwaitingWriteUnblock;
          return WriteBlocked;
        case Reserved =>
          payload := AnyMemory((keySize + valueSize) % U32);
          remainingBytes, bufferIndex := (keySize + valueSize) % U32, 0;
          buffer, state := PayloadBuffer, ReceivingBody;
          return Success;
      }
    }

    /** event_received_arguments for PUT. */
    method ReceivedPutArguments(b: Backend) returns (result: Result)
      requires Well() && state == ReceivingArguments && remainingBytes == 0 && header[3] == PUT
      modifies this`header, this`buffer, this`remainingBytes, this`bufferIndex, this`state, this`payload, b`log
      ensures result in {Success, WriteBlocked} && Well()
               && state in {SendingHeader, ReceivingBody, AwaitingWriteUnblock}
      ensures state == AwaitingWriteUnblock <==> result == WriteBlocked
      ensures result == WriteBlocked <==> old(WriteRefused(b))
      ensures result == Success ==> bufferIndex == 0
      ensures old(Tracks(b.oracle, b.log)) ==> Tracks(b.oracle, b.log)
    {
      ghost var h, args := header[..REQUEST_SIZE], arguments[..KEY_VALUE_ARGS];
      assert header[..2] == h[..2] && arguments == args;
      if RequestVersion(h) == VERSION {
        PutArgumentsDecide(b.oracle, b.log, h, args);
      }
      hide RequestVersion, OneShot, Decode;
      result := AttemptMemoryWrite(b);
    }

    /** event_received_body for GET: look the key up and answer with what is there. */
    method ReceivedGetKey(b: Backend) returns (result: Result)
      requires Well() && state == ReceivingBody && remainingBytes == 0 && bufferIndex > 0 && header[3] == GET
               && b.Valid()
      modifies this`header, this`buffer, this`remainingBytes, this`bufferIndex, this`state, this`lockAcquired
      modifies this`allocatedBuffer, this`entry, b`log, b.entries`locks
      ensures b.Valid() && Well() && result in {Success, ReadBlocked} && state in {SendingHeader, AwaitingReadUnblock}
      ensures state == AwaitingReadUnblock <==> result == ReadBlocked
      ensures result == ReadBlocked <==> old(ReadRefused(b))
      ensures result == Success ==> bufferIndex == 0
      ensures result == ReadBlocked ==> entry != null && entry in b.entries && entry.locks == LOCK_CAPACITY
      ensures lockAcquired ==> entry in b.entries
      ensures old(Tracks(b.oracle, b.log)) ==> Tracks(b.oracle, b.log)
      ensures forall e :: e in b.entries ==> e.locks == old(e.locks) + (if Holds(e) then 1 else 0)
    {
      KeyArrived(b.oracle, b.log);
      hide OneShot, RequestVersion;
      b.Ask(Call.Lookup(payload));
      allocatedBuffer := false;
      entry := b.oracle.found(b.log);
      result := AttemptMemoryRead(b);
    }

    /** event_received_body for DELETE. */
    method ReceivedDeleteKey(b: Backend)
      requires Well() && state == ReceivingBody && remainingBytes == 0 && bufferIndex > 0 && header[3] == DELETE
      modifies this`header, this`buffer, this`remainingBytes, this`bufferIndex, this`state, b`log
      ensures Well() && state == SendingHeader && bufferIndex == 0
      ensures old(Tracks(b.oracle, b.log)) ==> Tracks(b.oracle, b.log)
    {
      KeyArrived(b.oracle, b.log);
      hide OneShot, RequestVersion;
      b.Ask(Call.Erase(payload));
      SendHeader(OK);
    }

    /** event_received_body for PUT: publish the entry; the lookup that follows has no effect. */
    method ReceivedPutPayload(b: Backend)
      requires Well() && state == ReceivingBody && remainingBytes == 0 && bufferIndex > 0 && header[3] == PUT
      modifies this`header, this`buffer, this`remainingBytes, this`bufferIndex, this`state, b`log
      ensures Well() && state == SendingHeader && bufferIndex == 0
      ensures old(Tracks(b.oracle, b.log)) ==> Tracks(b.oracle, b.log)
    {
      PayloadArrived(b.oracle, b.log);
      hide OneShot, RequestVersion, Decode;
      var keySize := Decode(arguments[..2]);
      b.Ask(Call.Store(keySize, payload));
      var status := b.oracle.granted(b.log);
      b.Ask(Call.Lookup(KeyOfPayload(keySize, payload)));
      if !status {
        SendHeader(OUT_OF_MEMORY);
        return;
      }
      SendHeader(OK);
    }

    lemma KeyArrived(o: Oracle, log: seq<Call>)
      requires Well() && state == ReceivingBody && remainingBytes == 0 && bufferIndex > 0 && header[3] != PUT
      ensures Tracks(o, log) ==>
                OneShot(o, start, received) == ServeKeyed(o, log, header[3] == DELETE, keepAlive, |received|, payload)
    {
      if Tracks(o, log) {
        var h, args := header[..REQUEST_SIZE], arguments[..KEY_ARGS];
        assert header[..2] == h[..2] && arguments[..2] == args && payload[..bufferIndex] == payload;
        KeyDecides(o, start, h, args, payload);
      }
    }

    lemma PayloadArrived(o: Oracle, log: seq<Call>)
      requires Well() && state == ReceivingBody && remainingBytes == 0 && bufferIndex > 0 && header[3] == PUT
      ensures Tracks(o, log) ==>
                OneShot(o, start, received) ==
                  ServeStored(o, log, keepAlive, |received|, Decode(arguments[..2]), payload)
    {
      if Tracks(o, log) {
        var h := header[..REQUEST_SIZE];
        assert header[..2] == h[..2] && arguments[..KEY_VALUE_ARGS] == arguments && payload[..bufferIndex] == payload;
        PayloadDecides(o, start, h, arguments, payload);
      }
    }

    /** The bytes the next send may take from. */
    function Outgoing(): seq<byte>
      reads this
      requires Well() && Sending(state)
    {
      if state == SendingHeader then (if header[0] == VALUE then header else [header[0]]) else entry.value
    }

    function Where(): Position
      reads this`state, this`bufferIndex, this`remainingBytes
    {
      Position(state, bufferIndex, remainingBytes)
    }

    predicate Possible(io: Io)
      reads this`state, this`bufferIndex, this`remainingBytes
    {
      PossibleAt(Where(), io)
    }

    /** connection_transfer; `output` is what send took. */
    method Transfer(io: Io, b: Backend) returns (result: Result, output: seq<byte>)
      requires Well() && Possible(io) && b.Valid() && (lockAcquired ==> entry in b.entries && 0 < entry.locks)
      modifies this`header, this`arguments, this`payload, this`remainingBytes, this`bufferIndex, this`lockReleaseEvent
      modifies this`received, this`sent, b.entries`locks
      ensures b.Valid() && result in {Success, NoTransfer, Disconnect}
      ensures result == Success <==> io.Received? || io.Sent?
      ensures result == Disconnect <==> io.Failed?
      ensures received == old(received) + (if io.Received? then io.data else []) && sent == old(sent) + output
      ensures |output| == if io.Sent? then io.n else 0
      ensures result == Disconnect ==>
                lockReleaseEvent == if lockAcquired then Release(old(entry.locks)).1 else old(lockReleaseEvent)
      ensures result != Disconnect ==>
                && Well()
                && bufferIndex == old(bufferIndex) + Moved(io) && remainingBytes == old(remainingBytes) - Moved(io)
      ensures b.log == old(b.log) && (result != Disconnect && old(Tracks(b.oracle, b.log)) ==> Tracks(b.oracle, b.log))
      ensures result == Success && remainingBytes == 0 ==>
                (WriteRefused(b) <==> old(WriteBlocks(io, b))) && (ReadRefused(b) <==> old(ReadBlocks(io, b)))
      ensures result != Success || remainingBytes != 0 ==> !old(WriteBlocks(io, b)) && !old(ReadBlocks(io, b))
      ensures forall e :: e in b.entries ==> e.locks == old(e.locks) - (if result == Disconnect
               && Holds(e) then 1 else 0)
    {
      hide OneShot, PayloadExpected, RequestVersion, Tracks, Decode;
      output := [];
      match io {
        case WouldBlock =>
          return NoTransfer, output;
        case Failed =>
          if lockAcquired {
            var (locks, event) := Release(entry.locks);
            entry.locks := locks;
            lockReleaseEvent := event;
          }
          return Disconnect, output;
        case Received(data) =>
          Receive(data, b.oracle, b.log);
          return Success, output;
        case Sent(n) =>
          output := Send(n, b.oracle, b.log);
          return Success, output;
      }
    }

    /** recv has put `data` at the buffer index. */
    method Receive(data: seq<byte>, ghost o: Oracle, ghost log: seq<Call>)
      requires Well() && Receiving(state) && 1 <= |data| <= remainingBytes
      modifies this`header, this`arguments, this`payload, this`remainingBytes, this`bufferIndex, this`received
      ensures Well() && (old(Tracks(o, log)) ==> Tracks(o, log))
      ensures received == old(received) + data
      ensures bufferIndex == old(bufferIndex) + |data| && remainingBytes == old(remainingBytes) - |data|
      ensures state != ReceivingHeader ==> header == old(header)
      ensures arguments == if state == ReceivingArguments then
                             old(Splice(arguments, bufferIndex, data)) else old(arguments)
      ensures payload == if state == ReceivingBody then old(Splice(payload, bufferIndex, data)) else old(payload)
    {
      hide OneShot, RequestVersion, PayloadExpected;
      if state == ReceivingHeader {
        SplicePrefix(header, bufferIndex, data);
        header := Splice(header, bufferIndex, data);
      } else if state == ReceivingArguments {
        SplicePrefix(arguments, bufferIndex, data);
        arguments := Splice(arguments, bufferIndex, data);
      } else {
        SplicePrefix(payload, bufferIndex, data);
        payload := Splice(payload, bufferIndex, data);
      }
      received := received + data;
      remainingBytes, bufferIndex := remainingBytes - |data|, bufferIndex + |data|;
    }

    /** send has taken n bytes from the buffer index on. */
    method Send(n: nat, ghost o: Oracle, ghost log: seq<Call>) returns (output: seq<byte>)
      requires Well() && Sending(state) && 1 <= n <= remainingBytes
      modifies this`remainingBytes, this`bufferIndex, this`sent
      ensures Well() && (old(Tracks(o, log)) ==> Tracks(o, log))
      ensures output == old(Outgoing()[bufferIndex..bufferIndex + n]) && sent == old(sent) + output
      ensures bufferIndex == old(bufferIndex) + n && remainingBytes == old(remainingBytes) - n
    {
      hide OneShot, RequestVersion, PayloadExpected;
      output := Outgoing()[bufferIndex..bufferIndex + n];
      assert Outgoing()[..bufferIndex] + output == Outgoing()[..bufferIndex + n];
      sent := sent + output;
      remainingBytes, bufferIndex := remainingBytes - n, bufferIndex + n;
    }

    /** What a completed request must amount to: the one-shot outcome for exactly the bytes
        received, with exactly the bytes sent. */
    ghost predicate Completed(o: Oracle, begun: seq<Call>, rec: seq<byte>, snt: seq<byte>, log: seq<Call>,
        again: bool) {
      OneShot(o, begun, rec) == Served(|rec|, snt, log, again)
    }

    /** finish_request. */
    method FinishRequest(ghost b: Backend) returns (result: Result)
      requires |header| == VALUE_RESPONSE && |arguments| == KEY_VALUE_ARGS && |payload| < U32 && !lockAcquired
      modifies this`buffer, this`remainingBytes, this`bufferIndex, this`state, this`entry, this`keepAlive
      modifies this`allocatedBuffer, this`lockAcquired, this`lockReleaseEvent
      modifies this`received, this`sent, this`start
      ensures result == if old(keepAlive) then NewRequest else Disconnect
      ensures result == NewRequest ==>
                Well() && Tracks(b.oracle, b.log) && received == [] && sent == [] && start == b.log
      ensures result == NewRequest ==> Where() == START && lockReleaseEvent == NoEvent
      ensures result == Disconnect ==> lockReleaseEvent == old(lockReleaseEvent)
      ensures !lockAcquired
    {
      hide OneShot, PayloadExpected;
      if keepAlive {
        InitRequest(b);
        return NewRequest;
      }
      return Disconnect;
    }

    /** event_sent_header. */
    method EventSentHeader(ghost b: Backend) returns (result: Result)
      requires Well() && state == SendingHeader && remainingBytes == 0
      modifies this`buffer, this`remainingBytes, this`bufferIndex, this`state, this`entry, this`keepAlive
      modifies this`allocatedBuffer, this`lockAcquired, this`lockReleaseEvent
      modifies this`received, this`sent, this`start
      ensures result in {Success, NewRequest, Disconnect}
      ensures result == Success <==> header[0] == VALUE
      ensures result == Success ==>
                && Well() && state == SendingBody && bufferIndex == 0 && lockAcquired && entry == old(entry)
                && received == old(received) && sent == old(sent) && start == old(start)
                && (old(Tracks(b.oracle, b.log)) ==> Tracks(b.oracle, b.log))
      ensures result != Success ==> !lockAcquired && !old(lockAcquired)
      ensures result == NewRequest ==>
                && Well() && Tracks(b.oracle, b.log) && Where() == START
                && received == [] && sent == [] && start == b.log
      ensures result != Success && old(Tracks(b.oracle, b.log)) ==>
                Completed(b.oracle, old(start), old(received), old(sent), b.log, result == NewRequest)
    {
      hide OneShot, PayloadExpected, RequestVersion;
      if Fatal(header[0]) {
        keepAlive := false;
      }
      if header[0] == VALUE {
        buffer, remainingBytes, bufferIndex, state := ValueBuffer, |entry.value|, 0, SendingBody;
        return Success;
      }
      assert old(Tracks(b.oracle, b.log)) ==> sent == [header[0]];
      result := FinishRequest(b);
    }

    /** event_sent_body: the reader lock is given back.  With keep-alive the event recorded
        here is overwritten by init_request. */
    method EventSentBody(b: Backend) returns (result: Result)
      requires Well() && state == SendingBody && remainingBytes == 0 && bufferIndex > 0
      requires b.Valid() && entry in b.entries && 0 < entry.locks
      modifies this`buffer, this`remainingBytes, this`bufferIndex, this`state, this`entry, this`keepAlive
      modifies this`allocatedBuffer, this`lockAcquired, this`lockReleaseEvent
      modifies this`received, this`sent, this`start, b.entries`locks
      ensures b.Valid() && !lockAcquired
      ensures result == if old(keepAlive) then NewRequest else Disconnect
      ensures result == NewRequest ==>
                && Well() && Tracks(b.oracle, b.log) && Where() == START
                && received == [] && sent == [] && start == b.log
      ensures old(Tracks(b.oracle, b.log)) ==>
                Completed(b.oracle, old(start), old(received), old(sent), b.log, result == NewRequest)
      ensures forall e :: e in b.entries ==> e.locks == old(e.locks) - old(if Holds(e) then 1 else 0)
      ensures lockReleaseEvent == if old(keepAlive) then NoEvent else Release(old(entry.locks)).1
    {
      hide OneShot, PayloadExpected, RequestVersion;
      var (locks, event) := Release(entry.locks);
      entry.locks := locks;
      lockReleaseEvent := event;
      lockAcquired := false;
      assert entry.value[..bufferIndex] == entry.value;
      result := FinishRequest(b);
    }

    /** event_received_body. */
    method ReceivedBody(b: Backend) returns (result: Result)
      requires Well() && state == ReceivingBody && remainingBytes == 0 && bufferIndex > 0 && b.Valid()
      modifies this`header, this`buffer, this`remainingBytes, this`bufferIndex, this`state, this`lockAcquired
      modifies this`allocatedBuffer, this`entry, b`log, b.entries`locks
      ensures b.Valid() && Well() && result in {Success, ReadBlocked} && state in {SendingHeader, AwaitingReadUnblock}
      ensures state == AwaitingReadUnblock <==> result == ReadBlocked
      ensures result == ReadBlocked <==> old(ReadRefused(b))
      ensures result == Success ==> bufferIndex == 0
      ensures result == ReadBlocked ==> entry != null && entry in b.entries && entry.locks == LOCK_CAPACITY
      ensures lockAcquired ==> entry in b.entries
      ensures old(Tracks(b.oracle, b.log)) ==> Tracks(b.oracle, b.log)
      ensures forall e :: e in b.entries ==> e.locks == old(e.locks) + (if Holds(e) then 1 else 0)
    {
      hide OneShot, PayloadExpected, RequestVersion, Tracks;
      if header[3] == GET {
        result := ReceivedGetKey(b);
      } else if header[3] == DELETE {
        ReceivedDeleteKey(b);
        result := Success;
      } else {
        ReceivedPutPayload(b);
        result := Success;
      }
    }

    /** event_received_arguments. */
    method ReceivedArguments(b: Backend) returns (result: Result)
      requires Well() && state == ReceivingArguments && remainingBytes == 0
      modifies this`header, this`buffer, this`remainingBytes, this`bufferIndex, this`state, this`allocatedBuffer
      modifies this`payload, b`log
      ensures result in {Success, WriteBlocked} && Well()
      ensures state in {SendingHeader, ReceivingBody, AwaitingWriteUnblock}
      ensures state == AwaitingWriteUnblock <==> result == WriteBlocked
      ensures result == WriteBlocked <==> old(WriteRefused(b))
      ensures result == Success ==> bufferIndex == 0
      ensures old(Tracks(b.oracle, b.log)) ==> Tracks(b.oracle, b.log)
    {
      hide OneShot, PayloadExpected, RequestVersion, Tracks, Decode;
      if header[3] == PUT {
        result := ReceivedPutArguments(b);
      } else {
        ReceivedKeyArguments(b);
        result := Success;
      }
    }

    /** The handlers for received phases. */
    method EventReceived(b: Backend) returns (result: Result)
      requires Well() && remainingBytes == 0 && bufferIndex > 0 && Receiving(state) && b.Valid()
      modifies this`header, this`buffer, this`remainingBytes, this`bufferIndex, this`state, this`lockAcquired
      modifies this`allocatedBuffer, this`entry, this`keepAlive, this`payload, b`log, b.entries`locks
      ensures b.Valid() == true && Well() == true && result in {Success, ReadBlocked, WriteBlocked}
      ensures lockAcquired ==> entry in b.entries
      ensures result == Success ==>
                (Receiving(state) || Sending(state)) && Phase(state) < old(Phase(state)) && bufferIndex == 0
      ensures result == WriteBlocked <==> old(WriteRefused(b))
      ensures result == ReadBlocked <==> old(ReadRefused(b))
      ensures result == ReadBlocked ==>
                && !lockAcquired && state == AwaitingReadUnblock
                && entry != null && entry in b.entries && entry.locks == LOCK_CAPACITY
      ensures result == WriteBlocked ==> !lockAcquired && state == AwaitingWriteUnblock
      ensures old(Tracks(b.oracle, b.log)) ==> Tracks(b.oracle, b.log) == true
      ensures forall e :: e in b.entries ==> e.locks == old(e.locks) + (if Holds(e) then 1 else 0)
    {
      hide OneShot, PayloadExpected, RequestVersion, Tracks, Decode;
      match state {
        case ReceivingHeader =>
          EventReceivedHeader(b.oracle, b.log);
          result := Success;
        case ReceivingArguments =>
          result := ReceivedArguments(b);
        case ReceivingBody =>
          result := ReceivedBody(b);
      }
    }

    /** The handlers for sent phases. */
    method EventSent(b: Backend) returns (result: Result)
      requires Well() && remainingBytes == 0 && bufferIndex > 0 && Sending(state)
      requires b.Valid() && (lockAcquired ==> entry in b.entries && 0 < entry.locks)
      modifies this`buffer, this`remainingBytes, this`bufferIndex, this`state, this`entry, this`keepAlive
      modifies this`allocatedBuffer, this`lockAcquired, this`lockReleaseEvent
      modifies this`received, this`sent, this`start, b.entries`locks
      ensures b.Valid() == true && result in {Success, NewRequest, Disconnect}
      ensures result in {Success, NewRequest} ==> Well() == true && (lockAcquired ==> entry in b.entries)
      ensures result == Success ==>
                && Sending(state) && Phase(state) < old(Phase(state)) && bufferIndex == 0
                && received == old(received) && sent == old(sent) && start == old(start)
                && (old(Tracks(b.oracle, b.log)) ==> Tracks(b.oracle, b.log) == true)
      ensures result == NewRequest ==>
                Where() == START && Tracks(b.oracle, b.log) && received == [] && sent == [] && start == b.log
      ensures result in {NewRequest, Disconnect} && old(Tracks(b.oracle, b.log)) ==>
                Completed(b.oracle, old(start), old(received), old(sent), b.log, result == NewRequest) == true
      ensures forall e :: e in b.entries ==>
                e.locks == old(e.locks) - old(if Holds(e) then 1 else 0)
                           + (if result != Disconnect && Holds(e) then 1 else 0)
    {
      hide OneShot, PayloadExpected, RequestVersion, Tracks, Decode;
      if state == SendingHeader {
        result := EventSentHeader(b);
      } else {
        result := EventSentBody(b);
      }
    }

    /** The event handlers of connection_proc, run when a phase has moved all its bytes. */
    method Dispatch(b: Backend) returns (result: Result)
      requires Well() && remainingBytes == 0 && bufferIndex > 0 && (Receiving(state) || Sending(state))
      requires b.Valid() && (lockAcquired ==> entry in b.entries && 0 < entry.locks)
      modifies this, b`log, b.entries`locks
      ensures b.Valid() == true && previous == old(previous) && next == old(next) && result != NoTransfer
      ensures result in {NewRequest, Disconnect} ==> old(Sending(state))
      ensures result in {Success, NewRequest} ==> Well() == true && (lockAcquired ==> entry in b.entries)
      ensures result == Success ==>
                && (Receiving(state) || Sending(state)) && Phase(state) < old(Phase(state)) && bufferIndex == 0
                && received == old(received) && sent == old(sent) && start == old(start)
                && (old(Tracks(b.oracle, b.log)) ==> Tracks(b.oracle, b.log) == true)
      ensures result == NewRequest ==>
                Where() == START && Tracks(b.oracle, b.log) && received == [] && sent == [] && start == b.log
      ensures result in {NewRequest, Disconnect} && old(Tracks(b.oracle, b.log)) ==>
                Completed(b.oracle, old(start), old(received), old(sent), b.log, result == NewRequest) == true
      ensures result == ReadBlocked ==>
                && !lockAcquired && state == AwaitingReadUnblock
                && entry != null && entry in b.entries && entry.locks == LOCK_CAPACITY
      ensures result == WriteBlocked ==> !lockAcquired && state == AwaitingWriteUnblock
      ensures result == WriteBlocked <==> old(WriteRefused(b))
      ensures result == ReadBlocked <==> old(ReadRefused(b))
      ensures result in {ReadBlocked, WriteBlocked} && old(Tracks(b.oracle, b.log)) ==>
                Tracks(b.oracle, b.log) && received == old(received) && sent == old(sent) && start == old(start)
      ensures forall e :: e in b.entries ==>
                e.locks == old(e.locks) - old(if Holds(e) then 1 else 0)
                           + (if result != Disconnect && Holds(e) then 1 else 0)
    {
      hide OneShot, PayloadExpected, RequestVersion, Tracks, Completed;
      if Receiving(state) {
        result := EventReceived(b);
      } else {
        result := EventSent(b);
      }
    }

    /** connection_proc: one transfer and, when a phase is complete, its event.  `rec` and
        `snt` are the request's input and output including this step. */
    method Proc(io: Io, b: Backend)
        returns (result: Result, output: seq<byte>, ghost rec: seq<byte>, ghost snt: seq<byte>)
      requires Well() && Possible(io) && b.Valid() && (lockAcquired ==> entry in b.entries && 0 < entry.locks)
      modifies this, b`log, b.entries`locks
      ensures b.Valid() && previous == old(previous) && next == old(next)
      ensures Moves(old(Where()), io, result, Where())
      ensures rec == old(received) + (if io.Received? then io.data else []) && snt == old(sent) + output
      ensures |output| == if io.Sent? then io.n else 0
      ensures result in {Success, NoTransfer, NewRequest} ==> Well() && (lockAcquired ==> entry in b.entries)
      // each successful step gets closer to the end of the request
      ensures result == Success ==>
                && (Receiving(state) || Sending(state))
                && (Phase(state) < old(Phase(state))
                    || (Phase(state) == old(Phase(state)) && remainingBytes < old(remainingBytes)
                        && bufferIndex + remainingBytes == old(bufferIndex + remainingBytes)))
      ensures result == Success ==> remainingBytes > 0 || bufferIndex == 0
      // given its own calls' answers, the connection keeps to the one-shot outcome
      ensures result in {Success, NoTransfer} && old(Tracks(b.oracle, b.log)) ==>
                Tracks(b.oracle, b.log) && received == rec && sent == snt && start == old(start)
      ensures result == NewRequest ==>
                Where() == START && Tracks(b.oracle, b.log) && received == [] && sent == [] && start == b.log
      ensures (result == NewRequest || (result == Disconnect && !io.Failed?)) && old(Tracks(b.oracle, b.log)) ==>
                Completed(b.oracle, old(start), rec, snt, b.log, result == NewRequest)
      ensures result in {ReadBlocked, WriteBlocked} && old(Tracks(b.oracle, b.log)) ==>
                Tracks(b.oracle, b.log) && received == rec && sent == snt && start == old(start)
      ensures result == ReadBlocked ==>
                && !lockAcquired && state == AwaitingReadUnblock
                && entry != null && entry in b.entries && entry.locks == LOCK_CAPACITY
      ensures result == WriteBlocked ==> !lockAcquired && state == AwaitingWriteUnblock
      ensures result == WriteBlocked <==> old(WriteBlocks(io, b))
      ensures result == ReadBlocked <==> old(ReadBlocks(io, b))
      // reader locks are taken and given back one for one
      ensures forall e :: e in b.entries ==>
                e.locks == old(e.locks) - old(if Holds(e) then 1 else 0)
                           + (if result != Disconnect && Holds(e) then 1 else 0)
    {
      hide OneShot, PayloadExpected, RequestVersion, Tracks;
      result, output := Transfer(io, b);
      rec, snt := received, sent;
      if result != Success {
        return;
      }
      if remainingBytes != 0 {
        return;
      }
      result := Dispatch(b);
    }

    /** A connection that waits for more input has not seen enough to decide the request. */
    lemma StillIncomplete(o: Oracle, log: seq<Call>)
      requires Well() && Tracks(o, log) && Receiving(state) && remainingBytes > 0
      ensures OneShot(o, start, received).Incomplete?
    {
      var h := header[..REQUEST_SIZE];
      assert header[..2] == h[..2];
      if state == ReceivingArguments {
        ArgumentsMissing(o, start, h, arguments[..bufferIndex]);
      } else if state == ReceivingBody && header[3] == PUT {
        assert arguments[..KEY_VALUE_ARGS] == arguments;
        PayloadMissing(o, start, h, arguments, payload[..bufferIndex]);
      } else if state == ReceivingBody {
        assert arguments[..KEY_ARGS] == arguments[..2];
        KeyMissing(o, start, h, arguments[..KEY_ARGS], payload[..bufferIndex]);
      }
    }

    /** What a connection in the middle of its request has sent is the beginning of the response
        the request has been decided to get. */
    lemma SentSoFar(o: Oracle, log: seq<Call>)
      requires Well() && Tracks(o, log) && (Receiving(state) || Sending(state))
      ensures PartWay(OneShot(o, start, received), sent)
    {
      hide OneShot, ValueResponse;
    }

    /** A connection in the middle of its request waits on a zero-length transfer exactly when its
        request has stalled: received, called and sent all there is to. */
    lemma StallsAtZero(o: Oracle, log: seq<Call>)
      requires Well() && Tracks(o, log) && (remainingBytes > 0 || bufferIndex == 0)
      requires Receiving(state) || Sending(state)
      ensures remainingBytes == 0 <==> OneShot(o, start, received) == Stalled(|received|, sent, log)
    {
      if remainingBytes == 0 {
        WaitsAtZero(o, log);
      } else if Receiving(state) {
        StillIncomplete(o, log);
      } else {
        hide OneShot;
        assert sent != ValueResponse(if entry != null then entry.value else []) || state == SendingBody;
      }
    }

    lemma WaitsAtZero(o: Oracle, log: seq<Call>)
      requires Well() && Tracks(o, log) && remainingBytes == 0 && bufferIndex == 0
      requires Receiving(state) || Sending(state)
      ensures OneShot(o, start, received) == Stalled(|received|, sent, log)
    {
      var h := header[..REQUEST_SIZE];
      assert header[..2] == h[..2];
      if state == ReceivingBody && header[3] == PUT {
        assert arguments[..KEY_VALUE_ARGS] == arguments;
        PutArgumentsDecide(o, start, h, arguments);
        assert received == h + arguments;
      } else if state == ReceivingBody {
        assert arguments[..KEY_ARGS] == arguments[..2];
        KeyArgumentsDecide(o, start, h, arguments[..KEY_ARGS]);
        assert received == h + arguments[..KEY_ARGS];
      }
    }

    /** If all the input there will ever be makes the request a served or a refused one, a
        connection in the middle of it can move: bytes it waits for are there, and bytes it sends
        are part of the response. */
    lemma CanMove(o: Oracle, log: seq<Call>, input: seq<byte>)
      requires Well() && Tracks(o, log) && (remainingBytes > 0 || bufferIndex == 0)
      requires Receiving(state) || Sending(state)
      requires received <= input && (OneShot(o, start, input).Served? || OneShot(o, start, input).Refused?)
      ensures remainingBytes > 0
      ensures var x := OneShot(o, start, input);
              && |received| <= x.consumed && (x.Refused? ==> Receiving(state)) && (x.Served? ==> |sent| <= |x.output|)
              && if Receiving(state) then |received| < x.consumed && |received| < |input| else |sent| < |x.output|
    {
      hide OneShot, Decode, RequestVersion;
      var x := OneShot(o, start, input);
      ConsumedBounds(o, start, input);
      if remainingBytes == 0 {
        StallsAtZero(o, log);
        ConsumedDecides(o, start, received, input);
      }
      if Receiving(state) {
        StillIncomplete(o, log);
        if |received| >= x.consumed {
          assert received[..x.consumed] == input[..x.consumed];
          ConsumedDecides(o, start, input, received);
        }
      } else {
        ConsumedDecides(o, start, received, input);
      }
    }
  }

  lemma SplicePrefix(m: seq<byte>, at: nat, s: seq<byte>)
    requires at + |s| <= |m|
    ensures Splice(m, at, s)[..at + |s|] == m[..at] + s
  {
  }

  lemma SizeFits(s: seq<byte>)
    requires |s| == 2
    ensures Decode(s) < U16
  {
    Widths();
    EncodeDecode(s);
  }

  /** The memory for `size` payload bytes was asked for and granted. */
  ghost predicate PayloadExpected(o: Oracle, start: seq<Call>, log: seq<Call>, kind: byte, arguments: seq<byte>,
      size: nat)
    requires |arguments| == KEY_VALUE_ARGS
  {
    if kind == PUT then
      var keySize, valueSize := Decode(arguments[..2]), Decode(arguments[2..6]);
      && size == (keySize + valueSize) % U32
      && log == start + [Reserve(keySize, valueSize)] && o.reserve(log) == Reserved
    else
      && size == Decode(arguments[..2])
      && log == start + [AllocateKey(size)] && o.granted(log)
  }
}
