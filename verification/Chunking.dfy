/** Driving one connection with every possible splitting of its socket traffic. */
module Chunking {
  import opened Bytes
  import opened EntryHeader
  import opened Protocol
  import opened Connection

  /** What the socket does at one poll: nothing, break, or move up to `limit` bytes. */
  datatype Poll = Pause | Break | Move(limit: nat)

  function Moves(schedule: seq<Poll>): nat {
    if schedule == [] then 0 else Moves(schedule[..|schedule| - 1]) + (if schedule[|schedule| - 1].Move? then 1 else 0)
  }

  /** The number of polls that move bytes. */
  lemma {:induction false} MovesCounts(schedule: seq<Poll>)
    ensures Moves(schedule) == |set k: nat | k < |schedule| && schedule[k].Move?|
  {
    if schedule != [] {
      var n := |schedule| - 1;
      var init := schedule[..n];
      MovesCounts(init);
      var before, all := set k: nat | k < |init| && init[k].Move?, set k: nat | k < |schedule| && schedule[k].Move?;
      assert all == before + (if schedule[n].Move? then {n} else {});
    }
  }

  function Min(a: nat, b: nat): nat { if a < b then a else b }

  /** The transfer the connection sees when `waiting` is the input not yet consumed. */
  function SocketIo(poll: Poll, receiving: bool, remaining: nat, waiting: seq<byte>): (io: Io)
    ensures io.Received? ==> receiving && 1 <= |io.data| <= remaining && io.data <= waiting
    ensures io.Sent? ==> !receiving && 1 <= io.n <= remaining
    ensures io.Failed? <==> poll.Break?
    ensures poll.Move? && poll.limit > 0 && remaining > 0 && (receiving ==> waiting != []) ==> io.Received? || io.Sent?
  {
    match poll
    case Pause => WouldBlock
    case Break => Failed
    case Move(limit) =>
      if receiving then
        var n := Min(limit, Min(remaining, |waiting|));
        if n == 0 then WouldBlock else Received(waiting[..n])
      else
        var n := Min(limit, remaining);
        if n == 0 then WouldBlock else Sent(n)
  }

  lemma NextBytes(s: seq<byte>, at: nat, n: nat)
    requires at + n <= |s|
    ensures s[..at] + s[at..][..n] == s[..at + n]
  {
  }

  predicate Running(r: Result) { r == Success || r == NoTransfer }

  /** Where a connection stands that has consumed `n` bytes of `input`, the whole input there
      will be for a request that began after the calls `begun`. */
  ghost predicate Midway(c: Connection, b: Backend, input: seq<byte>, n: nat, begun: seq<Call>)
    reads c, b`log, b.entries`locks
  {
    && c.Well() && (Receiving(c.state) || Sending(c.state))
    && (c.lockAcquired ==> c.entry in b.entries && 0 < c.entry.locks)
    && c.Tracks(b.oracle, b.log) && c.start == begun && (c.remainingBytes > 0 || c.bufferIndex == 0)
    && n <= |input| && c.received == input[..n]
  }

  /** A connection about to begin a request. */
  ghost predicate Ready(c: Connection, b: Backend)
    reads c, b, b.entries
  {
    && b.Valid() && c.Well() && c.Tracks(b.oracle, b.log) && c.Where() == START
    && c.received == [] && c.sent == [] && c.start == b.log
  }

  /** The request has found an entry that has all the readers it can. */
  ghost predicate ReadersFull(c: Connection, b: Backend, begun: seq<Call>, input: seq<byte>, n: nat)
    reads c, b, b.entries
  {
    && c.entry != null && c.entry in b.entries && c.entry.locks == LOCK_CAPACITY && c.entry == b.oracle.found(b.log)
    && OneShot(b.oracle, begun, input) == Answer(n, c.entry.value, b.log, c.keepAlive)
  }

  lemma FullIsNotRefused(c: Connection, b: Backend, begun: seq<Call>, input: seq<byte>, n: nat)
    requires ReadersFull(c, b, begun, input, n)
    ensures !OneShot(b.oracle, begun, input).Refused?
  {
    hide OneShot;
  }

  /** One transfer of a connection in the middle of a request. */
  method Advance(c: Connection, b: Backend, input: seq<byte>, io: Io, consumed: nat, ghost begun: seq<Call>)
      returns (result: Result, n: nat, output: seq<byte>)
    requires b.Valid() && Midway(c, b, input, consumed, begun) && c.Possible(io)
    requires io.Received? ==> io.data <= input[consumed..]
    modifies c, b`log, b.entries`locks
    ensures b.Valid() == true && consumed + n <= |input| && n + |output| == Moved(io)
    ensures Running(result) ==> Midway(c, b, input, consumed + n, begun) == true && c.sent == old(c.sent) + output
    ensures result in {NewRequest, Disconnect} && !io.Failed? ==>
              OneShot(b.oracle, begun, input[..consumed + n]) ==
              Served(consumed + n, old(c.sent) + output, b.log, result == NewRequest)
    ensures result == NewRequest ==> Ready(c, b) == true
    ensures io.Failed? ==> result == Disconnect
    ensures result == WriteBlocked ==> OneShot(b.oracle, begun, input[..consumed + n]) == Refused(consumed + n, b.log)
    ensures result == ReadBlocked ==> ReadersFull(c, b, begun, input[..consumed + n], consumed + n) == true
  {
    hide OneShot, PayloadExpected, RequestVersion, Connection.WriteBlocks, Connection.ReadBlocks, Connection.Response;
    ghost var rec, snt;
    result, output, rec, snt := c.Proc(io, b);
    n := if io.Received? then |io.data| else 0;
    NextBytes(input, consumed, n);
    assert rec == input[..consumed + n];
  }

  /** One poll of a connection in the middle of a request. */
  method PollOnce(c: Connection, b: Backend, input: seq<byte>, poll: Poll, consumed: nat, ghost begun: seq<Call>)
      returns (result: Result, n: nat, output: seq<byte>)
    requires b.Valid() && Midway(c, b, input, consumed, begun)
    modifies c, b`log, b.entries`locks
    ensures b.Valid() == true && consumed + n <= |input|
    ensures Running(result) ==> Midway(c, b, input, consumed + n, begun) == true && c.sent == old(c.sent) + output
    ensures result in {NewRequest, Disconnect} && !poll.Break? ==>
              OneShot(b.oracle, begun, input) == Served(consumed + n, old(c.sent) + output, b.log, result == NewRequest)
    ensures result == NewRequest ==> Ready(c, b) == true
    ensures poll.Break? ==> result == Disconnect && n == 0 && output == []
    ensures result == WriteBlocked ==> OneShot(b.oracle, begun, input) == Refused(consumed + n, b.log)
    ensures result == ReadBlocked ==> ReadersFull(c, b, begun, input, consumed + n) == true
    ensures Servable(OneShot(b.oracle, begun, input)) && poll.Move? && poll.limit > 0 ==> n + |output| > 0
  {
    hide OneShot;
    if Servable(OneShot(b.oracle, begun, input)) {
      assert c.received <= input;
      c.CanMove(b.oracle, b.log, input);
    }
    var io := SocketIo(poll, Receiving(c.state), c.remainingBytes, input[consumed..]);
    result, n, output := Advance(c, b, input, io, consumed, begun);
    Finished(b.oracle, begun, input, consumed + n);
  }

  predicate Servable(x: Outcome) { x.Served? || x.Refused? }

  /** How many bytes a servable request moves. */
  function Traffic(x: Outcome): nat
    requires Servable(x)
  {
    x.consumed + (if x.Served? then |x.output| else 0)
  }

  /** Every Move in the schedule lets at least one byte through. */
  predicate Willing(schedule: seq<Poll>) {
    forall p :: p in schedule ==> p.Move? ==> p.limit > 0
  }

  /** The polls made: all of `schedule` before the first Break, which is met if `broken`. */
  ghost predicate Polled(schedule: seq<Poll>, polls: nat, broken: bool) {
    && polls <= |schedule|
    && if broken then polls > 0 && schedule[polls - 1] == Break && Break !in schedule[..polls - 1]
       else Break !in schedule[..polls]
  }

  /** What has been sent in the middle of a request is the beginning of its response. */
  lemma MidwaySent(c: Connection, b: Backend, input: seq<byte>, n: nat, begun: seq<Call>)
    requires Midway(c, b, input, n, begun)
    ensures PartWay(OneShot(b.oracle, begun, input), c.sent)
  {
    hide OneShot;
    c.SentSoFar(b.oracle, b.log);
    Finished(b.oracle, begun, input, n);
  }

  /** However its traffic is split, a request that finishes has consumed the bytes, made the
      calls and sent the bytes of the one-shot outcome, and leaves the connection ready for the
      next; and a request that can be served, or that the ring refuses, does come to that end once
      enough polls let bytes through, unless it finds its entry's readers full or the socket
      breaks.  Up to a break, it has sent the beginning of its response. */
  method Serve(c: Connection, b: Backend, input: seq<byte>, schedule: seq<Poll>)
      returns (result: Result, consumed: nat, output: seq<byte>, broken: bool, ghost polls: nat)
    requires Ready(c, b)
    modifies c, b`log, b.entries`locks
    ensures b.Valid() && Polled(schedule, polls, broken) && consumed <= |input|
    ensures (broken ==> result == Disconnect) && (Running(result) ==> polls == |schedule|)
    ensures result in {NewRequest, Disconnect} && !broken ==>
              OneShot(b.oracle, old(b.log), input) == Served(consumed, output, b.log, result == NewRequest)
    ensures result == NewRequest ==> Ready(c, b)
    ensures result == WriteBlocked ==> OneShot(b.oracle, old(b.log), input) == Refused(consumed, b.log)
    ensures result == ReadBlocked ==> ReadersFull(c, b, old(b.log), input, consumed)
    ensures var x := OneShot(b.oracle, old(b.log), input);
            && (Running(result) || broken ==> PartWay(x, output))
            && (Servable(x) && Willing(schedule) ==>
                  && (Running(result) || broken ==> Moves(schedule[..polls]) <= consumed + |output|)
                  && (Moves(schedule) >= Traffic(x) && !broken ==>
                        result in (if x.Served? then {NewRequest, Disconnect, ReadBlocked} else {WriteBlocked})))
  {
    hide OneShot, ReadersFull, PartWay;
    ghost var begun := b.log;
    ghost var x := OneShot(b.oracle, begun, input);
    result, consumed, output, broken, polls := Success, 0, [], false, 0;
    assert input[..0] == [];
    for k := 0 to |schedule|
      invariant consumed <= |input| && polls == k && Break !in schedule[..k]
      invariant b.Valid() && Midway(c, b, input, consumed, begun) && c.sent == output && Running(result) && !broken
      invariant Servable(x) && Willing(schedule) ==> Moves(schedule[..k]) <= consumed + |output|
    {
      assert schedule[..k + 1][..k] == schedule[..k];
      assert schedule[k] in schedule;
      MidwaySent(c, b, input, consumed, begun);
      assert output + [] == output;
      var n, out;
      result, n, out := PollOnce(c, b, input, schedule[k], consumed, begun);
      consumed, output, polls := consumed + n, output + out, k + 1;
      if !Running(result) {
        broken := schedule[k].Break?;
        if result == ReadBlocked {
          FullIsNotRefused(c, b, begun, input, consumed);
        }
        return;
      }
    }
    assert schedule[..|schedule|] == schedule;
    MidwaySent(c, b, input, consumed, begun);
    if Servable(x) {
      assert c.received <= input;
      c.CanMove(b.oracle, b.log, input);
    }
  }

  /** A request decided by a prefix of the input is decided by all of it. */
  lemma Finished(o: Oracle, begun: seq<Call>, input: seq<byte>, n: nat)
    requires n <= |input|
    ensures !OneShot(o, begun, input[..n]).Incomplete? ==> OneShot(o, begun, input) == OneShot(o, begun, input[..n])
  {
    hide OneShot;
    if !OneShot(o, begun, input[..n]).Incomplete? {
      var m := OneShot(o, begun, input[..n]).consumed;
      ConsumedBounds(o, begun, input[..n]);
      assert input[..n][..m] == input[..m];
      ConsumedDecides(o, begun, input[..n], input);
    }
  }

  // ----- a stream of requests -----

  function Consumed(outs: seq<Outcome>): nat
    requires forall x :: x in outs ==> x.Served?
  {
    if outs == [] then 0 else Consumed(outs[..|outs| - 1]) + outs[|outs| - 1].consumed
  }

  function Outputs(outs: seq<Outcome>): seq<byte>
    requires forall x :: x in outs ==> x.Served?
  {
    if outs == [] then [] else Outputs(outs[..|outs| - 1]) + outs[|outs| - 1].output
  }

  function LogAfter(log: seq<Call>, outs: seq<Outcome>): seq<Call>
    requires forall x :: x in outs ==> x.Served?
  {
    if outs == [] then log else outs[|outs| - 1].log
  }

  /** `outs` are the one-shot outcomes of the requests that follow each other in `input`, each
      but the last asking to be followed by another. */
  ghost predicate Stream(o: Oracle, log: seq<Call>, input: seq<byte>, outs: seq<Outcome>) {
    && (forall x :: x in outs ==> x.Served?)
    && (outs != [] ==>
          var n := |outs| - 1;
          && Stream(o, log, input, outs[..n]) && Consumed(outs[..n]) <= |input|
          && (forall x :: x in outs[..n] ==> x.again)
          && outs[n] == OneShot(o, LogAfter(log, outs[..n]), input[Consumed(outs[..n])..]))
  }

  lemma StreamOneMore(o: Oracle, log: seq<Call>, input: seq<byte>, outs: seq<Outcome>, x: Outcome)
    requires Stream(o, log, input, outs) == true && Consumed(outs) <= |input| && forall y :: y in outs ==> y.again
    requires x.Served? && x == OneShot(o, LogAfter(log, outs), input[Consumed(outs)..])
    ensures Stream(o, log, input, outs + [x]) == true
    ensures Consumed(outs + [x]) == Consumed(outs) + x.consumed && Outputs(outs + [x]) == Outputs(outs) + x.output
    ensures LogAfter(log, outs + [x]) == x.log
  {
    hide OneShot;
    assert (outs + [x])[..|outs|] == outs;
  }

  /** `outs` are finished, and all asked to be followed by another request. */
  ghost predicate SoFar(o: Oracle, log: seq<Call>, input: seq<byte>, consumed: nat, outs: seq<Outcome>) {
    && (forall x :: x in outs ==> x.Served? && x.again) && Stream(o, log, input, outs)
    && Consumed(outs) <= consumed <= |input|
  }

  /** A connection in the middle of its stream: `outs` are finished, and it is some way into the
      request behind them. */
  ghost predicate Along(c: Connection, b: Backend, log: seq<Call>, input: seq<byte>,
                        consumed: nat, output: seq<byte>, outs: seq<Outcome>)
    reads c, b, b.entries
  {
    && SoFar(b.oracle, log, input, consumed, outs) && output == Outputs(outs) + c.sent
    && Midway(c, b, input[Consumed(outs)..], consumed - Consumed(outs), LogAfter(log, outs))
  }

  /** A connection at the end of its stream: all of `outs` are finished, and nothing else has
      been consumed or sent. */
  ghost predicate Ended(b: Backend, log: seq<Call>, input: seq<byte>,
                        consumed: nat, output: seq<byte>, outs: seq<Outcome>)
    reads b
  {
    && Stream(b.oracle, log, input, outs) && outs != [] && !outs[|outs| - 1].again
    && consumed == Consumed(outs) && output == Outputs(outs) && b.log == LogAfter(log, outs)
  }

  /** What becomes of the request behind `outs`. */
  function Current(o: Oracle, log: seq<Call>, input: seq<byte>, outs: seq<Outcome>): Outcome
    requires (forall x :: x in outs ==> x.Served?) && Consumed(outs) <= |input|
  {
    OneShot(o, LogAfter(log, outs), input[Consumed(outs)..])
  }

  /** A stream cut off in the middle: `outs` are finished, and behind their responses the beginning
      of the next one has been sent. */
  ghost predicate Begun(o: Oracle, log: seq<Call>, input: seq<byte>, consumed: nat, output: seq<byte>,
                        outs: seq<Outcome>)
  {
    && SoFar(o, log, input, consumed, outs) && Outputs(outs) <= output
    && PartWay(Current(o, log, input, outs), output[|Outputs(outs)|..])
  }

  lemma AlongBegun(c: Connection, b: Backend, log: seq<Call>, input: seq<byte>,
                   consumed: nat, output: seq<byte>, outs: seq<Outcome>)
    requires Along(c, b, log, input, consumed, output, outs) == true
    ensures Begun(b.oracle, log, input, consumed, output, outs) == true
  {
    hide OneShot, PartWay, Midway, Stream, Consumed, Outputs, LogAfter;
    MidwaySent(c, b, input[Consumed(outs)..], consumed - Consumed(outs), LogAfter(log, outs));
    assert output[|Outputs(outs)|..] == c.sent;
  }

  /** A connection whose request behind `outs` is blocked. */
  ghost predicate Stuck(c: Connection, b: Backend, log: seq<Call>, input: seq<byte>,
                        consumed: nat, outs: seq<Outcome>, result: Result)
    reads c, b, b.entries
  {
    && (forall x :: x in outs ==> x.Served?) && Stream(b.oracle, log, input, outs)
    && Consumed(outs) <= consumed <= |input|
    && var rest, begun, n := input[Consumed(outs)..], LogAfter(log, outs), consumed - Consumed(outs);
       if result == WriteBlocked then OneShot(b.oracle, begun, rest) == Refused(n, b.log)
       else ReadersFull(c, b, begun, rest, n)
  }

  /** One poll of a connection in the middle of its stream. */
  method StreamPoll(c: Connection, b: Backend, input: seq<byte>, poll: Poll, base: nat, consumed: nat,
                    output: seq<byte>, ghost log: seq<Call>, ghost outs: seq<Outcome>)
      returns (result: Result, consumed': nat, output': seq<byte>, ghost outs': seq<Outcome>)
    requires b.Valid() && Along(c, b, log, input, consumed, output, outs) && base == Consumed(outs)
    modifies c, b`log, b.entries`locks
    ensures b.Valid() == true && consumed <= consumed' <= |input| && output <= output'
    ensures Servable(Current(b.oracle, log, input, outs)) && poll.Move? && poll.limit > 0 ==>
              consumed' + |output'| > consumed + |output|
    ensures outs' == outs || (outs <= outs' && |outs'| == |outs| + 1 && Servable(Current(b.oracle, log, input, outs)))
    ensures Running(result) ==> Along(c, b, log, input, consumed', output', outs') == true && outs' == outs
    ensures result == NewRequest ==>
              Along(c, b, log, input, consumed', output', outs') == true && consumed' == Consumed(outs')
    ensures result == Disconnect && !poll.Break? ==> Ended(b, log, input, consumed', output', outs') == true
    ensures poll.Break? ==> result == Disconnect && outs' == outs && consumed' == consumed && output' == output
    ensures result in {ReadBlocked, WriteBlocked} ==> Stuck(c, b, log, input, consumed', outs', result) == true
  {
    hide OneShot, ReadersFull, Midway, Ready, Along, Ended, Stuck, SoFar, Stream, Consumed, Outputs, LogAfter,
         Backend.Valid;
    var n, out;
    StreamFacts(c, b, log, input, consumed, output, outs);
    ghost var begun, sent := LogAfter(log, outs), c.sent;
    assert output + [] == output;
    result, n, out := PollOnce(c, b, input[base..], poll, consumed - base, begun);
    consumed', output', outs' := consumed + n, output + out, outs;
    if Running(result) {
      StreamGoesOn(c, b, log, input, consumed, output, outs, n, sent, out);
    } else if result == NewRequest {
      outs' := outs + [OneShot(b.oracle, begun, input[base..])];
      StreamTurns(c, b, log, input, consumed, output, outs, n, sent, out);
    } else if result == Disconnect {
      if !poll.Break? {
        outs' := outs + [OneShot(b.oracle, begun, input[base..])];
        StreamEnds(b, log, input, consumed, output, outs, n, sent, out);
      }
    } else {
      StreamStops(c, b, log, input, consumed, outs, n, result);
    }
  }

  lemma StreamFacts(c: Connection, b: Backend, log: seq<Call>, input: seq<byte>,
                    consumed: nat, output: seq<byte>, outs: seq<Outcome>)
    requires Along(c, b, log, input, consumed, output, outs) == true
    ensures forall x :: x in outs ==> x.Served?
    ensures SoFar(b.oracle, log, input, consumed, outs) == true && Consumed(outs) <= consumed <= |input|
    ensures output == Outputs(outs) + c.sent
    ensures Midway(c, b, input[Consumed(outs)..], consumed - Consumed(outs), LogAfter(log, outs)) == true
  {
  }

  lemma StreamGoesOn(c: Connection, b: Backend, log: seq<Call>, input: seq<byte>, consumed: nat, output: seq<byte>,
                     outs: seq<Outcome>, n: nat, sent: seq<byte>, out: seq<byte>)
    requires SoFar(b.oracle, log, input, consumed, outs) == true
    requires Consumed(outs) <= consumed && consumed + n <= |input|
    requires output == Outputs(outs) + sent && c.sent == sent + out
    requires Midway(c, b, input[Consumed(outs)..], consumed - Consumed(outs) + n, LogAfter(log, outs)) == true
    ensures Along(c, b, log, input, consumed + n, output + out, outs) == true
  {
    hide Midway, Stream;
  }

  lemma Regrouped<T>(a: seq<T>, b: seq<T>, c: seq<T>)
    ensures a + (b + c) == a + b + c
  {
  }

  lemma AlongAfresh(c: Connection, b: Backend, log: seq<Call>, input: seq<byte>,
                    consumed: nat, output: seq<byte>, outs: seq<Outcome>)
    requires Ready(c, b) == true && SoFar(b.oracle, log, input, consumed, outs) == true
    requires (forall x :: x in outs ==> x.Served?) && consumed == Consumed(outs) && output == Outputs(outs)
    requires b.log == LogAfter(log, outs)
    ensures Along(c, b, log, input, consumed, output, outs) == true
  {
    hide Ready, Midway, Stream, Consumed, Outputs, LogAfter;
    ReadyAgain(c, b, input[consumed..]);
  }

  lemma StreamTurns(c: Connection, b: Backend, log: seq<Call>, input: seq<byte>, consumed: nat, output: seq<byte>,
                    outs: seq<Outcome>, n: nat, sent: seq<byte>, out: seq<byte>)
    requires (forall x :: x in outs ==> x.Served?) && Consumed(outs) <= |input|
    requires SoFar(b.oracle, log, input, consumed, outs) == true
    requires Consumed(outs) <= consumed && consumed + n <= |input|
    requires output == Outputs(outs) + sent && Ready(c, b) == true
    requires OneShot(b.oracle, LogAfter(log, outs), input[Consumed(outs)..]) ==
             Served(consumed - Consumed(outs) + n, sent + out, b.log, true)
    ensures var outs' := outs + [OneShot(b.oracle, LogAfter(log, outs), input[Consumed(outs)..])];
            && Along(c, b, log, input, consumed + n, output + out, outs') == true
            && (forall x :: x in outs' ==> x.Served?) && consumed + n == Consumed(outs')
  {
    hide *;
    var x := OneShot(b.oracle, LogAfter(log, outs), input[Consumed(outs)..]);
    SoFarOneMore(b.oracle, log, input, consumed, outs, x);
    Regrouped(Outputs(outs), sent, out);
    AlongAfresh(c, b, log, input, consumed + n, output + out, outs + [x]);
  }

  lemma SoFarOneMore(o: Oracle, log: seq<Call>, input: seq<byte>, consumed: nat, outs: seq<Outcome>, x: Outcome)
    requires SoFar(o, log, input, consumed, outs) == true
    requires x.Served? && x == OneShot(o, LogAfter(log, outs), input[Consumed(outs)..])
    ensures forall y :: y in outs + [x] ==> y.Served?
    ensures Consumed(outs + [x]) == Consumed(outs) + x.consumed && Outputs(outs + [x]) == Outputs(outs) + x.output
    ensures LogAfter(log, outs + [x]) == x.log && Stream(o, log, input, outs + [x]) == true
    ensures x.again && Consumed(outs) + x.consumed <= |input| ==>
              SoFar(o, log, input, Consumed(outs) + x.consumed, outs + [x]) == true
  {
    hide OneShot, Stream, Consumed, Outputs, LogAfter;
    StreamOneMore(o, log, input, outs, x);
  }

  lemma StreamEnds(b: Backend, log: seq<Call>, input: seq<byte>, consumed: nat, output: seq<byte>,
                   outs: seq<Outcome>, n: nat, sent: seq<byte>, out: seq<byte>)
    requires (forall x :: x in outs ==> x.Served?) && Consumed(outs) <= |input|
    requires SoFar(b.oracle, log, input, consumed, outs) == true
    requires Consumed(outs) <= consumed && consumed + n <= |input|
    requires output == Outputs(outs) + sent
    requires OneShot(b.oracle, LogAfter(log, outs), input[Consumed(outs)..]) ==
             Served(consumed - Consumed(outs) + n, sent + out, b.log, false)
    ensures var outs' := outs + [OneShot(b.oracle, LogAfter(log, outs), input[Consumed(outs)..])];
            Ended(b, log, input, consumed + n, output + out, outs') == true
  {
    hide *;
    var x := OneShot(b.oracle, LogAfter(log, outs), input[Consumed(outs)..]);
    SoFarOneMore(b.oracle, log, input, consumed, outs, x);
    Regrouped(Outputs(outs), sent, out);
    EndedOneMore(b, log, input, consumed + n, output + out, outs, x);
  }

  lemma EndedOneMore(b: Backend, log: seq<Call>, input: seq<byte>, consumed: nat, output: seq<byte>,
                     outs: seq<Outcome>, x: Outcome)
    requires x.Served? && !x.again && Stream(b.oracle, log, input, outs + [x]) == true
    requires consumed == Consumed(outs + [x]) && output == Outputs(outs + [x]) && b.log == LogAfter(log, outs + [x])
    ensures Ended(b, log, input, consumed, output, outs + [x]) == true
  {
    hide Stream, Consumed, Outputs, LogAfter;
  }

  lemma StreamStops(c: Connection, b: Backend, log: seq<Call>, input: seq<byte>, consumed: nat,
                    outs: seq<Outcome>, n: nat, result: Result)
    requires SoFar(b.oracle, log, input, consumed, outs) == true
    requires Consumed(outs) <= consumed && consumed + n <= |input|
    requires var rest, begun, m := input[Consumed(outs)..], LogAfter(log, outs), consumed - Consumed(outs) + n;
             if result == WriteBlocked then OneShot(b.oracle, begun, rest) == Refused(m, b.log)
             else ReadersFull(c, b, begun, rest, m) == true
    ensures Stuck(c, b, log, input, consumed + n, outs, result) == true
  {
    hide OneShot, ReadersFull, Stream;
  }

  lemma ReadyAgain(c: Connection, b: Backend, rest: seq<byte>)
    requires Ready(c, b) == true
    ensures Midway(c, b, rest, 0, b.log) == true && c.sent == []
  {
    assert rest[..0] == [];
  }

  /** However the traffic of a connection is split, it gets through its stream of requests as
      the one-shot specification does through one after the other: what it has sent when it ends
      is the concatenation of their responses, and what it has consumed their bytes.  Up to then,
      and when the socket breaks, it has sent the responses to the finished requests and the
      beginning of the next one. */
  method ServeStream(c: Connection, b: Backend, input: seq<byte>, schedule: seq<Poll>)
      returns (result: Result, consumed: nat, output: seq<byte>, broken: bool, ghost outs: seq<Outcome>,
               ghost polls: nat)
    requires Ready(c, b)
    modifies c, b`log, b.entries`locks
    ensures b.Valid() == true && Polled(schedule, polls, broken) && result != NewRequest
    ensures (broken ==> result == Disconnect) && (Running(result) ==> polls == |schedule|)
    ensures Running(result) ==> Along(c, b, old(b.log), input, consumed, output, outs) == true
    ensures Running(result) || broken ==> Begun(b.oracle, old(b.log), input, consumed, output, outs) == true
    ensures (Running(result) || broken) && Willing(schedule) && Servable(Current(b.oracle, old(b.log), input, outs)) ==>
              Moves(schedule[..polls]) <= consumed + |output|
    ensures result == Disconnect && !broken ==> Ended(b, old(b.log), input, consumed, output, outs) == true
    ensures result in {ReadBlocked, WriteBlocked} ==> Stuck(c, b, old(b.log), input, consumed, outs, result) == true
  {
    hide Ended, Stuck, Ready, Consumed, Current, Begun;
    result, consumed, output, broken, outs, polls := Success, 0, [], false, [], 0;
    AlongAtFirst(c, b, input);
    var base: nat := 0;
    hide Along;
    for k := 0 to |schedule|
      invariant b.Valid() == true && Along(c, b, old(b.log), input, consumed, output, outs) == true
      invariant Begun(b.oracle, old(b.log), input, consumed, output, outs) == true
      invariant (forall x :: x in outs ==> x.Served?) && base == Consumed(outs) <= |input| && Running(result) && !broken
      invariant polls == k && Break !in schedule[..k]
      invariant Willing(schedule) && Servable(Current(b.oracle, old(b.log), input, outs)) ==>
                  Moves(schedule[..k]) <= consumed + |output|
    {
      assert schedule[k] in schedule && schedule[..k + 1][..k] == schedule[..k];
      result, consumed, output, outs := StreamPoll(c, b, input, schedule[k], base, consumed, output, old(b.log), outs);
      polls := k + 1;
      if result == NewRequest {
        base, result := consumed, Success;
      } else if !Running(result) {
        broken := schedule[k].Break?;
        return;
      }
      AllServed(c, b, old(b.log), input, consumed, output, outs);
      AlongBegun(c, b, old(b.log), input, consumed, output, outs);
    }
    assert schedule[..|schedule|] == schedule;
  }

  lemma AllServed(c: Connection, b: Backend, log: seq<Call>, input: seq<byte>,
                  consumed: nat, output: seq<byte>, outs: seq<Outcome>)
    requires Along(c, b, log, input, consumed, output, outs) == true
    ensures (forall x :: x in outs ==> x.Served?) && Consumed(outs) <= |input|
  {
  }

  lemma AlongAtFirst(c: Connection, b: Backend, input: seq<byte>)
    requires Ready(c, b)
    ensures Along(c, b, b.log, input, 0, [], []) == true && Consumed([]) == 0
    ensures b.Valid() == true && Begun(b.oracle, b.log, input, 0, [], []) == true
  {
    ReadyAgain(c, b, input);
    assert input[0..] == input;
  }
}
