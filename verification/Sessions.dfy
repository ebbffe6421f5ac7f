/** What one connection has received and sent since it was accepted, in turns between which other
    connections are served, compared with what the one-shot specification makes of the bytes. */
module Sessions {
  import opened Bytes
  import opened Protocol
  import opened Connection
  import Chunking

  /** All input and output of a connection, and the outcomes of its finished requests. */
  datatype Book = Book(input: seq<byte>, output: seq<byte>, outs: seq<Outcome>)

  const BLANK := Book([], [], [])

  /** A connection in the middle of its stream of requests has done what the finished ones asked for,
      and is as far into the next one as the bytes moved say. */
  ghost predicate Kept(c: Connection, o: Oracle, log: seq<Call>, k: Book)
    reads c`header, c`arguments, c`payload, c`state, c`bufferIndex, c`entry, c`keepAlive, c`received, c`sent, c`start
  {
    && Chunking.SoFar(o, [], k.input, |k.input|, k.outs) && k.output == Chunking.Outputs(k.outs) + c.sent
    && c.received == k.input[Chunking.Consumed(k.outs)..] && c.start == Chunking.LogAfter([], k.outs)
    && c.Tracks(o, log)
  }

  /** What is left of that for somebody who only sees the bytes: the responses to the finished
      requests, in order, and the beginning of the next one. */
  ghost predicate InStream(o: Oracle, k: Book) {
    Chunking.Begun(o, [], k.input, |k.input|, k.output, k.outs)
  }

  /** The stream of a connection the server has hung up on: all its requests were answered. */
  ghost predicate Whole(o: Oracle, k: Book) {
    && Chunking.Stream(o, [], k.input, k.outs) && k.outs != [] && !k.outs[|k.outs| - 1].again
    && |k.input| == Chunking.Consumed(k.outs) && k.output == Chunking.Outputs(k.outs)
  }

  /** One step of connection_proc in the connection's book. */
  ghost predicate Wrote(k: Book, io: Io, r: Result, k': Book) {
    && k'.input == k.input + (if io.Received? then io.data else [])
    && k.output <= k'.output && |k'.output| == |k.output| + (if io.Sent? then io.n else 0)
    && if r in {NewRequest, Disconnect} && !io.Failed? then
         && |k'.outs| == |k.outs| + 1 && k'.outs[..|k.outs|] == k.outs
         && k'.outs[|k.outs|].Served? && (k'.outs[|k.outs|].again <==> r == NewRequest)
       else k'.outs == k.outs
  }

  /** What one step does to the book of a connection: it goes on with its stream of requests, or has
      been hung up on at the end of it. */
  ghost predicate Told(o: Oracle, k: Book, io: Io, r: Result, k': Book) {
    Wrote(k, io, r, k') && if r == Disconnect && !io.Failed? then Whole(o, k') else InStream(o, k')
  }

  lemma StreamLast(o: Oracle, log: seq<Call>, input: seq<byte>, outs: seq<Outcome>)
    requires Chunking.Stream(o, log, input, outs) == true && outs != []
    ensures forall x :: x in outs ==> x.Served?
    ensures forall x :: x in outs[..|outs| - 1] ==> x.Served? && x.again
    ensures Chunking.Stream(o, log, input, outs[..|outs| - 1]) == true
    ensures var init, x := outs[..|outs| - 1], outs[|outs| - 1];
            && Chunking.Consumed(init) <= |input| && Chunking.Consumed(outs) == Chunking.Consumed(init) + x.consumed
            && x == OneShot(o, Chunking.LogAfter(log, init), input[Chunking.Consumed(init)..])
  {
    hide OneShot, Chunking.LogAfter;
    assert outs[|outs| - 1] in outs;
  }

  /** A request that has been served keeps its outcome when more input arrives. */
  lemma OutcomeStays(o: Oracle, log: seq<Call>, input: seq<byte>, more: seq<byte>, at: nat)
    requires at <= |input| && OneShot(o, log, input[at..]).Served?
    ensures OneShot(o, log, (input + more)[at..]) == OneShot(o, log, input[at..])
    ensures OneShot(o, log, input[at..]).consumed <= |input| - at
  {
    hide OneShot;
    var rest, n := input[at..], OneShot(o, log, input[at..]).consumed;
    ConsumedBounds(o, log, rest);
    assert (input + more)[at..] == rest + more && (rest + more)[..n] == rest[..n];
    ConsumedDecides(o, log, rest, rest + more);
  }

  /** More input does not change what became of the requests in it. */
  lemma {:induction false} StreamGrows(o: Oracle, log: seq<Call>, input: seq<byte>, more: seq<byte>, outs: seq<Outcome>)
    requires Chunking.Stream(o, log, input, outs) == true
    ensures Chunking.Stream(o, log, input + more, outs) == true
    decreases |outs|
  {
    hide *;
    if outs == [] {
      StreamNothing(o, log, input + more);
    } else {
      var init, x := outs[..|outs| - 1], outs[|outs| - 1];
      StreamLast(o, log, input, outs);
      StreamGrows(o, log, input, more, init);
      OutcomeStays(o, Chunking.LogAfter(log, init), input, more, Chunking.Consumed(init));
      Chunking.StreamOneMore(o, log, input + more, init, x);
      LastAgain(outs);
    }
  }

  lemma StreamNothing(o: Oracle, log: seq<Call>, input: seq<byte>)
    ensures Chunking.Stream(o, log, input, []) == true
  {
  }

  lemma LastAgain(outs: seq<Outcome>)
    requires outs != []
    ensures outs[..|outs| - 1] + [outs[|outs| - 1]] == outs
  {
  }

  lemma KeptSoFar(c: Connection, o: Oracle, log: seq<Call>, k: Book)
    requires Kept(c, o, log, k)
    ensures forall x :: x in k.outs ==> x.Served?
    ensures Chunking.SoFar(o, [], k.input, |k.input|, k.outs) == true && Chunking.Consumed(k.outs) <= |k.input|
    ensures k.output == Chunking.Outputs(k.outs) + c.sent
    ensures c.received == k.input[Chunking.Consumed(k.outs)..] && c.start == Chunking.LogAfter([], k.outs)
    ensures c.Tracks(o, log) == true
  {
  }

  /** A connection that is kept, seen from outside. */
  lemma KeptInStream(c: Connection, o: Oracle, log: seq<Call>, k: Book)
    requires Kept(c, o, log, k) && c.Well() && (Receiving(c.state) || Sending(c.state))
    ensures InStream(o, k)
  {
    hide OneShot, PartWay, Chunking.Stream, Chunking.Consumed, Chunking.Outputs, Chunking.LogAfter;
    c.SentSoFar(o, log);
    assert k.output[|Chunking.Outputs(k.outs)|..] == c.sent;
  }

  lemma BlankInStream(o: Oracle)
    ensures InStream(o, BLANK)
  {
    hide OneShot;
  }

  lemma SoFarGrows(o: Oracle, k: Book, data: seq<byte>)
    requires Chunking.SoFar(o, [], k.input, |k.input|, k.outs) == true
    ensures Chunking.SoFar(o, [], k.input + data, |k.input + data|, k.outs) == true
    ensures (forall x :: x in k.outs ==> x.Served?) && Chunking.Consumed(k.outs) <= |k.input|
    ensures (k.input + data)[Chunking.Consumed(k.outs)..] == k.input[Chunking.Consumed(k.outs)..] + data
  {
    hide Chunking.Stream, Chunking.Consumed;
    StreamGrows(o, [], k.input, data, k.outs);
  }

  /** A turn within a request. */
  lemma KeptGoesOn(c: Connection, o: Oracle, log: seq<Call>, k: Book, data: seq<byte>, sent: seq<byte>, out: seq<byte>)
    requires Chunking.SoFar(o, [], k.input, |k.input|, k.outs) == true && c.Tracks(o, log) == true
    requires (forall x :: x in k.outs ==> x.Served?) && Chunking.Consumed(k.outs) <= |k.input|
    requires k.output == Chunking.Outputs(k.outs) + sent && c.sent == sent + out
    requires c.received == k.input[Chunking.Consumed(k.outs)..] + data && c.start == Chunking.LogAfter([], k.outs)
    ensures Kept(c, o, log, Book(k.input + data, k.output + out, k.outs)) == true
  {
    SoFarGrows(o, k, data);
    hide Chunking.SoFar, Chunking.Stream, Chunking.Consumed, Chunking.Outputs, Chunking.LogAfter;
    Chunking.Regrouped(Chunking.Outputs(k.outs), sent, out);
  }

  /** A turn that finishes a request: the stream of outcomes is one longer. */
  lemma Finishes(o: Oracle, k: Book, data: seq<byte>, sent: seq<byte>, out: seq<byte>, x: Outcome)
    requires Chunking.SoFar(o, [], k.input, |k.input|, k.outs) == true
    requires (forall y :: y in k.outs ==> y.Served?) && Chunking.Consumed(k.outs) <= |k.input|
    requires k.output == Chunking.Outputs(k.outs) + sent
    requires var rest := k.input[Chunking.Consumed(k.outs)..] + data;
             && x == OneShot(o, Chunking.LogAfter([], k.outs), rest)
             && x.Served? && x.consumed == |rest| && x.output == sent + out
    ensures var outs := k.outs + [x];
            && Chunking.Stream(o, [], k.input + data, outs) == true && (forall y :: y in outs ==> y.Served?)
            && Chunking.Consumed(outs) == |k.input + data| && Chunking.Outputs(outs) == k.output + out
            && Chunking.LogAfter([], outs) == x.log
            && (x.again ==> Chunking.SoFar(o, [], k.input + data, |k.input + data|, outs) == true)
  {
    SoFarGrows(o, k, data);
    hide OneShot, Chunking.Stream, Chunking.Consumed, Chunking.Outputs, Chunking.LogAfter;
    Chunking.StreamOneMore(o, [], k.input + data, k.outs, x);
    Chunking.Regrouped(Chunking.Outputs(k.outs), sent, out);
  }

  /** A turn that begins a new request. */
  lemma KeptTurns(c: Connection, o: Oracle, log: seq<Call>, k: Book)
    requires Chunking.SoFar(o, [], k.input, |k.input|, k.outs) == true && c.Tracks(o, log) == true
    requires (forall x :: x in k.outs ==> x.Served?) && Chunking.Consumed(k.outs) == |k.input|
    requires k.output == Chunking.Outputs(k.outs) && c.start == log == Chunking.LogAfter([], k.outs)
    requires c.received == [] && c.sent == []
    ensures Kept(c, o, log, k) == true
  {
    hide Chunking.SoFar, Chunking.Consumed, Chunking.Outputs, Chunking.LogAfter;
    assert k.output + [] == k.output;
  }

  /** The book of a connection that has just been accepted. */
  lemma KeptAtFirst(c: Connection, o: Oracle)
    requires c.Tracks(o, []) == true && c.start == [] && c.received == [] && c.sent == []
    ensures Kept(c, o, [], BLANK) == true
  {
  }

  /** A turn that neither finishes a request nor goes on with one: the socket has failed, or the
      connection is blocked before it has sent anything. */
  lemma CutShort(o: Oracle, k: Book, data: seq<byte>)
    requires InStream(o, k) && (data != [] ==> k.output == Chunking.Outputs(k.outs))
    ensures InStream(o, Book(k.input + data, k.output, k.outs)) == true
  {
    SoFarGrows(o, k, data);
    hide OneShot, Chunking.Stream, Chunking.Consumed, Chunking.Outputs, Chunking.LogAfter;
    if data == [] {
      assert k.input + data == k.input;
    }
  }

  /** A receiving connection has sent nothing of its response. */
  lemma NothingSent(c: Connection, o: Oracle, log: seq<Call>)
    requires c.Tracks(o, log) && Receiving(c.state)
    ensures c.sent == []
  {
    hide OneShot;
  }

  lemma MovesFacts(p: Position, io: Io, r: Result, p': Position)
    requires Moves(p, io, r, p') == true && PossibleAt(p, io)
    ensures r == NoTransfer ==> p' == p
    ensures r == NewRequest ==> p'.state == ReceivingHeader
    ensures r in {ReadBlocked, WriteBlocked} ==> io.Received? && Receiving(p.state)
    ensures io.Failed? ==> r == Disconnect
  {
  }

  /** connection_proc, entered in the connection's book. */
  method Turn(c: Connection, io: Io, ghost k: Book) returns (result: Result, ghost k': Book)
    requires c.cache.Valid() && c.Well() && (Receiving(c.state) || Sending(c.state)) && c.Possible(io)
    requires c.lockAcquired ==> c.entry in c.cache.entries && 0 < c.entry.locks
    requires Kept(c, c.cache.oracle, c.cache.log, k) == true
    modifies c, c.cache`log, c.cache.entries`locks
    ensures c.cache.Valid() == true && c.previous == old(c.previous) && c.next == old(c.next)
    ensures result in {Success, NoTransfer, NewRequest} ==>
              && c.Well() == true && (c.lockAcquired ==> c.entry in c.cache.entries)
              && (Receiving(c.state) || Sending(c.state)) && Kept(c, c.cache.oracle, c.cache.log, k') == true
    ensures Told(c.cache.oracle, k, io, result, k') == true && Moves(old(c.Where()), io, result, c.Where()) == true
    ensures !(result in {Success, NoTransfer, NewRequest, Disconnect}) ==> !c.lockAcquired
    ensures result == WriteBlocked <==> old(c.WriteBlocks(io, c.cache))
    ensures result == ReadBlocked <==> old(c.ReadBlocks(io, c.cache))
    ensures forall e :: e in c.cache.entries ==>
              e.locks == old(e.locks) - old(if c.Holds(e) then 1 else 0)
                         + (if result != Disconnect && c.Holds(e) then 1 else 0)
  {
    hide OneShot, Moves, Kept, InStream, Whole, Chunking.SoFar, Chunking.Stream, Chunking.Consumed, Chunking.Outputs,
         Chunking.LogAfter, Chunking.Begun, Connection.Tracks, Connection.WriteBlocks, Connection.ReadBlocks;
    ghost var o, was, data := c.cache.oracle, c.sent, if io.Received? then io.data else [];
    KeptSoFar(c, o, c.cache.log, k);
    KeptInStream(c, o, c.cache.log, k);
    if Receiving(c.state) {
      NothingSent(c, o, c.cache.log);
    }
    SoFarGrows(o, k, data);
    var output;
    ghost var rec, snt;
    result, output, rec, snt := c.Proc(io, c.cache);
    MovesFacts(old(c.Where()), io, result, c.Where());
    k' := Book(k.input + data, k.output + output, k.outs);
    assert k.output + [] == k.output;
    if result == Success || result == NoTransfer {
      KeptGoesOn(c, o, c.cache.log, k, data, was, output);
      KeptInStream(c, o, c.cache.log, k');
    } else if result == NewRequest || (result == Disconnect && !io.Failed?) {
      ghost var x := Served(|rec|, snt, c.cache.log, result == NewRequest);
      Finishes(o, k, data, was, output, x);
      k' := k'.(outs := k.outs + [x]);
      if result == NewRequest {
        KeptTurns(c, o, c.cache.log, k');
        KeptInStream(c, o, c.cache.log, k');
      } else {
        WholeAtLast(o, k');
      }
    } else {
      CutShort(o, k, data);
    }
  }

  lemma WholeAtLast(o: Oracle, k: Book)
    requires Chunking.Stream(o, [], k.input, k.outs) == true && k.outs != [] && !k.outs[|k.outs| - 1].again
    requires (forall x :: x in k.outs ==> x.Served?)
    requires |k.input| == Chunking.Consumed(k.outs) && k.output == Chunking.Outputs(k.outs)
    ensures Whole(o, k) == true
  {
    hide Chunking.Stream, Chunking.Consumed, Chunking.Outputs;
  }
}
