/** Who is served when: what the trace of `CacheServer.Run` says about turns, on positions in the list. */
module RoundRobin {
  import opened BitMask
  import opened Protocol
  import opened Connection
  import opened ConnectionList
  import opened CacheServer
  import opened Sessions

  /** A served call, case by case. */
  lemma ServedTurn(s: ServerState, tick: Tick, e: Event, s': ServerState)
    requires Follows(s, tick, e, s') && e.Served?
    ensures !tick.due && e.k < |s.nodes| && s.current == s.nodes[e.k]
    ensures var n := |s.nodes|; var k, behind := e.k, if e.k + 1 == n then 0 else e.k + 1;
            && (e.result == Success ==> s'.nodes == s.nodes && s'.current == s.nodes[0])
            && (e.result == NoTransfer ==> s'.nodes == s.nodes && s'.current == s.nodes[behind])
            && (e.result == NewRequest ==>
                  && s'.nodes == s.nodes[..k] + s.nodes[k + 1..] + [s.nodes[k]]
                  && s'.current == s.nodes[behind])
            && (e.result == Disconnect ==>
                  && s'.nodes == s.nodes[..k] + s.nodes[k + 1..]
                  && s'.current == if n == 1 then null else s.nodes[behind])
            && (e.result in {ReadBlocked, WriteBlocked} ==>
                  s'.nodes == s.nodes[..k] + s.nodes[k + 1..] && s'.current == s.nodes[k])
  {
    hide Moves, Told;
  }

  /** What a served call moves: nothing exactly if its socket would block; a part of what its phase still
      wants, and nothing else changes; or all of it. */
  lemma ServedMoves(s: ServerState, tick: Tick, e: Event, s': ServerState)
    requires Follows(s, tick, e, s') && e.Served?
    ensures e.k < |s.nodes| && s.nodes[e.k] in s.at && e.io in {tick.io, WouldBlock}
    // what the socket does is left out only if the connection does not ask for it
    ensures var p := s.at[s.nodes[e.k]];
            && (p.state in {ReceivingHeader, ReceivingArguments, ReceivingBody} ==>
                  && (tick.io == Failed ==> e.io == Failed)
                  && (tick.io.Received? && 1 <= |tick.io.data| <= p.remaining ==> e.io == tick.io))
            && (p.state in {SendingHeader, SendingBody} ==>
                  && (tick.io == Failed ==> e.io == Failed)
                  && (tick.io.Sent? && 1 <= tick.io.n <= p.remaining ==> e.io == tick.io))
    ensures var p := s.at[s.nodes[e.k]];
            && (e.result == NoTransfer <==> e.io == WouldBlock)
            && (e.io == Failed ==> e.result == Disconnect)
            && (e.io.Received? && |e.io.data| < p.remaining ==>
                  && e.result == Success
                  && e.after == Position(p.state, p.index + |e.io.data|, p.remaining - |e.io.data|))
            && (e.io.Sent? && e.io.n < p.remaining ==>
                  && e.result == Success
                  && e.after == Position(p.state, p.index + e.io.n, p.remaining - e.io.n))
            && (e.result == NewRequest ==> e.after == Position(ReceivingHeader, 0, 4))
    // and it is entered in the connection's book
    ensures s.nodes[e.k] in s.books && s'.books == s.books[s.nodes[e.k] := e.book]
    ensures var was := s.books[s.nodes[e.k]];
            && e.book.input == was.input + (if e.io.Received? then e.io.data else [])
            && was.output <= e.book.output && |e.book.output| == |was.output| + (if e.io.Sent? then e.io.n else 0)
  {
    hide Whole, InStream;
  }

  /** An accepting call, which there is exactly when it is due or nobody is current. */
  lemma AcceptedTurn(s: ServerState, tick: Tick, e: Event, s': ServerState)
    requires Follows(s, tick, e, s') && e.Accepted?
    ensures tick.due || s.current == null
    ensures e.client.None? ==> s' == s
    ensures e.client.Some? ==>
              && s'.nodes == s.nodes + [e.client.value]
              && s'.current == if s.nodes == [] then e.client.value else s.current
  {
  }

  lemma FollowsAt(ticks: seq<Tick>, trace: seq<ServerState>, events: seq<Event>, i: nat)
    requires RunOf(ticks, trace, events) && i < |events|
    ensures |events| <= |ticks| && |trace| == |events| + 1 && Follows(trace[i], ticks[i], events[i], trace[i + 1])
  {
    hide Follows, Upheld;
  }

  /** A connection that has moved some bytes, but is not at the end of its request, is followed by the
      head of the list; and the head is served call after call, accepts aside, until it moves nothing,
      finishes its request, disconnects or is blocked. */
  lemma {:induction false} HeadGoesOn(ticks: seq<Tick>, trace: seq<ServerState>, events: seq<Event>, i: nat, j: nat)
    requires RunOf(ticks, trace, events) && i < j <= |events|
    requires events[i].Served? && events[i].result == Success
    requires forall m: nat :: i < m < j ==> events[m].Accepted? || events[m].result == Success
    ensures |trace| == |events| + 1 && trace[i].nodes != [] && trace[j].nodes != []
    ensures trace[j].nodes[0] == trace[i].nodes[0] && trace[j].current == trace[i].nodes[0]
    ensures j < |events| && events[j].Served? ==>
              events[j].k < |trace[j].nodes| && trace[j].nodes[events[j].k] == trace[i].nodes[0]
    decreases j
  {
    hide RunOf, Follows;
    FollowsAt(ticks, trace, events, j - 1);
    if j == i + 1 {
      ServedTurn(trace[i], ticks[i], events[i], trace[j]);
    } else {
      HeadGoesOn(ticks, trace, events, i, j - 1);
      if events[j - 1].Served? {
        ServedTurn(trace[j - 1], ticks[j - 1], events[j - 1], trace[j]);
      } else {
        AcceptedTurn(trace[j - 1], ticks[j - 1], events[j - 1], trace[j]);
      }
    }
    if j < |events| && events[j].Served? {
      FollowsAt(ticks, trace, events, j);
      ServedTurn(trace[j], ticks[j], events[j], trace[j + 1]);
    }
  }

  /** Over consecutive calls in which nobody's socket moves anything, the list stays as it is, and the
      j-th call serves the connection j places behind the first, circularly. */
  lemma {:induction false} AroundTheList(ticks: seq<Tick>, trace: seq<ServerState>, events: seq<Event>, i: nat, j: nat)
    requires RunOf(ticks, trace, events) && i + j < |events|
    requires forall m: nat :: i <= m <= i + j ==> events[m].Served?
    requires forall m: nat :: i <= m < i + j ==> events[m].result == NoTransfer
    ensures |trace| == |events| + 1 && events[i].k < |trace[i].nodes|
    ensures trace[i + j].nodes == trace[i].nodes && events[i + j].k == (events[i].k + j) % |trace[i].nodes|
    ensures trace[i + j].current == trace[i].nodes[(events[i].k + j) % |trace[i].nodes|]
    decreases j
  {
    hide *;
    var last := i + j;
    FollowsAt(ticks, trace, events, last);
    ServedTurn(trace[last], ticks[last], events[last], trace[last + 1]);
    if j == 0 {
      Remainder(events[i].k, |trace[i].nodes|, 0, events[i].k);
    } else {
      AroundTheList(ticks, trace, events, i, j - 1);
      FollowsAt(ticks, trace, events, last - 1);
      ServedTurn(trace[last - 1], ticks[last - 1], events[last - 1], trace[last]);
      OneFurther(events[i].k + j - 1, |trace[i].nodes|);
      SamePlace(ticks, trace, events, last, events[last].k, (events[i].k + j) % |trace[i].nodes|);
    }
  }

  lemma OneFurther(x: nat, n: nat)
    requires n > 0
    ensures (x + 1) % n == if x % n + 1 == n then 0 else x % n + 1
  {
    var q, r := x / n, x % n;
    assert x == n * q + r;
    if r + 1 == n {
      assert x + 1 == n * (q + 1) + 0;
      Remainder(x + 1, n, q + 1, 0);
    } else {
      Remainder(x + 1, n, q, r + 1);
    }
  }

  /** No connection is on the list twice. */
  lemma SamePlace(ticks: seq<Tick>, trace: seq<ServerState>, events: seq<Event>, i: nat, a: nat, b: nat)
    requires RunOf(ticks, trace, events) && i < |trace| && a < |trace[i].nodes| && b < |trace[i].nodes|
    requires trace[i].nodes[a] == trace[i].nodes[b]
    ensures a == b
  {
    hide Follows, InStream;
    assert Upheld(trace[i]);
  }

  /** So within as many calls as there are connections, everyone on the list is served. */
  lemma EveryoneReached(ticks: seq<Tick>, trace: seq<ServerState>, events: seq<Event>, i: nat, p: nat) returns (j: nat)
    requires RunOf(ticks, trace, events) && |trace| == |events| + 1 && i < |trace| && p < |trace[i].nodes|
    requires i + |trace[i].nodes| <= |events|
    requires forall m: nat :: i <= m < i + |trace[i].nodes| ==> events[m].Served? && events[m].result == NoTransfer
    ensures j < |trace[i].nodes| && events[i + j].k == p && trace[i + j].nodes == trace[i].nodes
  {
    hide *;
    var n := |trace[i].nodes|;
    FollowsAt(ticks, trace, events, i);
    ServedTurn(trace[i], ticks[i], events[i], trace[i + 1]);
    var k := events[i].k;
    j := if p >= k then p - k else n - k + p;
    Remainder(k + j, n, if p >= k then 0 else 1, p);
    AroundTheList(ticks, trace, events, i, j);
  }

  /** In every state of a run, what a connection on the list has received and sent is a stream of
      requests, each answered as the one-shot specification answers it. */
  lemma EveryStream(ticks: seq<Tick>, trace: seq<ServerState>, events: seq<Event>, i: nat, c: Connection)
    requires RunOf(ticks, trace, events) && i < |trace| && c in trace[i].nodes
    ensures c in trace[i].books && InStream(c.cache.oracle, trace[i].books[c])
  {
    hide Follows, InStream;
    assert Upheld(trace[i]);
  }
}
