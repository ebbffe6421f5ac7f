/** src/cache_server.c: the scheduler over the list of open connections, the reader locks these
    connections hold between them, and what each of them has received and sent. */
module CacheServer {
  import opened Wrappers
  import opened Bytes
  import opened EntryHeader
  import opened Protocol
  import opened Connection
  import opened ConnectionList
  import opened Sessions

  /** A client: the bytes malloc leaves in its connection's buffers, and how the cache is going to
      answer its calls. */
  datatype Client = Client(header: seq<byte>, arguments: seq<byte>, oracle: Oracle)

  /** What one call of cache_server_proc meets: whether the accept period is over, the client
      waiting, and what the current connection's socket does. */
  datatype Tick = Tick(due: bool, client: Option<Client>, io: Io)

  ghost function Holders(nodes: seq<Connection>, e: Entry): set<Connection>
    reads nodes`lockAcquired, nodes`entry
  {
    set c | c in nodes && c.Holds(e)
  }

  /** Every entry's lock count is the number of open connections holding it. */
  ghost predicate Conserved(nodes: seq<Connection>, entries: set<Entry>)
    reads nodes`lockAcquired, nodes`entry, entries`locks
  {
    forall e :: e in entries ==> e.locks == |Holders(nodes, e)|
  }

  ghost predicate Fit(c: Connection, entries: set<Entry>)
    reads c`header, c`arguments, c`payload, c`lockAcquired, c`entry, c`state, c`buffer, c`bufferIndex, c`remainingBytes
  {
    && c.Well() && (Receiving(c.state) || Sending(c.state))
    && (c.lockAcquired ==> c.entry in entries)
  }

  /** The other connections holding e. */
  ghost function Others(nodes: seq<Connection>, c: Connection, e: Entry): set<Connection>
    reads nodes`lockAcquired, nodes`entry
  {
    set d | d in nodes && d != c && d.Holds(e)
  }

  lemma HoldersSplit(nodes: seq<Connection>, c: Connection, e: Entry)
    requires c in nodes
    ensures |Holders(nodes, e)| == |Others(nodes, c, e)| + (if c.Holds(e) then 1 else 0)
  {
    assert Holders(nodes, e) == Others(nodes, c, e) + (if c.Holds(e) then {c} else {});
  }

  /** Every lock count is the number of other connections holding the entry, plus one if c
      does and `counts`. */
  ghost predicate CountedApart(nodes: seq<Connection>, c: Connection, counts: bool, entries: set<Entry>)
    reads nodes`lockAcquired, nodes`entry, c`lockAcquired, c`entry, entries`locks
  {
    forall e :: e in entries ==> e.locks == |Others(nodes, c, e)| + (if counts && c.Holds(e) then 1 else 0)
  }

  lemma CountBefore(nodes: seq<Connection>, c: Connection, entries: set<Entry>)
    requires c in nodes && Conserved(nodes, entries) && AllFit(nodes, entries)
    ensures CountedApart(nodes, c, true, entries)
    ensures c.lockAcquired ==> c.entry != null && 0 < c.entry.locks
  {
    forall e | e in entries ensures e.locks == |Others(nodes, c, e)| + (if c.Holds(e) then 1 else 0) {
      HoldersSplit(nodes, c, e);
    }
    assert Fit(c, entries);
  }

  /** The connection behind position k, circularly. */
  function Successor(nodes: seq<Connection>, k: nat): Connection
    requires k < |nodes|
  {
    if k + 1 == |nodes| then nodes[0] else nodes[k + 1]
  }

  lemma WithoutMembers(nodes: seq<Connection>, k: nat)
    requires k < |nodes| && forall i: nat, j: nat :: i < j < |nodes| ==> nodes[i] != nodes[j]
    ensures forall d :: d in Without(nodes, k) <==> d in nodes && d != nodes[k]
    ensures |nodes| > 1 ==> Successor(nodes, k) in Without(nodes, k)
    ensures |nodes| > 1 ==> Successor(nodes, k) != nodes[k]
  {
    forall d | d in nodes && d != nodes[k] ensures d in Without(nodes, k) {
      var i: nat :| i < |nodes| && nodes[i] == d;
      if i < k {
        assert Without(nodes, k)[i] == d;
      } else {
        assert Without(nodes, k)[i - 1] == d;
      }
    }
    forall d | d in Without(nodes, k) ensures d in nodes && d != nodes[k] {
      var i: nat :| i < |Without(nodes, k)| && Without(nodes, k)[i] == d;
      assert d == if i < k then nodes[i] else nodes[i + 1];
    }
  }

  lemma WithoutOne(nodes: seq<Connection>, k: nat)
    requires k < |nodes| && forall i: nat, j: nat :: i < j < |nodes| ==> nodes[i] != nodes[j]
    ensures nodes[k] !in Without(nodes, k)
    ensures Successor(nodes, k) == nodes[k] <==> |nodes| == 1
  {
    WithoutMembers(nodes, k);
  }

  /** Whether the scheduler handles this result without the queue of blocked connections. */
  predicate Unblocked(r: Result) {
    r != ReadBlocked && r != WriteBlocked
  }

  /** The list after a turn of the connection at position k. */
  ghost function NodesAfter(nodes: seq<Connection>, k: nat, r: Result): seq<Connection>
    requires k < |nodes|
  {
    match r
    case Success => nodes
    case NoTransfer => nodes
    case NewRequest => Without(nodes, k) + [nodes[k]]
    case _ => Without(nodes, k)
  }

  /** The connection to be served next. */
  ghost function CurrentAfter(nodes: seq<Connection>, k: nat, r: Result): Connection?
    requires k < |nodes|
  {
    match r
    case Success => nodes[0]
    case NoTransfer => Successor(nodes, k)
    case NewRequest => Successor(nodes, k)
    case Disconnect => if |nodes| == 1 then null else Successor(nodes, k)
    case _ => nodes[k]
  }

  lemma HoldersWithout(nodes: seq<Connection>, k: nat, e: Entry)
    requires k < |nodes| && forall i: nat, j: nat :: i < j < |nodes| ==> nodes[i] != nodes[j]
    ensures Holders(Without(nodes, k), e) == Others(nodes, nodes[k], e)
    ensures Holders(Without(nodes, k) + [nodes[k]], e) == Holders(nodes, e)
  {
    WithoutMembers(nodes, k);
  }

  /** Counting the current connection and the others separately adds up to conservation over
      the list as it is after the turn. */
  lemma ConservedAfter(nodes: seq<Connection>, k: nat, r: Result, entries: set<Entry>)
    requires k < |nodes| && forall i: nat, j: nat :: i < j < |nodes| ==> nodes[i] != nodes[j]
    requires !Unblocked(r) ==> !nodes[k].lockAcquired
    requires CountedApart(nodes, nodes[k], r != Disconnect, entries)
    ensures Conserved(NodesAfter(nodes, k, r), entries)
  {
    forall e | e in entries ensures e.locks == |Holders(NodesAfter(nodes, k, r), e)| {
      HoldersSplit(nodes, nodes[k], e);
      HoldersWithout(nodes, k, e);
    }
  }

  /** The next current connection is on the list exactly when no connection was blocked. */
  lemma CurrentPlaced(nodes: seq<Connection>, k: nat, r: Result)
    requires k < |nodes| && forall i: nat, j: nat :: i < j < |nodes| ==> nodes[i] != nodes[j]
    ensures var current, after := CurrentAfter(nodes, k, r), NodesAfter(nodes, k, r);
            && (Unblocked(r) ==> (current == null <==> after == []) && (current != null ==> current in after))
            && (!Unblocked(r) ==> current != null && current !in after)
  {
    WithoutMembers(nodes, k);
    assert r == NewRequest ==> nodes[k] in NodesAfter(nodes, k, r);
  }

  ghost predicate AllFit(nodes: seq<Connection>, entries: set<Entry>)
    reads nodes`header, nodes`arguments, nodes`payload, nodes`lockAcquired, nodes`entry, nodes`state
    reads nodes`buffer, nodes`bufferIndex, nodes`remainingBytes
  {
    forall c :: c in nodes ==> Fit(c, entries)
  }

  lemma FitAfter(nodes: seq<Connection>, k: nat, r: Result, entries: set<Entry>)
    requires k < |nodes| && forall i: nat, j: nat :: i < j < |nodes| ==> nodes[i] != nodes[j]
    requires forall d :: d in nodes && d != nodes[k] ==> Fit(d, entries)
    requires r in {Success, NoTransfer, NewRequest} ==> Fit(nodes[k], entries)
    ensures AllFit(NodesAfter(nodes, k, r), entries)
  {
    hide Fit;
    WithoutMembers(nodes, k);
  }

  /** The header and argument buffers of a new connection have their sizes, whatever malloc left in
      them, and it is told of entries of this cache. */
  ghost predicate ClientFits(client: Option<Client>, entries: set<Entry>) {
    client.Some? ==>
      && |client.value.header| == VALUE_RESPONSE && |client.value.arguments| == KEY_VALUE_ARGS
      && Closed(client.value.oracle, entries)
  }

  ghost function Caches(nodes: seq<Connection>): set<Backend> {
    set c | c in nodes :: c.cache
  }

  /** Each connection's history is its own; the entries are common to all. */
  ghost predicate OwnCaches(nodes: seq<Connection>, entries: set<Entry>) {
    && (forall c :: c in nodes ==> c.cache.entries == entries && Closed(c.cache.oracle, entries))
    && (forall c, d :: c in nodes && d in nodes && c != d ==> c.cache != d.cache)
  }

  /** Every connection is as far into its stream of requests as its book says. */
  ghost predicate AllKept(nodes: seq<Connection>, books: map<Connection, Book>)
    reads nodes`header, nodes`arguments, nodes`payload, nodes`state, nodes`bufferIndex, nodes`entry, nodes`keepAlive
    reads nodes`received, nodes`sent, nodes`start, Caches(nodes)`log
  {
    forall c :: c in nodes ==> c in books && Kept(c, c.cache.oracle, c.cache.log, books[c])
  }

  /** What relinking the list does not touch: entries, requests, books and reader locks. */
  ghost predicate Sane(nodes: seq<Connection>, entries: set<Entry>, books: map<Connection, Book>)
    reads nodes`header, nodes`arguments, nodes`payload, nodes`lockAcquired, nodes`entry, nodes`state, nodes`buffer
    reads nodes`bufferIndex, nodes`remainingBytes, nodes`keepAlive, nodes`received, nodes`sent, nodes`start
    reads Caches(nodes)`log, entries`locks
  {
    && EntriesFit(entries) == true && OwnCaches(nodes, entries) == true && AllFit(nodes, entries) == true
    && Conserved(nodes, entries) == true && AllKept(nodes, books) == true
  }

  lemma KeptAfter(nodes: seq<Connection>, k: nat, r: Result, books: map<Connection, Book>)
    requires k < |nodes| && forall i: nat, j: nat :: i < j < |nodes| ==> nodes[i] != nodes[j]
    requires forall d :: d in nodes && d != nodes[k] ==> d in books && Kept(d, d.cache.oracle, d.cache.log, books[d])
    requires r in {Success, NoTransfer, NewRequest} ==>
               nodes[k] in books && Kept(nodes[k], nodes[k].cache.oracle, nodes[k].cache.log, books[nodes[k]])
    ensures AllKept(NodesAfter(nodes, k, r), books)
  {
    hide Kept;
    WithoutMembers(nodes, k);
  }

  lemma OwnAfter(nodes: seq<Connection>, k: nat, r: Result, entries: set<Entry>)
    requires k < |nodes| && OwnCaches(nodes, entries)
    ensures OwnCaches(NodesAfter(nodes, k, r), entries)
  {
    NodesAmong(nodes, k, r);
    assert forall d :: d in NodesAfter(nodes, k, r) ==> d in Members(NodesAfter(nodes, k, r)) && d in nodes;
  }

  ghost function BookOf(books: map<Connection, Book>, c: Connection): Book {
    if c in books then books[c] else BLANK
  }

  /** What a turn makes of a connection's position and book. */
  ghost predicate Turned(c: Connection, io: Io, r: Result, at: Position, at': Position, k: Book, k': Book) {
    Moves(at, io, r, at') && Told(c.cache.oracle, k, io, r, k')
  }

  lemma SaneAmong(nodes: seq<Connection>, c: Connection, entries: set<Entry>, books: map<Connection, Book>)
    requires Sane(nodes, entries, books) == true && c in nodes
    ensures EntriesFit(entries) == true && OwnCaches(nodes, entries) == true
    ensures c.cache.entries == entries && Closed(c.cache.oracle, entries) && c.cache in Caches(nodes)
    ensures Fit(c, entries) && (c.lockAcquired ==> c.entry != null && 0 < c.entry.locks)
    ensures c in books && Kept(c, c.cache.oracle, c.cache.log, books[c]) == true
    ensures CountedApart(nodes, c, true, entries) == true
    ensures forall d :: d in nodes && d != c ==> Good(d, entries, books) && d.cache != c.cache
  {
    hide Kept;
    CountBefore(nodes, c, entries);
  }

  ghost predicate Good(c: Connection, entries: set<Entry>, books: map<Connection, Book>)
    reads c, c.cache`log
  {
    Fit(c, entries) && c in books && Kept(c, c.cache.oracle, c.cache.log, books[c])
  }

  /** The connections of the list after c's step: the others as before, and c good again unless it
      has been hung up on or blocked. */
  ghost predicate Stepped(nodes: seq<Connection>, c: Connection, r: Result, entries: set<Entry>,
                          books: map<Connection, Book>)
    reads nodes, c, Caches(nodes)`log, c.cache`log, entries`locks
  {
    && EntriesFit(entries) && OwnCaches(nodes, entries)
    && (forall d :: d in nodes && d != c ==> Good(d, entries, books))
    && (r in {Success, NoTransfer, NewRequest} ==> Good(c, entries, books))
    && CountedApart(nodes, c, r != Disconnect, entries) && (!Unblocked(r) ==> !c.lockAcquired)
  }

  lemma GoodApart(nodes: seq<Connection>, c: Connection, entries: set<Entry>, books: map<Connection, Book>, k: Book)
    requires forall d :: d in nodes && d != c ==> Good(d, entries, books)
    ensures forall d :: d in nodes && d != c ==> Good(d, entries, books[c := k])
    ensures Fit(c, entries) && Kept(c, c.cache.oracle, c.cache.log, k) ==> Good(c, entries, books[c := k])
  {
    hide Fit, Kept;
  }

  lemma SteppedIs(nodes: seq<Connection>, c: Connection, r: Result, entries: set<Entry>, books: map<Connection, Book>)
    requires EntriesFit(entries) == true && OwnCaches(nodes, entries) == true
    requires forall d :: d in nodes && d != c ==> Good(d, entries, books)
    requires r in {Success, NoTransfer, NewRequest} ==> Good(c, entries, books)
    requires CountedApart(nodes, c, r != Disconnect, entries) == true && (!Unblocked(r) ==> !c.lockAcquired)
    ensures Stepped(nodes, c, r, entries, books) == true
  {
    hide Good;
  }

  lemma SaneAfter(nodes: seq<Connection>, k: nat, r: Result, entries: set<Entry>, books: map<Connection, Book>)
    requires k < |nodes| && forall i: nat, j: nat :: i < j < |nodes| ==> nodes[i] != nodes[j]
    requires Stepped(nodes, nodes[k], r, entries, books) == true
    ensures Sane(NodesAfter(nodes, k, r), entries, books) == true
  {
    hide Fit, Kept;
    FitAfter(nodes, k, r, entries);
    ConservedAfter(nodes, k, r, entries);
    KeptAfter(nodes, k, r, books);
    OwnAfter(nodes, k, r, entries);
  }

  lemma KeptJoined(nodes: seq<Connection>, c: Connection, books: map<Connection, Book>, entries: set<Entry>)
    requires AllKept(nodes, books) && c !in nodes && Kept(c, c.cache.oracle, c.cache.log, BLANK)
    requires OwnCaches(nodes, entries) && c.cache !in Caches(nodes)
    requires c.cache.entries == entries && Closed(c.cache.oracle, entries)
    ensures AllKept(nodes + [c], books[c := BLANK]) && OwnCaches(nodes + [c], entries)
  {
    hide Kept;
    forall d | d in nodes ensures d.cache != c.cache {
      assert d.cache in Caches(nodes);
    }
  }

  /** A connection without a lock changes no count by joining the list. */
  lemma HoldersJoined(nodes: seq<Connection>, c: Connection, entries: set<Entry>)
    requires !c.lockAcquired && Conserved(nodes, entries)
    ensures Conserved(nodes + [c], entries)
  {
    forall e | e in entries ensures e.locks == |Holders(nodes + [c], e)| {
      assert Holders(nodes + [c], e) == Holders(nodes, e);
    }
  }

  lemma FitJoined(nodes: seq<Connection>, c: Connection, entries: set<Entry>)
    requires AllFit(nodes, entries) && Fit(c, entries)
    ensures AllFit(nodes + [c], entries)
  {
    hide Fit;
  }

  ghost function Members(nodes: seq<Connection>): set<Connection> {
    set c | c in nodes
  }

  lemma {:induction false} MembersAtMost(nodes: seq<Connection>)
    ensures |Members(nodes)| <= |nodes|
  {
    if nodes == [] {
      assert Members(nodes) == {};
    } else {
      var n := |nodes| - 1;
      MembersAtMost(nodes[..n]);
      assert Members(nodes) == Members(nodes[..n]) + {nodes[n]};
    }
  }

  /** A turn that blocks nobody takes exactly a disconnected connection off the list, and moves
      one that begins a new request behind all others. */
  lemma MembersAfter(nodes: seq<Connection>, k: nat, r: Result)
    requires k < |nodes| && Unblocked(r) && forall i: nat, j: nat :: i < j < |nodes| ==> nodes[i] != nodes[j]
    ensures Members(NodesAfter(nodes, k, r)) == Members(nodes) - (if r == Disconnect then {nodes[k]} else {})
    ensures r == NewRequest ==> NodesAfter(nodes, k, r)[|nodes| - 1] == nodes[k]
  {
    WithoutMembers(nodes, k);
    if r == NewRequest {
      assert forall d :: d in NodesAfter(nodes, k, r) <==> d in Without(nodes, k) || d == nodes[k];
    }
  }

  lemma NodesAmong(nodes: seq<Connection>, k: nat, r: Result)
    requires k < |nodes|
    ensures Members(NodesAfter(nodes, k, r)) <= Members(nodes)
  {
    assert forall d :: d in Without(nodes, k) ==> d in nodes;
  }

  // ----- runs -----

  /** What can be seen of the server between two calls: the list, the current connection, how far
      each connection on the list is, and what every connection so far has received and sent. */
  datatype ServerState = ServerState(
    nodes: seq<Connection>, current: Connection?, at: map<Connection, Position>, books: map<Connection, Book>)

  /** What one call did: accept, perhaps a connection; or serve the connection at position k of
      the list, which came to `after`, its book to `book`. */
  datatype Event =
    | Accepted(client: Option<Connection>)
    | Served(k: nat, io: Io, result: Result, after: Position, book: Book)
  {
    predicate Blocks() { Served? && !Unblocked(result) }
  }

  /** A socket can only do what the connection's position allows; otherwise nothing moves. */
  function Actual(at: Position, io: Io): Io {
    if PossibleAt(at, io) then io else WouldBlock
  }

  /** One call of cache_server_proc that meets `tick`, from s to s'. */
  ghost predicate Follows(s: ServerState, tick: Tick, e: Event, s': ServerState) {
    match e
    case Accepted(client) =>
      && (tick.due || s.current == null) && (client.Some? <==> tick.client.Some?)
      && (client.None? ==> s' == s)
      && (client.Some? ==>
            && client.value !in s.nodes && client.value.cache.oracle == tick.client.value.oracle
            && s' == ServerState(s.nodes + [client.value], if s.nodes == [] then client.value else s.current,
                                 s.at[client.value := START], s.books[client.value := BLANK]))
    case Served(k, io, result, after, book) =>
      && !tick.due && k < |s.nodes| && s.nodes[k] == s.current && s.nodes[k] in s.at
      && io == Actual(s.at[s.nodes[k]], tick.io) && Moves(s.at[s.nodes[k]], io, result, after)
      && s.nodes[k] in s.books && Told(s.nodes[k].cache.oracle, s.books[s.nodes[k]], io, result, book)
      && s'.books == s.books[s.nodes[k] := book]
      && s'.nodes == NodesAfter(s.nodes, k, result) && s'.current == CurrentAfter(s.nodes, k, result)
      && s'.at.Keys == Members(s'.nodes) && s'.at.Keys <= s.at.Keys
      && forall d :: d in s'.at ==> s'.at[d] == if d == s.nodes[k] then after else s.at[d]
  }

  lemma ServedFollows(s: ServerState, tick: Tick, k: nat, io: Io, result: Result, after: Position, book: Book,
                      s': ServerState)
    requires !tick.due && k < |s.nodes| && s.nodes[k] == s.current
    requires s.at.Keys == Members(s.nodes) && s'.at.Keys == Members(s'.nodes)
    requires s.nodes[k] in s.at && io == Actual(s.at[s.nodes[k]], tick.io)
    requires s.nodes[k] in s.books && s'.books == s.books[s.nodes[k] := book]
    requires Turned(s.nodes[k], io, result, s.at[s.nodes[k]], after, BookOf(s.books, s.nodes[k]), book) == true
    requires s'.nodes == NodesAfter(s.nodes, k, result) && s'.current == CurrentAfter(s.nodes, k, result)
    requires forall d :: d in s.at && d in s'.at ==> s'.at[d] == if d == s.nodes[k] then after else s.at[d]
    ensures Follows(s, tick, Event.Served(k, io, result, after, book), s')
    ensures forall d :: d in s'.nodes ==> d in s.nodes
  {
    hide Moves, Told;
    NodesAmong(s.nodes, k, result);
    assert forall d :: d in s'.nodes ==> d in Members(s'.nodes);
  }

  /** Every connection on the list is there once, and has sent the responses to its requests so far, in
      order and as if it were alone, up to the middle of one. */
  ghost predicate Upheld(s: ServerState) {
    && (forall i: nat, j: nat :: i < j < |s.nodes| ==> s.nodes[i] != s.nodes[j])
    && (forall c :: c in s.nodes ==> c in s.books && InStream(c.cache.oracle, s.books[c]))
  }

  lemma DistinctAfter(nodes: seq<Connection>, k: nat, r: Result)
    requires k < |nodes| && forall i: nat, j: nat :: i < j < |nodes| ==> nodes[i] != nodes[j]
    ensures var after := NodesAfter(nodes, k, r); forall i: nat, j: nat :: i < j < |after| ==> after[i] != after[j]
  {
    var rest := Without(nodes, k);
    forall i: nat, j: nat | i < j < |rest| ensures rest[i] != rest[j] {
      assert rest[i] == nodes[if i < k then i else i + 1] && rest[j] == nodes[if j < k then j else j + 1];
    }
    WithoutOne(nodes, k);
  }

  lemma UpheldApart(nodes: seq<Connection>, nodes': seq<Connection>, c: Connection, r: Result,
                    books: map<Connection, Book>, book: Book)
    requires forall d :: d in nodes ==> d in books && InStream(d.cache.oracle, books[d])
    requires forall d :: d in nodes' ==> d in nodes
    requires if r == Disconnect then c !in nodes' else InStream(c.cache.oracle, book)
    ensures forall d :: d in nodes' ==> d in books[c := book] && InStream(d.cache.oracle, books[c := book][d])
  {
    hide InStream;
  }

  lemma AmongAfter(nodes: seq<Connection>, k: nat, r: Result)
    requires k < |nodes| && forall i: nat, j: nat :: i < j < |nodes| ==> nodes[i] != nodes[j]
    ensures forall d :: d in NodesAfter(nodes, k, r) ==> d in nodes
    ensures r == Disconnect ==> nodes[k] !in NodesAfter(nodes, k, r)
  {
    WithoutMembers(nodes, k);
  }

  lemma UpheldServed(s: ServerState, tick: Tick, e: Event, s': ServerState)
    requires Upheld(s) && e.Served? && Follows(s, tick, e, s')
    ensures Upheld(s')
  {
    hide NodesAfter, CurrentAfter, Moves, InStream, Wrote, Whole;
    DistinctAfter(s.nodes, e.k, e.result);
    AmongAfter(s.nodes, e.k, e.result);
    UpheldApart(s.nodes, s'.nodes, s.nodes[e.k], e.result, s.books, e.book);
  }

  lemma UpheldOneMore(s: ServerState, tick: Tick, e: Event, s': ServerState)
    requires Upheld(s) && Follows(s, tick, e, s')
    ensures Upheld(s')
  {
    hide Wrote, Whole, InStream, Moves;
    if e.Served? {
      UpheldServed(s, tick, e, s');
    } else if e.client.Some? {
      BlankInStream(e.client.value.cache.oracle);
    }
  }

  /** The connections accepted and not since disconnected, after calls made in these states. */
  ghost function Open(start: set<Connection>, states: seq<ServerState>, events: seq<Event>): set<Connection>
    requires |events| == |states|
  {
    if events == [] then start
    else
      var n := |events| - 1;
      var before, s, e := Open(start, states[..n], events[..n]), states[n], events[n];
      if e.Accepted? then before + (if e.client.Some? then {e.client.value} else {})
      else before - (if e.result == Disconnect && e.k < |s.nodes| then {s.nodes[e.k]} else {})
  }

  lemma OpenAtFirst(start: set<Connection>)
    ensures Open(start, [], []) == start
  {
  }

  lemma OpenOneMore(start: set<Connection>, states: seq<ServerState>, events: seq<Event>, tick: Tick, e: Event,
                    s': ServerState)
    requires |states| == |events| + 1 && Follows(states[|events|], tick, e, s') == true && !e.Blocks()
    requires var nodes := states[|events|].nodes; forall i: nat, j: nat :: i < j < |nodes| ==> nodes[i] != nodes[j]
    requires Open(start, states[..|events|], events) == Members(states[|events|].nodes)
    ensures Open(start, states, events + [e]) == Members(s'.nodes)
  {
    var nodes := states[|events|].nodes;
    assert (events + [e])[..|events|] == events;
    if e.Served? {
      MembersAfter(nodes, e.k, e.result);
    } else if e.client.Some? {
      assert Members(nodes + [e.client.value]) == Members(nodes) + {e.client.value};
    }
  }

  /** Calls that follow each other, none but the last of them blocking a connection. */
  ghost predicate RunOf(ticks: seq<Tick>, trace: seq<ServerState>, events: seq<Event>) {
    && |events| <= |ticks| && |trace| == |events| + 1
    && (forall i: nat :: i < |trace| ==> Upheld(trace[i]))
    && (forall i: nat :: i < |events| ==> Follows(trace[i], ticks[i], events[i], trace[i + 1]))
    && (forall i: nat :: i + 1 < |events| ==> !events[i].Blocks())
    && (|events| < |ticks| ==> events != [] && events[|events| - 1].Blocks())
  }

  /** A run in which nothing has been blocked so far. */
  ghost predicate Smooth(ticks: seq<Tick>, trace: seq<ServerState>, events: seq<Event>) {
    && |events| <= |ticks| && |trace| == |events| + 1
    && (forall i: nat :: i < |trace| ==> Upheld(trace[i]))
    && forall i: nat :: i < |events| ==> Follows(trace[i], ticks[i], events[i], trace[i + 1]) && !events[i].Blocks()
  }

  lemma SmoothAtFirst(ticks: seq<Tick>, s: ServerState)
    requires Upheld(s)
    ensures Smooth(ticks, [s], []) == true
  {
  }

  lemma SmoothOneMore(ticks: seq<Tick>, trace: seq<ServerState>, events: seq<Event>, e: Event, s': ServerState)
    requires Smooth(ticks, trace, events) == true && |trace| == |events| + 1 && |events| < |ticks|
    requires Follows(trace[|events|], ticks[|events|], e, s') == true && Upheld(s') == true
    ensures e.Blocks() ==> RunOf(ticks, trace + [s'], events + [e]) == true
    ensures !e.Blocks() ==> Smooth(ticks, trace + [s'], events + [e]) == true
  {
    hide Follows, Upheld;
  }

  lemma SmoothUpholds(ticks: seq<Tick>, trace: seq<ServerState>, events: seq<Event>)
    requires Smooth(ticks, trace, events) == true && |trace| == |events| + 1
    ensures Upheld(trace[|events|]) == true
  {
    hide Follows, Upheld;
  }

  lemma SmoothToTheEnd(ticks: seq<Tick>, trace: seq<ServerState>, events: seq<Event>)
    requires Smooth(ticks, trace, events) == true && |events| == |ticks|
    ensures RunOf(ticks, trace, events) == true && (events != [] ==> !events[|events| - 1].Blocks())
  {
    hide Follows, Upheld;
  }

  class CacheServer {
    const list: ConnectionList
    ghost const entries: set<Entry>
    var current: Connection?

    ghost var books: map<Connection, Book>   // of every connection so far

    // The comparisons with true keep the parts whole for the verifier.
    ghost predicate Valid()
      reads this, list, list.nodes, Caches(list.nodes), entries
    {
      && list.Valid() == true && Sane(list.nodes, entries, books) == true
      && (current == null <==> list.nodes == [])
      && (current != null ==> current in list.nodes)
    }

    /** cache_server_open, with no reader holding anything. */
    constructor (ghost entries: set<Entry>)
      requires EntriesFit(entries) && forall e :: e in entries ==> e.locks == 0
      ensures Valid() && fresh(list) && list.nodes == [] && this.entries == entries
    {
      this.entries, current, books := entries, null, map[];
      list := new ConnectionList();
      new;
      assert forall e :: e in entries ==> Holders(list.nodes, e) == {};
    }

    /** get_next_connection. */
    function NextConnection(): Connection?
      reads this, list, current
      requires current != null
    {
      if current.next != null then current.next else list.head
    }

    ghost function Snapshot(): ServerState
      reads this, list, list.nodes`state, list.nodes`bufferIndex, list.nodes`remainingBytes
    {
      ServerState(list.nodes, current, map c | c in list.nodes :: c.Where(), books)
    }

    ghost function Seat(): set<object>
      reads this
    {
      if current == null then {} else {current, current.cache} + current.cache.entries
    }

    /** Serving the current connection blocks it: the bytes received complete the sizes of a PUT the
        ring refuses to write. */
    ghost predicate WriteBlocks(io: Io)
      reads this, Seat()
    {
      current != null && current.WriteBlocks(io, current.cache)
    }

    /** Or they complete the key of a GET whose entry has all the readers it can. */
    ghost predicate ReadBlocks(io: Io)
      reads this, Seat()
    {
      current != null && current.ReadBlocks(io, current.cache)
    }

    /** A turn with this result blocks the connection exactly when it must. */
    ghost predicate BlocksAs(io: Io, r: Result)
      reads this, Seat()
    {
      (r == WriteBlocked <==> WriteBlocks(io)) && (r == ReadBlocked <==> ReadBlocks(io))
    }

    /** connection_proc on the current connection by itself. */
    method Step(io: Io, ghost k: Book) returns (result: Result, ghost k': Book)
      requires current != null && EntriesFit(entries) && Fit(current, entries) && current.Possible(io)
      requires current.cache.entries == entries && Closed(current.cache.oracle, entries)
      requires current.lockAcquired ==> 0 < current.entry.locks
      requires Kept(current, current.cache.oracle, current.cache.log, k) == true
      modifies current, current.cache`log, entries`locks
      ensures EntriesFit(entries) == true
      ensures current.previous == old(current.previous) && current.next == old(current.next)
      ensures result in {Success, NoTransfer, NewRequest} ==>
                Fit(current, entries) == true && Kept(current, current.cache.oracle, current.cache.log, k') == true
      ensures forall e :: e in entries ==>
                e.locks == old(e.locks) - old(if current.Holds(e) then 1 else 0)
                           + (if result != Disconnect && current.Holds(e) then 1 else 0)
      ensures !Unblocked(result) ==> !current.lockAcquired
      ensures Turned(current, io, result, old(current.Where()), current.Where(), k, k') == true
      ensures old(BlocksAs(io, result)) == true
    {
      hide Moves, Kept, Told, Connection.WriteBlocks, Connection.ReadBlocks;
      result, k' := Sessions.Turn(current, io, k);
    }

    /** The current connection's step, and what it leaves alone. */
    method StepBeside(io: Io) returns (result: Result, ghost k': Book)
      requires list.Valid() == true && Sane(list.nodes, entries, books) == true
      requires current != null && current in list.nodes && current.Possible(io)
      modifies current, current.cache`log, entries`locks
      ensures list.Valid() == true && EntriesFit(entries) == true
      ensures forall d :: d in list.nodes && d != current ==> Good(d, entries, books)
      ensures result in {Success, NoTransfer, NewRequest} ==>
                Fit(current, entries) == true && Kept(current, current.cache.oracle, current.cache.log, k') == true
      ensures CountedApart(list.nodes, current, result != Disconnect, entries) == true
      ensures !Unblocked(result) ==> !current.lockAcquired
      ensures Turned(current, io, result, old(current.Where()), current.Where(), BookOf(books, current), k') == true
      ensures old(BlocksAs(io, result)) == true
      ensures forall d :: d in list.nodes && d != current ==> d.Where() == old(d.Where())
    {
      hide Turned, Kept, Sane, Fit, Good, OwnCaches, Closed, Caches, EntriesFit, BlocksAs;
      ghost var nodes, c := list.nodes, current;
      SaneAmong(nodes, c, entries, books);
      ghost var others := map e | e in entries :: Others(nodes, c, e);
      result, k' := Step(io, books[c]);
      forall e | e in entries ensures Others(nodes, c, e) == others[e] {
      }
    }

    /** The current connection's step among the others on the list: these are not affected. */
    method StepAmong(io: Io) returns (result: Result)
      requires list.Valid() == true && Sane(list.nodes, entries, books) == true
      requires current != null && current in list.nodes && current.Possible(io)
      modifies list.nodes, Caches(list.nodes)`log, entries`locks, `books
      ensures list.Valid() == true && Stepped(list.nodes, current, result, entries, books) == true
      ensures current in old(books) && books == old(books)[current := BookOf(books, current)]
      ensures Turned(current, io, result, old(current.Where()), current.Where(),
                     BookOf(old(books), current), BookOf(books, current)) == true
      ensures old(BlocksAs(io, result)) == true
      ensures forall d :: d in list.nodes && d != current ==> d.Where() == old(d.Where())
    {
      hide Turned, Sane, Good, OwnCaches, Stepped, BlocksAs, ConnectionList.Valid, Fit, Kept, EntriesFit, CountedApart;
      ghost var nodes, c := list.nodes, current;
      SaneAmong(nodes, c, entries, books);
      ghost var k';
      result, k' := StepBeside(io);
      GoodApart(nodes, c, entries, books, k');
      books := books[c := k'];
      SteppedIs(nodes, c, result, entries, books);
    }

    /** The current connection's turn, before the scheduler reacts to its result. */
    method Turn(io: Io, ghost k: nat) returns (result: Result)
      requires Valid() && k < |list.nodes| && list.nodes[k] == current && current.Possible(io)
      modifies list.nodes, Caches(list.nodes)`log, entries`locks, `books
      ensures list.Valid() == true && Sane(NodesAfter(list.nodes, k, result), entries, books) == true
      ensures current in old(books) && books == old(books)[current := BookOf(books, current)]
      ensures Turned(current, io, result, old(current.Where()), current.Where(),
                     BookOf(old(books), current), BookOf(books, current)) == true
      ensures old(BlocksAs(io, result)) == true
      ensures forall d :: d in list.nodes && d != current ==> d.Where() == old(d.Where())
    {
      hide Turned, Kept, Fit, Sane, BlocksAs;
      result := StepAmong(io);
      SaneAfter(list.nodes, k, result, entries, books);
    }

    /** The list side of the switch in cache_server_proc. */
    method Reschedule(result: Result, next: Connection?, ghost k: nat)
      requires list.Valid() && k < |list.nodes| && list.nodes[k] == current && next == Successor(list.nodes, k)
      modifies `current, list`head, list`tail, list`count, list`nodes, list.nodes`previous, list.nodes`next
      ensures list.Valid() == true && list.nodes == NodesAfter(old(list.nodes), k, result)
      ensures current == CurrentAfter(old(list.nodes), k, result)
      // the same case by case
      ensures result == Success ==> list.nodes == old(list.nodes) && current == old(list.nodes)[0]
      ensures result == NoTransfer ==>
                var n := |old(list.nodes)|;
                list.nodes == old(list.nodes) && current == old(list.nodes)[if k + 1 == n then 0 else k + 1]
      ensures result == NewRequest ==>
                var nodes, n := old(list.nodes), |old(list.nodes)|;
                && list.nodes == nodes[..k] + nodes[k + 1..] + [nodes[k]]
                && current == nodes[if k + 1 == n then 0 else k + 1]
      ensures result == Disconnect ==>
                var nodes, n := old(list.nodes), |old(list.nodes)|;
                && list.nodes == nodes[..k] + nodes[k + 1..]
                && current == if n == 1 then null else nodes[if k + 1 == n then 0 else k + 1]
      ensures result in {ReadBlocked, WriteBlocked} ==>
                list.nodes == old(list.nodes)[..k] + old(list.nodes)[k + 1..] && current == old(current)
    {
      WithoutOne(list.nodes, k);
      hide Successor, Without;
      match result {
        case Success =>
          current := list.head;
        case NoTransfer =>
          current := next;
        case NewRequest =>
          list.Remove(current, k);
          list.Append(current);
          current := next;
        case Disconnect =>
          list.Remove(current, k);
          current := if next == current then null else next;
        case ReadBlocked =>
          list.Remove(current, k);
        case WriteBlocked =>
          list.Remove(current, k);
      }
    }

    /** Relinking the list touches neither the connections' requests nor the locks. */
    method Switch(result: Result, next: Connection?, ghost k: nat)
      requires list.Valid() == true && k < |list.nodes| && list.nodes[k] == current && next == Successor(list.nodes, k)
      requires Sane(NodesAfter(list.nodes, k, result), entries, books) == true
      modifies `current, list`head, list`tail, list`count, list`nodes, list.nodes`previous, list.nodes`next
      ensures list.Valid() == true && list.nodes == NodesAfter(old(list.nodes), k, result)
      ensures current == CurrentAfter(old(list.nodes), k, result)
      ensures Sane(list.nodes, entries, books) == true
    {
      hide Kept, Fit, Conserved, OwnCaches, Successor, NodesAfter, CurrentAfter, ConnectionList.Valid;
      ghost var after, es, bs := NodesAfter(list.nodes, k, result), entries, books;
      assert Sane(after, es, bs);
      Reschedule(result, next, k);
      assert list.nodes == after && books == bs;
      assert EntriesFit(es);
      assert AllFit(after, es);
      assert Conserved(after, es) == true;
      assert AllKept(after, bs);
    }

    /** cache_server_proc when it serves the current connection.  While no connection has been
        blocked there is nothing for handle_lock_release_event to wake up. */
    method Serve(io: Io, ghost k: nat) returns (result: Result)
      requires Valid() && k < |list.nodes| && list.nodes[k] == current && current.Possible(io)
      modifies `current, `books, list, list.nodes, Caches(list.nodes)`log, entries`locks
      ensures list.nodes == NodesAfter(old(list.nodes), k, result)
      ensures current == CurrentAfter(old(list.nodes), k, result)
      ensures list.Valid() == true && Sane(list.nodes, entries, books) == true
      ensures old(current) in old(books) && books == old(books)[old(current) := BookOf(books, old(current))]
      ensures Turned(old(current), io, result, old(current.Where()), old(current).Where(),
                     BookOf(old(books), old(current)), BookOf(books, old(current))) == true
      ensures old(BlocksAs(io, result)) == true
      ensures forall d :: d in old(list.nodes) && d != old(current) ==> d.Where() == old(d.Where())
    {
      hide *;
      NextIsSuccessor(k);
      var next := NextConnection();
      result := Turn(io, k);
      Switch(result, next, k);
    }

    lemma NextIsSuccessor(k: nat)
      requires Valid() && k < |list.nodes| && list.nodes[k] == current
      ensures NextConnection() == Successor(list.nodes, k)
    {
    }

    /** Serving keeps the server valid unless it blocks the connection, and it blocks exactly when
        the bytes received complete a PUT the ring refuses to write, or a GET whose entry has all
        the readers it can.  A blocked result takes the connection off the list but leaves it
        current, which no valid state allows. */
    method ServeCurrent(io: Io, ghost k: nat) returns (result: Result)
      requires Valid() && k < |list.nodes| && list.nodes[k] == current && current.Possible(io)
      modifies `current, `books, list, list.nodes, Caches(list.nodes)`log, entries`locks
      ensures list.nodes == NodesAfter(old(list.nodes), k, result)
      ensures current == CurrentAfter(old(list.nodes), k, result)
      ensures Sane(list.nodes, entries, books) == true
      ensures old(current) in old(books) && books == old(books)[old(current) := BookOf(books, old(current))]
      ensures Valid() == !(old(WriteBlocks(io)) || old(ReadBlocks(io))) == Unblocked(result)
      ensures Turned(old(current), io, result, old(current.Where()), old(current).Where(),
                     BookOf(old(books), old(current)), BookOf(books, old(current))) == true
      ensures old(BlocksAs(io, result)) == true
      ensures forall d :: d in old(list.nodes) && d != old(current) ==> d.Where() == old(d.Where())
    {
      hide Sane, NodesAfter, CurrentAfter, Successor, Moves, Told, Connection.WriteBlocks, Connection.ReadBlocks;
      ghost var nodes := list.nodes;
      result := Serve(io, k);
      CurrentPlaced(nodes, k, result);
    }

    /** Appending a connection touches neither requests nor locks. */
    method Enlist(connection: Connection)
      requires list.Valid() && connection !in list.nodes && connection.previous == null && connection.next == null
      requires Sane(list.nodes + [connection], entries, books) == true
      modifies list`head, list`tail, list`count, list`nodes, connection`previous, connection`next, list.nodes`next
      ensures list.Valid() == true && list.nodes == old(list.nodes) + [connection]
      ensures Sane(list.nodes, entries, books) == true
    {
      hide Kept, Fit, Conserved, OwnCaches;
      ghost var after, es, bs := list.nodes + [connection], entries, books;
      list.Append(connection);
      assert Conserved(after, es) == true && AllFit(after, es) && AllKept(after, bs);
    }

    /** A new connection, which holds no lock and has asked the cache for nothing. */
    method Welcome(client: Client) returns (connection: Connection)
      requires Valid() && ClientFits(Some(client), entries)
      ensures fresh(connection) && fresh(connection.cache) && connection.Where() == START
      ensures connection.previous == null && connection.next == null
      ensures connection.cache.oracle == client.oracle
      ensures Sane(list.nodes + [connection], entries, books[connection := BLANK]) == true
    {
      hide Kept;
      var cache := new Backend(client.oracle, entries);
      connection := new Connection(cache, client.header, client.arguments);
      HoldersJoined(list.nodes, connection, entries);
      FitJoined(list.nodes, connection, entries);
      KeptAtFirst(connection, client.oracle);
      KeptJoined(list.nodes, connection, books, entries);
    }

    /** accept_connection.  No client: nobody was waiting, accept failed, or the connection
        could not be set up. */
    method AcceptConnection(client: Option<Client>) returns (ghost joined: Option<Connection>)
      requires Valid() && ClientFits(client, entries)
      modifies `current, `books, list`head, list`tail, list`count, list`nodes, list.nodes`next
      ensures Valid() && (joined.Some? <==> client.Some?)
      ensures joined.None? ==> list.nodes == old(list.nodes) && current == old(current) && books == old(books)
      ensures joined.Some? ==>
                && fresh(joined.value) && fresh(joined.value.cache) && list.nodes == old(list.nodes) + [joined.value]
                && current == (if old(list.nodes) == [] then joined.value else old(current))
                && joined.value.Where() == START && joined.value.cache.oracle == client.value.oracle
                && books == old(books)[joined.value := BLANK]
    {
      hide Sane, ConnectionList.Distinct, Connection.Where;
      joined := None;
      if client.Some? {
        var connection := Welcome(client.value);
        books := books[connection := BLANK];
        Enlist(connection);
        joined := Some(connection);
        if current == null {
          current := connection;
        }
      }
    }

    lemma CurrentIsReady() returns (k: nat)
      requires Valid() && current != null
      ensures k < |list.nodes| && list.nodes[k] == current && current.Possible(WouldBlock)
    {
      assert Fit(current, entries);
      k :| k < |list.nodes| && list.nodes[k] == current;
    }

    lemma SnapshotIs()
      ensures var s := Snapshot();
              && s.nodes == list.nodes && s.current == current && s.books == books && s.at.Keys == Members(list.nodes)
              && forall d :: d in list.nodes ==> d in s.at && s.at[d] == d.Where()
    {
      hide Connection.Where;
    }

    /** cache_server_proc with a connection to serve. */
    method ServeTick(tick: Tick) returns (result: Result, ghost e: Event)
      requires Valid() && current != null && !tick.due
      modifies `current, `books, list, list.nodes, Caches(list.nodes)`log, entries`locks
      ensures e.Served? && e.result == result && Follows(old(Snapshot()), tick, e, Snapshot()) == true
      ensures forall d :: d in list.nodes ==> d in old(list.nodes)
      ensures var io := e.io; old(BlocksAs(io, result)) == true
      ensures Valid() == Unblocked(result)
      ensures Sane(list.nodes, entries, books) == true
    {
      hide Valid, Sane, NodesAfter, CurrentAfter, Turned, Follows, BlocksAs, Snapshot, Actual, PossibleAt, Moves, Told,
           Caches;
      ghost var nodes, s, c := list.nodes, Snapshot(), current;
      ghost var k := CurrentIsReady();
      SnapshotIs();
      var io := if current.Possible(tick.io) then tick.io else WouldBlock;
      ActualIs(c, tick.io);
      result := ServeCurrent(io, k);
      SnapshotIs();
      NodesAmong(nodes, k, result);
      ghost var s' := Snapshot();
      e := Event.Served(k, io, result, c.Where(), BookOf(books, c));
      ServedFollows(s, tick, k, io, result, c.Where(), BookOf(books, c), s');
    }

    lemma ActualIs(c: Connection, io: Io)
      ensures Actual(c.Where(), io) == if c.Possible(io) then io else WouldBlock
    {
    }

    /** cache_server_proc. */
    method Proc(tick: Tick) returns (result: Option<Result>, ghost e: Event)
      requires Valid() && ClientFits(tick.client, entries)
      modifies `current, `books, list, list.nodes, Caches(list.nodes)`log, entries`locks
      ensures Follows(old(Snapshot()), tick, e, Snapshot()) == true
      ensures result == if e.Served? then Some(e.result) else None
      ensures forall d :: d in list.nodes ==> d in old(list.nodes) || fresh(d)
      ensures forall b :: b in Caches(list.nodes) ==> b in old(Caches(list.nodes)) || fresh(b)
      ensures e.Served? ==> var io, r := e.io, e.result; old(BlocksAs(io, r))
      ensures Valid() <==> !e.Blocks()
      ensures Sane(list.nodes, entries, books) == true
    {
      if current == null || tick.due {
        e := AcceptTick(tick);
        return None, e;
      }
      var r;
      r, e := ServeTick(tick);
      result := Some(r);
    }

    /** cache_server_proc without anybody to serve, or when the accept period is over. */
    method AcceptTick(tick: Tick) returns (ghost e: Event)
      requires Valid() && ClientFits(tick.client, entries) && (current == null || tick.due)
      modifies `current, `books, list`head, list`tail, list`count, list`nodes, list.nodes`next
      ensures e.Accepted? && forall d :: d in list.nodes ==> d in old(list.nodes) || fresh(d)
      ensures forall b :: b in Caches(list.nodes) ==> b in old(Caches(list.nodes)) || fresh(b)
      ensures Follows(old(Snapshot()), tick, e, Snapshot()) == true
      ensures Valid()
    {
      hide Sane, ConnectionList.Valid, ConnectionList.Distinct, Connection.Where;
      ghost var s := Snapshot();
      ghost var joined := AcceptConnection(tick.client);
      e := Accepted(joined);
      hide Valid;
      assert joined.Some? ==> Snapshot().at == s.at[joined.value := START];
      assert joined.None? ==> Snapshot().at == s.at;
    }

    /** The next call of a run. */
    method RunOne(tick: Tick, ghost ticks: seq<Tick>, ghost trace: seq<ServerState>, ghost events: seq<Event>,
                  ghost start: set<Connection>) returns (blocked: bool, ghost e: Event)
      requires Valid() && ClientFits(tick.client, entries)
      requires Smooth(ticks, trace, events) == true && |trace| == |events| + 1
      requires |events| < |ticks| && ticks[|events|] == tick
      requires trace[|events|] == Snapshot() && Open(start, trace[..|events|], events) == Members(list.nodes)
      modifies `current, `books, list, list.nodes, Caches(list.nodes)`log, entries`locks
      ensures blocked == e.Blocks() && Valid() == !blocked && Sane(list.nodes, entries, books) == true
      ensures blocked ==> RunOf(ticks, trace + [Snapshot()], events + [e]) == true
      ensures !blocked ==> Smooth(ticks, trace + [Snapshot()], events + [e]) == true
      ensures !blocked ==> Open(start, trace, events + [e]) == Members(list.nodes)
      ensures forall d :: d in list.nodes ==> d in old(list.nodes) || fresh(d)
      ensures forall b :: b in Caches(list.nodes) ==> b in old(Caches(list.nodes)) || fresh(b)
    {
      hide Follows, Open, Smooth, RunOf, Sane, Members, Upheld;
      SmoothUpholds(ticks, trace, events);
      var result;
      result, e := Proc(tick);
      UpheldOneMore(trace[|events|], tick, e, Snapshot());
      SmoothOneMore(ticks, trace, events, e, Snapshot());
      if !e.Blocks() {
        OpenOneMore(start, trace, events, tick, e, Snapshot());
      }
      blocked := result.Some? && !Unblocked(result.value);
    }

    /** Any run of cache_server_proc, up to the first call that blocks a connection, if any.
        Until then the server stays valid: every lock count is the number of open connections
        holding the entry, the current connection is on the list unless the list is empty, and
        the list holds exactly the connections accepted and not yet disconnected.  Throughout,
        every connection on the list has answered what it has received as if it were alone, up to
        the middle of a response, and the server hangs up at the end of a stream (`Follows`). */
    method Run(ticks: seq<Tick>) returns (blocked: bool, ghost trace: seq<ServerState>, ghost events: seq<Event>)
      requires Valid() && forall t :: t in ticks ==> ClientFits(t.client, entries)
      modifies `current, `books, list, list.nodes, Caches(list.nodes)`log, entries`locks
      ensures RunOf(ticks, trace, events) == true && |trace| == |events| + 1
      ensures trace[0] == old(Snapshot()) && trace[|events|] == Snapshot()
      ensures blocked <==> events != [] && events[|events| - 1].Blocks()
      ensures Valid() <==> !blocked
      ensures Sane(list.nodes, entries, books) == true
      ensures !blocked ==> Members(list.nodes) == Open(Members(old(list.nodes)), trace[..|events|], events)
    {
      hide *;
      OpenAtFirst(Members(list.nodes));
      ValidUpholds();
      blocked, trace, events := false, [Snapshot()], [];
      SmoothAtFirst(ticks, Snapshot());
      assert trace[..0] == [];
      for i := 0 to |ticks|
        invariant Valid() == true && Smooth(ticks, trace, events) == true && |events| == i && |trace| == i + 1
        invariant trace[0] == old(Snapshot()) && trace[i] == Snapshot()
        invariant Open(Members(old(list.nodes)), trace[..i], events) == Members(list.nodes)
        invariant forall k: nat :: k < |list.nodes| ==> list.nodes[k] in old(list.nodes) || fresh(list.nodes[k])
        invariant forall b :: b in Caches(list.nodes) ==> b in old(Caches(list.nodes)) || fresh(b)
      {
        assert ticks[i] in ticks;
        ghost var e;
        blocked, e := RunOne(ticks[i], ticks, trace, events, Members(old(list.nodes)));
        assert forall k: nat :: k < |list.nodes| ==> list.nodes[k] in list.nodes;
        assert (trace + [Snapshot()])[..i + 1] == trace;
        trace, events := trace + [Snapshot()], events + [e];
        if blocked {
          return;
        }
      }
      SmoothToTheEnd(ticks, trace, events);
      ValidUpholds();
    }

    lemma ValidUpholds()
      requires Valid() == true
      ensures Sane(list.nodes, entries, books) == true && Upheld(Snapshot())
    {
      hide Kept, InStream;
      forall c | c in list.nodes ensures c in books && InStream(c.cache.oracle, books[c]) {
        assert Fit(c, entries);
        KeptInStream(c, c.cache.oracle, c.cache.log, books[c]);
      }
    }

    /** A connection that is sending a value, or the header in front of it, is among the readers of the
        entry it sends. */
    lemma SendersAreReaders(c: Connection)
      requires Valid() && c in list.nodes && |c.header| > 0
      requires c.state == SendingBody || (c.state == SendingHeader && c.header[0] == 2)
      ensures c.entry != null && c.entry in entries && 0 < c.entry.locks
    {
      hide Kept, OwnCaches, ConnectionList.Valid;
      assert Fit(c, entries);
      CountBefore(list.nodes, c, entries);
    }

    /** A read only blocks while all the readers an entry can have are other open connections. */
    lemma ReadBlockNeedsReaders(io: Io)
      requires Valid() && ReadBlocks(io)
      ensures |list.nodes| > LOCK_CAPACITY
    {
      hide Kept, ConnectionList.Valid;
      var nodes, c := list.nodes, current;
      var found := c.cache.oracle.found(c.cache.log + [Call.Lookup(Splice(c.payload, c.bufferIndex, io.data))]);
      assert Fit(c, entries) && c !in Holders(nodes, found);
      var all := Holders(nodes, found) + {c};
      assert all <= Members(nodes) && |all| == LOCK_CAPACITY + 1;
      assert Members(nodes) == all + (Members(nodes) - all);
      MembersAtMost(nodes);
    }
  }

  /** A single connection whose PUT is one byte short of its sizes, and a ring that refuses to
      write: the call that receives the byte empties the list, and leaves the connection current. */
  method BusyPutBreaks(server: CacheServer, c: Connection) returns (result: Result)
    requires server.Valid() && server.list.nodes == [c] && c.state == ReceivingArguments && c.remainingBytes == 1
    requires |c.header| == VALUE_RESPONSE && c.header[3] == PUT
    requires forall log: seq<Call> {:trigger c.cache.oracle.reserve(log)} :: c.cache.oracle.reserve(log) == Busy
    modifies server`current, server`books, server.list, server.list.nodes, c.cache`log, server.entries`locks
    ensures result == WriteBlocked && server.list.nodes == [] && server.current == c && !server.Valid()
  {
    hide Kept, Conserved, OwnCaches, ConnectionList.Valid, Connection.WriteBlocks, Connection.ReadBlocks, Turned, Moves,
         Told;
    assert Fit(c, server.entries) && Caches(server.list.nodes) == {c.cache};
    assert server.current in [c];
    LastSizeBlocks(c);
    result := server.ServeCurrent(Received([0]), 0);
  }

  lemma LastSizeBlocks(c: Connection)
    requires c.Well() && c.state == ReceivingArguments && c.remainingBytes == 1
    requires |c.header| == VALUE_RESPONSE && c.header[3] == PUT
    requires forall log: seq<Call> {:trigger c.cache.oracle.reserve(log)} :: c.cache.oracle.reserve(log) == Busy
    ensures c.WriteBlocks(Received([0]), c.cache)
  {
  }
}
