/** What has been put is what is found, over any run of the queue: an entry stays in the index, at its
    place and with its payload, until an operation takes it out. */
module Retention {
  import opened Bytes
  import opened EntryHeader
  import opened RingGeometry
  import opened RingIndex
  import opened RingClients
  import opened RingRun
  import opened EntryHashMap
  import opened QueueRun

  /** Step n takes the entry that was i-th oldest at first out of the index. */
  ghost predicate UnmappedAt(ops: seq<QueueOp>, trace: seq<QueueState>, views: seq<map<Key, EntryRef>>,
                             changes: seq<Change>, i: nat, n: nat)
    requires n < |ops| && |changes| == |ops| && |views| == |trace| == |ops| + 1
  {
    Unmaps(ops[n], trace[n], views[n], i - Reclaimed(changes[..n]))
  }

  ghost predicate NeverUnmapped(ops: seq<QueueOp>, trace: seq<QueueState>, views: seq<map<Key, EntryRef>>,
                                changes: seq<Change>, i: nat)
    requires |changes| == |ops| && |views| == |trace| == |ops| + 1
  {
    forall n: nat :: n < |ops| ==> !UnmappedAt(ops, trace, views, changes, i, n)
  }

  /** A lookup of `key` finds b in every state. */
  ghost predicate AlwaysFound(views: seq<map<Key, EntryRef>>, key: seq<byte>, b: Block) {
    forall n: nat :: n < |views| ==> PointsAt(views[n], key, b)
  }

  /** b is the entry p-th oldest, active, and has this payload. */
  ghost predicate Holds(s: QueueState, p: int, b: Block, data: seq<byte>) {
    0 <= p < |Live(s.r)| && Live(s.r)[p] == b && Active(s.m, b) && Payload(s.m, b) == data
  }

  /** b is in state n the entry that was i-th oldest at first, active and with this payload. */
  ghost predicate HoldsAt(trace: seq<QueueState>, changes: seq<Change>, i: nat, b: Block, data: seq<byte>, n: nat)
    requires n <= |changes| && |trace| == |changes| + 1
  {
    Holds(trace[n], i - Reclaimed(changes[..n]), b, data)
  }

  ghost predicate AlwaysHolds(trace: seq<QueueState>, changes: seq<Change>, i: nat, b: Block, data: seq<byte>)
    requires |trace| == |changes| + 1
  {
    forall n: nat :: n <= |changes| ==> HoldsAt(trace, changes, i, b, data, n)
  }

  lemma HoldsAtPrefix(trace: seq<QueueState>, changes: seq<Change>, i: nat, b: Block, data: seq<byte>, n: nat)
    requires |trace| == |changes| + 1 && n < |changes|
    ensures HoldsAt(trace, changes, i, b, data, n) ==
            HoldsAt(trace[..|changes|], changes[..|changes| - 1], i, b, data, n)
  {
    hide Holds, Reclaimed;
    assert changes[..|changes| - 1][..n] == changes[..n];
  }

  lemma HoldsAtLast(trace: seq<QueueState>, changes: seq<Change>, i: nat, b: Block, data: seq<byte>)
    requires |trace| == |changes| + 1
    ensures HoldsAt(trace, changes, i, b, data, |changes|) <==>
              Holds(trace[|changes|], i - Reclaimed(changes), b, data)
  {
    hide Holds, Reclaimed;
    assert changes[..|changes|] == changes;
  }

  lemma AlwaysHoldsAtLast(trace: seq<QueueState>, changes: seq<Change>, i: nat, b: Block, data: seq<byte>)
    requires |trace| == |changes| + 1 && AlwaysHolds(trace, changes, i, b, data)
    ensures Holds(trace[|changes|], i - Reclaimed(changes), b, data)
  {
    hide HoldsAt, Holds;
    HoldsAtLast(trace, changes, i, b, data);
  }

  lemma AlwaysHoldsOneMore(trace: seq<QueueState>, changes: seq<Change>, i: nat, b: Block, data: seq<byte>)
    requires |trace| == |changes| + 1 && changes != []
    requires AlwaysHolds(trace[..|changes|], changes[..|changes| - 1], i, b, data)
    requires Holds(trace[|changes|], i - Reclaimed(changes), b, data)
    ensures AlwaysHolds(trace, changes, i, b, data)
  {
    hide HoldsAt, Holds;
    HoldsAtLast(trace, changes, i, b, data);
    forall n: nat | n < |changes| ensures HoldsAt(trace, changes, i, b, data, n) {
      HoldsAtPrefix(trace, changes, i, b, data, n);
    }
  }

  /** What an operation reclaims it takes out of the index. */
  lemma LosesUnmaps(op: QueueOp, s: QueueState, v: map<Key, EntryRef>, p: int)
    requires Loses(op, s, p) && Live(s.r)[p].End() <= |s.m|
    ensures Unmaps(op, s, v, p)
  {
    hide Doomed, Locked;
  }

  /** What an operation does to an entry the index holds. */
  lemma HoldsOn(op: QueueOp, s: QueueState, v: map<Key, EntryRef>, s': QueueState, v': map<Key, EntryRef>,
                c: Change, keys: iset<Key>, p: int, b: Block, data: seq<byte>)
    requires Effect(op, s, s', c) == true && Retains(op, s, v, v') == true && Coherent(s', v', keys) == true
    requires Holds(s, p, b, data)
    ensures PointsAt(v', KeyBytes(s.m, b), b) <==> !Unmaps(op, s, v, p)
    ensures !Unmaps(op, s, v, p) ==> Holds(s', p - c.reclaimed, b, data)
  {
    hide RingOk, Sound, Exact, Unmaps, Loses, HeaderAt, KeyBytes, PointsAt;
    if !Unmaps(op, s, v, p) {
      if Loses(op, s, p) {
        LosesUnmaps(op, s, v, p);
      }
      assert Stays(s.m, s'.m, b) && Live(s'.r)[p - c.reclaimed] == b;
      var j := LedTo(s'.m, Live(s'.r), v', keys, KeyBytes(s.m, b), b);
      if j != p - c.reclaimed {
        OffsetsDiffer(s'.m, s'.r, j, p - c.reclaimed);
      }
    }
  }

  /** Activating an entry and putting it under its key leave its payload. */
  lemma PublishedPayload(m: seq<byte>, r: Ring, v: map<Key, EntryRef>, keys: iset<Key>, i: nat)
    requires RingOk(m, r) && Sound(m, Live(r), v, keys) && Pointers(v, |m|)
    requires i < |Live(r)| && Live(r)[i].End() <= |m| && KeyBytes(m, Live(r)[i]) in keys
    ensures var b := Live(r)[i]; Payload(PutMemory(Activated(m, b), v, KeyBytes(m, b)), b) == Payload(m, b)
  {
    hide HeaderAt, KeyBytes, Payload, ErasedMemory, Tiles, WithHeader;
    var b := Live(r)[i];
    var h := HeaderAt(m, b.offset).(active := true);
    assert Recorded(m, b) && (i > 0 ==> !Marked(m, b.offset));
    HeaderInRange(m, b.offset);
    TouchHeader(m, r, i, h);
    RewriteKeeps(m, r, i, h, v, keys);
    hide RingOk, Sound;
    EraseKeepsRing(Activated(m, b), r, v, keys, KeyBytes(m, b));
  }

  lemma NothingReclaimed(op: QueueOp, s: QueueState, s': QueueState, c: Change)
    requires !op.AllocateOp? && !op.CleanOp? && Effect(op, s, s', c)
    ensures Live(s'.r) == Live(s.r)
  {
    assert c.reclaimed > 0 ==> Loses(op, s, 0);
  }

  lemma PublishedMemory(op: QueueOp, s: QueueState, v: map<Key, EntryRef>, m': seq<byte>, v': map<Key, EntryRef>)
    requires op.PublishOp? && op.memory.Granted() && Ready(op, s, v) && Touched(op, s, v, m', v')
    ensures op.i < |Live(s.r)| && Live(s.r)[op.i].End() <= |s.m| && KeyBytes(s.m, Live(s.r)[op.i]) == op.key
    ensures Pointers(v, |s.m|) && PointsAt(v', op.key, Live(s.r)[op.i])
    ensures m' == PutMemory(Activated(s.m, Live(s.r)[op.i]), v, op.key)
  {
    hide HeaderAt, KeyBytes, PutMemory, Activated, Pointers;
  }

  /** A publishing with memory for the index: the entry is then found under its key, and its payload is
      what has been received. */
  lemma PublishedIsFound(op: QueueOp, s: QueueState, v: map<Key, EntryRef>, s': QueueState, v': map<Key, EntryRef>,
                         c: Change, keys: iset<Key>)
    requires op.PublishOp? && op.memory.Granted() && op.key in keys && Ready(op, s, v) == true
    requires RingOk(s.m, s.r) && Sound(s.m, Live(s.r), v, keys)
    requires RingOk(s'.m, s'.r) && Sound(s'.m, Live(s'.r), v', keys)
    requires Effect(op, s, s', c) && Touched(op, s, v, s'.m, v') == true
    ensures op.i < |Live(s.r)| && Live(s.r)[op.i].End() <= |s.m| && PointsAt(v', op.key, Live(s.r)[op.i])
    ensures Holds(s', op.i, Live(s.r)[op.i], Payload(s.m, Live(s.r)[op.i]))
  {
    hide RingOk, Sound, HeaderAt, KeyBytes, Payload, PointsAt, PutMemory, Activated, Ready, Touched, Effect, Pointers;
    NothingReclaimed(op, s, s', c);
    PublishedMemory(op, s, v, s'.m, v');
    PublishedPayload(s.m, s.r, v, keys, op.i);
    var i := LedTo(s'.m, Live(s'.r), v', keys, op.key, Live(s.r)[op.i]);
    if i != op.i {
      OffsetsDiffer(s'.m, s'.r, i, op.i);
    }
  }

  lemma IndexedPrefix(ops: seq<QueueOp>, trace: seq<QueueState>, views: seq<map<Key, EntryRef>>, keys: iset<Key>)
    requires Indexed(ops, trace, views, keys) == true && ops != []
    ensures |views| == |trace| == |ops| + 1
    ensures Indexed(ops[..|ops| - 1], trace[..|ops|], views[..|ops|], keys) == true
    ensures Retains(ops[|ops| - 1], trace[|ops| - 1], views[|ops| - 1], views[|ops|]) == true
    ensures Coherent(trace[|ops|], views[|ops|], keys) == true
  {
    hide Coherent, Retains;
  }

  lemma NeverUnmappedPrefix(ops: seq<QueueOp>, trace: seq<QueueState>, views: seq<map<Key, EntryRef>>,
                            changes: seq<Change>, i: nat)
    requires |changes| == |ops| && |views| == |trace| == |ops| + 1 && ops != []
    ensures var n := |ops| - 1;
            NeverUnmapped(ops, trace, views, changes, i) <==>
              && NeverUnmapped(ops[..n], trace[..n + 1], views[..n + 1], changes[..n], i)
              && !Unmaps(ops[n], trace[n], views[n], i - Reclaimed(changes[..n]))
  {
    hide Unmaps, Reclaimed;
    var n := |ops| - 1;
    var ops', trace', views', changes' := ops[..n], trace[..n + 1], views[..n + 1], changes[..n];
    forall k: nat | k < n
      ensures UnmappedAt(ops', trace', views', changes', i, k) == UnmappedAt(ops, trace, views, changes, i, k)
    {
      assert changes'[..k] == changes[..k];
    }
    assert UnmappedAt(ops, trace, views, changes, i, n) ==
           Unmaps(ops[n], trace[n], views[n], i - Reclaimed(changes'));
    hide UnmappedAt;
    if NeverUnmapped(ops, trace, views, changes, i) {
      forall k: nat | k < n ensures !UnmappedAt(ops', trace', views', changes', i, k) {
        assert !UnmappedAt(ops, trace, views, changes, i, k);
      }
    }
  }

  lemma AlwaysFoundPrefix(views: seq<map<Key, EntryRef>>, key: seq<byte>, b: Block)
    requires views != []
    ensures AlwaysFound(views, key, b) <==>
              AlwaysFound(views[..|views| - 1], key, b) && PointsAt(views[|views| - 1], key, b)
  {
    hide PointsAt;
    var init := views[..|views| - 1];
    if AlwaysFound(views, key, b) {
      forall n: nat | n < |init| ensures PointsAt(init[n], key, b) {
        assert PointsAt(views[n], key, b);
      }
    }
    if AlwaysFound(init, key, b) && PointsAt(views[|views| - 1], key, b) {
      forall n: nat | n < |views| ensures PointsAt(views[n], key, b) {
        assert n < |init| ==> PointsAt(init[n], key, b);
      }
    }
  }

  /** An entry that is active, and therefore in the index, is found under its key in every state of the
      run if and only if no operation on the way takes it out: no allocation gets to it, no cleaning
      reclaims it, its key is not erased, and no other entry is published under it.  And then it stays
      at its place, active and with its payload. */
  lemma {:induction false} PutIsFound(
      ops: seq<QueueOp>, trace: seq<QueueState>, views: seq<map<Key, EntryRef>>, changes: seq<Change>,
      keys: iset<Key>, i: nat)
    requires |changes| == |ops| && |views| == |trace| == |ops| + 1
    requires Performed(ops, trace, changes) == true && Indexed(ops, trace, views, keys) == true
    requires i < |Live(trace[0].r)| && Active(trace[0].m, Live(trace[0].r)[i])
    ensures var b := Live(trace[0].r)[i];
            && (AlwaysFound(views, KeyBytes(trace[0].m, b), b) <==> NeverUnmapped(ops, trace, views, changes, i))
            && (NeverUnmapped(ops, trace, views, changes, i) ==>
                  AlwaysHolds(trace, changes, i, b, Payload(trace[0].m, b)))
    decreases |ops|
  {
    hide *;
    var b, m := Live(trace[0].r)[i], trace[0].m;
    ActiveFits(m, b);
    if ops == [] {
      FoundAtFirst(trace, views, changes, keys, i);
    } else {
      var n := |ops| - 1;
      var ops', trace', views', changes' := ops[..n], trace[..n + 1], views[..n + 1], changes[..n];
      PerformedPrefix(ops, trace, changes);
      IndexedPrefix(ops, trace, views, keys);
      PutIsFound(ops', trace', views', changes', keys, i);
      NeverUnmappedPrefix(ops, trace, views, changes, i);
      AlwaysFoundPrefix(views, KeyBytes(m, b), b);
      ReclaimedLast(changes);
      if NeverUnmapped(ops', trace', views', changes', i) {
        AlwaysHoldsAtLast(trace', changes', i, b, Payload(m, b));
        HoldsKey(m, trace[n], i - Reclaimed(changes'), b);
        HoldsOn(ops[n], trace[n], views[n], trace[n + 1], views[n + 1], changes[n], keys, i - Reclaimed(changes'), b,
                Payload(m, b));
        if NeverUnmapped(ops, trace, views, changes, i) {
          AlwaysHoldsOneMore(trace, changes, i, b, Payload(m, b));
        }
      }
    }
  }

  lemma ActiveFits(m: seq<byte>, b: Block)
    requires Active(m, b)
    ensures b.End() <= |m|
  {
  }

  lemma FoundAtFirst(trace: seq<QueueState>, views: seq<map<Key, EntryRef>>, changes: seq<Change>, keys: iset<Key>,
                     i: nat)
    requires |changes| == 0 && |views| == |trace| == 1 && Indexed([], trace, views, keys) == true
    requires i < |Live(trace[0].r)| && Active(trace[0].m, Live(trace[0].r)[i])
    ensures var b := Live(trace[0].r)[i];
            && AlwaysFound(views, KeyBytes(trace[0].m, b), b) && NeverUnmapped([], trace, views, changes, i)
            && AlwaysHolds(trace, changes, i, b, Payload(trace[0].m, b))
  {
    hide RingOk, Sound, HeaderAt, KeyBytes;
  }

  lemma HoldsKey(m: seq<byte>, s: QueueState, p: int, b: Block)
    requires b.End() <= |m| && Holds(s, p, b, Payload(m, b))
    ensures KeyBytes(s.m, b) == KeyBytes(m, b)
  {
    PayloadGivesKey(m, s.m, b);
  }
}
