/** Runs of the ring: what one operation may do to the live entries, and what therefore
    holds over any sequence of operations. */
module RingRun {
  import opened Bytes
  import opened RingGeometry
  import opened RingIndex

  /** Buffer content and layout between two operations. */
  datatype QueueState = QueueState(m: seq<byte>, r: Ring)

  /** An entry stays where it is; its payload only changes while it is inactive and no reader
      holds it. */
  ghost predicate Stays(m: seq<byte>, m': seq<byte>, b: Block) {
    && b.End() <= |m| && b.End() <= |m'|
    && (Active(m, b) || Locked(m, b) ==> Payload(m', b) == Payload(m, b))
  }

  /** One operation reclaims some of the oldest entries, none of them locked, and appends at
      most one new entry, which overlaps no surviving one. */
  ghost predicate StepBy(s: QueueState, s': QueueState, k: nat, added: seq<Block>) {
    && k <= |Live(s.r)| && |added| <= 1
    && Live(s'.r) == Live(s.r)[k..] + added
    && (forall i: nat :: i < k ==> !Locked(s.m, Live(s.r)[i]))
    && (forall i: nat :: k <= i < |Live(s.r)| ==> Stays(s.m, s'.m, Live(s.r)[i]))
    && (forall i: nat, j: nat :: k <= i < |Live(s.r)| && j < |added| ==>
          Apart(added[j].offset, added[j].End(), Live(s.r)[i]))
  }

  /** An operation that neither reclaims nor adds. */
  ghost predicate Quiet(s: QueueState, s': QueueState) {
    StepBy(s, s', 0, [])
  }

  ghost predicate Step(s: QueueState, s': QueueState) {
    exists k: nat, added: seq<Block> :: StepBy(s, s', k, added)
  }

  ghost predicate Run(trace: seq<QueueState>) {
    |trace| > 0 && forall i: nat :: i + 1 < |trace| ==> Step(trace[i], trace[i + 1])
  }

  /** No state of the run has b live and unlocked. */
  ghost predicate HeldThroughout(trace: seq<QueueState>, b: Block) {
    forall i: nat :: i < |trace| && b in Live(trace[i].r) ==> Locked(trace[i].m, b)
  }

  lemma HeldStep(s: QueueState, s': QueueState, b: Block)
    requires Step(s, s') && b in Live(s.r) && Locked(s.m, b)
    ensures b in Live(s'.r)
    ensures b.End() <= |s.m| && b.End() <= |s'.m| && Payload(s'.m, b) == Payload(s.m, b)
    ensures forall c :: c in Live(s'.r) ==> c in Live(s.r) || Apart(c.offset, c.End(), b)
  {
    var k: nat, added: seq<Block> :| StepBy(s, s', k, added);
    var i: nat :| i < |Live(s.r)| && Live(s.r)[i] == b;
    assert i >= k;
    assert Live(s'.r)[i - k] == b;
    assert Stays(s.m, s'.m, b);
    forall c | c in Live(s'.r) ensures c in Live(s.r) || Apart(c.offset, c.End(), b) {
      if c in added {
        var j: nat :| j < |added| && added[j] == c;
      } else {
        assert c in Live(s.r)[k..];
      }
    }
  }

  /** An entry whose lock count never reaches zero is never reclaimed, over any run: it is
      live in every state. */
  lemma {:induction false} HeldNeverReclaimed(trace: seq<QueueState>, b: Block)
    requires Run(trace) && b in Live(trace[0].r) && HeldThroughout(trace, b)
    ensures forall i: nat :: i < |trace| ==> b in Live(trace[i].r)
    decreases |trace|
  {
    if |trace| > 1 {
      assert Step(trace[0], trace[1]);
      HeldStep(trace[0], trace[1], b);
      var rest := trace[1..];
      forall i: nat | i + 1 < |rest| ensures Step(rest[i], rest[i + 1]) {
        assert Step(trace[i + 1], trace[i + 2]);
      }
      HeldNeverReclaimed(rest, b);
      forall i: nat | i < |trace| ensures b in Live(trace[i].r) {
        if i > 0 {
          assert trace[i] == rest[i - 1];
        }
      }
    }
  }

  /** Nor does any step of such a run hand out a block that overlaps it, or change the
      payload readers are sending, whether the entry is still mapped or has been retired. */
  lemma HeldUndisturbed(trace: seq<QueueState>, b: Block, i: nat)
    requires Run(trace) && b in Live(trace[0].r) && HeldThroughout(trace, b) && i + 1 < |trace|
    ensures forall c :: c in Live(trace[i + 1].r) ==> c in Live(trace[i].r) || Apart(c.offset, c.End(), b)
    ensures b.End() <= |trace[i].m| && b.End() <= |trace[i + 1].m|
    ensures Payload(trace[i + 1].m, b) == Payload(trace[i].m, b)
  {
    HeldNeverReclaimed(trace, b);
    assert Step(trace[i], trace[i + 1]);
    HeldStep(trace[i], trace[i + 1], b);
  }

  /** So what readers send, from whichever state of the run on, is what was there at first. */
  lemma {:induction false} HeldReadsTheSame(trace: seq<QueueState>, b: Block, j: nat)
    requires Run(trace) && b in Live(trace[0].r) && HeldThroughout(trace, b) && j < |trace|
    ensures b.End() <= |trace[0].m| && b.End() <= |trace[j].m|
    ensures Payload(trace[j].m, b) == Payload(trace[0].m, b)
    decreases j
  {
    if j > 0 {
      HeldReadsTheSame(trace, b, j - 1);
      HeldUndisturbed(trace, b, j - 1);
    }
  }

  /** What each operation of a run reclaimed and added. */
  datatype Change = Change(reclaimed: nat, added: seq<Block>)

  ghost predicate RunBy(trace: seq<QueueState>, changes: seq<Change>) {
    && |trace| == |changes| + 1
    && forall i: nat :: i < |changes| ==> StepBy(trace[i], trace[i + 1], changes[i].reclaimed, changes[i].added)
  }

  ghost function Reclaimed(changes: seq<Change>): nat {
    if changes == [] then 0 else Reclaimed(changes[..|changes| - 1]) + changes[|changes| - 1].reclaimed
  }

  ghost function Added(changes: seq<Change>): seq<Block> {
    if changes == [] then [] else Added(changes[..|changes| - 1]) + changes[|changes| - 1].added
  }

  /** Entries leave strictly in the order they came: after any run the live entries are what
      was live at first and everything added since, less as many of the first of these as
      have been reclaimed. */
  lemma {:induction false} FirstInFirstOut(trace: seq<QueueState>, changes: seq<Change>)
    requires RunBy(trace, changes)
    ensures Reclaimed(changes) <= |Live(trace[0].r) + Added(changes)|
    ensures Live(trace[|changes|].r) == (Live(trace[0].r) + Added(changes))[Reclaimed(changes)..]
    decreases |changes|
  {
    if changes != [] {
      var n := |changes| - 1;
      var last, init := changes[n], changes[..n];
      FirstInFirstOut(trace[..n + 1], init);
      assert StepBy(trace[n], trace[n + 1], last.reclaimed, last.added);
      var k := Reclaimed(init);
      var all := Live(trace[0].r) + Added(init);
      assert Live(trace[0].r) + Added(changes) == all + last.added;
      assert all[k..][last.reclaimed..] == all[k + last.reclaimed..];
      assert (all + last.added)[k + last.reclaimed..] == all[k + last.reclaimed..] + last.added;
    }
  }
}
