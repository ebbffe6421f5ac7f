/** The hash map as a client sees it that never keeps more than 65535 items: a finite map, whatever the
    hashes, with its numbers of buckets. */
module Dictionary {
  import opened Wrappers
  import opened BitMask
  import opened RobinHood
  import opened Crowding
  import opened HashMap

  /** What an operation answers, and what it makes of items, number of buckets and capacity. */
  ghost predicate Serves<K, T>(kg: Keying<K, T>, op: Op<T>, answer: Answer<T>, s: Model<K, T>, s': Model<K, T>) {
    match op
    case SetOp(x, memory) =>
      var key, full := kg.keyOf(x), 4 * |s.items| == 3 * s.size;
      if full && !(memory.header && memory.buckets) then answer == Answer(None, true) && s' == s
      else
        && answer == Answer(if key in s.items then Some(s.items[key]) else None, false)
        && s' == Model(s.items[key := x], if full then 2 * s.size else s.size, s.cap)
    case GetOp(x) =>
      var key := kg.keyOf(x);
      s' == s && answer == Answer(if key in s.items then Some(s.items[key]) else None, false)
    case DeleteOp(x, memory) =>
      var key := kg.keyOf(x);
      var sparse := key in s.items && s.size > s.cap && 10 * |s'.items| <= s.size;
      && answer == Answer(if key in s.items then Some(s.items[key]) else None, false)
      && s' == Model(s.items - {key}, if sparse && memory.header && memory.buckets then s.size / 2 else s.size, s.cap)
    case ClearOp(updateCap, _) =>
      var cap := if updateCap then s.size else s.cap;
      answer == Answer(None, false) && s' == Model(map[], cap, cap)
  }

  lemma AfterServes<K, T>(kg: Keying<K, T>, op: Op<T>, s: Model<K, T>)
    requires s.size % 4 == 0
    ensures Serves(kg, op, AnswerOf(kg, s, op), s, After(kg, s, op)) == true
  {
  }

  /** An operation leaves at most 65535 items, unless it sets a new key beside so many. */
  lemma FewAfter<K, T>(kg: Keying<K, T>, op: Op<T>, s: Model<K, T>)
    requires |s.items| <= 65535 && !(op.SetOp? && |s.items| == 65535 && kg.keyOf(op.item) !in s.items)
    ensures |After(kg, s, op).items| <= 65535
  {
    match op {
      case SetOp(x, _) =>
        if kg.keyOf(x) in s.items {
          assert s.items[kg.keyOf(x) := x].Keys == s.items.Keys;
        }
      case GetOp(_) =>
      case DeleteOp(x, _) =>
        SubsetSize((s.items - {kg.keyOf(x)}).Keys, s.items.Keys);
      case ClearOp(_, _) =>
    }
  }

  /** A map of few items is far from the largest number of buckets when it has to grow. */
  lemma FewGrow<K(!new), T(!new)>(hm: HashMap<K, T>)
    requires hm.Valid() && hm.count <= 65535
    ensures hm.nbuckets <= hm.buckets.Length && hm.AsModel().size % 4 == 0 && |hm.AsModel().items| == hm.count
    ensures forall op :: MayGrow(hm.AsModel(), op)
  {
    hm.CountIsSize();
    PowerDividesBy4(hm.nbuckets);
  }

  /** One operation. */
  method Serve<K(!new), T(!new)>(hm: HashMap<K, T>, op: Op<T>) returns (answer: Answer<T>)
    requires hm.Valid() && hm.count <= 65535 && InPlay(hm.kg, op)
    requires !(op.SetOp? && hm.count == 65535 && hm.kg.keyOf(op.item) !in hm.View())
    modifies hm, hm.buckets
    ensures hm.Valid() && hm.count <= 65535 && (hm.buckets == old(hm.buckets) || fresh(hm.buckets))
    ensures Serves(hm.kg, op, answer, old(hm.AsModel()), hm.AsModel()) == true
  {
    hide HashMap.Valid, After, AnswerOf, Spread, InPlay, MayGrow, Serves;
    FewGrow(hm);
    FewAfter(hm.kg, op, hm.AsModel());
    AfterServes(hm.kg, op, hm.AsModel());
    FewSpread(hm.kg, After(hm.kg, hm.AsModel(), op).items, After(hm.kg, hm.AsModel(), op).size);
    answer := Apply(hm, op);
    hm.CountIsSize();
  }

  /** Whether an operation would set a key that is not there beside 65535 others. */
  method TooMany<K(!new), T(!new)>(hm: HashMap<K, T>, op: Op<T>) returns (stop: bool)
    requires hm.Valid() && InPlay(hm.kg, op)
    ensures stop <==> op.SetOp? && hm.count == 65535 && hm.kg.keyOf(op.item) !in hm.View()
  {
    if op.SetOp? && hm.count == 65535 {
      var found := hm.Get(op.item);
      return found.None?;
    }
    return false;
  }

  /** Any sequence of operations, as long as no more than 65535 items would be there: the table answers
      as a finite map does, and its number of buckets doubles exactly when three quarters of them are
      taken and halves exactly when a tenth.  `states` are what it holds between the operations. */
  method Use<K(!new), T(!new)>(hm: HashMap<K, T>, ops: seq<Op<T>>)
      returns (n: nat, answers: seq<Answer<T>>, ghost states: seq<Model<K, T>>)
    requires hm.Valid() && hm.count <= 65535 && forall op :: op in ops ==> InPlay(hm.kg, op)
    modifies hm, hm.buckets
    ensures n <= |ops| && |answers| == n && |states| == n + 1
    ensures hm.Valid() && hm.nbuckets <= hm.buckets.Length
    ensures states[0] == old(hm.AsModel()) && states[n] == hm.AsModel() && hm.count == |states[n].items|
    ensures forall i: nat :: i < n ==> Serves(hm.kg, ops[i], answers[i], states[i], states[i + 1])
    ensures n < |ops| ==>
              ops[n].SetOp? && |states[n].items| == 65535 && hm.kg.keyOf(ops[n].item) !in states[n].items
  {
    hide HashMap.Valid, Serves, InPlay, Contents;
    FewGrow(hm);
    n, answers, states := 0, [], [hm.AsModel()];
    while n < |ops|
      invariant n <= |ops| && |answers| == n && |states| == n + 1
      invariant hm.Valid() && hm.count <= 65535 && (hm.buckets == old(hm.buckets) || fresh(hm.buckets))
      invariant hm.nbuckets <= hm.buckets.Length && hm.count == |hm.AsModel().items|
      invariant states[0] == old(hm.AsModel()) && states[n] == hm.AsModel()
      invariant forall i: nat :: i < n ==> Serves(hm.kg, ops[i], answers[i], states[i], states[i + 1])
    {
      assert ops[n] in ops;
      var stop := TooMany(hm, ops[n]);
      if stop {
        return;
      }
      var answer := Serve(hm, ops[n]);
      FewGrow(hm);
      n, answers, states := n + 1, answers + [answer], states + [hm.AsModel()];
    }
  }
}
