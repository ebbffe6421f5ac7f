/** The bucket array of src/hashmap.c as a value: the Robin Hood invariant and
    what single-bucket writes do to it.  A table is the sequence of its buckets;
    slots are counted circularly with `Next` and `Dist`. */
module RobinHood {
  import opened BitMask

  /** `dib` is the distance to the home slot plus one; 0 marks an empty bucket. */
  datatype Bucket<+T> = Bucket(hash: nat, dib: nat, item: T)

  /** How a map tells items apart: the (truncated) hash, the key an item stands
      for, and the items in play. */
  datatype Keying<!K, !T> = Keying(hash: T -> nat, keyOf: T -> K, universe: iset<T>)

  ghost predicate SameKeySameHash<K, T(!new)>(kg: Keying<K, T>) {
    forall a, b :: a in kg.universe && b in kg.universe && kg.keyOf(a) == kg.keyOf(b) ==> kg.hash(a) == kg.hash(b)
  }

  function Next(i: nat, n: nat): (r: nat)
    requires i < n
    ensures r < n
  {
    if i + 1 == n then 0 else i + 1
  }

  function Prev(i: nat, n: nat): (r: nat)
    requires i < n
    ensures r < n && Next(r, n) == i
  {
    if i == 0 then n - 1 else i - 1
  }

  /** Number of forward steps from one slot to another. */
  function Dist(from: nat, to: nat, n: nat): (d: nat)
    requires from < n && to < n
    ensures d < n
  {
    if from <= to then to - from else n - from + to
  }

  function Home(hash: nat, n: nat): (h: nat)
    requires 0 < n
    ensures h < n
  {
    And(hash, n - 1)
  }

  /** A home slot is the remainder of the hash. */
  lemma HomeIs(hash: nat, n: nat)
    requires IsPowerOfTwo(n)
    ensures Home(hash, n) == hash % n
  {
    MaskIsRemainder(hash, n);
  }

  /** `(i + 1) & mask` is the circular successor. */
  lemma MaskedSuccessor(i: nat, n: nat)
    requires IsPowerOfTwo(n) && i < n
    ensures And(i + 1, n - 1) == Next(i, n)
  {
    if i + 1 == n {
      MaskWraps(n);
    } else {
      MaskKeeps(i + 1, n);
    }
  }

  // ----- the invariant -----

  /** The bucket after slot i is at most one further from home. */
  ghost predicate StepAt<T>(t: seq<Bucket<T>>, i: nat)
    requires i < |t|
  {
    t[Next(i, |t|)].dib <= t[i].dib + 1
  }

  ghost predicate Stepped<T>(t: seq<Bucket<T>>) {
    forall i: nat {:trigger StepAt(t, i)} :: i < |t| ==> StepAt(t, i)
  }

  ghost predicate PlacedAt<T>(b: Bucket<T>, i: nat, n: nat)
    requires i < n
  {
    b.dib == Dist(Home(b.hash, n), i, n) + 1
  }

  ghost predicate InPlace<T>(t: seq<Bucket<T>>) {
    forall i: nat :: i < |t| && t[i].dib > 0 ==> PlacedAt(t[i], i, |t|)
  }

  ghost predicate Known<K, T>(kg: Keying<K, T>, b: Bucket<T>) {
    b.item in kg.universe && b.hash == kg.hash(b.item)
  }

  ghost predicate AllKnown<K, T>(kg: Keying<K, T>, t: seq<Bucket<T>>) {
    forall i: nat :: i < |t| && t[i].dib > 0 ==> Known(kg, t[i])
  }

  ghost predicate Unique<K, T>(kg: Keying<K, T>, t: seq<Bucket<T>>) {
    forall i: nat, j: nat ::
      i < j < |t| && t[i].dib > 0 && t[j].dib > 0 ==> kg.keyOf(t[i].item) != kg.keyOf(t[j].item)
  }

  /** No occupied slot other than `except` carries this key. */
  ghost predicate Absent<K, T>(kg: Keying<K, T>, t: seq<Bucket<T>>, k: K, except: int) {
    forall i: nat :: i < |t| && i != except && t[i].dib > 0 ==> kg.keyOf(t[i].item) != k
  }

  /** Everything that holds of a table except the step rule. */
  ghost predicate Stored<K, T>(kg: Keying<K, T>, t: seq<Bucket<T>>) {
    && |t| > 0
    && InPlace(t)
    && AllKnown(kg, t)
    && Unique(kg, t)
  }

  ghost predicate Table<K, T>(kg: Keying<K, T>, t: seq<Bucket<T>>) {
    Stored(kg, t) && Stepped(t)
  }

  // ----- abstraction -----

  ghost function Count<T>(t: seq<Bucket<T>>): nat {
    if t == [] then 0
    else Count(t[..|t| - 1]) + (if t[|t| - 1].dib > 0 then 1 else 0)
  }

  /** The finite map a table stands for. */
  ghost function Contents<K, T>(kg: Keying<K, T>, t: seq<Bucket<T>>): map<K, T> {
    if t == [] then map[]
    else
      var b := t[|t| - 1];
      var m := Contents(kg, t[..|t| - 1]);
      if b.dib > 0 then m[kg.keyOf(b.item) := b.item] else m
  }

  /** The content of one bucket as a map of at most one pair. */
  ghost function Pair<K, T>(kg: Keying<K, T>, b: Bucket<T>): map<K, T> {
    if b.dib > 0 then map[kg.keyOf(b.item) := b.item] else map[]
  }

  lemma {:induction false} ContentsOnly<K, T>(kg: Keying<K, T>, t: seq<Bucket<T>>, k: K) returns (i: nat)
    requires k in Contents(kg, t)
    ensures i < |t| && t[i].dib > 0 && kg.keyOf(t[i].item) == k && Contents(kg, t)[k] == t[i].item
  {
    var b := t[|t| - 1];
    if b.dib > 0 && kg.keyOf(b.item) == k {
      i := |t| - 1;
    } else {
      i := ContentsOnly(kg, t[..|t| - 1], k);
    }
  }

  lemma {:induction false} ContentsHas<K, T>(kg: Keying<K, T>, t: seq<Bucket<T>>, i: nat)
    requires Unique(kg, t) && i < |t| && t[i].dib > 0
    ensures kg.keyOf(t[i].item) in Contents(kg, t)
    ensures Contents(kg, t)[kg.keyOf(t[i].item)] == t[i].item
  {
    if i < |t| - 1 {
      var init := t[..|t| - 1];
      assert init[i] == t[i];
      ContentsHas(kg, init, i);
    }
  }

  lemma AbsentIsMissing<K, T>(kg: Keying<K, T>, t: seq<Bucket<T>>, k: K)
    requires Absent(kg, t, k, -1)
    ensures k !in Contents(kg, t)
  {
    if k in Contents(kg, t) {
      var i := ContentsOnly(kg, t, k);
    }
  }

  lemma MissingIsAbsent<K, T>(kg: Keying<K, T>, t: seq<Bucket<T>>, k: K)
    requires Unique(kg, t) && k !in Contents(kg, t)
    ensures Absent(kg, t, k, -1)
  {
    forall i: nat | i < |t| && t[i].dib > 0 ensures kg.keyOf(t[i].item) != k {
      ContentsHas(kg, t, i);
    }
  }

  /** The map has as many keys as the table has occupied slots. */
  lemma {:induction false} ContentsSize<K, T>(kg: Keying<K, T>, t: seq<Bucket<T>>)
    requires Unique(kg, t)
    ensures |Contents(kg, t)| == Count(t)
  {
    if t != [] {
      var init, b := t[..|t| - 1], t[|t| - 1];
      ContentsSize(kg, init);
      if b.dib > 0 {
        AbsentIsMissing(kg, init, kg.keyOf(b.item));
      }
    }
  }

  lemma {:induction false} CountUpdate<T>(t: seq<Bucket<T>>, i: nat, b: Bucket<T>)
    requires i < |t|
    ensures Count(t[i := b]) == Count(t) - (if t[i].dib > 0 then 1 else 0) + (if b.dib > 0 then 1 else 0)
  {
    var u := t[i := b];
    var last := |t| - 1;
    if i == last {
      assert u[..last] == t[..last];
    } else {
      CountUpdate(t[..last], i, b);
      assert u[..last] == t[..last][i := b];
    }
  }

  lemma ContentsLast<K, T>(kg: Keying<K, T>, t: seq<Bucket<T>>)
    requires t != []
    ensures Contents(kg, t) == Contents(kg, t[..|t| - 1]) + Pair(kg, t[|t| - 1])
  {
  }

  lemma Reordered<K, T>(m: map<K, T>, gone: set<K>, added: map<K, T>, last: map<K, T>)
    requires last.Keys !! gone && last.Keys !! added.Keys
    ensures (m - gone + added) + last == (m + last) - gone + added
  {
  }

  lemma Exchanged<K, T>(m: map<K, T>, was: map<K, T>, added: map<K, T>)
    requires m.Keys !! was.Keys
    ensures m + added == (m + was) - was.Keys + added
  {
  }

  /** Overwriting one bucket takes its old pair out of the map and puts the new one in. */
  lemma {:induction false} ContentsUpdate<K, T>(kg: Keying<K, T>, t: seq<Bucket<T>>, i: nat, b: Bucket<T>)
    requires i < |t| && Unique(kg, t)
    requires b.dib > 0 ==> Absent(kg, t, kg.keyOf(b.item), i)
    ensures Contents(kg, t[i := b]) == Contents(kg, t) - Pair(kg, t[i]).Keys + Pair(kg, b)
    ensures Unique(kg, t[i := b])
  {
    var u, last := t[i := b], |t| - 1;
    var init := t[..last];
    ContentsLast(kg, t);
    ContentsLast(kg, u);
    if i == last {
      assert u[..last] == init;
      if t[i].dib > 0 {
        AbsentIsMissing(kg, init, kg.keyOf(t[i].item));
      }
      Exchanged(Contents(kg, init), Pair(kg, t[i]), Pair(kg, b));
    } else {
      ContentsUpdate(kg, init, i, b);
      assert u[..last] == init[i := b] && u[last] == t[last];
      assert Pair(kg, t[last]).Keys !! Pair(kg, t[i]).Keys && Pair(kg, t[last]).Keys !! Pair(kg, b).Keys;
      hide Contents, Pair;
      Reordered(Contents(kg, init), Pair(kg, t[i]).Keys, Pair(kg, b), Pair(kg, t[last]));
    }
  }

  // ----- consequences of the step rule -----

  /** Going back from a bucket, dib falls by at most one a step. */
  lemma {:induction false} WalkBack<T>(t: seq<Bucket<T>>, s: nat, j: nat)
    requires Stepped(t) && s < |t| && j < |t|
    ensures t[s].dib >= t[j].dib - Dist(s, j, |t|)
    decreases Dist(s, j, |t|)
  {
    if s != j {
      assert StepAt(t, s);
      WalkBack(t, Next(s, |t|), j);
    }
  }

  lemma {:induction false} FindEmpty<T>(t: seq<Bucket<T>>) returns (e: nat)
    requires Count(t) < |t|
    ensures e < |t| && t[e].dib == 0
  {
    if t[|t| - 1].dib == 0 {
      e := |t| - 1;
    } else {
      e := FindEmpty(t[..|t| - 1]);
    }
  }

  /** With an empty slot around, no bucket is a full turn from home. */
  lemma DibBelowTurn<T>(t: seq<Bucket<T>>, e: nat, i: nat)
    requires Stepped(t) && e < |t| && t[e].dib == 0 && i < |t|
    ensures t[i].dib <= Dist(e, i, |t|) < |t|
  {
    WalkBack(t, e, i);
  }

  lemma {:induction false} OccupiedRun<T>(t: seq<Bucket<T>>, i: nat, d: nat)
    requires i < |t| && d <= |t|
    requires forall s: nat :: s < |t| && Dist(s, i, |t|) < d ==> t[s].dib > 0
    ensures d <= Count(t)
    decreases d
  {
    if d > 0 {
      assert Dist(i, i, |t|) == 0;
      var u := t[i := t[i].(dib := 0)];
      CountUpdate(t, i, u[i]);
      var p := Prev(i, |t|);
      forall s: nat | s < |u| && Dist(s, p, |u|) < d - 1 ensures u[s].dib > 0 {
        assert Dist(s, i, |t|) < d;
      }
      OccupiedRun(u, p, d - 1);
    }
  }

  /** A bucket's dib never exceeds the number of items, so 16 bits hold it as
      long as the table has at most 65535 items. */
  lemma DibAtMostCount<T>(t: seq<Bucket<T>>, i: nat)
    requires Stepped(t) && i < |t| && Count(t) < |t|
    ensures t[i].dib <= Count(t)
  {
    var e := FindEmpty(t);
    DibBelowTurn(t, e, i);
    forall s: nat | s < |t| && Dist(s, i, |t|) < t[i].dib ensures t[s].dib > 0 {
      WalkBack(t, s, i);
    }
    OccupiedRun(t, i, t[i].dib);
  }

  /** Early termination of a probe: once a probe for `hash` meets a bucket closer to
      home than the probe itself (an empty bucket in particular), nothing with that
      hash lies further on. */
  lemma ProbeEnds<K, T>(kg: Keying<K, T>, t: seq<Bucket<T>>, hash: nat, s: nat, j: nat)
    requires Table(kg, t) && s < |t| && j < |t|
    requires t[s].dib <= Dist(Home(hash, |t|), s, |t|)
    requires t[j].dib > 0 && t[j].hash == hash
    ensures Dist(Home(hash, |t|), j, |t|) < Dist(Home(hash, |t|), s, |t|)
  {
    var home := Home(hash, |t|);
    assert PlacedAt(t[j], j, |t|);
    if Dist(home, j, |t|) >= Dist(home, s, |t|) {
      WalkBack(t, s, j);
    }
  }

  /** The slots a probe for key k has passed hold no item with that key. */
  ghost predicate PassedOver<K, T>(kg: Keying<K, T>, t: seq<Bucket<T>>, k: K, home: nat, i: nat)
    requires home < |t| && i < |t|
  {
    forall j: nat :: j < |t| && t[j].dib > 0 && Dist(home, j, |t|) < Dist(home, i, |t|) ==> kg.keyOf(t[j].item) != k
  }

  /** A probe that has passed over every slot up to one that ends it has seen that
      the key is absent. */
  lemma ProbeComplete<K, T(!new)>(kg: Keying<K, T>, t: seq<Bucket<T>>, x: T, s: nat)
    requires Table(kg, t) && SameKeySameHash(kg) && x in kg.universe && s < |t|
    requires PassedOver(kg, t, kg.keyOf(x), Home(kg.hash(x), |t|), s)
    requires t[s].dib <= Dist(Home(kg.hash(x), |t|), s, |t|)
    ensures Absent(kg, t, kg.keyOf(x), -1)
  {
    forall j: nat | j < |t| && t[j].dib > 0 ensures kg.keyOf(t[j].item) != kg.keyOf(x) {
      if kg.keyOf(t[j].item) == kg.keyOf(x) {
        assert Known(kg, t[j]);
        ProbeEnds(kg, t, kg.hash(x), s, j);
      }
    }
  }

  lemma PassOne<K, T>(kg: Keying<K, T>, t: seq<Bucket<T>>, k: K, home: nat, i: nat)
    requires home < |t| && i < |t| && PassedOver(kg, t, k, home, i)
    requires Dist(home, i, |t|) + 1 < |t|
    requires t[i].dib > 0 ==> kg.keyOf(t[i].item) != k
    ensures PassedOver(kg, t, k, home, Next(i, |t|))
  {
    assert Dist(home, Next(i, |t|), |t|) == Dist(home, i, |t|) + 1;
    forall j: nat | j < |t| && t[j].dib > 0 && Dist(home, j, |t|) < Dist(home, i, |t|) + 1
      ensures kg.keyOf(t[j].item) != k
    {
      if Dist(home, j, |t|) == Dist(home, i, |t|) {
        assert j == i;
      }
    }
  }

  // ----- insertion -----

  /** A bucket in hand at slot i: it belongs there, and the slot before is rich enough. */
  ghost predicate HandAt<T>(t: seq<Bucket<T>>, i: nat, e: Bucket<T>)
    requires i < |t|
  {
    && PlacedAt(e, i, |t|)
    && (e.dib == 1 || e.dib - 1 <= t[Prev(i, |t|)].dib)
  }

  /** Writing the hand over a bucket that is closer to home keeps the invariant; the
      map gains the hand's pair and loses the overwritten one. */
  lemma PlaceKeepsTable<K, T>(kg: Keying<K, T>, t: seq<Bucket<T>>, i: nat, e: Bucket<T>)
    requires Table(kg, t) && i < |t| && t[i].dib < e.dib && HandAt(t, i, e)
    requires Known(kg, e) && Absent(kg, t, kg.keyOf(e.item), -1)
    ensures Table(kg, t[i := e])
    ensures Contents(kg, t[i := e]) == Contents(kg, t) - Pair(kg, t[i]).Keys + Pair(kg, e)
    ensures Count(t[i := e]) == Count(t) + (if t[i].dib > 0 then 0 else 1)
    ensures t[i].dib > 0 ==> Absent(kg, t[i := e], kg.keyOf(t[i].item), -1)
  {
    var u := t[i := e];
    ContentsUpdate(kg, t, i, e);
    CountUpdate(t, i, e);
    forall s: nat | s < |u| ensures StepAt(u, s) {
      assert StepAt(t, s);
    }
  }

  /** If the bucket at i is at least as far from home as the hand, the hand moves on. */
  lemma HandMovesOn<T>(t: seq<Bucket<T>>, i: nat, e: Bucket<T>, empty: nat)
    requires Stepped(t) && i < |t| && PlacedAt(e, i, |t|) && e.dib <= t[i].dib
    requires empty < |t| && t[empty].dib == 0
    ensures HandAt(t, Next(i, |t|), e.(dib := e.dib + 1))
    ensures Dist(Next(i, |t|), empty, |t|) < Dist(i, empty, |t|)
    ensures Dist(Home(e.hash, |t|), i, |t|) + 1 < |t|
  {
    DibBelowTurn(t, empty, i);
    assert Prev(Next(i, |t|), |t|) == i;
  }

  /** Mid-insertion: bucket e is in hand at slot i, its key is not in the table, and table
      plus hand are the map m0 with x added. */
  ghost predicate Carrying<K, T>(kg: Keying<K, T>, m0: map<K, T>, x: T, t: seq<Bucket<T>>, i: nat, e: Bucket<T>,
      empty: nat) {
    && Table(kg, t)
    && i < |t| && empty < |t| && t[empty].dib == 0
    && Known(kg, e) && HandAt(t, i, e) && Absent(kg, t, kg.keyOf(e.item), -1)
    && Contents(kg, t)[kg.keyOf(e.item) := e.item] == m0[kg.keyOf(x) := x]
  }

  lemma CarryEnd<K, T>(kg: Keying<K, T>, m0: map<K, T>, x: T, t: seq<Bucket<T>>, i: nat, e: Bucket<T>, empty: nat)
    requires Carrying(kg, m0, x, t, i, e, empty) && t[i].dib == 0
    ensures Table(kg, t[i := e])
    ensures Contents(kg, t[i := e]) == m0[kg.keyOf(x) := x]
    ensures Count(t[i := e]) == Count(t) + 1
  {
    PlaceKeepsTable(kg, t, i, e);
  }

  /** One turn of the insertion loop at an occupied bucket: swap when the hand is further
      from home, then move on. */
  lemma CarrySwap<K, T>(kg: Keying<K, T>, m0: map<K, T>, x: T, t: seq<Bucket<T>>, i: nat, e: Bucket<T>, empty: nat)
    requires Carrying(kg, m0, x, t, i, e, empty) && 0 < t[i].dib < e.dib
    ensures Carrying(kg, m0, x, t[i := e], Next(i, |t|), t[i].(dib := t[i].dib + 1), empty)
    ensures Count(t[i := e]) == Count(t)
    ensures t[i].dib < Count(t) < |t|
    ensures Dist(Next(i, |t|), empty, |t|) < Dist(i, empty, |t|)
  {
    hide Dist;
    PlaceKeepsTable(kg, t, i, e);
    assert PlacedAt(t[i], i, |t|);
    assert Known(kg, t[i]);
    SwapContents(Contents(kg, t), kg.keyOf(t[i].item), t[i].item, kg.keyOf(e.item), e.item) by {
      ContentsHas(kg, t, i);
      AbsentIsMissing(kg, t, kg.keyOf(e.item));
    }
    HandMovesOn(t[i := e], i, t[i], empty);
    CountBelow(t[i := e], empty);
    DibAtMostCount(t[i := e], i);
  }

  lemma CarryOn<K, T>(kg: Keying<K, T>, m0: map<K, T>, x: T, t: seq<Bucket<T>>, i: nat, e: Bucket<T>, empty: nat)
    requires Carrying(kg, m0, x, t, i, e, empty) && e.dib <= t[i].dib
    ensures Carrying(kg, m0, x, t, Next(i, |t|), e.(dib := e.dib + 1), empty)
    ensures e.dib <= Count(t) < |t|
    ensures Dist(Next(i, |t|), empty, |t|) < Dist(i, empty, |t|)
  {
    HandMovesOn(t, i, e, empty);
    CountBelow(t, empty);
    DibAtMostCount(t, i);
  }

  lemma SwapContents<K, T>(m: map<K, T>, k: K, v: T, k': K, v': T)
    requires k in m && m[k] == v && k' !in m
    ensures (m - {k} + map[k' := v'])[k := v] == m[k' := v']
  {
  }

  lemma {:induction false} CountAtMost<T>(t: seq<Bucket<T>>)
    ensures Count(t) <= |t|
  {
    if t != [] {
      CountAtMost(t[..|t| - 1]);
    }
  }

  lemma CountBelow<T>(t: seq<Bucket<T>>, empty: nat)
    requires empty < |t| && t[empty].dib == 0
    ensures Count(t) < |t|
  {
    var full := t[empty].(dib := 1);
    CountUpdate(t, empty, full);
    CountAtMost(t[empty := full]);
  }

  /** Overwriting an item by another with the same key. */
  lemma ReplaceKeepsTable<K, T(!new)>(kg: Keying<K, T>, t: seq<Bucket<T>>, i: nat, x: T)
    requires Table(kg, t) && SameKeySameHash(kg) && i < |t| && t[i].dib > 0
    requires x in kg.universe && kg.keyOf(x) == kg.keyOf(t[i].item)
    ensures Table(kg, t[i := t[i].(item := x)])
    ensures Contents(kg, t[i := t[i].(item := x)]) == Contents(kg, t)[kg.keyOf(x) := x]
    ensures Count(t[i := t[i].(item := x)]) == Count(t)
  {
    var b := t[i].(item := x);
    var u := t[i := b];
    assert Known(kg, t[i]);
    ContentsUpdate(kg, t, i, b);
    CountUpdate(t, i, b);
    forall s: nat | s < |u| ensures StepAt(u, s) {
      assert StepAt(t, s);
    }
  }

  // ----- deletion -----

  /** A table in which slot p has just been emptied: the step rule holds everywhere but
      after p, where it holds as if p still had dib `lim`. */
  ghost predicate Hole<K, T>(kg: Keying<K, T>, u: seq<Bucket<T>>, p: nat, lim: nat) {
    && Stored(kg, u)
    && p < |u| && u[p].dib == 0
    && 0 < lim <= u[Prev(p, |u|)].dib + 1
    && u[Next(p, |u|)].dib <= lim + 1
    && (forall i: nat {:trigger StepAt(u, i)} :: i < |u| && i != p ==> StepAt(u, i))
  }

  lemma DigHole<K, T>(kg: Keying<K, T>, t: seq<Bucket<T>>, p: nat)
    requires Table(kg, t) && p < |t| && t[p].dib > 0 && |t| > 1
    ensures Hole(kg, t[p := t[p].(dib := 0)], p, t[p].dib)
    ensures Contents(kg, t[p := t[p].(dib := 0)]) == Contents(kg, t) - {kg.keyOf(t[p].item)}
    ensures Count(t[p := t[p].(dib := 0)]) == Count(t) - 1
  {
    hide Dist, Home, Count, Contents;
    var b := t[p].(dib := 0);
    var u := t[p := b];
    ContentsUpdate(kg, t, p, b);
    CountUpdate(t, p, b);
    assert StepAt(t, p) && StepAt(t, Prev(p, |t|));
    forall s: nat | s < |u| && s != p ensures StepAt(u, s) {
      assert StepAt(t, s);
    }
  }

  /** Moving the next bucket back into the hole. */
  ghost function Shift<T>(u: seq<Bucket<T>>, p: nat): seq<Bucket<T>>
    requires p < |u| && u[Next(p, |u|)].dib > 0
  {
    var q := Next(p, |u|);
    u[q := u[q].(dib := 0)][p := u[q].(dib := u[q].dib - 1)]
  }

  lemma TakeOutPutBack<K, T>(m: map<K, T>, k: K)
    requires k in m
    ensures m - {k} - {} + map[k := m[k]] == m
  {
  }

  lemma ShiftContents<K, T>(kg: Keying<K, T>, u: seq<Bucket<T>>, p: nat)
    requires |u| > 1 && p < |u| && u[p].dib == 0 && u[Next(p, |u|)].dib > 1 && Unique(kg, u)
    ensures Unique(kg, Shift(u, p))
    ensures Contents(kg, Shift(u, p)) == Contents(kg, u)
    ensures Count(Shift(u, p)) == Count(u)
  {
    var q := Next(p, |u|);
    var gone, moved := u[q].(dib := 0), u[q].(dib := u[q].dib - 1);
    var v := u[q := gone];
    assert Shift(u, p) == v[p := moved];
    ContentsUpdate(kg, u, q, gone);
    CountUpdate(u, q, gone);
    ContentsHas(kg, u, q);
    assert Absent(kg, v, kg.keyOf(moved.item), p);
    ContentsUpdate(kg, v, p, moved);
    CountUpdate(v, p, moved);
    TakeOutPutBack(Contents(kg, u), kg.keyOf(moved.item));
  }

  lemma ShiftInPlace<T>(u: seq<Bucket<T>>, p: nat)
    requires |u| > 1 && p < |u| && u[Next(p, |u|)].dib > 1 && InPlace(u)
    ensures InPlace(Shift(u, p))
  {
    var q := Next(p, |u|);
    assert PlacedAt(u[q], q, |u|);
    assert PlacedAt(Shift(u, p)[p], p, |u|);
  }

  lemma ShiftStepped<T>(u: seq<Bucket<T>>, p: nat, s: nat)
    requires |u| > 2 && p < |u| && s < |u| && s != Next(p, |u|)
    requires 1 < u[Next(p, |u|)].dib <= u[Prev(p, |u|)].dib + 2
    requires s != p ==> StepAt(u, s)
    ensures StepAt(Shift(u, p), s)
  {
  }

  lemma ShiftKeepsHole<K, T>(kg: Keying<K, T>, u: seq<Bucket<T>>, p: nat, lim: nat)
    requires |u| > 2 && Hole(kg, u, p, lim) && u[Next(p, |u|)].dib > 1
    ensures Hole(kg, Shift(u, p), Next(p, |u|), u[Next(p, |u|)].dib)
  {
    var q := Next(p, |u|);
    var v := Shift(u, p);
    ShiftContents(kg, u, p);
    ShiftInPlace(u, p);
    assert v[q].dib == 0 && v[p].dib == u[q].dib - 1 && Prev(q, |u|) == p;
    assert StepAt(u, q);
    assert v[Next(q, |u|)] == u[Next(q, |u|)];
    forall s: nat | s < |v| && s != q ensures StepAt(v, s) {
      ShiftStepped(u, p, s);
    }
  }

  /** When the bucket after the hole is empty or at home, the hole is an ordinary empty slot. */
  lemma CloseHole<K, T>(kg: Keying<K, T>, u: seq<Bucket<T>>, p: nat, lim: nat)
    requires Hole(kg, u, p, lim) && u[Next(p, |u|)].dib <= 1
    ensures Table(kg, u)
  {
    assert StepAt(u, p);
  }
}
