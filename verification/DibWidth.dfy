/** The 16-bit distance field of src/hashmap.c, item by item: an insertion does its work exactly
    when the items are then spread well enough, and two ways for them not to be. */
module DibWidth {
  import opened Wrappers
  import opened BitMask
  import opened RobinHood
  import opened Crowding
  import opened HashMap

  /** The insertion loop of hashmap_set, for tables of any size and items of any hash. */
  lemma SetExactly<K, T(!new)>(
      hash: T -> nat, compare: (T, T) -> int, kg: Keying<K, T>, x: T, t: seq<Bucket<T>>, empty: nat)
    requires Distinguishes(hash, compare, kg) && x in kg.universe && Table(kg, t) && Narrow(t)
    requires empty < |t| && t[empty].dib == 0 && Count(t) + 1 < |t|
    ensures var m, home, e := Contents(kg, t), Home(kg.hash(x), |t|), Bucket(kg.hash(x), 1, x);
            var (t', previous) := Place(compare, t, home, e, empty);
            Spread(kg, m[kg.keyOf(x) := x], |t|) <==>
              previous == Lookup(m, kg.keyOf(x)) && Narrow(t') && Inserted(kg, m, |m[kg.keyOf(x) := x]|, x, t')
  {
    var home, e := Home(kg.hash(x), |t|), Bucket(kg.hash(x), 1, x);
    PlaceSearches(hash, compare, kg, x, t, empty);
    var t' := Place(compare, t, home, e, empty).0;
    if Narrow(t') && Table(kg, t') {
      NarrowSpreads(kg, t');
    }
  }

  /** The insertion loop of resize, which moves one item over. */
  lemma PushExactly<K, T>(kg: Keying<K, T>, x: T, t: seq<Bucket<T>>, empty: nat)
    requires Table(kg, t) && Narrow(t) && x in kg.universe && kg.keyOf(x) !in Contents(kg, t)
    requires empty < |t| && t[empty].dib == 0 && Count(t) + 1 < |t|
    ensures var m, home, e := Contents(kg, t), Home(kg.hash(x), |t|), Bucket(kg.hash(x), 1, x);
            var t' := Push(t, home, e, empty);
            Spread(kg, m[kg.keyOf(x) := x], |t|) <==> Narrow(t') && Inserted(kg, m, Count(t) + 1, x, t')
  {
    hide Push, PushFree, Home, Spread, Contents, Stepped;
    var m, home, e := Contents(kg, t), Home(kg.hash(x), |t|), Bucket(kg.hash(x), 1, x);
    if Spread(kg, m[kg.keyOf(x) := x], |t|) {
      PushInserts(kg, x, t, empty);
    }
    var t' := Push(t, home, e, empty);
    PushCount(t, home, e, empty);
    if Narrow(t') && Table(kg, t') {
      NarrowSpreads(kg, t');
    }
  }

  /** An insertion goes wrong exactly when, with distances that have no limit, it would leave a bucket
      65535 slots or more from home, whose distance field would have to hold 65536 or more. */
  lemma OnlyFarFails<K, T(!new)>(
      hash: T -> nat, compare: (T, T) -> int, kg: Keying<K, T>, x: T, t: seq<Bucket<T>>, empty: nat)
    requires Distinguishes(hash, compare, kg) && x in kg.universe && Table(kg, t) && Narrow(t)
    requires empty < |t| && t[empty].dib == 0 && Count(t) + 1 < |t| && kg.keyOf(x) !in Contents(kg, t)
    ensures var m, home, e := Contents(kg, t), Home(kg.hash(x), |t|), Bucket(kg.hash(x), 1, x);
            var (t', previous) := Place(compare, t, home, e, empty);
            previous == None && (forall i: nat :: i < |t'| ==> t'[i].dib <= 65535)
            && Inserted(kg, m, |m| + 1, x, t') <==>
              forall i: nat :: i < |t| ==> PushFree(t, home, e, empty)[i].dib <= 65535
  {
    hide Place, PushFree, Spread, Contents, Home;
    var m, home, e := Contents(kg, t), Home(kg.hash(x), |t|), Bucket(kg.hash(x), 1, x);
    var m' := m[kg.keyOf(x) := x];
    SetExactly(hash, compare, kg, x, t, empty);
    CarryStart(kg, x, t, empty);
    ContentsSize(kg, t);
    FreeInserts(kg, m, x, t, home, e, empty);
    NarrowIffSpread(kg, PushFree(t, home, e, empty));
    assert |m'| == |m| + 1 && Lookup(m, kg.keyOf(x)) == None;
    assert Spread(kg, m', |t|) <==> Narrow(PushFree(t, home, e, empty));
    hide Inserted;
  }

  // ----- a table that is too crowded -----

  /** Items 0 to 65534, all with hash zero, in a table of n buckets. */
  ghost function Crowded(n: nat): (t: seq<Bucket<nat>>)
    ensures |t| == n
    ensures forall i: nat :: i < n ==> t[i] == Bucket(0, if i + 1 < DIB_LIMIT then i + 1 else 0, i)
  {
    seq(n, i requires 0 <= i < n => Bucket(0, if i + 1 < DIB_LIMIT then i + 1 else 0, i))
  }

  function Zero(x: nat): nat { 0 }

  function Itself(x: nat): nat { x }

  function Difference(a: nat, b: nat): int { a - b }

  /** Numbers as their own keys, hashed in some way. */
  ghost function Numbers(hash: nat -> nat): Keying<nat, nat> {
    Keying(hash, Itself, iset x: nat | Itself(x) == x)
  }

  lemma CrowdedIsTable(n: nat)
    requires IsPowerOfTwo(n) && n > DIB_LIMIT
    ensures Table(Numbers(Zero), Crowded(n)) && Narrow(Crowded(n))
    ensures Distinguishes(Zero, Difference, Numbers(Zero))
  {
    MaskKeeps(0, n);
    var t := Crowded(n);
    forall i: nat | i < n ensures StepAt(t, i) {
    }
  }

  lemma {:induction false} CrowdedCount(n: nat, k: nat)
    requires k <= n
    ensures Count(Crowded(n)[..k]) == if k < DIB_LIMIT then k else DIB_LIMIT - 1
    decreases k
  {
    if k > 0 {
      CrowdedCount(n, k - 1);
      assert Crowded(n)[..k][..k - 1] == Crowded(n)[..k - 1];
    }
  }

  /** hashmap_set on one more such item breaks the table, however large it is. */
  lemma CrowdedOverflows(n: nat, x: nat)
    requires IsPowerOfTwo(n) && n > DIB_LIMIT && x >= DIB_LIMIT
    ensures var t, kg := Crowded(n), Numbers(Zero);
            && Table(kg, t) && Narrow(t) && Count(t) == DIB_LIMIT - 1 && x !in Contents(kg, t)
            && var (t', previous) := Place(Difference, t, 0, Bucket(0, 1, x), DIB_LIMIT - 1);
            !(previous == None && Narrow(t') && Inserted(kg, Contents(kg, t), DIB_LIMIT, x, t'))
  {
    var t, kg := Crowded(n), Numbers(Zero);
    CrowdedIsTable(n);
    CrowdedCount(n, n);
    assert t[..n] == t;
    MaskKeeps(0, n);
    if x in Contents(kg, t) {
      var i := ContentsOnly(kg, t, x);
    }
    ContentsSize(kg, t);
    var m := Contents(kg, t)[x := x];
    assert Within(kg, m, 0, 1, n) == m.Keys;
    SetExactly(Zero, Difference, kg, x, t, DIB_LIMIT - 1);
  }

  // ----- items that only a larger table spreads -----

  /** Hashes 0 and n / 2. */
  function Halves(n: nat): nat -> nat {
    x => if x < DIB_LIMIT - 1 then 0 else n / 2
  }

  /** 131070 items. */
  ghost function Twice(n: nat): map<nat, nat>
    requires 0 < n
  {
    var arc := Arc(0, 2 * (DIB_LIMIT - 1), n); map x | x in arc :: x
  }

  /** Half of them with hash 0 and half with hash n / 2, they are fine in n buckets, and few
      enough for hashmap_delete to halve the table, but not fine in half the buckets. */
  lemma HalvingOverflows(n: nat)
    requires IsPowerOfTwo(n) && n >= 20 * DIB_LIMIT
    ensures var kg, m := Numbers(Halves(n)), Twice(n);
            |m| <= n / 10 && Spread(kg, m, n) && !Spread(kg, m, n / 2)
  {
    var kg, m := Numbers(Halves(n)), Twice(n);
    ArcSize(0, 2 * (DIB_LIMIT - 1), n);
    assert m.Keys == Arc(0, 2 * (DIB_LIMIT - 1), n);
    HalvesCollide(n);
    hide Within, Twice, Halves;
    forall a: nat, w: nat | a < n && 0 < w ensures |Within(kg, m, a, w, n)| <= w + (DIB_LIMIT - 2) {
      HalvesWithin(n, a, w);
    }
  }

  lemma HalvesCollide(n: nat)
    requires IsPowerOfTwo(n) && n >= 20 * DIB_LIMIT
    ensures Within(Numbers(Halves(n)), Twice(n), 0, 1, n / 2) == Twice(n).Keys
  {
    MaskKeeps(0, n / 2);
    MaskWraps(n / 2);
  }

  lemma HalvesWithin(n: nat, a: nat, w: nat)
    requires IsPowerOfTwo(n) && n >= 20 * DIB_LIMIT && a < n && 0 < w
    ensures |Within(Numbers(Halves(n)), Twice(n), a, w, n)| <= w + (DIB_LIMIT - 2)
  {
    var k := DIB_LIMIT - 1;
    MaskKeeps(0, n);
    MaskKeeps(n / 2, n);
    ArcSize(0, k, n);
    ArcSize(k, k, n);
    ArcSize(0, 2 * k, n);
    var within := Within(Numbers(Halves(n)), Twice(n), a, w, n);
    if w > n / 2 {
      SubsetSize(within, Arc(0, 2 * k, n));
    } else if Dist(a, 0, n) < w {
      assert Dist(a, n / 2, n) >= w;
      SubsetSize(within, Arc(0, k, n));
    } else {
      SubsetSize(within, Arc(k, k, n));
    }
  }
}
