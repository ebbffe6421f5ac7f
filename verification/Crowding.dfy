/** When the 16-bit distances of src/hashmap.c suffice: exactly when the items' home slots are
    spread well enough, which can be read off the hashes alone. */
module Crowding {
  import opened BitMask
  import opened RobinHood

  const DIB_LIMIT: nat := 0x1_0000              // a stored dib has 16 bits

  ghost predicate Narrow<T>(t: seq<Bucket<T>>) {
    forall i: nat :: i < |t| ==> t[i].dib < DIB_LIMIT
  }

  /** The keys whose home is one of the w slots from slot a on. */
  ghost function Within<K, T>(kg: Keying<K, T>, m: map<K, T>, a: nat, w: nat, n: nat): set<K>
    requires a < n
  {
    set k | k in m && Dist(a, Home(kg.hash(m[k]), n), n) < w
  }

  /** No w consecutive slots of n are home to more than w + 65534 keys. */
  ghost predicate Spread<K, T>(kg: Keying<K, T>, m: map<K, T>, n: nat) {
    forall a: nat, w: nat {:trigger Within(kg, m, a, w, n)} ::
      a < n && 0 < w ==> |Within(kg, m, a, w, n)| <= w + (DIB_LIMIT - 2)
  }

  /** The two limits in numbers: a distance field holds 65535, and w slots take w + 65534 keys. */
  lemma Limits<K, T>(kg: Keying<K, T>, t: seq<Bucket<T>>, m: map<K, T>, n: nat)
    ensures Narrow(t) <==> forall i: nat :: i < |t| ==> t[i].dib <= 65535
    ensures Spread(kg, m, n) <==>
              forall a: nat, w: nat {:trigger Within(kg, m, a, w, n)} ::
                a < n && 0 < w ==> |Within(kg, m, a, w, n)| <= w + 65534
  {
  }

  // ----- counting slots and the keys in them -----

  /** The w slots from slot a on. */
  ghost function Arc(a: nat, w: nat, n: nat): set<nat>
    requires a < n
  {
    set s: nat | s < n && Dist(a, s, n) < w
  }

  lemma ArcStep(a: nat, w: nat, n: nat) returns (last: nat)
    requires a < n && 0 < w <= n
    ensures last !in Arc(a, w - 1, n) && Arc(a, w, n) == Arc(a, w - 1, n) + {last}
  {
    last := if a + (w - 1) < n then a + (w - 1) else a + (w - 1) - n;
    forall s: nat | s < n && Dist(a, s, n) == w - 1 ensures s == last {
    }
  }

  lemma {:induction false} ArcSize(a: nat, w: nat, n: nat)
    requires a < n
    ensures |Arc(a, w, n)| == if w <= n then w else n
  {
    if w > n {
      ArcSize(a, n, n);
      assert Arc(a, w, n) == Arc(a, n, n);
    } else if w > 0 {
      ArcSize(a, w - 1, n);
      var last := ArcStep(a, w, n);
    } else {
      assert Arc(a, w, n) == {};
    }
  }

  lemma SubsetSize<X>(a: set<X>, b: set<X>)
    requires a <= b
    ensures |a| <= |b|
  {
    assert b == a + (b - a);
  }

  ghost function KeysAt<K, T>(kg: Keying<K, T>, t: seq<Bucket<T>>, slots: set<nat>): set<K> {
    set s | s in slots && s < |t| && t[s].dib > 0 :: kg.keyOf(t[s].item)
  }

  /** At most one key a slot. */
  lemma {:induction false} KeysAtMost<K, T>(kg: Keying<K, T>, t: seq<Bucket<T>>, slots: set<nat>)
    ensures |KeysAt(kg, t, slots)| <= |slots|
    decreases slots
  {
    if slots != {} {
      var s :| s in slots;
      var rest := slots - {s};
      KeysAtMost(kg, t, rest);
      var all := KeysAt(kg, t, rest) + (if s < |t| && t[s].dib > 0 then {kg.keyOf(t[s].item)} else {});
      assert KeysAt(kg, t, slots) <= all;
      SubsetSize(KeysAt(kg, t, slots), all);
    }
  }

  /** Exactly one key a slot, if all are occupied. */
  lemma {:induction false} KeysAtAll<K, T>(kg: Keying<K, T>, t: seq<Bucket<T>>, slots: set<nat>)
    requires Unique(kg, t) && forall s :: s in slots ==> s < |t| && t[s].dib > 0
    ensures |KeysAt(kg, t, slots)| == |slots|
    decreases slots
  {
    if slots != {} {
      var s :| s in slots;
      var rest := slots - {s};
      KeysAtAll(kg, t, rest);
      assert KeysAt(kg, t, slots) == KeysAt(kg, t, rest) + {kg.keyOf(t[s].item)};
      assert kg.keyOf(t[s].item) !in KeysAt(kg, t, rest);
    }
  }

  /** So many slots, so many of the keys in them. */
  lemma KeysInside<K, T>(kg: Keying<K, T>, t: seq<Bucket<T>>, slots: set<nat>, keys: set<K>)
    requires Unique(kg, t) == true
    requires forall s :: s in slots ==> s < |t| && t[s].dib > 0 && kg.keyOf(t[s].item) in keys
    ensures |slots| <= |keys|
  {
    KeysAtAll(kg, t, slots);
    SubsetSize(KeysAt(kg, t, slots), keys);
  }

  // ----- distances and crowding -----

  /** Small distances keep the keys at home in a short arc within a short arc. */
  lemma NarrowSpreads<K, T>(kg: Keying<K, T>, t: seq<Bucket<T>>)
    requires Table(kg, t) && Narrow(t)
    ensures Spread(kg, Contents(kg, t), |t|)
  {
    var m, n := Contents(kg, t), |t|;
    forall a: nat, w: nat | a < n && 0 < w ensures |Within(kg, m, a, w, n)| <= w + (DIB_LIMIT - 2) {
      var arc := Arc(a, w + (DIB_LIMIT - 2), n);
      forall k | k in Within(kg, m, a, w, n) ensures k in KeysAt(kg, t, arc) {
        var i := ContentsOnly(kg, t, k);
        assert PlacedAt(t[i], i, n) && Known(kg, t[i]);
        assert i in arc;
      }
      ArcSize(a, w + (DIB_LIMIT - 2), n);
      KeysAtMost(kg, t, arc);
      SubsetSize(Within(kg, m, a, w, n), KeysAt(kg, t, arc));
    }
  }

  /** The slots behind e are occupied, up to slot p. */
  ghost predicate Filled<T>(t: seq<Bucket<T>>, e: nat, p: nat)
    requires e < |t| && p < |t|
  {
    forall s: nat :: s < |t| && 0 < Dist(e, s, |t|) <= Dist(e, p, |t|) ==> t[s].dib > 0
  }

  /** The last empty slot before slot p. */
  lemma {:induction false} LastEmpty<T>(t: seq<Bucket<T>>, e: nat, p: nat) returns (e': nat)
    requires e < |t| && p < |t| && t[e].dib == 0 && t[p].dib > 0
    ensures e' < |t| && t[e'].dib == 0
    ensures Filled(t, e', p) == true
    decreases Dist(e, p, |t|)
  {
    if s: nat :| s < |t| && 0 < Dist(e, s, |t|) <= Dist(e, p, |t|) && t[s].dib == 0 {
      e' := LastEmpty(t, s, p);
    } else {
      e' := e;
    }
  }

  /** A bucket far from home has everything from the start of its run up to it at home in a
      short arc. */
  lemma FarIsCrowded<K, T>(kg: Keying<K, T>, t: seq<Bucket<T>>, e: nat, p: nat)
    requires Table(kg, t) && e < |t| && t[e].dib == 0 && p < |t| && t[p].dib >= DIB_LIMIT
    ensures !Spread(kg, Contents(kg, t), |t|)
  {
    var e' := LastEmpty(t, e, p);
    var a, n := Next(e', |t|), |t|;
    RunLength(t, e', p);
    ArcSize(a, Dist(a, p, n) + 1, n);
    RunInside(kg, t, e', p);
    hide *;
    var w := Dist(a, Home(t[p].hash, n), n) + 1;
    NotSpread(kg, Contents(kg, t), a, w, n);
  }

  lemma NotSpread<K, T>(kg: Keying<K, T>, m: map<K, T>, a: nat, w: nat, n: nat)
    requires a < n && 0 < w && |Within(kg, m, a, w, n)| > w + (DIB_LIMIT - 2)
    ensures !Spread(kg, m, n)
  {
  }

  /** The keys of the run up to p are at home between its start and p's home. */
  lemma RunInside<K, T>(kg: Keying<K, T>, t: seq<Bucket<T>>, e: nat, p: nat)
    requires Table(kg, t) == true && Unique(kg, t) == true
    requires e < |t| && t[e].dib == 0 && p < |t| && t[p].dib > 0 && Filled(t, e, p) == true
    ensures var a, n := Next(e, |t|), |t|;
            |Arc(a, Dist(a, p, n) + 1, n)| <= |Within(kg, Contents(kg, t), a, Dist(a, Home(t[p].hash, n), n) + 1, n)|
  {
    hide Arc, Within, Contents, Table, Filled, Unique;
    var n := |t|;
    var a := Next(e, n);
    var arc := Arc(a, Dist(a, p, n) + 1, n);
    var keys := Within(kg, Contents(kg, t), a, Dist(a, Home(t[p].hash, n), n) + 1, n);
    forall s | s in arc ensures s < n && t[s].dib > 0 && kg.keyOf(t[s].item) in keys {
      RunMember(kg, t, e, s, p);
    }
    hide *;
    KeysInside(kg, t, arc, keys);
  }

  lemma RunLength<T>(t: seq<Bucket<T>>, e: nat, p: nat)
    requires Stepped(t) && InPlace(t) && e < |t| && t[e].dib == 0 && p < |t| && t[p].dib > 0
    ensures var a, n := Next(e, |t|), |t|;
            && Dist(a, p, n) + 1 <= n
            && Dist(a, p, n) == Dist(a, Home(t[p].hash, n), n) + t[p].dib - 1
  {
    assert PlacedAt(t[p], p, |t|);
    DibBelowTurn(t, e, p);
  }

  lemma RunMember<K, T>(kg: Keying<K, T>, t: seq<Bucket<T>>, e: nat, s: nat, p: nat)
    requires Table(kg, t) == true
    requires e < |t| && t[e].dib == 0 && p < |t| && t[p].dib > 0 && Filled(t, e, p) == true
    requires s in Arc(Next(e, |t|), Dist(Next(e, |t|), p, |t|) + 1, |t|)
    ensures var a, w := Next(e, |t|), Dist(Next(e, |t|), Home(t[p].hash, |t|), |t|) + 1;
            s < |t| && t[s].dib > 0 && kg.keyOf(t[s].item) in Within(kg, Contents(kg, t), a, w, |t|)
  {
    assert 0 < Dist(e, s, |t|) <= Dist(e, p, |t|);
    assert PlacedAt(t[s], s, |t|) && PlacedAt(t[p], p, |t|) && Known(kg, t[s]);
    ContentsHas(kg, t, s);
    DibBelowTurn(t, e, s);
    DibBelowTurn(t, e, p);
    WalkBack(t, s, p);
  }

  /** In a table with an empty slot, the distances fit 16 bits exactly when the items are
      spread well enough. */
  lemma NarrowIffSpread<K, T>(kg: Keying<K, T>, t: seq<Bucket<T>>)
    requires Table(kg, t) && Count(t) < |t|
    ensures Narrow(t) <==> Spread(kg, Contents(kg, t), |t|)
  {
    if Narrow(t) {
      NarrowSpreads(kg, t);
    } else {
      var p: nat :| p < |t| && t[p].dib >= DIB_LIMIT;
      var e := FindEmpty(t);
      FarIsCrowded(kg, t, e, p);
    }
  }

  // ----- fewer items, larger tables -----

  ghost predicate Submap<K, T>(m': map<K, T>, m: map<K, T>) {
    forall k :: k in m' ==> k in m && m'[k] == m[k]
  }

  /** Fewer items are spread at least as well. */
  lemma SubmapSpread<K, T>(kg: Keying<K, T>, m': map<K, T>, m: map<K, T>, n: nat)
    requires Spread(kg, m, n) && Submap(m', m)
    ensures Spread(kg, m', n)
  {
    forall a: nat, w: nat | a < n && 0 < w ensures |Within(kg, m', a, w, n)| <= w + (DIB_LIMIT - 2) {
      SubsetSize(Within(kg, m', a, w, n), Within(kg, m, a, w, n));
    }
  }

  /** Only the hashes count, not the items. */
  lemma SameHashesSpread<K, T>(kg: Keying<K, T>, m': map<K, T>, m: map<K, T>, n: nat)
    requires Spread(kg, m, n) && forall k :: k in m' ==> k in m && kg.hash(m'[k]) == kg.hash(m[k])
    ensures Spread(kg, m', n)
  {
    forall a: nat, w: nat | a < n && 0 < w ensures |Within(kg, m', a, w, n)| <= w + (DIB_LIMIT - 2) {
      SubsetSize(Within(kg, m', a, w, n), Within(kg, m, a, w, n));
    }
  }

  /** At most 65535 items are always spread well enough. */
  lemma FewSpread<K, T>(kg: Keying<K, T>, m: map<K, T>, n: nat)
    requires |m| <= 65535
    ensures Spread(kg, m, n)
  {
    forall a: nat, w: nat | a < n && 0 < w ensures |Within(kg, m, a, w, n)| <= w + (DIB_LIMIT - 2) {
      SubsetSize(Within(kg, m, a, w, n), m.Keys);
    }
  }

  /** Doubling the table spreads the items at least as well. */
  lemma DoubledSpread<K, T>(kg: Keying<K, T>, m: map<K, T>, n: nat)
    requires IsPowerOfTwo(n) && Spread(kg, m, n)
    ensures Spread(kg, m, 2 * n)
  {
    forall a: nat, w: nat | a < 2 * n && 0 < w ensures |Within(kg, m, a, w, 2 * n)| <= w + (DIB_LIMIT - 2) {
      var a' := if a < n then a else a - n;
      var w' := if w < n then w else n;
      forall k | k in Within(kg, m, a, w, 2 * n) ensures k in Within(kg, m, a', w', n) {
        MaskHalves(kg.hash(m[k]), n);
      }
      SubsetSize(Within(kg, m, a, w, 2 * n), Within(kg, m, a', w', n));
    }
  }

  // ----- tables that may shrink -----

  /** However many of the items are deleted, and however far a table of n buckets shrinks with
      them, the remaining ones are spread well enough. */
  ghost predicate Calm<K(!new), T(!new)>(kg: Keying<K, T>, m: map<K, T>, n: nat, cap: nat) {
    && Spread(kg, m, n)
    && forall m': map<K, T>, n': nat {:trigger Spread(kg, m', n')} ::
         Submap(m', m) && cap <= n' < n && |m'| <= 2 * n' / 10 ==> Spread(kg, m', n')
  }

  lemma CalmSubmap<K(!new), T(!new)>(kg: Keying<K, T>, m': map<K, T>, m: map<K, T>, n: nat, cap: nat)
    requires Calm(kg, m, n, cap) && Submap(m', m)
    ensures Calm(kg, m', n, cap)
  {
    hide Spread;
    SubmapSpread(kg, m', m, n);
  }

  lemma CalmShrinks<K(!new), T(!new)>(kg: Keying<K, T>, m: map<K, T>, n: nat, cap: nat)
    requires Calm(kg, m, 2 * n, cap) && cap <= n && 0 < n && |m| <= 2 * n / 10
    ensures Calm(kg, m, n, cap)
  {
    hide Spread;
    assert Submap(m, m);
  }

  lemma FewCalm<K(!new), T(!new)>(kg: Keying<K, T>, m: map<K, T>, n: nat, cap: nat)
    requires |m| <= 65535
    ensures Calm(kg, m, n, cap)
  {
    FewSpread(kg, m, n);
    forall m': map<K, T>, n': nat | Submap(m', m) ensures Spread(kg, m', n') {
      SubsetSize(m'.Keys, m.Keys);
      FewSpread(kg, m', n');
    }
  }
}
