/** src/hashmap.c: an open-addressed hash map with Robin Hood hashing. */
module HashMap {
  import opened Wrappers
  import opened BitMask
  import opened RobinHood
  import opened Crowding

  const HASH_LIMIT: nat := 0x1_0000_0000_0000   // a stored hash has 48 bits
  const CAP_LIMIT: nat := 0x4000_0000           // `int ncap` can double up to here

  /** What the bytes at `map->spare` hold: nothing yet, one item, or one bucket. */
  datatype Scratch<+T> = Unused | OneItem(item: T) | OneBucket(bucket: Bucket<T>)

  /** Which of the two allocations made by hashmap_new_with_allocator succeed. */
  datatype Memory = Memory(header: bool, buckets: bool) {
    predicate Granted() { header && buckets }
  }

  function Lookup<K, T>(m: map<K, T>, k: K): Option<T> {
    if k in m then Some(m[k]) else None
  }

  /** The match test of the code, 48-bit hashes equal and `compare` zero, means "same
      key" on all items in play. */
  ghost predicate Distinguishes<K, T(!new)>(hash: T -> nat, compare: (T, T) -> int, kg: Keying<K, T>) {
    && (forall x {:trigger kg.hash(x)} :: x in kg.universe ==> kg.hash(x) == hash(x) % HASH_LIMIT)
    && (forall a, b {:trigger compare(a, b)} :: a in kg.universe && b in kg.universe ==>
          (kg.hash(a) == kg.hash(b) && compare(a, b) == 0 <==> kg.keyOf(a) == kg.keyOf(b)))
  }

  lemma SameHash<K, T(!new)>(hash: T -> nat, compare: (T, T) -> int, kg: Keying<K, T>)
    requires Distinguishes(hash, compare, kg)
    ensures SameKeySameHash(kg)
  {
    forall a, b | a in kg.universe && b in kg.universe && kg.keyOf(a) == kg.keyOf(b)
      ensures kg.hash(a) == kg.hash(b)
    {
      assert compare(a, b) == 0;
    }
  }

  lemma BlankTable<K, T>(kg: Keying<K, T>, t: seq<Bucket<T>>)
    requires forall i: nat :: i < |t| ==> t[i].dib == 0
    ensures Count(t) == 0 && Contents(kg, t) == map[]
  {
    if t != [] {
      BlankTable(kg, t[..|t| - 1]);
    }
  }

  lemma BlankIsTable<K, T>(kg: Keying<K, T>, t: seq<Bucket<T>>)
    requires 0 < |t| && forall i: nat :: i < |t| ==> t[i].dib == 0
    ensures Table(kg, t) && Narrow(t) && Count(t) == 0 && Contents(kg, t) == map[]
  {
    BlankTable(kg, t);
    forall i: nat | i < |t| ensures StepAt(t, i) {
    }
  }

  lemma Doubled(n: nat)
    requires IsPowerOfTwo(n)
    ensures IsPowerOfTwo(2 * n)
  {
  }

  lemma Sixteenfold(n: nat)
    requires IsPowerOfTwo(n)
    ensures IsPowerOfTwo(16 * n)
  {
    hide *;
    Doubled(n);
    Doubled(2 * n);
    Doubled(4 * n);
    Doubled(8 * n);
  }

  lemma CapLimitIsPower()
    ensures IsPowerOfTwo(CAP_LIMIT)
  {
    assert IsPowerOfTwo(4);
    hide *;
    Sixteenfold(4);
    Sixteenfold(0x40);
    Sixteenfold(0x400);
    Sixteenfold(0x4000);
    Sixteenfold(0x4_0000);
    Sixteenfold(0x40_0000);
    Sixteenfold(0x400_0000);
  }

  /** The smallest power of two that is at least 16 and at least `cap`. */
  method RoundUp(cap: nat) returns (ncap: nat)
    requires cap <= 0x4000_0000
    ensures IsPowerOfTwo(ncap) && 16 <= ncap <= 0x4000_0000
    ensures cap <= ncap && (ncap == 16 || ncap / 2 < cap)
  {
    ncap := 16;
    CapLimitIsPower();
    while ncap < cap
      invariant IsPowerOfTwo(ncap) && 16 <= ncap <= CAP_LIMIT
      invariant ncap == 16 || ncap / 2 < cap
      decreases cap - ncap
    {
      HalfCovers(CAP_LIMIT, ncap);
      ncap := ncap * 2;
    }
  }

  /** Rounding up leaves a large enough power of two as it is. */
  lemma RoundUpExact(n: nat, c: nat)
    requires IsPowerOfTwo(n) && IsPowerOfTwo(c) && 16 <= c <= n && (n == 16 || n / 2 < c)
    ensures n == c
  {
    if c < n {
      HalfCovers(n, c);
    }
  }

  /** Slot i of a probe for `key`: every slot passed so far holds other keys, and the
      slot `empty` is still ahead. */
  ghost predicate Probing<K, T>(kg: Keying<K, T>, t: seq<Bucket<T>>, key: T, i: nat, empty: nat) {
    && i < |t| && empty < |t| && t[empty].dib == 0
    && PassedOver(kg, t, kg.keyOf(key), Home(kg.hash(key), |t|), i)
    && Dist(Home(kg.hash(key), |t|), i, |t|) + Dist(i, empty, |t|) == Dist(Home(kg.hash(key), |t|), empty, |t|)
  }

  /** The code's match test against an occupied bucket decides key equality. */
  lemma MatchIsKey<K, T(!new)>(hash: T -> nat, compare: (T, T) -> int, kg: Keying<K, T>,
                               key: T, t: seq<Bucket<T>>, i: nat)
    requires Distinguishes(hash, compare, kg) && key in kg.universe
    requires AllKnown(kg, t) && i < |t| && t[i].dib > 0
    ensures kg.hash(key) == hash(key) % HASH_LIMIT
    ensures kg.hash(key) == t[i].hash && compare(key, t[i].item) == 0 <==> kg.keyOf(t[i].item) == kg.keyOf(key)
  {
    assert Known(kg, t[i]);
    var c := compare(key, t[i].item);
  }

  lemma ProbeStart<K, T>(kg: Keying<K, T>, t: seq<Bucket<T>>, key: T) returns (empty: nat)
    requires Count(t) < |t|
    ensures Probing(kg, t, key, Home(kg.hash(key), |t|), empty)
  {
    empty := FindEmpty(t);
  }

  lemma ProbeStep<K, T>(kg: Keying<K, T>, t: seq<Bucket<T>>, key: T, i: nat, empty: nat)
    requires Table(kg, t) && Probing(kg, t, key, i, empty)
    requires t[i].dib > 0 && kg.keyOf(t[i].item) != kg.keyOf(key)
    ensures Probing(kg, t, key, Next(i, |t|), empty)
    ensures Dist(Next(i, |t|), empty, |t|) < Dist(i, empty, |t|)
  {
    PassOne(kg, t, kg.keyOf(key), Home(kg.hash(key), |t|), i);
  }

  lemma ProbeMiss<K, T(!new)>(kg: Keying<K, T>, t: seq<Bucket<T>>, key: T, i: nat, empty: nat)
    requires Table(kg, t) && SameKeySameHash(kg) && key in kg.universe && Probing(kg, t, key, i, empty)
    requires t[i].dib == 0
    ensures Absent(kg, t, kg.keyOf(key), -1) && kg.keyOf(key) !in Contents(kg, t)
  {
    ProbeComplete(kg, t, key, i);
    AbsentIsMissing(kg, t, kg.keyOf(key));
  }

  /** Before the first swap of hashmap_set: the hand is still the new item, and the probe
      has met neither its key nor a reason to swap. */
  ghost predicate Searching<K, T>(kg: Keying<K, T>, t: seq<Bucket<T>>, x: T, i: nat, e: Bucket<T>, empty: nat) {
    && Probing(kg, t, x, i, empty)
    && HandAt(t, i, e) && e.item == x && e.hash == kg.hash(x)
  }

  /** A bucket that is empty or closer to home than the hand settles the search: the key
      is not in the table. */
  lemma SearchSettles<K, T(!new)>(kg: Keying<K, T>, t: seq<Bucket<T>>, x: T, i: nat, e: Bucket<T>, empty: nat)
    requires Table(kg, t) && SameKeySameHash(kg) && x in kg.universe
    requires Searching(kg, t, x, i, e, empty) && t[i].dib < e.dib
    ensures Carrying(kg, Contents(kg, t), x, t, i, e, empty)
    ensures kg.keyOf(x) !in Contents(kg, t)
  {
    ProbeComplete(kg, t, x, i);
    AbsentIsMissing(kg, t, kg.keyOf(x));
  }

  lemma SearchOn<K, T>(kg: Keying<K, T>, t: seq<Bucket<T>>, x: T, i: nat, e: Bucket<T>, empty: nat)
    requires Table(kg, t) && Searching(kg, t, x, i, e, empty)
    requires 0 < t[i].dib && e.dib <= t[i].dib && kg.keyOf(t[i].item) != kg.keyOf(x)
    ensures Searching(kg, t, x, Next(i, |t|), e.(dib := e.dib + 1), empty)
    ensures e.dib <= Count(t)
    ensures Dist(Next(i, |t|), empty, |t|) < Dist(i, empty, |t|)
  {
    ProbeStep(kg, t, x, i, empty);
    HandMovesOn(t, i, e, empty);
    CountBelow(t, empty);
    DibAtMostCount(t, i);
  }

  /** One step further from home, in a 16-bit field. */
  function Bumped<T>(b: Bucket<T>): Bucket<T> {
    b.(dib := (b.dib + 1) % DIB_LIMIT)
  }

  lemma BumpFits<T>(b: Bucket<T>)
    requires b.dib <= 65535
    ensures b.dib < 65535 ==> Bumped(b) == b.(dib := b.dib + 1)
    ensures b.dib == 65535 ==> Bumped(b) == b.(dib := 0)
  {
  }

  /** Table and hand after one turn of an insertion loop that neither stores nor replaces. */
  ghost function Turn<T>(t: seq<Bucket<T>>, i: nat, e: Bucket<T>): (seq<Bucket<T>>, Bucket<T>)
    requires i < |t|
  {
    if t[i].dib < e.dib then (t[i := e], Bumped(t[i])) else (t, Bumped(e))
  }

  /** The insertion loop of resize as a function: no match test.  `empty` bounds the walk. */
  ghost function Push<T>(t: seq<Bucket<T>>, i: nat, e: Bucket<T>, empty: nat): seq<Bucket<T>>
    requires i < |t| && empty < |t| && t[empty].dib == 0
    decreases Dist(i, empty, |t|)
  {
    if t[i].dib == 0 then t[i := e]
    else var (t', e') := Turn(t, i, e); Push(t', Next(i, |t|), e', empty)
  }

  lemma PushTurn<T>(t: seq<Bucket<T>>, i: nat, e: Bucket<T>, empty: nat)
    requires i < |t| && empty < |t| && t[empty].dib == 0
    ensures Push(t, i, e, empty) ==
            if t[i].dib == 0 then t[i := e]
            else Push(Turn(t, i, e).0, Next(i, |t|), Turn(t, i, e).1, empty)
    ensures t[i].dib > 0 ==> Dist(Next(i, |t|), empty, |t|) < Dist(i, empty, |t|)
  {
  }

  /** The insertion loop of hashmap_set as a function, with the item it replaces, if any. */
  ghost function Place<T>(compare: (T, T) -> int, t: seq<Bucket<T>>, i: nat, e: Bucket<T>, empty: nat):
      (r: (seq<Bucket<T>>, Option<T>))
    requires i < |t| && empty < |t| && t[empty].dib == 0
    ensures |r.0| == |t|
    decreases Dist(i, empty, |t|)
  {
    if t[i].dib == 0 then (t[i := e], None)
    else if e.hash == t[i].hash && compare(e.item, t[i].item) == 0 then
      (t[i := t[i].(item := e.item)], Some(t[i].item))
    else
      var (t', e') := Turn(t, i, e); Place(compare, t', Next(i, |t|), e', empty)
  }

  /** What inserting x into a table for m0 must achieve. */
  ghost predicate Inserted<K, T>(kg: Keying<K, T>, m0: map<K, T>, n: nat, x: T, t': seq<Bucket<T>>) {
    && Table(kg, t') && Count(t') == n
    && Contents(kg, t') == m0[kg.keyOf(x) := x]
  }

  /** The insertion loop as it would be if distances had no limit. */
  ghost function PushFree<T>(t: seq<Bucket<T>>, i: nat, e: Bucket<T>, empty: nat): (t': seq<Bucket<T>>)
    requires i < |t| && empty < |t| && t[empty].dib == 0
    ensures |t'| == |t|
    decreases Dist(i, empty, |t|)
  {
    if t[i].dib == 0 then t[i := e]
    else if t[i].dib < e.dib then PushFree(t[i := e], Next(i, |t|), t[i].(dib := t[i].dib + 1), empty)
    else PushFree(t, Next(i, |t|), e.(dib := e.dib + 1), empty)
  }

  /** The loop does not come back to a slot it has passed. */
  lemma {:induction false} FreeLeaves<T>(t: seq<Bucket<T>>, i: nat, e: Bucket<T>, empty: nat, s: nat)
    requires i < |t| && empty < |t| && t[empty].dib == 0 && s < |t|
    requires Dist(i, empty, |t|) < Dist(i, s, |t|)
    ensures PushFree(t, i, e, empty)[s] == t[s]
    decreases Dist(i, empty, |t|)
  {
    if t[i].dib == 0 {
    } else if t[i].dib < e.dib {
      FreeLeaves(t[i := e], Next(i, |t|), t[i].(dib := t[i].dib + 1), empty, s);
    } else {
      FreeLeaves(t, Next(i, |t|), e.(dib := e.dib + 1), empty, s);
    }
  }

  /** Whatever distance the bucket in hand has, some bucket ends up at least as far from home. */
  lemma {:induction false} FreeReaches<T>(t: seq<Bucket<T>>, i: nat, e: Bucket<T>, empty: nat) returns (s: nat)
    requires i < |t| && empty < |t| && t[empty].dib == 0
    ensures s < |t| && PushFree(t, i, e, empty)[s].dib >= e.dib
    decreases Dist(i, empty, |t|)
  {
    if t[i].dib == 0 {
      s := i;
    } else if t[i].dib < e.dib {
      FreeLeaves(t[i := e], Next(i, |t|), t[i].(dib := t[i].dib + 1), empty, i);
      s := i;
    } else {
      s := FreeReaches(t, Next(i, |t|), e.(dib := e.dib + 1), empty);
    }
  }

  /** Pushing an absent item adds exactly that item, if distances have no limit. */
  lemma {:induction false} FreeInserts<K, T>(
      kg: Keying<K, T>, m0: map<K, T>, x: T, t: seq<Bucket<T>>, i: nat, e: Bucket<T>, empty: nat)
    requires Carrying(kg, m0, x, t, i, e, empty)
    ensures Inserted(kg, m0, Count(t) + 1, x, PushFree(t, i, e, empty))
    decreases Dist(i, empty, |t|)
  {
    if t[i].dib == 0 {
      CarryEnd(kg, m0, x, t, i, e, empty);
    } else if t[i].dib < e.dib {
      CarrySwap(kg, m0, x, t, i, e, empty);
      FreeInserts(kg, m0, x, t[i := e], Next(i, |t|), t[i].(dib := t[i].dib + 1), empty);
    } else {
      CarryOn(kg, m0, x, t, i, e, empty);
      FreeInserts(kg, m0, x, t, Next(i, |t|), e.(dib := e.dib + 1), empty);
    }
  }

  /** The bucket one turn moves on to the next slot. */
  function MovedOn<T>(t: seq<Bucket<T>>, i: nat, e: Bucket<T>): Bucket<T>
    requires i < |t|
  {
    if t[i].dib < e.dib then t[i] else e
  }

  lemma TurnFits<T>(t: seq<Bucket<T>>, i: nat, e: Bucket<T>)
    requires i < |t| && MovedOn(t, i, e).dib + 1 < DIB_LIMIT
    ensures Turn(t, i, e) == if t[i].dib < e.dib then (t[i := e], t[i].(dib := t[i].dib + 1))
                             else (t, e.(dib := e.dib + 1))
  {
    BumpFits(MovedOn(t, i, e));
  }

  /** If the outcome of the unlimited loop fits 16 bits, so does the next bucket moved on. */
  lemma NarrowTurn<T>(t: seq<Bucket<T>>, i: nat, e: Bucket<T>, empty: nat)
    requires i < |t| && empty < |t| && t[empty].dib == 0 && t[i].dib > 0
    requires Narrow(PushFree(t, i, e, empty))
    ensures MovedOn(t, i, e).dib + 1 < DIB_LIMIT
  {
    if t[i].dib < e.dib {
      var s := FreeReaches(t[i := e], Next(i, |t|), t[i].(dib := t[i].dib + 1), empty);
    } else {
      var s := FreeReaches(t, Next(i, |t|), e.(dib := e.dib + 1), empty);
    }
  }

  /** One turn is the unlimited one when the outcome of the latter fits 16 bits. */
  lemma TurnIsFree<T>(t: seq<Bucket<T>>, i: nat, e: Bucket<T>, empty: nat)
    requires i < |t| && empty < |t| && t[empty].dib == 0 && t[i].dib > 0
    requires Narrow(PushFree(t, i, e, empty))
    ensures Turn(t, i, e) == if t[i].dib < e.dib then (t[i := e], t[i].(dib := t[i].dib + 1))
                             else (t, e.(dib := e.dib + 1))
    ensures PushFree(t, i, e, empty) == PushFree(Turn(t, i, e).0, Next(i, |t|), Turn(t, i, e).1, empty)
    ensures Dist(Next(i, |t|), empty, |t|) < Dist(i, empty, |t|)
  {
    NarrowTurn(t, i, e, empty);
    TurnFits(t, i, e);
    hide Turn, MovedOn, Narrow;
  }

  lemma {:induction false} PushIsFree<T>(t: seq<Bucket<T>>, i: nat, e: Bucket<T>, empty: nat)
    requires i < |t| && empty < |t| && t[empty].dib == 0 && Narrow(PushFree(t, i, e, empty))
    ensures Push(t, i, e, empty) == PushFree(t, i, e, empty)
    decreases Dist(i, empty, |t|)
  {
    if t[i].dib > 0 {
      TurnIsFree(t, i, e, empty);
      PushIsFree(Turn(t, i, e).0, Next(i, |t|), Turn(t, i, e).1, empty);
    }
  }

  /** Pushing adds at most one item, whatever becomes of the distances. */
  lemma {:induction false} PushCount<T>(t: seq<Bucket<T>>, i: nat, e: Bucket<T>, empty: nat)
    requires i < |t| && empty < |t| && t[empty].dib == 0
    ensures |Push(t, i, e, empty)| == |t| && Count(Push(t, i, e, empty)) <= Count(t) + 1
    decreases Dist(i, empty, |t|)
  {
    CountUpdate(t, i, e);
    if t[i].dib > 0 {
      PushCount(Turn(t, i, e).0, Next(i, |t|), Turn(t, i, e).1, empty);
    }
  }

  /** An absent item about to be pushed from its home slot. */
  lemma CarryStart<K, T>(kg: Keying<K, T>, x: T, t: seq<Bucket<T>>, empty: nat)
    requires Table(kg, t) && empty < |t| && t[empty].dib == 0 && x in kg.universe
    requires kg.keyOf(x) !in Contents(kg, t)
    ensures Carrying(kg, Contents(kg, t), x, t, Home(kg.hash(x), |t|), Bucket(kg.hash(x), 1, x), empty)
  {
    MissingIsAbsent(kg, t, kg.keyOf(x));
  }

  /** Pushing an absent item adds exactly that item, if the items with it are spread well
      enough for 16-bit distances. */
  lemma PushInserts<K, T>(kg: Keying<K, T>, x: T, t: seq<Bucket<T>>, empty: nat)
    requires Table(kg, t) && empty < |t| && t[empty].dib == 0 && x in kg.universe
    requires kg.keyOf(x) !in Contents(kg, t) && Count(t) + 1 < |t|
    requires Spread(kg, Contents(kg, t)[kg.keyOf(x) := x], |t|)
    ensures var home, e := Home(kg.hash(x), |t|), Bucket(kg.hash(x), 1, x);
            && Push(t, home, e, empty) == PushFree(t, home, e, empty)
            && Inserted(kg, Contents(kg, t), Count(t) + 1, x, Push(t, home, e, empty))
            && Narrow(Push(t, home, e, empty))
  {
    var home, e := Home(kg.hash(x), |t|), Bucket(kg.hash(x), 1, x);
    CarryStart(kg, x, t, empty);
    FreeInserts(kg, Contents(kg, t), x, t, home, e, empty);
    NarrowIffSpread(kg, PushFree(t, home, e, empty));
    PushIsFree(t, home, e, empty);
  }

  /** With the key absent, hashmap_set's loop never finds a match, not even for the buckets it
      displaces: it does what resize's loop does. */
  lemma {:induction false} PlaceIsPush<K, T(!new)>(
      hash: T -> nat, compare: (T, T) -> int, kg: Keying<K, T>, m0: map<K, T>, x: T,
      t: seq<Bucket<T>>, i: nat, e: Bucket<T>, empty: nat)
    requires Distinguishes(hash, compare, kg) && Carrying(kg, m0, x, t, i, e, empty)
    requires Narrow(PushFree(t, i, e, empty))
    ensures Place(compare, t, i, e, empty) == (Push(t, i, e, empty), None)
    decreases Dist(i, empty, |t|)
  {
    if t[i].dib > 0 {
      MatchIsKey(hash, compare, kg, e.item, t, i);
      TurnIsFree(t, i, e, empty);
      CarryTurn(kg, m0, x, t, i, e, empty);
      PlaceIsPush(hash, compare, kg, m0, x, Turn(t, i, e).0, Next(i, |t|), Turn(t, i, e).1, empty);
    }
  }

  /** One turn with an absent key keeps the loop's invariant. */
  lemma CarryTurn<K, T>(
      kg: Keying<K, T>, m0: map<K, T>, x: T, t: seq<Bucket<T>>, i: nat, e: Bucket<T>, empty: nat)
    requires Carrying(kg, m0, x, t, i, e, empty) && t[i].dib > 0 && Narrow(PushFree(t, i, e, empty))
    ensures Carrying(kg, m0, x, Turn(t, i, e).0, Next(i, |t|), Turn(t, i, e).1, empty)
  {
    TurnIsFree(t, i, e, empty);
    hide PushFree, Table, Contents, Absent, HandAt;
    if t[i].dib < e.dib {
      CarrySwap(kg, m0, x, t, i, e, empty);
    } else {
      CarryOn(kg, m0, x, t, i, e, empty);
    }
  }

  /** Replacing happens before any swap: the table changes in one bucket, and only in its item. */
  ghost predicate Replaced<K, T>(kg: Keying<K, T>, x: T, t: seq<Bucket<T>>, t': seq<Bucket<T>>) {
    exists i: nat :: i < |t| && t[i].dib > 0 && kg.keyOf(t[i].item) == kg.keyOf(x) && t' == t[i := t[i].(item := x)]
  }

  /** A present key is found, before any swap and before any distance overflows, and its item
      is replaced. */
  lemma {:induction false} PlaceFinds<K, T(!new)>(
      hash: T -> nat, compare: (T, T) -> int, kg: Keying<K, T>, x: T,
      t: seq<Bucket<T>>, i: nat, e: Bucket<T>, empty: nat)
    requires Distinguishes(hash, compare, kg) && x in kg.universe && Table(kg, t) && Narrow(t)
    requires Searching(kg, t, x, i, e, empty) && kg.keyOf(x) in Contents(kg, t)
    ensures Place(compare, t, i, e, empty).1 == Some(Contents(kg, t)[kg.keyOf(x)])
    ensures Inserted(kg, Contents(kg, t), Count(t), x, Place(compare, t, i, e, empty).0)
    ensures Replaced(kg, x, t, Place(compare, t, i, e, empty).0)
    decreases Dist(i, empty, |t|)
  {
    SameHash(hash, compare, kg);
    if t[i].dib < e.dib {
      SearchSettles(kg, t, x, i, e, empty);
    } else {
      MatchIsKey(hash, compare, kg, x, t, i);
      if kg.keyOf(t[i].item) == kg.keyOf(x) {
        ContentsSize(kg, t);
        PlaceReplaces(hash, compare, kg, x, t, i);
      } else {
        var j := ContentsOnly(kg, t, kg.keyOf(x));
        assert Known(kg, t[j]) && PlacedAt(t[j], j, |t|) && PlacedAt(e, i, |t|);
        SearchOn(kg, t, x, i, e, empty);
        BumpFits(e);
        PlaceFinds(hash, compare, kg, x, t, Next(i, |t|), Bumped(e), empty);
      }
    }
  }

  lemma PlaceReplaces<K, T(!new)>(
      hash: T -> nat, compare: (T, T) -> int, kg: Keying<K, T>, x: T, t: seq<Bucket<T>>, i: nat)
    requires Distinguishes(hash, compare, kg) && x in kg.universe && Table(kg, t)
    requires i < |t| && t[i].dib > 0 && kg.keyOf(t[i].item) == kg.keyOf(x)
    ensures Lookup(Contents(kg, t), kg.keyOf(x)) == Some(t[i].item)
    ensures Inserted(kg, Contents(kg, t), |Contents(kg, t)[kg.keyOf(x) := x]|, x, t[i := t[i].(item := x)])
  {
    SameHash(hash, compare, kg);
    ContentsSize(kg, t);
    ContentsHas(kg, t, i);
    ReplaceKeepsTable(kg, t, i, x);
  }

  /** hashmap_set's loop from the home slot, with the key present or absent. */
  lemma PlaceSearches<K, T(!new)>(
      hash: T -> nat, compare: (T, T) -> int, kg: Keying<K, T>, x: T, t: seq<Bucket<T>>, empty: nat)
    requires Distinguishes(hash, compare, kg) && x in kg.universe && Table(kg, t) && Narrow(t)
    requires empty < |t| && t[empty].dib == 0 && Count(t) + 1 < |t|
    ensures var m, home, e := Contents(kg, t), Home(kg.hash(x), |t|), Bucket(kg.hash(x), 1, x);
            var (t', previous) := Place(compare, t, home, e, empty);
            Spread(kg, m[kg.keyOf(x) := x], |t|) ==>
              && previous == Lookup(m, kg.keyOf(x))
              && Inserted(kg, m, |m[kg.keyOf(x) := x]|, x, t') && Narrow(t')
              && (kg.keyOf(x) in m ==> Replaced(kg, x, t, t'))
  {
    var m, home, e := Contents(kg, t), Home(kg.hash(x), |t|), Bucket(kg.hash(x), 1, x);
    ContentsSize(kg, t);
    if kg.keyOf(x) in m {
      assert Searching(kg, t, x, home, e, empty);
      PlaceFinds(hash, compare, kg, x, t, home, e, empty);
    } else if Spread(kg, m[kg.keyOf(x) := x], |t|) {
      PushInserts(kg, x, t, empty);
      CarryStart(kg, x, t, empty);
      PlaceIsPush(hash, compare, kg, m, x, t, home, e, empty);
    }
  }

  /** Replacing an item moves no hash, so it never makes matters worse. */
  lemma ReplacedSpread<K, T(!new)>(hash: T -> nat, compare: (T, T) -> int, kg: Keying<K, T>, t: seq<Bucket<T>>, x: T)
    requires Distinguishes(hash, compare, kg) && Table(kg, t) && x in kg.universe && kg.keyOf(x) in Contents(kg, t)
    requires Spread(kg, Contents(kg, t), |t|)
    ensures Spread(kg, Contents(kg, t)[kg.keyOf(x) := x], |t|)
  {
    SameHash(hash, compare, kg);
    var i := ContentsOnly(kg, t, kg.keyOf(x));
    assert Known(kg, t[i]);
    SameHashesSpread(kg, Contents(kg, t)[kg.keyOf(x) := x], Contents(kg, t), |t|);
  }

  /** The probe loop of hashmap_get and hashmap_delete as a function: the slot of the
      matching bucket, or none. */
  ghost function Seek<T>(compare: (T, T) -> int, h: nat, key: T, t: seq<Bucket<T>>, i: nat,
      empty: nat): (r: Option<nat>)
    requires i < |t| && empty < |t| && t[empty].dib == 0
    ensures r.Some? ==> r.value < |t| && t[r.value].dib > 0
    decreases Dist(i, empty, |t|)
  {
    if t[i].dib == 0 then None
    else if t[i].hash == h && compare(key, t[i].item) == 0 then Some(i)
    else Seek(compare, h, key, t, Next(i, |t|), empty)
  }

  lemma {:induction false} SeekFinds<K, T(!new)>(
      hash: T -> nat, compare: (T, T) -> int, kg: Keying<K, T>, key: T, t: seq<Bucket<T>>, i: nat, empty: nat)
    requires Distinguishes(hash, compare, kg) && key in kg.universe && Table(kg, t)
    requires Probing(kg, t, key, i, empty)
    ensures var s := Seek(compare, kg.hash(key), key, t, i, empty);
            if kg.keyOf(key) in Contents(kg, t)
            then s.Some? && t[s.value].item == Contents(kg, t)[kg.keyOf(key)]
                 && kg.keyOf(t[s.value].item) == kg.keyOf(key)
            else s == None
    decreases Dist(i, empty, |t|)
  {
    if t[i].dib == 0 {
      SameHash(hash, compare, kg);
      ProbeMiss(kg, t, key, i, empty);
    } else {
      MatchIsKey(hash, compare, kg, key, t, i);
      if kg.keyOf(t[i].item) == kg.keyOf(key) {
        ContentsHas(kg, t, i);
      } else {
        ProbeStep(kg, t, key, i, empty);
        SeekFinds(hash, compare, kg, key, t, Next(i, |t|), empty);
      }
    }
  }

  // ----- resize -----

  /** t2 holds exactly the items of the first i buckets of t. */
  ghost predicate Copied<K, T>(kg: Keying<K, T>, t: seq<Bucket<T>>, i: nat, t2: seq<Bucket<T>>)
    requires i <= |t|
  {
    && Table(kg, t2)
    && Contents(kg, t2) == Contents(kg, t[..i])
    && Count(t2) == Count(t[..i])
  }

  lemma CopySkip<K, T>(kg: Keying<K, T>, t: seq<Bucket<T>>, i: nat, t2: seq<Bucket<T>>)
    requires i < |t| && t[i].dib == 0 && Copied(kg, t, i, t2)
    ensures Copied(kg, t, i + 1, t2)
  {
    assert t[..i + 1][..i] == t[..i];
  }

  lemma CopyOne<K, T>(kg: Keying<K, T>, t: seq<Bucket<T>>, i: nat, t2: seq<Bucket<T>>, empty: nat)
    requires Table(kg, t) && i < |t| && t[i].dib > 0 && Copied(kg, t, i, t2)
    requires Spread(kg, Contents(kg, t), |t2|) && Count(t2) + 1 < |t2| && empty < |t2| && t2[empty].dib == 0
    ensures Copied(kg, t, i + 1, Push(t2, Home(t[i].hash, |t2|), t[i].(dib := 1), empty))
  {
    hide Spread, Push, PushFree;
    var e := t[i].(dib := 1);
    assert Known(kg, t[i]);
    NextIsNew(kg, t, i);
    hide Contents, Stepped, InPlace;
    PrefixSubmap(kg, t, i + 1);
    SubmapSpread(kg, Contents(kg, t[..i + 1]), Contents(kg, t), |t2|);
    assert e == Bucket(kg.hash(e.item), 1, e.item);
    PushInserts(kg, e.item, t2, empty);
  }

  lemma NextIsNew<K, T>(kg: Keying<K, T>, t: seq<Bucket<T>>, i: nat)
    requires Unique(kg, t) && i < |t| && t[i].dib > 0
    ensures var k := kg.keyOf(t[i].item);
            && k !in Contents(kg, t[..i]) && Contents(kg, t[..i + 1]) == Contents(kg, t[..i])[k := t[i].item]
            && Count(t[..i + 1]) == Count(t[..i]) + 1
  {
    AbsentIsMissing(kg, t[..i], kg.keyOf(t[i].item));
    assert t[..i + 1][..i] == t[..i];
  }

  lemma PrefixSubmap<K, T>(kg: Keying<K, T>, t: seq<Bucket<T>>, i: nat)
    requires Unique(kg, t) && i <= |t|
    ensures Submap(Contents(kg, t[..i]), Contents(kg, t))
  {
    forall k | k in Contents(kg, t[..i]) ensures k in Contents(kg, t) && Contents(kg, t)[k] == Contents(kg, t[..i])[k] {
      var s := ContentsOnly(kg, t[..i], k);
      ContentsHas(kg, t, s);
    }
  }

  lemma {:induction false} CountPrefix<T>(t: seq<Bucket<T>>, i: nat)
    requires i <= |t|
    ensures Count(t[..i]) <= Count(t)
    decreases |t| - i
  {
    if i == |t| {
      assert t[..i] == t;
    } else {
      CountPrefix(t, i + 1);
      assert t[..i + 1][..i] == t[..i];
    }
  }

  // ----- delete -----

  /** The backward shift of hashmap_delete as a function, from the slot p just freed. */
  ghost function ShiftBack<T>(t: seq<Bucket<T>>, p: nat, empty: nat): seq<Bucket<T>>
    requires p < |t| && empty < |t| && t[empty].dib == 0 && p != empty
    decreases Dist(p, empty, |t|)
  {
    var q := Next(p, |t|);
    if t[q].dib <= 1 then t[p := t[p].(dib := 0)]
    else ShiftBack(t[p := t[q].(dib := t[q].dib - 1)], q, empty)
  }

  lemma ShiftBackTurn<T>(t: seq<Bucket<T>>, p: nat, empty: nat)
    requires p < |t| && empty < |t| && t[empty].dib == 0 && p != empty
    ensures var q := Next(p, |t|);
            ShiftBack(t, p, empty) ==
            if t[q].dib <= 1 then t[p := t[p].(dib := 0)]
            else ShiftBack(t[p := t[q].(dib := t[q].dib - 1)], q, empty)
    ensures Dist(Next(p, |t|), empty, |t|) < Dist(p, empty, |t|)
  {
  }

  /** The shift closes the hole: the invariant is back and nothing else is lost. */
  lemma {:induction false} ShiftCloses<K, T>(kg: Keying<K, T>, t: seq<Bucket<T>>, p: nat, lim: nat, empty: nat)
    requires |t| > 2 && p < |t| && empty < |t| && t[empty].dib == 0 && p != empty
    requires Hole(kg, t[p := t[p].(dib := 0)], p, lim)
    ensures Table(kg, ShiftBack(t, p, empty))
    ensures Contents(kg, ShiftBack(t, p, empty)) == Contents(kg, t[p := t[p].(dib := 0)])
    ensures Count(ShiftBack(t, p, empty)) == Count(t[p := t[p].(dib := 0)])
    decreases Dist(p, empty, |t|)
  {
    hide ShiftBack;
    ShiftBackTurn(t, p, empty);
    var q := Next(p, |t|);
    var u := t[p := t[p].(dib := 0)];
    assert u[q] == t[q];
    if t[q].dib <= 1 {
      CloseHole(kg, u, p, lim);
    } else {
      var t' := t[p := t[q].(dib := t[q].dib - 1)];
      assert t'[q := t'[q].(dib := 0)] == Shift(u, p);
      ShiftKeepsHole(kg, u, p, lim);
      ShiftContents(kg, u, p);
      ShiftCloses(kg, t', q, t[q].dib, empty);
    }
  }

  /** Deleting the item of slot p. */
  lemma DeleteRemoves<K, T>(kg: Keying<K, T>, t: seq<Bucket<T>>, p: nat, empty: nat)
    requires Table(kg, t) && |t| > 2 && p < |t| && t[p].dib > 0 && empty < |t| && t[empty].dib == 0
    ensures var t' := ShiftBack(t[p := t[p].(dib := 0)], p, empty);
            && Table(kg, t')
            && Contents(kg, t') == Contents(kg, t) - {kg.keyOf(t[p].item)}
            && Count(t') == Count(t) - 1
  {
    var u := t[p := t[p].(dib := 0)];
    assert u[p := u[p].(dib := 0)] == u;
    DigHole(kg, t, p);
    ShiftCloses(kg, u, p, t[p].dib, empty);
  }

  // ----- iteration -----

  /** The items in slots `from` onwards, in slot order. */
  ghost function Yield<T>(t: seq<Bucket<T>>, from: nat): seq<T>
    decreases |t| - from
  {
    if from >= |t| then []
    else (if t[from].dib > 0 then [t[from].item] else []) + Yield(t, from + 1)
  }

  /** The slot behind the b-th item yielded. */
  lemma OneOver<T>(a: seq<T>, x: T, rest: seq<T>)
    ensures a + ([x] + rest) == a + [x] + rest
  {
  }

  lemma YieldAt<T>(t: seq<Bucket<T>>, from: nat)
    ensures from >= |t| ==> Yield(t, from) == []
    ensures from < |t| && t[from].dib == 0 ==> Yield(t, from) == Yield(t, from + 1)
    ensures from < |t| && t[from].dib > 0 ==> Yield(t, from) == [t[from].item] + Yield(t, from + 1)
  {
  }

  lemma {:induction false} YieldSlot<T>(t: seq<Bucket<T>>, from: nat, b: nat) returns (i: nat)
    requires b < |Yield(t, from)|
    ensures from <= i < |t| && t[i].dib > 0 && t[i].item == Yield(t, from)[b]
    decreases |t| - from
  {
    if t[from].dib > 0 && b == 0 {
      i := from;
    } else {
      i := YieldSlot(t, from + 1, if t[from].dib > 0 then b - 1 else b);
    }
  }

  lemma {:induction false} YieldHas<T>(t: seq<Bucket<T>>, from: nat, i: nat)
    requires from <= i < |t| && t[i].dib > 0
    ensures t[i].item in Yield(t, from)
    decreases |t| - from
  {
    if from < i {
      YieldHas(t, from + 1, i);
    }
  }

  lemma {:induction false} YieldCount<T>(t: seq<Bucket<T>>, from: nat)
    requires from <= |t|
    ensures Count(t[..from]) + |Yield(t, from)| == Count(t)
    decreases |t| - from
  {
    if from == |t| {
      assert t[..from] == t;
    } else {
      YieldCount(t, from + 1);
      assert t[..from + 1][..from] == t[..from];
    }
  }

  /** No key is yielded twice. */
  lemma {:induction false} YieldDistinct<K, T>(kg: Keying<K, T>, t: seq<Bucket<T>>, from: nat, a: nat, b: nat)
    requires Unique(kg, t) && a < b < |Yield(t, from)|
    ensures kg.keyOf(Yield(t, from)[a]) != kg.keyOf(Yield(t, from)[b])
    decreases |t| - from
  {
    if t[from].dib == 0 {
      YieldDistinct(kg, t, from + 1, a, b);
    } else if a == 0 {
      var i := YieldSlot(t, from + 1, b - 1);
    } else {
      YieldDistinct(kg, t, from + 1, a - 1, b - 1);
    }
  }

  /** A full iteration yields each pair of the map exactly once. */
  lemma YieldIsContents<K, T>(kg: Keying<K, T>, t: seq<Bucket<T>>)
    requires Unique(kg, t)
    ensures |Yield(t, 0)| == |Contents(kg, t)|
    ensures forall x :: x in Yield(t, 0) <==> Lookup(Contents(kg, t), kg.keyOf(x)) == Some(x)
    ensures forall a: nat, b: nat :: a < b < |Yield(t, 0)| ==> kg.keyOf(Yield(t, 0)[a]) != kg.keyOf(Yield(t, 0)[b])
  {
    YieldCount(t, 0);
    ContentsSize(kg, t);
    forall x ensures x in Yield(t, 0) <==> Lookup(Contents(kg, t), kg.keyOf(x)) == Some(x) {
      if x in Yield(t, 0) {
        var b: nat :| b < |Yield(t, 0)| && Yield(t, 0)[b] == x;
        var i := YieldSlot(t, 0, b);
        ContentsHas(kg, t, i);
      }
      if Lookup(Contents(kg, t), kg.keyOf(x)) == Some(x) {
        var i := ContentsOnly(kg, t, kg.keyOf(x));
        YieldHas(t, 0, i);
      }
    }
    forall a: nat, b: nat | a < b < |Yield(t, 0)| ensures kg.keyOf(Yield(t, 0)[a]) != kg.keyOf(Yield(t, 0)[b]) {
      YieldDistinct(kg, t, 0, a, b);
    }
  }

  /** The sizes resize is called with are in range. */
  lemma Sizes(n: nat)
    requires IsPowerOfTwo(n) && 16 <= n
    ensures IsPowerOfTwo(n * 2) && n % 4 == 0
    ensures 32 <= n ==> n / 10 <= n / 2 / 4 * 3
    ensures n < CAP_LIMIT && IsPowerOfTwo(CAP_LIMIT) ==> n * 2 <= CAP_LIMIT
  {
    PowerDividesBy4(n);
    if n < CAP_LIMIT && IsPowerOfTwo(CAP_LIMIT) {
      HalfCovers(CAP_LIMIT, n);
    }
  }

  // ----- runs -----

  datatype Op<+T> =
    | SetOp(item: T, memory: Memory)
    | GetOp(key: T)
    | DeleteOp(key: T, memory: Memory)
    | ClearOp(updateCap: bool, granted: bool)

  /** The item an operation returns, and whether it reported running out of memory. */
  datatype Answer<+T> = Answer(item: Option<T>, oom: bool)

  ghost predicate InPlay<K, T>(kg: Keying<K, T>, op: Op<T>) {
    match op
    case SetOp(x, _) => x in kg.universe
    case GetOp(k) => k in kg.universe
    case DeleteOp(k, _) => k in kg.universe
    case ClearOp(_, _) => true
  }

  /** What a map should hold, how many buckets it has, and the capacity it will not shrink
      below. */
  datatype Model<K, T> = Model(items: map<K, T>, size: nat, cap: nat)

  ghost predicate GrowthDue<K, T>(s: Model<K, T>) {
    |s.items| == s.size / 4 * 3
  }

  /** What an operation makes of a finite map, and when it changes the number of buckets. */
  ghost function After<K, T>(kg: Keying<K, T>, s: Model<K, T>, op: Op<T>): Model<K, T> {
    match op
    case SetOp(x, memory) =>
      if GrowthDue(s) && !memory.Granted() then s
      else Model(s.items[kg.keyOf(x) := x], if GrowthDue(s) then s.size * 2 else s.size, s.cap)
    case GetOp(_) => s
    case DeleteOp(k, memory) =>
      var items := s.items - {kg.keyOf(k)};
      var shrinks := kg.keyOf(k) in s.items && s.size > s.cap && |items| <= s.size / 10 && memory.Granted();
      Model(items, if shrinks then s.size / 2 else s.size, s.cap)
    case ClearOp(updateCap, _) =>
      var cap := if updateCap then s.size else s.cap; Model(map[], cap, cap)
  }

  /** How a finite map answers an operation; a set that has to grow may run out of memory. */
  ghost function AnswerOf<K, T>(kg: Keying<K, T>, s: Model<K, T>, op: Op<T>): Answer<T> {
    match op
    case SetOp(x, memory) =>
      if GrowthDue(s) && !memory.Granted() then Answer(None, true) else Answer(Lookup(s.items, kg.keyOf(x)), false)
    case GetOp(k) => Answer(Lookup(s.items, kg.keyOf(k)), false)
    case DeleteOp(k, _) => Answer(Lookup(s.items, kg.keyOf(k)), false)
    case ClearOp(_, _) => Answer(None, false)
  }

  /** The number of buckets stays within what the `int` of the constructor can double up to. */
  ghost predicate MayGrow<K, T>(s: Model<K, T>, op: Op<T>) {
    op.SetOp? && GrowthDue(s) ==> s.size < CAP_LIMIT
  }

  ghost predicate Suits<K, T>(kg: Keying<K, T>, s: Model<K, T>, op: Op<T>) {
    Spread(kg, After(kg, s, op).items, After(kg, s, op).size)
  }

  /** At each point of the run the items are spread well enough for the number of buckets. */
  ghost predicate Smooth<K, T>(kg: Keying<K, T>, s: Model<K, T>, ops: seq<Op<T>>)
    decreases |ops|
  {
    ops == [] || (MayGrow(s, ops[0]) && Suits(kg, s, ops[0]) && Smooth(kg, After(kg, s, ops[0]), ops[1..]))
  }

  ghost function AfterAll<K, T>(kg: Keying<K, T>, s: Model<K, T>, ops: seq<Op<T>>): Model<K, T>
    decreases |ops|
  {
    if ops == [] then s else AfterAll(kg, After(kg, s, ops[0]), ops[1..])
  }

  ghost function AnswersOf<K, T>(kg: Keying<K, T>, s: Model<K, T>, ops: seq<Op<T>>): seq<Answer<T>>
    decreases |ops|
  {
    if ops == [] then [] else [AnswerOf(kg, s, ops[0])] + AnswersOf(kg, After(kg, s, ops[0]), ops[1..])
  }

  /** The run never holds more than n items. */
  ghost predicate AtMost<K, T>(kg: Keying<K, T>, s: Model<K, T>, ops: seq<Op<T>>, n: nat)
    decreases |ops|
  {
    |s.items| <= n && (ops == [] || AtMost(kg, After(kg, s, ops[0]), ops[1..], n))
  }

  /** A run that never holds more than 65535 items is smooth whatever their hashes. */
  lemma {:induction false} FewIsSmooth<K, T>(kg: Keying<K, T>, s: Model<K, T>, ops: seq<Op<T>>)
    requires AtMost(kg, s, ops, 65535)
    ensures Smooth(kg, s, ops)
    decreases |ops|
  {
    if ops != [] {
      var s' := After(kg, s, ops[0]);
      FewIsSmooth(kg, s', ops[1..]);
      FewSpread(kg, s'.items, s'.size);
    }
  }

  class HashMap<K(!new), T(!new)> {
    const hash: T -> nat
    const compare: (T, T) -> int
    const zero: T                       // the item whose bytes are all zero
    ghost const kg: Keying<K, T>

    var buckets: array<Bucket<T>>
    var nbuckets: nat
    var mask: nat
    var cap: nat
    var count: nat
    var growat: nat
    var shrinkat: nat
    var oom: bool
    var spare: Scratch<T>
    var edata: Bucket<T>

    ghost function T0(): seq<Bucket<T>>
      reads this, buckets
      requires nbuckets <= buckets.Length
    {
      buckets[..nbuckets]
    }

    /** The finite map this object stands for. */
    ghost function View(): map<K, T>
      reads this, buckets
      requires nbuckets <= buckets.Length
    {
      Contents(kg, T0())
    }

    ghost function AsModel(): Model<K, T>
      reads this, buckets
      requires nbuckets <= buckets.Length
    {
      Model(View(), nbuckets, cap)
    }

    ghost predicate Sized()
      reads this
    {
      && IsPowerOfTwo(nbuckets) && 16 <= nbuckets <= buckets.Length && nbuckets <= CAP_LIMIT
      && mask == nbuckets - 1
      && growat == nbuckets / 4 * 3
      && shrinkat == nbuckets / 10
    }

    ghost predicate Valid()
      reads this, buckets
    {
      && Distinguishes(hash, compare, kg)
      && Sized()
      && IsPowerOfTwo(cap) && 16 <= cap <= nbuckets
      && Table(kg, T0())
      && count == Count(T0())
      && count <= growat
      && Narrow(T0())
    }

    function GetHash(x: T): nat {
      hash(x) % HASH_LIMIT
    }

    constructor (hash: T -> nat, compare: (T, T) -> int, zero: T, ghost kg: Keying<K, T>, n: nat)
      requires IsPowerOfTwo(n) && 16 <= n <= CAP_LIMIT
      ensures this.hash == hash && this.compare == compare && this.zero == zero && this.kg == kg
      ensures Sized() && nbuckets == n && cap == n && count == 0 && !oom && spare == Unused
      ensures fresh(buckets) && Table(kg, T0()) && Narrow(T0()) && Count(T0()) == 0 && View() == map[]
    {
      this.hash, this.compare, this.zero, this.kg := hash, compare, zero, kg;
      cap, nbuckets, mask, count, oom := n, n, n - 1, 0, false;
      growat, shrinkat := n / 4 * 3, n / 10;
      spare, edata := Unused, Bucket(0, 0, zero);
      buckets := new Bucket<T>[n](_ => Bucket(0, 0, zero));
      new;
      BlankIsTable(kg, T0());
    }

    /** hashmap_new_with_allocator: round the capacity up to a power of two of at least 16. */
    static method New(hash: T -> nat, compare: (T, T) -> int, zero: T, ghost kg: Keying<K, T>,
                      cap: nat, memory: Memory) returns (map_: HashMap?<K, T>)
      requires Distinguishes(hash, compare, kg) && cap <= 0x4000_0000
      ensures map_ == null <==> !memory.Granted()
      ensures map_ != null ==>
                && fresh(map_) && fresh(map_.buckets)
                && map_.hash == hash && map_.compare == compare && map_.zero == zero && map_.kg == kg
                && map_.Valid() && map_.View() == map[] && map_.count == 0
                && map_.cap == map_.nbuckets
                && cap <= map_.nbuckets && (map_.nbuckets == 16 || map_.nbuckets / 2 < cap)
    {
      var ncap := RoundUp(cap);
      if !memory.header {
        return null;
      }
      if !memory.buckets {
        return null;
      }
      map_ := new HashMap(hash, compare, zero, kg, ncap);
    }

    /** The probe loop shared by hashmap_get and hashmap_delete. */
    method Find(key: T, ghost empty: nat) returns (slot: Option<nat>)
      requires Sized() && empty < nbuckets && T0()[empty].dib == 0
      ensures slot == Seek(compare, GetHash(key), key, T0(), Home(GetHash(key), nbuckets), empty)
    {
      var h := GetHash(key);
      var i: nat := And(h, mask);
      ghost var t := T0();
      ghost var goal := Seek(compare, h, key, t, i, empty);
      while true
        invariant i < nbuckets && Seek(compare, h, key, t, i, empty) == goal
        decreases Dist(i, empty, nbuckets)
      {
        var bucket := buckets[i];
        if bucket.dib == 0 {
          return None;
        }
        if bucket.hash == h && compare(key, bucket.item) == 0 {
          return Some(i);
        }
        MaskedSuccessor(i, nbuckets);
        i := And(i + 1, mask);
      }
    }

    /** hashmap_get. */
    method Get(key: T) returns (found: Option<T>)
      requires Valid() && key in kg.universe
      ensures found == Lookup(View(), kg.keyOf(key))
    {
      ghost var empty := ProbeStart(kg, T0(), key);
      SeekFinds(hash, compare, kg, key, T0(), Home(kg.hash(key), nbuckets), empty);
      var slot := Find(key, empty);
      found := if slot.Some? then Some(buckets[slot.value].item) else None;
    }

    /** memcpy onto the bucket at slot i. */
    method Store(i: nat, b: Bucket<T>)
      requires i < nbuckets <= buckets.Length
      modifies buckets
      ensures T0() == old(T0())[i := b]
    {
      buckets[i] := b;
    }

    /** The loop of hashmap_set, lines 265-293. */
    method PlaceItem(item: T, ghost empty: nat) returns (previous: Option<T>)
      requires Sized() && empty < nbuckets && T0()[empty].dib == 0
      modifies this`edata, this`spare, this`count, buckets
      ensures (T0(), previous) ==
              Place(compare, old(T0()), Home(GetHash(item), nbuckets), Bucket(GetHash(item), 1, item), empty)
      ensures count == old(count) + (if previous.None? then 1 else 0)
    {
      edata := Bucket(GetHash(item), 1, item);
      var i: nat := And(edata.hash, mask);
      ghost var t := T0();
      ghost var goal := Place(compare, t, i, edata, empty);
      while true
        modifies this`edata, this`spare, this`count, buckets
        invariant i < nbuckets && t == T0() && t[empty].dib == 0
        invariant Place(compare, t, i, edata, empty) == goal
        invariant count == old(count)
        decreases Dist(i, empty, nbuckets)
      {
        var bucket := buckets[i];
        MaskedSuccessor(i, nbuckets);
        if bucket.dib == 0 {
          Store(i, edata);
          count := count + 1;
          return None;
        }
        if edata.hash == bucket.hash && compare(edata.item, bucket.item) == 0 {
          spare := OneItem(bucket.item);
          Store(i, bucket.(item := edata.item));
          return Some(spare.item);
        }
        if bucket.dib < edata.dib {
          spare := OneBucket(bucket);
          Store(i, edata);
          t := t[i := edata];
          edata := spare.bucket;
        }
        i := And(i + 1, mask);
        edata := Bumped(edata);
      }
    }

    /** The inner loop of resize, lines 221-236: move the bucket in slot i into `dest`,
        using slot i itself as scratch. */
    method Reinsert(dest: HashMap<K, T>, i: nat, ghost empty: nat)
      requires i < nbuckets <= buckets.Length && buckets != dest.buckets && this != dest
      requires dest.Sized() && empty < dest.nbuckets && dest.T0()[empty].dib == 0
      modifies buckets, dest.buckets, dest`spare
      ensures dest.T0() ==
              Push(old(dest.T0()), Home(old(buckets[i].hash), dest.nbuckets), old(buckets[i]).(dib := 1), empty)
      ensures T0() == old(T0())[i := buckets[i]]
    {
      hide Push;
      var entry := buckets[i].(dib := 1);
      Store(i, entry);
      var j: nat := And(entry.hash, dest.mask);
      ghost var t := dest.T0();
      ghost var goal := Push(t, j, entry, empty);
      while true
        invariant j < dest.nbuckets && t == dest.T0() && t[empty].dib == 0
        invariant Push(t, j, entry, empty) == goal
        invariant T0() == old(T0())[i := entry]
        decreases Dist(j, empty, dest.nbuckets)
      {
        var bucket := dest.buckets[j];
        PushTurn(t, j, entry, empty);
        if bucket.dib == 0 {
          dest.Store(j, entry);
          break;
        }
        if bucket.dib < entry.dib {
          dest.spare := OneBucket(bucket);
          dest.Store(j, entry);
          t := t[j := entry];
          entry := dest.spare.bucket;
        }
        MaskedSuccessor(j, dest.nbuckets);
        j := And(j + 1, dest.mask);
        entry := Bumped(entry);
        Store(i, entry);
      }
    }

    /** One bucket of the outer loop of resize, lines 217-236. */
    method MoveOne(dest: HashMap<K, T>, i: nat, ghost t: seq<Bucket<T>>)
      requires i < nbuckets <= buckets.Length && buckets != dest.buckets && this != dest
      requires |t| == nbuckets && buckets[i] == t[i] && dest.Sized()
      requires Table(kg, t) && Count(t) < dest.nbuckets - 1 && Count(dest.T0()) <= Count(t[..i])
      requires Spread(kg, Contents(kg, t), dest.nbuckets) ==> Copied(kg, t, i, dest.T0())
      modifies buckets, dest.buckets, dest`spare
      ensures T0() == old(T0())[i := buckets[i]]
      ensures Count(dest.T0()) <= Count(t[..i + 1])
      ensures Spread(kg, Contents(kg, t), dest.nbuckets) ==> Copied(kg, t, i + 1, dest.T0())
    {
      CountPrefix(t, i + 1);
      CountPrefix(t, i);
      assert t[..i + 1][..i] == t[..i];
      if buckets[i].dib == 0 {
        if Spread(kg, Contents(kg, t), dest.nbuckets) {
          CopySkip(kg, t, i, dest.T0());
        }
      } else {
        ghost var empty := FindEmpty(dest.T0());
        if Spread(kg, Contents(kg, t), dest.nbuckets) {
          CopyOne(kg, t, i, dest.T0(), empty);
        }
        PushCount(dest.T0(), Home(buckets[i].hash, dest.nbuckets), buckets[i].(dib := 1), empty);
        Reinsert(dest, i, empty);
      }
    }

    /** The outer loop of resize, lines 216-237. */
    method MoveAll(dest: HashMap<K, T>)
      requires nbuckets <= buckets.Length && buckets != dest.buckets && this != dest && dest.Sized()
      requires Table(kg, T0()) && Count(T0()) < dest.nbuckets - 1
      requires Table(kg, dest.T0()) && Count(dest.T0()) == 0 && dest.View() == map[] && dest.kg == kg
      modifies buckets, dest.buckets, dest`spare
      ensures Spread(kg, old(View()), dest.nbuckets) ==>
                Table(kg, dest.T0()) && dest.View() == old(View()) && Count(dest.T0()) == Count(old(T0()))
    {
      ghost var t := T0();
      var i: nat := 0;
      assert Copied(kg, t, 0, dest.T0());
      while i < nbuckets
        invariant i <= nbuckets
        invariant forall k: nat :: i <= k < nbuckets ==> T0()[k] == t[k]
        invariant Count(dest.T0()) <= Count(t[..i])
        invariant Spread(kg, Contents(kg, t), dest.nbuckets) ==> Copied(kg, t, i, dest.T0())
      {
        MoveOne(dest, i, t);
        i := i + 1;
      }
      assert t[..i] == t;
    }

    /** Take over the second table, lines 239-243. */
    method Adopt(map2: HashMap<K, T>)
      requires map2.Sized() && map2 != this
      modifies this`buckets, this`nbuckets, this`mask, this`growat, this`shrinkat
      ensures Sized() && nbuckets == map2.nbuckets && buckets == map2.buckets && T0() == map2.T0()
    {
      buckets := map2.buckets;
      nbuckets := map2.nbuckets;
      mask := map2.mask;
      growat := map2.growat;
      shrinkat := map2.shrinkat;
    }

    /** A valid map's items are spread well enough for its size. */
    lemma ValidSpreads()
      requires Valid()
      ensures Spread(kg, View(), nbuckets)
    {
      NarrowIffSpread(kg, T0());
    }

    /** resize: build a second table, move every bucket over, and adopt it.  It keeps the map
        exactly when the items are spread well enough for the new size. */
    method Resize(newCap: nat, memory: Memory) returns (ok: bool)
      requires Valid() && IsPowerOfTwo(newCap) && cap <= newCap <= CAP_LIMIT && count <= newCap / 4 * 3
      modifies this`buckets, this`nbuckets, this`mask, this`growat, this`shrinkat, buckets
      ensures ok == memory.Granted()
      ensures !ok ==> Valid() && nbuckets == old(nbuckets) && buckets == old(buckets) && T0() == old(T0())
      ensures ok ==> Sized() && nbuckets == newCap && fresh(buckets)
      ensures ok ==> (Spread(kg, old(View()), newCap) <==> Valid() && View() == old(View()))
    {
      var map2 := New(hash, compare, zero, kg, newCap, memory);
      if map2 == null {
        return false;
      }
      RoundUpExact(map2.nbuckets, newCap);
      ghost var m := View();
      hide Spread, Contents, IsPowerOfTwo;
      MoveAll(map2);
      Adopt(map2);
      if Spread(kg, m, newCap) {
        NarrowIffSpread(kg, T0());
      }
      ValidWhenTable();
      return true;
    }

    /** Growing always keeps the map. */
    method Grow(memory: Memory) returns (ok: bool)
      requires Valid() && nbuckets < CAP_LIMIT
      modifies this`buckets, this`nbuckets, this`mask, this`growat, this`shrinkat, buckets
      ensures ok == memory.Granted()
      ensures Valid() && View() == old(View())
      ensures ok ==> nbuckets == old(nbuckets) * 2 && fresh(buckets)
      ensures !ok ==> nbuckets == old(nbuckets) && buckets == old(buckets) && T0() == old(T0())
    {
      CapLimitIsPower();
      Sizes(nbuckets);
      ValidSpreads();
      DoubledSpread(kg, View(), nbuckets);
      ok := Resize(nbuckets * 2, memory);
    }

    /** hashmap_set.  It does its work exactly when the items, with the new one, are spread well
        enough for the number of buckets there are then. */
    method Set(item: T, memory: Memory) returns (previous: Option<T>)
      requires Valid() && item in kg.universe && (count == growat ==> nbuckets < 0x4000_0000)
      modifies this, buckets
      ensures cap == old(cap) && (buckets == old(buckets) || fresh(buckets)) && nbuckets <= buckets.Length
      ensures oom == (old(count) == old(growat) && !memory.Granted())
      ensures oom ==> Valid() && previous == None && View() == old(View()) && T0() == old(T0())
      ensures nbuckets == if old(count) == old(growat) && memory.Granted() then old(nbuckets) * 2 else old(nbuckets)
      ensures !oom ==>
                var m := old(View())[kg.keyOf(item) := item];
                Spread(kg, m, nbuckets) <==> Valid() && View() == m && previous == Lookup(old(View()), kg.keyOf(item))
      ensures var key := kg.keyOf(item); var m := old(View())[key := item];
              !oom && |m| <= 65535 ==>
                Valid() && View() == m && previous == if key in old(View()) then Some(old(View())[key]) else None
      ensures kg.keyOf(item) in old(View()) && !oom ==> Valid()
      ensures kg.keyOf(item) in old(View()) && old(count) != old(growat) ==> Replaced(kg, item, old(T0()), T0())
    {
      hide Spread, Replaced, Distinguishes, Table, Count, Narrow, IsPowerOfTwo;
      oom := false;
      FewAreSpread(View()[kg.keyOf(item) := item]);
      if count == growat {
        var ok := Grow(memory);
        if !ok {
          oom := true;
          return None;
        }
      }
      previous := Insert(item);
    }

    lemma FewAreSpread(m: map<K, T>)
      ensures |m| <= 65535 ==> forall n: nat :: Spread(kg, m, n) == true
    {
      if |m| <= 65535 {
        forall n: nat ensures Spread(kg, m, n) {
          FewSpread(kg, m, n);
        }
      }
    }

    /** hashmap_set after the capacity check. */
    method Insert(item: T) returns (previous: Option<T>)
      requires Valid() && item in kg.universe && count < growat
      modifies this`edata, this`spare, this`count, buckets
      ensures var m := old(View())[kg.keyOf(item) := item];
              Spread(kg, m, nbuckets) <==> Valid() && View() == m && previous == Lookup(old(View()), kg.keyOf(item))
      ensures kg.keyOf(item) in old(View()) ==> Valid() && Replaced(kg, item, old(T0()), T0())
    {
      hide Spread, Place, Replaced, Narrow;
      ghost var t, key := T0(), kg.keyOf(item);
      ghost var empty := ProbeStart(kg, t, item);
      ContentsSize(kg, t);
      assert kg.hash(item) == GetHash(item);
      ValidSpreads();
      if key in View() {
        ReplacedSpread(hash, compare, kg, t, item);
      }
      PlaceSearches(hash, compare, kg, item, t, empty);
      hide Table;
      previous := PlaceItem(item, empty);
      ValidWhenTable();
    }

    /** Sizes and counter being right, validity is that of the table; and no valid table holds
        items that are not spread well enough. */
    lemma ValidWhenTable()
      requires Distinguishes(hash, compare, kg) && Sized() && IsPowerOfTwo(cap) && 16 <= cap <= nbuckets
      requires count <= growat
      ensures Table(kg, T0()) == true && Narrow(T0()) == true && count == Count(T0()) ==> Valid()
      ensures Valid() ==> Spread(kg, View(), nbuckets) == true
    {
      if Valid() {
        ValidSpreads();
      }
    }

    /** The shift loop of hashmap_delete, lines 349-360. */
    method ShiftFrom(slot: nat, ghost empty: nat)
      requires Sized() && slot < nbuckets && empty < nbuckets && slot != empty && T0()[empty].dib == 0
      modifies buckets
      ensures T0() == ShiftBack(old(T0()), slot, empty)
    {
      var i: nat := slot;
      ghost var t := T0();
      ghost var goal := ShiftBack(t, slot, empty);
      while true
        invariant i < nbuckets && i != empty && t == T0() && t[empty].dib == 0
        invariant ShiftBack(t, i, empty) == goal
        decreases Dist(i, empty, nbuckets)
      {
        var prev := i;
        MaskedSuccessor(i, nbuckets);
        i := And(i + 1, mask);
        var bucket := buckets[i];
        if bucket.dib <= 1 {
          Store(prev, buckets[prev].(dib := 0));
          break;
        }
        Store(prev, bucket.(dib := bucket.dib - 1));
        t := t[prev := bucket.(dib := bucket.dib - 1)];
      }
    }

    /** Free one occupied slot, lines 348-361. */
    method Unlink(slot: nat)
      requires Valid() && slot < nbuckets && buckets[slot].dib > 0
      modifies this`spare, this`count, buckets
      ensures Valid() && count == old(count) - 1 && spare == OneItem(old(buckets[slot].item))
      ensures View() == old(View()) - {kg.keyOf(old(buckets[slot].item))}
    {
      ghost var t := T0();
      ghost var empty := FindEmpty(t);
      DeleteRemoves(kg, t, slot, empty);
      spare := OneItem(buckets[slot].item);
      Store(slot, buckets[slot].(dib := 0));
      ShiftFrom(slot, empty);
      count := count - 1;
      ContentsSize(kg, T0());
      NarrowIffSpread(kg, t);
      SubmapSpread(kg, Contents(kg, T0()), Contents(kg, t), nbuckets);
      NarrowIffSpread(kg, T0());
    }

    /** Find the item and take it out, lines 337-361. */
    method Take(key: T) returns (previous: Option<T>)
      requires Valid() && key in kg.universe
      modifies this`spare, this`count, buckets
      ensures Valid()
      ensures previous == Lookup(old(View()), kg.keyOf(key))
      ensures View() == old(View()) - {kg.keyOf(key)}
      ensures count == old(count) - (if previous.Some? then 1 else 0)
      ensures previous.Some? ==> spare == OneItem(previous.value)
    {
      ghost var t := T0();
      ghost var empty := ProbeStart(kg, t, key);
      SeekFinds(hash, compare, kg, key, t, Home(kg.hash(key), nbuckets), empty);
      var slot := Find(key, empty);
      if slot == None {
        return None;
      }
      Unlink(slot.value);
      return Some(spare.item);
    }

    /** Halve a sparse table, lines 362-367; a failed allocation is ignored. */
    method Shrink(memory: Memory)
      requires Valid()
      modifies this`buckets, this`nbuckets, this`mask, this`growat, this`shrinkat, buckets
      ensures (buckets == old(buckets) || fresh(buckets)) && nbuckets <= buckets.Length
      ensures nbuckets == if old(nbuckets) > cap && count <= old(shrinkat) && memory.Granted()
                          then old(nbuckets) / 2 else old(nbuckets)
      ensures Spread(kg, old(View()), nbuckets) <==> Valid() && View() == old(View())
    {
      ValidSpreads();
      if nbuckets > cap && count <= shrinkat {
        Sizes(nbuckets);
        HalfCovers(nbuckets, cap);
        var _ := Resize(nbuckets / 2, memory);
      }
    }

    /** hashmap_delete.  It does its work exactly when the remaining items are spread well enough
        for the number of buckets there are then; only shrinking can fail in this. */
    method Delete(key: T, memory: Memory) returns (previous: Option<T>)
      requires Valid() && key in kg.universe
      modifies this, buckets
      ensures cap == old(cap) && !oom && (buckets == old(buckets) || fresh(buckets)) && nbuckets <= buckets.Length
      ensures previous == Lookup(old(View()), kg.keyOf(key))
      ensures count == old(count) - (if previous.Some? then 1 else 0)
      ensures nbuckets == if previous.Some? && old(nbuckets) > cap && count <= old(shrinkat) && memory.Granted()
                          then old(nbuckets) / 2 else old(nbuckets)
      ensures var m := old(View()) - {kg.keyOf(key)}; Spread(kg, m, nbuckets) <==> Valid() && View() == m
    {
      oom := false;
      previous := Take(key);
      if previous.Some? {
        Shrink(memory);
        previous := Some(spare.item);
      } else {
        ValidSpreads();
      }
    }

    /** hashmap_clear; `granted` says whether the allocation succeeds.  Freeing the old
        items is left to the caller. */
    method Clear(updateCap: bool, granted: bool)
      requires Valid()
      modifies this, buckets
      ensures Valid() && View() == map[] && count == 0 && oom == old(oom)
      ensures cap == (if updateCap then old(nbuckets) else old(cap)) && nbuckets == cap
      ensures buckets == old(buckets) || fresh(buckets)
    {
      hide Distinguishes, Contents, IsPowerOfTwo, Table;
      count := 0;
      if updateCap {
        cap := nbuckets;
      } else if nbuckets != cap {
        if granted {
          buckets := new Bucket<T>[cap](_ => Bucket(0, 0, zero));
        }
        nbuckets := cap;
      }
      Erase();
      SetLimits();
    }

    /** Lines 202-204. */
    method SetLimits()
      requires 0 < nbuckets <= buckets.Length
      modifies this`mask, this`growat, this`shrinkat
      ensures mask == nbuckets - 1 && growat == nbuckets / 4 * 3 && shrinkat == nbuckets / 10
      ensures T0() == old(T0())
    {
      mask := nbuckets - 1;
      growat := nbuckets / 4 * 3;
      shrinkat := nbuckets / 10;
    }

    /** memset of all buckets to zero. */
    method Erase()
      requires 0 < nbuckets <= buckets.Length
      modifies buckets
      ensures Table(kg, T0()) && Narrow(T0()) && Count(T0()) == 0 && View() == map[]
    {
      forall k | 0 <= k < nbuckets {
        buckets[k] := Bucket(0, 0, zero);
      }
      BlankIsTable(kg, T0());
    }

    /** Capacity arithmetic: some bucket is always empty, and no dib is larger than the number of
        items, or than its 16-bit field holds. */
    lemma Capacity(i: nat)
      requires Valid() && i < nbuckets
      ensures 16 <= cap <= nbuckets && count <= growat < nbuckets
      ensures 4 * growat == 3 * nbuckets && 10 * shrinkat <= nbuckets < 10 * shrinkat + 10
      ensures count == |View()|
      ensures buckets[i].dib <= count && buckets[i].dib <= 65535
      ensures exists e: nat :: e < nbuckets && buckets[e].dib == 0
    {
      ContentsSize(kg, T0());
      PowerDividesBy4(nbuckets);
      DibAtMostCount(T0(), i);
      var e := FindEmpty(T0());
      assert T0()[e] == buckets[e];
    }

    lemma CountAfterDelete(key: T)
      requires Valid()
      ensures |View() - {kg.keyOf(key)}| == count - (if kg.keyOf(key) in View() then 1 else 0)
    {
      ContentsSize(kg, T0());
      if kg.keyOf(key) in View() {
        assert (View() - {kg.keyOf(key)})[kg.keyOf(key) := View()[kg.keyOf(key)]] == View();
      } else {
        assert View() - {kg.keyOf(key)} == View();
      }
    }

    lemma CountIsSize()
      requires Valid()
      ensures count == |View()|
    {
      ContentsSize(kg, T0());
    }

    /** hashmap_iter: the next item at or after cursor i, and the cursor behind it. */
    method Iter(i: nat) returns (more: bool, i': nat, item: Option<T>)
      requires nbuckets <= buckets.Length
      ensures more ==> i < i' <= nbuckets && item.Some?
      ensures more ==> Yield(T0(), i) == [item.value] + Yield(T0(), i')
      ensures !more ==> Yield(T0(), i) == []
      ensures more ==> buckets[i' - 1].dib > 0 && item == Some(buckets[i' - 1].item)
      ensures forall j: nat :: i <= j < (if more then i' - 1 else nbuckets) ==> buckets[j].dib == 0
    {
      i', item := i, None;
      while true
        invariant i <= i' && (i' == i || i' <= nbuckets)
        invariant Yield(T0(), i) == Yield(T0(), i')
        invariant forall j: nat :: i <= j < i' && j < nbuckets ==> buckets[j].dib == 0
        decreases nbuckets - i'
      {
        if i' >= nbuckets {
          return false, i', None;
        }
        var bucket := buckets[i'];
        i' := i' + 1;
        if bucket.dib != 0 {
          return true, i', Some(bucket.item);
        }
      }
    }

    /** hashmap_scan: offer every item to `iter` until it declines. */
    method Scan(iter: T -> bool) returns (done: bool, offered: seq<T>)
      requires nbuckets <= buckets.Length
      ensures offered <= Yield(T0(), 0)
      ensures done ==> offered == Yield(T0(), 0) && forall x :: x in offered ==> iter(x)
      ensures !done ==> offered != [] && !iter(offered[|offered| - 1])
                        && forall x :: x in offered[..|offered| - 1] ==> iter(x)
    {
      hide Yield;
      offered := [];
      for i := 0 to nbuckets
        invariant offered + Yield(T0(), i) == Yield(T0(), 0)
        invariant forall x :: x in offered ==> iter(x)
      {
        YieldAt(T0(), i);
        var bucket := buckets[i];
        if bucket.dib != 0 {
          OneOver(offered, bucket.item, Yield(T0(), i + 1));
          offered := offered + [bucket.item];
          if !iter(bucket.item) {
            return false, offered;
          }
        }
      }
      YieldAt(T0(), nbuckets);
      assert offered + [] == offered;
      return true, offered;
    }

    /** The loop `while (hashmap_iter(map, &i, &item))` from cursor 0. */
    method IterateAll() returns (items: seq<T>)
      requires nbuckets <= buckets.Length
      ensures items == Yield(T0(), 0)
    {
      hide *;
      items := [];
      var cursor: nat := 0;
      while true
        invariant items + Yield(T0(), cursor) == Yield(T0(), 0)
        invariant cursor <= nbuckets
        decreases nbuckets - cursor
      {
        var more, next, item := Iter(cursor);
        if !more {
          assert items + [] == items;
          return;
        }
        OneOver(items, item.value, Yield(T0(), next));
        items, cursor := items + [item.value], next;
      }
    }
  }

  /** One operation.  It does what it does to a finite map exactly when the items are then
      spread well enough for the number of buckets. */
  method Apply<K(!new), T(!new)>(hm: HashMap<K, T>, op: Op<T>) returns (answer: Answer<T>)
    requires hm.Valid() && InPlay(hm.kg, op) && MayGrow(hm.AsModel(), op)
    modifies hm, hm.buckets
    ensures (hm.buckets == old(hm.buckets) || fresh(hm.buckets)) && hm.nbuckets <= hm.buckets.Length
    ensures Suits(hm.kg, old(hm.AsModel()), op) <==>
              hm.Valid() && hm.AsModel() == After(hm.kg, old(hm.AsModel()), op)
              && answer == AnswerOf(hm.kg, old(hm.AsModel()), op)
    ensures op.GetOp? || op.ClearOp? ==> hm.Valid()
  {
    hm.ValidSpreads();
    hm.CountIsSize();
    hide Spread, Table, Distinguishes, Contents;
    answer := Answer(None, false);
    match op {
      case SetOp(x, memory) =>
        var r := hm.Set(x, memory);
        answer := Answer(r, hm.oom);
      case GetOp(k) =>
        var r := hm.Get(k);
        answer := Answer(r, false);
      case DeleteOp(k, memory) =>
        hm.CountAfterDelete(k);
        var r := hm.Delete(k, memory);
        answer := Answer(r, false);
      case ClearOp(updateCap, granted) =>
        hm.Clear(updateCap, granted);
        hm.ValidSpreads();
    }
  }

  /** Over every sequence of operations, of any length and with allocation failing anywhere,
      the table answers as a finite map does, as long as the items stay spread well enough. */
  method Run<K(!new), T(!new)>(hm: HashMap<K, T>, ops: seq<Op<T>>) returns (answers: seq<Answer<T>>)
    requires hm.Valid() && forall op :: op in ops ==> InPlay(hm.kg, op)
    requires Smooth(hm.kg, hm.AsModel(), ops)
    modifies hm, hm.buckets
    ensures hm.Valid() && hm.AsModel() == AfterAll(hm.kg, old(hm.AsModel()), ops)
    ensures answers == AnswersOf(hm.kg, old(hm.AsModel()), ops)
    ensures hm.count == |hm.View()|
  {
    hide After, AnswerOf, Suits, InPlay, MayGrow, Table, Contents, Distinguishes, Count, Narrow;
    answers := [];
    ghost var s := hm.AsModel();
    for i := 0 to |ops|
      invariant hm.Valid() && (hm.buckets == old(hm.buckets) || fresh(hm.buckets))
      invariant Smooth(hm.kg, hm.AsModel(), ops[i..])
      invariant answers + AnswersOf(hm.kg, hm.AsModel(), ops[i..]) == AnswersOf(hm.kg, s, ops)
      invariant AfterAll(hm.kg, hm.AsModel(), ops[i..]) == AfterAll(hm.kg, s, ops)
    {
      assert ops[i..][0] == ops[i] && ops[i..][1..] == ops[i + 1..];
      var answer := Apply(hm, ops[i]);
      answers := answers + [answer];
    }
    assert ops[|ops|..] == [];
    hm.CountIsSize();
  }
}
