/** The lookup table shared by Collection and MultiCollection: quadratic probing
    over five places, and rehashing when none of them is free. */
module HashIndex {

  import opened Wrappers
  import opened Powers

  type Key = nat

  /** Key{}: marks an empty bucket. */
  const NO_KEY: Key := 0

  /** The square of the key, as a 64-bit number, modulo the table size. */
  function HashOf(key: Key, n: nat): (h: nat)
    requires 0 < n
    ensures h < n
  {
    (key * key) % 0x1_0000_0000_0000_0000 % n
  }

  /** The place to look at after `count` misses. */
  function Probe(first: nat, count: nat, n: nat): (b: nat)
    requires first < n
    ensures b < n
  {
    if count == 0 then first else (first + count * count) % n
  }

  lemma MultiplesApart(q: nat, p: nat, m: nat)
    requires q < p
    ensures q * m + m <= p * m
  {
    if q + 1 < p { MultiplesApart(q, p - 1, m); }
    assert p * m == (p - 1) * m + m;
  }

  /** There is only one remainder. */
  lemma OneRemainder(q: nat, r: nat, p: nat, s: nat, m: nat)
    requires r < m && s < m && q * m + r == p * m + s
    ensures r == s
  {
    if q < p { MultiplesApart(q, p, m); }
    if p < q { MultiplesApart(p, q, m); }
  }

  lemma ModShift(a: nat, b: nat, q: nat, m: nat)
    requires 0 < m && a == b + q * m
    ensures a % m == b % m
  {
    assert (b / m + q) * m == (b / m) * m + q * m;
    OneRemainder(a / m, a % m, b / m + q, b % m, m);
  }

  /** Keys that add up to 2^64 have equal squares, so they compete for the same places. */
  lemma HashMirrors(key: Key, n: nat)
    requires 0 < n && key <= 0x1_0000_0000_0000_0000
    ensures HashOf(0x1_0000_0000_0000_0000 - key, n) == HashOf(key, n)
  {
    var m := 0x1_0000_0000_0000_0000;
    var other := m - key;
    if key <= other {
      assert other * other == key * key + (m - 2 * key) * m;
      ModShift(other * other, key * key, m - 2 * key, m);
    } else {
      assert key * key == other * other + (m - 2 * other) * m;
      ModShift(key * key, other * other, m - 2 * other, m);
    }
  }

  /** Each place lies the next odd number behind the one before. */
  lemma ProbeSteps(first: nat, count: nat, n: nat)
    requires first < n
    ensures Probe(first, count + 1, n) == (Probe(first, count, n) + (2 * count + 1)) % n
  {
    var before := first + count * count;
    assert (count + 1) * (count + 1) == count * count + (2 * count + 1);
    if 0 < count {
      ModShift(before + (2 * count + 1), before % n + (2 * count + 1), before / n, n);
    }
  }

  /** b is one of the five places of a key whose first place is `first`. */
  predicate IsProbe(b: nat, first: nat, n: nat)
    requires first < n
  {
    || b == Probe(first, 0, n) || b == Probe(first, 1, n) || b == Probe(first, 2, n)
    || b == Probe(first, 3, n) || b == Probe(first, 4, n)
  }

  /** The first of the places from number `count` on that holds `wanted`. */
  function FindFrom(wanted: Key, keys: seq<Key>, first: nat, count: nat): (r: Option<nat>)
    requires first < |keys| && count <= 4
    decreases 4 - count
  {
    var b := Probe(first, count, |keys|);
    if keys[b] == wanted then Some(b)
    else if count == 4 then None
    else FindFrom(wanted, keys, first, count + 1)
  }

  method FindBucket(wanted: Key, keys: seq<Key>, first: nat) returns (r: Option<nat>)
    requires first < |keys|
    ensures r == FindFrom(wanted, keys, first, 0)
  {
    var bucket := first;
    var count := 0;
    while keys[bucket] != wanted
      invariant 0 <= count <= 4 && bucket == Probe(first, count, |keys|)
      invariant FindFrom(wanted, keys, first, 0) == FindFrom(wanted, keys, first, count)
      decreases 4 - count
    {
      if count >= 4 {
        return None;
      }
      count := count + 1;
      bucket := Probe(first, count, |keys|);
    }
    return Some(bucket);
  }

  /** A hit is one of the five places and holds what was looked for; a miss means
      none of the five does. */
  lemma FindExactly(wanted: Key, keys: seq<Key>, first: nat)
    requires first < |keys|
    ensures var r := FindFrom(wanted, keys, first, 0);
      match r
      case Some(b) => b < |keys| && keys[b] == wanted && IsProbe(b, first, |keys|)
      case None => forall b :: 0 <= b < |keys| && IsProbe(b, first, |keys|) ==> keys[b] != wanted
  {
    var f1 := FindFrom(wanted, keys, first, 1);
    var f2 := FindFrom(wanted, keys, first, 2);
    var f3 := FindFrom(wanted, keys, first, 3);
    var f4 := FindFrom(wanted, keys, first, 4);
  }

  /** `where` says in which bucket each key is: one of its five places, and no
      bucket holds any other key. */
  ghost predicate Located(keys: seq<Key>, where: map<Key, nat>) {
    && 0 < |keys|
    && (forall k :: k in where ==>
        k != NO_KEY && where[k] < |keys| && keys[where[k]] == k && IsProbe(where[k], HashOf(k, |keys|), |keys|))
    && (forall b :: 0 <= b < |keys| && keys[b] != NO_KEY ==> keys[b] in where && where[keys[b]] == b)
  }

  /** Looking a key up finds exactly its bucket. */
  lemma FindLocates(keys: seq<Key>, where: map<Key, nat>, k: Key)
    requires Located(keys, where) && k != NO_KEY
    ensures FindFrom(k, keys, HashOf(k, |keys|), 0) == if k in where then Some(where[k]) else None
  {
    FindExactly(k, keys, HashOf(k, |keys|));
  }

  /** Occupying a free place of a new key. */
  lemma LocatedAdd(keys: seq<Key>, where: map<Key, nat>, k: Key, b: nat)
    requires Located(keys, where) && k != NO_KEY && k !in where
    requires b < |keys| && keys[b] == NO_KEY && IsProbe(b, HashOf(k, |keys|), |keys|)
    ensures Located(keys[b := k], where[k := b])
  {
  }

  /** Erasing a key hides no other key: each keeps its bucket. */
  lemma LocatedRemove(keys: seq<Key>, where: map<Key, nat>, k: Key)
    requires Located(keys, where) && k in where
    ensures Located(keys[where[k] := NO_KEY], where - {k})
  {
  }

  datatype Table<S> = Table(slots: seq<S>, keys: seq<Key>)

  /** Buckets without a key carry the zero slot. */
  predicate Blank<S(==)>(table: Table<S>, zero: S) {
    |table.slots| == |table.keys| &&
    forall b :: 0 <= b < |table.keys| && table.keys[b] == NO_KEY ==> table.slots[b] == zero
  }

  /** The same keys with the same slots, wherever they are now. */
  ghost predicate SameEntries<S>(a: Table<S>, inA: map<Key, nat>, b: Table<S>, inB: map<Key, nat>) {
    && |a.slots| == |a.keys| && |b.slots| == |b.keys|
    && inA.Keys == inB.Keys
    && forall k :: k in inA ==> inA[k] < |a.slots| && inB[k] < |b.slots| && a.slots[inA[k]] == b.slots[inB[k]]
  }

  /** One of the five places of the key is free. */
  ghost predicate FreePlace(keys: seq<Key>, key: Key) {
    0 < |keys| && exists b :: 0 <= b < |keys| && keys[b] == NO_KEY && IsProbe(b, HashOf(key, |keys|), |keys|)
  }

  /** Looking for an empty bucket finds one exactly if there is a free place. */
  lemma FreePlaceFound(keys: seq<Key>, key: Key)
    requires 0 < |keys|
    ensures FindFrom(NO_KEY, keys, HashOf(key, |keys|), 0).Some? <==> FreePlace(keys, key)
  {
    FindExactly(NO_KEY, keys, HashOf(key, |keys|));
  }

  /** The first free place of the key. */
  method FindEmptyBucket(key: Key, keys: seq<Key>) returns (bucket: Option<nat>)
    requires 0 < |keys|
    ensures bucket == FindFrom(NO_KEY, keys, HashOf(key, |keys|), 0)
    ensures bucket.Some? <==> FreePlace(keys, key)
    ensures bucket.Some? ==> bucket.value < |keys| && keys[bucket.value] == NO_KEY
    ensures bucket.Some? ==> IsProbe(bucket.value, HashOf(key, |keys|), |keys|)
  {
    bucket := FindBucket(NO_KEY, keys, HashOf(key, |keys|));
    FindExactly(NO_KEY, keys, HashOf(key, |keys|));
    FreePlaceFound(keys, key);
  }

  // ---------------------------------------------------------- when growing works

  /** The table with the key in the first of its places that is free. */
  function Put(into: seq<Key>, key: Key): (r: Option<seq<Key>>)
    requires 0 < |into|
    ensures r.Some? ==> |r.value| == |into|
  {
    var bucket := FindFrom(NO_KEY, into, HashOf(key, |into|), 0);
    FindExactly(NO_KEY, into, HashOf(key, |into|));
    if bucket.None? then None else Some(into[bucket.value := key])
  }

  /** An empty table of this size after the first n keys were put in one by one, or None
      if one of them found no place. */
  function Refilled(keys: seq<Key>, size: nat, n: nat): (r: Option<seq<Key>>)
    requires 0 < size && n <= |keys|
    ensures r.Some? ==> |r.value| == size
  {
    if n == 0 then Some(seq(size, _ => NO_KEY))
    else
      var rest := Refilled(keys, size, n - 1);
      if rest.None? || keys[n - 1] == NO_KEY then rest else Put(rest.value, keys[n - 1])
  }

  /** The first i keys fit into a table of this size, but the next finds no place. */
  ghost predicate StopsAt(keys: seq<Key>, size: nat, i: nat)
    requires 0 < size
  {
    && i < |keys| && keys[i] != NO_KEY
    && Refilled(keys, size, i).Some? && !FreePlace(Refilled(keys, size, i).value, keys[i])
  }

  /** Refilling gives up exactly if some key finds all its places taken by those before
      it. */
  lemma {:induction false} GivesUpExactly(keys: seq<Key>, size: nat, n: nat)
    requires 0 < size && n <= |keys|
    ensures Refilled(keys, size, n).None? <==> exists i: nat :: i < n && StopsAt(keys, size, i)
    decreases n
  {
    if n != 0 {
      var rest := Refilled(keys, size, n - 1);
      GivesUpExactly(keys, size, n - 1);
      if rest.Some? {
        FreePlaceFound(rest.value, keys[n - 1]);
        assert Refilled(keys, size, n).None? <==> StopsAt(keys, size, n - 1);
      }
    }
  }

  /** A refill that gave up on the first keys gives up on all of them. */
  lemma {:induction false} RefillStops(keys: seq<Key>, size: nat, i: nat, n: nat)
    requires 0 < size && i <= n <= |keys| && Refilled(keys, size, i).None?
    ensures Refilled(keys, size, n).None?
    decreases n
  {
    if i < n { RefillStops(keys, size, i, n - 1); }
  }

  /** The keys in the least power of two of buckets above what they have, if they fit. */
  function GrownOnce(keys: seq<Key>): (r: Option<seq<Key>>)
    ensures r.Some? ==> |keys| < |r.value|
  {
    Refilled(keys, PowerAtLeast(|keys| + 1), |keys|)
  }

  /** The keys after growing so many times, or None if a rehash gives up on the way. */
  function Grown(keys: seq<Key>, times: nat): (r: Option<seq<Key>>)
    requires 0 < |keys|
    ensures r.Some? ==> |keys| + times <= |r.value|
  {
    if times == 0 then Some(keys)
    else
      var before := Grown(keys, times - 1);
      if before.None? then None else GrownOnce(before.value)
  }

  /** The key finds a free place after growing at most `budget` times. */
  ghost predicate FindsPlace(keys: seq<Key>, key: Key, budget: nat)
    requires 0 < |keys|
  {
    exists g: nat :: g <= budget && Grown(keys, g).Some? && FreePlace(Grown(keys, g).value, key)
  }

  lemma {:induction false} GrowthStops(keys: seq<Key>, g: nat, h: nat)
    requires 0 < |keys| && g <= h && Grown(keys, g).None?
    ensures Grown(keys, h).None?
    decreases h
  {
    if g < h { GrowthStops(keys, g, h - 1); }
  }

  lemma {:induction false} GrownNext(keys: seq<Key>, bigger: seq<Key>, g: nat)
    requires 0 < |keys| && 0 < |bigger| && GrownOnce(keys) == Some(bigger)
    ensures Grown(keys, g + 1) == Grown(bigger, g)
    decreases g
  {
    if g == 0 {
      assert Grown(keys, 0) == Some(keys);
    } else {
      GrownNext(keys, bigger, g - 1);
    }
  }

  /** A key without a free place finds one exactly if it does in the table grown once. */
  lemma GrowthGoesOn(keys: seq<Key>, key: Key, budget: nat, bigger: seq<Key>)
    requires 0 < |keys| && 0 < |bigger| && 0 < budget && !FreePlace(keys, key)
    requires GrownOnce(keys) == Some(bigger)
    ensures FindsPlace(keys, key, budget) <==> FindsPlace(bigger, key, budget - 1)
  {
    if FindsPlace(keys, key, budget) {
      var g: nat :| g <= budget && Grown(keys, g).Some? && FreePlace(Grown(keys, g).value, key);
      GrownNext(keys, bigger, g - 1);
    }
    if FindsPlace(bigger, key, budget - 1) {
      var g: nat :| g <= budget - 1 && Grown(bigger, g).Some? && FreePlace(Grown(bigger, g).value, key);
      GrownNext(keys, bigger, g);
    }
  }

  /** Growing ends with a free place, or because memory is used up or the next rehash
      gives up. */
  lemma GrowthEnds(keys: seq<Key>, key: Key, budget: nat)
    requires 0 < |keys|
    requires FreePlace(keys, key) || budget == 0 || GrownOnce(keys).None?
    ensures FindsPlace(keys, key, budget) <==> FreePlace(keys, key)
  {
    assert Grown(keys, 0) == Some(keys);
    if !FreePlace(keys, key) {
      forall h: nat | 0 < h <= budget ensures Grown(keys, h).None? { GrowthStops(keys, 1, h); }
    }
  }

  /** In a table of one bucket the second key has to wait for the table to grow. */
  lemma GrowthHelps()
    ensures !FindsPlace([1], 2, 0) && FindsPlace([1], 2, 1)
  {
    assert Grown([1], 0) == Some([1]);
    var one: seq<Key>, two: seq<Key> := [1], [NO_KEY, NO_KEY];
    assert PowerAtLeast(2) == 2 && seq(2, _ => NO_KEY) == two;
    assert HashOf(1, 2) == 1 && HashOf(2, 2) == 0;
    assert FindFrom(NO_KEY, two, 1, 0) == Some(1);
    assert Put(two, 1) == Some(two[1 := 1]);
    assert Refilled(one, 2, 0) == Some(two) && Refilled(one, 2, 1) == Put(two, 1);
    assert Grown(one, 1) == Some(two[1 := 1]);
    assert two[1 := 1][0] == NO_KEY && IsProbe(0, HashOf(2, 2), 2);
  }

  /** The entries of the first i buckets are in the new table, and no others. */
  ghost predicate Halfway<S>(table: Table<S>, where: map<Key, nat>, i: nat, size: nat, zero: S,
                             rehashed: Table<S>, moved: map<Key, nat>) {
    && |table.slots| == |table.keys| && Located(table.keys, where) && i <= |table.keys|
    && 0 < |rehashed.keys| == size && Blank(rehashed, zero) && Located(rehashed.keys, moved)
    && (forall k :: k in moved <==> k in where && where[k] < i)
    && (forall k :: k in moved ==> rehashed.slots[moved[k]] == table.slots[where[k]])
    && Refilled(table.keys, size, i) == Some(rehashed.keys)
  }

  lemma OneMore<S>(table: Table<S>, where: map<Key, nat>, i: nat, size: nat, zero: S,
                   rehashed: Table<S>, moved: map<Key, nat>, b: nat)
    requires Halfway(table, where, i, size, zero, rehashed, moved) && i < |table.keys| && table.keys[i] != NO_KEY
    requires b < size && rehashed.keys[b] == NO_KEY && IsProbe(b, HashOf(table.keys[i], size), size)
    requires FindFrom(NO_KEY, rehashed.keys, HashOf(table.keys[i], size), 0) == Some(b)
    ensures Halfway(table, where, i + 1, size, zero,
                    Table(rehashed.slots[b := table.slots[i]], rehashed.keys[b := table.keys[i]]),
                    moved[table.keys[i] := b])
  {
    LocatedAdd(rehashed.keys, moved, table.keys[i], b);
    assert Refilled(table.keys, size, i + 1) == Put(rehashed.keys, table.keys[i]);
  }

  lemma NoneMore<S>(table: Table<S>, where: map<Key, nat>, i: nat, size: nat, zero: S,
                    rehashed: Table<S>, moved: map<Key, nat>)
    requires Halfway(table, where, i, size, zero, rehashed, moved) && i < |table.keys| && table.keys[i] == NO_KEY
    ensures Halfway(table, where, i + 1, size, zero, rehashed, moved)
  {
  }

  lemma NoMore<S>(table: Table<S>, where: map<Key, nat>, i: nat, size: nat, zero: S,
                  rehashed: Table<S>, moved: map<Key, nat>)
    requires Halfway(table, where, i, size, zero, rehashed, moved) && i < |table.keys| && table.keys[i] != NO_KEY
    requires FindFrom(NO_KEY, rehashed.keys, HashOf(table.keys[i], size), 0).None?
    ensures Refilled(table.keys, size, |table.keys|).None?
  {
    assert Refilled(table.keys, size, i + 1) == Put(rehashed.keys, table.keys[i]);
    RefillStops(table.keys, size, i + 1, |table.keys|);
  }

  /** relocate_rehash: moves every entry to a new table, or gives up on the first
      key that finds no free place there. */
  method Rehash<S(==)>(table: Table<S>, size: nat, zero: S, ghost where: map<Key, nat>)
    returns (ok: bool, rehashed: Table<S>, ghost moved: map<Key, nat>)
    requires 0 < size && |table.slots| == |table.keys| && Located(table.keys, where)
    ensures |rehashed.keys| == size && Blank(rehashed, zero)
    ensures ok ==> Located(rehashed.keys, moved) && SameEntries(table, where, rehashed, moved)
    ensures Refilled(table.keys, size, |table.keys|) == if ok then Some(rehashed.keys) else None
  {
    rehashed := Table(seq(size, _ => zero), seq(size, _ => NO_KEY));
    moved := map[];
    var i: nat := 0;
    while i < |table.keys|
      invariant Halfway(table, where, i, size, zero, rehashed, moved)
    {
      var key := table.keys[i];
      if key == NO_KEY {
        NoneMore(table, where, i, size, zero, rehashed, moved);
      } else {
        var bucket := FindEmptyBucket(key, rehashed.keys);
        if bucket.None? {
          NoMore(table, where, i, size, zero, rehashed, moved);
          return false, rehashed, moved;
        }
        OneMore(table, where, i, size, zero, rehashed, moved, bucket.value);
        rehashed := Table(rehashed.slots[bucket.value := table.slots[i]], rehashed.keys[bucket.value := key]);
        moved := moved[key := bucket.value];
      }
      i := i + 1;
    }
    ok := true;
  }

  /** On the way from `table` to a place for key: the same entries are in `placed` now,
      there are `left` more tables to be had, and the outcome is still the same. */
  ghost predicate OnTheWay<S>(table: Table<S>, where: map<Key, nat>, key: Key, budget: nat, zero: S,
                              placed: Table<S>, moved: map<Key, nat>, left: nat) {
    && 0 < |table.keys| && Located(placed.keys, moved) && SameEntries(table, where, placed, moved)
    && (placed == table || (Blank(placed, zero) && !FreePlace(table.keys, key)))
    && (FindsPlace(placed.keys, key, left) <==> FindsPlace(table.keys, key, budget))
  }

  /** One more try with a bigger table. */
  method Grow<S(==)>(placed: Table<S>, key: Key, zero: S, left: nat,
                     ghost moved: map<Key, nat>, ghost table: Table<S>, ghost where: map<Key, nat>, ghost budget: nat)
    returns (ok: bool, bigger: Table<S>, ghost relocated: map<Key, nat>)
    requires OnTheWay(table, where, key, budget, zero, placed, moved, left)
    requires 0 < left && !FreePlace(placed.keys, key)
    ensures ok ==> OnTheWay(table, where, key, budget, zero, bigger, relocated, left - 1)
    ensures !ok ==> !FindsPlace(table.keys, key, budget)
    ensures |bigger.keys| == PowerAtLeast(|placed.keys| + 1)
  {
    ok, bigger, relocated := Rehash(placed, PowerAtLeast(|placed.keys| + 1), zero, moved);
    if ok {
      GrowthGoesOn(placed.keys, key, left, bigger.keys);
    } else {
      GrowthEnds(placed.keys, key, left);
    }
  }

  lemma TryEnds<S>(table: Table<S>, where: map<Key, nat>, key: Key, budget: nat, zero: S,
                   placed: Table<S>, moved: map<Key, nat>, left: nat)
    requires OnTheWay(table, where, key, budget, zero, placed, moved, left)
    requires FreePlace(placed.keys, key) || left == 0
    ensures FindsPlace(table.keys, key, budget) <==> FreePlace(placed.keys, key)
  {
    GrowthEnds(placed.keys, key, left);
  }

  /** Finds a free place for key, growing the table while there is none.  Growing
      ends when memory runs out (after `budget` tables) or a rehash gives up. */
  method TryPlace<S(==)>(table: Table<S>, key: Key, zero: S, budget: nat, ghost where: map<Key, nat>)
    returns (bucket: Option<nat>, placed: Table<S>, ghost moved: map<Key, nat>)
    requires |table.slots| == |table.keys| && Located(table.keys, where)
    ensures placed == table || Blank(placed, zero)
    ensures Located(placed.keys, moved) && SameEntries(table, where, placed, moved)
    ensures bucket.Some? ==>
      && bucket.value < |placed.keys| && placed.keys[bucket.value] == NO_KEY
      && IsProbe(bucket.value, HashOf(key, |placed.keys|), |placed.keys|)
    ensures bucket.Some? <==> FindsPlace(table.keys, key, budget)
    ensures FreePlace(table.keys, key) ==> placed == table
  {
    placed, moved := table, where;
    var left: nat := budget;
    while true
      invariant OnTheWay(table, where, key, budget, zero, placed, moved, left)
      decreases left
    {
      bucket := FindEmptyBucket(key, placed.keys);
      if bucket.Some? || left == 0 {
        TryEnds(table, where, key, budget, zero, placed, moved, left);
        return;
      }
      var ok, bigger;
      ghost var relocated;
      ok, bigger, relocated := Grow(placed, key, zero, left, moved, table, where, budget);
      if !ok {
        return;
      }
      placed, moved, left := bigger, relocated, left - 1;
    }
  }
}
