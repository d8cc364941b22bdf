/** Components of several types by key. */
module Collections {

  import opened Wrappers
  import opened HashIndex

  // Each type's components lie densely in an array, and a hash table finds a key's type
  // and place.

  datatype Row<V> = Row(component: V, key: Key)
  datatype Entry<V> = Entry(kind: nat, component: V)

  /** A slot packs an 8-bit type over a 24-bit index. */
  const INDICES: nat := 0x0100_0000

  function Pack(kind: nat, index: nat): (slot: nat) {
    kind * INDICES + index
  }

  function KindOf(slot: nat): (kind: nat) {
    slot / INDICES
  }

  function IndexOf(slot: nat): (index: nat) {
    slot % INDICES
  }

  function SetIndex(slot: nat, index: nat): (slot': nat) {
    slot / INDICES * INDICES + index
  }

  lemma Unpack(kind: nat, index: nat, other: nat)
    requires index < INDICES
    ensures KindOf(Pack(kind, index)) == kind && IndexOf(Pack(kind, index)) == index
    ensures SetIndex(Pack(kind, index), other) == Pack(kind, other)
  {
  }

  /** The slot leads to a row of key k. */
  ghost predicate HasRow<V>(arrays: seq<seq<Row<V>>>, slot: nat, k: Key) {
    && KindOf(slot) < |arrays| && IndexOf(slot) < |arrays[KindOf(slot)]|
    && slot == Pack(KindOf(slot), IndexOf(slot))
    && arrays[KindOf(slot)][IndexOf(slot)].key == k
  }

  function EntryAt<V>(arrays: seq<seq<Row<V>>>, slot: nat): (e: Entry<V>)
    requires KindOf(slot) < |arrays| && IndexOf(slot) < |arrays[KindOf(slot)]|
  {
    Entry(KindOf(slot), arrays[KindOf(slot)][IndexOf(slot)].component)
  }

  /** Every row is the one its key's slot leads to. */
  ghost predicate RowsKnown<V>(slots: seq<nat>, arrays: seq<seq<Row<V>>>, where: map<Key, nat>) {
    && (forall k :: k in where ==> where[k] < |slots|)
    && (forall t, i :: 0 <= t < |arrays| && 0 <= i < |arrays[t]| ==>
        arrays[t][i].key in where && slots[where[arrays[t][i].key]] == Pack(t, i))
  }

  /** Every key's slot leads to its row, which holds its entry. */
  ghost predicate EntriesKnown<V>(slots: seq<nat>, arrays: seq<seq<Row<V>>>, where: map<Key, nat>,
                                  contents: map<Key, Entry<V>>) {
    contents.Keys == where.Keys &&
    forall k :: k in where ==>
      where[k] < |slots| && HasRow(arrays, slots[where[k]], k) && contents[k] == EntryAt(arrays, slots[where[k]])
  }

  /** Slots and array places are inverse to each other, and together are the map. */
  ghost predicate Ok<V>(table: Table<nat>, arrays: seq<seq<Row<V>>>, where: map<Key, nat>,
                        contents: map<Key, Entry<V>>) {
    && |table.slots| == |table.keys| && Located(table.keys, where)
    && (forall t :: 0 <= t < |arrays| ==> |arrays[t]| <= INDICES)
    && RowsKnown(table.slots, arrays, where)
    && EntriesKnown(table.slots, arrays, where, contents)
  }

  /** A rehash that carries every entry over represents the same map. */
  lemma RehashedOk<V>(table: Table<nat>, table': Table<nat>, arrays: seq<seq<Row<V>>>, where: map<Key, nat>,
                      where': map<Key, nat>, contents: map<Key, Entry<V>>)
    requires Ok(table, arrays, where, contents)
    requires Located(table'.keys, where') && SameEntries(table, where, table', where')
    ensures Ok(table', arrays, where', contents)
  {
    forall k | k in where' ensures HasRow(arrays, table'.slots[where'[k]], k) {
      assert HasRow(arrays, table.slots[where[k]], k);
    }
  }

  function PlacedArrays<V>(arrays: seq<seq<Row<V>>>, kind: nat, key: Key, v: V): (r: seq<seq<Row<V>>>)
    requires kind < |arrays|
  {
    arrays[kind := arrays[kind] + [Row(v, key)]]
  }

  /** A new row at the end of its array, its place entered in a free bucket. */
  lemma PlacedOk<V>(table: Table<nat>, arrays: seq<seq<Row<V>>>, where: map<Key, nat>, contents: map<Key, Entry<V>>,
                    bucket: nat, kind: nat, key: Key, v: V)
    requires Ok(table, arrays, where, contents)
    requires key != NO_KEY && key !in where && kind < |arrays| && |arrays[kind]| < INDICES
    requires bucket < |table.keys| && table.keys[bucket] == NO_KEY
    requires IsProbe(bucket, HashOf(key, |table.keys|), |table.keys|)
    ensures var index := |arrays[kind]|;
      Ok(Table(table.slots[bucket := Pack(kind, index)], table.keys[bucket := key]),
         PlacedArrays(arrays, kind, key, v), where[key := bucket], contents[key := Entry(kind, v)])
  {
    LocatedAdd(table.keys, where, key, bucket);
    PlacedEntries(table, arrays, where, contents, bucket, kind, key, v);
    PlacedRows(table, arrays, where, contents, bucket, kind, key, v);
  }

  lemma PlacedEntries<V>(table: Table<nat>, arrays: seq<seq<Row<V>>>, where: map<Key, nat>,
                         contents: map<Key, Entry<V>>, bucket: nat, kind: nat, key: Key, v: V)
    requires Ok(table, arrays, where, contents)
    requires key !in where && kind < |arrays| && |arrays[kind]| < INDICES
    requires bucket < |table.keys| && table.keys[bucket] == NO_KEY
    ensures EntriesKnown(table.slots[bucket := Pack(kind, |arrays[kind]|)], PlacedArrays(arrays, kind, key, v),
                         where[key := bucket], contents[key := Entry(kind, v)])
  {
    var slots', where', contents' :=
      table.slots[bucket := Pack(kind, |arrays[kind]|)], where[key := bucket], contents[key := Entry(kind, v)];
    var arrays': seq<seq<Row<V>>> := PlacedArrays(arrays, kind, key, v);
    forall k | k in where'
      ensures where'[k] < |slots'| && HasRow(arrays', slots'[where'[k]], k)
      ensures contents'[k] == EntryAt(arrays', slots'[where'[k]])
    {
      PlacedRow(table, arrays, where, contents, bucket, kind, key, v, k);
    }
  }

  lemma PlacedRows<V>(table: Table<nat>, arrays: seq<seq<Row<V>>>, where: map<Key, nat>, contents: map<Key, Entry<V>>,
                      bucket: nat, kind: nat, key: Key, v: V)
    requires Ok(table, arrays, where, contents)
    requires key !in where && kind < |arrays| && |arrays[kind]| < INDICES
    requires bucket < |table.keys| && table.keys[bucket] == NO_KEY
    ensures RowsKnown(table.slots[bucket := Pack(kind, |arrays[kind]|)], PlacedArrays(arrays, kind, key, v),
      where[key := bucket])
  {
    var slots', where' := table.slots[bucket := Pack(kind, |arrays[kind]|)], where[key := bucket];
    var arrays': seq<seq<Row<V>>> := PlacedArrays(arrays, kind, key, v);
    forall t, i | 0 <= t < |arrays'| && 0 <= i < |arrays'[t]|
      ensures arrays'[t][i].key in where' && where'[arrays'[t][i].key] < |slots'|
      ensures slots'[where'[arrays'[t][i].key]] == Pack(t, i)
    {
      PlacedIndex(table, arrays, where, contents, bucket, kind, key, v, t, i);
    }
  }

  lemma PlacedIndex<V>(table: Table<nat>, arrays: seq<seq<Row<V>>>, where: map<Key, nat>, contents: map<Key, Entry<V>>,
                       bucket: nat, kind: nat, key: Key, v: V, t: nat, i: nat)
    requires Ok(table, arrays, where, contents)
    requires key !in where && kind < |arrays|
    requires bucket < |table.keys| && table.keys[bucket] == NO_KEY
    requires t < |arrays| && i < |arrays[t]| + (if t == kind then 1 else 0)
    ensures var slots' := table.slots[bucket := Pack(kind, |arrays[kind]|)];
      var arrays' := PlacedArrays(arrays, kind, key, v);
      var k := arrays'[t][i].key;
      k in where[key := bucket] && slots'[where[key := bucket][k]] == Pack(t, i)
  {
    if t != kind || i < |arrays[kind]| {
      assert arrays[t][i].key in where;
    }
  }

  lemma PlacedRow<V>(table: Table<nat>, arrays: seq<seq<Row<V>>>, where: map<Key, nat>, contents: map<Key, Entry<V>>,
                     bucket: nat, kind: nat, key: Key, v: V, k: Key)
    requires Ok(table, arrays, where, contents)
    requires key !in where && kind < |arrays| && |arrays[kind]| < INDICES
    requires bucket < |table.keys| && table.keys[bucket] == NO_KEY
    requires k == key || k in where
    ensures var slots' := table.slots[bucket := Pack(kind, |arrays[kind]|)];
      var arrays' := PlacedArrays(arrays, kind, key, v);
      var b := if k == key then bucket else where[k];
      && HasRow(arrays', slots'[b], k)
      && EntryAt(arrays', slots'[b]) == if k == key then Entry(kind, v) else contents[k]
  {
    Unpack(kind, |arrays[kind]|, 0);
    if k != key {
      assert HasRow(arrays, table.slots[where[k]], k);
    }
  }

  /** vector::erase: the last row moves into the gap. */
  function SwapRemove<V>(rows: seq<Row<V>>, index: nat): (r: seq<Row<V>>)
    requires index < |rows|
  {
    rows[index := rows[|rows| - 1]][..|rows| - 1]
  }

  /** Erasing moves the last row of the array, repairs its slot, and takes away that
      one key only. */
  lemma ErasedOk<V>(table: Table<nat>, arrays: seq<seq<Row<V>>>, where: map<Key, nat>, contents: map<Key, Entry<V>>,
                    key: Key)
    requires Ok(table, arrays, where, contents) && key in where
    ensures HasRow(arrays, table.slots[where[key]], key)
    ensures var slot := table.slots[where[key]];
      var rows := arrays[KindOf(slot)];
      var last := rows[|rows| - 1].key;
      && last in where
      && Ok(Table(table.slots[where[last] := SetIndex(table.slots[where[last]], IndexOf(slot))],
           table.keys[where[key] := NO_KEY]),
            arrays[KindOf(slot) := SwapRemove(rows, IndexOf(slot))], where - {key}, contents - {key})
  {
    assert HasRow(arrays, table.slots[where[key]], key);
    ErasedSlot(table, arrays, where, contents, key);
    LocatedRemove(table.keys, where, key);
    ErasedEntries(table, arrays, where, contents, key);
    ErasedRows(table, arrays, where, contents, key);
  }

  /** The moved row keeps its type and takes the erased one's index. */
  lemma ErasedSlot<V>(table: Table<nat>, arrays: seq<seq<Row<V>>>, where: map<Key, nat>, contents: map<Key, Entry<V>>,
                      key: Key)
    requires Ok(table, arrays, where, contents) && key in where && HasRow(arrays, table.slots[where[key]], key)
    ensures var slot := table.slots[where[key]];
      var rows := arrays[KindOf(slot)];
      var last := rows[|rows| - 1].key;
      last in where && SetIndex(table.slots[where[last]], IndexOf(slot)) == Pack(KindOf(slot), IndexOf(slot))
  {
    var slot := table.slots[where[key]];
    var rows := arrays[KindOf(slot)];
    Unpack(KindOf(slot), |rows| - 1, IndexOf(slot));
    assert rows[|rows| - 1].key in where;
  }

  lemma ErasedEntries<V>(table: Table<nat>, arrays: seq<seq<Row<V>>>, where: map<Key, nat>,
                         contents: map<Key, Entry<V>>, key: Key)
    requires Ok(table, arrays, where, contents) && key in where && HasRow(arrays, table.slots[where[key]], key)
    ensures var slot := table.slots[where[key]];
      var rows := arrays[KindOf(slot)];
      var last := rows[|rows| - 1].key;
      last in where && EntriesKnown(table.slots[where[last] := Pack(KindOf(slot), IndexOf(slot))],
                                    arrays[KindOf(slot) := SwapRemove(rows, IndexOf(slot))], where - {key},
                                      contents - {key})
  {
    var slot := table.slots[where[key]];
    var rows := arrays[KindOf(slot)];
    var last := rows[|rows| - 1].key;
    ErasedLast(table, arrays, where, contents, key);
    var slots' := table.slots[where[last] := Pack(KindOf(slot), IndexOf(slot))];
    var arrays': seq<seq<Row<V>>> := arrays[KindOf(slot) := SwapRemove(rows, IndexOf(slot))];
    forall k | k in where - {key}
      ensures where[k] < |slots'| && HasRow(arrays', slots'[where[k]], k)
      ensures contents[k] == EntryAt(arrays', slots'[where[k]])
    {
      KeptEntry(table, arrays, where, contents, key, k);
    }
  }

  lemma ErasedLast<V>(table: Table<nat>, arrays: seq<seq<Row<V>>>, where: map<Key, nat>, contents: map<Key, Entry<V>>,
                      key: Key)
    requires Ok(table, arrays, where, contents) && key in where && HasRow(arrays, table.slots[where[key]], key)
    ensures var rows := arrays[KindOf(table.slots[where[key]])]; rows[|rows| - 1].key in where
  {
  }

  lemma ErasedRows<V>(table: Table<nat>, arrays: seq<seq<Row<V>>>, where: map<Key, nat>, contents: map<Key, Entry<V>>,
                      key: Key)
    requires Ok(table, arrays, where, contents) && key in where && HasRow(arrays, table.slots[where[key]], key)
    ensures var slot := table.slots[where[key]];
      var rows := arrays[KindOf(slot)];
      var last := rows[|rows| - 1].key;
      last in where && RowsKnown(table.slots[where[last] := Pack(KindOf(slot), IndexOf(slot))],
                                 arrays[KindOf(slot) := SwapRemove(rows, IndexOf(slot))], where - {key})
  {
    var slot := table.slots[where[key]];
    var rows := arrays[KindOf(slot)];
    var last := rows[|rows| - 1].key;
    ErasedLast(table, arrays, where, contents, key);
    var slots' := table.slots[where[last] := Pack(KindOf(slot), IndexOf(slot))];
    var arrays': seq<seq<Row<V>>> := arrays[KindOf(slot) := SwapRemove(rows, IndexOf(slot))];
    forall t, i | 0 <= t < |arrays'| && 0 <= i < |arrays'[t]|
      ensures arrays'[t][i].key in where - {key} && slots'[where[arrays'[t][i].key]] == Pack(t, i)
    {
      ErasedRow(table, arrays, where, contents, key, t, i);
    }
  }

  lemma KeptEntry<V>(table: Table<nat>, arrays: seq<seq<Row<V>>>, where: map<Key, nat>, contents: map<Key, Entry<V>>,
                     key: Key, k: Key)
    requires Ok(table, arrays, where, contents) && key in where && HasRow(arrays, table.slots[where[key]], key)
    requires k in where && k != key
    ensures var slot := table.slots[where[key]];
      var rows := arrays[KindOf(slot)];
      var last := rows[|rows| - 1].key;
      var slots' := table.slots[where[last] := Pack(KindOf(slot), IndexOf(slot))];
      var arrays' := arrays[KindOf(slot) := SwapRemove(rows, IndexOf(slot))];
      last in where && HasRow(arrays', slots'[where[k]], k) && contents[k] == EntryAt(arrays', slots'[where[k]])
  {
    var slot := table.slots[where[key]];
    var rows := arrays[KindOf(slot)];
    Unpack(KindOf(slot), |rows| - 1, 0);
    Unpack(KindOf(slot), IndexOf(slot), 0);
    assert HasRow(arrays, table.slots[where[k]], k);
  }

  lemma ErasedRow<V>(table: Table<nat>, arrays: seq<seq<Row<V>>>, where: map<Key, nat>, contents: map<Key, Entry<V>>,
                     key: Key, t: nat, i: nat)
    requires Ok(table, arrays, where, contents) && key in where && HasRow(arrays, table.slots[where[key]], key)
    requires var slot := table.slots[where[key]];
      t < |arrays| && i < |arrays[t]| - (if t == KindOf(slot) then 1 else 0)
    ensures var slot := table.slots[where[key]];
      var rows := arrays[KindOf(slot)];
      var last := rows[|rows| - 1].key;
      var arrays' := arrays[KindOf(slot) := SwapRemove(rows, IndexOf(slot))];
      && last in where
      && arrays'[t][i].key in where - {key}
      && table.slots[where[last] := Pack(KindOf(slot), IndexOf(slot))][where[arrays'[t][i].key]] == Pack(t, i)
  {
    var slot := table.slots[where[key]];
    var kind, index := KindOf(slot), IndexOf(slot);
    var rows := arrays[kind];
    var last := rows[|rows| - 1].key;
    Unpack(t, i, 0);
    Unpack(kind, |rows| - 1, 0);
    Unpack(kind, index, 0);
    assert arrays[t][i].key in where;
  }

  class Collection<V> {
    var table: Table<nat>
    var arrays: seq<seq<Row<V>>>         // one array of rows per component type

    ghost var where: map<Key, nat>       // the bucket of each key
    ghost var contents: map<Key, Entry<V>>

    ghost predicate Valid()
      reads this
    {
      Ok(table, arrays, where, contents)
    }

    constructor (kinds: nat, size: nat)
      requires 0 < size
      ensures Valid() && contents == map[] && |arrays| == kinds
    {
      table := Table(seq(size, _ => 0), seq(size, _ => NO_KEY));
      arrays := seq(kinds, _ => []);
      where, contents := map[], map[];
    }

    /** The handle of a key: its bucket. */
    method Find(key: Key) returns (it: Option<nat>)
      requires Valid() && key != NO_KEY
      ensures it == if key in contents then Some(where[key]) else None
    {
      it := FindBucket(key, table.keys, HashOf(key, |table.keys|));
      FindLocates(table.keys, where, key);
    }

    method Get(it: nat, kind: nat) returns (r: Option<V>)
      requires Valid() && it < |table.keys| && table.keys[it] != NO_KEY
      ensures var e := contents[table.keys[it]];
        r == if e.kind == kind then Some(e.component) else None
    {
      assert HasRow(arrays, table.slots[it], table.keys[it]);
      if KindOf(table.slots[it]) != kind {
        return None;
      }
      return Some(arrays[kind][IndexOf(table.slots[it])].component);
    }

    /** try_place for a key that is not there yet. */
    method Place(key: Key, budget: nat) returns (bucket: Option<nat>)
      requires Valid() && key != NO_KEY
      modifies this`table, this`where
      ensures Valid() && contents == old(contents)
      ensures bucket.Some? ==>
        && bucket.value < |table.keys| && table.keys[bucket.value] == NO_KEY
        && IsProbe(bucket.value, HashOf(key, |table.keys|), |table.keys|)
      ensures bucket.Some? <==> FindsPlace(old(table.keys), key, budget)
    {
      var placed;
      ghost var moved;
      bucket, placed, moved := TryPlace(table, key, 0, budget, where);
      RehashedOk(table, placed, arrays, where, moved, contents);
      table, where := placed, moved;
    }

    /** Adds a component unless the key has one already, no place is found for it
        (after growing through `budget` tables), or its array cannot grow. */
    method Emplace(kind: nat, key: Key, v: V, budget: nat, room: bool) returns (ok: bool)
      requires Valid() && key != NO_KEY && kind < |arrays| && |arrays[kind]| < INDICES
      modifies this
      ensures Valid() && |arrays| == |old(arrays)|
      ensures ok ==> key !in old(contents) && contents == old(contents)[key := Entry(kind, v)]
      ensures !ok ==> contents == old(contents) && arrays == old(arrays)
      ensures ok <==> key !in old(contents) && room && FindsPlace(old(table.keys), key, budget)
    {
      var it := Find(key);
      if it.Some? {
        return false;
      }
      var bucket := Place(key, budget);
      if bucket.None? || !room {
        return false;
      }
      PlacedOk(table, arrays, where, contents, bucket.value, kind, key, v);
      var index := |arrays[kind]|;
      arrays := arrays[kind := arrays[kind] + [Row(v, key)]];
      table := Table(table.slots[bucket.value := Pack(kind, index)], table.keys[bucket.value := key]);
      where, contents := where[key := bucket.value], contents[key := Entry(kind, v)];
      ok := true;
    }

    /** Removes the key of a handle and nothing else. */
    method Erase(it: nat)
      requires Valid() && it < |table.keys| && table.keys[it] != NO_KEY
      modifies this
      ensures Valid() && |arrays| == |old(arrays)|
      ensures contents == old(contents) - {old(table.keys[it])}
      ensures forall k :: k in contents ==> where[k] == old(where[k])
    {
      ghost var key := table.keys[it];
      ErasedOk(table, arrays, where, contents, key);
      var slot := table.slots[it];
      var rows := arrays[KindOf(slot)];
      var lastBucket := Find(rows[|rows| - 1].key);
      RemoveAt(it, lastBucket.value, slot, rows, key);
    }

    /** remove_impl, once the bucket of the last row's key is known. */
    method RemoveAt(it: nat, lastBucket: nat, slot: nat, rows: seq<Row<V>>, ghost key: Key)
      requires it < |table.keys| == |table.slots| && lastBucket < |table.slots|
      requires KindOf(slot) < |arrays| && IndexOf(slot) < |rows|
      requires Ok(Table(table.slots[lastBucket := SetIndex(table.slots[lastBucket], IndexOf(slot))],
        table.keys[it := NO_KEY]),
                  arrays[KindOf(slot) := SwapRemove(rows, IndexOf(slot))], where - {key}, contents - {key})
      modifies this
      ensures Valid() && |arrays| == |old(arrays)|
      ensures where == old(where) - {key} && contents == old(contents) - {key}
    {
      table := table.(slots := table.slots[lastBucket := SetIndex(table.slots[lastBucket], IndexOf(slot))]);
      table := table.(keys := table.keys[it := NO_KEY]);
      arrays := arrays[KindOf(slot) := SwapRemove(rows, IndexOf(slot))];
      where, contents := where - {key}, contents - {key};
    }

    method Clear()
      requires Valid()
      modifies this
      ensures Valid() && contents == map[] && |arrays| == |old(arrays)|
    {
      arrays := seq(|arrays|, _ => []);
      table := table.(keys := seq(|table.keys|, _ => NO_KEY));
      where, contents := map[], map[];
    }

    /** Every key once. */
    method GetAllKeys() returns (keys: seq<Key>)
      requires Valid()
      ensures forall k :: k in keys <==> k in contents
      ensures forall i, j :: 0 <= i < j < |keys| ==> keys[i] != keys[j]
    {
      keys := [];
      var b := 0;
      while b < |table.keys|
        invariant 0 <= b <= |table.keys|
        invariant forall k :: k in keys <==> k in where && where[k] < b
        invariant forall i, j :: 0 <= i < j < |keys| ==> keys[i] != keys[j]
      {
        if table.keys[b] != NO_KEY {
          keys := keys + [table.keys[b]];
        }
        b := b + 1;
      }
    }
  }
}
