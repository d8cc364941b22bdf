/** Like Collection, but a key may have one component of each type. */
module MultiCollections {

  import opened Wrappers
  import opened HashIndex
  import Collections

  type Row<V> = Collections.Row<V>

  /** The type mask, bit by bit, and an index per type. */
  datatype Slot = Slot(mask: seq<bool>, indices: seq<nat>) {
    /** No bit is set. */
    predicate Empty() {
      forall t :: 0 <= t < |mask| ==> !mask[t]
    }

    function Set(t: nat, index: nat): (s: Slot)
      requires t < |mask| == |indices|
    {
      Slot(mask[t := true], indices[t := index])
    }

    function SetIndex(t: nat, index: nat): (s: Slot)
      requires t < |indices|
    {
      Slot(mask, indices[t := index])
    }

    function Clear(t: nat): (s: Slot)
      requires t < |mask|
    {
      Slot(mask[t := false], indices)
    }
  }

  function Zero(kinds: nat): (s: Slot)
    ensures s.Empty() && |s.mask| == |s.indices| == kinds
  {
    Slot(seq(kinds, _ => false), seq(kinds, _ => 0))
  }

  /** How many rows a 16-bit index can reach. */
  const INDICES: nat := 0x1_0000

  /** Each set bit of the slot leads to a row of key k. */
  ghost predicate HasRows<V>(arrays: seq<seq<Row<V>>>, slot: Slot, k: Key) {
    && |slot.mask| == |slot.indices| == |arrays|
    && forall t :: 0 <= t < |arrays| && slot.mask[t] ==>
        slot.indices[t] < |arrays[t]| && arrays[t][slot.indices[t]].key == k
  }

  /** The components a slot leads to, by type. */
  ghost function Components<V>(arrays: seq<seq<Row<V>>>, slot: Slot, k: Key): (m: map<nat, V>)
    requires HasRows(arrays, slot, k)
  {
    map t: nat | t < |arrays| && slot.mask[t] :: arrays[t][slot.indices[t]].component
  }

  /** Every slot has a bit and an index per type, and an empty bucket has no bit set. */
  ghost predicate Shaped(table: Table<Slot>, kinds: nat, where: map<Key, nat>) {
    && |table.slots| == |table.keys| && Located(table.keys, where)
    && (forall b :: 0 <= b < |table.slots| ==> |table.slots[b].mask| == |table.slots[b].indices| == kinds)
    && (forall b :: 0 <= b < |table.slots| && table.keys[b] == NO_KEY ==> table.slots[b].Empty())
  }

  /** The row's key has the bit of its type set, and its index is this row. */
  ghost predicate Reached<V>(table: Table<Slot>, arrays: seq<seq<Row<V>>>, where: map<Key, nat>, t: nat, i: nat)
    requires t < |arrays| && i < |arrays[t]|
  {
    var k := arrays[t][i].key;
    k in where && where[k] < |table.slots| && Points(table.slots[where[k]], t, i)
  }

  predicate Points(slot: Slot, t: nat, i: nat) {
    t < |slot.mask| && t < |slot.indices| && slot.mask[t] && slot.indices[t] == i
  }

  /** The slot of a live key leads to its components, and there is at least one. */
  ghost predicate KeyOk<V>(table: Table<Slot>, arrays: seq<seq<Row<V>>>, where: map<Key, nat>,
                           contents: map<Key, map<nat, V>>, k: Key)
  {
    k in where && k in contents && where[k] < |table.slots| &&
    var slot := table.slots[where[k]];
    HasRows(arrays, slot, k) && !slot.Empty() && contents[k] == Components(arrays, slot, k)
  }

  /** Every row is the one its key's slot leads to. */
  ghost predicate RowsOk<V>(table: Table<Slot>, arrays: seq<seq<Row<V>>>, where: map<Key, nat>) {
    forall t, i :: 0 <= t < |arrays| && 0 <= i < |arrays[t]| ==> Reached(table, arrays, where, t, i)
  }

  ghost predicate KeysOk<V>(table: Table<Slot>, arrays: seq<seq<Row<V>>>, where: map<Key, nat>,
                            contents: map<Key, map<nat, V>>) {
    forall k :: k in where ==> KeyOk(table, arrays, where, contents, k)
  }

  ghost predicate Ok<V>(table: Table<Slot>, arrays: seq<seq<Row<V>>>, where: map<Key, nat>,
                        contents: map<Key, map<nat, V>>) {
    && Shaped(table, |arrays|, where)
    && RowsOk(table, arrays, where)
    && contents.Keys == where.Keys
    && KeysOk(table, arrays, where, contents)
  }

  lemma RehashedOk<V>(table: Table<Slot>, table': Table<Slot>, arrays: seq<seq<Row<V>>>, where: map<Key, nat>,
                      where': map<Key, nat>, contents: map<Key, map<nat, V>>)
    requires Ok(table, arrays, where, contents)
    requires Located(table'.keys, where') && SameEntries(table, where, table', where')
    requires table' == table || Blank(table', Zero(|arrays|))
    ensures Ok(table', arrays, where', contents)
  {
    forall b | 0 <= b < |table'.slots| ensures |table'.slots[b].mask| == |table'.slots[b].indices| == |arrays| {
      if table'.keys[b] != NO_KEY { assert KeyOk(table, arrays, where, contents, table'.keys[b]); }
    }
    forall k | k in where' ensures KeyOk(table', arrays, where', contents, k) {
      assert KeyOk(table, arrays, where, contents, k);
    }
    forall t, i | 0 <= t < |arrays| && 0 <= i < |arrays[t]| ensures Reached(table', arrays, where', t, i) {
      assert Reached(table, arrays, where, t, i);
    }
  }

  // ------------------------------------------------------------------ placing

  /** The key may get a component of type t in this bucket: its own, or a free one. */
  ghost predicate CanPlace(table: Table<Slot>, where: map<Key, nat>, bucket: nat, t: nat, key: Key)
    requires |table.slots| == |table.keys| && 0 < |table.keys|
  {
    && key != NO_KEY && bucket < |table.keys| && t < |table.slots[bucket].mask| == |table.slots[bucket].indices|
    && !table.slots[bucket].mask[t]
    && PlaceFor(table.keys, where, bucket, key)
  }

  /** The bucket of the key, or a free one among its five places. */
  ghost predicate PlaceFor(keys: seq<Key>, where: map<Key, nat>, bucket: nat, key: Key) {
    bucket < |keys| &&
    if key in where then where[key] == bucket
    else keys[bucket] == NO_KEY && IsProbe(bucket, HashOf(key, |keys|), |keys|)
  }

  function PlacedTable(table: Table<Slot>, bucket: nat, t: nat, index: nat, key: Key): (r: Table<Slot>)
    requires bucket < |table.slots| == |table.keys| && t < |table.slots[bucket].mask| == |table.slots[bucket].indices|
  {
    Table(table.slots[bucket := table.slots[bucket].Set(t, index)], table.keys[bucket := key])
  }

  function PlacedArrays<V>(arrays: seq<seq<Row<V>>>, t: nat, key: Key, v: V): (r: seq<seq<Row<V>>>)
    requires t < |arrays|
  {
    arrays[t := arrays[t] + [Collections.Row(v, key)]]
  }

  function PlacedContents<V>(contents: map<Key, map<nat, V>>, t: nat, key: Key, v: V): (r: map<Key, map<nat, V>>) {
    contents[key := (if key in contents then contents[key] else map[])[t := v]]
  }

  lemma PlacedShaped(table: Table<Slot>, kinds: nat, where: map<Key, nat>, bucket: nat, t: nat, index: nat, key: Key)
    requires Shaped(table, kinds, where) && CanPlace(table, where, bucket, t, key)
    ensures Shaped(PlacedTable(table, bucket, t, index, key), kinds, where[key := bucket])
  {
    if key in where {
      assert table.keys[bucket := key] == table.keys && where[key := bucket] == where;
    } else {
      LocatedAdd(table.keys, where, key, bucket);
    }
  }

  /** Rows that are there already do not move. */
  lemma PlacedRowsKept<V>(arrays: seq<seq<Row<V>>>, slot: Slot, k: Key, t: nat, key: Key, v: V)
    requires HasRows(arrays, slot, k) && t < |arrays|
    ensures HasRows(PlacedArrays(arrays, t, key, v), slot, k)
    ensures Components(PlacedArrays(arrays, t, key, v), slot, k) == Components(arrays, slot, k)
  {
  }

  lemma PlacedRowAdded<V>(arrays: seq<seq<Row<V>>>, slot: Slot, t: nat, key: Key, v: V)
    requires HasRows(arrays, slot, key) && t < |arrays| && !slot.mask[t]
    ensures var arrays', slot' := PlacedArrays(arrays, t, key, v), slot.Set(t, |arrays[t]|);
      HasRows(arrays', slot', key) && !slot'.Empty() &&
        Components(arrays', slot', key) == Components(arrays, slot, key)[t := v]
  {
    var slot' := slot.Set(t, |arrays[t]|);
    assert slot'.mask[t];
  }

  lemma EmptyRows<V>(arrays: seq<seq<Row<V>>>, slot: Slot, k: Key)
    requires slot.Empty() && |slot.mask| == |slot.indices| == |arrays|
    ensures HasRows(arrays, slot, k) && Components(arrays, slot, k) == map[]
  {
  }

  lemma PlacedKey<V>(table: Table<Slot>, arrays: seq<seq<Row<V>>>, where: map<Key, nat>,
                     contents: map<Key, map<nat, V>>, bucket: nat, t: nat, key: Key, v: V, k: Key)
    requires Ok(table, arrays, where, contents) && CanPlace(table, where, bucket, t, key)
    requires k == key || k in where
    ensures KeyOk(PlacedTable(table, bucket, t, |arrays[t]|, key), PlacedArrays(arrays, t, key, v),
      where[key := bucket],
                  PlacedContents(contents, t, key, v), k)
  {
    if k in where {
      assert KeyOk(table, arrays, where, contents, k);
      if k == key {
        PlacedRowAdded(arrays, table.slots[bucket], t, key, v);
      } else {
        PlacedRowsKept(arrays, table.slots[where[k]], k, t, key, v);
        assert where[k] != bucket;
      }
    } else {
      EmptyRows(arrays, table.slots[bucket], key);
      PlacedRowAdded(arrays, table.slots[bucket], t, key, v);
    }
  }

  lemma PlacedReached<V>(table: Table<Slot>, arrays: seq<seq<Row<V>>>, where: map<Key, nat>,
                         contents: map<Key, map<nat, V>>, bucket: nat, t: nat, key: Key, v: V, u: nat, i: nat)
    requires Ok(table, arrays, where, contents) && CanPlace(table, where, bucket, t, key)
    requires u < |arrays| && i < |PlacedArrays(arrays, t, key, v)[u]|
    ensures Reached(PlacedTable(table, bucket, t, |arrays[t]|, key), PlacedArrays(arrays, t, key, v),
      where[key := bucket], u, i)
  {
    if u != t || i < |arrays[t]| { assert Reached(table, arrays, where, u, i); }
  }

  /** Appending a component: to a key that lacks this type, or to a free bucket. */
  lemma PlacedOk<V>(table: Table<Slot>, arrays: seq<seq<Row<V>>>, where: map<Key, nat>, contents: map<Key, map<nat, V>>,
                    bucket: nat, t: nat, key: Key, v: V)
    requires Ok(table, arrays, where, contents) && CanPlace(table, where, bucket, t, key)
    ensures Ok(PlacedTable(table, bucket, t, |arrays[t]|, key), PlacedArrays(arrays, t, key, v), where[key := bucket],
               PlacedContents(contents, t, key, v))
  {
    var table', arrays' := PlacedTable(table, bucket, t, |arrays[t]|, key), PlacedArrays(arrays, t, key, v);
    var where', contents' := where[key := bucket], PlacedContents(contents, t, key, v);
    PlacedShaped(table, |arrays|, where, bucket, t, |arrays[t]|, key);
    forall k | k in where' ensures KeyOk(table', arrays', where', contents', k) {
      PlacedKey(table, arrays, where, contents, bucket, t, key, v, k);
    }
    forall u, i | 0 <= u < |arrays'| && 0 <= i < |arrays'[u]| ensures Reached(table', arrays', where', u, i) {
      PlacedReached(table, arrays, where, contents, bucket, t, key, v, u, i);
    }
  }

  // ------------------------------------------------------------------ erasing

  function SwapRemoved<V>(arrays: seq<seq<Row<V>>>, t: nat, index: nat): (r: seq<seq<Row<V>>>)
    requires t < |arrays| && index < |arrays[t]|
  {
    arrays[t := Collections.SwapRemove(arrays[t], index)]
  }

  /** remove_at_impl: the last row of the array moves to `index`, so its slot is
      repaired; then the erased bit is cleared, and the key released with its last bit. */
  function RemovedTable(table: Table<Slot>, bucket: nat, lastBucket: nat, t: nat, index: nat): (r: Table<Slot>)
    requires bucket < |table.slots| == |table.keys| && lastBucket < |table.slots|
    requires t < |table.slots[lastBucket].indices| && t < |table.slots[bucket].mask|
  {
    var slots := table.slots[lastBucket := table.slots[lastBucket].SetIndex(t, index)];
    var cleared := slots[bucket].Clear(t);
    Table(slots[bucket := cleared], if cleared.Empty() then table.keys[bucket := NO_KEY] else table.keys)
  }

  /** Key `key` has a component of type t at `index`, and `last` has the last one. */
  ghost predicate Erasable<V>(table: Table<Slot>, arrays: seq<seq<Row<V>>>, where: map<Key, nat>, key: Key, t: nat,
                              index: nat, last: Key)
  {
    && Shaped(table, |arrays|, where)
    && key in where && last in where && t < |arrays| && index < |arrays[t]|
    && arrays[t][index].key == key && Points(table.slots[where[key]], t, index)
    && arrays[t][|arrays[t]| - 1].key == last && Points(table.slots[where[last]], t, |arrays[t]| - 1)
  }

  lemma CanErase<V>(table: Table<Slot>, arrays: seq<seq<Row<V>>>, where: map<Key, nat>, contents: map<Key, map<nat, V>>,
                    key: Key, t: nat)
    requires Ok(table, arrays, where, contents) && key in where && t < |arrays| && table.slots[where[key]].mask[t]
    ensures var index := table.slots[where[key]].indices[t];
      index < |arrays[t]| && Erasable(table, arrays, where, key, t, index, arrays[t][|arrays[t]| - 1].key)
  {
    assert KeyOk(table, arrays, where, contents, key);
    assert Reached(table, arrays, where, t, |arrays[t]| - 1);
  }

  predicate Released(slot: Slot, t: nat)
    requires t < |slot.mask|
  {
    slot.Clear(t).Empty()
  }

  ghost function RemovedWhere(where: map<Key, nat>, key: Key, released: bool): (r: map<Key, nat>) {
    if released then where - {key} else where
  }

  function RemovedContents<V>(contents: map<Key, map<nat, V>>, key: Key, t: nat,
                              released: bool): (r: map<Key, map<nat, V>>)
    requires key in contents
  {
    if released then contents - {key} else contents[key := contents[key] - {t}]
  }

  /** What becomes of a slot. */
  function RemovedSlot(slot: Slot, k: Key, key: Key, last: Key, t: nat, index: nat): (r: Slot)
    requires t < |slot.mask| == |slot.indices|
  {
    if k == key then slot.Clear(t) else if k == last then slot.SetIndex(t, index) else slot
  }

  lemma RemovedSlots<V>(table: Table<Slot>, arrays: seq<seq<Row<V>>>, where: map<Key, nat>, key: Key, t: nat,
                        index: nat, last: Key, k: Key)
    requires Erasable(table, arrays, where, key, t, index, last) && k in where
    ensures RemovedTable(table, where[key], where[last], t, index).slots[where[k]]
         == RemovedSlot(table.slots[where[k]], k, key, last, t, index)
  {
    assert where[k] == where[key] <==> k == key;
    assert where[k] == where[last] <==> k == last;
    if last == key {
      assert table.slots[where[key]].SetIndex(t, index) == table.slots[where[key]];
    }
  }

  lemma KeptRows<V>(arrays: seq<seq<Row<V>>>, slot: Slot, k: Key, t: nat, index: nat)
    requires HasRows(arrays, slot, k) && t < |arrays| && index < |arrays[t]|
    requires slot.mask[t] ==> slot.indices[t] != index && slot.indices[t] != |arrays[t]| - 1
    ensures HasRows(SwapRemoved(arrays, t, index), slot, k)
    ensures Components(SwapRemoved(arrays, t, index), slot, k) == Components(arrays, slot, k)
  {
  }

  lemma MovedRows<V>(arrays: seq<seq<Row<V>>>, slot: Slot, k: Key, t: nat, index: nat)
    requires HasRows(arrays, slot, k) && t < |arrays| && index < |arrays[t]| - 1
    requires slot.mask[t] && slot.indices[t] == |arrays[t]| - 1
    ensures HasRows(SwapRemoved(arrays, t, index), slot.SetIndex(t, index), k)
    ensures Components(SwapRemoved(arrays, t, index), slot.SetIndex(t, index), k) == Components(arrays, slot, k)
  {
  }

  lemma ClearedRows<V>(arrays: seq<seq<Row<V>>>, slot: Slot, k: Key, t: nat, index: nat)
    requires HasRows(arrays, slot, k) && t < |arrays| && index < |arrays[t]|
    ensures HasRows(SwapRemoved(arrays, t, index), slot.Clear(t), k)
    ensures Components(SwapRemoved(arrays, t, index), slot.Clear(t), k) == Components(arrays, slot, k) - {t}
  {
  }

  /** Every other key keeps its components; the erased one loses just this one. */
  lemma RemovedRows<V>(arrays: seq<seq<Row<V>>>, slot: Slot, k: Key, key: Key, t: nat, index: nat, last: Key)
    requires HasRows(arrays, slot, k) && !slot.Empty() && t < |arrays| && index < |arrays[t]|
    requires arrays[t][index].key == key && arrays[t][|arrays[t]| - 1].key == last
    requires k == last ==> Points(slot, t, |arrays[t]| - 1)
    ensures var slot', arrays' := RemovedSlot(slot, k, key, last, t, index), SwapRemoved(arrays, t, index);
      && HasRows(arrays', slot', k)
      && (k != key ==> !slot'.Empty())
      && Components(arrays', slot', k) == if k == key then Components(arrays, slot, k) - {t}
           else Components(arrays, slot, k)
  {
    if k == key {
      ClearedRows(arrays, slot, k, t, index);
    } else if k == last {
      MovedRows(arrays, slot, k, t, index);
      StillNotEmpty(slot, t, index);
    } else {
      KeptRows(arrays, slot, k, t, index);
    }
  }

  lemma RemovedKey<V>(table: Table<Slot>, arrays: seq<seq<Row<V>>>, where: map<Key, nat>,
                      contents: map<Key, map<nat, V>>, key: Key, t: nat, index: nat, last: Key, k: Key)
    requires Erasable(table, arrays, where, key, t, index, last) && k in where && key in contents
    requires KeyOk(table, arrays, where, contents, k)
    requires k == key ==> !Released(table.slots[where[key]], t)
    ensures var released := Released(table.slots[where[key]], t);
      KeyOk(RemovedTable(table, where[key], where[last], t, index), SwapRemoved(arrays, t, index),
            RemovedWhere(where, key, released), RemovedContents(contents, key, t, released), k)
  {
    RemovedSlots(table, arrays, where, key, t, index, last, k);
    RemovedRows(arrays, table.slots[where[k]], k, key, t, index, last);
  }

  lemma StillNotEmpty(slot: Slot, t: nat, index: nat)
    requires !slot.Empty() && t < |slot.indices|
    ensures !slot.SetIndex(t, index).Empty()
  {
    var u :| 0 <= u < |slot.mask| && slot.mask[u];
    assert slot.SetIndex(t, index).mask[u];
  }

  lemma RemovedShaped<V>(table: Table<Slot>, arrays: seq<seq<Row<V>>>, where: map<Key, nat>, key: Key, t: nat,
                         index: nat, last: Key)
    requires Erasable(table, arrays, where, key, t, index, last)
    ensures Shaped(RemovedTable(table, where[key], where[last], t, index), |arrays|,
                   RemovedWhere(where, key, Released(table.slots[where[key]], t)))
  {
    RemovedSlots(table, arrays, where, key, t, index, last, key);
    LocatedRemove(table.keys, where, key);
    var table' := RemovedTable(table, where[key], where[last], t, index);
    forall b | 0 <= b < |table'.slots|
      ensures |table'.slots[b].mask| == |table'.slots[b].indices| == |arrays|
      ensures table'.keys[b] == NO_KEY ==> table'.slots[b].Empty()
    {
      if table.keys[b] != NO_KEY { RemovedSlots(table, arrays, where, key, t, index, last, table.keys[b]); }
    }
  }

  lemma RemovedReached<V>(table: Table<Slot>, arrays: seq<seq<Row<V>>>, where: map<Key, nat>, key: Key, t: nat,
                          index: nat, last: Key, u: nat, i: nat, from: nat)
    requires Erasable(table, arrays, where, key, t, index, last)
    requires u < |arrays| && i < |SwapRemoved(arrays, t, index)[u]|
    requires from == (if u == t && i == index then |arrays[t]| - 1 else i) && Reached(table, arrays, where, u, from)
    ensures Reached(RemovedTable(table, where[key], where[last], t, index), SwapRemoved(arrays, t, index),
                    RemovedWhere(where, key, Released(table.slots[where[key]], t)), u, i)
  {
    var k := arrays[u][from].key;
    assert SwapRemoved(arrays, t, index)[u][i].key == k;
    RemovedSlots(table, arrays, where, key, t, index, last, k);
    if k == key {
      assert u != t;
      assert table.slots[where[key]].Clear(t).mask[u];
    }
  }

  lemma RowLeft<V>(table: Table<Slot>, arrays: seq<seq<Row<V>>>, where: map<Key, nat>, contents: map<Key, map<nat, V>>,
                   key: Key, t: nat, index: nat, last: Key, u: nat, i: nat)
    requires Ok(table, arrays, where, contents) && Erasable(table, arrays, where, key, t, index, last)
    requires u < |arrays| && i < |SwapRemoved(arrays, t, index)[u]|
    ensures Reached(RemovedTable(table, where[key], where[last], t, index), SwapRemoved(arrays, t, index),
                    RemovedWhere(where, key, Released(table.slots[where[key]], t)), u, i)
  {
    var n := |arrays[t]| - 1;
    if u == t && i == index {
      assert Reached(table, arrays, where, t, n);
      RemovedReached(table, arrays, where, key, t, index, last, u, i, n);
    } else {
      assert Reached(table, arrays, where, u, i);
      RemovedReached(table, arrays, where, key, t, index, last, u, i, i);
    }
  }

  lemma RowsLeft<V>(table: Table<Slot>, arrays: seq<seq<Row<V>>>, where: map<Key, nat>, contents: map<Key, map<nat, V>>,
                    key: Key, t: nat, index: nat, last: Key, arrays': seq<seq<Row<V>>>)
    requires Ok(table, arrays, where, contents) && Erasable(table, arrays, where, key, t, index, last)
    requires arrays' == SwapRemoved(arrays, t, index)
    ensures RowsOk(RemovedTable(table, where[key], where[last], t, index), arrays',
                   RemovedWhere(where, key, Released(table.slots[where[key]], t)))
  {
    var table' := RemovedTable(table, where[key], where[last], t, index);
    var where' := RemovedWhere(where, key, Released(table.slots[where[key]], t));
    forall u, i | 0 <= u < |arrays'| && 0 <= i < |arrays'[u]| ensures Reached(table', arrays', where', u, i) {
      RowLeft(table, arrays, where, contents, key, t, index, last, u, i);
    }
  }

  /** The same keys go from the table and from the map. */
  lemma SameKeysLeft<V>(where: map<Key, nat>, contents: map<Key, map<nat, V>>, key: Key, t: nat, released: bool)
    requires contents.Keys == where.Keys && key in contents
    ensures RemovedContents(contents, key, t, released).Keys == RemovedWhere(where, key, released).Keys
  {
  }

  lemma KeysLeft<V>(table: Table<Slot>, arrays: seq<seq<Row<V>>>, where: map<Key, nat>, contents: map<Key, map<nat, V>>,
                    key: Key, t: nat, index: nat, last: Key, released: bool)
    requires KeysOk(table, arrays, where, contents) && Erasable(table, arrays, where, key, t, index, last)
    requires key in contents && released == Released(table.slots[where[key]], t)
    ensures KeysOk(RemovedTable(table, where[key], where[last], t, index), SwapRemoved(arrays, t, index),
                   RemovedWhere(where, key, released), RemovedContents(contents, key, t, released))
  {
    var table', arrays' := RemovedTable(table, where[key], where[last], t, index), SwapRemoved(arrays, t, index);
    var where', contents' := RemovedWhere(where, key, released), RemovedContents(contents, key, t, released);
    forall k | k in where' ensures KeyOk(table', arrays', where', contents', k) {
      assert KeyOk(table, arrays, where, contents, k);
      RemovedKey(table, arrays, where, contents, key, t, index, last, k);
    }
  }

  /** Erasing one component: the map loses that component, and the key with its last one. */
  lemma RemovedOk<V>(table: Table<Slot>, arrays: seq<seq<Row<V>>>, where: map<Key, nat>,
                     contents: map<Key, map<nat, V>>, key: Key, t: nat, index: nat, last: Key)
    requires Ok(table, arrays, where, contents) && Erasable(table, arrays, where, key, t, index, last)
    ensures var released := Released(table.slots[where[key]], t);
      Ok(RemovedTable(table, where[key], where[last], t, index), SwapRemoved(arrays, t, index),
         RemovedWhere(where, key, released), RemovedContents(contents, key, t, released))
  {
    var released := Released(table.slots[where[key]], t);
    RemovedShaped(table, arrays, where, key, t, index, last);
    SameKeysLeft(where, contents, key, t, released);
    KeysLeft(table, arrays, where, contents, key, t, index, last, released);
    RowsLeft(table, arrays, where, contents, key, t, index, last, SwapRemoved(arrays, t, index));
  }

  lemma ReleasedExactly<V>(table: Table<Slot>, arrays: seq<seq<Row<V>>>, where: map<Key, nat>,
                           contents: map<Key, map<nat, V>>, key: Key, t: nat)
    requires Ok(table, arrays, where, contents) && key in where && t < |arrays| && table.slots[where[key]].mask[t]
    ensures key in contents && t in contents[key]
    ensures Released(table.slots[where[key]], t) <==> contents[key].Keys == {t}
  {
    assert KeyOk(table, arrays, where, contents, key);
    var slot := table.slots[where[key]];
    if !Released(slot, t) {
      var u :| 0 <= u < |slot.mask| && slot.Clear(t).mask[u];
      assert u in contents[key];
    } else {
      forall u | u in contents[key] ensures u == t {
        assert !slot.Clear(t).mask[u];
      }
    }
  }

  /** In the place of a key, the bit of type t says whether it has that component. */
  lemma BitIsComponent<V>(table: Table<Slot>, arrays: seq<seq<Row<V>>>, where: map<Key, nat>,
                          contents: map<Key, map<nat, V>>, bucket: nat, key: Key, t: nat)
    requires Ok(table, arrays, where, contents) && PlaceFor(table.keys, where, bucket, key) && t < |arrays|
    ensures t < |table.slots[bucket].mask| == |table.slots[bucket].indices|
    ensures table.slots[bucket].mask[t] <==> key in contents && t in contents[key]
  {
    if key in where { assert KeyOk(table, arrays, where, contents, key); }
  }

  /** Everything erasing the component of type t needs to know. */
  lemma EraseOk<V>(table: Table<Slot>, arrays: seq<seq<Row<V>>>, where: map<Key, nat>, contents: map<Key, map<nat, V>>,
                   it: nat, t: nat)
    requires Ok(table, arrays, where, contents) && it < |table.keys| && t < |arrays| && table.slots[it].mask[t]
    ensures var key, index := table.keys[it], table.slots[it].indices[t];
      && key in contents && t in contents[key] && index < |arrays[t]|
      && var last := arrays[t][|arrays[t]| - 1].key;
      && last != NO_KEY && last in where
      && var table', released := RemovedTable(table, it, where[last], t, index), contents[key].Keys == {t};
      && table'.slots[it] == table.slots[it].Clear(t)
      && table'.keys[it] == (if released then NO_KEY else key)
      && Ok(table', SwapRemoved(arrays, t, index), RemovedWhere(where, key, released),
           RemovedContents(contents, key, t, released))
  {
    var key, index := table.keys[it], table.slots[it].indices[t];
    CanErase(table, arrays, where, contents, key, t);
    ReleasedExactly(table, arrays, where, contents, key, t);
    var last := arrays[t][|arrays[t]| - 1].key;
    RemovedOk(table, arrays, where, contents, key, t, index, last);
    RemovedSlots(table, arrays, where, key, t, index, last, key);
  }

  lemma OthersKept<V>(contents: map<Key, map<nat, V>>, key: Key, t: nat, released: bool)
    requires key in contents
    ensures RemovedContents(contents, key, t, released) - {key} == contents - {key}
    ensures key in RemovedContents(contents, key, t, released) <==> !released
  {
  }

  /** The bits of the types before t are clear. */
  predicate ClearBelow(slot: Slot, t: nat) {
    forall u :: 0 <= u < t && u < |slot.mask| ==> !slot.mask[u]
  }

  lemma ClearOneMore(slot: Slot, t: nat)
    requires t < |slot.mask| && ClearBelow(slot, t)
    ensures ClearBelow(slot.Clear(t), t + 1)
    ensures !slot.mask[t] ==> ClearBelow(slot, t + 1)
  {
  }

  /** A key without any bit left is gone. */
  lemma Gone<V>(table: Table<Slot>, arrays: seq<seq<Row<V>>>, where: map<Key, nat>, contents: map<Key, map<nat, V>>,
                it: nat, key: Key)
    requires Ok(table, arrays, where, contents) && it < |table.keys| && key != NO_KEY
    requires table.keys[it] == (if key in contents then key else NO_KEY) && ClearBelow(table.slots[it], |arrays|)
    ensures key !in contents
  {
    if key in contents {
      Nonempty(table, arrays, where, contents, it);
      assert false;
    }
  }

  lemma Nonempty<V>(table: Table<Slot>, arrays: seq<seq<Row<V>>>, where: map<Key, nat>, contents: map<Key, map<nat, V>>,
                    it: nat)
    requires Ok(table, arrays, where, contents) && it < |table.keys| && table.keys[it] != NO_KEY
    ensures !ClearBelow(table.slots[it], |arrays|)
  {
    assert KeyOk(table, arrays, where, contents, table.keys[it]);
  }

  class MultiCollection<V> {
    var table: Table<Slot>
    var arrays: seq<seq<Row<V>>>         // one array of rows per component type

    ghost var where: map<Key, nat>       // the bucket of each key
    ghost var contents: map<Key, map<nat, V>>

    ghost predicate Valid()
      reads this
    {
      Ok(table, arrays, where, contents)
    }

    constructor (kinds: nat, size: nat)
      requires 0 < size
      ensures Valid() && contents == map[] && |arrays| == kinds
    {
      table := Table(seq(size, _ => Zero(kinds)), seq(size, _ => NO_KEY));
      arrays := seq(kinds, _ => []);
      where, contents := map[], map[];
    }

    method Find(key: Key) returns (it: Option<nat>)
      requires Valid() && key != NO_KEY
      ensures it == if key in contents then Some(where[key]) else None
    {
      it := FindBucket(key, table.keys, HashOf(key, |table.keys|));
      FindLocates(table.keys, where, key);
    }

    method Get(it: nat, t: nat) returns (r: Option<V>)
      requires Valid() && it < |table.keys| && table.keys[it] != NO_KEY && t < |arrays|
      ensures var m := contents[table.keys[it]];
        r == if t in m then Some(m[t]) else None
    {
      assert KeyOk(table, arrays, where, contents, table.keys[it]);
      if !table.slots[it].mask[t] {
        return None;
      }
      return Some(arrays[t][table.slots[it].indices[t]].component);
    }

    /** The bucket of the key, or a free place for it. */
    method Place(key: Key, budget: nat) returns (bucket: Option<nat>)
      requires Valid() && key != NO_KEY
      modifies this`table, this`where
      ensures Valid() && contents == old(contents)
      ensures bucket.Some? ==> PlaceFor(table.keys, where, bucket.value, key)
      ensures bucket.Some? <==> key in contents || FindsPlace(old(table.keys), key, budget)
    {
      bucket := Find(key);
      if bucket.Some? {
        return;
      }
      var placed;
      ghost var moved;
      bucket, placed, moved := TryPlace(table, key, Zero(|arrays|), budget, where);
      RehashedOk(table, placed, arrays, where, moved, contents);
      table, where := placed, moved;
    }

    /** Adds a component of type t to the key unless it has one already. */
    method Emplace(t: nat, key: Key, v: V, budget: nat, room: bool) returns (ok: bool)
      requires Valid() && key != NO_KEY && t < |arrays| && |arrays[t]| < INDICES
      modifies this
      ensures Valid() && |arrays| == |old(arrays)|
      ensures ok ==>
        (key in old(contents) ==> t !in old(contents)[key]) && contents == PlacedContents(old(contents), t, key, v)
      ensures !ok ==> contents == old(contents)
      ensures ok <==>
        room && if key in old(contents) then t !in old(contents)[key] else FindsPlace(old(table.keys), key, budget)
    {
      var bucket := Place(key, budget);
      if bucket.None? {
        return false;
      }
      BitIsComponent(table, arrays, where, contents, bucket.value, key, t);
      if table.slots[bucket.value].mask[t] || !room {
        return false;
      }
      PlacedOk(table, arrays, where, contents, bucket.value, t, key, v);
      Fill(bucket.value, t, key, v);
      ok := true;
    }

    method Fill(b: nat, t: nat, key: Key, v: V)
      requires b < |table.slots| == |table.keys| && t < |table.slots[b].mask| == |table.slots[b].indices|
      requires t < |arrays|
      requires Ok(PlacedTable(table, b, t, |arrays[t]|, key), PlacedArrays(arrays, t, key, v), where[key := b],
                  PlacedContents(contents, t, key, v))
      modifies this
      ensures Valid() && |arrays| == |old(arrays)| && contents == PlacedContents(old(contents), t, key, v)
    {
      table := PlacedTable(table, b, t, |arrays[t]|, key);
      arrays := PlacedArrays(arrays, t, key, v);
      where, contents := where[key := b], PlacedContents(contents, t, key, v);
    }

    /** Removes one component; the key goes exactly with its last one. */
    method EraseOne(it: nat, t: nat)
      requires Valid() && it < |table.keys| && t < |arrays| && table.slots[it].mask[t]
      modifies this
      ensures Valid() && |arrays| == |old(arrays)| && |table.keys| == |old(table.keys)|
      ensures var key := old(table.keys[it]);
        && key in old(contents) && t in old(contents)[key]
        && contents == (if old(contents)[key].Keys == {t} then old(contents) - {key}
                        else old(contents)[key := old(contents)[key] - {t}])
        && table.keys[it] == (if key in contents then key else NO_KEY)
        && contents - {key} == old(contents) - {key}
      ensures table.slots[it] == old(table.slots[it]).Clear(t)
    {
      EraseOk(table, arrays, where, contents, it, t);
      ghost var key := table.keys[it];
      var index := table.slots[it].indices[t];
      var lastBucket := Find(arrays[t][|arrays[t]| - 1].key);
      OthersKept(contents, key, t, contents[key].Keys == {t});
      RemoveAt(it, lastBucket.value, t, index, key, contents[key].Keys == {t});
    }

    /** remove_at_impl, once the bucket of the last row's key is known. */
    method RemoveAt(it: nat, lastBucket: nat, t: nat, index: nat, ghost key: Key, ghost released: bool)
      requires it < |table.slots| == |table.keys| && lastBucket < |table.slots| && t < |arrays| && index < |arrays[t]|
      requires t < |table.slots[lastBucket].indices| && t < |table.slots[it].mask| && key in contents
      requires Ok(RemovedTable(table, it, lastBucket, t, index), SwapRemoved(arrays, t, index),
                  RemovedWhere(where, key, released), RemovedContents(contents, key, t, released))
      modifies this
      ensures Valid() && table == RemovedTable(old(table), it, lastBucket, t, index)
      ensures |arrays| == |old(arrays)| && contents == RemovedContents(old(contents), key, t, released)
    {
      table := RemovedTable(table, it, lastBucket, t, index);
      arrays := SwapRemoved(arrays, t, index);
      where, contents := RemovedWhere(where, key, released), RemovedContents(contents, key, t, released);
    }

    /** Removes a key with all its components. */
    method EraseAll(it: nat)
      requires Valid() && it < |table.keys| && table.keys[it] != NO_KEY
      modifies this
      ensures Valid() && |arrays| == |old(arrays)|
      ensures contents == old(contents) - {old(table.keys[it])}
    {
      EraseFrom(it, 0, table.keys[it]);
    }

    /** remove_impl over the types from t on. */
    method EraseFrom(it: nat, t: nat, ghost key: Key)
      requires Valid() && it < |table.keys| && t <= |arrays| && key != NO_KEY
      requires table.keys[it] == (if key in contents then key else NO_KEY) && ClearBelow(table.slots[it], t)
      modifies this
      ensures Valid() && |arrays| == |old(arrays)|
      ensures contents == old(contents) - {key}
      decreases |arrays| - t
    {
      if t == |arrays| {
        Gone(table, arrays, where, contents, it, key);
        assert contents == contents - {key};
      } else {
        ClearOneMore(table.slots[it], t);
        if table.slots[it].mask[t] {
          EraseOne(it, t);
        }
        EraseFrom(it, t + 1, key);
      }
    }
  }
}
