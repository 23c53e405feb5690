/** `handleSyncSales`: the job that copies the sales counters of Redis into the
    sessions table.  Every call may fail; `reliable` rules failures out. */
module SyncSales {
  import opened Schema

  /** A key that matches `session:sales:*`; the suffix of `OtherKey` is no number. */
  datatype Key = SalesKey(id: int) | OtherKey

  datatype Item = Item(id: int, redis: int, db: int)

  datatype Stats = Stats(total: nat, updated: nat, errors: nat)

  // ----- The specification --------------------------------------------------------

  /** The counts Redis holds, for the values that parse. */
  function Counts(sales: map<int, Text>): map<int, int> {
    map id | id in sales && sales[id].Number? :: sales[id].n
  }

  predicate IsCompleted(s: Session) { s.status == Written(Completed) }

  /** The sessions the job is responsible for. */
  predicate IsTarget(rows: map<int, Session>, counts: map<int, int>, id: int) {
    id in counts && id in rows && !IsCompleted(rows[id])
  }

  /** The one-line specification: Redis overrides the database. */
  function Override(rows: map<int, Session>, counts: map<int, int>): map<int, Session> {
    map id | id in rows :: if IsTarget(rows, counts, id) then rows[id].(sales := counts[id]) else rows[id]
  }

  /** Each row is as before or as `Override` wants it. */
  ghost predicate Between(rows0: map<int, Session>, counts: map<int, int>, rows: map<int, Session>) {
    && rows.Keys == rows0.Keys
    && forall id :: id in rows ==> rows[id] == rows0[id] || rows[id] == Override(rows0, counts)[id]
  }

  function Unsynced(rows0: map<int, Session>, counts: map<int, int>, rows: map<int, Session>): set<int> {
    set id | id in rows0 && id in rows && rows[id] != Override(rows0, counts)[id]
  }

  function Negative(counts: map<int, int>): set<int> { set id | id in counts && counts[id] < 0 }

  // ----- Reading Redis --------------------------------------------------------------

  function Flatten(pages: seq<seq<Key>>): seq<Key> {
    if pages == [] then [] else Flatten(pages[..|pages| - 1]) + pages[|pages| - 1]
  }

  lemma {:induction false} FlattenHasAll(pages: seq<seq<Key>>, k: Key)
    ensures k in Flatten(pages) <==> exists i :: 0 <= i < |pages| && k in pages[i]
    decreases |pages|
  {
    if pages != [] {
      var n := |pages| - 1;
      FlattenHasAll(pages[..n], k);
      if k in Flatten(pages[..n]) {
        var i :| 0 <= i < n && k in pages[..n][i];
        assert k in pages[i];
      }
      if i :| 0 <= i < |pages| && k in pages[i] {
        assert i < n ==> k in pages[..n][i];
      }
    }
  }

  /** SCAN may repeat keys but returns every key that exists throughout. */
  ghost predicate Covers(pages: seq<seq<Key>>, sales: map<int, Text>) {
    forall id :: id in sales ==> SalesKey(id) in Flatten(pages)
  }

  method ScanKeys(pages: seq<seq<Key>>, reliable: bool) returns (r: Option<seq<Key>>)
    ensures r.Some? ==> r.value == Flatten(pages)
    ensures reliable ==> r.Some?
  {
    var keys := [];
    for i := 0 to |pages|
      invariant keys == Flatten(pages[..i])
    {
      var fails: bool := *;
      if fails && !reliable {
        return None;
      }
      assert pages[..i + 1][..i] == pages[..i];
      keys := keys + pages[i];
    }
    assert pages[..|pages|] == pages;
    return Some(keys);
  }

  function CountsAt(sales: map<int, Text>, keys: seq<Key>): map<int, int> {
    map id | id in sales && SalesKey(id) in keys && sales[id].Number? :: sales[id].n
  }

  /** A JavaScript Map: its entries and the order in which they were first set. */
  datatype Ordered = Ordered(counts: map<int, int>, ids: seq<int>)

  predicate Listed(o: Ordered) {
    && (forall i :: 0 <= i < |o.ids| ==> o.ids[i] in o.counts)
    && (forall id :: id in o.counts ==> id in o.ids)
    && (forall i, j :: 0 <= i < j < |o.ids| ==> o.ids[i] != o.ids[j])
  }

  function SetEntry(o: Ordered, id: int, n: int): Ordered {
    Ordered(o.counts[id := n], if id in o.counts then o.ids else o.ids + [id])
  }

  /** `o` holds what the first `i` keys lead to. */
  ghost predicate ReadUpTo(sales: map<int, Text>, keys: seq<Key>, i: int, o: Ordered) {
    0 <= i <= |keys| && Listed(o) && o.counts == CountsAt(sales, keys[..i])
  }

  lemma CountsGrow(sales: map<int, Text>, keys: seq<Key>, i: nat)
    requires i < |keys|
    ensures var k := keys[i];
      CountsAt(sales, keys[..i + 1])
      == if k.SalesKey? && k.id in sales && sales[k.id].Number?
         then CountsAt(sales, keys[..i])[k.id := sales[k.id].n] else CountsAt(sales, keys[..i])
  {
    assert keys[..i + 1] == keys[..i] + [keys[i]];
  }

  lemma ListedGrows(o: Ordered, id: int, n: int)
    requires Listed(o)
    ensures Listed(SetEntry(o, id, n))
  {
    var o' := SetEntry(o, id, n);
    forall x | x in o'.counts ensures x in o'.ids {
      if x == id && id !in o.counts { assert o'.ids[|o.ids|] == id; }
    }
  }

  lemma ReadOne(sales: map<int, Text>, keys: seq<Key>, i: nat, o: Ordered)
    requires i < |keys| && ReadUpTo(sales, keys, i, o)
    ensures var k := keys[i];
      ReadUpTo(sales, keys, i + 1,
        if k.SalesKey? && k.id in sales && sales[k.id].Number? then SetEntry(o, k.id, sales[k.id].n) else o)
  {
    CountsGrow(sales, keys, i);
    var k := keys[i];
    if k.SalesKey? && k.id in sales && sales[k.id].Number? {
      ListedGrows(o, k.id, sales[k.id].n);
    }
  }

  /** MGET in batches; later occurrences of a key overwrite its entry. */
  method ReadCounts(store: Store, keys: seq<Key>, readBatch: nat, reliable: bool) returns (r: Option<Ordered>)
    requires readBatch > 0
    ensures r.Some? ==> ReadUpTo(store.sales, keys, |keys|, r.value)
    ensures reliable ==> r.Some?
  {
    var o := Ordered(map[], []);
    var i := 0;
    while i < |keys|
      invariant ReadUpTo(store.sales, keys, i, o)
    {
      var fails: bool := *;
      if fails && !reliable {
        return None;
      }
      var end := if i + readBatch < |keys| then i + readBatch else |keys|;
      while i < end
        invariant i <= end <= |keys|
        invariant ReadUpTo(store.sales, keys, i, o)
      {
        ReadOne(store.sales, keys, i, o);
        if keys[i].SalesKey? && keys[i].id in store.sales && store.sales[keys[i].id].Number? {
          o := SetEntry(o, keys[i].id, store.sales[keys[i].id].n);
        }
        i := i + 1;
      }
    }
    return Some(o);
  }

  /** The sessions of the listed ids, fetched in chunks. */
  method FetchSessions(store: Store, ids: seq<int>, reliable: bool) returns (r: Option<map<int, Session>>)
    ensures r.Some? ==> r.value == map id | id in store.sessions && id in ids :: store.sessions[id]
    ensures reliable ==> r.Some?
  {
    var rows: map<int, Session> := map[];
    var i := 0;
    while i < |ids|
      invariant 0 <= i <= |ids|
      invariant rows == map id | id in store.sessions && id in ids[..i] :: store.sessions[id]
    {
      var fails: bool := *;
      if fails && !reliable {
        return None;
      }
      var end := if i + 5000 < |ids| then i + 5000 else |ids|;
      var chunk := ids[i..end];
      rows := rows + map id | id in store.sessions && id in chunk :: store.sessions[id];
      assert ids[..end] == ids[..i] + chunk;
      i := end;
    }
    assert ids[..|ids|] == ids;
    return Some(rows);
  }

  // ----- Which sessions need an update ------------------------------------------------

  /** The items still to be written: distinct targets whose row differs from Redis. */
  ghost predicate ItemsOk(rows0: map<int, Session>, counts: map<int, int>, items: seq<Item>) {
    && (forall i :: 0 <= i < |items| ==>
          && IsTarget(rows0, counts, items[i].id)
          && items[i].redis == counts[items[i].id] && items[i].db == rows0[items[i].id].sales
          && items[i].redis != items[i].db)
    && (forall i, j :: 0 <= i < j < |items| ==> items[i].id != items[j].id)
  }

  ghost predicate AllListed(rows0: map<int, Session>, counts: map<int, int>, ids: seq<int>, items: seq<Item>) {
    forall id :: id in ids && IsTarget(rows0, counts, id) && rows0[id].sales != counts[id] ==>
      exists i :: 0 <= i < |items| && items[i].id == id
  }

  /** `ids[..k]` have been looked at. */
  ghost predicate SelectedUpTo(
    rows: map<int, Session>, counts: map<int, int>, ids: seq<int>, k: nat, items: seq<Item>)
    requires k <= |ids|
  {
    && ItemsOk(rows, counts, items)
    && AllListed(rows, counts, ids[..k], items)
    && (forall i :: 0 <= i < |items| ==> items[i].id in ids[..k])
  }

  lemma SelectOne(rows: map<int, Session>, o: Ordered, k: nat, items: seq<Item>)
    requires Listed(o) && k < |o.ids| && SelectedUpTo(rows, o.counts, o.ids, k, items)
    ensures var id := o.ids[k];
      SelectedUpTo(rows, o.counts, o.ids, k + 1,
        if IsTarget(rows, o.counts, id) && o.counts[id] != rows[id].sales
        then items + [Item(id, o.counts[id], rows[id].sales)] else items)
  {
    var id := o.ids[k];
    assert o.ids[..k + 1] == o.ids[..k] + [id];
    if IsTarget(rows, o.counts, id) && o.counts[id] != rows[id].sales {
      var items' := items + [Item(id, o.counts[id], rows[id].sales)];
      assert items'[|items|].id == id && forall i :: 0 <= i < |items| ==> items'[i] == items[i];
      forall x | x in o.ids[..k + 1] && IsTarget(rows, o.counts, x) && rows[x].sales != o.counts[x]
        ensures exists i :: 0 <= i < |items'| && items'[i].id == x
      {
        if x != id {
          var i :| 0 <= i < |items| && items[i].id == x;
          assert items'[i].id == x;
        }
      }
    }
  }

  lemma StaleKeyGone(rows: map<int, Session>, before: map<int, Text>, after: map<int, Text>, id: int)
    requires OnlyStaleKeysGone(rows, before, after) && (id !in rows || IsCompleted(rows[id]))
    ensures OnlyStaleKeysGone(rows, before, after - {id})
  {
  }

  /** The first pass; it removes the keys of missing and completed sessions. */
  method SelectItems(store: Store, o: Ordered, fetched: map<int, Session>, reliable: bool) returns (items: seq<Item>)
    requires Listed(o)
    requires fetched == map id | id in store.sessions && id in o.ids :: store.sessions[id]
    modifies store`sales
    ensures ItemsOk(store.sessions, o.counts, items) && AllListed(store.sessions, o.counts, o.ids, items)
    ensures OnlyStaleKeysGone(store.sessions, old(store.sales), store.sales)
    ensures reliable ==> StaleKeysGone(store.sessions, o.ids, store.sales)
  {
    items := [];
    for k := 0 to |o.ids|
      invariant SelectedUpTo(store.sessions, o.counts, o.ids, k, items)
      invariant OnlyStaleKeysGone(store.sessions, old(store.sales), store.sales)
      invariant reliable ==> StaleKeysGone(store.sessions, o.ids[..k], store.sales)
    {
      assert o.ids[..k + 1] == o.ids[..k] + [o.ids[k]];
      var id := o.ids[k];
      SelectOne(store.sessions, o, k, items);
      if id !in fetched || IsCompleted(fetched[id]) {
        var fails: bool := *;
        if !fails || reliable {
          StaleKeyGone(store.sessions, old(store.sales), store.sales, id);
          store.sales := store.sales - {id};
        }
      } else if o.counts[id] != fetched[id].sales {
        items := items + [Item(id, o.counts[id], fetched[id].sales)];
      }
    }
    assert o.ids[..|o.ids|] == o.ids;
  }

  /** Redis loses at most the keys of sessions that are missing or completed. */
  ghost predicate OnlyStaleKeysGone(rows: map<int, Session>, before: map<int, Text>, after: map<int, Text>) {
    && after.Keys <= before.Keys
    && (forall id :: id in after ==> after[id] == before[id])
    && (forall id :: id in before && id !in after ==> id !in rows || IsCompleted(rows[id]))
  }

  /** Of the listed sessions, those that are missing or completed have no key. */
  ghost predicate StaleKeysGone(rows: map<int, Session>, ids: seq<int>, sales: map<int, Text>) {
    forall id :: id in ids && (id !in rows || IsCompleted(rows[id])) ==> id !in sales
  }

  // ----- Writing the database -------------------------------------------------------------

  /** What may happen to the rows while some items are being written. */
  ghost predicate WroteOnly(before: map<int, Session>, items: seq<Item>, after: map<int, Session>) {
    && after.Keys == before.Keys
    && forall id :: id in after && after[id] != before[id] ==>
         exists i :: 0 <= i < |items| && items[i].id == id && after[id] == before[id].(sales := items[i].redis)
  }

  predicate InSync(rows: map<int, Session>, item: Item) {
    item.id in rows && rows[item.id].sales == item.redis
  }

  /** Every item is in sync, or was reported as an error, or is a negative count. */
  ghost predicate Accounted(rows: map<int, Session>, items: seq<Item>, n: int, failed: set<int>) {
    forall i :: 0 <= i < n && i < |items| ==> InSync(rows, items[i]) || items[i].id in failed || items[i].redis < 0
  }

  ghost predicate Present(rows: map<int, Session>, sales: map<int, Text>, items: seq<Item>) {
    && (forall i :: 0 <= i < |items| ==>
          items[i].id in rows && items[i].id in sales && sales[items[i].id] == Number(items[i].redis))
    && (forall i, j :: 0 <= i < j < |items| ==> items[i].id != items[j].id)
  }

  method WriteCount(store: Store, id: int, n: int, reliable: bool) returns (ok: bool)
    requires id in store.sessions
    modifies store`sessions
    ensures store.sessions == if ok then old(store.sessions)[id := old(store.sessions)[id].(sales := n)]
                              else old(store.sessions)
    ensures reliable ==> ok
  {
    var fails: bool := *;
    if fails && !reliable {
      return false;
    }
    store.sessions := store.sessions[id := store.sessions[id].(sales := n)];
    return true;
  }

  /** The rows after all items are written. */
  function WriteAll(rows: map<int, Session>, items: seq<Item>): map<int, Session> {
    if items == [] then rows
    else
      var before, item := WriteAll(rows, items[..|items| - 1]), items[|items| - 1];
      if item.id in before then before[item.id := before[item.id].(sales := item.redis)] else before
  }

  lemma {:induction false} WriteAllEffect(rows: map<int, Session>, items: seq<Item>)
    requires forall i :: 0 <= i < |items| ==> items[i].id in rows
    requires forall i, j :: 0 <= i < j < |items| ==> items[i].id != items[j].id
    ensures WroteOnly(rows, items, WriteAll(rows, items))
    ensures forall i :: 0 <= i < |items| ==> InSync(WriteAll(rows, items), items[i])
    decreases |items|
  {
    if items != [] {
      var n := |items| - 1;
      WriteAllEffect(rows, items[..n]);
      var before, after := WriteAll(rows, items[..n]), WriteAll(rows, items);
      assert before[items[n].id] == rows[items[n].id];
      forall id | id in after && after[id] != rows[id]
        ensures exists i :: 0 <= i < |items| && items[i].id == id && after[id] == rows[id].(sales := items[i].redis)
      {
        if id == items[n].id {
          assert items[n].id == id;
        } else {
          var i :| 0 <= i < n && items[..n][i].id == id && before[id] == rows[id].(sales := items[..n][i].redis);
          assert items[i].id == id;
        }
      }
      forall i | 0 <= i < |items| ensures InSync(after, items[i]) {
        if i < n { assert InSync(before, items[..n][i]); }
      }
    }
  }

  /** The batch transaction: all of its updates or, when anything throws, none. */
  method RunTransaction(store: Store, batch: seq<Item>, reliable: bool) returns (r: Option<nat>)
    requires Present(store.sessions, store.sales, batch)
    modifies store`sessions
    ensures store.sessions == if r.Some? then WriteAll(old(store.sessions), batch) else old(store.sessions)
    ensures reliable ==> r.Some?
    ensures r.Some? && (forall i :: 0 <= i < |batch| ==> !InSync(old(store.sessions), batch[i])) ==> r.value == |batch|
  {
    ghost var rows := store.sessions;
    var pending := store.sessions;
    var count := 0;
    for i := 0 to |batch|
      invariant store.sessions == rows
      invariant pending == WriteAll(store.sessions, batch[..i])
      invariant 0 <= count
      invariant (forall k :: 0 <= k < |batch| ==> !InSync(store.sessions, batch[k])) ==> count == i
    {
      var item := batch[i];
      assert batch[..i + 1][..i] == batch[..i];
      PendingRow(store.sessions, batch, i);
      var fails: bool := *;
      if fails && !reliable {
        return None;
      }
      if pending[item.id].sales != item.redis {
        pending := pending[item.id := pending[item.id].(sales := item.redis)];
        count := count + 1;
      } else {
        assert pending[item.id := pending[item.id].(sales := item.redis)] == pending;
      }
    }
    var commitFails: bool := *;
    if commitFails && !reliable {
      return None;
    }
    assert batch[..|batch|] == batch;
    store.sessions := pending;
    return Some(count);
  }

  /** Earlier items of the batch leave the row of the next one alone. */
  lemma PendingRow(rows: map<int, Session>, batch: seq<Item>, i: nat)
    requires i < |batch| && forall k :: 0 <= k < |batch| ==> batch[k].id in rows
    requires forall k, l :: 0 <= k < l < |batch| ==> batch[k].id != batch[l].id
    ensures batch[i].id in WriteAll(rows, batch[..i]) && WriteAll(rows, batch[..i])[batch[i].id] == rows[batch[i].id]
  {
    WriteAllEffect(rows, batch[..i]);
    var after := WriteAll(rows, batch[..i]);
    assert forall k :: 0 <= k < i ==> batch[..i][k] == batch[k];
  }

  /** The fallbacks: items one by one.  After a transaction that changed nothing
      the rows are compared first; after one that failed, the counts are read again
      and negative ones passed over. */
  method WriteIndividually(store: Store, batch: seq<Item>, rereadCounts: bool, reliable: bool)
    returns (updated: nat, errors: nat, ghost failed: set<int>)
    requires Present(store.sessions, store.sales, batch)
    modifies store`sessions
    ensures WroteOnly(old(store.sessions), batch, store.sessions)
    ensures Accounted(store.sessions, batch, |batch|, failed) && |failed| <= errors
    ensures reliable ==> errors == 0
    ensures forall i :: 0 <= i < |batch| && batch[i].redis < 0 ==>
      if rereadCounts then store.sessions[batch[i].id] == old(store.sessions)[batch[i].id]
      else reliable ==> InSync(store.sessions, batch[i])
  {
    updated, errors, failed := 0, 0, {};
    ghost var before := store.sessions;
    for i := 0 to |batch|
      invariant WroteOnly(before, batch, store.sessions)
      invariant forall k :: i <= k < |batch| ==> store.sessions[batch[k].id] == before[batch[k].id]
      invariant Accounted(store.sessions, batch, i, failed) && |failed| <= errors
      invariant reliable ==> errors == 0
      invariant forall k :: 0 <= k < i && batch[k].redis < 0 ==>
        if rereadCounts then store.sessions[batch[k].id] == before[batch[k].id]
        else reliable ==> InSync(store.sessions, batch[k])
    {
      var item := batch[i];
      var readFails: bool := *;
      if readFails && !reliable {
        errors, failed := errors + 1, failed + {item.id};
        continue;
      }
      if rereadCounts {
        var text := store.sales[item.id];
        if text.n < 0 {
          continue;
        }
      } else if store.sessions[item.id].sales == item.redis {
        continue;
      }
      var ok := WriteCount(store, item.id, item.redis, reliable);
      if ok {
        updated := updated + 1;
      } else {
        errors, failed := errors + 1, failed + {item.id};
      }
    }
  }

  method SyncBatch(store: Store, batch: seq<Item>, reliable: bool)
    returns (updated: nat, errors: nat, ghost failed: set<int>)
    requires batch != [] && Present(store.sessions, store.sales, batch)
    modifies store`sessions
    ensures WroteOnly(old(store.sessions), batch, store.sessions)
    ensures Accounted(store.sessions, batch, |batch|, failed) && |failed| <= errors
    ensures reliable && (forall i :: 0 <= i < |batch| ==> !InSync(old(store.sessions), batch[i])) ==>
      errors == 0 && updated == |batch| && forall i :: 0 <= i < |batch| ==> InSync(store.sessions, batch[i])
  {
    ghost var before := store.sessions;
    WriteAllEffect(before, batch);
    var r := RunTransaction(store, batch, reliable);
    if r.None? {
      updated, errors, failed := WriteIndividually(store, batch, true, reliable);
    } else if r.value > 0 {
      updated, errors, failed := r.value, 0, {};
    } else {
      ghost var middle := store.sessions;
      updated, errors, failed := WriteIndividually(store, batch, false, reliable);
      NothingLeftToWrite(before, batch, middle, store.sessions);
    }
  }

  lemma NothingLeftToWrite(
    before: map<int, Session>, batch: seq<Item>, middle: map<int, Session>, after: map<int, Session>)
    requires WroteOnly(before, batch, middle) && WroteOnly(middle, batch, after)
    requires forall i :: 0 <= i < |batch| ==> InSync(middle, batch[i])
    requires forall i, j :: 0 <= i < j < |batch| ==> batch[i].id != batch[j].id
    ensures after == middle
  {
    forall id | id in after ensures after[id] == middle[id] {
      if i :| 0 <= i < |batch| && batch[i].id == id && after[id] == middle[id].(sales := batch[i].redis) {
        assert InSync(middle, batch[i]);
      }
    }
  }

  // ----- All batches ----------------------------------------------------------------------

  /** The first `i` items have been through a batch, the others are untouched. */
  ghost predicate BatchesDone(
    rows0: map<int, Session>, items: seq<Item>, rows: map<int, Session>, i: int, failed: set<int>)
  {
    && 0 <= i <= |items|
    && WroteOnly(rows0, items, rows)
    && (forall k :: i <= k < |items| && items[k].id in rows0 ==> rows[items[k].id] == rows0[items[k].id])
    && Accounted(rows, items, i, failed)
  }

  lemma BatchAdvances(
    rows0: map<int, Session>, items: seq<Item>, rows: map<int, Session>, rows': map<int, Session>,
    i: nat, end: nat, failed: set<int>, failed': set<int>)
    requires i <= end <= |items| && BatchesDone(rows0, items, rows, i, failed)
    requires forall k :: 0 <= k < |items| ==> items[k].id in rows0
    requires forall k, l :: 0 <= k < l < |items| ==> items[k].id != items[l].id
    requires WroteOnly(rows, items[i..end], rows') && Accounted(rows', items[i..end], end - i, failed')
    ensures BatchesDone(rows0, items, rows', end, failed + failed')
  {
    var batch := items[i..end];
    forall id | id in rows' && rows'[id] != rows[id]
      ensures exists k :: i <= k < end && items[k].id == id && rows'[id] == rows[id].(sales := items[k].redis)
    {
      var m :| 0 <= m < |batch| && batch[m].id == id && rows'[id] == rows[id].(sales := batch[m].redis);
      assert items[i + m].id == id;
    }
    forall k | 0 <= k < end
      ensures InSync(rows', items[k]) || items[k].id in failed + failed' || items[k].redis < 0
    {
      if k < i {
        assert rows'[items[k].id] == rows[items[k].id];
      } else {
        assert items[k] == batch[k - i];
      }
    }
  }

  method SyncAllBatches(store: Store, items: seq<Item>, batchSize: nat, reliable: bool)
    returns (updated: nat, errors: nat, ghost failed: set<int>)
    requires batchSize > 0 && Present(store.sessions, store.sales, items)
    modifies store`sessions
    ensures WroteOnly(old(store.sessions), items, store.sessions)
    ensures Accounted(store.sessions, items, |items|, failed) && |failed| <= errors
    ensures reliable && (forall k :: 0 <= k < |items| ==> !InSync(old(store.sessions), items[k])) ==>
      errors == 0 && updated == |items| && forall k :: 0 <= k < |items| ==> InSync(store.sessions, items[k])
  {
    updated, errors, failed := 0, 0, {};
    ghost var rows0 := store.sessions;
    var i := 0;
    while i < |items|
      invariant BatchesDone(rows0, items, store.sessions, i, failed) && |failed| <= errors
      invariant reliable && (forall k :: 0 <= k < |items| ==> !InSync(rows0, items[k])) ==>
        errors == 0 && updated == i && forall k :: 0 <= k < i ==> InSync(store.sessions, items[k])
    {
      var end := if i + batchSize < |items| then i + batchSize else |items|;
      ghost var before := store.sessions;
      SlicePresent(before, store.sales, items, i, end);
      SliceNotInSync(rows0, before, items, i, end);
      var u, e, f := SyncBatch(store, items[i..end], reliable);
      BatchAdvances(rows0, items, before, store.sessions, i, end, failed, f);
      KeepsInSync(items, before, store.sessions, i, end);
      updated, errors, failed, i := updated + u, errors + e, failed + f, end;
    }
  }

  lemma SlicePresent(rows: map<int, Session>, sales: map<int, Text>, items: seq<Item>, i: nat, end: nat)
    requires i <= end <= |items| && Present(rows, sales, items)
    ensures Present(rows, sales, items[i..end])
  {
    assert forall k :: 0 <= k < end - i ==> items[i..end][k] == items[i + k];
  }

  lemma SliceNotInSync(rows0: map<int, Session>, rows: map<int, Session>, items: seq<Item>, i: nat, end: nat)
    requires i <= end <= |items| && forall k :: 0 <= k < |items| ==> items[k].id in rows0 && items[k].id in rows
    requires forall k :: i <= k < |items| ==> rows[items[k].id] == rows0[items[k].id]
    ensures (forall k :: 0 <= k < |items| ==> !InSync(rows0, items[k])) ==>
      forall k :: 0 <= k < end - i ==> !InSync(rows, items[i..end][k])
  {
    assert forall k :: 0 <= k < end - i ==> items[i..end][k] == items[i + k];
  }

  /** Writing one batch leaves the items of other batches in sync. */
  lemma KeepsInSync(items: seq<Item>, rows: map<int, Session>, rows': map<int, Session>, i: nat, end: nat)
    requires i <= end <= |items| && WroteOnly(rows, items[i..end], rows')
    requires forall k, l :: 0 <= k < l < |items| ==> items[k].id != items[l].id
    ensures forall k :: 0 <= k < i && InSync(rows, items[k]) ==> InSync(rows', items[k])
    ensures (forall k :: 0 <= k < end - i ==> InSync(rows', items[i..end][k])) ==>
      forall k :: i <= k < end ==> InSync(rows', items[k])
  {
    forall k | 0 <= k < i && InSync(rows, items[k]) ensures InSync(rows', items[k]) {
      forall m | 0 <= m < end - i ensures items[i..end][m].id != items[k].id {
        assert items[i..end][m] == items[i + m];
      }
    }
    if forall k :: 0 <= k < end - i ==> InSync(rows', items[i..end][k]) {
      forall k | i <= k < end ensures InSync(rows', items[k]) {
        assert items[i..end][k - i] == items[k];
      }
    }
  }

  // ----- Verification of a sample -----------------------------------------------------------

  /** At most a hundred items, drawn at random, are compared once more and rewritten where
      they differ; a hundred items or fewer are all compared. */
  method VerifySample(store: Store, items: seq<Item>, reliable: bool) returns (fixed: nat, errors: nat)
    requires Present(store.sessions, store.sales, items)
    modifies store`sessions
    ensures WroteOnly(old(store.sessions), items, store.sessions)
    ensures forall k :: 0 <= k < |items| && InSync(old(store.sessions), items[k]) ==> InSync(store.sessions, items[k])
    ensures (forall k :: 0 <= k < |items| ==> InSync(old(store.sessions), items[k])) ==> fixed == 0 && errors == 0
    ensures reliable ==> errors == 0
    ensures reliable && |items| <= 100 ==> forall k :: 0 <= k < |items| ==> InSync(store.sessions, items[k])
  {
    fixed, errors := 0, 0;
    ghost var before := store.sessions;
    var size := if |items| < 100 then |items| else 100;
    var pool := items;
    for n := 0 to size
      invariant |pool| == |items| - n && forall i :: 0 <= i < |pool| ==> pool[i] in items
      invariant Checked(before, items, store.sessions, pool, reliable)
      invariant (forall k :: 0 <= k < |items| ==> InSync(before, items[k])) ==> fixed == 0 && errors == 0
      invariant reliable ==> errors == 0
    {
      var pick: int := *;
      if !(0 <= pick < |pool|) {
        pick := 0;
      }
      var item := pool[pick];
      ghost var k: nat :| k < |items| && items[k] == item;
      ghost var middle, drawn := store.sessions, pool;
      pool := pool[..pick] + pool[pick + 1..];
      var readFails: bool := *;
      if readFails && !reliable {
        continue;
      }
      if store.sessions[item.id].sales != item.redis {
        var ok := WriteCount(store, item.id, item.redis, reliable);
        if ok {
          fixed := fixed + 1;
        } else {
          errors := errors + 1;
        }
        OneWriteMore(before, items, middle, store.sessions, k);
      }
      CheckedOneMore(before, items, middle, store.sessions, drawn, pick, reliable);
    }
  }

  /** What the comparison has done so far: no item is undone, and, unless a call failed,
      those no longer in the pool are in sync. */
  ghost predicate Checked(
    before: map<int, Session>, items: seq<Item>, now: map<int, Session>, pool: seq<Item>, reliable: bool)
  {
    && WroteOnly(before, items, now)
    && forall k :: 0 <= k < |items| && (InSync(before, items[k]) || (reliable && items[k] !in pool)) ==>
         InSync(now, items[k])
  }

  lemma CheckedOneMore(
    before: map<int, Session>, items: seq<Item>, middle: map<int, Session>, after: map<int, Session>,
    pool: seq<Item>, pick: nat, reliable: bool)
    requires pick < |pool| && Checked(before, items, middle, pool, reliable) && WroteOnly(before, items, after)
    requires forall k :: 0 <= k < |items| && InSync(middle, items[k]) ==> InSync(after, items[k])
    requires reliable ==> InSync(after, pool[pick])
    ensures Checked(before, items, after, pool[..pick] + pool[pick + 1..], reliable)
  {
    var rest := pool[..pick] + pool[pick + 1..];
    forall item | item in pool ensures item == pool[pick] || item in rest {
      var i :| 0 <= i < |pool| && pool[i] == item;
      if i < pick {
        assert rest[i] == item;
      } else if i > pick {
        assert rest[i - 1] == item;
      }
    }
  }

  lemma OneWriteMore(
    before: map<int, Session>, items: seq<Item>, middle: map<int, Session>, after: map<int, Session>, pick: nat)
    requires pick < |items| && WroteOnly(before, items, middle) && items[pick].id in middle
    requires forall k, l :: 0 <= k < l < |items| ==> items[k].id != items[l].id
    requires after == middle || after == middle[items[pick].id := middle[items[pick].id].(sales := items[pick].redis)]
    ensures WroteOnly(before, items, after)
    ensures forall k :: 0 <= k < |items| && InSync(middle, items[k]) ==> InSync(after, items[k])
  {
    var id := items[pick].id;
    forall i | 0 <= i < |items| && items[i].id == id ensures i == pick {
    }
    assert middle[id] != before[id] ==> middle[id] == before[id].(sales := items[pick].redis);
    assert after[id] != before[id] ==> after[id] == before[id].(sales := items[pick].redis);
  }

  // ----- The job ----------------------------------------------------------------------------

  /** SESSION_SYNC_SALES_BATCH_SIZE: 50 when missing or invalid, at most 1000. */
  function BatchSize(raw: Option<Text>): (n: nat)
    ensures 1 <= n <= 1000
    ensures raw.Some? && raw.value.Number? && 1 <= raw.value.n <= 1000 ==> n == raw.value.n
    ensures raw.Some? && raw.value.Number? && raw.value.n > 1000 ==> n == 1000
    ensures raw.None? || raw.value.NotANumber? || raw.value.n < 1 ==> n == 50
  {
    if raw.None? || raw.value.NotANumber? || raw.value.n <= 0 then 50
    else if raw.value.n > 1000 then 1000 else raw.value.n
  }

  ghost predicate Reports(w: World, w': World, reliable: bool, r: Option<Stats>) {
    var counts := Counts(w.sales);
    && OnlyStaleKeysGone(w.sessions, w.sales, w'.sales) && Between(w.sessions, counts, w'.sessions)
    && (r.None? ==> w'.sessions == w.sessions && w'.sales == w.sales)
    && (r.Some? ==>
          && r.value.total == |counts|
          && |Unsynced(w.sessions, counts, w'.sessions) - Negative(counts)| <= r.value.errors)
    && (reliable ==>
          && r.Some? && r.value.errors == 0 && w'.sessions == Override(w.sessions, counts)
          && r.value.updated == |Unsynced(w.sessions, counts, w.sessions)|
          && forall id :: id in counts && (id !in w.sessions || IsCompleted(w.sessions[id])) ==> id !in w'.sales)
  }

  /** The same column by column.  Without faults a session that is not completed has the
      number under its key afterwards, any number, and no other column or row changes; keys
      of missing and completed sessions go, and no others; `updated` counts the rows that
      differed.  With faults each row is as before or has its number, and the rows that
      should have changed and did not, negative numbers apart, are at most `errors`. */
  lemma ReportsInColumns(w: World, w': World, reliable: bool, r: Option<Stats>)
    requires Reports(w, w', reliable, r)
    ensures w'.sessions.Keys == w.sessions.Keys && w'.sales.Keys <= w.sales.Keys
    ensures forall id :: id in w.sessions ==>
      var s, s' := w.sessions[id], w'.sessions[id];
      var due := id in w.sales && w.sales[id].Number? && s.status != StatusText(Completed, true);
      && (s' == s || (due && s' == s.(sales := w.sales[id].n)))
      && (reliable && due ==> s'.sales == w.sales[id].n)
    ensures forall id :: id in w.sales ==>
      var stale := id !in w.sessions || w.sessions[id].status == StatusText(Completed, true);
      && (id in w'.sales ==> w'.sales[id] == w.sales[id])
      && (id !in w'.sales ==> stale)
      && (reliable && stale && w.sales[id].Number? ==> id !in w'.sales)
    ensures reliable ==>
      && r.Some? && r.value.errors == 0
      && r.value.updated == |set id | id in w.sessions && id in w.sales && w.sales[id].Number?
                                      && w.sessions[id].status != StatusText(Completed, true)
                                      && w.sessions[id].sales != w.sales[id].n|
    ensures r.Some? ==>
      && r.value.total == |set id | id in w.sales && w.sales[id].Number?|
      && |set id | id in w.sessions && id in w.sales && w.sales[id].Number? && w.sales[id].n >= 0
                   && w.sessions[id].status != StatusText(Completed, true)
                   && w'.sessions[id].sales != w.sales[id].n| <= r.value.errors
  {
    var counts := Counts(w.sales);
    assert counts.Keys == set id | id in w.sales && w.sales[id].Number?;
    UnsyncedInColumns(w.sessions, w.sales, w.sessions);
    UnsyncedInColumns(w.sessions, w.sales, w'.sessions);
    forall id | id in w.sessions && id !in counts ensures w'.sessions[id] == w.sessions[id] {
    }
    var left := Unsynced(w.sessions, counts, w'.sessions) - Negative(counts);
    assert left == set id | id in w.sessions && id in w.sales && w.sales[id].Number? && w.sales[id].n >= 0
                            && w.sessions[id].status != StatusText(Completed, true)
                            && w'.sessions[id].sales != w.sales[id].n;
  }

  lemma UnsyncedInColumns(rows: map<int, Session>, sales: map<int, Text>, now: map<int, Session>)
    requires Between(rows, Counts(sales), now)
    ensures Unsynced(rows, Counts(sales), now)
         == set id | id in rows && id in sales && sales[id].Number?
                     && rows[id].status != StatusText(Completed, true) && now[id].sales != sales[id].n
  {
    var counts := Counts(sales);
    forall id | id in rows
      ensures id in Unsynced(rows, counts, now) <==>
        id in sales && sales[id].Number? && rows[id].status != StatusText(Completed, true) && now[id].sales != sales[id].n
    {
      if IsTarget(rows, counts, id) {
        assert Override(rows, counts)[id] == rows[id].(sales := sales[id].n);
      } else {
        assert Override(rows, counts)[id] == rows[id];
      }
    }
  }

  /** The contract is the one-line specification with its two exceptions: a session
      that could not be written is counted in `errors`, and a negative count may be
      passed over. */
  method HandleSyncSales(store: Store, pages: seq<seq<Key>>, raw: Option<Text>, reliable: bool)
    returns (r: Option<Stats>)
    requires Covers(pages, store.sales)
    modifies store`sessions, store`sales
    ensures Reports(old(store.W()), store.W(), reliable, r)
  {
    ghost var rows0, sales0 := store.sessions, store.sales;
    var size := BatchSize(raw);
    var keys := ScanKeys(pages, reliable);
    if keys.None? {
      return None;
    }
    var o := ReadCounts(store, keys.value, if size * 2 < 200 then size * 2 else 200, reliable);
    if o.None? {
      return None;
    }
    assert keys.value[..|keys.value|] == keys.value;
    assert o.value.counts == Counts(sales0);
    var fetched := FetchSessions(store, o.value.ids, reliable);
    if fetched.None? {
      return None;
    }
    var items := SelectItems(store, o.value, fetched.value, reliable);
    ItemsPresent(rows0, sales0, store.sales, o.value.counts, items);
    var updated, errors, failed := SyncAllBatches(store, items, size, reliable);
    ghost var rows1 := store.sessions;
    if |items| > 0 && updated > 0 {
      var fixed, more := VerifySample(store, items, reliable);
      updated, errors := updated + fixed, errors + more;
    }
    WritesCompose(rows0, items, rows1, store.sessions);
    OnlyReportedLeft(rows0, o.value, items, store.sessions, failed);
    r := Some(Stats(|o.value.counts|, updated, errors));
  }

  lemma ItemsPresent(
    rows: map<int, Session>, sales0: map<int, Text>, sales: map<int, Text>, counts: map<int, int>, items: seq<Item>)
    requires counts == Counts(sales0) && ItemsOk(rows, counts, items) && OnlyStaleKeysGone(rows, sales0, sales)
    ensures Present(rows, sales, items)
    ensures forall k :: 0 <= k < |items| ==> !InSync(rows, items[k])
  {
    forall k | 0 <= k < |items| ensures items[k].id in sales && sales[items[k].id] == Number(items[k].redis) {
      var id := items[k].id;
      assert IsTarget(rows, counts, id);
      assert id in sales0 && sales0[id] == Number(counts[id]);
      assert id in sales;
    }
  }

  lemma WritesCompose(
    rows0: map<int, Session>, items: seq<Item>, rows1: map<int, Session>, rows2: map<int, Session>)
    requires WroteOnly(rows0, items, rows1) && WroteOnly(rows1, items, rows2)
    ensures WroteOnly(rows0, items, rows2)
  {
    forall id | id in rows2 && rows2[id] != rows0[id]
      ensures exists i :: 0 <= i < |items| && items[i].id == id && rows2[id] == rows0[id].(sales := items[i].redis)
    {
      if rows2[id] != rows1[id] {
        var i :| 0 <= i < |items| && items[i].id == id && rows2[id] == rows1[id].(sales := items[i].redis);
        assert rows1[id].(sales := items[i].redis) == rows0[id].(sales := items[i].redis);
      }
    }
  }

  lemma OnlyReportedLeft(
    rows0: map<int, Session>, o: Ordered, items: seq<Item>, rows: map<int, Session>, failed: set<int>)
    requires Listed(o) && ItemsOk(rows0, o.counts, items) && AllListed(rows0, o.counts, o.ids, items)
    requires WroteOnly(rows0, items, rows) && Accounted(rows, items, |items|, failed)
    ensures Between(rows0, o.counts, rows)
    ensures |Unsynced(rows0, o.counts, rows) - Negative(o.counts)| <= |failed|
    ensures (forall k :: 0 <= k < |items| ==> InSync(rows, items[k])) ==> rows == Override(rows0, o.counts)
    ensures |Unsynced(rows0, o.counts, rows0)| == |items|
  {
    var target := Override(rows0, o.counts);
    forall id | id in rows
      ensures rows[id] == rows0[id] || rows[id] == target[id]
      ensures rows[id] == target[id] ||
        exists k :: 0 <= k < |items| && items[k].id == id && !InSync(rows, items[k])
    {
      RowFate(rows0, o, items, rows, id);
    }
    var left := Unsynced(rows0, o.counts, rows) - Negative(o.counts);
    forall id | id in left ensures id in failed {
      var k :| 0 <= k < |items| && items[k].id == id && !InSync(rows, items[k]);
    }
    assert left <= failed;
    SubsetSize(left, failed);
    if forall k :: 0 <= k < |items| ==> InSync(rows, items[k]) {
      assert rows == target;
    }
    CountItems(rows0, o, items);
  }

  lemma RowFate(rows0: map<int, Session>, o: Ordered, items: seq<Item>, rows: map<int, Session>, id: int)
    requires Listed(o) && ItemsOk(rows0, o.counts, items) && AllListed(rows0, o.counts, o.ids, items)
    requires WroteOnly(rows0, items, rows) && id in rows
    ensures rows[id] == rows0[id] || rows[id] == Override(rows0, o.counts)[id]
    ensures rows[id] == Override(rows0, o.counts)[id] ||
      exists k :: 0 <= k < |items| && items[k].id == id && !InSync(rows, items[k])
  {
    if rows[id] != rows0[id] {
      var i :| 0 <= i < |items| && items[i].id == id && rows[id] == rows0[id].(sales := items[i].redis);
    } else if IsTarget(rows0, o.counts, id) && rows0[id].sales != o.counts[id] {
      var k :| 0 <= k < |items| && items[k].id == id;
      assert !InSync(rows, items[k]);
    } else {
      assert Override(rows0, o.counts)[id] == rows0[id];
    }
  }

  lemma SubsetSize(a: set<int>, b: set<int>)
    requires a <= b
    ensures |a| <= |b|
  {
    assert b == a + (b - a);
  }

  lemma {:induction false} DistinctIds(items: seq<Item>)
    requires forall k, l :: 0 <= k < l < |items| ==> items[k].id != items[l].id
    ensures |set k | 0 <= k < |items| :: items[k].id| == |items|
    decreases |items|
  {
    var ids := set k | 0 <= k < |items| :: items[k].id;
    if items == [] {
      assert ids == {};
    } else {
      var n := |items| - 1;
      var front := set k | 0 <= k < n :: items[..n][k].id;
      DistinctIds(items[..n]);
      assert ids == front + {items[n].id};
    }
  }

  lemma CountItems(rows0: map<int, Session>, o: Ordered, items: seq<Item>)
    requires Listed(o) && ItemsOk(rows0, o.counts, items) && AllListed(rows0, o.counts, o.ids, items)
    ensures |Unsynced(rows0, o.counts, rows0)| == |items|
  {
    DistinctIds(items);
    var ids := set k | 0 <= k < |items| :: items[k].id;
    forall id ensures id in Unsynced(rows0, o.counts, rows0) <==> id in ids {
      if id in Unsynced(rows0, o.counts, rows0) {
        assert IsTarget(rows0, o.counts, id) && rows0[id].sales != o.counts[id];
      }
    }
    assert Unsynced(rows0, o.counts, rows0) == ids;
  }
}
