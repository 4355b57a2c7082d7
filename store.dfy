/**
 * The discounts table: its logical content is a map from the primary key id to the
 * one row stored under it. Writes are INSERT OR REPLACE, so the last write for an id wins.
 */
module DiscountStore {
  import opened Records

  /** The rows of the discounts table, by primary key. */
  type Table = map<int, Record>

  /** Every row is filed under its own id column. */
  ghost predicate Keyed(t: Table)
  {
    forall id :: id in t ==> t[id].id == id
  }

  /** The ids occurring in a batch of records. */
  ghost function IdsOf(data: seq<Record>): set<int>
  {
    set i | 0 <= i < |data| :: data[i].id
  }

  /** data[i] is the last record of data with this id. */
  ghost predicate LastWith(data: seq<Record>, i: int, id: int)
  {
    0 <= i < |data| && data[i].id == id && forall j :: i < j < |data| ==> data[j].id != id
  }

  /** The table after one INSERT OR REPLACE per record of data, in order. */
  function UpsertAll(t: Table, data: seq<Record>): Table
    decreases |data|
  {
    if data == [] then t
    else
      var r := data[|data| - 1];
      UpsertAll(t, data[..|data| - 1])[r.id := r]
  }

  /** The rows matched by WHERE discount >= threshold. */
  function AtOrAbove(t: Table, threshold: int): Table
  {
    map id | id in t && t[id].discount >= threshold :: t[id]
  }

  lemma IdsOfSnoc(data: seq<Record>)
    requires |data| > 0
    ensures IdsOf(data) == IdsOf(data[..|data| - 1]) + {data[|data| - 1].id}
  {
    var front := data[..|data| - 1];
    forall id | id in IdsOf(data) ensures id in IdsOf(front) + {data[|data| - 1].id} {
      var i :| 0 <= i < |data| && data[i].id == id;
      if i < |data| - 1 {
        assert front[i].id == id;
      }
    }
  }

  /** The table holds a row for an id exactly when it held one before or data writes one. */
  lemma {:induction false} UpsertAllKeys(t: Table, data: seq<Record>)
    ensures UpsertAll(t, data).Keys == t.Keys + IdsOf(data)
    decreases |data|
  {
    if data != [] {
      UpsertAllKeys(t, data[..|data| - 1]);
      IdsOfSnoc(data);
    }
  }

  /** Upserts keep every row filed under its own id. */
  lemma {:induction false} UpsertAllKeyed(t: Table, data: seq<Record>)
    requires Keyed(t)
    ensures Keyed(UpsertAll(t, data))
    decreases |data|
  {
    if data != [] {
      UpsertAllKeyed(t, data[..|data| - 1]);
    }
  }

  /** An id that data writes maps to the last record of data with that id. */
  lemma {:induction false} UpsertAllLastWins(t: Table, data: seq<Record>, id: int)
    requires id in IdsOf(data)
    ensures id in UpsertAll(t, data)
    ensures exists i :: LastWith(data, i, id) && UpsertAll(t, data)[id] == data[i]
    decreases |data|
  {
    var n := |data|;
    if data[n - 1].id == id {
      assert LastWith(data, n - 1, id);
    } else {
      var front := data[..n - 1];
      IdsOfSnoc(data);
      UpsertAllLastWins(t, front, id);
      var i :| LastWith(front, i, id) && UpsertAll(t, front)[id] == front[i];
      assert LastWith(data, i, id);
    }
  }

  /** An id that data does not write keeps its old row, or stays absent. */
  lemma {:induction false} UpsertAllUntouched(t: Table, data: seq<Record>, id: int)
    requires id !in IdsOf(data)
    ensures id in UpsertAll(t, data) <==> id in t
    ensures id in t ==> UpsertAll(t, data)[id] == t[id]
    decreases |data|
  {
    if data != [] {
      IdsOfSnoc(data);
      UpsertAllUntouched(t, data[..|data| - 1], id);
    }
  }

  /** Upserting data overlays the rows data writes on the old table. */
  lemma {:induction false} UpsertAllOverlay(t: Table, data: seq<Record>)
    ensures UpsertAll(t, data) == t + UpsertAll(map[], data)
    decreases |data|
  {
    if data != [] {
      var r := data[|data| - 1];
      var front := data[..|data| - 1];
      UpsertAllOverlay(t, front);
      var w := UpsertAll(map[], front);
      assert (t + w)[r.id := r] == t + w[r.id := r];
    }
  }

  /** A later batch that writes every id of an earlier one hides the earlier one entirely. */
  lemma LaterBatchSupersedes(t: Table, first: seq<Record>, second: seq<Record>)
    requires IdsOf(first) <= IdsOf(second)
    ensures UpsertAll(UpsertAll(t, first), second) == UpsertAll(t, second)
  {
    var w1, w2 := UpsertAll(map[], first), UpsertAll(map[], second);
    UpsertAllOverlay(t, first);
    UpsertAllOverlay(UpsertAll(t, first), second);
    UpsertAllOverlay(t, second);
    UpsertAllKeys(map[], first);
    UpsertAllKeys(map[], second);
    assert (t + w1) + w2 == t + w2;
  }

  /** save_to_db is idempotent: saving the same batch twice equals saving it once. */
  lemma UpsertAllIdempotent(t: Table, data: seq<Record>)
    ensures UpsertAll(UpsertAll(t, data), data) == UpsertAll(t, data)
  {
    LaterBatchSupersedes(t, data, data);
  }

  /** Re-saving a record for an id already stored replaces its row: no row is added. */
  lemma ReplaceNotDuplicate(t: Table, r: Record)
    requires r.id in t
    ensures forall id :: id in UpsertAll(t, [r]) <==> id in t
    ensures UpsertAll(t, [r])[r.id] == r
    ensures |UpsertAll(t, [r])| == |t|
  {
    assert [r][..0] == [];
    assert UpsertAll(t, [r]) == t[r.id := r];
  }

  /** The threshold query matches nothing when the threshold exceeds every stored discount. */
  lemma AtOrAboveEmpty(t: Table, threshold: int)
    requires forall id :: id in t ==> t[id].discount < threshold
    ensures AtOrAbove(t, threshold) == map[]
  {
    assert forall id :: id !in AtOrAbove(t, threshold);
  }

  /** A stricter threshold matches a subset of the rows. */
  lemma AtOrAboveMonotone(t: Table, low: int, high: int)
    requires low <= high
    ensures AtOrAbove(t, high).Keys <= AtOrAbove(t, low).Keys
  {
  }

  /** The range of integers sqlite3 binds as an INTEGER parameter: the signed 64-bit range. */
  const INT64_MIN: int := -0x8000_0000_0000_0000
  const INT64_MAX: int := 0x7FFF_FFFF_FFFF_FFFF

  /** Every integer column of r can be bound by cursor.execute without an OverflowError. */
  predicate Bindable(r: Record)
  {
    && INT64_MIN <= r.id <= INT64_MAX
    && INT64_MIN <= r.price <= INT64_MAX
    && INT64_MIN <= r.discount <= INT64_MAX
  }

  /**
   * A fetched batch binds without overflow exactly when every id lies in
   * 101 - 2^63 .. 2^63 - 1: the id must fit and so must the price 100 - id.
   */
  lemma FetchedBindable(ids: seq<int>, clock: seq<Timestamp>)
    requires |clock| == |ids|
    ensures (forall i :: 0 <= i < |ids| ==> Bindable(Fetched(ids, clock)[i]))
        <==> (forall i :: 0 <= i < |ids| ==> 101 + INT64_MIN <= ids[i] <= INT64_MAX)
  {
    forall i | 0 <= i < |ids|
      ensures Bindable(Fetched(ids, clock)[i]) <==> 101 + INT64_MIN <= ids[i] <= INT64_MAX
    {
      var r := Fetched(ids, clock)[i];
      assert r.id == ids[i] && r.price == 100 - ids[i] && 0 <= r.discount < 20;
    }
  }

  /** The discounts table of one database connection. */
  class DiscountTable {
    var rows: Table

    ghost predicate Valid()
      reads this
    {
      Keyed(rows)
    }

    /** init_db: CREATE TABLE IF NOT EXISTS keeps whatever rows the database file already holds. */
    constructor Open(existing: Table)
      requires Keyed(existing)
      ensures Valid()
      ensures rows == existing
    {
      rows := existing;
    }

    /** One INSERT OR REPLACE: the row for r.id becomes r, every other row stays. */
    method Upsert(r: Record)
      requires Valid()
      modifies this
      ensures Valid()
      ensures rows == old(rows)[r.id := r]
    {
      rows := rows[r.id := r];
    }

    /** save_to_db: one upsert per record, in order. */
    method SaveToDb(data: seq<Record>)
      requires Valid()
      modifies this
      ensures Valid()
      ensures rows == UpsertAll(old(rows), data)
    {
      for i := 0 to |data|
        invariant Valid()
        invariant rows == UpsertAll(old(rows), data[..i])
      {
        assert data[..i + 1][..i] == data[..i];
        Upsert(data[i]);
      }
      assert data[..|data|] == data;
    }

    /**
     * find_significant_discounts: exactly the stored rows whose discount is at least
     * threshold, each once, in no particular order; the table is not changed.
     */
    method FindSignificantDiscounts(threshold: int) returns (found: seq<Record>)
      requires Valid()
      ensures forall r :: r in found <==> r.id in rows && rows[r.id] == r && r.discount >= threshold
      ensures forall i, j :: 0 <= i < j < |found| ==> found[i].id != found[j].id
      ensures found == [] <==> AtOrAbove(rows, threshold) == map[]
    {
      found := [];
      var pending := rows.Items;
      while pending != {}
        invariant pending <= rows.Items
        invariant forall r :: r in found <==>
          r.id in rows && rows[r.id] == r && r.discount >= threshold && (r.id, r) !in pending
        invariant forall i, j :: 0 <= i < j < |found| ==> found[i].id != found[j].id
        decreases pending
      {
        var entry :| entry in pending;
        var (id, row) := entry;
        assert id in rows && rows[id] == row && row.id == id;
        forall i | 0 <= i < |found| ensures found[i].id != id {
          assert found[i] in found;
        }
        if row.discount >= threshold {
          found := found + [row];
        }
        pending := pending - {entry};
      }
      if found == [] {
        forall id | id in rows ensures id !in AtOrAbove(rows, threshold) {
          assert rows[id] !in found;
        }
      } else {
        assert found[0] in found;
        assert found[0].id in AtOrAbove(rows, threshold);
      }
    }
  }
}
