/**
 * The scheduled refresh cycle: fetch the configured ids, save them, query the rows at or
 * above the fixed threshold, and send one alert when the query found anything.
 * The e-mail transport is an outbox that the cycle appends to.
 */
module Refresh {
  import opened Records
  import opened Batching
  import opened DiscountStore
  import opened Alerts

  /** The threshold of the scheduled query. */
  const SIGNIFICANT_DISCOUNT: int := 15

  /** One alert handed to the mail transport: recipient, the rows it lists, its HTML body. */
  datatype Alert = Alert(recipient: string, rows: seq<Record>, body: string)

  /** The table after one cycle has fetched ids and saved the records. */
  function CycleTable(t: Table, ids: seq<int>, clock: seq<Timestamp>): Table
    requires |clock| == |ids|
  {
    UpsertAll(t, Fetched(ids, clock))
  }

  /** The fetched batch writes exactly the configured ids. */
  lemma FetchedIds(ids: seq<int>, clock: seq<Timestamp>, id: int)
    requires |clock| == |ids|
    ensures id in IdsOf(Fetched(ids, clock)) <==> id in ids
  {
    var data := Fetched(ids, clock);
    if id in ids {
      var i :| 0 <= i < |ids| && ids[i] == id;
      assert data[i].id == id;
    }
  }

  /**
   * A cycle sends nothing exactly when no configured id has a discount (id mod 20) of at
   * least 15 and no other stored row has one either.
   */
  lemma CycleQuietIff(t: Table, ids: seq<int>, clock: seq<Timestamp>)
    requires |clock| == |ids|
    ensures AtOrAbove(CycleTable(t, ids, clock), SIGNIFICANT_DISCOUNT) == map[] <==>
      && (forall i :: 0 <= i < |ids| ==> ids[i] % 20 < SIGNIFICANT_DISCOUNT)
      && (forall id :: id in t && id !in ids ==> t[id].discount < SIGNIFICANT_DISCOUNT)
  {
    var data := Fetched(ids, clock);
    var after := CycleTable(t, ids, clock);
    var hits := AtOrAbove(after, SIGNIFICANT_DISCOUNT);
    if hits == map[] {
      forall i | 0 <= i < |ids| ensures ids[i] % 20 < SIGNIFICANT_DISCOUNT {
        FetchedIds(ids, clock, ids[i]);
        UpsertAllLastWins(t, data, ids[i]);
        assert ids[i] !in hits;
      }
      forall id | id in t && id !in ids ensures t[id].discount < SIGNIFICANT_DISCOUNT {
        FetchedIds(ids, clock, id);
        UpsertAllUntouched(t, data, id);
        assert id !in hits;
      }
    } else if
      && (forall i :: 0 <= i < |ids| ==> ids[i] % 20 < SIGNIFICANT_DISCOUNT)
      && (forall id :: id in t && id !in ids ==> t[id].discount < SIGNIFICANT_DISCOUNT)
    {
      forall id | id in after ensures id !in hits {
        FetchedIds(ids, clock, id);
        if id in ids {
          UpsertAllLastWins(t, data, id);
          var j :| LastWith(data, j, id) && after[id] == data[j];
        } else {
          UpsertAllUntouched(t, data, id);
        }
      }
      assert forall id :: id !in hits;
    }
  }

  /** A fresh database and the default ids 1..5: discounts 1..5, so no alert is sent. */
  lemma DefaultIdsSendNothing(clock: seq<Timestamp>)
    requires |clock| == 5
    ensures AtOrAbove(CycleTable(map[], [1, 2, 3, 4, 5], clock), SIGNIFICANT_DISCOUNT) == map[]
  {
    CycleQuietIff(map[], [1, 2, 3, 4, 5], clock);
  }

  /**
   * Ids 1, 2, 3 give discounts 1, 2, 3 and prices 99, 98, 97; on a fresh database the
   * query at threshold 2 matches ids 2 and 3.
   */
  lemma ThreeProductsExample(clock: seq<Timestamp>)
    requires |clock| == 3
    ensures var data := Fetched([1, 2, 3], clock);
      && [data[0].discount, data[1].discount, data[2].discount] == [1, 2, 3]
      && [data[0].price, data[1].price, data[2].price] == [99, 98, 97]
    ensures var hits := AtOrAbove(CycleTable(map[], [1, 2, 3], clock), 2);
      forall id :: id in hits <==> id == 2 || id == 3
  {
    var ids := [1, 2, 3];
    var data := Fetched(ids, clock);
    var after := CycleTable(map[], ids, clock);
    UpsertAllKeys(map[], data);
    forall id | id in after ensures after[id] == MockRecord(id, after[id].lastUpdated) {
      FetchedIds(ids, clock, id);
      UpsertAllLastWins(map[], data, id);
    }
    forall id ensures id in after <==> id in ids {
      FetchedIds(ids, clock, id);
      UpsertAllKeys(map[], data);
    }
  }

  /** A second cycle over the same ids replaces every row the first one wrote. */
  lemma SecondCycleReplaces(t: Table, ids: seq<int>, first: seq<Timestamp>, second: seq<Timestamp>)
    requires |first| == |ids| && |second| == |ids|
    ensures CycleTable(CycleTable(t, ids, first), ids, second) == CycleTable(t, ids, second)
  {
    forall id | id in IdsOf(Fetched(ids, first)) ensures id in IdsOf(Fetched(ids, second)) {
      FetchedIds(ids, first, id);
      FetchedIds(ids, second, id);
    }
    LaterBatchSupersedes(t, Fetched(ids, first), Fetched(ids, second));
  }

  /** The job that schedule_updates registers: it captures the connection, the ids and the recipient. */
  class RefreshJob {
    const store: DiscountTable
    const productIds: seq<int>
    const email: string
    const showReal: int -> string
    /** The alerts handed to the mail transport so far. */
    ghost var outbox: seq<Alert>

    ghost predicate Valid()
      reads this, store
    {
      store.Valid()
    }

    constructor (store: DiscountTable, productIds: seq<int>, email: string, showReal: int -> string)
      requires store.Valid()
      ensures Valid()
      ensures this.store == store && this.productIds == productIds && this.email == email
      ensures this.showReal == showReal && outbox == []
    {
      this.store := store;
      this.productIds := productIds;
      this.email := email;
      this.showReal := showReal;
      outbox := [];
    }

    /**
     * update_job: save the fetched records, then query at threshold 15 on the updated
     * table, then send one alert listing exactly the matching rows iff there are any.
     */
    method UpdateJob(clock: seq<Timestamp>)
      requires Valid()
      requires |clock| == |productIds|
      modifies this, store
      ensures Valid()
      ensures store.rows == CycleTable(old(store.rows), productIds, clock)
      ensures AtOrAbove(store.rows, SIGNIFICANT_DISCOUNT) == map[] ==> outbox == old(outbox)
      ensures AtOrAbove(store.rows, SIGNIFICANT_DISCOUNT) != map[] ==>
        && |outbox| == |old(outbox)| + 1
        && outbox[..|old(outbox)|] == old(outbox)
        && var sent := outbox[|outbox| - 1];
           && sent.recipient == email
           && (forall r :: r in sent.rows <==>
                 r.id in store.rows && store.rows[r.id] == r && r.discount >= SIGNIFICANT_DISCOUNT)
           && (forall i, j :: 0 <= i < j < |sent.rows| ==> sent.rows[i].id != sent.rows[j].id)
           && sent.body == HEADER + Items(sent.rows, showReal) + FOOTER
    {
      var fetched := ParallelFetchAndProcess(productIds, clock);
      store.SaveToDb(fetched);
      var significant := store.FindSignificantDiscounts(SIGNIFICANT_DISCOUNT);
      if significant != [] {
        var body := BuildBody(significant, showReal);
        outbox := outbox + [Alert(email, significant, body)];
      }
    }
  }
}
