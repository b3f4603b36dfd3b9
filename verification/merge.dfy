/** `mergeOrdersInfo` (src/scrapper.ts:27-51): a ledger keyed by delivery id
    with every matching commission amount added in, then grouped into day
    buckets keyed by the text of the delivery's day. The day text of a date
    (`dateToText(new Date(date))`) is a parameter. */
module Merge {
  import opened Wrappers
  import opened Types

  function DeliveryIdSet(ds: seq<Delivery>): (ids: set<string>)
  {
    set k | 0 <= k < |ds| :: ds[k].id
  }

  /** The first reduce: one zero-amount entry per delivery row, in row order,
      so a later row with the same id overwrites an earlier one. */
  function Seed(ds: seq<Delivery>): (ledger: Dict<Order>)
    ensures ledger.Keys == DeliveryIdSet(ds)
    ensures forall id :: id in ledger ==> ledger[id].id == id && ledger[id].amount == 0
    decreases |ds|
  {
    if |ds| == 0 then map[]
    else
      var d := ds[|ds| - 1];
      assert DeliveryIdSet(ds) == DeliveryIdSet(ds[..|ds| - 1]) + {d.id} by {
        assert forall k :: 0 <= k < |ds| - 1 ==> ds[..|ds| - 1][k] == ds[k];
      }
      Seed(ds[..|ds| - 1])[d.id := Order(d.id, d.date, 0)]
  }

  /** For a delivery id occurring more than once, the entry carries the date of its last row. */
  lemma {:induction false} SeedKeepsLastDate(ds: seq<Delivery>, k: nat)
    requires k < |ds|
    requires forall m :: k < m < |ds| ==> ds[m].id != ds[k].id
    ensures Seed(ds)[ds[k].id].date == ds[k].date
    decreases |ds|
  {
    if k < |ds| - 1 {
      var front := ds[..|ds| - 1];
      assert front[k] == ds[k];
      SeedKeepsLastDate(front, k);
    }
  }

  /** The total commission recorded for `id`: the reference sum the ledger must reach. */
  function AmountFor(cs: seq<Commission>, id: string): (total: nat)
  {
    if |cs| == 0 then 0
    else (if cs[0].id == id then cs[0].amount else 0) + AmountFor(cs[1..], id)
  }

  lemma {:induction false} AmountForSnoc(cs: seq<Commission>, c: Commission, id: string)
    ensures AmountFor(cs + [c], id) == AmountFor(cs, id) + (if c.id == id then c.amount else 0)
    decreases |cs|
  {
    if |cs| > 0 {
      assert (cs + [c])[1..] == cs[1..] + [c];
      AmountForSnoc(cs[1..], c, id);
    }
  }

  /** The second reduce: each commission row adds its amount to the entry with
      its id, if there is one; rows without a delivery are dropped. */
  function Credit(ledger: Dict<Order>, cs: seq<Commission>): (r: Dict<Order>)
    ensures r.Keys == ledger.Keys
    ensures forall id :: id in r ==> r[id].id == ledger[id].id && r[id].date == ledger[id].date
    ensures forall id :: id in r ==> r[id].amount == ledger[id].amount + AmountFor(cs, id)
    decreases |cs|
  {
    if |cs| == 0 then ledger
    else
      var front := cs[..|cs| - 1];
      var c := cs[|cs| - 1];
      var acc := Credit(ledger, front);
      assert cs == front + [c];
      AmountForSnoc(front, c, c.id);
      assert forall id :: id != c.id ==> AmountFor(cs, id) == AmountFor(front, id) by {
        forall id | id != c.id
          ensures AmountFor(cs, id) == AmountFor(front, id)
        {
          AmountForSnoc(front, c, id);
        }
      }
      if c.id in acc then acc[c.id := acc[c.id].(amount := acc[c.id].amount + c.amount)] else acc
  }

  /** The ledger after both reduces: one entry per distinct delivery id, its
      amount the sum of that id's commissions. */
  function Ledger(ds: seq<Delivery>, cs: seq<Commission>): (ledger: Dict<Order>)
    ensures ledger.Keys == DeliveryIdSet(ds)
    ensures forall id :: id in ledger ==> ledger[id].id == id && ledger[id].amount == AmountFor(cs, id)
  {
    Credit(Seed(ds), cs)
  }

  /** Whether no two entries share an id. */
  predicate DistinctIds(entries: seq<Order>)
  {
    forall i, j :: 0 <= i < j < |entries| ==> entries[i].id != entries[j].id
  }

  /** One listing of the ledger's keys, each exactly once (here in order of
      first occurrence). It stands for the order in which `Object.entries`
      walks the ledger, which JavaScript fixes differently (integer-like keys
      first, ascending); the grouping does not depend on the order, since
      `GroupLedger` holds for any such listing. */
  function KeyOrder(ds: seq<Delivery>): (ids: seq<string>)
    ensures forall i, j :: 0 <= i < j < |ids| ==> ids[i] != ids[j]
    ensures forall id :: id in ids <==> id in DeliveryIdSet(ds)
    decreases |ds|
  {
    if |ds| == 0 then []
    else
      var front := ds[..|ds| - 1];
      var d := ds[|ds| - 1];
      var acc := KeyOrder(front);
      assert DeliveryIdSet(ds) == DeliveryIdSet(front) + {d.id} by {
        assert forall k :: 0 <= k < |ds| - 1 ==> front[k] == ds[k];
      }
      if d.id in acc then acc else acc + [d.id]
  }

  /** `Object.entries(orders)`: the ledger's entries in the order of a listing of its keys. */
  function Entries(ledger: Dict<Order>, ids: seq<string>): (entries: seq<Order>)
    requires forall k :: 0 <= k < |ids| ==> ids[k] in ledger
    ensures |entries| == |ids| && forall k :: 0 <= k < |ids| ==> entries[k] == ledger[ids[k]]
  {
    seq(|ids|, k requires 0 <= k < |ids| => ledger[ids[k]])
  }

  /** The grouping reduce: `acc[date][id] = order`, opening a bucket the first
      time a day text is met. */
  function Group(entries: seq<Order>, dayKey: string -> string): (g: Dict<Dict<Order>>)
    decreases |entries|
  {
    if |entries| == 0 then map[]
    else
      var front := entries[..|entries| - 1];
      var o := entries[|entries| - 1];
      var acc := Group(front, dayKey);
      var day := dayKey(o.date);
      var bucket := if day in acc then acc[day] else map[];
      assert forall k :: 0 <= k < |front| ==> front[k] == entries[k];
      acc[day := bucket[o.id := o]]
  }

  /** No bucket is opened without an entry filed in it. */
  lemma {:induction false} GroupBucketsNonEmpty(entries: seq<Order>, dayKey: string -> string)
    ensures forall day :: day in Group(entries, dayKey) ==> Group(entries, dayKey)[day] != map[]
    decreases |entries|
  {
    if |entries| > 0 {
      var front := entries[..|entries| - 1];
      var o := entries[|entries| - 1];
      var acc := Group(front, dayKey);
      var day := dayKey(o.date);
      var bucket := if day in acc then acc[day] else map[];
      GroupBucketsNonEmpty(front, dayKey);
      assert Group(entries, dayKey) == acc[day := bucket[o.id := o]];
      assert o.id in bucket[o.id := o];
    }
  }

  /** Every bucket member is one of the entries, filed under its own id and in
      the bucket of its own day. */
  lemma {:induction false} GroupMembersAreEntries(entries: seq<Order>, dayKey: string -> string)
    ensures forall day, id :: day in Group(entries, dayKey) && id in Group(entries, dayKey)[day] ==>
      var o := Group(entries, dayKey)[day][id]; o in entries && o.id == id && dayKey(o.date) == day
    decreases |entries|
  {
    if |entries| > 0 {
      var front := entries[..|entries| - 1];
      var o := entries[|entries| - 1];
      var acc := Group(front, dayKey);
      var day := dayKey(o.date);
      var bucket := if day in acc then acc[day] else map[];
      var g := acc[day := bucket[o.id := o]];
      GroupMembersAreEntries(front, dayKey);
      assert Group(entries, dayKey) == g;
      forall d, id | d in g && id in g[d]
        ensures g[d][id] in entries && g[d][id].id == id && dayKey(g[d][id].date) == d
      {
        if d == day && id == o.id {
          assert g[d][id] == o;
        } else {
          assert g[d][id] == acc[d][id];
          assert acc[d][id] in front;
        }
      }
    }
  }

  /** With distinct ids every entry is filed in the bucket of its day, under its id. */
  lemma {:induction false} GroupFilesEveryEntry(entries: seq<Order>, dayKey: string -> string)
    requires DistinctIds(entries)
    ensures var g := Group(entries, dayKey);
      forall k :: 0 <= k < |entries| ==>
        dayKey(entries[k].date) in g && entries[k].id in g[dayKey(entries[k].date)]
        && g[dayKey(entries[k].date)][entries[k].id] == entries[k]
    decreases |entries|
  {
    if |entries| > 0 {
      var front := entries[..|entries| - 1];
      GroupFilesEveryEntry(front, dayKey);
      forall k | 0 <= k < |front|
        ensures front[k] == entries[k] && front[k].id != entries[|entries| - 1].id
      {
      }
    }
  }

  /** With distinct ids an entry is filed in exactly one bucket. */
  lemma GroupFilesOnce(entries: seq<Order>, dayKey: string -> string, d1: string, d2: string, id: string)
    requires DistinctIds(entries)
    requires var g := Group(entries, dayKey); d1 in g && d2 in g && id in g[d1] && id in g[d2]
    ensures d1 == d2
  {
    GroupMembersAreEntries(entries, dayKey);
    var g := Group(entries, dayKey);
    var i :| 0 <= i < |entries| && entries[i] == g[d1][id];
    var j :| 0 <= j < |entries| && entries[j] == g[d2][id];
    assert i == j;
  }

  /** `g` files the ledger by day: no empty bucket, every member is the ledger
      entry of its id in the bucket of its day, and every ledger entry is filed. */
  predicate FiledByDay(g: Dict<Dict<Order>>, ledger: Dict<Order>, dayKey: string -> string)
  {
    && (forall day :: day in g ==> g[day] != map[])
    && (forall day, id :: day in g && id in g[day] ==>
          id in ledger && g[day][id] == ledger[id] && dayKey(ledger[id].date) == day)
    && (forall id :: id in ledger ==>
          dayKey(ledger[id].date) in g && id in g[dayKey(ledger[id].date)] && g[dayKey(ledger[id].date)][id] == ledger[id])
  }

  /** Grouping the ledger's entries, in the order of any duplicate-free listing of its keys, files every ledger entry. */
  lemma GroupFilesLedger(ledger: Dict<Order>, ids: seq<string>, dayKey: string -> string)
    requires forall i, j :: 0 <= i < j < |ids| ==> ids[i] != ids[j]
    requires forall id :: id in ids <==> id in ledger
    requires forall id :: id in ledger ==> ledger[id].id == id
    ensures forall id :: id in ledger ==>
      dayKey(ledger[id].date) in Group(Entries(ledger, ids), dayKey)
      && id in Group(Entries(ledger, ids), dayKey)[dayKey(ledger[id].date)]
      && Group(Entries(ledger, ids), dayKey)[dayKey(ledger[id].date)][id] == ledger[id]
  {
    var entries := Entries(ledger, ids);
    assert DistinctIds(entries);
    GroupFilesEveryEntry(entries, dayKey);
    forall id | id in ledger
      ensures exists k :: 0 <= k < |entries| && entries[k] == ledger[id]
    {
      var k :| 0 <= k < |ids| && ids[k] == id;
      assert entries[k] == ledger[id];
    }
  }

  /** Grouping the ledger's entries, in the order of any duplicate-free listing of its keys, files the ledger by day. */
  lemma GroupLedger(ledger: Dict<Order>, ids: seq<string>, dayKey: string -> string)
    requires forall i, j :: 0 <= i < j < |ids| ==> ids[i] != ids[j]
    requires forall id :: id in ids <==> id in ledger
    requires forall id :: id in ledger ==> ledger[id].id == id
    ensures FiledByDay(Group(Entries(ledger, ids), dayKey), ledger, dayKey)
  {
    var entries := Entries(ledger, ids);
    GroupBucketsNonEmpty(entries, dayKey);
    GroupMembersAreEntries(entries, dayKey);
    GroupFilesLedger(ledger, ids, dayKey);
  }

  /** `mergeOrdersInfo(ordersWithDate, ordersWithCommission)` with `dayKey` for
      the day text: the ledger of `Ledger`, filed by day. */
  function MergeOrdersInfo(ds: seq<Delivery>, cs: seq<Commission>, dayKey: string -> string): (g: Dict<Dict<Order>>)
    ensures FiledByDay(g, Ledger(ds, cs), dayKey)
  {
    GroupLedger(Ledger(ds, cs), KeyOrder(ds), dayKey);
    Group(Entries(Ledger(ds, cs), KeyOrder(ds)), dayKey)
  }

  /** The ledger of the example below: A at 150, B at 0, C dropped. */
  lemma ExampleLedger()
    ensures Ledger([Delivery("A", "d1"), Delivery("B", "d1")],
                   [Commission("A", 100, None), Commission("A", 50, None), Commission("C", 70, None)])
      == map["A" := Order("A", "d1", 150), "B" := Order("B", "d1", 0)]
  {
    var cs := [Commission("A", 100, None), Commission("A", 50, None), Commission("C", 70, None)];
    assert Seed([Delivery("A", "d1"), Delivery("B", "d1")]) == map["A" := Order("A", "d1", 0), "B" := Order("B", "d1", 0)];
    assert AmountFor(cs, "A") == 150;
    assert AmountFor(cs, "B") == 0;
  }

  /** Every bucket of a filing holds some ledger entry of that day. */
  lemma FiledBucketHasEntry(g: Dict<Dict<Order>>, ledger: Dict<Order>, dayKey: string -> string, day: string)
    requires FiledByDay(g, ledger, dayKey) && day in g
    ensures exists id :: id in ledger && dayKey(ledger[id].date) == day
  {
    assert |g[day].Keys| > 0;
    var id :| id in g[day];
    assert id in ledger && dayKey(ledger[id].date) == day;
  }

  /** A ledger whose entries all share one day is filed as a single bucket holding the whole ledger. */
  lemma FiledOneDay(g: Dict<Dict<Order>>, ledger: Dict<Order>, dayKey: string -> string, day: string)
    requires FiledByDay(g, ledger, dayKey) && ledger != map[]
    requires forall id :: id in ledger ==> dayKey(ledger[id].date) == day
    ensures g == map[day := ledger]
  {
    forall d | d in g
      ensures d == day
    {
      FiledBucketHasEntry(g, ledger, dayKey, d);
    }
    assert |ledger.Keys| > 0;
    var id :| id in ledger;
    assert day in g;
    assert g[day] == ledger;
  }

  /** Two same-day deliveries A and B, commissions 100 and 50 for A and 70
      for C with no delivery: one bucket, A at 150, B at 0, C dropped. */
  lemma MergeExample(dayKey: string -> string)
    ensures MergeOrdersInfo([Delivery("A", "d1"), Delivery("B", "d1")],
                            [Commission("A", 100, None), Commission("A", 50, None), Commission("C", 70, None)], dayKey)
      == map[dayKey("d1") := map["A" := Order("A", "d1", 150), "B" := Order("B", "d1", 0)]]
  {
    var ds := [Delivery("A", "d1"), Delivery("B", "d1")];
    var cs := [Commission("A", 100, None), Commission("A", 50, None), Commission("C", 70, None)];
    ExampleLedger();
    FiledOneDay(MergeOrdersInfo(ds, cs, dayKey), Ledger(ds, cs), dayKey, dayKey("d1"));
  }
}
