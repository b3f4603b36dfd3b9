/** The four answers of the query phase (src/index.ts:101-141): the amount sum
    of one day bucket (today, yesterday) or of the buckets of a run of days
    (this week, last week). The day text of a day (`dateToText`) is a parameter. */
module Presets {
  import opened Types
  import Calendar

  /** The reply of a query, as a tag with the sum it reports; the wording and
      the money formatting of the chat messages are left out. */
  datatype Reply =
    | NothingToday
    | EarnedToday(sum: nat)
    | NothingYesterday
    | EarnedYesterday(sum: nat)
    | EarnedThisWeek(sum: nat)
    | EarnedLastWeek(sum: nat)

  /** The amount sum of a bucket. A dictionary has no order of its own here, so
      the sum peels off an arbitrary entry; `BucketTotalPeel` shows that any
      entry may go first, which is why the key order of `Object.entries` does
      not matter. */
  ghost function BucketTotal(bucket: Dict<Order>): (total: nat)
    decreases |bucket|
  {
    if bucket == map[] then 0
    else
      var id := PickKey(bucket);
      bucket[id].amount + BucketTotal(bucket - {id})
  }

  ghost function PickKey(bucket: Dict<Order>): (id: string)
    requires bucket != map[]
    ensures id in bucket
  {
    assert |bucket.Keys| > 0;
    var id :| id in bucket; id
  }

  /** Any entry may be added first: the total is that entry's amount plus the total of the rest. */
  lemma {:induction false} BucketTotalPeel(bucket: Dict<Order>, id: string)
    requires id in bucket
    ensures BucketTotal(bucket) == bucket[id].amount + BucketTotal(bucket - {id})
    decreases |bucket|
  {
    var first := PickKey(bucket);
    if first != id {
      var rest := bucket - {first};
      BucketTotalPeel(rest, id);
      BucketTotalPeel(bucket - {id}, first);
      assert rest - {id} == (bucket - {id}) - {first};
    }
  }

  lemma BucketTotalEmpty()
    ensures BucketTotal(map[]) == 0
  {
  }

  /** A bucket with a single entry totals that entry's amount. */
  lemma BucketTotalSingle(id: string, o: Order)
    ensures BucketTotal(map[id := o]) == o.amount
  {
    BucketTotalPeel(map[id := o], id);
    assert map[id := o] - {id} == map[];
  }

  /** The sum of a run of days, day by day, a day without a bucket adding 0. */
  ghost function SumOver(g: Dict<Dict<Order>>, days: seq<int>, dayText: int -> string): (sum: nat)
  {
    if |days| == 0 then 0
    else (if dayText(days[0]) in g then BucketTotal(g[dayText(days[0])]) else 0) + SumOver(g, days[1..], dayText)
  }

  lemma {:induction false} SumOverAppend(g: Dict<Dict<Order>>, a: seq<int>, b: seq<int>, dayText: int -> string)
    ensures SumOver(g, a + b, dayText) == SumOver(g, a, dayText) + SumOver(g, b, dayText)
    decreases |a|
  {
    if |a| > 0 {
      assert (a + b)[0] == a[0] && (a + b)[1..] == a[1..] + b;
      SumOverAppend(g, a[1..], b, dayText);
    } else {
      assert a + b == b;
    }
  }

  /** An empty grouping sums to 0 over any days. */
  lemma {:induction false} SumOverNothing(days: seq<int>, dayText: int -> string)
    ensures SumOver(map[], days, dayText) == 0
    decreases |days|
  {
    if |days| > 0 {
      SumOverNothing(days[1..], dayText);
    }
  }

  /** `.map(dateToText).filter(day => day in groupedByDate)`. */
  function PresentDays(g: Dict<Dict<Order>>, days: seq<int>, dayText: int -> string): (texts: seq<string>)
    ensures forall t :: t in texts ==> t in g
    ensures forall t :: t in texts ==> exists k :: 0 <= k < |days| && dayText(days[k]) == t
    ensures forall k :: 0 <= k < |days| && dayText(days[k]) in g ==> dayText(days[k]) in texts
    ensures |texts| <= |days|
    ensures |days| > 0 && dayText(days[0]) in g ==> texts[0] == dayText(days[0])
    decreases |days|
  {
    if |days| == 0 then []
    else
      var rest := PresentDays(g, days[1..], dayText);
      if dayText(days[0]) in g then [dayText(days[0])] + rest else rest
  }

  /** `.map(day => bucket sum).reduce((acc, day) => acc + day, 0)`. */
  ghost function SumBuckets(g: Dict<Dict<Order>>, texts: seq<string>): (sum: nat)
    requires forall t :: t in texts ==> t in g
  {
    if |texts| == 0 then 0 else BucketTotal(g[texts[0]]) + SumBuckets(g, texts[1..])
  }

  /** The pipeline of `onWeekText`/`onLastWeekText` over some days. */
  ghost function RangeTotal(g: Dict<Dict<Order>>, days: seq<int>, dayText: int -> string): (sum: nat)
    ensures sum == SumOver(g, days, dayText)
  {
    RangeTotalIsSumOver(g, days, dayText);
    SumBuckets(g, PresentDays(g, days, dayText))
  }

  /** Filtering out the absent days and summing the rest is summing every day with absent days as 0. */
  lemma {:induction false} RangeTotalIsSumOver(g: Dict<Dict<Order>>, days: seq<int>, dayText: int -> string)
    ensures SumBuckets(g, PresentDays(g, days, dayText)) == SumOver(g, days, dayText)
    decreases |days|
  {
    if |days| > 0 {
      RangeTotalIsSumOver(g, days[1..], dayText);
      var rest := PresentDays(g, days[1..], dayText);
      if dayText(days[0]) in g {
        assert ([dayText(days[0])] + rest)[1..] == rest;
      }
    }
  }

  /** `onTodayText`: nothing exactly when today's text has no bucket, otherwise that bucket's total. */
  ghost function OnTodayText(g: Dict<Dict<Order>>, today: int, dayText: int -> string): (r: Reply)
    ensures r.NothingToday? <==> dayText(today) !in g
    ensures r.NothingToday? || r.EarnedToday?
    ensures r.EarnedToday? ==> r.sum == SumOver(g, [today], dayText)
  {
    var key := dayText(today);
    if key !in g then NothingToday else EarnedToday(BucketTotal(g[key]))
  }

  /** `onYesterdayText`: the same for the day before today. */
  ghost function OnYesterdayText(g: Dict<Dict<Order>>, today: int, dayText: int -> string): (r: Reply)
    ensures r.NothingYesterday? <==> dayText(today - 1) !in g
    ensures r.NothingYesterday? || r.EarnedYesterday?
    ensures r.EarnedYesterday? ==> r.sum == SumOver(g, [today - 1], dayText)
  {
    var key := dayText(today - 1);
    if key !in g then NothingYesterday else EarnedYesterday(BucketTotal(g[key]))
  }

  /** `onWeekText`: the buckets from this week's Monday through today. */
  ghost function OnWeekText(g: Dict<Dict<Order>>, today: int, dayText: int -> string): (r: Reply)
    ensures r.EarnedThisWeek?
    ensures r.sum == SumOver(g, Calendar.ThisWeek(today), dayText)
  {
    EarnedThisWeek(RangeTotal(g, Calendar.GetDates(Calendar.StartOfWeek(today), today), dayText))
  }

  /** `onLastWeekText`: the buckets from last week's Monday through its Sunday. */
  ghost function OnLastWeekText(g: Dict<Dict<Order>>, today: int, dayText: int -> string): (r: Reply)
    ensures r.EarnedLastWeek?
    ensures r.sum == SumOver(g, Calendar.LastWeek(today), dayText)
  {
    var start := Calendar.StartOfWeek(today - 7);
    EarnedLastWeek(RangeTotal(g, Calendar.GetDates(start, start + 6), dayText))
  }

  /** Last week ends the day before this week begins: the two presets cover adjacent weeks. */
  lemma ThisWeekFollowsLastWeek(today: int)
    ensures Calendar.LastWeek(today)[6] + 1 == Calendar.ThisWeek(today)[0]
  {
  }
}
