/** `updateOrders` (src/index.ts:174-191): the throttle, the cursors taken from
    the heads of the stored lists, and the prepending of what the two page
    loops return. Time is in whole minutes and `now` is a parameter. The
    function mutates the metadata in place, so a failure after the first
    `unshift` leaves a partly updated session behind; `Turn` records that. */
module Sync {
  import opened Wrappers
  import opened Types
  import Pagination

  /** A remote table: its pages as the loop would see them (at least the first
      one), or a table that cannot be reached (navigation or login fails). */
  datatype Source<R> = Table(first: seq<R>, more: seq<seq<R>>) | Unreachable
  {
    function Pages(): (pages: seq<seq<R>>)
      requires Table?
      ensures |pages| > 0 && pages[0] == first
    {
      [first] + more
    }
  }

  const ThrottleMinutes: int := 30

  /** `differenceInMinutes(lastUpdatedDate, now) < 30`. date-fns subtracts the
      SECOND argument from the first, so this is `last - now < 30`. A missing or
      invalid timestamp gives NaN, and NaN < 30 is false. */
  predicate Throttled(last: Option<int>, now: int)
  {
    last.Some? && last.value - now < ThrottleMinutes
  }

  /** With that argument order every timestamp that is not in the future skips the sync. */
  lemma PastTimestampThrottles(last: int, now: int)
    requires last <= now
    ensures Throttled(Some(last), now)
  {
  }

  /** The sync proceeds exactly when there is no usable timestamp or it lies at
      least 30 minutes ahead of `now`. */
  lemma ThrottleLetsThrough(last: Option<int>, now: int)
    ensures !Throttled(last, now) <==> last.None? || last.value >= now + ThrottleMinutes
  {
  }

  /** `get(list, '[0].id', null)`: the cursor is the id of the newest stored row. */
  function HeadId<R>(rows: seq<R>, idOf: R -> string): (cursor: Option<string>)
    ensures cursor.None? <==> |rows| == 0
    ensures cursor.Some? ==> cursor.value == idOf(rows[0])
  {
    if |rows| == 0 then None else Some(idOf(rows[0]))
  }

  function HeadDeliveryId(rows: seq<Delivery>): (cursor: Option<string>)
  {
    HeadId(rows, Pagination.DeliveryId)
  }

  function HeadCommissionId(rows: seq<Commission>): (cursor: Option<string>)
  {
    HeadId(rows, Pagination.CommissionId)
  }

  /** `getOrdersWithDate(cookies, cursor)` against a source. */
  function NewDeliveries(src: Source<RawDelivery>, cursor: Option<string>): (r: Result<seq<Delivery>, Fault>)
    ensures src.Unreachable? ==> r == Failure(PageUnavailable)
    ensures r.Success? && cursor.Some? ==> forall k :: 0 <= k < |r.value| ==> r.value[k].id != cursor.value
  {
    match src
    case Unreachable => Failure(PageUnavailable)
    case Table(_, _) =>
      match Pagination.FetchDeliveries(src.Pages(), cursor)
      case Success(fetched) => Success(fetched.rows)
      case Failure(f) => Failure(f)
  }

  /** `getOrdersWithCommission(cookies, cursor)` against a source. */
  function NewCommissions(src: Source<RawCommission>, cursor: Option<string>): (r: Result<seq<Commission>, Fault>)
    ensures r.Failure? <==> src.Unreachable?
    ensures r.Failure? ==> r.error == PageUnavailable
    ensures r.Success? && cursor.Some? ==> forall k :: 0 <= k < |r.value| ==> r.value[k].id != cursor.value
  {
    match src
    case Unreachable => Failure(PageUnavailable)
    case Table(_, _) => Success(Pagination.FetchCommissions(src.Pages(), cursor).value.rows)
  }

  /** `updateOrders(state)` on the session metadata. */
  function UpdateOrders(m: Metadata, now: int, deliveries: Source<RawDelivery>, commissions: Source<RawCommission>): (r: Turn<Metadata>)
    ensures Throttled(m.lastUpdatedAt, now) ==> r == Completed(m)
    ensures var n := if r.Completed? then r.value else r.partial;
      && n.extra == m.extra
      && |m.ordersWithDate| <= |n.ordersWithDate| && n.ordersWithDate[|n.ordersWithDate| - |m.ordersWithDate|..] == m.ordersWithDate
      && |m.ordersWithCommission| <= |n.ordersWithCommission| && n.ordersWithCommission[|n.ordersWithCommission| - |m.ordersWithCommission|..] == m.ordersWithCommission
    ensures r.Completed? && !Throttled(m.lastUpdatedAt, now) ==>
      && r.value.lastUpdatedAt == Some(now)
      && NewDeliveries(deliveries, HeadDeliveryId(m.ordersWithDate)).Success?
      && NewCommissions(commissions, HeadCommissionId(m.ordersWithCommission)).Success?
      && r.value.ordersWithDate == NewDeliveries(deliveries, HeadDeliveryId(m.ordersWithDate)).value + m.ordersWithDate
      && r.value.ordersWithCommission == NewCommissions(commissions, HeadCommissionId(m.ordersWithCommission)).value + m.ordersWithCommission
    ensures r.Aborted? ==>
      && !Throttled(m.lastUpdatedAt, now)
      && r.partial.lastUpdatedAt == m.lastUpdatedAt
      && r.partial.ordersWithCommission == m.ordersWithCommission
  {
    if Throttled(m.lastUpdatedAt, now) then Completed(m)
    else
      match NewDeliveries(deliveries, HeadDeliveryId(m.ordersWithDate))
      case Failure(f) => Aborted(f, m)
      case Success(ds) =>
        var m1 := m.(ordersWithDate := ds + m.ordersWithDate);
        match NewCommissions(commissions, HeadCommissionId(m.ordersWithCommission))
        case Failure(f) => Aborted(f, m1)
        case Success(cs) =>
          Completed(m1.(ordersWithCommission := cs + m.ordersWithCommission, lastUpdatedAt := Some(now)))
  }

  /** The partial commit: when the delivery fetch succeeds and the commission
      table cannot be reached, the new deliveries are already prepended and the
      timestamp is not advanced, so the next sync starts from the new delivery
      head but the old commission head. */
  lemma CommissionFailureKeepsDeliveries(m: Metadata, now: int, deliveries: Source<RawDelivery>, ds: seq<Delivery>)
    requires !Throttled(m.lastUpdatedAt, now)
    requires NewDeliveries(deliveries, HeadDeliveryId(m.ordersWithDate)) == Success(ds)
    ensures UpdateOrders(m, now, deliveries, Unreachable) == Aborted(PageUnavailable, m.(ordersWithDate := ds + m.ordersWithDate))
  {
  }

  /** A failing delivery fetch leaves the metadata exactly as it was. */
  lemma DeliveryFailureChangesNothing(m: Metadata, now: int, deliveries: Source<RawDelivery>, commissions: Source<RawCommission>)
    requires !Throttled(m.lastUpdatedAt, now)
    requires NewDeliveries(deliveries, HeadDeliveryId(m.ordersWithDate)).Failure?
    ensures UpdateOrders(m, now, deliveries, commissions) == Aborted(NewDeliveries(deliveries, HeadDeliveryId(m.ordersWithDate)).error, m)
  {
  }

  /** A sync that returns leaves a timestamp that throttles a sync at the same minute. */
  lemma ReturnedSyncThrottles(m: Metadata, now: int, deliveries: Source<RawDelivery>, commissions: Source<RawCommission>)
    requires UpdateOrders(m, now, deliveries, commissions).Completed?
    ensures Throttled(UpdateOrders(m, now, deliveries, commissions).value.lastUpdatedAt, now)
  {
  }

  /** Once a sync has returned at `now`, every sync at the same time or later is
      skipped: the stored lists never grow again through this path. */
  lemma SyncedSessionStaysThrottled(m: Metadata, now: int, later: int, deliveries: Source<RawDelivery>, commissions: Source<RawCommission>,
                                    deliveries2: Source<RawDelivery>, commissions2: Source<RawCommission>)
    requires later >= now
    requires UpdateOrders(m, now, deliveries, commissions).Completed?
    ensures UpdateOrders(UpdateOrders(m, now, deliveries, commissions).value, later, deliveries2, commissions2)
      == Completed(UpdateOrders(m, now, deliveries, commissions).value)
  {
    ReturnedSyncThrottles(m, now, deliveries, commissions);
    var n := UpdateOrders(m, now, deliveries, commissions).value;
    assert Throttled(n.lastUpdatedAt, later);
  }
}
