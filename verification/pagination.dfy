/** The page loops of `getOrdersWithDate` and `getOrdersWithCommission`
    (src/scrapper.ts:53-120) with the browser replaced by the sequence of pages
    the table would show, most recent first. Each turn evaluates the current
    page, cuts it just before the row whose id equals the stored cursor,
    appends it, and moves on unless the cursor was found, the page was the
    last one, or (commissions only) three distinct payment dates have been
    seen. Both loops are one generic loop with a page evaluator and a stop rule. */
module Pagination {
  import opened Wrappers
  import opened Types
  import DateFill
  import Amount

  /** The rows a page loop returns and how many pages it evaluated. */
  datatype Fetched<R> = Fetched(rows: seq<R>, pagesRead: nat)

  /** When, besides the cursor and the last page, the loop stops: never
      (deliveries), or once `quota` distinct dates have been seen (commissions). */
  datatype StopRule<!R> = AtCursor | AtCursorOrQuota(quota: nat, dateOf: R -> Option<string>)

  /** No row of `rows` has the id `c`. */
  predicate Avoids<R>(rows: seq<R>, idOf: R -> string, c: string)
  {
    forall k :: 0 <= k < |rows| ==> idOf(rows[k]) != c
  }

  /** `findIndex(order => order.id === lastOrderId)`: a null cursor never equals a string id. */
  function CursorIndex<R>(rows: seq<R>, idOf: R -> string, cursor: Option<string>): (r: int)
    ensures -1 <= r < |rows|
    ensures r >= 0 ==> cursor.Some? && idOf(rows[r]) == cursor.value
    decreases |rows|
  {
    if cursor.None? || |rows| == 0 then -1
    else if idOf(rows[0]) == cursor.value then 0
    else
      var r := CursorIndex(rows[1..], idOf, cursor);
      if r == -1 then -1 else r + 1
  }

  /** The index found is the first row with the cursor's id, and there is none exactly when no row has it. */
  lemma {:induction false} CursorIndexFinds<R>(rows: seq<R>, idOf: R -> string, cursor: Option<string>)
    ensures CursorIndex(rows, idOf, cursor) == -1 <==> cursor.None? || Avoids(rows, idOf, cursor.value)
    ensures CursorIndex(rows, idOf, cursor) >= 0 ==> Avoids(rows[..CursorIndex(rows, idOf, cursor)], idOf, cursor.value)
    decreases |rows|
  {
    if cursor.Some? && |rows| > 0 && idOf(rows[0]) != cursor.value {
      var c := cursor.value;
      CursorIndexFinds(rows[1..], idOf, cursor);
      var r := CursorIndex(rows[1..], idOf, cursor);
      if r == -1 {
        forall k | 0 <= k < |rows|
          ensures idOf(rows[k]) != c
        {
          if k > 0 {
            assert rows[k] == rows[1..][k - 1];
          }
        }
      } else {
        assert !Avoids(rows, idOf, c) by {
          assert rows[r + 1] == rows[1..][r];
        }
        var before := rows[..r + 1];
        forall k | 0 <= k < |before|
          ensures idOf(before[k]) != c
        {
          if k > 0 {
            assert before[k] == rows[1..][..r][k - 1];
          }
        }
      }
    }
  }

  /** The rows of a page strictly before the cursor row (`orderList.length = lastOrderIndex`). */
  function KeepBefore<R>(rows: seq<R>, idOf: R -> string, cursor: Option<string>): (kept: seq<R>)
    ensures kept <= rows
  {
    var k := CursorIndex(rows, idOf, cursor);
    if k == -1 then rows else rows[..k]
  }

  /** The rows kept from a page never include the cursor row. */
  lemma KeepBeforeAvoids<R>(rows: seq<R>, idOf: R -> string, cursor: Option<string>)
    requires cursor.Some?
    ensures Avoids(KeepBefore(rows, idOf, cursor), idOf, cursor.value)
  {
    CursorIndexFinds(rows, idOf, cursor);
  }

  /** The dates a stop rule counts on some rows (`seenPaymentDates.add(o.paymentDate)`). */
  function DatesSeen<R>(rows: seq<R>, rule: StopRule<R>): (dates: set<Option<string>>)
  {
    if |rows| == 0 || rule.AtCursor? then {} else {rule.dateOf(rows[0])} + DatesSeen(rows[1..], rule)
  }

  /** The dates counted are exactly the dates of the rows, under the quota rule. */
  lemma {:induction false} DatesSeenAreDates<R>(rows: seq<R>, quota: nat, dateOf: R -> Option<string>)
    ensures DatesSeen(rows, AtCursorOrQuota(quota, dateOf)) == set k | 0 <= k < |rows| :: dateOf(rows[k])
    decreases |rows|
  {
    if |rows| > 0 {
      DatesSeenAreDates(rows[1..], quota, dateOf);
      var all := set k | 0 <= k < |rows| :: dateOf(rows[k]);
      var tail := set k | 0 <= k < |rows| - 1 :: dateOf(rows[1..][k]);
      forall x | x in all
        ensures x in {dateOf(rows[0])} + tail
      {
        var k :| 0 <= k < |rows| && dateOf(rows[k]) == x;
        if k > 0 {
          assert rows[1..][k - 1] == rows[k];
        }
      }
      forall x | x in tail
        ensures x in all
      {
        var k :| 0 <= k < |rows| - 1 && dateOf(rows[1..][k]) == x;
        assert rows[k + 1] == rows[1..][k];
      }
    }
  }

  predicate QuotaReached<R>(rule: StopRule<R>, seen: set<Option<string>>)
  {
    rule.AtCursorOrQuota? && |seen| >= rule.quota
  }

  /** `result.push(...orderList)` ahead of what the later pages return. */
  function PrependPage<R>(kept: seq<R>, more: Result<Fetched<R>, Fault>): (r: Result<Fetched<R>, Fault>)
  {
    match more
    case Failure(f) => Failure(f)
    case Success(m) => Success(Fetched(kept + m.rows, 1 + m.pagesRead))
  }

  /** The page loop from page `i` on, having already seen the dates `seen`. */
  function Paginate<P, R>(pages: seq<P>, i: nat, evaluate: P -> Result<seq<R>, Fault>, idOf: R -> string,
                          rule: StopRule<R>, cursor: Option<string>, seen: set<Option<string>>): (r: Result<Fetched<R>, Fault>)
    requires i < |pages|
    decreases |pages| - i
  {
    match evaluate(pages[i])
    case Failure(f) => Failure(f)
    case Success(rows) =>
      var kept := KeepBefore(rows, idOf, cursor);
      var seen' := seen + DatesSeen(kept, rule);
      if i == |pages| - 1 || CursorIndex(rows, idOf, cursor) != -1 || QuotaReached(rule, seen') then
        Success(Fetched(kept, 1))
      else
        PrependPage(kept, Paginate(pages, i + 1, evaluate, idOf, rule, cursor, seen'))
  }

  /** A successful loop from page `i` has read at least that page and at most the pages left. */
  lemma {:induction false} PaginateReadsSome<P, R>(pages: seq<P>, i: nat, evaluate: P -> Result<seq<R>, Fault>, idOf: R -> string,
                                                   rule: StopRule<R>, cursor: Option<string>, seen: set<Option<string>>)
    requires i < |pages|
    ensures Paginate(pages, i, evaluate, idOf, rule, cursor, seen).Success? ==>
      1 <= Paginate(pages, i, evaluate, idOf, rule, cursor, seen).value.pagesRead <= |pages| - i
    decreases |pages| - i
  {
    if evaluate(pages[i]).Success? {
      var rows := evaluate(pages[i]).value;
      var seen' := seen + DatesSeen(KeepBefore(rows, idOf, cursor), rule);
      if !(i == |pages| - 1 || CursorIndex(rows, idOf, cursor) != -1 || QuotaReached(rule, seen')) {
        PaginateReadsSome(pages, i + 1, evaluate, idOf, rule, cursor, seen');
      }
    }
  }

  lemma AvoidsConcat<R>(a: seq<R>, b: seq<R>, idOf: R -> string, c: string)
    requires Avoids(a, idOf, c) && Avoids(b, idOf, c)
    ensures Avoids(a + b, idOf, c)
  {
    forall k | 0 <= k < |a + b|
      ensures idOf((a + b)[k]) != c
    {
      if k < |a| {
        assert (a + b)[k] == a[k];
      } else {
        assert (a + b)[k] == b[k - |a|];
      }
    }
  }

  /** The cursor row itself is never returned: every returned row was fetched after the last sync. */
  lemma {:induction false} PaginateExcludesCursor<P, R>(pages: seq<P>, i: nat, evaluate: P -> Result<seq<R>, Fault>, idOf: R -> string,
                                                        rule: StopRule<R>, cursor: Option<string>, seen: set<Option<string>>)
    requires i < |pages|
    ensures Paginate(pages, i, evaluate, idOf, rule, cursor, seen).Success? && cursor.Some? ==>
      Avoids(Paginate(pages, i, evaluate, idOf, rule, cursor, seen).value.rows, idOf, cursor.value)
    decreases |pages| - i
  {
    var r := Paginate(pages, i, evaluate, idOf, rule, cursor, seen);
    if r.Success? && cursor.Some? && evaluate(pages[i]).Success? {
      var rows := evaluate(pages[i]).value;
      var kept := KeepBefore(rows, idOf, cursor);
      var seen' := seen + DatesSeen(kept, rule);
      KeepBeforeAvoids(rows, idOf, cursor);
      if !(i == |pages| - 1 || CursorIndex(rows, idOf, cursor) != -1 || QuotaReached(rule, seen')) {
        PaginateExcludesCursor(pages, i + 1, evaluate, idOf, rule, cursor, seen');
        var more := Paginate(pages, i + 1, evaluate, idOf, rule, cursor, seen').value.rows;
        AvoidsConcat(kept, more, idOf, cursor.value);
      }
    }
  }

  // ----- reference: what the loop returns, stated page by page -----

  predicate Readable<P, R>(pages: seq<P>, i: nat, j: nat, evaluate: P -> Result<seq<R>, Fault>)
    requires i <= j <= |pages|
  {
    forall k :: i <= k < j ==> evaluate(pages[k]).Success?
  }

  /** Pages `i` up to (not including) `j`, whole, in fetch order. */
  function Joined<P, R>(pages: seq<P>, i: nat, j: nat, evaluate: P -> Result<seq<R>, Fault>): (rows: seq<R>)
    requires i <= j <= |pages| && Readable(pages, i, j, evaluate)
    decreases j - i
  {
    if i == j then [] else evaluate(pages[i]).value + Joined(pages, i + 1, j, evaluate)
  }

  /** Whether the loop stops on page `k` having read pages `i..k-1` whole after
      `seen`: the last page, the cursor's page, or the page that fills the quota. */
  predicate StopsOn<P, R>(pages: seq<P>, i: nat, k: nat, evaluate: P -> Result<seq<R>, Fault>, idOf: R -> string,
                          rule: StopRule<R>, cursor: Option<string>, seen: set<Option<string>>)
    requires i <= k < |pages| && Readable(pages, i, k + 1, evaluate)
  {
    || k == |pages| - 1
    || CursorIndex(evaluate(pages[k]).value, idOf, cursor) != -1
    || QuotaReached(rule, seen + DatesSeen(Joined(pages, i, k + 1, evaluate), rule))
  }

  lemma {:induction false} DatesSeenAppend<R>(a: seq<R>, b: seq<R>, rule: StopRule<R>)
    ensures DatesSeen(a + b, rule) == DatesSeen(a, rule) + DatesSeen(b, rule)
    decreases |a|
  {
    if |a| == 0 {
      assert a + b == b;
    } else if rule.AtCursorOrQuota? {
      assert (a + b)[0] == a[0] && (a + b)[1..] == a[1..] + b;
      DatesSeenAppend(a[1..], b, rule);
    }
  }

  lemma {:induction false} JoinedSnoc<P, R>(pages: seq<P>, i: nat, j: nat, evaluate: P -> Result<seq<R>, Fault>)
    requires i <= j < |pages| && Readable(pages, i, j + 1, evaluate)
    ensures Joined(pages, i, j + 1, evaluate) == Joined(pages, i, j, evaluate) + evaluate(pages[j]).value
    decreases j - i
  {
    var last := evaluate(pages[j]).value;
    if i < j {
      JoinedSnoc(pages, i + 1, j, evaluate);
      var head := evaluate(pages[i]).value;
      calc {
        Joined(pages, i, j + 1, evaluate);
        head + Joined(pages, i + 1, j + 1, evaluate);
        head + (Joined(pages, i + 1, j, evaluate) + last);
        { assert head + (Joined(pages, i + 1, j, evaluate) + last) == (head + Joined(pages, i + 1, j, evaluate)) + last; }
        Joined(pages, i, j, evaluate) + last;
      }
    } else {
      assert Joined(pages, i, j + 1, evaluate) == last + Joined(pages, j + 1, j + 1, evaluate);
      assert last + [] == [] + last;
    }
  }

  /** The dates seen after reading page `i` whole and then pages `i+1..k` whole. */
  lemma SeenShift<P, R>(pages: seq<P>, i: nat, k: nat, evaluate: P -> Result<seq<R>, Fault>, rule: StopRule<R>, seen: set<Option<string>>)
    requires i < k < |pages| && Readable(pages, i, k + 1, evaluate)
    ensures seen + DatesSeen(Joined(pages, i, k + 1, evaluate), rule)
      == (seen + DatesSeen(evaluate(pages[i]).value, rule)) + DatesSeen(Joined(pages, i + 1, k + 1, evaluate), rule)
  {
    DatesSeenAppend(evaluate(pages[i]).value, Joined(pages, i + 1, k + 1, evaluate), rule);
  }

  /** Reading page `i` whole moves the loop to page `i+1` with page `i`'s dates
      added to `seen`; the later pages stop it exactly where they did before. */
  lemma ShiftStops<P, R>(pages: seq<P>, i: nat, next: nat, j: nat, evaluate: P -> Result<seq<R>, Fault>, idOf: R -> string,
                         rule: StopRule<R>, cursor: Option<string>, seen: set<Option<string>>, seen': set<Option<string>>)
    requires i < j < |pages| && Readable(pages, i, j, evaluate)
    requires next == i + 1 && seen' == seen + DatesSeen(evaluate(pages[i]).value, rule)
    requires forall k :: i <= k < j ==> !StopsOn(pages, i, k, evaluate, idOf, rule, cursor, seen)
    ensures forall k :: next <= k < j ==> !StopsOn(pages, next, k, evaluate, idOf, rule, cursor, seen')
  {
    forall k | next <= k < j
      ensures !StopsOn(pages, next, k, evaluate, idOf, rule, cursor, seen')
    {
      SeenShift(pages, i, k, evaluate, rule, seen);
      assert !StopsOn(pages, i, k, evaluate, idOf, rule, cursor, seen);
    }
  }

  /** The page that stops the loop from page `i` still stops it from page `i+1`,
      once page `i`'s dates are added to `seen`. */
  lemma StopsAfterShift<P, R>(pages: seq<P>, i: nat, j: nat, evaluate: P -> Result<seq<R>, Fault>, idOf: R -> string,
                              rule: StopRule<R>, cursor: Option<string>, seen: set<Option<string>>, seen': set<Option<string>>)
    requires i < j < |pages| && Readable(pages, i, j + 1, evaluate)
    requires seen' == seen + DatesSeen(evaluate(pages[i]).value, rule)
    requires StopsOn(pages, i, j, evaluate, idOf, rule, cursor, seen)
    ensures Readable(pages, i + 1, j + 1, evaluate) && StopsOn(pages, i + 1, j, evaluate, idOf, rule, cursor, seen')
  {
    SeenShift(pages, i, j, evaluate, rule, seen);
  }

  /** One turn of the loop on a page that does not stop it: the page is kept whole. */
  lemma ReadOn<P, R>(pages: seq<P>, i: nat, evaluate: P -> Result<seq<R>, Fault>, idOf: R -> string,
                     rule: StopRule<R>, cursor: Option<string>, seen: set<Option<string>>)
    requires i < |pages| && Readable(pages, i, i + 1, evaluate)
    requires !StopsOn(pages, i, i, evaluate, idOf, rule, cursor, seen)
    ensures Paginate(pages, i, evaluate, idOf, rule, cursor, seen)
      == PrependPage(evaluate(pages[i]).value, Paginate(pages, i + 1, evaluate, idOf, rule, cursor, seen + DatesSeen(evaluate(pages[i]).value, rule)))
  {
    var rows := evaluate(pages[i]).value;
    assert Joined(pages, i, i + 1, evaluate) == rows by {
      assert rows + [] == rows;
    }
    assert KeepBefore(rows, idOf, cursor) == rows;
  }

  /** One turn of the loop on the page that stops it: the page is cut at the cursor. */
  lemma LastRead<P, R>(pages: seq<P>, i: nat, evaluate: P -> Result<seq<R>, Fault>, idOf: R -> string,
                       rule: StopRule<R>, cursor: Option<string>, seen: set<Option<string>>)
    requires i < |pages| && Readable(pages, i, i + 1, evaluate)
    requires StopsOn(pages, i, i, evaluate, idOf, rule, cursor, seen)
    ensures Paginate(pages, i, evaluate, idOf, rule, cursor, seen)
      == Success(Fetched(Joined(pages, i, i, evaluate) + KeepBefore(evaluate(pages[i]).value, idOf, cursor), 1))
  {
    var rows := evaluate(pages[i]).value;
    assert Joined(pages, i, i + 1, evaluate) == rows by {
      assert rows + [] == rows;
    }
    var kept := KeepBefore(rows, idOf, cursor);
    assert [] + kept == kept;
  }

  /** A page kept whole in front of what the later pages return extends the joined prefix by one page. */
  lemma ReadOnJoined<P, R>(pages: seq<P>, i: nat, j: nat, evaluate: P -> Result<seq<R>, Fault>, tail: seq<R>, more: Result<Fetched<R>, Fault>)
    requires i < j <= |pages| && Readable(pages, i, j, evaluate)
    requires more == Success(Fetched(Joined(pages, i + 1, j, evaluate) + tail, j - i))
    ensures PrependPage(evaluate(pages[i]).value, more) == Success(Fetched(Joined(pages, i, j, evaluate) + tail, j - i + 1))
  {
    var rows := evaluate(pages[i]).value;
    assert rows + (Joined(pages, i + 1, j, evaluate) + tail) == (rows + Joined(pages, i + 1, j, evaluate)) + tail;
  }

  /** If pages `i..j` can be evaluated, none before `j` stops the loop and `j`
      does, the loop returns pages `i..j-1` whole followed by page `j` cut at
      the cursor, having read exactly `j - i + 1` pages. */
  lemma {:induction false} PaginateStopsOn<P, R>(pages: seq<P>, i: nat, j: nat, evaluate: P -> Result<seq<R>, Fault>, idOf: R -> string,
                                                 rule: StopRule<R>, cursor: Option<string>, seen: set<Option<string>>)
    requires i <= j < |pages| && Readable(pages, i, j + 1, evaluate)
    requires forall k :: i <= k < j ==> !StopsOn(pages, i, k, evaluate, idOf, rule, cursor, seen)
    requires StopsOn(pages, i, j, evaluate, idOf, rule, cursor, seen)
    ensures Paginate(pages, i, evaluate, idOf, rule, cursor, seen)
      == Success(Fetched(Joined(pages, i, j, evaluate) + KeepBefore(evaluate(pages[j]).value, idOf, cursor), j - i + 1))
    decreases j - i
  {
    if i == j {
      LastRead(pages, i, evaluate, idOf, rule, cursor, seen);
    } else {
      var seen' := seen + DatesSeen(evaluate(pages[i]).value, rule);
      ShiftStops(pages, i, i + 1, j, evaluate, idOf, rule, cursor, seen, seen');
      StopsAfterShift(pages, i, j, evaluate, idOf, rule, cursor, seen, seen');
      PaginateStopsOn(pages, i + 1, j, evaluate, idOf, rule, cursor, seen');
      StopsLater(pages, i, j, evaluate, idOf, rule, cursor, seen, seen');
    }
  }

  /** The inductive step of `PaginateStopsOn`: page `i` is read whole and put in
      front of what the loop returns from page `i+1` on. */
  lemma StopsLater<P, R>(pages: seq<P>, i: nat, j: nat, evaluate: P -> Result<seq<R>, Fault>, idOf: R -> string,
                         rule: StopRule<R>, cursor: Option<string>, seen: set<Option<string>>, seen': set<Option<string>>)
    requires i < j < |pages| && Readable(pages, i, j + 1, evaluate)
    requires !StopsOn(pages, i, i, evaluate, idOf, rule, cursor, seen)
    requires seen' == seen + DatesSeen(evaluate(pages[i]).value, rule)
    requires Paginate(pages, i + 1, evaluate, idOf, rule, cursor, seen')
      == Success(Fetched(Joined(pages, i + 1, j, evaluate) + KeepBefore(evaluate(pages[j]).value, idOf, cursor), j - i))
    ensures Paginate(pages, i, evaluate, idOf, rule, cursor, seen)
      == Success(Fetched(Joined(pages, i, j, evaluate) + KeepBefore(evaluate(pages[j]).value, idOf, cursor), j - i + 1))
  {
    ReadOn(pages, i, evaluate, idOf, rule, cursor, seen);
    ReadOnJoined(pages, i, j, evaluate, KeepBefore(evaluate(pages[j]).value, idOf, cursor),
                 Paginate(pages, i + 1, evaluate, idOf, rule, cursor, seen'));
  }

  /** If pages `i..f-1` can be evaluated and do not stop the loop, and page `f`
      cannot be evaluated, the loop fails with that page's error. */
  lemma {:induction false} PaginateFailsOn<P, R>(pages: seq<P>, i: nat, f: nat, evaluate: P -> Result<seq<R>, Fault>, idOf: R -> string,
                                                 rule: StopRule<R>, cursor: Option<string>, seen: set<Option<string>>)
    requires i <= f < |pages| && Readable(pages, i, f, evaluate)
    requires forall k :: i <= k < f ==> !StopsOn(pages, i, k, evaluate, idOf, rule, cursor, seen)
    requires evaluate(pages[f]).Failure?
    ensures Paginate(pages, i, evaluate, idOf, rule, cursor, seen) == Failure(evaluate(pages[f]).error)
    decreases f - i
  {
    if i < f {
      var seen' := seen + DatesSeen(evaluate(pages[i]).value, rule);
      ShiftStops(pages, i, i + 1, f, evaluate, idOf, rule, cursor, seen, seen');
      PaginateFailsOn(pages, i + 1, f, evaluate, idOf, rule, cursor, seen');
      FailsLater(pages, i, evaluate, idOf, rule, cursor, seen, seen', evaluate(pages[f]).error);
    }
  }

  /** The inductive step of `PaginateFailsOn`: a failure on a later page is the failure of the whole loop. */
  lemma FailsLater<P, R>(pages: seq<P>, i: nat, evaluate: P -> Result<seq<R>, Fault>, idOf: R -> string,
                         rule: StopRule<R>, cursor: Option<string>, seen: set<Option<string>>, seen': set<Option<string>>, fault: Fault)
    requires i + 1 < |pages| && Readable(pages, i, i + 1, evaluate)
    requires !StopsOn(pages, i, i, evaluate, idOf, rule, cursor, seen)
    requires seen' == seen + DatesSeen(evaluate(pages[i]).value, rule)
    requires Paginate(pages, i + 1, evaluate, idOf, rule, cursor, seen') == Failure(fault)
    ensures Paginate(pages, i, evaluate, idOf, rule, cursor, seen) == Failure(fault)
  {
    ReadOn(pages, i, evaluate, idOf, rule, cursor, seen);
  }

  // ----- the delivery table (`getOrdersWithDate`) -----

  function RawDeliveryId(d: RawDelivery): (id: string) { d.id }

  function DeliveryId(d: Delivery): (id: string) { d.id }

  function DateColumn(page: seq<RawDelivery>): (dates: seq<Option<string>>)
    ensures |dates| == |page| && forall k :: 0 <= k < |page| ==> dates[k] == page[k].date
  {
    seq(|page|, k requires 0 <= k < |page| => page[k].date)
  }

  /** `page.evaluate(handleOrdersWithDate)`: the page's rows in order, each with
      its inferred date, or the way the date repair goes wrong. */
  function EvaluateDeliveryPage(page: seq<RawDelivery>): (r: Result<seq<Delivery>, Fault>)
    ensures r.Success? <==> DateFill.Fillable(DateColumn(page))
    ensures r.Success? ==> |r.value| == |page|
    ensures r.Success? ==> forall k :: 0 <= k < |page| ==> r.value[k] == Delivery(page[k].id, DateFill.Inferred(DateColumn(page), k))
    ensures r.Failure? ==> r == Failure(DateFill.FillOutcome(DateColumn(page)).error)
  {
    match DateFill.FillOutcome(DateColumn(page))
    case Success(filled) => Success(seq(|page|, k requires 0 <= k < |page| => Delivery(page[k].id, filled[k])))
    case Failure(f) => Failure(f)
  }

  /** `getOrdersWithDate(cookies, lastOrderId)` on a table with at least one page. */
  function FetchDeliveries(pages: seq<seq<RawDelivery>>, cursor: Option<string>): (r: Result<Fetched<Delivery>, Fault>)
    requires |pages| > 0
    ensures r.Success? ==> 1 <= r.value.pagesRead <= |pages|
    ensures r.Success? && cursor.Some? ==> forall k :: 0 <= k < |r.value.rows| ==> r.value.rows[k].id != cursor.value
  {
    PaginateExcludesCursor(pages, 0, EvaluateDeliveryPage, DeliveryId, AtCursor, cursor, {});
    PaginateReadsSome(pages, 0, EvaluateDeliveryPage, DeliveryId, AtCursor, cursor, {});
    Paginate(pages, 0, EvaluateDeliveryPage, DeliveryId, AtCursor, cursor, {})
  }

  /** Whether raw page `k` is where the delivery loop stops: the last page or the cursor's page. */
  predicate DeliveryStopPage(pages: seq<seq<RawDelivery>>, k: nat, cursor: Option<string>)
    requires k < |pages|
  {
    k == |pages| - 1 || (cursor.Some? && exists n :: 0 <= n < |pages[k]| && pages[k][n].id == cursor.value)
  }

  /** If pages `0..j` can be repaired and `j` is the first page that is the last
      one or holds the cursor, the deliveries are pages `0..j-1` whole followed by
      page `j` up to the cursor row, and exactly `j + 1` pages were evaluated; later
      pages are never evaluated, repairable or not. */
  lemma FetchDeliveriesReadsThroughCursorPage(pages: seq<seq<RawDelivery>>, cursor: Option<string>, j: nat)
    requires j < |pages|
    requires forall k :: 0 <= k <= j ==> DateFill.Fillable(DateColumn(pages[k]))
    requires forall k :: 0 <= k < j ==> !DeliveryStopPage(pages, k, cursor)
    requires DeliveryStopPage(pages, j, cursor)
    ensures FetchDeliveries(pages, cursor)
      == Success(Fetched(Joined(pages, 0, j, EvaluateDeliveryPage) + KeepBefore(EvaluateDeliveryPage(pages[j]).value, DeliveryId, cursor), j + 1))
  {
    forall k | 0 <= k <= j
      ensures StopsOn(pages, 0, k, EvaluateDeliveryPage, DeliveryId, AtCursor, cursor, {}) == DeliveryStopPage(pages, k, cursor)
    {
      DeliveryStopsOn(pages, cursor, k);
    }
    PaginateStopsOn(pages, 0, j, EvaluateDeliveryPage, DeliveryId, AtCursor, cursor, {});
  }

  /** On a repairable page the delivery loop stops exactly at the last page or the cursor's page. */
  lemma DeliveryStopsOn(pages: seq<seq<RawDelivery>>, cursor: Option<string>, k: nat)
    requires k < |pages| && Readable(pages, 0, k + 1, EvaluateDeliveryPage)
    ensures StopsOn(pages, 0, k, EvaluateDeliveryPage, DeliveryId, AtCursor, cursor, {}) == DeliveryStopPage(pages, k, cursor)
  {
    DeliveryCursorFound(pages[k], cursor);
  }

  /** A repaired page holds the cursor row exactly when the raw page has a row with the cursor's id. */
  lemma DeliveryCursorFound(page: seq<RawDelivery>, cursor: Option<string>)
    requires DateFill.Fillable(DateColumn(page))
    ensures CursorIndex(EvaluateDeliveryPage(page).value, DeliveryId, cursor) != -1
      <==> cursor.Some? && exists n :: 0 <= n < |page| && page[n].id == cursor.value
  {
    var rows := EvaluateDeliveryPage(page).value;
    CursorIndexFinds(rows, DeliveryId, cursor);
    if cursor.Some? && !Avoids(rows, DeliveryId, cursor.value) {
      var n :| 0 <= n < |rows| && rows[n].id == cursor.value;
      assert page[n].id == cursor.value;
    }
  }

  /** If page `f` is the first page the loop reaches whose dates cannot be
      repaired, the whole fetch fails with that page's fault. */
  lemma FetchDeliveriesFailsOnUnfillablePage(pages: seq<seq<RawDelivery>>, cursor: Option<string>, f: nat)
    requires f < |pages|
    requires forall k :: 0 <= k < f ==> DateFill.Fillable(DateColumn(pages[k])) && !DeliveryStopPage(pages, k, cursor)
    requires !DateFill.Fillable(DateColumn(pages[f]))
    ensures FetchDeliveries(pages, cursor) == Failure(DateFill.FillOutcome(DateColumn(pages[f])).error)
  {
    forall k | 0 <= k < f
      ensures !StopsOn(pages, 0, k, EvaluateDeliveryPage, DeliveryId, AtCursor, cursor, {})
    {
      DeliveryStopsOn(pages, cursor, k);
    }
    PaginateFailsOn(pages, 0, f, EvaluateDeliveryPage, DeliveryId, AtCursor, cursor, {});
  }

  // ----- the commission table (`getOrdersWithCommission`) -----

  /** The loop keeps reading while fewer than this many distinct payment dates
      have been seen (`seenPaymentDates.size <= 2`). */
  const PaymentDateQuota: nat := 3

  function CommissionId(c: Commission): (id: string) { c.id }

  function PaymentDateOf(c: Commission): (date: Option<string>) { c.paymentDate }

  /** `page.evaluate(handleOrdersWithCommission)`: every row, its amount read by `cleanNumber`. */
  function ParseCommissionPage(page: seq<RawCommission>): (rows: seq<Commission>)
    ensures |rows| == |page|
    ensures forall k :: 0 <= k < |page| ==> rows[k].id == page[k].id && rows[k].paymentDate == page[k].paymentDate
    ensures forall k :: 0 <= k < |page| ==> rows[k].amount == Amount.CleanNumber(page[k].amountText)
  {
    seq(|page|, k requires 0 <= k < |page| => Commission(page[k].id, Amount.CleanNumber(page[k].amountText), page[k].paymentDate))
  }

  function EvaluateCommissionPage(page: seq<RawCommission>): (r: Result<seq<Commission>, Fault>)
  {
    Success(ParseCommissionPage(page))
  }

  const CommissionRule: StopRule<Commission> := AtCursorOrQuota(PaymentDateQuota, PaymentDateOf)

  /** `getOrdersWithCommission(cookies, lastOrderId)` on a table with at least
      one page: parsing a page never fails. */
  function FetchCommissions(pages: seq<seq<RawCommission>>, cursor: Option<string>): (r: Result<Fetched<Commission>, Fault>)
    requires |pages| > 0
    ensures r.Success? && 1 <= r.value.pagesRead <= |pages|
    ensures cursor.Some? ==> forall k :: 0 <= k < |r.value.rows| ==> r.value.rows[k].id != cursor.value
  {
    PaginateExcludesCursor(pages, 0, EvaluateCommissionPage, CommissionId, CommissionRule, cursor, {});
    PaginateReadsSome(pages, 0, EvaluateCommissionPage, CommissionId, CommissionRule, cursor, {});
    CommissionsNeverFail(pages, 0, cursor, {});
    Paginate(pages, 0, EvaluateCommissionPage, CommissionId, CommissionRule, cursor, {})
  }

  lemma {:induction false} CommissionsNeverFail(pages: seq<seq<RawCommission>>, i: nat, cursor: Option<string>, seen: set<Option<string>>)
    requires i < |pages|
    ensures Paginate(pages, i, EvaluateCommissionPage, CommissionId, CommissionRule, cursor, seen).Success?
    decreases |pages| - i
  {
    var rows := ParseCommissionPage(pages[i]);
    var seen' := seen + DatesSeen(KeepBefore(rows, CommissionId, cursor), CommissionRule);
    if i < |pages| - 1 {
      CommissionsNeverFail(pages, i + 1, cursor, seen');
    }
  }

  /** The quota is checked only between pages: a first page without the cursor
      that already shows three or more payment dates is returned whole, and no
      further page is read. */
  lemma FetchCommissionsKeepsWholeFirstPage(pages: seq<seq<RawCommission>>, cursor: Option<string>)
    requires |pages| > 0
    requires cursor.None? || forall n :: 0 <= n < |pages[0]| ==> pages[0][n].id != cursor.value
    requires |set k | 0 <= k < |pages[0]| :: pages[0][k].paymentDate| >= PaymentDateQuota
    ensures FetchCommissions(pages, cursor) == Success(Fetched(ParseCommissionPage(pages[0]), 1))
  {
    var rows := ParseCommissionPage(pages[0]);
    CommissionCursorAbsent(pages[0], cursor);
    CommissionQuotaReached(pages[0]);
    QuotaStopsFirstPage(pages, EvaluateCommissionPage, CommissionId, CommissionRule, cursor, rows);
  }

  /** A first page without the cursor whose dates already fill the quota is the whole result. */
  lemma QuotaStopsFirstPage<P, R>(pages: seq<P>, evaluate: P -> Result<seq<R>, Fault>, idOf: R -> string,
                                  rule: StopRule<R>, cursor: Option<string>, rows: seq<R>)
    requires |pages| > 0 && evaluate(pages[0]) == Success(rows)
    requires CursorIndex(rows, idOf, cursor) == -1
    requires QuotaReached(rule, DatesSeen(rows, rule))
    ensures Paginate(pages, 0, evaluate, idOf, rule, cursor, {}) == Success(Fetched(rows, 1))
  {
    assert {} + DatesSeen(rows, rule) == DatesSeen(rows, rule);
  }

  /** Parsing keeps the ids, so a raw page without the cursor's id parses to rows without it. */
  lemma CommissionCursorAbsent(page: seq<RawCommission>, cursor: Option<string>)
    requires cursor.None? || forall n :: 0 <= n < |page| ==> page[n].id != cursor.value
    ensures CursorIndex(ParseCommissionPage(page), CommissionId, cursor) == -1
  {
    var rows := ParseCommissionPage(page);
    CursorIndexFinds(rows, CommissionId, cursor);
    if cursor.Some? {
      assert Avoids(rows, CommissionId, cursor.value);
    }
  }

  /** A raw page showing at least three payment dates fills the quota once parsed. */
  lemma CommissionQuotaReached(page: seq<RawCommission>)
    requires |set k | 0 <= k < |page| :: page[k].paymentDate| >= PaymentDateQuota
    ensures QuotaReached(CommissionRule, DatesSeen(ParseCommissionPage(page), CommissionRule))
  {
    var rows := ParseCommissionPage(page);
    DatesSeenAreDates(rows, PaymentDateQuota, PaymentDateOf);
    assert DatesSeen(rows, CommissionRule) == set k | 0 <= k < |page| :: page[k].paymentDate;
  }
}
