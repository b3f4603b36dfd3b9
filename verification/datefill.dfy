/** The date-gap repair of `handleOrdersWithDate` (src/scrapper.ts:133-143).
    The delivery table prints a date only on the first row of a same-day
    group. The source repeatedly repairs the FIRST row without a date: at index
    0 it copies row 1's date, anywhere else the (already repaired) date of the
    row to its left. */
module DateFill {
  import opened Wrappers
  import opened Types

  /** `findIndex(([_, date]) => !date)`: the first row without a date, or -1. */
  function FirstMissing(dates: seq<Option<string>>): (r: int)
    ensures -1 <= r < |dates|
    ensures r == -1 <==> forall j :: 0 <= j < |dates| ==> dates[j].Some?
    ensures r >= 0 ==> dates[r].None? && forall j :: 0 <= j < r ==> dates[j].Some?
  {
    if |dates| == 0 then -1
    else if dates[0].None? then 0
    else
      var r := FirstMissing(dates[1..]);
      if r == -1 then -1 else r + 1
  }

  /** One pass of the repair loop's body; `None` when it reads past the end
      of the table (`initialArray[row + 1][1]` on a one-row table throws). */
  function RepairFirst(dates: seq<Option<string>>): (r: Option<seq<Option<string>>>)
    requires FirstMissing(dates) != -1
  {
    var row := FirstMissing(dates);
    if row == 0 then
      if |dates| < 2 then None else Some(dates[0 := dates[1]])
    else
      Some(dates[row := dates[row - 1]])
  }

  /** The inputs on which the repair loop finishes: nothing is missing, or
      row 0 has a date, or row 1 exists and has a date. */
  predicate Fillable(dates: seq<Option<string>>)
  {
    || (forall j :: 0 <= j < |dates| ==> dates[j].Some?)
    || dates[0].Some?
    || (|dates| >= 2 && dates[1].Some?)
  }

  /** The nearest date at or left of row `i` in the ORIGINAL column. */
  function NearestLeft(dates: seq<Option<string>>, i: nat): (r: Option<string>)
    requires i < |dates|
    ensures r.None? <==> forall j :: 0 <= j <= i ==> dates[j].None?
    decreases i
  {
    if dates[i].Some? then dates[i]
    else if i == 0 then None
    else NearestLeft(dates, i - 1)
  }

  /** Every row strictly after `j` up to `i` is missing its date. */
  predicate MissingBetween(dates: seq<Option<string>>, j: nat, i: nat)
    requires j <= i < |dates|
  {
    forall k :: j < k <= i ==> dates[k].None?
  }

  /** A found date is the date of some row at or left of `i`, and every row
      strictly between that row and `i` is missing its date. */
  lemma {:induction false} NearestLeftIsNearest(dates: seq<Option<string>>, i: nat)
    requires i < |dates| && NearestLeft(dates, i).Some?
    ensures exists j :: 0 <= j <= i && dates[j] == NearestLeft(dates, i) && MissingBetween(dates, j, i)
    decreases i
  {
    if dates[i].None? {
      NearestLeftIsNearest(dates, i - 1);
      var j :| 0 <= j <= i - 1 && dates[j] == NearestLeft(dates, i - 1) && MissingBetween(dates, j, i - 1);
      assert MissingBetween(dates, j, i);
    } else {
      assert MissingBetween(dates, i, i);
    }
  }

  /** The date row `i` ends up with: the nearest original date to its left,
      or, for a missing row 0, the date of row 1. */
  function Inferred(dates: seq<Option<string>>, i: nat): (d: string)
    requires Fillable(dates) && i < |dates|
    ensures dates[i].Some? ==> d == dates[i].value
    ensures i == 0 && dates[0].None? ==> d == dates[1].value
    ensures i > 0 ==> NearestLeft(dates, i) == Some(d)
  {
    match NearestLeft(dates, i)
    case Some(d) => d
    case None => dates[1].value
  }

  /** The whole repaired column, as an independent reference for the loop. */
  function InferAll(dates: seq<Option<string>>): (filled: seq<string>)
    requires Fillable(dates)
    ensures |filled| == |dates|
    ensures forall i :: 0 <= i < |dates| ==> filled[i] == Inferred(dates, i)
  {
    seq(|dates|, i requires 0 <= i < |dates| => Inferred(dates, i))
  }

  /** The values of a column in which every row has a date. */
  function Values(dates: seq<Option<string>>): (vs: seq<string>)
    requires forall j :: 0 <= j < |dates| ==> dates[j].Some?
    ensures |vs| == |dates|
    ensures forall j :: 0 <= j < |dates| ==> dates[j] == Some(vs[j])
  {
    if |dates| == 0 then [] else [dates[0].value] + Values(dates[1..])
  }

  /** Off row 0, a missing date inherits the inferred date of the row to its left. */
  lemma InferredFromLeft(dates: seq<Option<string>>, i: nat)
    requires Fillable(dates) && 0 < i < |dates| && dates[i].None?
    ensures Inferred(dates, i) == Inferred(dates, i - 1)
  {
    assert NearestLeft(dates, i) == NearestLeft(dates, i - 1);
  }

  /** One pass of the loop body writes the inferred date into the first missing row. */
  lemma RepairWrites(dates: seq<Option<string>>, cur: seq<Option<string>>, row: int)
    requires Fillable(dates) && |cur| == |dates|
    requires row == FirstMissing(cur) && row != -1
    requires forall j :: 0 <= j < row ==> cur[j] == Some(Inferred(dates, j))
    requires forall j :: row <= j < |cur| ==> cur[j] == dates[j]
    ensures RepairFirst(cur) == Some(cur[row := Some(Inferred(dates, row))])
  {
    assert cur[row] == dates[row];
    if row == 0 {
      assert cur[1] == dates[1];
    } else {
      InferredFromLeft(dates, row);
    }
  }

  /** One pass of the loop body keeps the loop invariant of `FillDates` and
      moves the first missing row strictly right. */
  lemma RepairStep(dates: seq<Option<string>>, cur: seq<Option<string>>, row: int)
    requires Fillable(dates) && |cur| == |dates|
    requires row == FirstMissing(cur) && row != -1
    requires forall j :: 0 <= j < row ==> cur[j] == Some(Inferred(dates, j))
    requires forall j :: row <= j < |cur| ==> cur[j] == dates[j]
    ensures RepairFirst(cur).Some?
    ensures var next := RepairFirst(cur).value;
      var r := FirstMissing(next);
      && |next| == |cur|
      && (r == -1 || r > row)
      && (forall j :: 0 <= j < |next| && (r == -1 || j < r) ==> next[j] == Some(Inferred(dates, j)))
      && (r != -1 ==> forall j :: r <= j < |next| ==> next[j] == dates[j])
  {
    RepairWrites(dates, cur, row);
    RepairedThrough(dates, cur[row := Some(Inferred(dates, row))], row);
  }

  /** A column repaired through row `row` and original after it has its first
      missing row, if any, past `row`, and every row before that is repaired. */
  lemma RepairedThrough(dates: seq<Option<string>>, next: seq<Option<string>>, row: nat)
    requires Fillable(dates) && |next| == |dates| && row < |next|
    requires forall j :: 0 <= j <= row ==> next[j] == Some(Inferred(dates, j))
    requires forall j :: row < j < |next| ==> next[j] == dates[j]
    ensures FirstMissing(next) == -1 || FirstMissing(next) > row
    ensures forall j :: 0 <= j < |next| && (FirstMissing(next) == -1 || j < FirstMissing(next)) ==> next[j] == Some(Inferred(dates, j))
  {
    var r := FirstMissing(next);
    forall j | 0 <= j < |next| && (r == -1 || j < r)
      ensures next[j] == Some(Inferred(dates, j))
    {
      if j > row {
        assert next[j] == dates[j];
      }
    }
  }

  /** A fully repaired column reads as the reference column. */
  lemma RepairedValues(dates: seq<Option<string>>, cur: seq<Option<string>>)
    requires Fillable(dates) && |cur| == |dates|
    requires forall j :: 0 <= j < |cur| ==> cur[j] == Some(Inferred(dates, j))
    ensures forall j :: 0 <= j < |cur| ==> cur[j].Some?
    ensures (forall j :: 0 <= j < |cur| ==> cur[j].Some?) && Values(cur) == InferAll(dates)
  {
    assert forall j :: 0 <= j < |cur| ==> Values(cur)[j] == Inferred(dates, j);
  }

  /** The reference column keeps every printed date, gives a missing row the
      date of the row above it, and a missing row 0 the date of row 1. */
  lemma InferAllMeaning(dates: seq<Option<string>>)
    requires Fillable(dates)
    ensures var filled := InferAll(dates);
      && (forall i :: 0 <= i < |dates| && dates[i].Some? ==> filled[i] == dates[i].value)
      && (forall i :: 0 < i < |dates| && dates[i].None? ==> filled[i] == filled[i - 1])
      && (|dates| > 0 && dates[0].None? ==> filled[0] == dates[1].value)
  {
    forall i | 0 < i < |dates| && dates[i].None?
      ensures InferAll(dates)[i] == InferAll(dates)[i - 1]
    {
      InferredFromLeft(dates, i);
    }
  }

  /** The repair loop itself, on an input where it finishes. */
  method FillDates(dates: seq<Option<string>>) returns (filled: seq<string>)
    requires Fillable(dates)
    ensures |filled| == |dates|
    ensures forall i :: 0 <= i < |dates| && dates[i].Some? ==> filled[i] == dates[i].value
    ensures forall i :: 0 < i < |dates| && dates[i].None? ==> filled[i] == filled[i - 1]
    ensures |dates| > 0 && dates[0].None? ==> filled[0] == dates[1].value
    ensures filled == InferAll(dates)
  {
    var cur := dates;
    var row := FirstMissing(cur);
    while row != -1
      invariant |cur| == |dates|
      invariant row == FirstMissing(cur)
      invariant forall j :: 0 <= j < |cur| && (row == -1 || j < row) ==> cur[j] == Some(Inferred(dates, j))
      invariant row != -1 ==> forall j :: row <= j < |cur| ==> cur[j] == dates[j]
      decreases if row == -1 then 0 else |cur| - row + 1
    {
      RepairStep(dates, cur, row);
      var next := RepairFirst(cur).value;
      var r := FirstMissing(next);
      assert r == -1 || r > row;
      cur, row := next, r;
    }
    RepairedValues(dates, cur);
    filled := Values(cur);
    InferAllMeaning(dates);
  }

  /** The end of the repair on every input: the repaired column, or the way the
      loop goes wrong. */
  function FillOutcome(dates: seq<Option<string>>): (r: Result<seq<string>, Fault>)
    ensures r.Success? <==> Fillable(dates)
    ensures r.Success? ==> r.value == InferAll(dates)
    ensures r == Failure(MissingRowDate) <==> |dates| == 1 && dates[0].None?
    ensures r == Failure(FillNeverEnds) <==> |dates| >= 2 && dates[0].None? && dates[1].None?
  {
    if Fillable(dates) then Success(InferAll(dates))
    else if |dates| == 1 then Failure(MissingRowDate)
    else Failure(FillNeverEnds)
  }

  /** A table whose only row has no date makes the loop read past the end. */
  lemma LoneMissingRowReadsPastEnd(dates: seq<Option<string>>)
    requires FillOutcome(dates) == Failure(MissingRowDate)
    ensures FirstMissing(dates) == 0
    ensures RepairFirst(dates).None?
  {
  }

  /** A leading run of two or more missing dates (an all-blank table included)
      is a fixed point of the loop body that still has a missing date, so the
      loop never ends. */
  lemma LeadingMissingRunNeverEnds(dates: seq<Option<string>>)
    requires FillOutcome(dates) == Failure(FillNeverEnds)
    ensures FirstMissing(dates) == 0
    ensures RepairFirst(dates) == Some(dates)
  {
    assert dates[0 := dates[1]] == dates;
  }

  /** Every input either fills or fails in one of those two ways. */
  lemma FillTrichotomy(dates: seq<Option<string>>)
    ensures Fillable(dates) || FillOutcome(dates) == Failure(MissingRowDate) || FillOutcome(dates) == Failure(FillNeverEnds)
  {
  }
}
