/** Calendar arithmetic behind `getDates` and the week presets
    (src/index.ts:101-155), with dates as whole days: day 0 is 1970-01-01, a
    Thursday, and times are whole minutes since its midnight. The time zone
    and daylight-saving shifts of date-fns are not modelled. */
module Calendar {
  const MinutesPerDay: int := 1440

  /** The calendar day of a minute (floor division, so negative minutes fall on earlier days). */
  function DayOf(minute: int): (d: int)
    ensures d * MinutesPerDay <= minute < (d + 1) * MinutesPerDay
  {
    minute / MinutesPerDay
  }

  /** Day of the week with Monday = 0 and Sunday = 6 (`weekStartsOn: 1`). */
  function Weekday(d: int): (w: int)
    ensures 0 <= w < 7
  {
    (d + 3) % 7
  }

  /** `startOfWeek(day, { weekStartsOn: 1 })`: the Monday on or before `d`. */
  function StartOfWeek(d: int): (m: int)
    ensures m <= d < m + 7
    ensures Weekday(m) == 0
  {
    d - Weekday(d)
  }

  /** Every day of the same Monday-to-Sunday week has the same start of week. */
  lemma StartOfWeekIsWeekly(d: int, k: int)
    requires 0 <= k < 7
    ensures StartOfWeek(StartOfWeek(d) + k) == StartOfWeek(d)
  {
    var m := StartOfWeek(d);
    assert (m + 3) % 7 == 0;
    assert (m + k + 3) % 7 == k;
  }

  /** Going back seven days lands in the previous week. */
  lemma StartOfWeekOfWeekBefore(d: int)
    ensures StartOfWeek(d - 7) == StartOfWeek(d) - 7
  {
    assert Weekday(d - 7) == Weekday(d);
  }

  /** The loop of `getDates` from `current` on: push, step a day, until the day after `final`. */
  function DaysFrom(current: int, final: int): (days: seq<int>)
    requires current <= final + 1
    ensures |days| == final + 1 - current
    ensures forall i :: 0 <= i < |days| ==> days[i] == current + i
    decreases final + 1 - current
  {
    if current == final + 1 then [] else [current] + DaysFrom(current + 1, final)
  }

  /** `getDates(initial, final)`: the two dates are put in order first, then
      every day from the earlier to the later one is listed. */
  function GetDates(initial: int, final: int): (days: seq<int>)
    ensures |days| == (if initial <= final then final - initial else initial - final) + 1
    ensures days[0] == (if initial <= final then initial else final)
    ensures days[|days| - 1] == (if initial <= final then final else initial)
    ensures forall i :: 0 <= i < |days| - 1 ==> days[i + 1] == days[i] + 1
  {
    if initial <= final then DaysFrom(initial, final) else DaysFrom(final, initial)
  }

  /** The listed days are exactly the days between the two dates, both included. */
  lemma GetDatesCovers(initial: int, final: int, d: int)
    ensures d in GetDates(initial, final) <==>
      (if initial <= final then initial <= d <= final else final <= d <= initial)
  {
    var days := GetDates(initial, final);
    var lo := if initial <= final then initial else final;
    var hi := if initial <= final then final else initial;
    if lo <= d <= hi {
      assert days[d - lo] == d;
    }
  }

  /** The order of the arguments does not matter. */
  lemma GetDatesSymmetric(initial: int, final: int)
    ensures GetDates(initial, final) == GetDates(final, initial)
  {
  }

  /** This week: Monday of the current week up to and including today. */
  function ThisWeek(today: int): (days: seq<int>)
    ensures |days| == Weekday(today) + 1
    ensures days[0] == StartOfWeek(today) && Weekday(days[0]) == 0
    ensures days[|days| - 1] == today
  {
    GetDates(StartOfWeek(today), today)
  }

  /** Last week: `startOfWeek(today - 7)` and the six days after it. */
  function LastWeek(today: int): (days: seq<int>)
    ensures |days| == 7
    ensures days[0] == StartOfWeek(today) - 7 && Weekday(days[0]) == 0
    ensures days[6] == StartOfWeek(today) - 1
  {
    StartOfWeekOfWeekBefore(today);
    var start := StartOfWeek(today - 7);
    GetDates(start, start + 6)
  }
}
