/**
 * The periods `generate_daily_frames` renders, one frame each: in monthly
 * mode one period per calendar month from the start date's month to the end
 * date's, each ending at the month's last day or at the end date; in daily
 * mode one period per day.
 */
module Periods {
  import opened Calendar
  import opened Labels

  /** `(period_start, period_end, label)`. */
  datatype Period = Period(start: Date, end: Date, name: string)

  // ---- Monthly periods ---------------------------------------------------------

  /** Months counted from year 0: `year * 12 + month - 1`. */
  function MonthIndex(d: Date): int {
    d.year * 12 + d.month - 1
  }

  /** The first day of the month with index `k`. */
  function MonthFirst(k: int): (d: Date)
    requires k >= 12
    ensures ValidDate(d) && d.day == 1 && MonthIndex(d) == k
  {
    Date(k / 12, k % 12 + 1, 1)
  }

  /** A first of the month is the first of its own month index. */
  lemma MonthFirstOfIndex(d: Date)
    requires ValidDate(d) && d.day == 1
    ensures MonthFirst(MonthIndex(d)) == d
  {
    var k := MonthIndex(d);
    assert k == d.year * 12 + (d.month - 1) && 0 <= d.month - 1 < 12;
    assert k / 12 == d.year && k % 12 == d.month - 1;
  }

  /** The period of month `k`, clamped to `endDate`. */
  function MonthPeriod(k: int, endDate: Date): (p: Period)
    requires k >= 12
    ensures ValidDate(p.start) && MonthIndex(p.start) == k
  {
    var first := MonthFirst(k);
    Period(first, MinDate(LastOfMonth(first.year, first.month), endDate), MonthLabel(first.year, first.month))
  }

  /** How many months the monthly loop visits. */
  function MonthCount(startDate: Date, endDate: Date): nat {
    if MonthIndex(endDate) >= MonthIndex(startDate) then MonthIndex(endDate) - MonthIndex(startDate) + 1 else 0
  }

  /** The monthly periods, month by month from the start date's month. */
  function MonthlySpec(startDate: Date, endDate: Date): (ps: seq<Period>)
    requires ValidDate(startDate)
    ensures |ps| == MonthCount(startDate, endDate)
    ensures forall i :: 0 <= i < |ps| ==> ps[i] == MonthPeriod(MonthIndex(startDate) + i, endDate) && ValidDate(ps[i].start)
  {
    seq(MonthCount(startDate, endDate), i requires 0 <= i => MonthPeriod(MonthIndex(startDate) + i, endDate))
  }

  lemma MonthlyAt(startDate: Date, endDate: Date, i: int)
    requires ValidDate(startDate) && 0 <= i < MonthCount(startDate, endDate)
    ensures var p := MonthlySpec(startDate, endDate)[i];
      && p == MonthPeriod(MonthIndex(startDate) + i, endDate)
      && p.start == MonthFirst(MonthIndex(startDate) + i)
      && ValidDate(p.start) && p.start.day == 1 && MonthIndex(p.start) == MonthIndex(startDate) + i
  {
  }

  /** Up to a first of the month, date order and month order agree. */
  lemma MonthOrder(first: Date, d: Date)
    requires ValidDate(first) && first.day == 1 && ValidDate(d)
    ensures NotAfter(first, d) <==> MonthIndex(first) <= MonthIndex(d)
  {
  }

  lemma MonthlyByElements(ps: seq<Period>, startDate: Date, endDate: Date)
    requires ValidDate(startDate) && |ps| == MonthCount(startDate, endDate)
    requires forall i :: 0 <= i < |ps| ==> ps[i] == MonthPeriod(MonthIndex(startDate) + i, endDate)
    ensures ps == MonthlySpec(startDate, endDate)
  {
  }

  /** One turn of the monthly loop builds the period of `current`'s month and moves to the next month. */
  lemma MonthStep(current: Date, endDate: Date)
    requires ValidDate(current) && current.day == 1 && ValidDate(endDate) && NotAfter(current, endDate)
    ensures var next := FirstOfNextMonth(current);
      && MonthIndex(current) <= MonthIndex(endDate)
      && MonthIndex(next) == MonthIndex(current) + 1
      && Period(current, MinDate(PrevDay(next), endDate), MonthLabel(current.year, current.month))
         == MonthPeriod(MonthIndex(current), endDate)
  {
    MonthOrder(current, endDate);
    MonthFirstOfIndex(current);
    MonthEnd(current);
  }

  /** The monthly period loop of `generate_daily_frames`. */
  method MonthlyPeriods(startDate: Date, endDate: Date) returns (periods: seq<Period>)
    requires ValidDate(startDate) && ValidDate(endDate)
    ensures periods == MonthlySpec(startDate, endDate)
  {
    var current := FirstOfMonth(startDate);
    periods := [];
    while NotAfter(current, endDate)
      invariant ValidDate(current) && current.day == 1
      invariant MonthIndex(current) == MonthIndex(startDate) + |periods|
      invariant |periods| > 0 ==> MonthIndex(current) <= MonthIndex(endDate) + 1
      invariant forall i :: 0 <= i < |periods| ==> periods[i] == MonthPeriod(MonthIndex(startDate) + i, endDate)
      decreases MonthIndex(endDate) - MonthIndex(current)
    {
      MonthStep(current, endDate);
      var nextMonth := FirstOfNextMonth(current);
      var monthEnd := PrevDay(nextMonth);
      var periodEnd := MinDate(monthEnd, endDate);
      periods := periods + [Period(current, periodEnd, MonthLabel(current.year, current.month))];
      current := nextMonth;
    }
    MonthOrder(current, endDate);
    MonthlyByElements(periods, startDate, endDate);
  }

  /**
   * The monthly periods start on the first of the start date's month and end
   * at the end date, in the end date's month; there are none only when the
   * end date's month comes before the start date's.
   */
  lemma MonthlyEnds(startDate: Date, endDate: Date)
    requires ValidDate(startDate) && ValidDate(endDate)
    ensures var ps := MonthlySpec(startDate, endDate);
      && (ps != [] <==> MonthIndex(startDate) <= MonthIndex(endDate))
      && (ps != [] ==> ps[0].start == FirstOfMonth(startDate) && ps[|ps| - 1].end == endDate
                       && ps[|ps| - 1].start == FirstOfMonth(endDate))
  {
    var ps := MonthlySpec(startDate, endDate);
    if ps != [] {
      MonthlyAt(startDate, endDate, 0);
      MonthlyAt(startDate, endDate, |ps| - 1);
      MonthFirstOfIndex(FirstOfMonth(startDate));
      MonthFirstOfIndex(FirstOfMonth(endDate));
    }
  }

  /**
   * Each monthly period starts on a first of the month, ends at the month's
   * last day or at the end date if that comes first, and is labelled `YYYY-MM`.
   */
  lemma MonthlyEach(startDate: Date, endDate: Date, i: int)
    requires ValidDate(startDate) && ValidDate(endDate) && 0 <= i < MonthCount(startDate, endDate)
    ensures var p := MonthlySpec(startDate, endDate)[i];
      && ValidDate(p.start) && p.start.day == 1 && NotAfter(p.start, p.end)
      && p.end == MinDate(LastOfMonth(p.start.year, p.start.month), endDate)
      && p.name == MonthLabel(p.start.year, p.start.month)
  {
    MonthlyAt(startDate, endDate, i);
    MonthOrder(MonthlySpec(startDate, endDate)[i].start, endDate);
  }

  /** Consecutive periods are consecutive months; all but the last end on their month's last day. */
  lemma MonthlyConsecutive(startDate: Date, endDate: Date, i: int)
    requires ValidDate(startDate) && ValidDate(endDate) && 0 <= i < MonthCount(startDate, endDate) - 1
    ensures var ps := MonthlySpec(startDate, endDate);
      && ps[i + 1].start == FirstOfNextMonth(ps[i].start)
      && ps[i].end == LastOfMonth(ps[i].start.year, ps[i].start.month)
  {
    var ps := MonthlySpec(startDate, endDate);
    MonthlyAt(startDate, endDate, i);
    MonthlyAt(startDate, endDate, i + 1);
    var s := ps[i].start;
    MonthFirstOfIndex(FirstOfNextMonth(s));
    MonthOrder(FirstOfNextMonth(s), endDate);
  }

  /** Different monthly periods carry different labels. */
  lemma MonthlyLabelsDistinct(startDate: Date, endDate: Date)
    requires ValidDate(startDate)
    ensures var ps := MonthlySpec(startDate, endDate);
      forall i, j :: 0 <= i < j < |ps| ==> ps[i].name != ps[j].name
  {
    var ps := MonthlySpec(startDate, endDate);
    forall i, j | 0 <= i < j < |ps|
      ensures ps[i].name != ps[j].name
    {
      MonthlyAt(startDate, endDate, i);
      MonthlyAt(startDate, endDate, j);
      var a, b := ps[i].start, ps[j].start;
      MonthLabelInjective(a.year, a.month, b.year, b.month);
    }
  }

  /**
   * A day from the first of the start date's month up to the end date lies in
   * exactly one monthly period: the one of its own month.
   */
  lemma MonthlyPartition(startDate: Date, endDate: Date, d: Date)
    requires ValidDate(startDate) && ValidDate(endDate) && ValidDate(d)
    requires NotAfter(FirstOfMonth(startDate), d) && NotAfter(d, endDate)
    ensures var ps := MonthlySpec(startDate, endDate);
      forall i :: 0 <= i < |ps| ==>
        (NotAfter(ps[i].start, d) && NotAfter(d, ps[i].end) <==> i == MonthIndex(d) - MonthIndex(startDate))
    ensures 0 <= MonthIndex(d) - MonthIndex(startDate) < |MonthlySpec(startDate, endDate)|
  {
    var ps := MonthlySpec(startDate, endDate);
    MonthOrder(FirstOfMonth(startDate), d);
    forall i | 0 <= i < |ps|
      ensures NotAfter(ps[i].start, d) && NotAfter(d, ps[i].end) <==> i == MonthIndex(d) - MonthIndex(startDate)
    {
      MonthlyAt(startDate, endDate, i);
      MonthOrder(ps[i].start, d);
    }
  }

  // ---- Daily periods -----------------------------------------------------------

  /** One single-day period per day from `startDate` to `endDate`. */
  function DailySpec(startDate: Date, endDate: Date): seq<Period>
    requires ValidDate(startDate) && ValidDate(endDate)
    decreases Ordinal(endDate) - Ordinal(startDate)
  {
    OrdinalOrder(startDate, endDate);
    if Before(endDate, startDate) then []
    else
      OrdinalNextDay(startDate);
      [Period(startDate, startDate, DayLabel(startDate.year, startDate.month, startDate.day))]
        + DailySpec(NextDay(startDate), endDate)
  }

  /** The daily period loop of `generate_daily_frames`. */
  method DailyPeriods(startDate: Date, endDate: Date) returns (periods: seq<Period>)
    requires ValidDate(startDate) && ValidDate(endDate)
    ensures periods == DailySpec(startDate, endDate)
  {
    var current := startDate;
    periods := [];
    while NotAfter(current, endDate)
      invariant ValidDate(current)
      invariant periods + DailySpec(current, endDate) == DailySpec(startDate, endDate)
      decreases Ordinal(endDate) - Ordinal(current)
    {
      OrdinalOrder(current, endDate);
      OrdinalNextDay(current);
      var p := Period(current, current, DayLabel(current.year, current.month, current.day));
      assert DailySpec(current, endDate) == [p] + DailySpec(NextDay(current), endDate);
      periods := periods + [p];
      current := NextDay(current);
    }
  }

  /**
   * The daily periods: one per day of the range, in order, each starting and
   * ending on its day.
   */
  lemma {:induction false} DailyShape(startDate: Date, endDate: Date)
    requires ValidDate(startDate) && ValidDate(endDate)
    ensures var ps := DailySpec(startDate, endDate);
      && |ps| == (if Before(endDate, startDate) then 0 else Ordinal(endDate) - Ordinal(startDate) + 1)
      && (forall i :: 0 <= i < |ps| ==>
            ValidDate(ps[i].start) && ps[i].start == ps[i].end
            && Ordinal(ps[i].start) == Ordinal(startDate) + i
            && ps[i].name == DayLabel(ps[i].start.year, ps[i].start.month, ps[i].start.day))
      && (forall i :: 0 <= i < |ps| - 1 ==> ps[i + 1].start == NextDay(ps[i].start))
    decreases Ordinal(endDate) - Ordinal(startDate)
  {
    OrdinalOrder(startDate, endDate);
    if !Before(endDate, startDate) {
      var next := NextDay(startDate);
      OrdinalNextDay(startDate);
      OrdinalOrder(next, endDate);
      DailyShape(next, endDate);
      var ps := DailySpec(startDate, endDate);
      var rest := DailySpec(next, endDate);
      assert ps == [Period(startDate, startDate, DayLabel(startDate.year, startDate.month, startDate.day))] + rest;
      forall i | 0 < i < |ps|
        ensures ps[i] == rest[i - 1]
      {
      }
    }
  }

  /** Different daily periods carry different labels. */
  lemma DailyLabelsDistinct(startDate: Date, endDate: Date)
    requires ValidDate(startDate) && ValidDate(endDate)
    ensures var ps := DailySpec(startDate, endDate);
      forall i, j :: 0 <= i < j < |ps| ==> ps[i].name != ps[j].name
  {
    var ps := DailySpec(startDate, endDate);
    DailyShape(startDate, endDate);
    forall i, j | 0 <= i < j < |ps|
      ensures ps[i].name != ps[j].name
    {
      var a, b := ps[i].start, ps[j].start;
      DayLabelInjective(a.year, a.month, a.day, b.year, b.month, b.day);
    }
  }
}
