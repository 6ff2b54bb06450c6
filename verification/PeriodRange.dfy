/** The two copies of getPeriodRange, over a Date whose local time is UTC plus a fixed offset. */
module PeriodRange {
  import opened Prelude
  import opened Calendar

  datatype ReportPeriod = Weekly | Monthly | CustomPeriod

  datatype ChartPeriod = Hourly | Daily | ChartWeekly | ChartMonthly

  datatype Range = Range(start: Time, end: Time) {
    predicate Has(t: Time) { start <= t < end }
  }

  function LocalDay(t: Time, tz: int): int { (t + tz) / DAY }

  /** Local midnight at the start of day d, as an instant. */
  function Midnight(d: int, tz: int): Time { d * DAY - tz }

  /** The last Monday on or before day d: 1970-01-01 was a Thursday. */
  function MondayOf(d: int): int { d - (d + 3) % 7 }

  lemma SplitDay(d: int, w: int)
    requires 0 <= w < DAY
    ensures (d * DAY + w) / DAY == d && (d * DAY + w) % DAY == w
  {
  }

  lemma CompareDays(d: int, local: int)
    ensures d * DAY <= local <==> d <= local / DAY
  {
  }

  function WeekRange(t: Time, tz: int): Range {
    var monday := MondayOf(LocalDay(t, tz));
    Range(Midnight(monday, tz), Midnight(monday + 7, tz))
  }

  function MonthRange(t: Time, tz: int): Range {
    var d := LocalDay(t, tz);
    Range(Midnight(MakeDay(Year(d), Month(d), 1), tz), Midnight(MakeDay(Year(d), Month(d) + 1, 1), tz))
  }

  function ReportRange(p: ReportPeriod, t: Time, tz: int): Range
    requires p != CustomPeriod
  {
    if p.Weekly? then WeekRange(t, tz) else MonthRange(t, tz)
  }

  function DayRange(t: Time, tz: int): Range {
    var d := LocalDay(t, tz);
    Range(Midnight(d, tz), Midnight(d + 1, tz))
  }

  function ChartRange(p: ChartPeriod, t: Time, tz: int): Range {
    match p
    case Hourly => Range(t - 24 * 60 * 60 * 1000, t)
    case Daily => DayRange(t, tz)
    case ChartWeekly => WeekRange(t, tz)
    case ChartMonthly => MonthRange(t, tz)
  }

  /** A JavaScript Date: one instant, read and changed through its local civil fields. */
  class JsDate {
    const tz: int
    var t: Time

    constructor (t: Time, tz: int)
      ensures this.t == t && this.tz == tz
    {
      this.t := t;
      this.tz := tz;
    }

    constructor FromCivil(y: int, m: int, date: int, tz: int)
      ensures t == Midnight(MakeDay(y, m, date), tz) && this.tz == tz
    {
      this.t := MakeDay(y, m, date) * DAY - tz;
      this.tz := tz;
    }

    function Local(): int
      reads this
    {
      t + tz
    }

    method SetDate(date: int)
      modifies this
      ensures LocalDay(t, tz) == old(MakeDay(Year(LocalDay(t, tz)), Month(LocalDay(t, tz)), date))
      ensures Local() % DAY == old(Local()) % DAY
    {
      hide MakeDay, Year, Month;
      var day, within := (t + tz) / DAY, (t + tz) % DAY;
      var to := MakeDay(Year(day), Month(day), date);
      t := to * DAY + within - tz;
      SplitDay(to, within);
    }

    method SetHoursZero()
      modifies this
      ensures t == Midnight(old(LocalDay(t, tz)), tz)
    {
      t := Local() / DAY * DAY - tz;
    }
  }

  lemma BackToMonday(d: int)
    ensures d + (if WeekDay(d) == 0 then -6 else 1 - WeekDay(d)) == MondayOf(d)
  {
  }

  /** reports.service's copy: an unsupported period throws. */
  method ReportPeriodRange(period: ReportPeriod, d: JsDate) returns (r: Option<Range>)
    ensures r == if period == CustomPeriod then None else Some(ReportRange(period, d.t, d.tz))
  {
    hide MakeDay, Year, Month, Date, WeekDay, MondayOf;
    var day := LocalDay(d.t, d.tz);
    if period == Weekly {
      var dayOfWeek := WeekDay(day);
      var mondayOffset := if dayOfWeek == 0 then -6 else 1 - dayOfWeek;
      BackToMonday(day);
      var s := new JsDate(d.t, d.tz);
      s.SetDate(Date(day) + mondayOffset);
      SetDateShifts(day, mondayOffset);
      s.SetHoursZero();
      SplitDay(MondayOf(day), 0);
      var e := new JsDate(s.t, d.tz);
      e.SetDate(Date(LocalDay(s.t, d.tz)) + 7);
      SetDateShifts(MondayOf(day), 7);
      r := Some(Range(s.t, e.t));
    } else if period == Monthly {
      var s := new JsDate.FromCivil(Year(day), Month(day), 1, d.tz);
      var e := new JsDate.FromCivil(Year(day), Month(day) + 1, 1, d.tz);
      r := Some(Range(s.t, e.t));
    } else {
      r := None;
    }
  }

  /** inverters-metrics.service's copy: any other period means the last 24 hours. */
  method ChartPeriodRange(period: ChartPeriod, d: JsDate) returns (r: Range)
    ensures r == ChartRange(period, d.t, d.tz)
  {
    hide MakeDay, Year, Month, Date, WeekDay, MondayOf;
    var day := LocalDay(d.t, d.tz);
    if period == Daily {
      var s := new JsDate(d.t, d.tz);
      s.SetHoursZero();
      var e := new JsDate(d.t, d.tz);
      e.SetDate(Date(day) + 1);
      SetDateShifts(day, 1);
      assert LocalDay(e.t, d.tz) == day + 1;
      e.SetHoursZero();
      r := Range(s.t, e.t);
    } else if period == ChartWeekly {
      var dayOfWeek := WeekDay(day);
      var mondayOffset := if dayOfWeek == 0 then -6 else 1 - dayOfWeek;
      BackToMonday(day);
      var s := new JsDate(d.t, d.tz);
      s.SetDate(Date(day) + mondayOffset);
      SetDateShifts(day, mondayOffset);
      s.SetHoursZero();
      SplitDay(MondayOf(day), 0);
      var e := new JsDate(s.t, d.tz);
      e.SetDate(Date(LocalDay(s.t, d.tz)) + 7);
      SetDateShifts(MondayOf(day), 7);
      r := Range(s.t, e.t);
    } else if period == ChartMonthly {
      var s := new JsDate.FromCivil(Year(day), Month(day), 1, d.tz);
      var e := new JsDate.FromCivil(Year(day), Month(day) + 1, 1, d.tz);
      r := Range(s.t, e.t);
    } else {
      r := Range(d.t - 24 * 60 * 60 * 1000, d.t);
    }
  }

  /** The chart period a report period corresponds to; custom reports have none. */
  function ChartOf(p: ReportPeriod): ChartPeriod
    requires p != CustomPeriod
  {
    if p.Weekly? then ChartWeekly else ChartMonthly
  }

  /** Run on the same date, the two copies return the same range. */
  method CopiesAgree(p: ReportPeriod, d: JsDate) returns (a: Option<Range>, b: Range)
    requires p != CustomPeriod
    ensures a == Some(b) && b.Has(d.t)
  {
    a := ReportPeriodRange(p, d);
    b := ChartPeriodRange(ChartOf(p), d);
    Members(p, d.t, d.t, d.tz);
  }

  /** A week is seven days from a Monday midnight and holds the instant it was computed for. */
  lemma WeekShape(t: Time, tz: int)
    ensures var r := WeekRange(t, tz); r.Has(t) && r.end == r.start + 7 * DAY
                                       && (r.start + tz) % DAY == 0 && WeekDay(LocalDay(r.start, tz)) == 1
  {
  }

  /** A day holds the instant it was computed for, starts at local midnight and lasts 24 hours. */
  lemma DayShape(t: Time, tz: int)
    ensures var r := DayRange(t, tz); r.Has(t) && r.end == r.start + 24 * 60 * 60 * 1000 && (r.start + tz) % DAY == 0
  {
  }

  /** An instant lies in t's day exactly when both have the same civil date. */
  lemma DayMembers(t: Time, u: Time, tz: int)
    ensures var (a, b) := (LocalDay(t, tz), LocalDay(u, tz));
            DayRange(t, tz).Has(u) <==> Year(a) == Year(b) && Month(a) == Month(b) && Date(a) == Date(b)
  {
    hide MakeDay, Year, Month, Date;
    var d := LocalDay(t, tz);
    DateNamesDay(d);
    DateNamesDay(LocalDay(u, tz));
    CompareDays(d, u + tz);
    CompareDays(d + 1, u + tz);
  }

  /** A month starts at the local midnight of its first and lasts as many days as it has. */
  lemma MonthShape(t: Time, tz: int)
    ensures var r := MonthRange(t, tz); var first := LocalDay(r.start, tz);
            && (r.start + tz) % DAY == 0 && Date(first) == 1
            && r.end == r.start + DaysInMonth(Year(first), Month(first)) * DAY
  {
    var d := LocalDay(t, tz);
    var y, m := Year(d), Month(d);
    hide Leap, DayFromYear, Year, Month, MonthStart, Date, MakeDay, DaysInMonth;
    MonthLengths(y, m);
    SplitDay(MakeDay(y, m, 1), 0);
    FirstIsFirst(y, m);
  }

  lemma FirstIsFirst(y: int, m: int)
    requires 0 <= m <= 11
    ensures var d := MakeDay(y, m, 1); Year(d) == y && Month(d) == m && Date(d) == 1
  {
    var d := MakeDay(y, m, 1);
    MonthLengths(y, m);
    MonthOfDay(d, y, m);
    hide Leap, DayFromYear, Year, Month, MonthStart;
    FirstOfMonth(y, m);
  }

  /** An instant lies in t's month exactly when it has t's year and month. */
  lemma MonthMembers(t: Time, u: Time, tz: int)
    ensures MonthRange(t, tz).Has(u) <==>
              Year(LocalDay(u, tz)) == Year(LocalDay(t, tz)) && Month(LocalDay(u, tz)) == Month(LocalDay(t, tz))
  {
    hide MakeDay, Year, Month;
    var d := LocalDay(t, tz);
    MonthOfDay(LocalDay(u, tz), Year(d), Month(d));
    CompareDays(MakeDay(Year(d), Month(d), 1), u + tz);
    CompareDays(MakeDay(Year(d), Month(d) + 1, 1), u + tz);
  }

  /** An instant lies in t's week exactly when both have the same Monday. */
  lemma WeekMembers(t: Time, u: Time, tz: int)
    ensures WeekRange(t, tz).Has(u) <==> MondayOf(LocalDay(u, tz)) == MondayOf(LocalDay(t, tz))
  {
    MondaysApart(LocalDay(u, tz), MondayOf(LocalDay(t, tz)));
    MondaysApart(LocalDay(t, tz), MondayOf(LocalDay(t, tz)));
  }

  /** Which instants a chart shows: the same civil date, week or month, or the last 24 hours. */
  lemma {:induction false} ChartMembers(p: ChartPeriod, t: Time, u: Time, tz: int)
    ensures var (a, b) := (LocalDay(t, tz), LocalDay(u, tz));
            ChartRange(p, t, tz).Has(u) <==>
              match p
              case Hourly => 0 < t - u <= 24 * 60 * 60 * 1000
              case Daily => Year(a) == Year(b) && Month(a) == Month(b) && Date(a) == Date(b)
              case ChartWeekly => MondayOf(a) == MondayOf(b)
              case ChartMonthly => Year(a) == Year(b) && Month(a) == Month(b)
  {
    DayMembers(t, u, tz);
    WeekMembers(t, u, tz);
    MonthMembers(t, u, tz);
    hide DayRange, WeekRange, MonthRange, Year, Month, Date, MondayOf, LocalDay;
  }

  lemma MondaysApart(d: int, monday: int)
    requires (monday + 3) % 7 == 0
    ensures MondayOf(d) == monday <==> monday <= d < monday + 7
  {
  }

  lemma {:induction false} Members(p: ReportPeriod, t: Time, u: Time, tz: int)
    requires p != CustomPeriod
    ensures ReportRange(p, t, tz).Has(t)
    ensures ReportRange(p, t, tz).Has(u) ==> ReportRange(p, t, tz) == ReportRange(p, u, tz)
  {
    hide MakeDay, Year, Month, MondayOf, LocalDay;
    if p.Weekly? {
      WeekMembers(t, t, tz);
      WeekMembers(t, u, tz);
    } else {
      MonthMembers(t, t, tz);
      MonthMembers(t, u, tz);
    }
  }

  /** Ranges of one kind partition time: they hold their instant, and two that share any instant are equal. */
  lemma {:induction false} RangesPartition(p: ReportPeriod, t: Time, u: Time, tz: int)
    requires p != CustomPeriod
    ensures ReportRange(p, t, tz).Has(t)
    ensures ReportRange(p, t, tz).Has(u) <==> ReportRange(p, t, tz) == ReportRange(p, u, tz)
    ensures forall x :: ReportRange(p, t, tz).Has(x) && ReportRange(p, u, tz).Has(x) ==>
                          ReportRange(p, t, tz) == ReportRange(p, u, tz)
  {
    hide ReportRange;
    Members(p, t, u, tz);
    Members(p, u, t, tz);
    forall x | ReportRange(p, t, tz).Has(x) && ReportRange(p, u, tz).Has(x)
      ensures ReportRange(p, t, tz) == ReportRange(p, u, tz)
    {
      Members(p, t, x, tz);
      Members(p, u, x, tz);
    }
  }

  lemma MonthRangesAbut(t: Time, tz: int)
    ensures var end := MonthRange(t, tz).end; MonthRange(end, tz).start == end
  {
    hide Year, Month, MonthStart, Leap, DayFromYear;
    var d := LocalDay(t, tz);
    var y, m := Year(d), Month(d);
    var next := MakeDay(y, m + 1, 1);
    SplitDay(next, 0);
    var y', m' := if m == 11 then y + 1 else y, if m == 11 then 0 else m + 1;
    assert MakeDay(y', m', 1) == next;
    MonthWithinYear(y', m');
    MonthOfDay(next, y', m');
  }

  lemma WeekRangesAbut(t: Time, tz: int)
    ensures var end := WeekRange(t, tz).end; WeekRange(end, tz).start == end
  {
    var monday := MondayOf(LocalDay(t, tz));
    SplitDay(monday + 7, 0);
  }

  /** The range that begins where t's range ends starts exactly there: consecutive ranges leave no gap,
      through leap Februaries and Decembers alike. */
  lemma {:induction false} RangesAbut(p: ReportPeriod, t: Time, tz: int)
    requires p != CustomPeriod
    ensures var end := ReportRange(p, t, tz).end; t < end && ReportRange(p, end, tz).start == end
  {
    hide MonthRange, WeekRange;
    Members(p, t, t, tz);
    WeekRangesAbut(t, tz);
    MonthRangesAbut(t, tz);
  }

  /** An instant at or after the end of t's range lies in a range that starts at or after that end, and
      in the very next one exactly when it comes before that one's end. */
  lemma {:induction false} LaterRange(p: ReportPeriod, t: Time, u: Time, tz: int)
    requires p != CustomPeriod && ReportRange(p, t, tz).end <= u
    ensures ReportRange(p, u, tz).start >= ReportRange(p, t, tz).end
    ensures ReportRange(p, u, tz).start == ReportRange(p, t, tz).end <==>
              u < ReportRange(p, ReportRange(p, t, tz).end, tz).end
  {
    hide ReportRange;
    var end := ReportRange(p, t, tz).end;
    RangesAbut(p, t, tz);
    RangesPartition(p, end, u, tz);
    RangesPartition(p, u, end, tz);
    Members(p, u, end - 1, tz);
    Members(p, t, end - 1, tz);
  }
}
