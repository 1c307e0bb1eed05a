/** The weekly calendar of src/components/CalendarView.tsx: a deadline
    `YYYY-MM-DD` is read as a local calendar date, its JavaScript weekday
    (`getDay`, Sunday = 0) is moved to Monday-first order, and the legacy
    task list is grouped into seven weekday columns plus a column of tasks
    without a deadline. */
module Calendar {
  import opened Types
  import opened Seqs
  import opened Text
  import opened LegacyState

  /** `WEEKDAYS`, Monday first. */
  const Weekdays: seq<string> :=
    ["Lunes", "Martes", "Miércoles", "Jueves", "Viernes", "Sábado", "Domingo"]

  /** The seven column names are pairwise different, so the record
      `tasksByWeekday` keyed by name has one slot per column. */
  lemma WeekdaysDistinct()
    ensures |Weekdays| == 7
    ensures forall i, j :: 0 <= i < j < |Weekdays| ==> Weekdays[i] != Weekdays[j]
  {
    var w := Weekdays;
    assert w[0][0] == 'L' && w[1][0] == 'M' && w[2][0] == 'M' && w[3][0] == 'J';
    assert w[4][0] == 'V' && w[5][0] == 'S' && w[6][0] == 'D';
    assert w[1][1] == 'a' && w[2][1] == 'i';
  }

  // ------------------------------------------------------ the Gregorian calendar

  datatype CivilDate = CivilDate(year: int, month: int, day: int)

  predicate IsLeapYear(y: int)
  {
    y % 4 == 0 && (y % 100 != 0 || y % 400 == 0)
  }

  function DaysInMonth(y: int, m: int): (n: int)
    requires 1 <= m <= 12
    ensures 28 <= n <= 31
    ensures m == 2 ==> (n == 29 <==> IsLeapYear(y))
  {
    if m == 2 then (if IsLeapYear(y) then 29 else 28)
    else if m == 4 || m == 6 || m == 9 || m == 11 then 30
    else 31
  }

  predicate ValidDate(dt: CivilDate)
  {
    1 <= dt.month <= 12 && 1 <= dt.day <= DaysInMonth(dt.year, dt.month)
  }

  /** The number of days from 1970-01-01 to `dt` in the proleptic Gregorian
      calendar (counting March-based years, so that the leap day comes last). */
  function DayNumber(dt: CivilDate): int
    requires 1 <= dt.month <= 12
  {
    var yp := if dt.month <= 2 then dt.year - 1 else dt.year;
    var mp := if dt.month > 2 then dt.month - 3 else dt.month + 9;
    365 * yp + yp / 4 - yp / 100 + yp / 400 + (153 * mp + 2) / 5 + dt.day - 1 - 719468
  }

  /** The calendar day after a valid date. */
  function NextDate(dt: CivilDate): (r: CivilDate)
    requires ValidDate(dt)
    ensures ValidDate(r)
  {
    if dt.day < DaysInMonth(dt.year, dt.month) then dt.(day := dt.day + 1)
    else if dt.month < 12 then CivilDate(dt.year, dt.month + 1, 1)
    else CivilDate(dt.year + 1, 1, 1)
  }

  /** The day counter starts at the Unix epoch. */
  lemma EpochIsDayZero()
    ensures DayNumber(CivilDate(1970, 1, 1)) == 0
  {
  }

  /** `DayNumber` counts days: the next calendar date, across month ends,
      leap days and year ends, always has the next number. Together with
      `EpochIsDayZero` this pins the counter down as the Gregorian one. */
  lemma NextDateIsNextDay(dt: CivilDate)
    requires ValidDate(dt)
    ensures DayNumber(NextDate(dt)) == DayNumber(dt) + 1
  {
    var y, m := dt.year, dt.month;
    if dt.day < DaysInMonth(y, m) {
      WithinMonth(dt);
    } else if m == 2 {
      assert dt == CivilDate(y, 2, DaysInMonth(y, 2)) && NextDate(dt) == CivilDate(y, 3, 1);
      FebruaryEnd(y);
    } else if m < 12 {
      assert dt == CivilDate(y, m, DaysInMonth(y, m)) && NextDate(dt) == CivilDate(y, m + 1, 1);
      MonthEnd(y, m);
    } else {
      assert dt == CivilDate(y, 12, 31) && NextDate(dt) == CivilDate(y + 1, 1, 1);
      DecemberEnd(y);
    }
  }

  lemma WithinMonth(dt: CivilDate)
    requires 1 <= dt.month <= 12
    ensures DayNumber(dt.(day := dt.day + 1)) == DayNumber(dt) + 1
  {
  }

  /** From December 31st to January 1st: the March-based year stays. */
  lemma DecemberEnd(y: int)
    ensures DayNumber(CivilDate(y + 1, 1, 1)) == DayNumber(CivilDate(y, 12, 31)) + 1
  {
  }

  /** From the last day of February to March 1st: the March-based year
      rolls over, and the leap rule decides the length of February. */
  lemma FebruaryEnd(y: int)
    ensures DayNumber(CivilDate(y, 3, 1)) == DayNumber(CivilDate(y, 2, DaysInMonth(y, 2))) + 1
  {
    DivStep(y, 4);
    DivStep(y, 100);
    DivStep(y, 400);
    DividesChain(y);
  }

  /** From the last day of any other month but December to the first of the
      next. */
  lemma MonthEnd(y: int, m: int)
    requires 1 <= m < 12 && m != 2
    ensures DayNumber(CivilDate(y, m + 1, 1)) == DayNumber(CivilDate(y, m, DaysInMonth(y, m))) + 1
  {
  }

  /** Moving from `n - 1` to `n` raises `n / k` by one exactly when `k`
      divides `n`. */
  lemma DivStep(n: int, k: int)
    requires k > 0
    ensures n / k - (n - 1) / k == if n % k == 0 then 1 else 0
  {
    var q := (n - 1) / k;
    var r := (n - 1) % k;
    assert n - 1 == q * k + r && 0 <= r < k;
    if r == k - 1 {
      DivUnique(n, k, q + 1, 0);
    } else {
      DivUnique(n, k, q, r + 1);
    }
  }

  lemma DivUnique(n: int, k: int, q: int, r: int)
    requires k > 0 && 0 <= r < k && n == q * k + r
    ensures n / k == q && n % k == r
  {
    var q' := n / k;
    var r' := n % k;
    assert n == q' * k + r';
    assert (q - q') * k == r' - r;
    if q > q' {
      MulAtLeast(q - q', k);
      assert false;
    } else if q < q' {
      MulAtLeast(q' - q, k);
      assert false;
    }
  }

  lemma MulAtLeast(a: int, k: int)
    requires a >= 1 && k > 0
    ensures a * k >= k
  {
  }

  /** 400 | y implies 100 | y, which implies 4 | y. */
  lemma DividesChain(y: int)
    ensures y % 400 == 0 ==> y % 100 == 0
    ensures y % 100 == 0 ==> y % 4 == 0
  {
    if y % 400 == 0 {
      DivUnique(y, 100, 4 * (y / 400), 0);
    }
    if y % 100 == 0 {
      DivUnique(y, 4, 25 * (y / 100), 0);
    }
  }

  /** `Date.prototype.getDay`: 0 for Sunday up to 6 for Saturday
      (1970-01-01 was a Thursday). */
  function JsWeekday(dt: CivilDate): (w: int)
    requires 1 <= dt.month <= 12
    ensures 0 <= w < 7
  {
    (DayNumber(dt) + 4) % 7
  }

  /** Weekdays advance by one, Saturday wrapping round to Sunday. */
  lemma NextDateNextWeekday(dt: CivilDate)
    requires ValidDate(dt)
    ensures JsWeekday(NextDate(dt)) == (JsWeekday(dt) + 1) % 7
  {
    NextDateIsNextDay(dt);
    ModSucc(DayNumber(dt) + 4);
  }

  lemma ModSucc(x: int)
    ensures (x + 1) % 7 == (x % 7 + 1) % 7
  {
    var q := x / 7;
    var r := x % 7;
    if r + 1 < 7 {
      DivUnique(x + 1, 7, q, r + 1);
    } else {
      DivUnique(x + 1, 7, q + 1, 0);
    }
    DivUnique(x % 7 + 1, 7, if r + 1 < 7 then 0 else 1, if r + 1 < 7 then r + 1 else 0);
  }

  /** The remap of the column filter: Sunday (0) goes last, to 6, and every
      other day `d` to `d - 1`. It is undone by adding one modulo 7. */
  function MondayFirst(w: int): (i: int)
    requires 0 <= w < 7
    ensures 0 <= i < 7
    ensures (i + 1) % 7 == w
  {
    if w == 0 then 6 else w - 1
  }

  /** The remap is one-to-one, so no two JavaScript weekdays share a column. */
  lemma MondayFirstInjective(w1: int, w2: int)
    requires 0 <= w1 < 7 && 0 <= w2 < 7
    ensures MondayFirst(w1) == MondayFirst(w2) ==> w1 == w2
  {
  }

  // ----------------------------------------------------- reading a deadline

  /** The last day a JavaScript `Date` can hold: time values reach
      8.64e15 ms, 100 000 000 days, on either side of the epoch (section
      21.4.1.1 of ECMA-262), which puts the last day at 275760-09-13. */
  const MaxDayNumber := 100000000

  /** A date at midnight within the time range of `Date`. */
  predicate InDateRange(dt: CivilDate)
    requires 1 <= dt.month <= 12
  {
    DayNumber(dt) <= MaxDayNumber
  }

  /** The bound is the day 275760-09-13. */
  lemma LastDayInRange()
    ensures InDateRange(CivilDate(275760, 9, 13))
    ensures !InDateRange(CivilDate(275760, 9, 14))
  {
  }

  /** Every valid date of the years 1 to 275759 lies within the range. */
  lemma EarlyYearsInRange(dt: CivilDate)
    requires ValidDate(dt) && 1 <= dt.year <= 275759
    ensures InDateRange(dt)
  {
    var yp := if dt.month <= 2 then dt.year - 1 else dt.year;
    assert yp / 4 <= 68939;
    assert yp / 100 >= 0;
    assert yp / 400 <= 689;
  }

  /** `new Date(year, …)` reads the years 0 to 99 as 1900 to 1999. */
  function JsYear(y: nat): (r: nat)
    ensures 0 <= y <= 99 ==> r == 1900 + y
    ensures y > 99 ==> r == y
  {
    if y <= 99 then 1900 + y else y
  }

  /** `deadline.split('-').map(Number)` and `new Date(year, month - 1, day)`:
      the first three fields read as a valid calendar date, further fields
      ignored, within the range of `Date`. Any other deadline gives no date,
      the model of a `NaN` field or an invalid `Date`. */
  function ParseDeadline(s: string): (r: Option<CivilDate>)
    ensures r.Some? ==> ValidDate(r.value) && InDateRange(r.value)
    ensures r.Some? ==> |Split(s, '-')| >= 3
  {
    var f := Split(s, '-');
    if |f| >= 3 && IsDecimal(f[0]) && IsDecimal(f[1]) && IsDecimal(f[2]) then
      var dt := CivilDate(JsYear(DecimalValue(f[0])), DecimalValue(f[1]), DecimalValue(f[2]));
      if ValidDate(dt) && InDateRange(dt) then Some(dt) else None
    else None
  }

  /** The `YYYY-MM-DD` value a date input stores: the year in at least four
      digits, month and day in two, zero-padded. */
  function FormatDate(dt: CivilDate): string
    requires dt.year >= 0 && dt.month >= 0 && dt.day >= 0
  {
    Decimal(dt.year, 4) + ['-'] + Decimal(dt.month, 2) + ['-'] + Decimal(dt.day, 2)
  }

  /** The three fields of a formatted date come apart at the dashes. */
  lemma SplitFormatted(dt: CivilDate)
    requires dt.year >= 0 && dt.month >= 0 && dt.day >= 0
    ensures Split(FormatDate(dt), '-') == [Decimal(dt.year, 4), Decimal(dt.month, 2), Decimal(dt.day, 2)]
  {
    var y, m, d := Decimal(dt.year, 4), Decimal(dt.month, 2), Decimal(dt.day, 2);
    DigitsHaveNoDash(y);
    DigitsHaveNoDash(m);
    DigitsHaveNoDash(d);
    assert FormatDate(dt) == y + ['-'] + (m + ['-'] + d);
    SplitField(y, m + ['-'] + d, '-');
    SplitField(m, d, '-');
    SplitNoSep(d, '-');
  }

  lemma DigitsHaveNoDash(s: string)
    requires IsDecimal(s)
    ensures '-' !in s
  {
  }

  /** Every date from year 100 on that a `Date` can hold reads back as
      itself from its `YYYY-MM-DD` form. */
  lemma ParseFormatted(dt: CivilDate)
    requires ValidDate(dt) && 100 <= dt.year && InDateRange(dt)
    ensures ParseDeadline(FormatDate(dt)) == Some(dt)
  {
    SplitFormatted(dt);
  }

  /** Years 0 to 99 are read a century on, as `new Date(y, …)` does: the
      deadline names the date of year `1900 + y`, and none when that date
      does not exist (29 February of year 0, a leap year, in 1900, which is
      not). */
  lemma ParseFormattedTwoDigitYear(dt: CivilDate)
    requires ValidDate(dt) && 0 <= dt.year <= 99
    ensures ParseDeadline(FormatDate(dt)) ==
              if ValidDate(dt.(year := 1900 + dt.year)) then Some(dt.(year := 1900 + dt.year)) else None
  {
    SplitFormatted(dt);
    var read := CivilDate(JsYear(dt.year), dt.month, dt.day);
    assert read == dt.(year := 1900 + dt.year);
    if ValidDate(read) {
      EarlyYearsInRange(read);
    }
  }

  /** The Monday-first column of a deadline, when it reads as a date. */
  function WeekdayIndex(s: string): (r: Option<int>)
    ensures r.Some? ==> 0 <= r.value < 7
    ensures r.Some? <==> ParseDeadline(s).Some?
    ensures r.Some? ==> r.value == MondayFirst(JsWeekday(ParseDeadline(s).value))
  {
    match ParseDeadline(s)
    case None => None
    case Some(dt) => Some(MondayFirst(JsWeekday(dt)))
  }

  /** A formatted deadline goes to the Monday-first column of its date's
      weekday. */
  lemma FormattedDeadlineColumn(dt: CivilDate)
    requires ValidDate(dt) && 100 <= dt.year && InDateRange(dt)
    ensures WeekdayIndex(FormatDate(dt)) == Some(MondayFirst(JsWeekday(dt)))
  {
    ParseFormatted(dt);
  }

  /** An empty deadline reads as no date. */
  lemma EmptyDeadlineHasNoWeekday()
    ensures WeekdayIndex("") == None
  {
    assert Split("", '-') == [""];
  }

  /** A Monday lands in the first column, `Lunes`. */
  lemma MondayGoesToLunes(deadline: string)
    requires deadline == "2024-06-10"
    ensures WeekdayIndex(deadline) == Some(0)
    ensures Weekdays[0] == "Lunes"
  {
    ParseSampleDeadline();
    SampleWeekday();
  }

  lemma ParseSampleDeadline()
    ensures ParseDeadline("2024-06-10") == Some(CivilDate(2024, 6, 10))
  {
    SplitSampleDeadline();
    SampleFieldValues();
    assert ValidDate(CivilDate(2024, 6, 10));
  }

  /** 2024-06-10 is a Monday: `getDay` gives 1. */
  lemma SampleWeekday()
    ensures JsWeekday(CivilDate(2024, 6, 10)) == 1
  {
    assert DayNumber(CivilDate(2024, 6, 10)) == 19884;
  }

  lemma SplitSampleDeadline()
    ensures Split("2024-06-10", '-') == ["2024", "06", "10"]
  {
    assert "2024-06-10" == "2024" + ['-'] + ("06" + ['-'] + "10");
    SplitField("2024", "06" + ['-'] + "10", '-');
    SplitField("06", "10", '-');
    SplitNoSep("10", '-');
  }

  lemma SampleFieldValues()
    ensures IsDecimal("2024") && IsDecimal("06") && IsDecimal("10")
    ensures DecimalValue("2024") == 2024 && DecimalValue("06") == 6 && DecimalValue("10") == 10
  {
    assert "2024"[..3] == "202" && "202"[..2] == "20" && "20"[..1] == "2";
    assert "06"[..1] == "0" && "10"[..1] == "1";
  }

  // ----------------------------------------------------------------- columns

  /** The filter of column `i`: a non-empty deadline whose weekday is `i`. */
  function InColumn(i: int): LegacyTask -> bool
  {
    (t: LegacyTask) => IsInColumn(t, i)
  }

  predicate IsInColumn(t: LegacyTask, i: int)
  {
    t.deadline != "" && WeekdayIndex(t.deadline) == Some(i)
  }

  predicate HasNoDeadline(t: LegacyTask)
  {
    t.deadline == ""
  }

  /** Every deadline is empty or reads as a date. */
  predicate DeadlinesReadable(ts: seq<LegacyTask>)
  {
    forall k :: 0 <= k < |ts| ==> ts[k].deadline == "" || ParseDeadline(ts[k].deadline).Some?
  }

  /** `tasksByWeekday`, column `i` holding the tasks of `Weekdays[i]`: each
      column keeps the list order, holds only tasks of its weekday, and holds
      all of them. */
  function TasksByWeekday(ts: seq<LegacyTask>): (cols: seq<seq<LegacyTask>>)
    ensures |cols| == |Weekdays|
    ensures forall i :: 0 <= i < |cols| ==> IsSubseq(cols[i], ts)
    ensures forall i, k :: 0 <= i < |cols| && 0 <= k < |cols[i]| ==>
              cols[i][k].deadline != "" && WeekdayIndex(cols[i][k].deadline) == Some(i)
    ensures forall i, k :: (0 <= i < |cols| && 0 <= k < |ts| && ts[k].deadline != ""
              && WeekdayIndex(ts[k].deadline) == Some(i)) ==> ts[k] in cols[i]
    ensures forall i :: 0 <= i < |cols| ==> |cols[i]| == Count(ts, InColumn(i))
  {
    var cols := seq(7, i requires 0 <= i < 7 => Filter(ts, InColumn(i)));
    assert forall i :: 0 <= i < 7 ==> IsSubseq(cols[i], ts) by {
      forall i | 0 <= i < 7 ensures IsSubseq(cols[i], ts) {
        FilterIsSubseq(ts, InColumn(i));
      }
    }
    cols
  }

  /** `tasksWithoutDeadline`: exactly the tasks with an empty deadline, in
      order. */
  function TasksWithoutDeadline(ts: seq<LegacyTask>): (r: seq<LegacyTask>)
    ensures IsSubseq(r, ts)
    ensures forall k :: 0 <= k < |r| ==> r[k].deadline == ""
    ensures forall k :: 0 <= k < |ts| && ts[k].deadline == "" ==> ts[k] in r
    ensures |r| == Count(ts, HasNoDeadline)
  {
    FilterIsSubseq(ts, HasNoDeadline);
    Filter(ts, HasNoDeadline)
  }

  /** A task with a readable non-empty deadline is in exactly one weekday
      column; a task without a deadline is in none. */
  lemma ExactlyOneColumn(t: LegacyTask)
    ensures t.deadline != "" && ParseDeadline(t.deadline).Some? ==>
              exists i :: 0 <= i < 7 && InColumn(i)(t)
    ensures forall i, j :: 0 <= i < 7 && 0 <= j < 7 && InColumn(i)(t) && InColumn(j)(t) ==> i == j
    ensures t.deadline == "" ==> forall i :: 0 <= i < 7 ==> !InColumn(i)(t)
  {
    if t.deadline != "" && ParseDeadline(t.deadline).Some? {
      var w := WeekdayIndex(t.deadline).value;
      assert InColumn(w)(t);
    }
  }

  /** The seven column filters, Monday first. */
  function Columns(): (ps: seq<LegacyTask -> bool>)
    ensures |ps| == 7
    ensures forall i :: 0 <= i < 7 ==> ps[i] == InColumn(i)
  {
    seq(7, i requires 0 <= i < 7 => InColumn(i))
  }

  /** The number of tasks the columns hold together. */
  function TotalSize(cols: seq<seq<LegacyTask>>): nat
  {
    if cols == [] then 0 else |cols[0]| + TotalSize(cols[1..])
  }

  /** The sizes of the filters by each predicate of `ps`, added up. */
  lemma {:induction false} TotalSizeOfFilters(ts: seq<LegacyTask>, ps: seq<LegacyTask -> bool>)
    ensures TotalSize(seq(|ps|, i requires 0 <= i < |ps| => Filter(ts, ps[i]))) == CountAll(ts, ps)
  {
    var cols := seq(|ps|, i requires 0 <= i < |ps| => Filter(ts, ps[i]));
    if ps != [] {
      TotalSizeOfFilters(ts, ps[1..]);
      assert cols[1..] == seq(|ps[1..]|, i requires 0 <= i < |ps[1..]| => Filter(ts, ps[1..][i]));
    }
  }

  /** With readable deadlines the seven columns and the no-deadline column
      partition the list: their sizes add up to the number of tasks. */
  lemma ColumnsPartition(ts: seq<LegacyTask>)
    requires DeadlinesReadable(ts)
    ensures TotalSize(TasksByWeekday(ts)) + |TasksWithoutDeadline(ts)| == |ts|
  {
    var ps := Columns();
    assert TasksByWeekday(ts) == seq(|ps|, i requires 0 <= i < |ps| => Filter(ts, ps[i]));
    TotalSizeOfFilters(ts, ps);
    forall k | 0 <= k < |ts|
      ensures Hits(ts[k], ps) + (if HasNoDeadline(ts[k]) then 1 else 0) == 1
    {
      var t := ts[k];
      var j := if t.deadline != "" then WeekdayIndex(t.deadline).value else -1;
      forall i | 0 <= i < |ps| && i != j ensures !ps[i](t) {
        assert ps[i] == InColumn(i);
      }
      HitsAt(t, ps, j);
      if t.deadline != "" {
        assert ps[j] == InColumn(j);
      }
    }
    FamilyPartition(ts, ps, HasNoDeadline);
  }
}
