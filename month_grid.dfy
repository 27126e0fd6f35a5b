/** The month grid: `getCalendar(year, month, {withOutsideDays})` lists the
    days of a month, optionally padded with the end of the previous month and
    the start of the next one so that the grid covers whole weeks. */
module MonthGrid {
  import opened Wrappers
  import opened CalendarDates
  import opened WeekDays

  function PrevMonth(year: int, month: int): (r: (int, int))
    requires 1 <= month <= 12
    ensures 1 <= r.1 <= 12
  {
    if month == 1 then (year - 1, 12) else (year, month - 1)
  }

  function NextMonth(year: int, month: int): (r: (int, int))
    requires 1 <= month <= 12
    ensures 1 <= r.1 <= 12
  {
    if month == 12 then (year + 1, 1) else (year, month + 1)
  }

  /** The days 1..n of a month, in order. */
  function DaysOfMonth(year: int, month: int): (days: seq<Date>)
    requires 1 <= month <= 12
  {
    seq(MonthLength(year, month), i requires 0 <= i < MonthLength(year, month) => Date(year, month, i + 1))
  }

  /** How many days of the previous month precede the 1st in its first week. */
  function LeadingDays(year: int, month: int, firstDayOfWeek: WeekdayId): nat
    requires 1 <= month <= 12
  {
    GetWeekDayIndex(firstDayOfWeek, Weekday(Date(year, month, 1)))
  }

  /** How many days of the next month follow the month's last day in its week. */
  function TrailingDays(year: int, month: int, firstDayOfWeek: WeekdayId): nat
    requires 1 <= month <= 12
  {
    6 - GetWeekDayIndex(firstDayOfWeek, Weekday(Date(year, month, MonthLength(year, month))))
  }

  /** The last `LeadingDays` days of the previous month. */
  function LeadingPart(year: int, month: int, firstDayOfWeek: WeekdayId): (days: seq<Date>)
    requires 1 <= month <= 12
  {
    var (py, pm) := PrevMonth(year, month);
    var k := LeadingDays(year, month, firstDayOfWeek);
    var before := MonthLength(py, pm) - k;
    seq(k, i requires 0 <= i < k => Date(py, pm, before + 1 + i))
  }

  /** The first `TrailingDays` days of the next month. */
  function TrailingPart(year: int, month: int, firstDayOfWeek: WeekdayId): (days: seq<Date>)
    requires 1 <= month <= 12
  {
    var (ny, nm) := NextMonth(year, month);
    var t := TrailingDays(year, month, firstDayOfWeek);
    seq(t, j requires 0 <= j < t => Date(ny, nm, j + 1))
  }

  /** The grid of a valid month. */
  function Grid(year: int, month: int, firstDayOfWeek: WeekdayId, withOutsideDays: bool): (grid: seq<Date>)
    requires 1 <= month <= 12
  {
    if !withOutsideDays then DaysOfMonth(year, month)
    else LeadingPart(year, month, firstDayOfWeek) + DaysOfMonth(year, month) + TrailingPart(year, month, firstDayOfWeek)
  }

  /** `getCalendar(year, month, {firstDayOfWeek, withOutsideDays})`; a month
      outside 1..12 is an error. */
  function GetCalendar(year: int, month: int, firstDayOfWeek: WeekdayId, withOutsideDays: bool): (r: Result<seq<Date>>)
    ensures r.Ok? <==> 1 <= month <= 12
    ensures r.Ok? ==> r.value == Grid(year, month, firstDayOfWeek, withOutsideDays)
  {
    if 1 <= month <= 12 then Ok(Grid(year, month, firstDayOfWeek, withOutsideDays))
    else Err(InvalidArgument)
  }

  // ---------------------------------------------------------------------------
  // What the grid holds

  /** Without outside days the grid is the month from its 1st to its last day. */
  lemma GridWithoutOutsideDays(year: int, month: int, firstDayOfWeek: WeekdayId)
    requires 1 <= month <= 12
    ensures var grid := Grid(year, month, firstDayOfWeek, false);
      && |grid| == MonthLength(year, month)
      && grid[0] == Date(year, month, 1)
      && grid[|grid| - 1] == Date(year, month, MonthLength(year, month))
      && AllValid(grid) && Consecutive(grid)
      && forall i :: 0 <= i < |grid| ==> !IsOutsideMonth(month, grid[i])
  {
    var grid := Grid(year, month, firstDayOfWeek, false);
    forall i | 0 < i < |grid| ensures grid[i] == Next(grid[i - 1]) {
    }
  }

  /** With outside days the grid is a run of successive dates that starts on
      `firstDayOfWeek`, ends on the weekday before it, covers whole weeks,
      holds the month's days in order after fewer than seven leading days,
      and marks exactly the padding as outside the month. */
  lemma GridWithOutsideDays(year: int, month: int, firstDayOfWeek: WeekdayId)
    requires 1 <= month <= 12
    ensures var grid := Grid(year, month, firstDayOfWeek, true);
      var k := LeadingDays(year, month, firstDayOfWeek);
      var n := MonthLength(year, month);
      && AllValid(grid) && Consecutive(grid)
      && k < 7 && k + n <= |grid| < k + n + 7
      && |grid| % 7 == 0
      && Weekday(grid[0]) == firstDayOfWeek
      && Weekday(grid[|grid| - 1]) == (firstDayOfWeek + 6) % 7
      && grid[k..k + n] == DaysOfMonth(year, month)
      && (forall i :: 0 <= i < |grid| ==> (IsOutsideMonth(month, grid[i]) <==> i < k || k + n <= i))
  {
    var grid := Grid(year, month, firstDayOfWeek, true);
    var k := LeadingDays(year, month, firstDayOfWeek);
    var n := MonthLength(year, month);
    var t := TrailingDays(year, month, firstDayOfWeek);
    GridIsConsecutive(year, month, firstDayOfWeek);
    GridOutsideDays(year, month, firstDayOfWeek);
    assert grid[k] == Date(year, month, 1) && grid[k + n - 1] == Date(year, month, n);
    AlignedRun(grid, firstDayOfWeek, k, n, t);
  }

  /** Either way the grid is the run of successive days from its first
      day, as many as the grid holds. */
  lemma GridIsRunOfDays(year: int, month: int, firstDayOfWeek: WeekdayId, withOutsideDays: bool)
    requires 1 <= month <= 12
    ensures var grid := Grid(year, month, firstDayOfWeek, withOutsideDays);
      |grid| > 0 && grid[0].Valid() && grid == DaysFrom(grid[0], |grid|)
  {
    var grid := Grid(year, month, firstDayOfWeek, withOutsideDays);
    if withOutsideDays {
      GridWithOutsideDays(year, month, firstDayOfWeek);
    } else {
      GridWithoutOutsideDays(year, month, firstDayOfWeek);
    }
    ConsecutiveIsDaysFrom(grid);
  }

  /** A run of successive days whose day k sits k places into its week, and
      whose day k + n - 1 is followed by the rest of its week, is whole weeks. */
  lemma AlignedRun(days: seq<Date>, firstDayOfWeek: WeekdayId, k: nat, n: nat, t: nat)
    requires AllValid(days) && Consecutive(days)
    requires n >= 1 && |days| == k + n + t && k < 7
    requires k == GetWeekDayIndex(firstDayOfWeek, Weekday(days[k]))
    requires t == 6 - GetWeekDayIndex(firstDayOfWeek, Weekday(days[k + n - 1]))
    ensures |days| % 7 == 0
    ensures Weekday(days[0]) == firstDayOfWeek
    ensures Weekday(days[|days| - 1]) == (firstDayOfWeek + 6) % 7
  {
    AlignedRunStart(days, firstDayOfWeek, k);
    AlignedRunEnd(days, firstDayOfWeek, k + n - 1, t);
  }

  lemma AlignedRunStart(days: seq<Date>, firstDayOfWeek: WeekdayId, k: nat)
    requires AllValid(days) && Consecutive(days) && k < |days| && k < 7
    requires k == GetWeekDayIndex(firstDayOfWeek, Weekday(days[k]))
    ensures Weekday(days[0]) == firstDayOfWeek
  {
    ConsecutiveDayNumbers(days, k);
    AlignedStart(Weekday(days[0]), firstDayOfWeek, k);
  }

  lemma AlignedRunEnd(days: seq<Date>, firstDayOfWeek: WeekdayId, m: nat, t: nat)
    requires AllValid(days) && Consecutive(days) && |days| == m + 1 + t
    requires Weekday(days[0]) == firstDayOfWeek
    requires t == 6 - GetWeekDayIndex(firstDayOfWeek, Weekday(days[m]))
    ensures |days| % 7 == 0
    ensures Weekday(days[|days| - 1]) == (firstDayOfWeek + 6) % 7
  {
    ConsecutiveDayNumbers(days, m);
    ConsecutiveDayNumbers(days, |days| - 1);
    AlignedEnd(firstDayOfWeek, m, t, Weekday(days[m]));
  }

  lemma GridIsConsecutive(year: int, month: int, firstDayOfWeek: WeekdayId)
    requires 1 <= month <= 12
    ensures var grid := Grid(year, month, firstDayOfWeek, true);
      AllValid(grid) && Consecutive(grid)
  {
    var lead, days, trail := LeadingPart(year, month, firstDayOfWeek), DaysOfMonth(year, month), TrailingPart(year, month, firstDayOfWeek);
    var grid := lead + days + trail;
    var k, n := |lead|, |days|;
    assert AllValid(grid) by {
      forall i | 0 <= i < |grid| ensures grid[i].Valid() {
        if i < k { assert grid[i] == lead[i]; }
        else if i < k + n { assert grid[i] == days[i - k]; }
        else { assert grid[i] == trail[i - k - n]; }
      }
    }
    forall i | 0 < i < |grid| ensures grid[i] == Next(grid[i - 1]) {
      if i < k {
        assert grid[i] == lead[i] && grid[i - 1] == lead[i - 1];
      } else if i == k {
        assert grid[i - 1] == lead[k - 1] && grid[i] == days[0];
      } else if i < k + n {
        assert grid[i] == days[i - k] && grid[i - 1] == days[i - k - 1];
      } else if i == k + n {
        assert grid[i - 1] == days[n - 1] && grid[i] == trail[0];
      } else {
        assert grid[i] == trail[i - k - n] && grid[i - 1] == trail[i - k - n - 1];
      }
    }
  }

  lemma GridOutsideDays(year: int, month: int, firstDayOfWeek: WeekdayId)
    requires 1 <= month <= 12
    ensures var grid := Grid(year, month, firstDayOfWeek, true);
      var k := LeadingDays(year, month, firstDayOfWeek);
      var n := MonthLength(year, month);
      && |grid| == k + n + TrailingDays(year, month, firstDayOfWeek)
      && grid[k..k + n] == DaysOfMonth(year, month)
      && (forall i :: 0 <= i < |grid| ==> (IsOutsideMonth(month, grid[i]) <==> i < k || k + n <= i))
  {
    var lead, days, trail := LeadingPart(year, month, firstDayOfWeek), DaysOfMonth(year, month), TrailingPart(year, month, firstDayOfWeek);
    var grid := lead + days + trail;
    var k, n := |lead|, |days|;
    assert grid[k..k + n] == days;
    forall i | 0 <= i < |grid| ensures IsOutsideMonth(month, grid[i]) <==> i < k || k + n <= i {
      if i < k { assert grid[i] == lead[i]; }
      else if i < k + n { assert grid[i] == days[i - k]; }
      else { assert grid[i] == trail[i - k - n]; }
    }
  }

  lemma AlignedStart(w0: WeekdayId, firstDayOfWeek: WeekdayId, k: int)
    requires 0 <= k < 7 && k == (((w0 + k) % 7) - firstDayOfWeek) % 7
    ensures w0 == firstDayOfWeek
  {
    var a := w0 + k;
    assert a % 7 == (if a < 7 then a else a - 7);
    var b := a % 7 - firstDayOfWeek;
    assert b % 7 == (if b >= 0 then b else b + 7);
  }

  lemma AlignedEnd(firstDayOfWeek: WeekdayId, m: nat, t: int, wLast: WeekdayId)
    requires wLast == (firstDayOfWeek + m) % 7
    requires t == 6 - (wLast - firstDayOfWeek) % 7
    ensures (m + t + 1) % 7 == 0
    ensures (firstDayOfWeek + m + t) % 7 == (firstDayOfWeek + 6) % 7
  {
    var q := m / 7;
    assert m == 7 * q + m % 7;
    var a := firstDayOfWeek + m % 7;
    assert wLast == a % 7;
    assert a % 7 == (if a < 7 then a else a - 7);
    var b := wLast - firstDayOfWeek;
    assert b % 7 == (if b >= 0 then b else b + 7);
    assert t == 6 - m % 7;
    assert m + t + 1 == 7 * (q + 1);
  }

  // ---------------------------------------------------------------------------
  // The grids the calendar tests pin down

  lemma DecemberAndJuly2019WithoutOutsideDays()
    ensures var g := Grid(2019, 12, Sunday, false); g[0] == Date(2019, 12, 1) && g[|g| - 1] == Date(2019, 12, 31)
    ensures var g := Grid(2019, 7, Sunday, false); g[0] == Date(2019, 7, 1) && g[|g| - 1] == Date(2019, 7, 31)
  {
    GridWithoutOutsideDays(2019, 12, Sunday);
    GridWithoutOutsideDays(2019, 7, Sunday);
  }

  lemma July2019WithOutsideDays()
    ensures var g := Grid(2019, 7, Sunday, true); g[0] == Date(2019, 6, 30) && g[|g| - 1] == Date(2019, 8, 3)
  {
    assert Weekday(Date(2019, 7, 1)) == Monday;
    assert Weekday(Date(2019, 7, 31)) == Wednesday;
  }

  lemma December2019WithOutsideDays()
    ensures var g := Grid(2019, 12, Sunday, true); g[0] == Date(2019, 12, 1) && g[|g| - 1] == Date(2020, 1, 4)
  {
    assert Weekday(Date(2019, 12, 1)) == Sunday;
    assert Weekday(Date(2019, 12, 31)) == Tuesday;
  }

  lemma January2020WithOutsideDays()
    ensures var g := Grid(2020, 1, Sunday, true); g[0] == Date(2019, 12, 29) && g[|g| - 1] == Date(2020, 2, 1)
  {
    assert Weekday(Date(2020, 1, 1)) == Wednesday;
    assert Weekday(Date(2020, 1, 31)) == Friday;
  }
}
