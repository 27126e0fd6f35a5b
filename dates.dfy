/** Date primitives of the calendar module: plain calendar dates in the
    proleptic Gregorian calendar, month lengths, weekdays, successive days,
    comparisons and the [year, month, day] array conversions. */
module CalendarDates {
  import opened Wrappers
  import opened Seqs

  /** A calendar date without time of day; `month` is 1-based (1 = January),
      as in the [year, month, day] arrays of `toArray` and `fromArray`. */
  datatype Date = Date(year: int, month: int, day: int) {
    predicate Valid() {
      1 <= month <= 12 && 1 <= day <= MonthLength(year, month)
    }
  }

  /** A weekday id, numbered as the host platform numbers weekdays. */
  type WeekdayId = w: int | 0 <= w < 7

  const Sunday: WeekdayId := 0
  const Monday: WeekdayId := 1
  const Tuesday: WeekdayId := 2
  const Wednesday: WeekdayId := 3
  const Thursday: WeekdayId := 4
  const Friday: WeekdayId := 5
  const Saturday: WeekdayId := 6

  /** Gregorian leap rule: divisible by 4, except centuries not divisible by 400. */
  predicate IsLeapYear(year: int) {
    year % 4 == 0 && (year % 100 != 0 || year % 400 == 0)
  }

  function YearLength(year: int): int {
    if IsLeapYear(year) then 366 else 365
  }

  /** Number of days of a month, for a month in 1..12. */
  function MonthLength(year: int, month: int): (n: int)
    requires 1 <= month <= 12
    ensures 28 <= n <= 31
    ensures n == 31 <==> month in {1, 3, 5, 7, 8, 10, 12}
    ensures n == 30 <==> month in {4, 6, 9, 11}
    ensures n == 29 <==> month == 2 && IsLeapYear(year)
    ensures n == 28 <==> month == 2 && !IsLeapYear(year)
  {
    if month == 2 then (if IsLeapYear(year) then 29 else 28)
    else if month == 4 || month == 6 || month == 9 || month == 11 then 30
    else 31
  }

  /** `countDaysInMonth(year, month)`; a month outside 1..12 is an error. */
  function CountDaysInMonth(year: int, month: int): (r: Result<int>)
    ensures r.Ok? <==> 1 <= month <= 12
    ensures r.Ok? ==> r.value == MonthLength(year, month)
  {
    if 1 <= month <= 12 then Ok(MonthLength(year, month)) else Err(InvalidArgument)
  }

  /** The month lengths the calendar tests pin down. */
  lemma CountDaysInMonthExamples()
    ensures CountDaysInMonth(2019, 1) == Ok(31)
    ensures CountDaysInMonth(2020, 2) == Ok(29)
    ensures CountDaysInMonth(2019, 2) == Ok(28)
    ensures CountDaysInMonth(2019, 13) == Err(InvalidArgument)
  {
  }

  // ---------------------------------------------------------------------------
  // Day numbers and weekdays

  /** Days from 0001-01-01 to January 1st of `year`: 365 per year plus one per
      leap year, counted by the 4/100/400 rule. */
  function DaysBeforeYear(year: int): int {
    var p := year - 1;
    365 * p + p / 4 - p / 100 + p / 400
  }

  const DaysBeforeMonthInCommonYear: seq<int> := [0, 31, 59, 90, 120, 151, 181, 212, 243, 273, 304, 334]

  function DaysBeforeMonth(year: int, month: int): int
    requires 1 <= month <= 12
  {
    DaysBeforeMonthInCommonYear[month - 1] + (if month > 2 && IsLeapYear(year) then 1 else 0)
  }

  /** Days elapsed from 0001-01-01 to `d` (negative before it). */
  function DayNumber(d: Date): int
    requires d.Valid()
  {
    DaysBeforeYear(d.year) + DaysBeforeMonth(d.year, d.month) + d.day - 1
  }

  /** The fixed date from which weekdays are counted: 2019-08-04, a Sunday. */
  const Anchor: Date := Date(2019, 8, 4)

  /** The weekday of a date, counted in days from the anchor Sunday. */
  function Weekday(d: Date): WeekdayId
    requires d.Valid()
  {
    (DayNumber(d) - DayNumber(Anchor)) % 7
  }

  lemma DaysBeforeYearStep(year: int)
    ensures DaysBeforeYear(year + 1) == DaysBeforeYear(year) + YearLength(year)
  {
    DivStep(year - 1, 4);
    DivStep(year - 1, 100);
    DivStep(year - 1, 400);
  }

  lemma {:induction false} DaysBeforeYearMonotone(y: int, z: int)
    requires y <= z
    ensures DaysBeforeYear(y) + 365 * (z - y) <= DaysBeforeYear(z)
    decreases z - y
  {
    if y < z {
      DaysBeforeYearMonotone(y, z - 1);
      DaysBeforeYearStep(z - 1);
    }
  }

  /** The day number of a date lies within its year. */
  lemma DayNumberWithinYear(d: Date)
    requires d.Valid()
    ensures DaysBeforeYear(d.year) <= DayNumber(d) < DaysBeforeYear(d.year) + YearLength(d.year)
  {
  }

  // ---------------------------------------------------------------------------
  // Successive days

  /** The calendar day after `d`, rolling over month and year ends. */
  function Next(d: Date): (r: Date)
    requires d.Valid()
    ensures r.Valid()
  {
    if d.day < MonthLength(d.year, d.month) then Date(d.year, d.month, d.day + 1)
    else if d.month < 12 then Date(d.year, d.month + 1, 1)
    else Date(d.year + 1, 1, 1)
  }

  /** The next day is one day later, and one weekday further. */
  lemma NextDayNumber(d: Date)
    requires d.Valid()
    ensures DayNumber(Next(d)) == DayNumber(d) + 1
    ensures Weekday(Next(d)) == (Weekday(d) + 1) % 7
  {
    NextDayNumberStep(d);
    WeekdayStep(DayNumber(d) - DayNumber(Anchor));
  }

  lemma NextDayNumberStep(d: Date)
    requires d.Valid()
    ensures DayNumber(Next(d)) == DayNumber(d) + 1
  {
    if d.day < MonthLength(d.year, d.month) {
    } else if d.month < 12 {
      assert Next(d) == Date(d.year, d.month + 1, 1);
    } else {
      assert Next(d) == Date(d.year + 1, 1, 1);
      DaysBeforeYearStep(d.year);
    }
  }

  lemma WeekdayStep(x: int)
    ensures (x + 1) % 7 == (x % 7 + 1) % 7
  {
  }

  lemma WeekdayAdvance(x: int, i: int)
    ensures (x + i) % 7 == (x % 7 + i) % 7
  {
  }

  /** Two dates fall on the same weekday exactly when they are a whole number
      of weeks apart. */
  lemma WeekdaySame(d: Date, e: Date)
    requires d.Valid() && e.Valid()
    ensures Weekday(d) == Weekday(e) <==> (DayNumber(d) - DayNumber(e)) % 7 == 0
  {
    var a, b := DayNumber(d) - DayNumber(Anchor), DayNumber(e) - DayNumber(Anchor);
    assert a - b == DayNumber(d) - DayNumber(e);
    SameResidue(a, b);
  }

  lemma SameResidue(a: int, b: int)
    ensures a % 7 == b % 7 <==> (a - b) % 7 == 0
  {
    var qa, qb := a / 7, b / 7;
    if a % 7 == b % 7 {
      assert a - b == (qa - qb) * 7 + 0;
      ModOfDecomposition(a - b, 7, qa - qb, 0);
    }
    if (a - b) % 7 == 0 {
      var k := (a - b) / 7;
      assert a == (qb + k) * 7 + b % 7;
      ModOfDecomposition(a, 7, qb + k, b % 7);
    }
  }

  /** Weekdays of the dates the calendar's weekday tests use: the anchor and
      2019-08-25 are Sundays, 2019-08-05 a Monday, 2019-10-01 a Tuesday,
      2019-08-31 a Saturday; leap day 2020 is a Saturday. */
  lemma WeekdayExamples()
    ensures Weekday(Anchor) == Sunday
    ensures Weekday(Date(2019, 8, 5)) == Monday
    ensures Weekday(Date(2019, 8, 25)) == Sunday
    ensures Weekday(Date(2019, 8, 31)) == Saturday
    ensures Weekday(Date(2019, 10, 1)) == Tuesday
    ensures Weekday(Date(2020, 2, 29)) == Saturday
  {
  }

  predicate AllValid(days: seq<Date>) {
    forall i :: 0 <= i < |days| ==> days[i].Valid()
  }

  /** Each day of `days` is the day after the one before it. */
  predicate Consecutive(days: seq<Date>)
    requires AllValid(days)
  {
    forall i {:trigger Next(days[i])} :: 0 <= i < |days| - 1 ==> days[i + 1] == Next(days[i])
  }

  /** Along successive days, day numbers and weekdays advance by one per step. */
  lemma ConsecutiveDayNumbers(days: seq<Date>, i: int)
    requires AllValid(days) && Consecutive(days) && 0 <= i < |days|
    ensures DayNumber(days[i]) == DayNumber(days[0]) + i
    ensures Weekday(days[i]) == (Weekday(days[0]) + i) % 7
  {
    ConsecutiveDayNumber(days, i);
    WeekdayAfter(days[0], days[i], i);
  }

  lemma {:induction false} ConsecutiveDayNumber(days: seq<Date>, i: int)
    requires AllValid(days) && Consecutive(days) && 0 <= i < |days|
    ensures DayNumber(days[i]) == DayNumber(days[0]) + i
  {
    if i > 0 {
      ConsecutiveDayNumber(days, i - 1);
      assert days[i] == Next(days[i - 1]);
      NextDayNumberStep(days[i - 1]);
    }
  }

  /** A date i days after another falls i weekdays further on. */
  lemma WeekdayAfter(a: Date, b: Date, i: int)
    requires a.Valid() && b.Valid() && DayNumber(b) == DayNumber(a) + i
    ensures Weekday(b) == (Weekday(a) + i) % 7
  {
    WeekdayAdvance(DayNumber(a) - DayNumber(Anchor), i);
  }

  lemma ConsecutiveSlice(days: seq<Date>, lo: int, hi: int)
    requires AllValid(days) && Consecutive(days) && 0 <= lo <= hi <= |days|
    ensures AllValid(days[lo..hi]) && Consecutive(days[lo..hi])
  {
    var s := days[lo..hi];
    forall i | 0 < i < |s| ensures s[i] == Next(s[i - 1]) {
      assert s[i] == days[lo + i] && s[i - 1] == days[lo + i - 1];
    }
  }

  /** The `n` successive days from `start`: the finite form of the endless
      day sequence that `take` draws its days from. */
  function DaysFrom(start: Date, n: nat): (days: seq<Date>)
    requires start.Valid()
    ensures |days| == n && AllValid(days) && Consecutive(days)
    ensures n > 0 ==> days[0] == start
    decreases n
  {
    if n == 0 then []
    else
      var rest := DaysFrom(Next(start), n - 1);
      assert forall i :: 0 < i < n ==> ([start] + rest)[i] == rest[i - 1];
      [start] + rest
  }

  /** A run of successive days is fixed by its first day and its length. */
  lemma {:induction false} ConsecutiveIsDaysFrom(days: seq<Date>)
    requires |days| > 0 && AllValid(days) && Consecutive(days)
    ensures days == DaysFrom(days[0], |days|)
    decreases |days|
  {
    if |days| > 1 {
      ConsecutiveSlice(days, 1, |days|);
      assert days[1..|days|] == days[1..];
      assert days[1] == Next(days[0]);
      ConsecutiveIsDaysFrom(days[1..]);
      assert days == [days[0]] + days[1..];
    }
  }

  /** Taking n days from a longer run of successive days gives the n days
      from the same start. */
  lemma TakeDaysFrom(start: Date, n: nat, m: nat)
    requires start.Valid() && n <= m
    ensures Take(n, DaysFrom(start, m)) == DaysFrom(start, n)
  {
    var all := DaysFrom(start, m);
    var taken := Take(n, all);
    if n > 0 {
      ConsecutiveSlice(all, 0, n);
      ConsecutiveIsDaysFrom(all[0..n]);
      assert taken == all[..n] == all[0..n];
    }
  }

  // ---------------------------------------------------------------------------
  // Comparisons

  /** Year, then month, then day: the order the comparisons promise. */
  predicate Precedes(a: Date, b: Date) {
    a.year < b.year
    || (a.year == b.year && a.month < b.month)
    || (a.year == b.year && a.month == b.month && a.day < b.day)
  }

  /** `compareDates(a, b)`: -1 when a is earlier, 1 when a is later, 0 when equal. */
  function CompareDates(a: Date, b: Date): (r: int)
    ensures r == -1 <==> Precedes(a, b)
    ensures r == 1 <==> Precedes(b, a)
    ensures r == 0 <==> a == b
  {
    if a.year != b.year then (if a.year < b.year then -1 else 1)
    else if a.month != b.month then (if a.month < b.month then -1 else 1)
    else if a.day != b.day then (if a.day < b.day then -1 else 1)
    else 0
  }

  lemma CompareAntisymmetric(a: Date, b: Date)
    ensures CompareDates(a, b) == -CompareDates(b, a)
  {
  }

  lemma PrecedesTransitive(a: Date, b: Date, c: Date)
    requires Precedes(a, b) && Precedes(b, c)
    ensures Precedes(a, c)
  {
  }

  /** On valid dates the lexicographic order is the order of day numbers, so
      `compareDates` agrees with counting days. */
  lemma PrecedesIsEarlier(a: Date, b: Date)
    requires a.Valid() && b.Valid()
    ensures Precedes(a, b) <==> DayNumber(a) < DayNumber(b)
    ensures a == b <==> DayNumber(a) == DayNumber(b)
  {
    DayNumberWithinYear(a);
    DayNumberWithinYear(b);
    if a.year < b.year {
      DaysBeforeYearMonotone(a.year + 1, b.year);
      DaysBeforeYearStep(a.year);
    } else if b.year < a.year {
      DaysBeforeYearMonotone(b.year + 1, a.year);
      DaysBeforeYearStep(b.year);
    } else if a.month < b.month {
      MonthEndsBeforeLaterMonth(a.year, a.month, b.month);
    } else if b.month < a.month {
      MonthEndsBeforeLaterMonth(a.year, b.month, a.month);
    }
  }

  lemma MonthEndsBeforeLaterMonth(year: int, m: int, n: int)
    requires 1 <= m < n <= 12
    ensures DaysBeforeMonth(year, m) + MonthLength(year, m) <= DaysBeforeMonth(year, n)
  {
  }

  /** `isBefore(a, b)`: strictly earlier; false on equal dates. */
  function IsBefore(a: Date, b: Date): (r: bool)
    ensures r <==> Precedes(a, b)
    ensures r ==> a != b && !Precedes(b, a)
  {
    CompareDates(a, b) == -1
  }

  /** `isAfter(a, b)`: strictly later; false on equal dates. */
  function IsAfter(a: Date, b: Date): (r: bool)
    ensures r <==> Precedes(b, a)
    ensures r ==> a != b && !Precedes(a, b)
  {
    CompareDates(a, b) == 1
  }

  /** `isSame(a, b)`: the same calendar date. */
  function IsSame(a: Date, b: Date): (r: bool)
    ensures r <==> a == b
  {
    CompareDates(a, b) == 0
  }

  /** `isBetween(d, start, end, inclusive)`: strictly inside the range, or
      inside including both ends. The ends are not swapped: with start after
      end the answer is always false. */
  function IsBetween(d: Date, start: Date, end: Date, inclusive: bool): (r: bool)
    ensures inclusive ==> (r <==> !Precedes(d, start) && !Precedes(end, d))
    ensures !inclusive ==> (r <==> Precedes(start, d) && Precedes(d, end))
    ensures Precedes(end, start) ==> !r
  {
    if inclusive then !IsBefore(d, start) && !IsAfter(d, end)
    else IsAfter(d, start) && IsBefore(d, end)
  }

  /** On valid dates, `isBetween` is a comparison of day numbers. */
  lemma IsBetweenByDayNumber(d: Date, start: Date, end: Date, inclusive: bool)
    requires d.Valid() && start.Valid() && end.Valid()
    ensures IsBetween(d, start, end, inclusive) <==>
      if inclusive then DayNumber(start) <= DayNumber(d) <= DayNumber(end)
      else DayNumber(start) < DayNumber(d) < DayNumber(end)
  {
    PrecedesIsEarlier(d, start);
    PrecedesIsEarlier(start, d);
    PrecedesIsEarlier(d, end);
    PrecedesIsEarlier(end, d);
  }

  /** `minDate(dates)`: an earliest element; an empty list is an error. */
  function MinDate(dates: seq<Date>): (r: Result<Date>)
    ensures r.Ok? <==> |dates| > 0
    ensures r.Ok? ==> r.value in dates
    ensures r.Ok? ==> forall x :: x in dates ==> !Precedes(x, r.value)
  {
    if |dates| == 0 then Err(InvalidArgument)
    else if |dates| == 1 then Ok(dates[0])
    else
      var rest := MinDate(dates[1..]).value;
      assert forall x :: x in dates ==> x == dates[0] || x in dates[1..];
      if IsBefore(rest, dates[0]) then Ok(rest) else Ok(dates[0])
  }

  /** `maxDate(dates)`: a latest element; an empty list is an error. */
  function MaxDate(dates: seq<Date>): (r: Result<Date>)
    ensures r.Ok? <==> |dates| > 0
    ensures r.Ok? ==> r.value in dates
    ensures r.Ok? ==> forall x :: x in dates ==> !Precedes(r.value, x)
  {
    if |dates| == 0 then Err(InvalidArgument)
    else if |dates| == 1 then Ok(dates[0])
    else
      var rest := MaxDate(dates[1..]).value;
      assert forall x :: x in dates ==> x == dates[0] || x in dates[1..];
      if IsAfter(rest, dates[0]) then Ok(rest) else Ok(dates[0])
  }

  /** The comparisons the calendar tests pin down. */
  lemma ComparisonExamples()
    ensures CompareDates(Date(2019, 1, 1), Date(2019, 1, 2)) == -1
    ensures CompareDates(Date(2019, 1, 1), Date(2019, 2, 1)) == -1
    ensures CompareDates(Date(2019, 1, 1), Date(2020, 1, 1)) == -1
    ensures CompareDates(Date(2019, 1, 2), Date(2019, 1, 1)) == 1
    ensures CompareDates(Date(2019, 2, 1), Date(2019, 1, 1)) == 1
    ensures CompareDates(Date(2019, 1, 1), Date(2018, 1, 1)) == 1
    ensures CompareDates(Date(2019, 1, 1), Date(2019, 1, 1)) == 0
    ensures IsBefore(Date(2018, 10, 2), Date(2019, 9, 1)) && !IsBefore(Date(2019, 9, 1), Date(2019, 9, 1))
    ensures IsAfter(Date(2020, 8, 1), Date(2019, 9, 2)) && !IsAfter(Date(2019, 9, 1), Date(2019, 9, 1))
    ensures IsSame(Date(2019, 9, 1), Date(2019, 9, 1)) && !IsSame(Date(2019, 9, 1), Date(2020, 9, 1))
  {
  }

  /** `isBetween` on the days 2019-09-01 to 2019-09-04. */
  lemma IsBetweenExamples()
    ensures IsBetween(Date(2019, 9, 2), Date(2019, 9, 1), Date(2019, 9, 3), false)
    ensures !IsBetween(Date(2019, 9, 2), Date(2019, 9, 3), Date(2019, 9, 1), false)
    ensures IsBetween(Date(2019, 9, 1), Date(2019, 9, 1), Date(2019, 9, 3), true)
    ensures IsBetween(Date(2019, 9, 3), Date(2019, 9, 1), Date(2019, 9, 3), true)
    ensures !IsBetween(Date(2019, 9, 1), Date(2019, 9, 2), Date(2019, 9, 3), true)
    ensures !IsBetween(Date(2019, 9, 4), Date(2019, 9, 2), Date(2019, 9, 3), true)
  {
  }

  /** The earliest and the latest of three days, wherever they stand. */
  lemma MinMaxExamples()
    ensures MinDate([Date(2019, 9, 1), Date(2019, 9, 3), Date(2019, 9, 2)]) == Ok(Date(2019, 9, 1))
    ensures MinDate([Date(2019, 9, 3), Date(2019, 9, 1), Date(2019, 9, 2)]) == Ok(Date(2019, 9, 1))
    ensures MinDate([Date(2019, 9, 3), Date(2019, 9, 2), Date(2019, 9, 1)]) == Ok(Date(2019, 9, 1))
    ensures MaxDate([Date(2019, 9, 3), Date(2019, 9, 1), Date(2019, 9, 2)]) == Ok(Date(2019, 9, 3))
    ensures MaxDate([Date(2019, 9, 1), Date(2019, 9, 3), Date(2019, 9, 2)]) == Ok(Date(2019, 9, 3))
    ensures MaxDate([Date(2019, 9, 1), Date(2019, 9, 2), Date(2019, 9, 3)]) == Ok(Date(2019, 9, 3))
  {
  }

  /** `isToday(date)`, with the current date passed in as `now`. */
  function IsToday(date: Date, now: Date): (r: bool)
    ensures r <==> date == now
  {
    IsSame(date, now)
  }

  /** `isOutsideMonth(month, date)`: compares the month only, not the year. */
  function IsOutsideMonth(month: int, date: Date): (r: bool)
    ensures r <==> date.month != month
  {
    date.month != month
  }

  // ---------------------------------------------------------------------------
  // Array conversions

  /** `toArray(date)`: [year, month, day]. */
  function ToArray(d: Date): (t: seq<int>)
    ensures |t| == 3 && t[0] == d.year && t[1] == d.month && t[2] == d.day
  {
    [d.year, d.month, d.day]
  }

  /** `fromArray([year, month, day])`; anything but three numbers naming a real
      calendar date is an error. */
  function FromArray(t: seq<int>): (r: Result<Date>)
    ensures r.Ok? <==> |t| == 3 && Date(t[0], t[1], t[2]).Valid()
    ensures r.Ok? ==> r.value == Date(t[0], t[1], t[2]) && r.value.Valid()
  {
    if |t| != 3 then Err(InvalidArgument)
    else
      var d := Date(t[0], t[1], t[2]);
      if d.Valid() then Ok(d) else Err(InvalidArgument)
  }

  /** Converting a date to an array and back gives the same date, and only
      valid dates come back. */
  lemma FromArrayToArray(d: Date)
    ensures FromArray(ToArray(d)) == if d.Valid() then Ok(d) else Err(InvalidArgument)
  {
  }

  /** An accepted array is exactly the array of the date it produced. */
  lemma ToArrayFromArray(t: seq<int>)
    requires FromArray(t).Ok?
    ensures ToArray(FromArray(t).value) == t
  {
  }

  /** The conversions on 1 September 2019 (month numbers here are 1-based),
      and the error for a day that does not exist or an array of the wrong
      length. */
  lemma ArrayExamples()
    ensures ToArray(Date(2019, 9, 1)) == [2019, 9, 1]
    ensures FromArray([2019, 9, 1]) == Ok(Date(2019, 9, 1))
    ensures ToArray(FromArray([2019, 9, 1]).value) == [2019, 9, 1]
    ensures FromArray([2019, 9, 31]) == Err(InvalidArgument)
    ensures FromArray([2019, 9]) == Err(InvalidArgument)
  {
  }
}
