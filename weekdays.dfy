/** Weekday metadata: the canonical weekday list, weekday orderings for a
    configurable first day of week and right-to-left layout, weekday indexes,
    first/last-day-of-week tests, and the weekday and month name lists with
    the host locale's formatter passed in as a function. */
module WeekDays {
  import opened Seqs
  import opened CalendarDates

  /** `WEEKDAYS`: the weekday ids in the platform's order, Sunday first. */
  const Weekdays: seq<WeekdayId> := [Sunday, Monday, Tuesday, Wednesday, Thursday, Friday, Saturday]

  /** `WEEKDAYS[i]` is the weekday numbered `i`, and the week starting on
      Sunday, left to right, is `WEEKDAYS` itself. */
  lemma WeekdaysInPlatformOrder()
    ensures |Weekdays| == 7
    ensures forall i :: 0 <= i < |Weekdays| ==> Weekdays[i] == i
    ensures OrderWeekDays(Sunday, false) == Weekdays
  {
  }

  /** `orderWeekDays(firstDayOfWeek, {isRTL})`: the week starting at
      `firstDayOfWeek`, reversed when laid out right to left. */
  function OrderWeekDays(firstDayOfWeek: WeekdayId, isRTL: bool): (order: seq<WeekdayId>)
    ensures |order| == 7
    ensures !isRTL ==> forall i :: 0 <= i < 7 ==> order[i] == (firstDayOfWeek + i) % 7
    ensures isRTL ==> forall i :: 0 <= i < 7 ==> order[i] == (firstDayOfWeek + 6 - i) % 7
  {
    var ltr := seq(7, i requires 0 <= i < 7 => (firstDayOfWeek + i) % 7);
    if isRTL then Reverse(ltr) else ltr
  }

  /** The left-to-right order is `WEEKDAYS` rotated left by the first day's
      number, and the right-to-left order is its reverse. */
  lemma {:induction false} OrderWeekDaysIsRotation(firstDayOfWeek: WeekdayId)
    ensures OrderWeekDays(firstDayOfWeek, false) == Rotate(Weekdays, -(firstDayOfWeek as int))
    ensures OrderWeekDays(firstDayOfWeek, true) == Reverse(Rotate(Weekdays, -(firstDayOfWeek as int)))
  {
    var ltr := Rotate(Weekdays, -(firstDayOfWeek as int));
    assert Weekdays == [0, 1, 2, 3, 4, 5, 6];
    forall i | 0 <= i < 7 ensures ltr[i] == (firstDayOfWeek + i) % 7 {
      assert ltr[i] == Weekdays[(i + firstDayOfWeek) % 7];
    }
    assert OrderWeekDays(firstDayOfWeek, false) == ltr;
  }

  /** Each ordering lists every weekday exactly once. */
  lemma OrderWeekDaysIsPermutation(firstDayOfWeek: WeekdayId, isRTL: bool)
    ensures forall w: int :: 0 <= w < 7 ==> w in OrderWeekDays(firstDayOfWeek, isRTL)
    ensures var order := OrderWeekDays(firstDayOfWeek, isRTL);
      forall i, j :: 0 <= i < j < 7 ==> order[i] != order[j]
  {
    var order := OrderWeekDays(firstDayOfWeek, isRTL);
    forall w: int | 0 <= w < 7 ensures w in order {
      var i := if isRTL then 6 - (w - firstDayOfWeek) % 7 else (w - firstDayOfWeek) % 7;
      PositionInWeek(firstDayOfWeek, w, (w - firstDayOfWeek) % 7);
      assert order[i] == w;
    }
    forall i, j | 0 <= i < j < 7 ensures order[i] != order[j] {
      if isRTL {
        DistinctInWeek(firstDayOfWeek, 6 - j, 6 - i);
      } else {
        DistinctInWeek(firstDayOfWeek, i, j);
      }
    }
  }

  lemma DistinctInWeek(firstDayOfWeek: WeekdayId, i: int, j: int)
    requires 0 <= i < j < 7
    ensures (firstDayOfWeek + i) % 7 != (firstDayOfWeek + j) % 7
  {
    var a, b := firstDayOfWeek + i, firstDayOfWeek + j;
    assert a % 7 == (if a < 7 then a else a - 7);
    assert b % 7 == (if b < 7 then b else b - 7);
  }

  /** `getWeekDayIndex(firstDayOfWeek, weekday)`: the position of `weekday` in
      the week that starts at `firstDayOfWeek`. */
  function GetWeekDayIndex(firstDayOfWeek: WeekdayId, weekday: WeekdayId): (index: nat)
    ensures index < 7
    ensures index == (weekday - firstDayOfWeek) % 7
  {
    var order := OrderWeekDays(firstDayOfWeek, false);
    assert order[(weekday - firstDayOfWeek) % 7] == weekday;
    var index := IndexOf(order, weekday);
    PositionInWeek(firstDayOfWeek, weekday, index);
    index
  }

  lemma PositionInWeek(firstDayOfWeek: WeekdayId, weekday: WeekdayId, index: int)
    requires 0 <= index < 7
    ensures (firstDayOfWeek + index) % 7 == weekday <==> index == (weekday - firstDayOfWeek) % 7
  {
    var a, b := firstDayOfWeek + index, weekday - firstDayOfWeek;
    assert a % 7 == (if a < 7 then a else a - 7);
    assert b % 7 == (if b >= 0 then b else b + 7);
  }

  /** `isFirstDayOfWeek(firstDayOfWeek, date)`: the date falls on `firstDayOfWeek`. */
  function IsFirstDayOfWeek(firstDayOfWeek: WeekdayId, date: Date): (r: bool)
    requires date.Valid()
    ensures r <==> Weekday(date) == firstDayOfWeek
  {
    var w := Weekday(date);
    PositionInWeek(firstDayOfWeek, w, 0);
    GetWeekDayIndex(firstDayOfWeek, w) == 0
  }

  /** `isLastDayOfWeek(firstDayOfWeek, date, {isRTL})`: the date falls on the
      weekday before `firstDayOfWeek`. The right-to-left flag does not change
      which weekday is last. */
  function IsLastDayOfWeek(firstDayOfWeek: WeekdayId, date: Date, isRTL: bool): (r: bool)
    requires date.Valid()
    ensures r <==> Weekday(date) == (firstDayOfWeek + 6) % 7
  {
    var w := Weekday(date);
    PositionInWeek(firstDayOfWeek, w, 6);
    GetWeekDayIndex(firstDayOfWeek, w) == 6
  }

  /** `getWeekDays({firstDayOfWeek, isRTL})`: the short weekday names in
      display order; `shortName` stands for the host locale's formatter. */
  function GetWeekDays<Name>(shortName: WeekdayId -> Name, firstDayOfWeek: WeekdayId, isRTL: bool): (names: seq<Name>)
    ensures |names| == 7
    ensures !isRTL ==> forall i :: 0 <= i < 7 ==> names[i] == shortName((firstDayOfWeek + i) % 7)
    ensures isRTL ==> forall i :: 0 <= i < 7 ==> names[i] == shortName((firstDayOfWeek + 6 - i) % 7)
  {
    var order := OrderWeekDays(firstDayOfWeek, isRTL);
    seq(7, i requires 0 <= i < 7 => shortName(order[i]))
  }

  /** One entry of `getMonths()`: the 1-based month order and its name. */
  datatype MonthEntry<Name> = MonthEntry(order: int, month: Name)

  /** `getMonths()`: the twelve months in calendar order; `monthName` stands
      for the host locale's formatter. */
  function GetMonths<Name>(monthName: int -> Name): (months: seq<MonthEntry<Name>>)
    ensures |months| == 12
    ensures forall i :: 0 <= i < 12 ==> months[i].order == i + 1 && months[i].month == monthName(i + 1)
  {
    seq(12, i requires 0 <= i < 12 => MonthEntry(i + 1, monthName(i + 1)))
  }

  // ---------------------------------------------------------------------------
  // The orderings and indexes the calendar tests pin down

  lemma RotateExamples()
    ensures Rotate([0, 1, 2, 3, 4, 5, 6], -2) == [2, 3, 4, 5, 6, 0, 1]
    ensures Rotate([0, 1, 2, 3, 4, 5, 6], 2) == [5, 6, 0, 1, 2, 3, 4]
  {
    var s := [0, 1, 2, 3, 4, 5, 6];
    var left, right := Rotate(s, -2), Rotate(s, 2);
    assert left[0] == s[2] && left[1] == s[3] && left[2] == s[4] && left[3] == s[5];
    assert left[4] == s[6] && left[5] == s[0] && left[6] == s[1];
    assert right[0] == s[5] && right[1] == s[6] && right[2] == s[0] && right[3] == s[1];
    assert right[4] == s[2] && right[5] == s[3] && right[6] == s[4];
  }

  lemma OrderWeekDaysExamples()
    ensures OrderWeekDays(Monday, false) == [Monday, Tuesday, Wednesday, Thursday, Friday, Saturday, Sunday]
    ensures OrderWeekDays(Monday, true) == [Sunday, Saturday, Friday, Thursday, Wednesday, Tuesday, Monday]
    ensures OrderWeekDays(Wednesday, false) == [Wednesday, Thursday, Friday, Saturday, Sunday, Monday, Tuesday]
    ensures OrderWeekDays(Sunday, true) == [Saturday, Friday, Thursday, Wednesday, Tuesday, Monday, Sunday]
  {
  }

  lemma WeekDayIndexExamples()
    ensures GetWeekDayIndex(Sunday, Monday) == 1
    ensures GetWeekDayIndex(Monday, Sunday) == 6
  {
  }

  /** The weekday tests of the calendar: 2019-08-04 is a Sunday, 2019-08-05 a
      Monday, 2019-08-31 a Saturday and 2019-08-25 a Sunday. */
  lemma FirstAndLastDayExamples()
    ensures IsFirstDayOfWeek(Sunday, Date(2019, 8, 4))
    ensures IsFirstDayOfWeek(Monday, Date(2019, 8, 5))
    ensures IsLastDayOfWeek(Sunday, Date(2019, 8, 31), false)
    ensures IsLastDayOfWeek(Sunday, Date(2019, 8, 31), true)
    ensures IsLastDayOfWeek(Monday, Date(2019, 8, 25), false)
  {
  }
}
