/** `groupByWeeks`: the grid cut into week rows at every day that falls on
    the first day of the week, optionally padded with empty cells to whole
    weeks and mirrored for right-to-left layout. */
module WeekGrouping {
  import opened Wrappers
  import opened Seqs
  import opened CalendarDates
  import opened WeekDays
  import opened MonthGrid

  /** Where `d` sits in the week that starts at `firstDayOfWeek`: 0 to 6, the
      `getWeekDayIndex` of its weekday (`WeekPositionIsWeekDayIndex`). */
  function WeekPosition(firstDayOfWeek: WeekdayId, d: Date): (p: nat)
    requires d.Valid()
    ensures p < 7
  {
    (Weekday(d) - firstDayOfWeek) % 7
  }

  /** The week position agrees with `getWeekDayIndex` of the day's weekday. */
  lemma WeekPositionIsWeekDayIndex(firstDayOfWeek: WeekdayId, d: Date)
    requires d.Valid()
    ensures WeekPosition(firstDayOfWeek, d) == GetWeekDayIndex(firstDayOfWeek, Weekday(d))
  {
  }

  /** The first index at or after `i` whose day falls on `firstDayOfWeek`, or
      |days| when there is none. */
  function NextWeekStart(firstDayOfWeek: WeekdayId, days: seq<Date>, i: nat): (e: nat)
    requires AllValid(days) && i <= |days|
    ensures i <= e <= |days|
    ensures e < |days| ==> Weekday(days[e]) == firstDayOfWeek
    ensures forall j :: i <= j < e ==> Weekday(days[j]) != firstDayOfWeek
    decreases |days| - i
  {
    if i == |days| || Weekday(days[i]) == firstDayOfWeek then i
    else NextWeekStart(firstDayOfWeek, days, i + 1)
  }

  /** A non-empty run of valid days that passes no week start after its
      first day, and that opens on one unless it is the leading row. */
  predicate WeekRow(firstDayOfWeek: WeekdayId, row: seq<Date>, leading: bool) {
    && |row| > 0 && AllValid(row)
    && (!leading ==> Weekday(row[0]) == firstDayOfWeek)
    && forall j :: 0 < j < |row| ==> Weekday(row[j]) != firstDayOfWeek
  }

  /** The rows of `groupByWeeks` before any padding: together they are the
      input in order, none is empty, every row but the first starts on
      `firstDayOfWeek`, and no row holds a week start after its first day. */
  function SplitWeeks(firstDayOfWeek: WeekdayId, days: seq<Date>): (rows: seq<seq<Date>>)
    requires AllValid(days)
    ensures Flatten(rows) == days
    ensures forall r :: 0 <= r < |rows| ==> |rows[r]| > 0 && AllValid(rows[r])
    decreases |days|
  {
    if |days| == 0 then []
    else
      var e := NextWeekStart(firstDayOfWeek, days, 1);
      var rest := SplitWeeks(firstDayOfWeek, days[e..]);
      assert days[..e] + days[e..] == days;
      [days[..e]] + rest
  }

  /** Rows that open on a week start, except perhaps the first, and pass no
      week start after their first day. */
  predicate RowsAreWeeks(firstDayOfWeek: WeekdayId, rows: seq<seq<Date>>) {
    forall r :: 0 <= r < |rows| ==> WeekRow(firstDayOfWeek, rows[r], r == 0)
  }

  /** Every row of the split is a week row. */
  lemma {:induction false} SplitRowsAreWeeks(firstDayOfWeek: WeekdayId, days: seq<Date>)
    requires AllValid(days)
    ensures RowsAreWeeks(firstDayOfWeek, SplitWeeks(firstDayOfWeek, days))
    decreases |days|
  {
    var rows := SplitWeeks(firstDayOfWeek, days);
    if |days| > 0 {
      var e := NextWeekStart(firstDayOfWeek, days, 1);
      var tail := SplitWeeks(firstDayOfWeek, days[e..]);
      assert rows == [days[..e]] + tail;
      SplitRowsAreWeeks(firstDayOfWeek, days[e..]);
      forall r | 0 <= r < |rows| ensures WeekRow(firstDayOfWeek, rows[r], r == 0) {
        if r == 0 {
          assert rows[0] == days[..e];
        } else {
          assert rows[r] == tail[r - 1];
        }
      }
    }
  }

  /** Cut points this way are forced: any rows with the properties above are
      the rows `SplitWeeks` produces. */
  lemma {:induction false} SplitWeeksUnique(firstDayOfWeek: WeekdayId, days: seq<Date>, rows: seq<seq<Date>>)
    requires AllValid(days) && Flatten(rows) == days && RowsAreWeeks(firstDayOfWeek, rows)
    ensures rows == SplitWeeks(firstDayOfWeek, days)
    decreases |rows|
  {
    if |rows| > 0 {
      var row := rows[0];
      var tail := rows[1..];
      assert days == row + Flatten(tail);
      var e := NextWeekStart(firstDayOfWeek, days, 1);
      forall j | 1 <= j < |row| ensures Weekday(days[j]) != firstDayOfWeek {
        assert days[j] == row[j];
      }
      if |tail| > 0 {
        assert Flatten(tail) == tail[0] + Flatten(tail[1..]);
        assert days[|row|] == tail[0][0];
      }
      assert e == |row|;
      assert days[..e] == row && days[e..] == Flatten(tail);
      SplitWeeksUnique(firstDayOfWeek, days[e..], tail);
    }
  }

  /** Every row is a run of successive valid days. */
  predicate RowsConsecutive(rows: seq<seq<Date>>) {
    forall r :: 0 <= r < |rows| ==> AllValid(rows[r]) && Consecutive(rows[r])
  }

  /** Every row but the last ends on the last day of the week. */
  predicate RowsEndWeeks(firstDayOfWeek: WeekdayId, rows: seq<seq<Date>>) {
    forall r :: 0 <= r < |rows| - 1 ==>
      |rows[r]| > 0 && AllValid(rows[r]) && WeekPosition(firstDayOfWeek, rows[r][|rows[r]| - 1]) == 6
  }

  /** Over successive days the rows are runs of successive days. */
  lemma {:induction false} SplitRowsConsecutive(firstDayOfWeek: WeekdayId, days: seq<Date>)
    requires AllValid(days) && Consecutive(days)
    ensures RowsConsecutive(SplitWeeks(firstDayOfWeek, days))
    decreases |days|
  {
    var rows := SplitWeeks(firstDayOfWeek, days);
    if |days| > 0 {
      var e := NextWeekStart(firstDayOfWeek, days, 1);
      var tail := SplitWeeks(firstDayOfWeek, days[e..]);
      assert rows == [days[..e]] + tail;
      ConsecutiveSlice(days, 0, e);
      ConsecutiveSlice(days, e, |days|);
      assert days[e..|days|] == days[e..];
      SplitRowsConsecutive(firstDayOfWeek, days[e..]);
      forall r | 0 < r < |rows| ensures AllValid(rows[r]) && Consecutive(rows[r]) {
        assert rows[r] == tail[r - 1];
      }
    }
  }

  /** Over successive days every row but the last ends its week: the day
      after it starts the next one. */
  lemma {:induction false} SplitRowsEndWeeks(firstDayOfWeek: WeekdayId, days: seq<Date>)
    requires AllValid(days) && Consecutive(days)
    ensures RowsEndWeeks(firstDayOfWeek, SplitWeeks(firstDayOfWeek, days))
    decreases |days|
  {
    if |days| > 0 {
      var e := NextWeekStart(firstDayOfWeek, days, 1);
      var tail := SplitWeeks(firstDayOfWeek, days[e..]);
      assert SplitWeeks(firstDayOfWeek, days) == [days[..e]] + tail;
      if e < |days| {
        ConsecutiveSuffix(days, e);
        SplitRowsEndWeeks(firstDayOfWeek, days[e..]);
        DayBeforeWeekStart(firstDayOfWeek, days, e);
        assert days[..e][e - 1] == days[e - 1];
        ConsRowsEndWeeks(firstDayOfWeek, days[..e], tail);
      } else {
        assert tail == [];
      }
    }
  }

  /** A row that ends its week, put before rows that end their weeks. */
  lemma ConsRowsEndWeeks(firstDayOfWeek: WeekdayId, row: seq<Date>, rows: seq<seq<Date>>)
    requires |row| > 0 && AllValid(row) && WeekPosition(firstDayOfWeek, row[|row| - 1]) == 6
    requires RowsEndWeeks(firstDayOfWeek, rows)
    ensures RowsEndWeeks(firstDayOfWeek, [row] + rows)
  {
    var all := [row] + rows;
    forall r | 0 <= r < |all| - 1
      ensures |all[r]| > 0 && AllValid(all[r]) && WeekPosition(firstDayOfWeek, all[r][|all[r]| - 1]) == 6
    {
      if r > 0 {
        assert all[r] == rows[r - 1];
      }
    }
  }

  /** In a run of successive days, the day before one on `firstDayOfWeek`
      is the last of its week. */
  lemma DayBeforeWeekStart(firstDayOfWeek: WeekdayId, days: seq<Date>, e: nat)
    requires AllValid(days) && Consecutive(days) && 0 < e < |days|
    requires Weekday(days[e]) == firstDayOfWeek
    ensures WeekPosition(firstDayOfWeek, days[e - 1]) == 6
  {
    assert days[e] == Next(days[e - 1]);
    NextDayNumber(days[e - 1]);
    LastBeforeWeekStart(firstDayOfWeek, Weekday(days[e - 1]));
  }

  /** The day before a week start is the last day of the week. */
  lemma LastBeforeWeekStart(firstDayOfWeek: WeekdayId, w: WeekdayId)
    requires (w + 1) % 7 == firstDayOfWeek
    ensures (w - firstDayOfWeek) % 7 == 6
  {
    assert (w + 1) % 7 == (if w + 1 < 7 then w + 1 else 0);
    var b := w - firstDayOfWeek;
    assert b % 7 == (if b >= 0 then b else b + 7);
  }

  /** Inside a run of successive days that passes no week start after its
      first day, each day sits one place further into the week than the one
      before. */
  lemma {:induction false} RowWithinWeek(firstDayOfWeek: WeekdayId, row: seq<Date>, j: nat)
    requires AllValid(row) && Consecutive(row) && j < |row|
    requires forall i :: 0 < i < |row| ==> Weekday(row[i]) != firstDayOfWeek
    ensures WeekPosition(firstDayOfWeek, row[j]) == WeekPosition(firstDayOfWeek, row[0]) + j
  {
    if j > 0 {
      RowWithinWeek(firstDayOfWeek, row, j - 1);
      assert row[j] == Next(row[j - 1]);
      PositionAfter(firstDayOfWeek, row[j - 1]);
    }
  }

  /** The day after `d`, unless it starts a week, is one place further on in
      the week. */
  lemma PositionAfter(firstDayOfWeek: WeekdayId, d: Date)
    requires d.Valid() && Weekday(Next(d)) != firstDayOfWeek
    ensures WeekPosition(firstDayOfWeek, Next(d)) == WeekPosition(firstDayOfWeek, d) + 1
  {
    NextDayNumber(d);
    PositionStep(firstDayOfWeek, Weekday(d), Weekday(Next(d)));
  }

  lemma PositionStep(firstDayOfWeek: WeekdayId, a: WeekdayId, b: WeekdayId)
    requires b == (a + 1) % 7 && b != firstDayOfWeek
    ensures (b - firstDayOfWeek) % 7 == (a - firstDayOfWeek) % 7 + 1
  {
    assert (a + 1) % 7 == (if a + 1 < 7 then a + 1 else 0);
    var x, y := a - firstDayOfWeek, b - firstDayOfWeek;
    assert x % 7 == (if x >= 0 then x else x + 7);
    assert y % 7 == (if y >= 0 then y else y + 7);
  }

  /** Such a run fits in the rest of its week. */
  lemma RowFitsWeek(firstDayOfWeek: WeekdayId, row: seq<Date>)
    requires AllValid(row) && Consecutive(row) && |row| > 0
    requires forall i :: 0 < i < |row| ==> Weekday(row[i]) != firstDayOfWeek
    ensures WeekPosition(firstDayOfWeek, row[|row| - 1]) == WeekPosition(firstDayOfWeek, row[0]) + |row| - 1
    ensures WeekPosition(firstDayOfWeek, row[0]) + |row| <= 7
  {
    RowWithinWeek(firstDayOfWeek, row, |row| - 1);
  }

  // ---------------------------------------------------------------------------
  // Cells

  /** `n` empty cells. */
  function Nulls(n: nat): (cells: seq<Option<Date>>)
    ensures |cells| == n && forall i :: 0 <= i < n ==> cells[i] == None
  {
    seq(n, i => None)
  }

  /** One filled cell per day. */
  function Present(days: seq<Date>): (cells: seq<Option<Date>>)
    ensures |cells| == |days|
  {
    seq(|days|, i requires 0 <= i < |days| => Some(days[i]))
  }

  lemma PresentAppend(a: seq<Date>, b: seq<Date>)
    ensures Present(a + b) == Present(a) + Present(b)
  {
  }

  /** `fillMissingDaysWithNull` on one row: empty cells for the weekdays of the
      row's week before its first day and after its last day. */
  function PadWeek(firstDayOfWeek: WeekdayId, row: seq<Date>): seq<Option<Date>>
    requires |row| > 0 && AllValid(row)
  {
    Nulls(WeekPosition(firstDayOfWeek, row[0])) + Present(row)
      + Nulls(6 - WeekPosition(firstDayOfWeek, row[|row| - 1]))
  }

  /** A padded row is a whole week: slot j is filled exactly when the row has
      a day at position j of the week, and the row's day i, which sits i
      places after its first day in the week, fills that day's slot. */
  lemma PadWeekSlots(firstDayOfWeek: WeekdayId, row: seq<Date>)
    requires |row| > 0 && AllValid(row) && Consecutive(row)
    requires forall i :: 0 < i < |row| ==> Weekday(row[i]) != firstDayOfWeek
    ensures |PadWeek(firstDayOfWeek, row)| == 7
    ensures WeekPosition(firstDayOfWeek, row[0]) + |row| <= 7
    ensures forall j :: 0 <= j < 7 ==>
      (PadWeek(firstDayOfWeek, row)[j].Some? <==>
        WeekPosition(firstDayOfWeek, row[0]) <= j < WeekPosition(firstDayOfWeek, row[0]) + |row|)
    ensures forall i :: 0 <= i < |row| ==>
      && WeekPosition(firstDayOfWeek, row[i]) == WeekPosition(firstDayOfWeek, row[0]) + i
      && PadWeek(firstDayOfWeek, row)[WeekPosition(firstDayOfWeek, row[0]) + i] == Some(row[i])
  {
    RowFitsWeek(firstDayOfWeek, row);
    forall i | 0 <= i < |row|
      ensures WeekPosition(firstDayOfWeek, row[i]) == WeekPosition(firstDayOfWeek, row[0]) + i
    {
      RowWithinWeek(firstDayOfWeek, row, i);
    }
  }

  /** The week position shown in display column c: the same column left to
      right, the mirrored one right to left. */
  function Column(isRTL: bool, c: int): int {
    if isRTL then 6 - c else c
  }

  /** The cells of one row as `groupByWeeks` renders them. */
  function WeekCells(firstDayOfWeek: WeekdayId, row: seq<Date>, isRTL: bool, fillMissingDaysWithNull: bool): seq<Option<Date>>
    requires |row| > 0 && AllValid(row)
  {
    var cells := if fillMissingDaysWithNull then PadWeek(firstDayOfWeek, row) else Present(row);
    if isRTL then Reverse(cells) else cells
  }

  /** Rows of days that can be rendered as cells. */
  predicate RenderableRows(rows: seq<seq<Date>>)
  {
    forall r :: 0 <= r < |rows| ==> |rows[r]| > 0 && AllValid(rows[r])
  }

  /** One list of cells per row. */
  function RenderRows(firstDayOfWeek: WeekdayId, rows: seq<seq<Date>>, isRTL: bool, fillMissingDaysWithNull: bool): (weeks: seq<seq<Option<Date>>>)
    requires RenderableRows(rows)
    ensures |weeks| == |rows|
  {
    if |rows| == 0 then []
    else
      [WeekCells(firstDayOfWeek, rows[0], isRTL, fillMissingDaysWithNull)]
        + RenderRows(firstDayOfWeek, rows[1..], isRTL, fillMissingDaysWithNull)
  }

  lemma {:induction false} RenderRowsAt(firstDayOfWeek: WeekdayId, rows: seq<seq<Date>>, isRTL: bool, fillMissingDaysWithNull: bool, r: nat)
    requires RenderableRows(rows) && r < |rows|
    ensures RenderRows(firstDayOfWeek, rows, isRTL, fillMissingDaysWithNull)[r]
      == WeekCells(firstDayOfWeek, rows[r], isRTL, fillMissingDaysWithNull)
  {
    if r > 0 {
      RenderRowsAt(firstDayOfWeek, rows[1..], isRTL, fillMissingDaysWithNull, r - 1);
    }
  }

  /** `groupByWeeks(firstDayOfWeek, days, {isRTL, fillMissingDaysWithNull})`:
      the rows of `SplitWeeks`, each rendered as cells. */
  function GroupByWeeks(firstDayOfWeek: WeekdayId, days: seq<Date>, isRTL: bool, fillMissingDaysWithNull: bool): (weeks: seq<seq<Option<Date>>>)
    requires AllValid(days)
    ensures |weeks| == |SplitWeeks(firstDayOfWeek, days)|
  {
    var rows := SplitWeeks(firstDayOfWeek, days);
    assert RenderableRows(rows);
    RenderRows(firstDayOfWeek, rows, isRTL, fillMissingDaysWithNull)
  }

  /** Row r of the cells renders row r of the split. */
  lemma GroupByWeeksRows(firstDayOfWeek: WeekdayId, days: seq<Date>, isRTL: bool, fillMissingDaysWithNull: bool, r: nat)
    requires AllValid(days) && r < |SplitWeeks(firstDayOfWeek, days)|
    ensures GroupByWeeks(firstDayOfWeek, days, isRTL, fillMissingDaysWithNull)[r]
      == WeekCells(firstDayOfWeek, SplitWeeks(firstDayOfWeek, days)[r], isRTL, fillMissingDaysWithNull)
  {
    RenderRowsAt(firstDayOfWeek, SplitWeeks(firstDayOfWeek, days), isRTL, fillMissingDaysWithNull, r);
  }

  /** Grouping emits the cells of the first week and then groups the rest. */
  lemma GroupByWeeksStep(firstDayOfWeek: WeekdayId, days: seq<Date>, isRTL: bool, fillMissingDaysWithNull: bool)
    requires AllValid(days) && |days| > 0
    ensures var e := NextWeekStart(firstDayOfWeek, days, 1);
      && AllValid(days[..e]) && AllValid(days[e..]) && 0 < e
      && GroupByWeeks(firstDayOfWeek, days, isRTL, fillMissingDaysWithNull)
        == [WeekCells(firstDayOfWeek, days[..e], isRTL, fillMissingDaysWithNull)]
           + GroupByWeeks(firstDayOfWeek, days[e..], isRTL, fillMissingDaysWithNull)
  {
    var e := NextWeekStart(firstDayOfWeek, days, 1);
    var rows := SplitWeeks(firstDayOfWeek, days);
    assert rows == [days[..e]] + SplitWeeks(firstDayOfWeek, days[e..]);
    assert rows[1..] == SplitWeeks(firstDayOfWeek, days[e..]);
  }

  /** Unpadded, a row's cells are its days, in reverse order right to left. */
  lemma GroupByWeeksUnpadded(firstDayOfWeek: WeekdayId, days: seq<Date>, isRTL: bool, r: nat)
    requires AllValid(days) && r < |SplitWeeks(firstDayOfWeek, days)|
    ensures GroupByWeeks(firstDayOfWeek, days, isRTL, false)[r]
      == Present(if isRTL then Reverse(SplitWeeks(firstDayOfWeek, days)[r]) else SplitWeeks(firstDayOfWeek, days)[r])
  {
    GroupByWeeksRows(firstDayOfWeek, days, isRTL, false, r);
    ReversePresent(SplitWeeks(firstDayOfWeek, days)[r]);
  }

  /** Right to left, every row is the left-to-right row reversed. */
  lemma GroupByWeeksMirrored(firstDayOfWeek: WeekdayId, days: seq<Date>, fillMissingDaysWithNull: bool, r: nat)
    requires AllValid(days) && r < |SplitWeeks(firstDayOfWeek, days)|
    ensures GroupByWeeks(firstDayOfWeek, days, true, fillMissingDaysWithNull)[r]
      == Reverse(GroupByWeeks(firstDayOfWeek, days, false, fillMissingDaysWithNull)[r])
  {
    GroupByWeeksRows(firstDayOfWeek, days, true, fillMissingDaysWithNull, r);
    GroupByWeeksRows(firstDayOfWeek, days, false, fillMissingDaysWithNull, r);
  }

  lemma ReversePresent(days: seq<Date>)
    ensures Reverse(Present(days)) == Present(Reverse(days))
  {
    var a, b := Reverse(Present(days)), Present(Reverse(days));
    forall i | 0 <= i < |days| ensures a[i] == b[i] {
      assert a[i] == Present(days)[|days| - 1 - i];
    }
  }

  /** A padded row as displayed: a column is filled exactly when the row has a
      day at the week position it shows, and each day of the row fills the
      column of its own week position, mirrored right to left. */
  lemma WeekCellsPadded(firstDayOfWeek: WeekdayId, row: seq<Date>, isRTL: bool)
    requires |row| > 0 && AllValid(row) && Consecutive(row)
    requires forall i :: 0 < i < |row| ==> Weekday(row[i]) != firstDayOfWeek
    ensures |WeekCells(firstDayOfWeek, row, isRTL, true)| == 7
    ensures forall c :: 0 <= c < 7 ==>
      (WeekCells(firstDayOfWeek, row, isRTL, true)[c].Some? <==>
        WeekPosition(firstDayOfWeek, row[0]) <= Column(isRTL, c) < WeekPosition(firstDayOfWeek, row[0]) + |row|)
    ensures forall i :: 0 <= i < |row| ==>
      WeekCells(firstDayOfWeek, row, isRTL, true)[Column(isRTL, WeekPosition(firstDayOfWeek, row[i]))] == Some(row[i])
  {
    PadWeekSlots(firstDayOfWeek, row);
    var padded := PadWeek(firstDayOfWeek, row);
    var cells := WeekCells(firstDayOfWeek, row, isRTL, true);
    assert cells == if isRTL then Reverse(padded) else padded;
    forall c | 0 <= c < 7 ensures cells[c] == padded[Column(isRTL, c)] {
    }
    forall i | 0 <= i < |row| ensures cells[Column(isRTL, WeekPosition(firstDayOfWeek, row[i]))] == Some(row[i]) {
      var j := WeekPosition(firstDayOfWeek, row[i]);
      assert Column(isRTL, Column(isRTL, j)) == j;
      assert cells[Column(isRTL, j)] == padded[j];
    }
  }

  /** Over successive days every padded row of `groupByWeeks` is such a week. */
  lemma GroupByWeeksPadded(firstDayOfWeek: WeekdayId, days: seq<Date>, isRTL: bool, r: nat)
    requires AllValid(days) && Consecutive(days)
    requires r < |SplitWeeks(firstDayOfWeek, days)|
    ensures GroupByWeeks(firstDayOfWeek, days, isRTL, true)[r] == WeekCells(firstDayOfWeek, SplitWeeks(firstDayOfWeek, days)[r], isRTL, true)
    ensures |GroupByWeeks(firstDayOfWeek, days, isRTL, true)[r]| == 7
    ensures forall c :: 0 <= c < 7 ==>
      (GroupByWeeks(firstDayOfWeek, days, isRTL, true)[r][c].Some? <==>
        WeekPosition(firstDayOfWeek, SplitWeeks(firstDayOfWeek, days)[r][0]) <= Column(isRTL, c)
          < WeekPosition(firstDayOfWeek, SplitWeeks(firstDayOfWeek, days)[r][0]) + |SplitWeeks(firstDayOfWeek, days)[r]|)
    ensures forall i :: 0 <= i < |SplitWeeks(firstDayOfWeek, days)[r]| ==>
      GroupByWeeks(firstDayOfWeek, days, isRTL, true)[r][Column(isRTL, WeekPosition(firstDayOfWeek, SplitWeeks(firstDayOfWeek, days)[r][i]))]
        == Some(SplitWeeks(firstDayOfWeek, days)[r][i])
  {
    var rows := SplitWeeks(firstDayOfWeek, days);
    GroupByWeeksRows(firstDayOfWeek, days, isRTL, true, r);
    SplitRowsConsecutive(firstDayOfWeek, days);
    SplitRowsAreWeeks(firstDayOfWeek, days);
    assert WeekRow(firstDayOfWeek, rows[r], r == 0);
    WeekCellsPadded(firstDayOfWeek, rows[r], isRTL);
  }

  /** A leading row that runs to the end of its week needs blanks only before it. */
  lemma HeadRowPadding(firstDayOfWeek: WeekdayId, days: seq<Date>, e: nat)
    requires AllValid(days) && Consecutive(days) && 0 < e < |days|
    requires Weekday(days[e]) == firstDayOfWeek
    ensures PadWeek(firstDayOfWeek, days[..e]) == Nulls(WeekPosition(firstDayOfWeek, days[0])) + Present(days[..e])
  {
    var head := days[..e];
    DayBeforeWeekStart(firstDayOfWeek, days, e);
    assert head[0] == days[0] && head[|head| - 1] == days[e - 1];
  }

  lemma ConsecutiveSuffix(days: seq<Date>, e: nat)
    requires AllValid(days) && Consecutive(days) && e <= |days|
    ensures AllValid(days[e..]) && Consecutive(days[e..])
  {
    ConsecutiveSlice(days, e, |days|);
    assert days[e..|days|] == days[e..];
  }

  lemma FlattenCons<T>(row: seq<T>, rows: seq<seq<T>>)
    ensures Flatten([row] + rows) == row + Flatten(rows)
  {
    assert ([row] + rows)[1..] == rows;
  }

  /** Padded rows joined end to end are the input with empty cells before it
      back to the start of its week and after it up to the end of its week. */
  lemma {:induction false} PaddedWeeksFlatten(firstDayOfWeek: WeekdayId, days: seq<Date>)
    requires AllValid(days) && Consecutive(days) && |days| > 0
    ensures Flatten(GroupByWeeks(firstDayOfWeek, days, false, true))
      == Nulls(WeekPosition(firstDayOfWeek, days[0])) + Present(days)
         + Nulls(6 - WeekPosition(firstDayOfWeek, days[|days| - 1]))
    decreases |days|
  {
    var e := NextWeekStart(firstDayOfWeek, days, 1);
    GroupByWeeksStep(firstDayOfWeek, days, false, true);
    var tail := GroupByWeeks(firstDayOfWeek, days[e..], false, true);
    if e < |days| {
      ConsecutiveSuffix(days, e);
      PaddedWeeksFlatten(firstDayOfWeek, days[e..]);
      JoinPaddedRows(firstDayOfWeek, days, e, tail);
    } else {
      assert days[..e] == days;
      assert tail == [];
      FlattenCons(PadWeek(firstDayOfWeek, days), tail);
    }
  }

  /** The padded first row followed by the padded rows of the rest, which
      start on a week start, join into the padded whole. */
  lemma JoinPaddedRows(firstDayOfWeek: WeekdayId, days: seq<Date>, e: nat, tail: seq<seq<Option<Date>>>)
    requires AllValid(days) && Consecutive(days) && 0 < e < |days|
    requires Weekday(days[e]) == firstDayOfWeek
    requires Flatten(tail)
      == Nulls(WeekPosition(firstDayOfWeek, days[e..][0])) + Present(days[e..])
         + Nulls(6 - WeekPosition(firstDayOfWeek, days[e..][|days[e..]| - 1]))
    ensures Flatten([PadWeek(firstDayOfWeek, days[..e])] + tail)
      == Nulls(WeekPosition(firstDayOfWeek, days[0])) + Present(days)
         + Nulls(6 - WeekPosition(firstDayOfWeek, days[|days| - 1]))
  {
    var head, rest := days[..e], days[e..];
    FlattenCons(PadWeek(firstDayOfWeek, head), tail);
    PositionOfWeekEnds(firstDayOfWeek, rest[0]);
    assert rest[|rest| - 1] == days[|days| - 1];
    assert Nulls(WeekPosition(firstDayOfWeek, rest[0])) == [];
    HeadRowPadding(firstDayOfWeek, days, e);
    PresentAppend(head, rest);
    assert head + rest == days;
    var lead := Nulls(WeekPosition(firstDayOfWeek, days[0]));
    var trail := Nulls(6 - WeekPosition(firstDayOfWeek, days[|days| - 1]));
    Regroup(lead, Present(head), Present(rest), trail);
  }

  lemma Regroup<T>(a: seq<T>, b: seq<T>, c: seq<T>, d: seq<T>)
    ensures (a + b) + (c + d) == a + (b + c) + d
  {
  }

  lemma {:induction false} FlattenUniformLength<T>(rows: seq<seq<T>>, w: nat)
    requires forall r :: 0 <= r < |rows| ==> |rows[r]| == w
    ensures |Flatten(rows)| == w * |rows|
  {
    if |rows| > 0 {
      FlattenUniformLength(rows[1..], w);
    }
  }

  /** Padded, every row is seven cells long and the rows number (leading
      blanks + days + trailing blanks) / 7. */
  lemma PaddedWeeksCount(firstDayOfWeek: WeekdayId, days: seq<Date>)
    requires AllValid(days) && Consecutive(days) && |days| > 0
    ensures forall r :: 0 <= r < |GroupByWeeks(firstDayOfWeek, days, false, true)| ==>
      |GroupByWeeks(firstDayOfWeek, days, false, true)[r]| == 7
    ensures 7 * |GroupByWeeks(firstDayOfWeek, days, false, true)|
      == WeekPosition(firstDayOfWeek, days[0]) + |days| + 6 - WeekPosition(firstDayOfWeek, days[|days| - 1])
  {
    var weeks := GroupByWeeks(firstDayOfWeek, days, false, true);
    forall r | 0 <= r < |weeks| ensures |weeks[r]| == 7 {
      GroupByWeeksPadded(firstDayOfWeek, days, false, r);
    }
    FlattenUniformLength(weeks, 7);
    PaddedWeeksFlatten(firstDayOfWeek, days);
  }

  /** The first element of the joined rows opens the first row, and the last
      closes the last row. */
  lemma {:induction false} FlattenEnds<T>(rows: seq<seq<T>>)
    requires |rows| > 0 && forall r :: 0 <= r < |rows| ==> |rows[r]| > 0
    ensures |Flatten(rows)| >= |rows[0]| && |Flatten(rows)| >= |rows[|rows| - 1]|
    ensures Flatten(rows)[0] == rows[0][0]
    ensures Flatten(rows)[|Flatten(rows)| - 1] == rows[|rows| - 1][|rows[|rows| - 1]| - 1]
  {
    assert Flatten(rows) == rows[0] + Flatten(rows[1..]);
    if |rows| > 1 {
      FlattenEnds(rows[1..]);
      assert rows[1..][|rows| - 2] == rows[|rows| - 1];
    }
  }

  /** A day on the first day of the week sits at position 0, a day on the
      weekday before it at position 6. */
  lemma PositionOfWeekEnds(firstDayOfWeek: WeekdayId, d: Date)
    requires d.Valid()
    ensures Weekday(d) == firstDayOfWeek <==> WeekPosition(firstDayOfWeek, d) == 0
    ensures Weekday(d) == (firstDayOfWeek + 6) % 7 <==> WeekPosition(firstDayOfWeek, d) == 6
  {
    var w := Weekday(d);
    PositionInWeek(firstDayOfWeek, w, 0);
    PositionInWeek(firstDayOfWeek, w, 6);
  }

  /** A run of whole weeks groups into rows of exactly seven days. */
  lemma WholeWeeksGroupIntoFullRows(firstDayOfWeek: WeekdayId, days: seq<Date>)
    requires AllValid(days) && Consecutive(days) && |days| > 0
    requires Weekday(days[0]) == firstDayOfWeek
    requires Weekday(days[|days| - 1]) == (firstDayOfWeek + 6) % 7
    ensures forall r :: 0 <= r < |SplitWeeks(firstDayOfWeek, days)| ==> |SplitWeeks(firstDayOfWeek, days)[r]| == 7
    ensures 7 * |SplitWeeks(firstDayOfWeek, days)| == |days|
  {
    var rows := SplitWeeks(firstDayOfWeek, days);
    SplitRowsConsecutive(firstDayOfWeek, days);
    SplitRowsEndWeeks(firstDayOfWeek, days);
    SplitRowsAreWeeks(firstDayOfWeek, days);
    FlattenEnds(rows);
    PositionOfWeekEnds(firstDayOfWeek, rows[0][0]);
    PositionOfWeekEnds(firstDayOfWeek, rows[|rows| - 1][|rows[|rows| - 1]| - 1]);
    forall r | 0 <= r < |rows| ensures |rows[r]| == 7 {
      var row := rows[r];
      assert WeekRow(firstDayOfWeek, row, r == 0);
      PositionOfWeekEnds(firstDayOfWeek, row[0]);
      assert WeekPosition(firstDayOfWeek, row[0]) == 0;
      if r < |rows| - 1 {
        assert RowsEndWeeks(firstDayOfWeek, rows);
      }
      assert WeekPosition(firstDayOfWeek, row[|row| - 1]) == 6;
      RowFitsWeek(firstDayOfWeek, row);
    }
    FlattenUniformLength(rows, 7);
  }

  // ---------------------------------------------------------------------------
  // October 2019, Sunday first: the grouping the calendar tests pin down

  lemma October2019Weekdays()
    ensures Weekday(Date(2019, 10, 1)) == Tuesday
    ensures Weekday(Date(2019, 10, 31)) == Thursday
    ensures Weekday(Date(2019, 9, 29)) == Sunday
    ensures Weekday(Date(2019, 11, 2)) == Saturday
  {
  }

  /** Without padding: five rows, the first the 1st to the 5th, the last the
      27th to the 31st. */
  lemma October2019Weeks(days: seq<Date>)
    requires days == Grid(2019, 10, Sunday, false)
    ensures AllValid(days) && Consecutive(days)
    ensures |SplitWeeks(Sunday, days)| == 5
    ensures SplitWeeks(Sunday, days)[0] == DaysOfMonth(2019, 10)[..5]
    ensures SplitWeeks(Sunday, days)[4] == DaysOfMonth(2019, 10)[26..]
    ensures |SplitWeeks(Sunday, days)[0]| == 5 && SplitWeeks(Sunday, days)[0][0] == Date(2019, 10, 1)
    ensures |SplitWeeks(Sunday, days)[4]| == 5 && SplitWeeks(Sunday, days)[4][4] == Date(2019, 10, 31)
  {
    GridWithoutOutsideDays(2019, 10, Sunday);
    October2019Weekdays();
    var rows := SplitWeeks(Sunday, days);
    PaddedWeeksCount(Sunday, days);
    assert |rows| == 5;
    SplitRowsConsecutive(Sunday, days);
    SplitRowsEndWeeks(Sunday, days);
    SplitRowsAreWeeks(Sunday, days);
    FlattenEnds(rows);
    assert WeekRow(Sunday, rows[0], true) && WeekRow(Sunday, rows[4], false);
    RowFitsWeek(Sunday, rows[0]);
    RowFitsWeek(Sunday, rows[4]);
    assert |rows[0]| == 5 && |rows[4]| == 5;
    FlattenEdgeRows(rows);
    October2019EdgeRows();
  }

  /** The first row is a prefix and the last row a suffix of the joined rows. */
  lemma {:induction false} FlattenEdgeRows<T>(rows: seq<seq<T>>)
    requires |rows| > 0
    ensures |Flatten(rows)| >= |rows[0]| && |Flatten(rows)| >= |rows[|rows| - 1]|
    ensures Flatten(rows)[..|rows[0]|] == rows[0]
    ensures Flatten(rows)[|Flatten(rows)| - |rows[|rows| - 1]|..] == rows[|rows| - 1]
  {
    assert Flatten(rows) == rows[0] + Flatten(rows[1..]);
    if |rows| > 1 {
      FlattenEdgeRows(rows[1..]);
      assert rows[1..][|rows| - 2] == rows[|rows| - 1];
    }
  }

  /** Unpadded, the first row holds October 1st-5th and the last October
      27th-31st, left to right ... */
  lemma October2019WeekCells(days: seq<Date>)
    requires days == Grid(2019, 10, Sunday, false)
    ensures var weeks := GroupByWeeks(Sunday, days, false, false);
      && |weeks| == 5 && |weeks[0]| == 5 && |weeks[4]| == 5
      && weeks[0][0] == Some(Date(2019, 10, 1)) && weeks[4][4] == Some(Date(2019, 10, 31))
  {
    October2019Weeks(days);
    UnpaddedCellAt(Sunday, days, false, 0, 0);
    UnpaddedCellAt(Sunday, days, false, 4, 4);
  }

  /** ... and mirrored right to left. */
  lemma October2019WeekCellsRTL(days: seq<Date>)
    requires days == Grid(2019, 10, Sunday, false)
    ensures var weeks := GroupByWeeks(Sunday, days, true, false);
      && |weeks| == 5 && |weeks[0]| == 5 && |weeks[4]| == 5
      && weeks[0][4] == Some(Date(2019, 10, 1)) && weeks[4][0] == Some(Date(2019, 10, 31))
  {
    October2019WeekCells(days);
    GroupByWeeksMirrored(Sunday, days, false, 0);
    GroupByWeeksMirrored(Sunday, days, false, 4);
  }

  lemma October2019EdgeRows()
    ensures |DaysOfMonth(2019, 10)| == 31
    ensures |DaysOfMonth(2019, 10)[..5]| == 5 && DaysOfMonth(2019, 10)[..5][0] == Date(2019, 10, 1)
    ensures |DaysOfMonth(2019, 10)[26..]| == 5 && DaysOfMonth(2019, 10)[26..][4] == Date(2019, 10, 31)
  {
  }

  /** Cell i of an unpadded row: day i of the row, counted from the right
      when laid out right to left. */
  lemma UnpaddedCellAt(firstDayOfWeek: WeekdayId, days: seq<Date>, isRTL: bool, r: nat, i: nat)
    requires AllValid(days) && r < |SplitWeeks(firstDayOfWeek, days)| && i < |SplitWeeks(firstDayOfWeek, days)[r]|
    ensures var row := SplitWeeks(firstDayOfWeek, days)[r];
      && |GroupByWeeks(firstDayOfWeek, days, isRTL, false)[r]| == |row|
      && GroupByWeeks(firstDayOfWeek, days, isRTL, false)[r][i] == Some(if isRTL then row[|row| - 1 - i] else row[i])
  {
    var row := SplitWeeks(firstDayOfWeek, days)[r];
    GroupByWeeksUnpadded(firstDayOfWeek, days, isRTL, r);
    var shown := if isRTL then Reverse(row) else row;
    assert Present(shown)[i] == Some(shown[i]);
  }

  /** Padded, two empty cells come before October 1st and two after October
      31st ... */
  lemma October2019PaddedCells(days: seq<Date>)
    requires days == Grid(2019, 10, Sunday, false)
    ensures var weeks := GroupByWeeks(Sunday, days, false, true);
      && |weeks| == 5
      && weeks[0] == [None, None] + Present(DaysOfMonth(2019, 10)[..5])
      && weeks[4] == Present(DaysOfMonth(2019, 10)[26..]) + [None, None]
  {
    October2019Weeks(days);
    October2019EdgeRowPadding();
    PaddedEdgeCells(Sunday, days, false, DaysOfMonth(2019, 10)[..5], DaysOfMonth(2019, 10)[26..]);
  }

  /** ... and right to left the padded rows are mirrored. */
  lemma October2019PaddedCellsRTL(days: seq<Date>)
    requires days == Grid(2019, 10, Sunday, false)
    ensures var weeks := GroupByWeeks(Sunday, days, true, true);
      && |weeks| == 5
      && weeks[0] == Present(Reverse(DaysOfMonth(2019, 10)[..5])) + [None, None]
      && weeks[4] == [None, None] + Present(Reverse(DaysOfMonth(2019, 10)[26..]))
  {
    October2019Weeks(days);
    October2019EdgeRowPadding();
    PaddedEdgeCells(Sunday, days, true, DaysOfMonth(2019, 10)[..5], DaysOfMonth(2019, 10)[26..]);
    MirroredPadding(DaysOfMonth(2019, 10)[..5], DaysOfMonth(2019, 10)[26..]);
  }

  /** The first and last padded rows, given the first and last rows of days. */
  lemma PaddedEdgeCells(firstDayOfWeek: WeekdayId, days: seq<Date>, isRTL: bool, first: seq<Date>, last: seq<Date>)
    requires AllValid(days) && |SplitWeeks(firstDayOfWeek, days)| > 0
    requires SplitWeeks(firstDayOfWeek, days)[0] == first
    requires SplitWeeks(firstDayOfWeek, days)[|SplitWeeks(firstDayOfWeek, days)| - 1] == last
    ensures |first| > 0 && AllValid(first) && |last| > 0 && AllValid(last)
    ensures var weeks := GroupByWeeks(firstDayOfWeek, days, isRTL, true);
      && weeks[0] == WeekCells(firstDayOfWeek, first, isRTL, true)
      && weeks[|weeks| - 1] == WeekCells(firstDayOfWeek, last, isRTL, true)
  {
    GroupByWeeksRows(firstDayOfWeek, days, isRTL, true, 0);
    GroupByWeeksRows(firstDayOfWeek, days, isRTL, true, |SplitWeeks(firstDayOfWeek, days)| - 1);
  }

  lemma MirroredPadding(first: seq<Date>, last: seq<Date>)
    ensures Reverse([None, None] + Present(first)) == Present(Reverse(first)) + [None, None]
    ensures Reverse(Present(last) + [None, None]) == [None, None] + Present(Reverse(last))
  {
    ReversePresent(first);
    ReversePresent(last);
    ReverseAppend([None, None], Present(first));
    ReverseAppend(Present(last), [None, None]);
  }

  lemma ReverseAppend<T>(a: seq<T>, b: seq<T>)
    ensures Reverse(a + b) == Reverse(b) + Reverse(a)
  {
  }

  lemma October2019EdgeRowPadding()
    ensures |DaysOfMonth(2019, 10)| == 31
    ensures PadWeek(Sunday, DaysOfMonth(2019, 10)[..5]) == [None, None] + Present(DaysOfMonth(2019, 10)[..5])
    ensures PadWeek(Sunday, DaysOfMonth(2019, 10)[26..]) == Present(DaysOfMonth(2019, 10)[26..]) + [None, None]
  {
    October2019Weekdays();
    var month := DaysOfMonth(2019, 10);
    var first, last := month[..5], month[26..];
    assert first[0] == Date(2019, 10, 1) && last[4] == Date(2019, 10, 31);
    assert PadWeek(Sunday, first) == [None, None] + Present(first);
    assert PadWeek(Sunday, last) == Present(last) + [None, None];
  }

  /** With outside days: five full rows, from September 29th to November 2nd. */
  lemma October2019WeeksWithOutsideDays(grid: seq<Date>)
    requires grid == Grid(2019, 10, Sunday, true)
    ensures |SplitWeeks(Sunday, grid)| == 5
    ensures forall r :: 0 <= r < 5 ==> |SplitWeeks(Sunday, grid)[r]| == 7
    ensures SplitWeeks(Sunday, grid)[0][0] == Date(2019, 9, 29)
    ensures SplitWeeks(Sunday, grid)[4][6] == Date(2019, 11, 2)
  {
    October2019Weekdays();
    assert grid[0] == Date(2019, 9, 29) && grid[|grid| - 1] == Date(2019, 11, 2);
    GridIsConsecutive(2019, 10, Sunday);
    WholeWeeksGroupIntoFullRows(Sunday, grid);
    var rows := SplitWeeks(Sunday, grid);
    FlattenEnds(rows);
  }

  /** As cells, with outside days: five rows of seven, the first opening on
      September 29th and the last closing on November 2nd, in the mirrored
      columns right to left. */
  lemma October2019CellsWithOutsideDays(grid: seq<Date>, isRTL: bool)
    requires grid == Grid(2019, 10, Sunday, true)
    ensures var weeks := GroupByWeeks(Sunday, grid, isRTL, false);
      && |weeks| == 5 && |weeks[0]| == 7 && |weeks[4]| == 7
      && weeks[0][Column(isRTL, 0)] == Some(Date(2019, 9, 29))
      && weeks[4][Column(isRTL, 6)] == Some(Date(2019, 11, 2))
  {
    GridIsConsecutive(2019, 10, Sunday);
    October2019WeeksWithOutsideDays(grid);
    UnpaddedCellAt(Sunday, grid, isRTL, 0, Column(isRTL, 0));
    UnpaddedCellAt(Sunday, grid, isRTL, 4, Column(isRTL, 6));
  }
}
