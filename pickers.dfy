/** The date pickers' selection state, updated click by click: the static
    single, range and multi-select pickers and the single-selection popup
    picker. Each picker's methods are proved to follow the transition
    functions of module `Selection`; the scenario methods at the end replay
    the pickers' end-to-end tests on fresh pickers. */
module Pickers {
  import opened Wrappers
  import opened CalendarDates
  import opened Selection

  /** StaticDatePicker: one selected day at most. */
  class SinglePicker {
    var value: Option<Date>
    const isDisabled: Date -> bool

    constructor (isDisabled: Date -> bool, initial: Option<Date>)
      ensures this.isDisabled == isDisabled && value == initial
    {
      this.isDisabled := isDisabled;
      value := initial;
    }

    /** Whether the picker shows `d` as selected. */
    predicate IsSelected(d: Date)
      reads this
    {
      value == Some(d)
    }

    method Click(d: Date)
      modifies this
      ensures value == SingleClick(old(value), isDisabled, d)
    {
      if !isDisabled(d) {
        value := Some(d);
      }
    }
  }

  /** StaticRangeDatePicker: one endpoint chosen, or a span of days. */
  class RangePicker {
    var value: RangeValue
    const isDisabled: Date -> bool

    constructor (isDisabled: Date -> bool, initial: RangeValue)
      ensures this.isDisabled == isDisabled && value == initial
    {
      this.isDisabled := isDisabled;
      value := initial;
    }

    /** Whether the picker shows `d` as selected. */
    predicate IsSelected(d: Date)
      reads this
    {
      RangeSelected(value, isDisabled, d)
    }

    /** A click on `d`: ignored when disabled; otherwise it completes a
        half-chosen range or starts a new one. */
    method Click(d: Date)
      modifies this
      ensures value == RangeClick(old(value), isDisabled, d)
      ensures Ordered(old(value)) ==> Ordered(value)
    {
      if isDisabled(d) {
        return;
      }
      if value.Pending? {
        var a := value.anchor;
        if IsBefore(d, a) {
          value := Span(d, a);
        } else {
          value := Span(a, d);
        }
      } else {
        value := Pending(d);
      }
    }
  }

  /** StaticMultiSelectDatePicker: any set of days. */
  class MultiPicker {
    var selected: set<Date>
    const isDisabled: Date -> bool

    constructor (isDisabled: Date -> bool, initial: set<Date>)
      ensures this.isDisabled == isDisabled && selected == initial
    {
      this.isDisabled := isDisabled;
      selected := initial;
    }

    /** Whether the picker shows `d` as selected. */
    predicate IsSelected(d: Date)
      reads this
    {
      d in selected
    }

    /** A click on an enabled day toggles it; a disabled day is ignored. */
    method Click(d: Date)
      modifies this
      ensures selected == MultiClick(old(selected), isDisabled, d)
    {
      if isDisabled(d) {
        return;
      }
      if d in selected {
        selected := selected - {d};
      } else {
        selected := selected + {d};
      }
    }
  }

  /** PopupDatePicker in single-selection mode: the committed day shown in
      its input field and the day chosen in the popup but not yet confirmed. */
  class PopupPicker {
    var committed: Option<Date>
    var draft: Option<Date>
    const autoClose: bool
    const isDisabled: Date -> bool

    constructor (autoClose: bool, isDisabled: Date -> bool, initial: Option<Date>)
      ensures this.autoClose == autoClose && this.isDisabled == isDisabled
      ensures committed == initial && draft == initial
    {
      this.autoClose := autoClose;
      this.isDisabled := isDisabled;
      committed := initial;
      draft := initial;
    }

    function Value(): PopupValue
      reads this
    {
      PopupValue(committed, draft)
    }

    /** Choosing a day in the popup. */
    method Choose(d: Date)
      modifies this
      ensures Value() == PopupChoose(old(Value()), autoClose, isDisabled, d)
    {
      if !isDisabled(d) {
        draft := Some(d);
        if autoClose {
          committed := draft;
        }
      }
    }

    /** The OK button. */
    method Ok()
      modifies this
      ensures Value() == PopupOk(old(Value()))
    {
      committed := draft;
    }

    /** The Cancel button. */
    method Cancel()
      modifies this
      ensures Value() == PopupCancel(old(Value()))
    {
      draft := committed;
    }
  }

  // ---------------------------------------------------------------------------
  // The pickers' end-to-end tests, on days 1 to 5 of one month

  function Day(year: int, month: int, day: int): (d: Date)
    requires 1 <= month <= 12 && 1 <= day <= 28
    ensures d.Valid()
  {
    Date(year, month, day)
  }

  /** Nothing is selected at first; a click selects the clicked day. */
  method SingleSelectsDay(d: Date) returns (before: bool, after: bool)
    ensures !before && after
  {
    var p := new SinglePicker(_ => false, None);
    before := p.IsSelected(d);
    p.Click(d);
    after := p.IsSelected(d);
  }

  /** Clicking the 1st and then the 3rd selects both and the 2nd. */
  method RangeSelectsSpan(year: int, month: int) returns (s1: bool, s2: bool, s3: bool)
    requires 1 <= month <= 12
    ensures s1 && s2 && s3
  {
    var d1, d2, d3 := Day(year, month, 1), Day(year, month, 2), Day(year, month, 3);
    var p := new RangePicker(_ => false, NoRange);
    p.Click(d1);
    s1 := p.IsSelected(d1);
    p.Click(d3);
    s3 := p.IsSelected(d3);
    s2 := p.IsSelected(d2);
  }

  /** An initial range from the 1st to the 3rd shows all three days. */
  method RangeShowsInitialSpan(year: int, month: int) returns (s1: bool, s2: bool, s3: bool)
    requires 1 <= month <= 12
    ensures s1 && s2 && s3
  {
    var d1, d2, d3 := Day(year, month, 1), Day(year, month, 2), Day(year, month, 3);
    var p := new RangePicker(_ => false, Span(d1, d3));
    s1, s2, s3 := p.IsSelected(d1), p.IsSelected(d2), p.IsSelected(d3);
  }

  /** From an initial range 1st-3rd, clicking the 3rd and the 5th selects
      the 3rd to the 5th and drops the 1st and the 2nd. */
  method RangeReplacesInitialSpan(year: int, month: int) returns (s1: bool, s2: bool, s3: bool, s4: bool, s5: bool)
    requires 1 <= month <= 12
    ensures !s1 && !s2 && s3 && s4 && s5
  {
    var d1, d2, d3 := Day(year, month, 1), Day(year, month, 2), Day(year, month, 3);
    var d4, d5 := Day(year, month, 4), Day(year, month, 5);
    var p := new RangePicker(_ => false, Span(d1, d3));
    p.Click(d3);
    s3 := p.IsSelected(d3);
    p.Click(d5);
    s5 := p.IsSelected(d5);
    s4, s1, s2 := p.IsSelected(d4), p.IsSelected(d1), p.IsSelected(d2);
  }

  /** With the 3rd disabled, clicking the 1st and then the 3rd leaves only
      the 1st selected. */
  method RangeIgnoresDisabledDay(year: int, month: int, isDisabled: Date -> bool) returns (s1: bool, s2: bool, s3: bool)
    requires 1 <= month <= 12
    requires !isDisabled(Day(year, month, 1)) && isDisabled(Day(year, month, 3))
    ensures s1 && !s3 && !s2
  {
    var d1, d2, d3 := Day(year, month, 1), Day(year, month, 2), Day(year, month, 3);
    var p := new RangePicker(isDisabled, NoRange);
    p.Click(d1);
    s1 := p.IsSelected(d1);
    p.Click(d3);
    s3 := p.IsSelected(d3);
    s2 := p.IsSelected(d2);
  }

  /** Disabled days between two enabled ends do not stop the range. */
  method RangeAcrossDisabledDays(year: int, month: int, isDisabled: Date -> bool) returns (s1: bool, s4: bool, range: RangeValue)
    requires 1 <= month <= 12
    requires !isDisabled(Day(year, month, 1)) && !isDisabled(Day(year, month, 4))
    ensures s1 && s4 && range == Span(Day(year, month, 1), Day(year, month, 4))
  {
    var d1, d4 := Day(year, month, 1), Day(year, month, 4);
    var p := new RangePicker(isDisabled, NoRange);
    p.Click(d1);
    s1 := p.IsSelected(d1);
    p.Click(d4);
    s4 := p.IsSelected(d4);
    range := p.value;
  }

  /** Clicking the 3rd before the 1st selects the same span. */
  method RangeLateThenEarly(year: int, month: int) returns (s1: bool, s2: bool, s3: bool)
    requires 1 <= month <= 12
    ensures s1 && s2 && s3
  {
    var d1, d2, d3 := Day(year, month, 1), Day(year, month, 2), Day(year, month, 3);
    var p := new RangePicker(_ => false, NoRange);
    p.Click(d3);
    s3 := p.IsSelected(d3);
    p.Click(d1);
    s1 := p.IsSelected(d1);
    s2 := p.IsSelected(d2);
  }

  /** Clicking the 1st twice selects it as a one-day range; clicking the
      2nd and the 3rd then replaces that range. */
  method RangeOfOneDay(year: int, month: int) returns (first: bool, again: bool, s1: bool, s2: bool, s3: bool)
    requires 1 <= month <= 12
    ensures first && again && s2 && s3 && !s1
  {
    var d1, d2, d3 := Day(year, month, 1), Day(year, month, 2), Day(year, month, 3);
    var p := new RangePicker(_ => false, NoRange);
    p.Click(d1);
    first := p.IsSelected(d1);
    p.Click(d1);
    again := p.IsSelected(d1);
    p.Click(d2);
    s2 := p.IsSelected(d2);
    p.Click(d3);
    s3 := p.IsSelected(d3);
    s1 := p.IsSelected(d1);
  }

  /** Clicking the 1st and the 3rd selects those two and not the 2nd. */
  method MultiSelectsDays(year: int, month: int) returns (s1: bool, s2: bool, s3: bool)
    requires 1 <= month <= 12
    ensures s1 && s3 && !s2
  {
    var d1, d2, d3 := Day(year, month, 1), Day(year, month, 2), Day(year, month, 3);
    var p := new MultiPicker(_ => false, {});
    p.Click(d1);
    s1 := p.IsSelected(d1);
    p.Click(d3);
    s3 := p.IsSelected(d3);
    s2 := p.IsSelected(d2);
  }

  /** A disabled day is not selected, before or after a click on it. */
  method MultiIgnoresDisabledDay(d: Date, isDisabled: Date -> bool) returns (before: bool, after: bool)
    requires isDisabled(d)
    ensures !before && !after
  {
    var p := new MultiPicker(isDisabled, {});
    before := p.IsSelected(d);
    p.Click(d);
    after := p.IsSelected(d);
  }

  /** An initial selection of the 1st and the 2nd shows both; clicking the
      1st deselects it alone, while clicking the 3rd adds it to both. */
  method MultiInitialSelection(year: int, month: int)
    returns (s1: bool, s2: bool, d1Dropped: bool, d2Kept: bool, added: bool, kept: bool)
    requires 1 <= month <= 12
    ensures s1 && s2 && !d1Dropped && d2Kept && added && kept
  {
    var d1, d2, d3 := Day(year, month, 1), Day(year, month, 2), Day(year, month, 3);
    var p := new MultiPicker(_ => false, {d1, d2});
    s1, s2 := p.IsSelected(d1), p.IsSelected(d2);
    p.Click(d1);
    d1Dropped, d2Kept := p.IsSelected(d1), p.IsSelected(d2);
    var q := new MultiPicker(_ => false, {d1, d2});
    q.Click(d3);
    added, kept := q.IsSelected(d3), q.IsSelected(d1) && q.IsSelected(d2);
  }

  /** With auto-close, choosing a day puts it in the input field at once. */
  method PopupAutoClose(d: Date) returns (input: Option<Date>)
    ensures input == Some(d)
  {
    var p := new PopupPicker(true, _ => false, None);
    p.Choose(d);
    input := p.committed;
  }

  /** The input starts empty; a chosen day reaches it only on OK. */
  method PopupChooseThenOk(d: Date) returns (atStart: Option<Date>, beforeOk: Option<Date>, afterOk: Option<Date>)
    ensures atStart == None && beforeOk == None && afterOk == Some(d)
  {
    var p := new PopupPicker(false, _ => false, None);
    atStart := p.committed;
    p.Choose(d);
    beforeOk := p.committed;
    p.Ok();
    afterOk := p.committed;
  }

  /** A second choice confirmed with OK overwrites the first. */
  method PopupOverwrite(d1: Date, d2: Date) returns (input: Option<Date>)
    ensures input == Some(d2)
  {
    var p := new PopupPicker(false, _ => false, None);
    p.Choose(d1);
    p.Ok();
    p.Choose(d2);
    p.Ok();
    input := p.committed;
  }

  /** Cancel after a first choice leaves the input empty. */
  method PopupCancelFirstChoice(d: Date) returns (input: Option<Date>)
    ensures input == None
  {
    var p := new PopupPicker(false, _ => false, None);
    p.Choose(d);
    p.Cancel();
    input := p.committed;
  }

  /** Cancel after a later choice goes back to the date confirmed before. */
  method PopupCancelRevertsToPrevious(d1: Date, d2: Date) returns (input: Option<Date>, draft: Option<Date>)
    ensures input == Some(d1) && draft == Some(d1)
  {
    var p := new PopupPicker(false, _ => false, None);
    p.Choose(d1);
    p.Ok();
    p.Choose(d2);
    p.Cancel();
    input, draft := p.committed, p.draft;
  }
}
