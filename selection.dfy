/** The selection rules of the date pickers, stated as transition functions
    on the pickers' values: how a click changes the range picker's
    endpoints, the multi-select picker's set of days, the single picker's
    day, and the popup picker's committed and draft days. The pickers of
    module `Pickers` hold these values and are proved to follow them.
    `isDisabled` stands for the picker's `disableDays` callback. */
module Selection {
  import opened Wrappers
  import opened CalendarDates

  // ---------------------------------------------------------------------------
  // Range mode

  /** The range picker's value: nothing chosen yet, one endpoint chosen, or a
      span of days from `start` to `end`. */
  datatype RangeValue = NoRange | Pending(anchor: Date) | Span(start: Date, end: Date)

  /** A span never runs backwards. */
  predicate Ordered(v: RangeValue) {
    v.Span? ==> !Precedes(v.end, v.start)
  }

  /** A click on `d`. A disabled day is ignored. The first click of a range
      sets one endpoint; the second sets the other, and the span runs from
      the earlier of the two to the later; a click after a complete span
      starts a new range. */
  function RangeClick(v: RangeValue, isDisabled: Date -> bool, d: Date): (w: RangeValue)
    ensures isDisabled(d) ==> w == v
    ensures !isDisabled(d) && !v.Pending? ==> w == Pending(d)
    ensures !isDisabled(d) && v.Pending? ==>
      && w.Span? && Ordered(w)
      && ((w.start == v.anchor && w.end == d) || (w.start == d && w.end == v.anchor))
    ensures Ordered(v) ==> Ordered(w)
  {
    if isDisabled(d) then v
    else match v
      case Pending(a) => if IsBefore(d, a) then Span(d, a) else Span(a, d)
      case _ => Pending(d)
  }

  /** Whether the picker shows `d` as selected: the chosen endpoint, or any
      day of the span with its ends; a disabled day never is. */
  predicate RangeSelected(v: RangeValue, isDisabled: Date -> bool, d: Date) {
    !isDisabled(d) &&
    match v
      case NoRange => false
      case Pending(a) => d == a
      case Span(s, e) => IsBetween(d, s, e, true)
  }

  /** Away from a half-finished range, a click on an enabled day selects that
      day alone: the days of an earlier span are no longer selected. */
  lemma RangeFirstClick(v: RangeValue, isDisabled: Date -> bool, d: Date)
    requires !v.Pending? && !isDisabled(d)
    ensures forall x :: RangeSelected(RangeClick(v, isDisabled, d), isDisabled, x) <==> x == d
  {
  }

  /** Two clicks on enabled days select every enabled day from the earlier
      to the later of them, both included, whichever was clicked first, and
      whatever disabled days lie between them. */
  lemma RangeTwoClicks(v: RangeValue, isDisabled: Date -> bool, a: Date, b: Date)
    requires !v.Pending? && !isDisabled(a) && !isDisabled(b)
    ensures RangeClick(RangeClick(v, isDisabled, a), isDisabled, b)
      == RangeClick(RangeClick(v, isDisabled, b), isDisabled, a)
    ensures forall x :: (RangeSelected(RangeClick(RangeClick(v, isDisabled, a), isDisabled, b), isDisabled, x)
      <==> !isDisabled(x) && (IsBetween(x, a, b, true) || IsBetween(x, b, a, true)))
  {
    var w := RangeClick(RangeClick(v, isDisabled, a), isDisabled, b);
    forall x ensures RangeSelected(w, isDisabled, x)
      <==> !isDisabled(x) && (IsBetween(x, a, b, true) || IsBetween(x, b, a, true))
    {
      if IsBefore(b, a) {
        assert !Precedes(a, b);
      } else {
        BetweenReversed(x, a, b);
      }
    }
  }

  /** With its ends in order, a span is all the days between them; the
      reversed pair holds at most the day at both ends. */
  lemma BetweenReversed(x: Date, a: Date, b: Date)
    requires !Precedes(b, a)
    ensures IsBetween(x, b, a, true) ==> IsBetween(x, a, b, true)
  {
    if IsBetween(x, b, a, true) {
      PrecedesTotal(a, b);
      PrecedesTotal(x, a);
      PrecedesTotal(x, b);
    }
  }

  /** Two different dates are ordered one way or the other. */
  lemma PrecedesTotal(a: Date, b: Date)
    ensures a == b || Precedes(a, b) || Precedes(b, a)
  {
    var c := CompareDates(a, b);
  }

  /** Clicking the same enabled day twice gives the one-day range of that day. */
  lemma RangeOneDay(v: RangeValue, isDisabled: Date -> bool, d: Date)
    requires !v.Pending? && !isDisabled(d)
    ensures RangeClick(RangeClick(v, isDisabled, d), isDisabled, d) == Span(d, d)
    ensures forall x :: RangeSelected(Span(d, d), isDisabled, x) <==> x == d
  {
    forall x ensures RangeSelected(Span(d, d), isDisabled, x) <==> x == d {
      if IsBetween(x, d, d, true) {
        PrecedesTotal(x, d);
      }
    }
  }

  /** A click on a disabled day changes nothing, so it neither selects that
      day nor completes a range. */
  lemma RangeDisabledClick(v: RangeValue, isDisabled: Date -> bool, d: Date)
    requires isDisabled(d)
    ensures RangeClick(v, isDisabled, d) == v
    ensures !RangeSelected(RangeClick(v, isDisabled, d), isDisabled, d)
  {
  }

  // ---------------------------------------------------------------------------
  // Multi mode

  /** A click on `d` toggles it: an enabled day that is selected is removed,
      one that is not is added; a disabled day is ignored. No other day
      changes. */
  function MultiClick(selected: set<Date>, isDisabled: Date -> bool, d: Date): (t: set<Date>)
    ensures forall x :: x != d ==> (x in t <==> x in selected)
    ensures d in t <==> (if isDisabled(d) then d in selected else d !in selected)
  {
    if isDisabled(d) then selected
    else if d in selected then selected - {d}
    else selected + {d}
  }

  /** Clicking an enabled day twice gives back the selection. */
  lemma MultiClickTwice(selected: set<Date>, isDisabled: Date -> bool, d: Date)
    ensures MultiClick(MultiClick(selected, isDisabled, d), isDisabled, d) == selected
  {
  }

  /** A selection with no disabled day keeps none. */
  lemma MultiClickKeepsEnabled(selected: set<Date>, isDisabled: Date -> bool, d: Date)
    requires forall x :: x in selected ==> !isDisabled(x)
    ensures forall x :: x in MultiClick(selected, isDisabled, d) ==> !isDisabled(x)
  {
  }

  /** Clicks on two different enabled days add exactly those two days: the
      days between them stay unselected and an initial selection is kept. */
  lemma MultiClickAddsNoGap(selected: set<Date>, isDisabled: Date -> bool, a: Date, b: Date)
    requires a != b && a !in selected && b !in selected && !isDisabled(a) && !isDisabled(b)
    ensures MultiClick(MultiClick(selected, isDisabled, a), isDisabled, b) == selected + {a, b}
  {
  }

  // ---------------------------------------------------------------------------
  // Single mode

  /** The single picker's click: an enabled day becomes the value. */
  function SingleClick(value: Option<Date>, isDisabled: Date -> bool, d: Date): (w: Option<Date>)
    ensures w == (if isDisabled(d) then value else Some(d))
  {
    if isDisabled(d) then value else Some(d)
  }

  // ---------------------------------------------------------------------------
  // Popup, single mode

  /** The popup picker's committed day, shown in its input field, and the day
      chosen in the open popup but not yet confirmed. */
  datatype PopupValue = PopupValue(committed: Option<Date>, draft: Option<Date>)

  /** Choosing an enabled day changes the draft only; with `autoClose` the
      popup closes on the choice and the day is committed at once. A
      disabled day changes nothing. */
  function PopupChoose(p: PopupValue, autoClose: bool, isDisabled: Date -> bool, d: Date): (q: PopupValue)
    ensures isDisabled(d) ==> q == p
    ensures !autoClose ==> q.committed == p.committed
    ensures autoClose && !isDisabled(d) ==> q.committed == Some(d)
    ensures q.draft == SingleClick(p.draft, isDisabled, d)
  {
    if isDisabled(d) then p
    else if autoClose then PopupValue(Some(d), Some(d))
    else PopupValue(p.committed, Some(d))
  }

  /** OK commits the draft, replacing any earlier committed day. */
  function PopupOk(p: PopupValue): (q: PopupValue)
    ensures q.committed == p.draft && q.draft == p.draft
  {
    PopupValue(p.draft, p.draft)
  }

  /** Cancel discards the draft: the committed day stays and the draft goes
      back to it. */
  function PopupCancel(p: PopupValue): (q: PopupValue)
    ensures q.committed == p.committed && q.draft == p.committed
  {
    PopupValue(p.committed, p.committed)
  }

  /** What the user does to the popup picker. */
  datatype PopupEvent = ChooseDay(day: Date) | PressOk | PressCancel

  function Step(p: PopupValue, autoClose: bool, isDisabled: Date -> bool, e: PopupEvent): PopupValue {
    match e
      case ChooseDay(d) => PopupChoose(p, autoClose, isDisabled, d)
      case PressOk => PopupOk(p)
      case PressCancel => PopupCancel(p)
  }

  /** The popup value after a run of events. */
  function Run(p: PopupValue, autoClose: bool, isDisabled: Date -> bool, events: seq<PopupEvent>): PopupValue
    decreases |events|
  {
    if |events| == 0 then p
    else Run(Step(p, autoClose, isDisabled, events[0]), autoClose, isDisabled, events[1..])
  }

  /** Without auto-close, nothing but OK commits: after any run of choices
      and cancels, the committed day is the one before. */
  lemma {:induction false} OnlyOkCommits(p: PopupValue, isDisabled: Date -> bool, events: seq<PopupEvent>)
    requires forall i :: 0 <= i < |events| ==> events[i] != PressOk
    ensures Run(p, false, isDisabled, events).committed == p.committed
    decreases |events|
  {
    if |events| > 0 {
      OnlyOkCommits(Step(p, false, isDisabled, events[0]), isDisabled, events[1..]);
    }
  }

  /** So Cancel after such a run restores the popup to what it was when the
      committed and draft days agreed. */
  lemma CancelRestores(p: PopupValue, isDisabled: Date -> bool, events: seq<PopupEvent>)
    requires p.draft == p.committed
    requires forall i :: 0 <= i < |events| ==> events[i] != PressOk
    ensures PopupCancel(Run(p, false, isDisabled, events)) == p
  {
    OnlyOkCommits(p, isDisabled, events);
  }

  /** Choosing an enabled day and pressing OK commits that day, whatever was
      committed before. */
  lemma ChooseThenOk(p: PopupValue, isDisabled: Date -> bool, d: Date)
    requires !isDisabled(d)
    ensures PopupOk(PopupChoose(p, false, isDisabled, d)) == PopupValue(Some(d), Some(d))
  {
  }
}
