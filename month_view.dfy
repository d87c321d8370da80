/**
 * The month view's grid: six rows of seven days, Sunday first, holding the
 * tail of the previous month, the whole shown month, and the head of the
 * next month. Months are 1..12 here (`getMonth() + 1`).
 */
module MonthView {
  import opened Time
  import opened Wrappers

  /** `isWeekend`: Sunday or Saturday. */
  predicate IsWeekend(day: int) {
    Weekday(day) == 0 || Weekday(day) == 6
  }

  /** `isSameDay`: both dates present and on the same calendar date. */
  predicate IsSameDay(a: Option<Instant>, b: Option<Instant>) {
    a.Some? && b.Some? && DayOf(a.value) == DayOf(b.value)
  }

  /** `getFirstDayOfMonth`: the weekday of the first of the month. */
  function FirstDayOfMonth(y: int, m: int): (r: int)
    requires 1 <= m <= 12
    ensures 0 <= r < 7
    ensures r == Weekday(DaysFromCivil(Date(y, m, 1)))
  {
    Weekday(DaysFromCivil(Date(y, m, 1)))
  }

  /** One day cell: the number it shows, whether it belongs to the shown month, and its date as a day number. */
  datatype Cell = Cell(dayNumber: int, isCurrentMonth: bool, monthOffset: int, date: int)

  /** `new Date(y, m - 1 + offset, d)` for an offset of -1, 0 or 1, as a day number. */
  function ShiftedDate(y: int, m: int, offset: int, d: int): int
    requires 1 <= m <= 12 && -1 <= offset <= 1
  {
    if offset == -1 then
      var (py, pm) := PrevMonth(y, m);
      DaysFromCivil(Date(py, pm, d))
    else if offset == 1 then
      var (ny, nm) := NextMonth(y, m);
      DaysFromCivil(Date(ny, nm, d))
    else DaysFromCivil(Date(y, m, d))
  }

  /** Number of days in the month before month `m` of year `y`. */
  function DaysInPrevMonth(y: int, m: int): (n: int)
    requires 1 <= m <= 12
    ensures 28 <= n <= 31
  {
    var (py, pm) := PrevMonth(y, m);
    DaysInMonth(py, pm)
  }

  /** Cell `i` of the grid in closed form: leading cells, the month's own days, trailing cells. */
  function CellAt(y: int, m: int, i: int): (c: Cell)
    requires 1 <= m <= 12
  {
    var first := FirstDayOfMonth(y, m);
    var dim := DaysInMonth(y, m);
    if i < first then
      var d := DaysInPrevMonth(y, m) - first + i + 1;
      Cell(d, false, -1, ShiftedDate(y, m, -1, d))
    else if i - first < dim then
      Cell(i - first + 1, true, 0, ShiftedDate(y, m, 0, i - first + 1))
    else
      Cell(i - first - dim + 1, false, 1, ShiftedDate(y, m, 1, i - first - dim + 1))
  }

  /** `renderCalendar`: walks the 42 cells with a counter for the shown month and one for the next. */
  method RenderCalendar(y: int, m: int) returns (days: seq<Cell>)
    requires 1 <= m <= 12
    ensures |days| == 42
    ensures forall i :: 0 <= i < 42 ==> days[i] == CellAt(y, m, i)
  {
    var daysInMonth := DaysInMonth(y, m);
    var firstDay := FirstDayOfMonth(y, m);
    var daysInPrevMonth := DaysInPrevMonth(y, m);
    days := [];
    var dayCounter := 1;
    var nextMonthCounter := 1;
    for i := 0 to 6 * 7
      invariant |days| == i
      invariant forall k :: 0 <= k < i ==> days[k] == CellAt(y, m, k)
      invariant i <= firstDay ==> dayCounter == 1 && nextMonthCounter == 1
      invariant firstDay <= i <= firstDay + daysInMonth ==> dayCounter == i - firstDay + 1 && nextMonthCounter == 1
      invariant firstDay + daysInMonth <= i ==> dayCounter == daysInMonth + 1 && nextMonthCounter == i - firstDay - daysInMonth + 1
    {
      var dayNumber;
      var isCurrentMonth := true;
      if i < firstDay {
        dayNumber := daysInPrevMonth - firstDay + i + 1;
        isCurrentMonth := false;
      } else if dayCounter <= daysInMonth {
        dayNumber := dayCounter;
        dayCounter := dayCounter + 1;
      } else {
        dayNumber := nextMonthCounter;
        nextMonthCounter := nextMonthCounter + 1;
        isCurrentMonth := false;
      }
      var offset := if isCurrentMonth then 0 else if dayCounter > daysInMonth then 1 else -1;
      days := days + [Cell(dayNumber, isCurrentMonth, offset, ShiftedDate(y, m, offset, dayNumber))];
    }
  }

  /** The month before the next month is the month itself. */
  lemma PrevOfNext(y: int, m: int)
    requires 1 <= m <= 12
    ensures var (py, pm) := PrevMonth(y, m); NextMonth(py, pm) == (y, m)
  {
  }

  /**
   * Cell `i` is the date `i` days after the Sunday on or before the first of the month:
   * the 42 cells are consecutive dates.
   */
  lemma CellDate(y: int, m: int, i: int)
    requires 1 <= m <= 12
    ensures CellAt(y, m, i).date == DaysFromCivil(Date(y, m, 1)) - FirstDayOfMonth(y, m) + i
  {
    var first := FirstDayOfMonth(y, m);
    var dim := DaysInMonth(y, m);
    if i < first {
      var (py, pm) := PrevMonth(y, m);
      MonthsAreContiguous(py, pm);
      PrevOfNext(y, m);
    } else if i - first >= dim {
      MonthsAreContiguous(y, m);
    }
  }

  /** Consecutive cells hold consecutive dates, also across the month boundaries. */
  lemma CellsAreConsecutive(y: int, m: int, i: int)
    requires 1 <= m <= 12 && 0 <= i < 41
    ensures CellAt(y, m, i + 1).date == CellAt(y, m, i).date + 1
  {
    CellDate(y, m, i);
    CellDate(y, m, i + 1);
  }

  /** The grid starts on a Sunday, so cell `i` lies in weekday column `i % 7`. */
  lemma CellWeekday(y: int, m: int, i: int)
    requires 1 <= m <= 12 && 0 <= i
    ensures Weekday(CellAt(y, m, i).date) == i % 7
    ensures IsWeekend(CellAt(y, m, i).date) <==> i % 7 == 0 || i % 7 == 6
  {
    CellDate(y, m, i);
    WeekdayAfter(DaysFromCivil(Date(y, m, 1)), FirstDayOfMonth(y, m), i);
  }

  /** `i` days after the Sunday on or before day `d1` is weekday `i % 7`. */
  lemma WeekdayAfter(d1: int, first: int, i: int)
    requires Weekday(d1) == first && 0 <= i
    ensures Weekday(d1 - first + i) == i % 7
  {
    var q := (d1 + 4) / 7;
    assert d1 + 4 == q * 7 + first;
    assert d1 - first + i + 4 == q * 7 + i;
  }

  /**
   * The leading cells count up to the last day of the previous month, the shown month's
   * cells are 1..daysInMonth, the trailing cells count up from 1, and there are always
   * at least five trailing cells.
   */
  lemma GridRegions(y: int, m: int)
    requires 1 <= m <= 12
    ensures var first := FirstDayOfMonth(y, m); var dim := DaysInMonth(y, m);
      42 - first - dim >= 5 &&
      (first > 0 ==> CellAt(y, m, first - 1).dayNumber == DaysInPrevMonth(y, m)) &&
      CellAt(y, m, first).dayNumber == 1 && CellAt(y, m, first + dim - 1).dayNumber == dim &&
      CellAt(y, m, first + dim).dayNumber == 1
  {
  }

  /** A cell belongs to the shown month exactly when its date lies between the month's first and last day. */
  lemma CurrentMonthCells(y: int, m: int, i: int)
    requires 1 <= m <= 12 && 0 <= i < 42
    ensures CellAt(y, m, i).isCurrentMonth <==>
      DaysFromCivil(Date(y, m, 1)) <= CellAt(y, m, i).date <= DaysFromCivil(Date(y, m, DaysInMonth(y, m)))
    ensures CellAt(y, m, i).monthOffset == 0 <==> CellAt(y, m, i).isCurrentMonth
    ensures CellAt(y, m, i).monthOffset == -1 <==> i < FirstDayOfMonth(y, m)
  {
    CellDate(y, m, i);
  }

  /** At most one cell of the grid is marked as the selected date. */
  lemma SelectedCellUnique(y: int, m: int, selected: Option<Instant>, i: int, j: int)
    requires 1 <= m <= 12
    requires IsSameDay(Some(CellAt(y, m, i).date * 86400000), selected)
    requires IsSameDay(Some(CellAt(y, m, j).date * 86400000), selected)
    ensures i == j
  {
    CellDate(y, m, i);
    CellDate(y, m, j);
    assert DayOf(CellAt(y, m, i).date * 86400000) == CellAt(y, m, i).date;
    assert DayOf(CellAt(y, m, j).date * 86400000) == CellAt(y, m, j).date;
  }

  /** Clicking a cell: the date is passed on only for a cell of the shown month. */
  function CellClick(c: Cell): (r: Option<int>)
    ensures r.Some? <==> c.isCurrentMonth
    ensures r.Some? ==> r.value == c.date
  {
    if c.isCurrentMonth then Some(c.date) else None
  }

  /** A click on the grid selects a day of the shown month, or nothing. */
  lemma ClickStaysInMonth(y: int, m: int, i: int)
    requires 1 <= m <= 12 && 0 <= i < 42
    ensures var r := CellClick(CellAt(y, m, i));
      r.Some? ==> DaysFromCivil(Date(y, m, 1)) <= r.value <= DaysFromCivil(Date(y, m, DaysInMonth(y, m)))
  {
    CurrentMonthCells(y, m, i);
  }
}
