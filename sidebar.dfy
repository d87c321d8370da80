/**
 * The sidebar's mini calendar: picking a date selects it in the main
 * calendar, and picking the selected date again toggles between the day
 * view and the last other view.
 */
module Sidebar {
  import opened Time
  import opened Wrappers
  import opened Events

  /** The sidebar's own state. */
  datatype SidebarState = SidebarState(selectedDate: Option<Instant>, lastNonDayView: View)

  /** The callback a pick fires: `onDateSelect(date)` or `onViewChange(view)`. */
  datatype SidebarCall = DateSelected(date: Instant) | ViewChange(view: View)

  /** The state before any pick: no date selected, the month view remembered. */
  const Initial: SidebarState := SidebarState(None, Month)

  /** `handleMiniCalendarDateSelect` as a transition: the next state and the callback fired. */
  function Pick(st: SidebarState, date: Instant, currentView: View): (r: (SidebarState, SidebarCall))
    ensures currentView != Day ==> r.0.lastNonDayView == currentView
    ensures currentView == Day ==> r.0.lastNonDayView == st.lastNonDayView
    ensures st.selectedDate != Some(date) ==> r == (r.0, DateSelected(date)) && r.0.selectedDate == Some(date)
    ensures st.selectedDate == Some(date) ==>
      r.0.selectedDate == st.selectedDate && r.1 == ViewChange(if currentView == Day then st.lastNonDayView else Day)
  {
    var isSameDate := st.selectedDate.Some? && st.selectedDate.value == date;
    var last := if currentView != Day then currentView else st.lastNonDayView;
    if currentView == Week && !isSameDate then
      (SidebarState(Some(date), last), DateSelected(date))
    else if isSameDate then
      (SidebarState(st.selectedDate, last), ViewChange(if currentView == Day then st.lastNonDayView else Day))
    else
      (SidebarState(Some(date), last), DateSelected(date))
  }

  /** Before any pick no date counts as the selected one, so the first pick always selects. */
  lemma FirstPickSelects(date: Instant, currentView: View)
    ensures Pick(Initial, date, currentView).1 == DateSelected(date)
  {
  }

  /**
   * Picking a date, then the same date again, then again from the day view: the second
   * pick opens the day view and the third returns to the view the first pick was made in.
   */
  lemma DoublePickToggles(st: SidebarState, date: Instant, v: View)
    requires v != Day
    ensures var (s1, c1) := Pick(st, date, v);
      var (s2, c2) := Pick(s1, date, v);
      var (s3, c3) := Pick(s2, date, Day);
      c1.DateSelected? == (st.selectedDate != Some(date)) &&
      c2 == ViewChange(Day) && c3 == ViewChange(v) && s3.selectedDate == Some(date)
  {
    var (s1, c1) := Pick(st, date, v);
    assert s1.selectedDate == Some(date) && s1.lastNonDayView == v;
    var (s2, c2) := Pick(s1, date, v);
    assert s2.selectedDate == Some(date) && s2.lastNonDayView == v;
  }

  /** The sidebar component's state. */
  class Sidebar {
    var selectedDate: Option<Instant>
    var lastNonDayView: View

    constructor()
      ensures SidebarState(selectedDate, lastNonDayView) == Initial
    {
      selectedDate := None;
      lastNonDayView := Month;
    }

    /** A pick in the mini calendar, returning the callback it fires. */
    method Select(date: Instant, currentView: View) returns (call: SidebarCall)
      modifies this
      ensures (SidebarState(selectedDate, lastNonDayView), call)
           == Pick(SidebarState(old(selectedDate), old(lastNonDayView)), date, currentView)
    {
      var isSameDate := selectedDate.Some? && selectedDate.value == date;
      var previousLast := lastNonDayView;
      if currentView != Day {
        lastNonDayView := currentView;
      }
      if currentView == Week && !isSameDate {
        selectedDate := Some(date);
        call := DateSelected(date);
      } else if isSameDate {
        if currentView == Day {
          call := ViewChange(previousLast);
        } else {
          call := ViewChange(Day);
        }
      } else {
        selectedDate := Some(date);
        call := DateSelected(date);
      }
    }
  }
}
