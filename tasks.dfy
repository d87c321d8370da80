/**
 * The sidebar's task list: the events of the "Task" calendar, either the
 * upcoming ones (with a two-hour grace period for tasks already started
 * today) or those of the selected day, in start order.
 */
module Tasks {
  import opened Time
  import opened Wrappers
  import opened Events
  import opened Lists
  import opened Sorting

  /** The list's two modes, switched by the two buttons above it. */
  datatype DisplayMode = Upcoming | SelectedDay

  /** A task is an event of the calendar named "Task". */
  predicate IsTask(e: Event) {
    e.calendar == "Task"
  }

  /**
   * The filter of `getTasks`: upcoming mode compares the task's midnight with
   * today's midnight and its start with two hours ago; selected-day mode compares
   * calendar dates with the selected date (a missing one reads as instant 0).
   */
  predicate Keeps(mode: DisplayMode, now: Instant, selected: Option<Instant>, e: Event) {
    IsTask(e) &&
    match mode
    case Upcoming =>
      var today := StartOfDay(now);
      var taskDay := StartOfDay(e.start);
      taskDay >= today && (taskDay > today || e.start > now - 2 * 3600000)
    case SelectedDay =>
      DayOf(e.start) == DayOf(selected.GetOr(0))
  }

  /** The comparator `dateA - dateB`: by start time only. */
  function ByStart(e: Event): Rank {
    Rank(e.start, 0)
  }

  /** `getTasks`: the kept tasks sorted by start time; no event list gives no tasks. */
  function GetTasks(events: Option<seq<Event>>, mode: DisplayMode, now: Instant, selected: Option<Instant>): (r: seq<Event>)
    ensures events.None? ==> r == []
    ensures forall e :: e in r ==> IsTask(e)
    ensures events.Some? ==> forall e :: e in r <==> e in events.value && Keeps(mode, now, selected, e)
    ensures events.Some? ==> multiset(r) == multiset(Filter(events.value, (e: Event) => Keeps(mode, now, selected, e)))
    ensures SortedBy(r, ByStart)
  {
    if events.None? then []
    else
      var kept := Filter(events.value, (e: Event) => Keeps(mode, now, selected, e));
      var r := SortBy(kept, ByStart);
      SortKeepsElements(kept, ByStart);
      SortPermutes(kept, ByStart);
      r
  }

  /**
   * In upcoming mode a task is listed exactly when it starts on a later day than now,
   * or today less than two hours ago or later.
   */
  lemma UpcomingMeaning(now: Instant, selected: Option<Instant>, e: Event)
    ensures Keeps(Upcoming, now, selected, e) <==>
      IsTask(e) && (DayOf(e.start) > DayOf(now) || (DayOf(e.start) == DayOf(now) && e.start > now - 2 * 3600000))
  {
    var a, b := DayOf(e.start), DayOf(now);
    assert StartOfDay(e.start) == a * 86400000 && StartOfDay(now) == b * 86400000;
    assert a > b <==> a * 86400000 > b * 86400000;
    assert a == b <==> a * 86400000 == b * 86400000;
  }

  /** Tasks with the same start keep the order they have in the event list. */
  lemma TasksKeepListOrder(events: seq<Event>, mode: DisplayMode, now: Instant, selected: Option<Instant>, t: Instant)
    ensures WithRank(GetTasks(Some(events), mode, now, selected), ByStart, Rank(t, 0))
         == WithRank(Filter(events, (e: Event) => Keeps(mode, now, selected, e)), ByStart, Rank(t, 0))
  {
    SortIsStable(Filter(events, (e: Event) => Keeps(mode, now, selected, e)), ByStart, Rank(t, 0));
  }

  /** The label `formatDate` gives a date. */
  datatype DateLabel = Today | Tomorrow | MonthDay(day: int)

  /** `formatDate`: "Today", "Tomorrow", or the month and day of `date` (here its day number). */
  function FormatDate(date: Instant, now: Instant): (r: DateLabel)
    ensures r == Today <==> DayOf(date) == DayOf(now)
    ensures r == Tomorrow <==> DayOf(date) == DayOf(now) + 1
    ensures r.MonthDay? ==> r.day == DayOf(date)
  {
    var today := StartOfDay(now);
    var tomorrow := today + 86400000;
    assert DayOf(tomorrow) == DayOf(now) + 1;
    if DayOf(date) == DayOf(today) then Today
    else if DayOf(date) == DayOf(tomorrow) then Tomorrow
    else MonthDay(DayOf(date))
  }

  /** Every task in the upcoming list is labelled Today, Tomorrow, or a date after tomorrow. */
  lemma UpcomingLabels(events: seq<Event>, now: Instant, selected: Option<Instant>, e: Event)
    requires e in GetTasks(Some(events), Upcoming, now, selected)
    ensures FormatDate(e.start, now).MonthDay? ==> DayOf(e.start) > DayOf(now) + 1
  {
    UpcomingMeaning(now, selected, e);
  }

  /** `handleTaskClick`: reports the flipped completion flag, when a callback is given. */
  function TaskClick(taskId: int, currentStatus: bool, hasCallback: bool): (r: Option<(int, bool)>)
    ensures r.Some? <==> hasCallback
    ensures r.Some? ==> r.value.0 == taskId && r.value.1 != currentStatus
  {
    if hasCallback then Some((taskId, !currentStatus)) else None
  }
}
