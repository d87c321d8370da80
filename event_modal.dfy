/**
 * The add/edit dialog: two forms, one for events and one for tasks, pre-filled
 * when the dialog opens, and the event record built from them on submit.
 * A form date is a day number; a form time is a number of minutes since
 * midnight, and the empty time field is `None`.
 */
module EventModal {
  import opened Time
  import opened Wrappers
  import opened Events
  import opened Text
  import DayView

  const DEFAULT_FREQUENCY: string := "Does not repeat"
  const DEFAULT_CALENDAR: string := "Personal"
  const NO_TITLE: string := "(No title)"

  /** Which of the two forms is shown. */
  datatype Mode = EventMode | TaskMode

  datatype EventForm = EventForm(
    title: string, date: int, startTime: Option<int>, endTime: Option<int>,
    allDay: bool, frequency: string, location: string, calendar: string)

  datatype TaskForm = TaskForm(title: string, date: int, time: Option<int>, frequency: string)

  /** The record handed to `onSave`; `id` is present only when an existing event is edited. */
  datatype EventData = EventData(
    id: Option<int>, title: string, start: Instant, end: Instant,
    location: string, frequency: string, calendar: string, allDay: bool)

  /** `s || fallback` on a string. */
  function OrElse(s: string, fallback: string): (r: string)
    ensures s != [] ==> r == s
    ensures s == [] ==> r == fallback
  {
    if s == [] then fallback else s
  }

  /** The instant of minute `minutes` of day `date`, as `new Date("<date>T<HH:MM>")` reads it. */
  function AtMinute(date: int, minutes: int): (r: Instant)
    ensures r == date * 86400000 + minutes * 60000
  {
    AtTime(date, minutes / 60, minutes % 60, 0, 0)
  }

  /** A time written in a form, read back: its day and minute of the day. */
  lemma AtMinuteFields(date: int, minutes: int)
    requires 0 <= minutes < 1440
    ensures DayOf(AtMinute(date, minutes)) == date && MinuteOfDay(AtMinute(date, minutes)) == minutes
    ensures SecondOf(AtMinute(date, minutes)) == 0 && MillisOf(AtMinute(date, minutes)) == 0
  {
    AtTimeFields(date, minutes / 60, minutes % 60, 0, 0);
  }

  // ---------------------------------------------------------------------------
  // Rounding of the pre-filled times

  /** `Math.ceil(minutes / 30) * 30` for a minute field. */
  function CeilHalfHour(minutes: int): (r: int)
    requires 0 <= minutes
    ensures r % 30 == 0 && minutes <= r < minutes + 30
  {
    (minutes + 29) / 30 * 30
  }

  /** The instant of the minute `t` lies in: its seconds and milliseconds dropped. */
  function MinuteStart(t: Instant): Instant {
    AtTime(DayOf(t), HourOf(t), MinuteOf(t), 0, 0)
  }

  /** `getDefaultTimeRange`'s start: minutes rounded up to the next half hour, 60 carrying into the hour. */
  function RoundUpHalfHour(t: Instant): (r: Instant)
    ensures MsOfDay(r) % 1800000 == 0
    ensures MinuteStart(t) <= r < MinuteStart(t) + 1800000
  {
    var r := AtTime(DayOf(t), HourOf(t), CeilHalfHour(MinuteOf(t)), 0, 0);
    var base := DayOf(t) * 86400000 + HourOf(t) * 3600000;
    var c := CeilHalfHour(MinuteOf(t));
    assert r == base + c * 60000;
    HalfHourAligned(DayOf(t), 2 * HourOf(t) + c / 30);
    assert r == DayOf(t) * 86400000 + (2 * HourOf(t) + c / 30) * 1800000;
    r
  }

  /** An instant a whole number of half hours after a midnight is on a half-hour boundary. */
  lemma HalfHourAligned(day: int, n: int)
    ensures MsOfDay(day * 86400000 + n * 1800000) % 1800000 == 0
  {
    var u := day * 86400000 + n * 1800000;
    var q := n / 48;
    var k := n % 48;
    assert u == (day + q) * 86400000 + k * 1800000;
    SplitDay(u, day + q, k * 1800000);
  }

  /** The effect's rounding of a clicked time: minutes down to 0 or 30, seconds and milliseconds to 0. */
  function RoundDownHalfHour(t: Instant): (r: Instant)
    ensures DayOf(r) == DayOf(t) && HourOf(r) == HourOf(t)
    ensures MinuteOf(r) == (if MinuteOf(t) < 30 then 0 else 30)
    ensures SecondOf(r) == 0 && MillisOf(r) == 0
    ensures r <= t < r + 1800000
    ensures MsOfDay(r) % 1800000 == 0
  {
    var m := if MinuteOf(t) < 30 then 0 else 30;
    var r := AtTime(DayOf(t), HourOf(t), m, 0, 0);
    AtTimeFields(DayOf(t), HourOf(t), m, 0, 0);
    FieldsRoundTrip(t);
    HalfHourAligned(DayOf(t), 2 * HourOf(t) + m / 30);
    assert r == DayOf(t) * 86400000 + (2 * HourOf(t) + m / 30) * 1800000;
    r
  }

  /** On a half-hour boundary the minute of the day is a multiple of 30. */
  lemma HalfHourMinute(t: Instant)
    requires MsOfDay(t) % 1800000 == 0
    ensures MsOfDay(t) % 60000 == 0 && MinuteOfDay(t) % 30 == 0
  {
    MinuteOfDayMeaning(t);
    var j := MsOfDay(t) / 1800000;
    assert MsOfDay(t) == j * 30 * 60000;
    assert MinuteOfDay(t) == j * 30;
  }

  /** `setHours(getHours() + 1)` on a whole-minute instant: one hour later, the minute of the day moved by 60. */
  lemma NextHour(t: Instant)
    requires MsOfDay(t) % 60000 == 0
    ensures SetHour(t, HourOf(t) + 1) == t + 3600000
    ensures MinuteOfDay(t + 3600000) == (MinuteOfDay(t) + 60) % 1440
    ensures MinuteOf(t + 3600000) == MinuteOf(t)
  {
    FieldsRoundTrip(t);
    MinuteOfDayShift(t, 60);
    MinuteOfHour(t);
    MinuteOfHour(t + 3600000);
    HourLaterSameMinute(MinuteOfDay(t));
  }

  /** The minute field is the minute of the day modulo 60. */
  lemma MinuteOfHour(t: Instant)
    ensures MinuteOf(t) == MinuteOfDay(t) % 60
  {
  }

  /** Sixty minutes later, wrapping at midnight, shows the same minute field. */
  lemma HourLaterSameMinute(a: int)
    requires 0 <= a < 1440
    ensures ((a + 60) % 1440) % 60 == a % 60
  {
    if a + 60 >= 1440 {
      assert (a + 60) % 1440 == a + 60 - 1440;
    }
  }

  /** `getDefaultTimeRange(now)`: the start and end times of day it fills in. */
  function DefaultTimeRange(now: Instant): (r: (int, int))
    ensures r.0 == MinuteOfDay(RoundUpHalfHour(now))
    ensures r.0 % 30 == 0 && 0 <= r.0 < 1440
    ensures r.1 == (r.0 + 60) % 1440
  {
    var rounded := RoundUpHalfHour(now);
    HalfHourMinute(rounded);
    NextHour(rounded);
    (MinuteOfDay(rounded), MinuteOfDay(SetHour(rounded, HourOf(rounded) + 1)))
  }

  /** The start and end times of day the effect fills in for a clicked time. */
  function ClickedTimeRange(t: Instant): (r: (int, int))
    ensures r.0 == MinuteOfDay(RoundDownHalfHour(t))
    ensures r.0 % 30 == 0 && 0 <= r.0 < 1440
    ensures r.1 == (r.0 + 60) % 1440
  {
    var start := RoundDownHalfHour(t);
    HalfHourMinute(start);
    NextHour(start);
    var end1 := SetHour(start, HourOf(start) + 1);
    FieldsRoundTrip(end1);
    (MinuteOfDay(start), MinuteOfDay(SetHoursMinutes(end1, HourOf(end1), MinuteOf(start))))
  }

  // ---------------------------------------------------------------------------
  // Pre-filling the forms

  /** The task form for editing `ev`: no time for an all-day task. */
  function EditTaskForm(ev: Event): (f: TaskForm)
    ensures f.time.None? <==> ev.allDay
  {
    TaskForm(ev.title, DayOf(ev.start), if ev.allDay then None else Some(MinuteOfDay(ev.start)),
             OrElse(ev.frequency, DEFAULT_FREQUENCY))
  }

  /** The event form for editing `ev`. */
  function EditEventForm(ev: Event): (f: EventForm)
    ensures f.startTime.Some? && f.endTime.Some? && f.calendar != []
  {
    EventForm(ev.title, DayOf(ev.start), Some(MinuteOfDay(ev.start)), Some(MinuteOfDay(ev.end)),
              ev.allDay, OrElse(ev.frequency, DEFAULT_FREQUENCY), ev.location, OrElse(ev.calendar, DEFAULT_CALENDAR))
  }

  /** A clicked time counts as a time when it is not midnight to the minute. */
  predicate HasClockTime(t: Instant) {
    HourOf(t) != 0 || MinuteOf(t) != 0
  }

  // ---------------------------------------------------------------------------
  // Submitting

  /** The title saved: the trimmed title, or "(No title)" when nothing is left. */
  function SavedTitle(title: string): (r: string)
    ensures r != []
    ensures Trim(title) != [] ==> r == Trim(title)
  {
    OrElse(Trim(title), NO_TITLE)
  }

  /** `event?.id`, copied when truthy. */
  function EditedId(editing: Option<Event>): (r: Option<int>)
    ensures r.Some? <==> editing.Some? && editing.value.id != 0
    ensures r.Some? ==> r.value == editing.value.id
  {
    if editing.Some? && editing.value.id != 0 then Some(editing.value.id) else None
  }

  /**
   * `handleSubmit`'s record. A timed event with an empty start or end time makes
   * `toISOString` throw, and nothing is saved (`None`).
   */
  function SubmitData(mode: Mode, showTaskTime: bool, ev: EventForm, task: TaskForm, editing: Option<Event>)
    : (r: Option<EventData>)
    ensures r.None? <==> mode == EventMode && !ev.allDay && (ev.startTime.None? || ev.endTime.None?)
    ensures r.Some? ==> r.value.id == EditedId(editing) && r.value.title != []
    ensures r.Some? && mode == TaskMode ==> r.value.calendar == "Task" && r.value.location == []
  {
    var id := EditedId(editing);
    match mode
    case TaskMode =>
      if !showTaskTime || task.time.None? then
        Some(EventData(id, SavedTitle(task.title), AtTime(task.date, 0, 0, 0, 0), AtTime(task.date, 23, 59, 59, 0),
                       "", task.frequency, "Task", true))
      else
        var start := AtTime(task.date, task.time.value / 60, task.time.value % 60, 0, 0);
        Some(EventData(id, SavedTitle(task.title), start, start + 30 * 60000,
                       "", task.frequency, "Task", false))
    case EventMode =>
      if ev.allDay then
        Some(EventData(id, SavedTitle(ev.title), AtTime(ev.date, 0, 0, 0, 0), AtTime(ev.date, 23, 59, 59, 0),
                       ev.location, ev.frequency, ev.calendar, true))
      else if ev.startTime.None? || ev.endTime.None? then None
      else
        Some(EventData(id, SavedTitle(ev.title), AtMinute(ev.date, ev.startTime.value), AtMinute(ev.date, ev.endTime.value),
                       ev.location, ev.frequency, ev.calendar, false))
  }

  /** What the dialog saves as all-day, task or event, the day view draws in its all-day strip. */
  lemma AllDaySubmitIsAllDay(mode: Mode, showTaskTime: bool, ev: EventForm, task: TaskForm, editing: Option<Event>)
    requires SubmitData(mode, showTaskTime, ev, task, editing).Some?
    requires SubmitData(mode, showTaskTime, ev, task, editing).value.allDay
    ensures var d := SubmitData(mode, showTaskTime, ev, task, editing).value;
      DayView.IsAllDayEvent(Timed(0, d.start, d.end)) &&
      DayOf(d.start) == (if mode == TaskMode then task.date else ev.date) &&
      d.end - d.start == 24 * 3600000 - 1000
  {
    var day := if mode == TaskMode then task.date else ev.date;
    AtTimeFields(day, 0, 0, 0, 0);
    AtTimeFields(day, 23, 59, 59, 0);
  }

  /** A task with a time lasts exactly thirty minutes from that time on its date. */
  lemma TimedTaskLastsHalfHour(showTaskTime: bool, ev: EventForm, task: TaskForm, editing: Option<Event>)
    requires showTaskTime && task.time.Some? && 0 <= task.time.value < 1440
    ensures var d := SubmitData(TaskMode, showTaskTime, ev, task, editing).value;
      !d.allDay && d.end - d.start == 1800000 &&
      DayOf(d.start) == task.date && MinuteOfDay(d.start) == task.time.value
  {
    AtMinuteFields(task.date, task.time.value);
  }

  /**
   * A timed event starts and ends on the form's date at the form's times; nothing checks
   * that the end comes after the start, so an end time before the start time saves an
   * event that ends before it starts.
   */
  lemma TimedEventTimes(ev: EventForm, task: TaskForm, editing: Option<Event>)
    requires !ev.allDay && ev.startTime.Some? && ev.endTime.Some?
    requires 0 <= ev.startTime.value < 1440 && 0 <= ev.endTime.value < 1440
    ensures var d := SubmitData(EventMode, false, ev, task, editing).value;
      DayOf(d.start) == ev.date && MinuteOfDay(d.start) == ev.startTime.value &&
      DayOf(d.end) == ev.date && MinuteOfDay(d.end) == ev.endTime.value &&
      (d.end < d.start <==> ev.endTime.value < ev.startTime.value)
  {
    AtMinuteFields(ev.date, ev.startTime.value);
    AtMinuteFields(ev.date, ev.endTime.value);
  }

  /** The dialog's state: which form is shown and what the two forms hold. */
  class Modal {
    const initialDate: Option<Instant>
    const editing: Option<Event>
    var selected: Mode
    var showTaskTime: bool
    var newEvent: EventForm
    var newTask: TaskForm

    /** The initial form state: empty forms on the initial date, or on today when there is none. */
    constructor(initialDate: Option<Instant>, editing: Option<Event>, now: Instant)
      ensures this.initialDate == initialDate && this.editing == editing
      ensures selected == EventMode && !showTaskTime
      ensures newEvent == EventForm("", DayOf(initialDate.GetOr(now)), None, None, false, DEFAULT_FREQUENCY, "", DEFAULT_CALENDAR)
      ensures newTask == TaskForm("", DayOf(initialDate.GetOr(now)), None, DEFAULT_FREQUENCY)
    {
      this.initialDate := initialDate;
      this.editing := editing;
      var day := DayOf(if initialDate.Some? then initialDate.value else now);
      selected := EventMode;
      showTaskTime := false;
      newEvent := EventForm("", day, None, None, false, DEFAULT_FREQUENCY, "", DEFAULT_CALENDAR);
      newTask := TaskForm("", day, None, DEFAULT_FREQUENCY);
    }

    /**
     * The effect that runs when the dialog opens: an edited task switches to the task
     * form, an edited event fills the event form, a clicked time is rounded down to the
     * half hour with a one-hour range, and otherwise the default range around `now` is used.
     */
    method Open(now: Instant)
      modifies this
      ensures editing.Some? && editing.value.calendar == "Task" ==>
        selected == TaskMode && showTaskTime == !editing.value.allDay &&
        newTask == EditTaskForm(editing.value) && newEvent == old(newEvent)
      ensures editing.Some? && editing.value.calendar != "Task" ==>
        selected == old(selected) && showTaskTime == old(showTaskTime) &&
        newEvent == EditEventForm(editing.value) && newTask == old(newTask)
      ensures editing.None? && initialDate.Some? && HasClockTime(initialDate.value) ==>
        var (s, e) := ClickedTimeRange(initialDate.value);
        var day := DayOf(initialDate.value);
        newEvent == old(newEvent).(date := day, startTime := Some(s), endTime := Some(e)) &&
        newTask == old(newTask).(date := day, time := Some(s)) &&
        selected == old(selected) && showTaskTime == old(showTaskTime)
      ensures editing.None? && !(initialDate.Some? && HasClockTime(initialDate.value)) ==>
        var (s, e) := DefaultTimeRange(now);
        newEvent == old(newEvent).(startTime := Some(s), endTime := Some(e)) &&
        newTask == old(newTask).(time := Some(s)) &&
        selected == old(selected) && showTaskTime == old(showTaskTime)
    {
      if editing.Some? {
        var ev := editing.value;
        if ev.calendar == "Task" {
          selected := TaskMode;
          showTaskTime := !ev.allDay;
          newTask := EditTaskForm(ev);
        } else {
          newEvent := EditEventForm(ev);
        }
      } else if initialDate.Some? && HasClockTime(initialDate.value) {
        var start := RoundDownHalfHour(initialDate.value);
        var range := ClickedTimeRange(initialDate.value);
        newEvent := newEvent.(date := DayOf(start), startTime := Some(range.0), endTime := Some(range.1));
        newTask := newTask.(date := DayOf(start), time := Some(range.0));
      } else {
        var range := DefaultTimeRange(now);
        newEvent := newEvent.(startTime := Some(range.0), endTime := Some(range.1));
        newTask := newTask.(time := Some(range.0));
      }
    }

    /** The event/task switch. */
    method SelectMode(mode: Mode)
      modifies this
      ensures selected == mode
      ensures showTaskTime == old(showTaskTime) && newEvent == old(newEvent) && newTask == old(newTask)
    {
      selected := mode;
    }

    /** The task form's clock button. */
    method ToggleTaskTime()
      modifies this
      ensures showTaskTime == !old(showTaskTime)
      ensures selected == old(selected) && newEvent == old(newEvent) && newTask == old(newTask)
    {
      showTaskTime := !showTaskTime;
    }

    /** `handleSubmit`: the record passed to `onSave`, or `None` when building it throws. */
    method Submit() returns (data: Option<EventData>)
      ensures data == SubmitData(selected, showTaskTime, newEvent, newTask, editing)
    {
      data := SubmitData(selected, showTaskTime, newEvent, newTask, editing);
    }
  }

  /** Opening on a clicked time after 23:00 pre-fills an end time of day before the start time. */
  lemma LateClickEndsNextDay(t: Instant)
    requires HourOf(t) == 23
    ensures ClickedTimeRange(t).1 < ClickedTimeRange(t).0
  {
  }
}
