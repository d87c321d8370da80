/**
 * The day view's geometry: the hour grid is 60 pixels per hour, so a pixel
 * offset is a count of minutes since midnight. Events are split into the
 * all-day strip and the timed column.
 */
module DayView {
  import opened Time
  import opened Events
  import opened Lists

  /** Starts at 00:00 and ends at 23:59 of the same calendar date. */
  predicate IsAllDayEvent(ev: Event) {
    HourOf(ev.start) == 0 && MinuteOf(ev.start) == 0 &&
    HourOf(ev.end) == 23 && MinuteOf(ev.end) == 59 &&
    DayOf(ev.start) == DayOf(ev.end)
  }

  /**
   * An event is drawn in the all-day strip exactly when it starts within the first
   * minute of a day and ends within the last minute of the same day.
   */
  lemma AllDayMeaning(ev: Event)
    ensures IsAllDayEvent(ev) <==>
      DayOf(ev.start) == DayOf(ev.end) && MsOfDay(ev.start) < 60000 && MsOfDay(ev.end) >= 1439 * 60000
  {
    MinuteOfDayMeaning(ev.start);
    MinuteOfDayMeaning(ev.end);
    var hs, ms := HourOf(ev.start), MinuteOf(ev.start);
    var he, me := HourOf(ev.end), MinuteOf(ev.end);
    assert hs == 0 && ms == 0 <==> MinuteOfDay(ev.start) == 0;
    assert he == 23 && me == 59 <==> MinuteOfDay(ev.end) == 1439;
  }

  /** The style of a timed event: `top` and `height` in pixels. */
  datatype EventStyle = EventStyle(top: real, height: real, zIndex: int)

  /** `getEventStyle`, with the hour and minute fields read off the start and the end. */
  function StyleOf(ev: Event): (r: EventStyle)
    ensures r.top == MinuteOfDay(ev.start) as real
    ensures r.height == (MinuteOfDay(ev.end) - MinuteOfDay(ev.start)) as real
    ensures 0.0 <= r.top < 1440.0
  {
    var sh, sm := HourOf(ev.start) as real, MinuteOf(ev.start) as real;
    var eh, em := HourOf(ev.end) as real, MinuteOf(ev.end) as real;
    EventStyle((sh + sm / 60.0) * 60.0, ((eh - sh) + (em - sm) / 60.0) * 60.0, 10)
  }

  /**
   * On one day and on whole minutes, the height in pixels is the length in minutes;
   * the dates are not read, so an event that ends on a later day at an earlier
   * time of day gets a negative height.
   */
  lemma HeightIsLength(ev: Event)
    requires DayOf(ev.start) == DayOf(ev.end)
    requires MsOfDay(ev.start) % 60000 == 0 && MsOfDay(ev.end) % 60000 == 0
    ensures StyleOf(ev).height * 60000 as real == (ev.end - ev.start) as real
  {
    MinuteOfDayMeaning(ev.start);
    MinuteOfDayMeaning(ev.end);
    assert ev.start == DayOf(ev.start) * 86400000 + MinuteOfDay(ev.start) * 60000;
    assert ev.end == DayOf(ev.end) * 86400000 + MinuteOfDay(ev.end) * 60000;
  }

  /** An event from 23:00 to 01:00 the next day is drawn with a height of minus 22 hours. */
  lemma OvernightHeightIsNegative(day: int)
    ensures StyleOf(Timed(1, AtTime(day, 23, 0, 0, 0), AtTime(day + 1, 1, 0, 0, 0))).height == -1320.0
  {
    AtTimeFields(day, 23, 0, 0, 0);
    AtTimeFields(day + 1, 1, 0, 0, 0);
  }

  /** `getCurrentTimePosition`: the red line's offset in pixels. */
  function CurrentTimePosition(now: Instant): (r: real)
    ensures r == MinuteOfDay(now) as real
    ensures 0.0 <= r < 1440.0
  {
    (HourOf(now) as real + MinuteOf(now) as real / 60.0) * 60.0
  }

  /** `toDateString` equality: the same calendar date. */
  predicate OnDay(ev: Event, currentDate: Instant) {
    DayOf(ev.start) == DayOf(currentDate)
  }

  /** `filteredEvents`: the events that start on the shown date, in list order. */
  function ShownEvents(events: seq<Event>, currentDate: Instant): (r: seq<Event>)
    ensures forall e :: e in r <==> e in events && DayOf(e.start) == DayOf(currentDate)
  {
    Filter(events, (e: Event) => OnDay(e, currentDate))
  }

  /** `allDayEvents` */
  function AllDayEvents(events: seq<Event>, currentDate: Instant): (r: seq<Event>)
    ensures forall e :: e in r <==> e in events && DayOf(e.start) == DayOf(currentDate) && IsAllDayEvent(e)
  {
    Filter(ShownEvents(events, currentDate), IsAllDayEvent)
  }

  /** `timedEvents` */
  function TimedEvents(events: seq<Event>, currentDate: Instant): (r: seq<Event>)
    ensures forall e :: e in r <==> e in events && DayOf(e.start) == DayOf(currentDate) && !IsAllDayEvent(e)
  {
    Filter(ShownEvents(events, currentDate), (e: Event) => !IsAllDayEvent(e))
  }

  /** The all-day strip and the timed column share no event and together draw every shown event once. */
  lemma StripAndColumnPartition(events: seq<Event>, currentDate: Instant)
    ensures multiset(AllDayEvents(events, currentDate)) + multiset(TimedEvents(events, currentDate))
         == multiset(ShownEvents(events, currentDate))
    ensures forall e :: e in AllDayEvents(events, currentDate) ==> e !in TimedEvents(events, currentDate)
  {
    FilterPartition(ShownEvents(events, currentDate), IsAllDayEvent, (e: Event) => !IsAllDayEvent(e));
  }
}
