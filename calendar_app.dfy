/**
 * The calendar page: the list of events the views draw, the selected date and
 * week, and which modal is open. Every server round trip is reduced to its
 * inputs: whether a session token is stored, whether the server answered
 * `ok`, and the record or list it sent back.
 */
module CalendarApp {
  import opened Time
  import opened Wrappers
  import opened Events
  import opened Lists

  /**
   * `weekStart.setDate(date.getDate() - date.getDay())`: the Sunday on or before
   * the day of `t`, at the same time of day.
   */
  function WeekStart(t: Instant): (r: Instant)
    ensures Weekday(DayOf(r)) == 0
    ensures DayOf(t) - 6 <= DayOf(r) <= DayOf(t)
    ensures MsOfDay(r) == MsOfDay(t)
  {
    var d := DayOf(t);
    var w := Weekday(d);
    assert t == d * 86400000 + MsOfDay(t);
    assert t - w * 86400000 == (d - w) * 86400000 + MsOfDay(t);
    assert (d - w + 4) % 7 == 0 by {
      assert d + 4 == (d + 4) / 7 * 7 + w;
    }
    t - w * 86400000
  }

  /** A week start is its own week start. */
  lemma WeekStartIdempotent(t: Instant)
    ensures WeekStart(WeekStart(t)) == WeekStart(t)
  {
    var r := WeekStart(t);
    assert Weekday(DayOf(r)) == 0;
  }

  /** Every instant in the same week as `t`, from its Sunday to its Saturday, has the same week start's day. */
  lemma WeekStartSameWeek(t: Instant, u: Instant)
    requires DayOf(WeekStart(t)) <= DayOf(u) < DayOf(WeekStart(t)) + 7
    ensures DayOf(WeekStart(u)) == DayOf(WeekStart(t))
  {
    var a := DayOf(WeekStart(t));
    var b := DayOf(WeekStart(u));
    assert (a + 4) % 7 == 0 && (b + 4) % 7 == 0;
    assert b - 6 <= a + 6 && a - 6 <= b;
    assert (b - a) % 7 == 0 by {
      assert b + 4 == (b + 4) / 7 * 7;
      assert a + 4 == (a + 4) / 7 * 7;
    }
  }

  /** `s[i]` is the first event of `s` with id `id`. */
  predicate FirstWithId(s: seq<Event>, id: int, i: int) {
    0 <= i < |s| && s[i].id == id && forall j :: 0 <= j < i ==> s[j].id != id
  }

  /** `events.find(event => event.id === id)`. */
  function FindById(s: seq<Event>, id: int): (r: Option<Event>)
    ensures r.None? <==> id !in Ids(s)
    ensures r.Some? ==> exists i :: FirstWithId(s, id, i) && s[i] == r.value
  {
    if s == [] then None
    else
      assert s == [s[0]] + s[1..];
      IdsOfConcat([s[0]], s[1..]);
      assert Ids([s[0]]) == {s[0].id};
      if s[0].id == id then
        assert FirstWithId(s, id, 0);
        Some(s[0])
      else
        FirstWithIdShift(s, id);
        FindById(s[1..], id)
  }

  /** Past a first event with another id, the first match in the tail is the first match in `s`. */
  lemma FirstWithIdShift(s: seq<Event>, id: int)
    requires s != [] && s[0].id != id
    ensures forall i :: FirstWithId(s[1..], id, i) ==> FirstWithId(s, id, i + 1) && s[i + 1] == s[1..][i]
  {
  }

  /** `events.map(e => e.id === id ? x : e)`: every event with id `id` is replaced by `x`. */
  function ReplaceAll(s: seq<Event>, id: int, x: Event): (r: seq<Event>)
    ensures |r| == |s|
    ensures id !in Ids(s) ==> r == s
  {
    if s == [] then []
    else [if s[0].id == id then x else s[0]] + ReplaceAll(s[1..], id, x)
  }

  /** With the id present, replacing changes the ids only by that id. */
  lemma {:induction false} ReplaceAllIds(s: seq<Event>, id: int, x: Event)
    requires id in Ids(s)
    ensures Ids(ReplaceAll(s, id, x)) == Ids(s) - {id} + {x.id}
  {
    var r := ReplaceAll(s, id, x);
    assert s == [s[0]] + s[1..];
    IdsOfConcat([s[0]], s[1..]);
    IdsOfConcat([r[0]], r[1..]);
    assert Ids([s[0]]) == {s[0].id} && Ids([r[0]]) == {r[0].id};
    if id in Ids(s[1..]) {
      ReplaceAllIds(s[1..], id, x);
    }
  }

  /** Replacing by an event with the same id touches exactly the events with that id. */
  lemma {:induction false} ReplaceAllAt(s: seq<Event>, id: int, x: Event, i: int)
    requires 0 <= i < |s|
    ensures s[i].id == id ==> ReplaceAll(s, id, x)[i] == x
    ensures s[i].id != id ==> ReplaceAll(s, id, x)[i] == s[i]
  {
    if i > 0 {
      ReplaceAllAt(s[1..], id, x, i - 1);
    }
  }

  /** Replacing by a record that keeps the id keeps the ids distinct, and finding the id finds the record. */
  lemma ReplaceKeepsDistinct(s: seq<Event>, id: int, x: Event)
    requires DistinctIds(s) && x.id == id && id in Ids(s)
    ensures DistinctIds(ReplaceAll(s, id, x))
    ensures Ids(ReplaceAll(s, id, x)) == Ids(s)
    ensures FindById(ReplaceAll(s, id, x), id) == Some(x)
  {
    var r := ReplaceAll(s, id, x);
    ReplaceAllIds(s, id, x);
    ReplaceKeepsIdsAt(s, id, x);
    assert DistinctIds(r);
    var found := FindById(r, id);
    var k :| FirstWithId(r, id, k) && r[k] == found.value;
    ReplaceAllAt(s, id, x, k);
  }

  /** Replacing by a record with the same id keeps the id at every position. */
  lemma ReplaceKeepsIdsAt(s: seq<Event>, id: int, x: Event)
    requires x.id == id
    ensures |ReplaceAll(s, id, x)| == |s|
    ensures forall i :: 0 <= i < |s| ==> ReplaceAll(s, id, x)[i].id == s[i].id
  {
    forall i | 0 <= i < |s| ensures ReplaceAll(s, id, x)[i].id == s[i].id {
      ReplaceAllAt(s, id, x, i);
    }
  }

  /** `events.filter(event => event.id !== id)`. */
  function Delete(s: seq<Event>, id: int): (r: seq<Event>) {
    Filter(s, (e: Event) => e.id != id)
  }

  /** Deleting removes the id, keeps every other event, and keeps the survivors in order. */
  lemma DeleteRemoves(s: seq<Event>, id: int)
    ensures Ids(Delete(s, id)) == Ids(s) - {id}
    ensures forall e :: e in s && e.id != id ==> e in Delete(s, id)
    ensures |Delete(s, id)| + |Filter(s, (e: Event) => e.id == id)| == |s|
  {
    var p := (e: Event) => e.id != id;
    var q := (e: Event) => e.id == id;
    FilterPartition(s, p, q);
    assert |multiset(Filter(s, p))| + |multiset(Filter(s, q))| == |multiset(s)|;
  }

  /** Deleting an id that is absent changes nothing. */
  lemma DeleteAbsent(s: seq<Event>, id: int)
    requires id !in Ids(s)
    ensures Delete(s, id) == s
  {
    assert forall e :: e in s ==> e.id != id;
    FilterKeepsAll(s, (e: Event) => e.id != id);
  }

  /** `event.id` used as a condition: a missing id and the id 0 are both false. */
  predicate IsTruthyId(id: Option<int>) {
    id.Some? && id.value != 0
  }

  /** The list after the server saved `saved`: an edit replaces the edited record, a new event is appended. */
  function SavedEvents(s: seq<Event>, id: Option<int>, saved: Event): (r: seq<Event>)
    ensures !IsTruthyId(id) ==> |r| == |s| + 1 && r[..|s|] == s && r[|s|] == saved
    ensures IsTruthyId(id) ==> |r| == |s|
  {
    if IsTruthyId(id) then ReplaceAll(s, id.value, saved) else s + [saved]
  }

  /** Saving keeps the ids distinct: an edit keeps the id, a new event arrives with a fresh one. */
  lemma SaveKeepsDistinct(s: seq<Event>, id: Option<int>, saved: Event)
    requires DistinctIds(s)
    requires IsTruthyId(id) ==> id.value in Ids(s) && saved.id == id.value
    requires !IsTruthyId(id) ==> saved.id !in Ids(s)
    ensures DistinctIds(SavedEvents(s, id, saved))
    ensures Ids(SavedEvents(s, id, saved)) == Ids(s) + {saved.id}
    ensures FindById(SavedEvents(s, id, saved), saved.id) == Some(saved)
  {
    if IsTruthyId(id) {
      ReplaceKeepsDistinct(s, id.value, saved);
    } else {
      var r := s + [saved];
      assert Ids([saved]) == {saved.id};
      IdsOfConcat(s, [saved]);
      DistinctConcat(s, [saved]);
      forall j | 0 <= j < |s| ensures r[j].id != saved.id {
        assert r[j] == s[j] && s[j] in s;
      }
      var found := FindById(r, saved.id);
      var k :| FirstWithId(r, saved.id, k) && r[k] == found.value;
      assert k == |s|;
    }
  }

  /**
   * The event moved to the day of `newDate`: `new Date(newDate)` given the hours,
   * minutes and seconds of the old start (the milliseconds stay those of `newDate`),
   * and the end at the old length after it.
   */
  function Moved(ev: Event, newDate: Instant): (r: Event)
    ensures r.id == ev.id && r.title == ev.title && r.calendar == ev.calendar
  {
    var start := AtTime(DayOf(newDate), HourOf(ev.start), MinuteOf(ev.start), SecondOf(ev.start), MillisOf(newDate));
    ev.(start := start, end := start + (ev.end - ev.start))
  }

  /** A moved event lands on the new day at its old time of day and keeps its length. */
  lemma MovedKeepsTimeAndLength(ev: Event, newDate: Instant)
    ensures var r := Moved(ev, newDate);
      DayOf(r.start) == DayOf(newDate) &&
      HourOf(r.start) == HourOf(ev.start) && MinuteOf(r.start) == MinuteOf(ev.start) &&
      SecondOf(r.start) == SecondOf(ev.start) && MillisOf(r.start) == MillisOf(newDate) &&
      r.end - r.start == ev.end - ev.start
  {
    AtTimeFields(DayOf(newDate), HourOf(ev.start), MinuteOf(ev.start), SecondOf(ev.start), MillisOf(newDate));
  }

  /** The optimistic list of `handleEventUpdate`: unchanged when no event has the id. */
  function UpdatedEvents(s: seq<Event>, id: int, newDate: Instant): (r: seq<Event>)
    ensures id !in Ids(s) ==> r == s
    ensures |r| == |s| && Ids(r) == Ids(s)
  {
    match FindById(s, id)
    case None => s
    case Some(ev) =>
      ReplaceAllIds(s, id, Moved(ev, newDate));
      ReplaceAll(s, id, Moved(ev, newDate))
  }

  /** The optimistic update moves every event with the id, and only those, to the new day. */
  lemma UpdateMovesTarget(s: seq<Event>, id: int, newDate: Instant, i: int)
    requires 0 <= i < |s| && id in Ids(s)
    ensures s[i].id != id ==> UpdatedEvents(s, id, newDate)[i] == s[i]
    ensures s[i].id == id ==> exists k :: FirstWithId(s, id, k) && UpdatedEvents(s, id, newDate)[i] == Moved(s[k], newDate)
  {
    var ev := FindById(s, id).value;
    ReplaceAllAt(s, id, Moved(ev, newDate), i);
  }

  class App {
    var events: seq<Event>
    var selectedDate: Option<Instant>
    var selectedWeekStart: Option<Instant>
    var isAddingEvent: bool
    var selectedEvent: Option<Event>
    var isEventDetailsOpen: bool
    var isSidebarOpen: bool

    /** The initial state of the page's hooks. */
    constructor()
      ensures events == [] && selectedDate == None && selectedWeekStart == None
      ensures !isAddingEvent && selectedEvent == None && !isEventDetailsOpen && !isSidebarOpen
    {
      events := [];
      selectedDate := None;
      selectedWeekStart := None;
      isAddingEvent := false;
      selectedEvent := None;
      isEventDetailsOpen := false;
      isSidebarOpen := false;
    }

    /** `fetchEvents`: the server's list replaces the local one; without a token or an answer nothing changes. */
    method FetchEvents(token: bool, fetched: Option<seq<Event>>)
      modifies this
      ensures events == (if token && fetched.Some? then fetched.value else old(events))
      ensures selectedDate == old(selectedDate) && selectedWeekStart == old(selectedWeekStart)
      ensures isAddingEvent == old(isAddingEvent) && selectedEvent == old(selectedEvent)
      ensures isEventDetailsOpen == old(isEventDetailsOpen) && isSidebarOpen == old(isSidebarOpen)
    {
      if token && fetched.Some? {
        events := fetched.value;
      }
    }

    /** The mount effect: select today and its week, then load the events. */
    method Open(today: Instant, token: bool, fetched: Option<seq<Event>>)
      modifies this
      ensures selectedDate == Some(today) && selectedWeekStart == Some(WeekStart(today))
      ensures events == (if token && fetched.Some? then fetched.value else old(events))
      ensures isAddingEvent == old(isAddingEvent) && selectedEvent == old(selectedEvent)
      ensures isEventDetailsOpen == old(isEventDetailsOpen) && isSidebarOpen == old(isSidebarOpen)
    {
      selectedWeekStart := Some(WeekStart(today));
      selectedDate := Some(today);
      FetchEvents(token, fetched);
    }

    /**
     * Selecting a date from the header arrows, a day cell or the mini calendar:
     * the date becomes selected, and in the week view its week becomes the selected week.
     */
    method SelectDate(date: Instant, view: View)
      modifies this
      ensures selectedDate == Some(date)
      ensures selectedWeekStart == (if view == Week then Some(WeekStart(date)) else old(selectedWeekStart))
      ensures events == old(events) && isAddingEvent == old(isAddingEvent) && selectedEvent == old(selectedEvent)
      ensures isEventDetailsOpen == old(isEventDetailsOpen) && isSidebarOpen == old(isSidebarOpen)
    {
      if view == Week {
        selectedWeekStart := Some(WeekStart(date));
      }
      selectedDate := Some(date);
    }

    /** `handleAddEvent`: opens an empty form on `date`, or on the selected date when none is given. */
    method AddEvent(date: Option<Instant>)
      modifies this
      ensures selectedEvent == None && isAddingEvent
      ensures selectedDate == (if date.Some? then date else old(selectedDate))
      ensures events == old(events) && selectedWeekStart == old(selectedWeekStart)
      ensures isEventDetailsOpen == old(isEventDetailsOpen) && isSidebarOpen == old(isSidebarOpen)
    {
      selectedEvent := None;
      selectedDate := if date.Some? then date else selectedDate;
      isAddingEvent := true;
    }

    /** `handleEventClick`: shows the details of `ev`. */
    method EventClick(ev: Event)
      modifies this
      ensures selectedEvent == Some(ev) && isEventDetailsOpen
      ensures events == old(events) && selectedDate == old(selectedDate) && selectedWeekStart == old(selectedWeekStart)
      ensures isAddingEvent == old(isAddingEvent) && isSidebarOpen == old(isSidebarOpen)
    {
      selectedEvent := Some(ev);
      isEventDetailsOpen := true;
    }

    /** `handleCloseEventDetails` */
    method CloseEventDetails()
      modifies this
      ensures !isEventDetailsOpen && selectedEvent == None
      ensures events == old(events) && selectedDate == old(selectedDate) && selectedWeekStart == old(selectedWeekStart)
      ensures isAddingEvent == old(isAddingEvent) && isSidebarOpen == old(isSidebarOpen)
    {
      isEventDetailsOpen := false;
      selectedEvent := None;
    }

    /** `handleEditFromDetails`: the details close and the form opens on the same selected event. */
    method EditFromDetails()
      modifies this
      ensures !isEventDetailsOpen && isAddingEvent && selectedEvent == old(selectedEvent)
      ensures events == old(events) && selectedDate == old(selectedDate) && selectedWeekStart == old(selectedWeekStart)
      ensures isSidebarOpen == old(isSidebarOpen)
    {
      isEventDetailsOpen := false;
      isAddingEvent := true;
    }

    /** `handleCloseModal` */
    method CloseModal()
      modifies this
      ensures !isAddingEvent && selectedEvent == None
      ensures events == old(events) && selectedDate == old(selectedDate) && selectedWeekStart == old(selectedWeekStart)
      ensures isEventDetailsOpen == old(isEventDetailsOpen) && isSidebarOpen == old(isSidebarOpen)
    {
      isAddingEvent := false;
      selectedEvent := None;
    }

    /** `toggleSidebar` */
    method ToggleSidebar()
      modifies this
      ensures isSidebarOpen == !old(isSidebarOpen)
      ensures events == old(events) && selectedDate == old(selectedDate) && selectedWeekStart == old(selectedWeekStart)
      ensures isAddingEvent == old(isAddingEvent) && selectedEvent == old(selectedEvent)
      ensures isEventDetailsOpen == old(isEventDetailsOpen)
    {
      isSidebarOpen := !isSidebarOpen;
    }

    /**
     * `handleSaveEvent`: a PUT for a truthy id, a POST otherwise; on `ok` the server's
     * record `saved` enters the list and the form closes; otherwise nothing changes.
     */
    method SaveEvent(token: bool, id: Option<int>, ok: bool, saved: Event)
      modifies this
      ensures events == (if token && ok then SavedEvents(old(events), id, saved) else old(events))
      ensures token && ok ==> !isAddingEvent && selectedEvent == None
      ensures !(token && ok) ==> isAddingEvent == old(isAddingEvent) && selectedEvent == old(selectedEvent)
      ensures selectedDate == old(selectedDate) && selectedWeekStart == old(selectedWeekStart)
      ensures isEventDetailsOpen == old(isEventDetailsOpen) && isSidebarOpen == old(isSidebarOpen)
    {
      if !token {
        return;
      }
      if ok {
        events := SavedEvents(events, id, saved);
        isAddingEvent := false;
        selectedEvent := None;
      }
    }

    /** `handleDeleteEvent`: on `ok` the event leaves the list and its details close. */
    method DeleteEvent(token: bool, id: int, ok: bool)
      modifies this
      ensures events == (if token && ok then Delete(old(events), id) else old(events))
      ensures token && ok ==> !isEventDetailsOpen && selectedEvent == None
      ensures !(token && ok) ==> isEventDetailsOpen == old(isEventDetailsOpen) && selectedEvent == old(selectedEvent)
      ensures selectedDate == old(selectedDate) && selectedWeekStart == old(selectedWeekStart)
      ensures isAddingEvent == old(isAddingEvent) && isSidebarOpen == old(isSidebarOpen)
    {
      if !token {
        return;
      }
      if ok {
        events := Delete(events, id);
        isEventDetailsOpen := false;
        selectedEvent := None;
      }
    }

    /**
     * `handleEventUpdate`: the event is moved in the list before the server answers;
     * when the server refuses, the list is fetched again (`reloaded`, when that fetch answers).
     */
    method EventUpdate(token: bool, id: int, newDate: Instant, ok: bool, reloaded: Option<seq<Event>>)
      modifies this
      ensures !token || id !in Ids(old(events)) ==> events == old(events)
      ensures token && ok ==> events == UpdatedEvents(old(events), id, newDate)
      ensures token && id in Ids(old(events)) && !ok ==>
        events == (if reloaded.Some? then reloaded.value else UpdatedEvents(old(events), id, newDate))
      ensures selectedDate == old(selectedDate) && selectedWeekStart == old(selectedWeekStart)
      ensures isAddingEvent == old(isAddingEvent) && selectedEvent == old(selectedEvent)
      ensures isEventDetailsOpen == old(isEventDetailsOpen) && isSidebarOpen == old(isSidebarOpen)
    {
      if !token {
        return;
      }
      var found := FindById(events, id);
      if found.None? {
        return;
      }
      events := ReplaceAll(events, id, Moved(found.value, newDate));
      if !ok {
        FetchEvents(true, reloaded);
      }
    }
  }
}
