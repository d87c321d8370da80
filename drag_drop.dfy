/**
 * The drag-and-drop hook of the week and day grids
 * (frontend/src/hooks/useCalendarDragDrop.js): snapping a pointer position to
 * a quarter hour, the drop preview, the drop's update request, and the three
 * pieces of hook state as a small state machine.
 */
module DragDrop {
  import opened Time
  import opened Wrappers
  import opened Events

  /** The views laid out as a grid of hours. */
  predicate IsTimeGrid(view: View) {
    view == Week || view == Day
  }

  /** The `.time-grid-container` box: its top edge on screen and how far it is scrolled. */
  datatype GridBox = GridBox(top: real, scrollTop: real)

  /** The day cell under the pointer and the grid container around it, if there is one. */
  datatype DayCell = DayCell(grid: Option<GridBox>)

  /** An hour and a minute of the day, as `getTimePosition` returns them. */
  datatype Snap = Snap(hours: int, minutes: int)

  /** `Math.trunc`. */
  function Trunc(x: real): (r: int)
    ensures x >= 0.0 ==> r == x.Floor
    ensures x < 0.0 ==> r == -((-x).Floor)
    ensures x >= 0.0 ==> 0.0 <= x - r as real < 1.0
    ensures x < 0.0 ==> -1.0 < x - r as real <= 0.0
  {
    if x >= 0.0 then x.Floor else -((-x).Floor)
  }

  /** JavaScript's `x % 60`: the remainder takes the sign of the dividend. */
  function JsRem60(x: real): (r: real)
    ensures x >= 0.0 ==> 0.0 <= r < 60.0
    ensures x <= 0.0 ==> -60.0 < r <= 0.0
    ensures x == 60.0 * (Trunc(x / 60.0) as real) + r
  {
    x - 60.0 * (Trunc(x / 60.0) as real)
  }

  /** `Math.round`: halves round up. */
  function JsRound(x: real): (r: int)
    ensures x - 0.5 < r as real <= x + 0.5
  {
    (x + 0.5).Floor
  }

  function Min(a: int, b: int): int { if a <= b then a else b }
  function Max(a: int, b: int): int { if a >= b then a else b }

  /** The pointer's offset below the top of the hour grid, past the 40px header. */
  function RelativeY(y: real, cell: DayCell): real {
    var top := if cell.grid.Some? then cell.grid.value.top else 0.0;
    var scrollTop := if cell.grid.Some? then cell.grid.value.scrollTop else 0.0;
    y - top + scrollTop - 40.0
  }

  /** Minutes below the top of the grid for an offset, at `cellHeight` pixels per hour. */
  function TotalMinutes(relativeY: real, cellHeight: real): real
    requires cellHeight > 0.0
  {
    relativeY / cellHeight * 60.0
  }

  /** The snapping arithmetic of `getTimePosition`. */
  function SnapOffset(relativeY: real, cellHeight: real): (r: Snap)
    requires cellHeight > 0.0
    ensures 0 <= r.hours <= 23
    ensures -60 <= r.minutes <= 45 && r.minutes % 15 == 0
  {
    var total := TotalMinutes(relativeY, cellHeight);
    var hours := (total / 60.0).Floor;
    var raw := JsRem60(total);
    var minutes := JsRound(raw / 15.0) * 15;
    if minutes == 60 then Snap(Min(hours + 1, 23), 0)
    else Snap(Max(0, Min(hours, 23)), minutes)
  }

  /** `getTimePosition(y, dayElement)`: nothing without a cell or outside the hour grids. */
  function GetTimePosition(view: View, cell: Option<DayCell>, y: real, cellHeight: real): (r: Option<Snap>)
    requires cellHeight > 0.0
    ensures r.None? <==> cell.None? || !IsTimeGrid(view)
    ensures r.Some? ==> r.value == SnapOffset(RelativeY(y, cell.value), cellHeight)
  {
    if cell.None? || !IsTimeGrid(view) then None
    else Some(SnapOffset(RelativeY(y, cell.value), cellHeight))
  }

  /** At or below the top of the grid, the minutes are a quarter hour of the clock. */
  lemma OffsetBelowTopSnapsToQuarter(relativeY: real, cellHeight: real)
    requires cellHeight > 0.0 && relativeY >= 0.0
    ensures SnapOffset(relativeY, cellHeight).minutes in {0, 15, 30, 45}
  {
    var total := TotalMinutes(relativeY, cellHeight);
    assert total >= 0.0;
  }

  /** Above the top of the grid the hour clamps to 0 and the minutes are zero or negative. */
  lemma OffsetAboveTopClampsHour(relativeY: real, cellHeight: real)
    requires cellHeight > 0.0 && relativeY < 0.0
    ensures SnapOffset(relativeY, cellHeight).hours == 0
    ensures SnapOffset(relativeY, cellHeight).minutes in {-60, -45, -30, -15, 0}
  {
    var total := TotalMinutes(relativeY, cellHeight);
    assert total < 0.0;
  }

  /**
   * Away from the clamp at 23:xx, the snapped time is the quarter hour nearest the pointer:
   * within 7.5 minutes of it.
   */
  lemma SnapIsNearestQuarter(relativeY: real, cellHeight: real)
    requires cellHeight > 0.0
    requires 0.0 <= TotalMinutes(relativeY, cellHeight) < 23.0 * 60.0 + 52.5
    ensures var r := SnapOffset(relativeY, cellHeight);
      var t := TotalMinutes(relativeY, cellHeight);
      t - 7.5 <= (60 * r.hours + r.minutes) as real <= t + 7.5
  {
    var total := TotalMinutes(relativeY, cellHeight);
    var hours := (total / 60.0).Floor;
    var raw := JsRem60(total);
    assert total / 60.0 >= 0.0;
    assert raw == total - 60.0 * hours as real;
    assert hours <= 23;
  }

  /** 87px below the header at 60px an hour is 1:27, which snaps to 1:30. */
  lemma SnapExample()
    ensures GetTimePosition(Week, Some(DayCell(None)), 127.0, 60.0) == Some(Snap(1, 30))
  {
    assert RelativeY(127.0, DayCell(None)) == 87.0;
    assert TotalMinutes(87.0, 60.0) == 87.0;
    assert (87.0 / 60.0).Floor == 1;
    assert JsRem60(87.0) == 27.0;
    assert JsRound(27.0 / 15.0) == 2;
  }

  /** 23:55 rounds up to 24:00, whose hour clamps back to 23: the snap is 23:00. */
  lemma LateSnapExample()
    ensures GetTimePosition(Day, Some(DayCell(None)), 1475.0, 60.0) == Some(Snap(23, 0))
  {
    assert RelativeY(1475.0, DayCell(None)) == 1435.0;
    assert TotalMinutes(1435.0, 60.0) == 1435.0;
    assert (1435.0 / 60.0).Floor == 23;
    assert JsRem60(1435.0) == 55.0;
    assert JsRound(55.0 / 15.0) == 4;
  }

  // ---------------------------------------------------------------------------
  // Preview and drop

  /** What `dropPreview` holds: the event moved to a new time, or tagged with the target date. */
  datatype Preview =
    | TimedPreview(event: Event, columnIndex: Option<int>)
    | DatePreview(event: Event, date: Instant, columnIndex: Option<int>)

  /** What `handleDragStart` writes into the drag's data transfer. */
  datatype DragPayload = DragPayload(eventId: int, isAllDay: bool)

  /** The times a timed drop passes along with the update. */
  datatype DropTimes = DropTimes(start: Instant, end: Instant, hours: int, minutes: int)

  /** What a drop does: call `onEventUpdate`, call nothing, or throw for want of a dragged event. */
  datatype DropOutcome =
    | EventUpdate(eventId: int, newDate: Instant, times: Option<DropTimes>)
    | NoUpdate
    | Threw

  /**
   * The preview's end: `setMinutes(getMinutes() + duration)`, where `duration` is the event's own
   * minute count when it has a non-zero one and otherwise its length in minutes, possibly fractional.
   */
  function PreviewEnd(ev: Event, newStart: Instant): Instant {
    var m := MinuteOf(newStart);
    if ev.duration.Some? && ev.duration.value != 0 then
      newStart + ev.duration.value * 60000
    else
      var total := m * 60000 + (ev.end - ev.start);
      var newMinutes := if total >= 0 then total / 60000 else -((-total) / 60000);
      newStart + (newMinutes - m) * 60000
  }

  /**
   * The preview keeps the event's length: exactly its minute count when set, exactly its
   * length when that is whole minutes, and within a minute otherwise.
   */
  lemma PreviewKeepsDuration(ev: Event, newStart: Instant)
    ensures ev.duration.Some? && ev.duration.value != 0 ==>
      PreviewEnd(ev, newStart) - newStart == ev.duration.value * 60000
    ensures (ev.duration.None? || ev.duration.value == 0) && (ev.end - ev.start) % 60000 == 0 ==>
      PreviewEnd(ev, newStart) - newStart == ev.end - ev.start
    ensures ev.duration.None? || ev.duration.value == 0 ==>
      -60000 < PreviewEnd(ev, newStart) - newStart - (ev.end - ev.start) < 60000
  {
    if ev.duration.None? || ev.duration.value == 0 {
      var m := MinuteOf(newStart);
      var delta := ev.end - ev.start;
      var total := m * 60000 + delta;
      var newMinutes := if total >= 0 then total / 60000 else -((-total) / 60000);
      assert PreviewEnd(ev, newStart) - newStart == newMinutes * 60000 - m * 60000;
      if total >= 0 {
        assert total == newMinutes * 60000 + total % 60000;
      } else {
        assert -total == (-newMinutes) * 60000 + (-total) % 60000;
      }
      if delta % 60000 == 0 {
        assert delta == (delta / 60000) * 60000;
        assert total == (m + delta / 60000) * 60000;
      }
    }
  }

  /**
   * The preview `handleDragOver` sets for the dragged event, or `None` when it sets none
   * (a timed drag with no position under the pointer).
   */
  function NewPreview(view: View, dragged: Event, columnIndex: Option<int>, date: Instant,
                      cell: Option<DayCell>, y: real, cellHeight: real): (r: Option<Preview>)
    requires cellHeight > 0.0
    ensures r.None? <==> IsTimeGrid(view) && !dragged.isAllDay && cell.None?
  {
    if IsTimeGrid(view) && !dragged.isAllDay then
      match GetTimePosition(view, cell, y, cellHeight)
      case None => None
      case Some(snap) =>
        var newStart := SetHoursMinutes(date, snap.hours, snap.minutes);
        Some(TimedPreview(dragged.(start := newStart, end := PreviewEnd(dragged, newStart)), columnIndex))
    else
      Some(DatePreview(dragged, date, columnIndex))
  }

  /** What `handleDrop` asks of `onEventUpdate`, from the data transfer and the hook's dragged event. */
  function DropOutcomeOf(view: View, dragged: Option<Event>, payload: DragPayload, date: Instant,
                         hour: Option<int>, cell: Option<DayCell>, y: real, cellHeight: real): DropOutcome
    requires cellHeight > 0.0
  {
    if IsTimeGrid(view) && !payload.isAllDay then
      match GetTimePosition(view, cell, y, cellHeight)
      case Some(snap) =>
        if dragged.None? then Threw
        else
          var newDate := SetHoursMinutes(date, snap.hours, snap.minutes);
          var newEnd := newDate + (dragged.value.end - dragged.value.start);
          EventUpdate(payload.eventId, newDate, Some(DropTimes(newDate, newEnd, snap.hours, snap.minutes)))
      case None =>
        if hour.Some? then EventUpdate(payload.eventId, SetHour(date, hour.value), None) else NoUpdate
    else
      EventUpdate(payload.eventId, if hour.Some? then SetHour(date, hour.value) else date, None)
  }

  /** A timed drop starts at the snapped time of the target day and keeps the dragged event's length. */
  lemma TimedDropKeepsDuration(view: View, dragged: Option<Event>, payload: DragPayload, date: Instant,
                               hour: Option<int>, cell: Option<DayCell>, y: real, cellHeight: real)
    requires cellHeight > 0.0
    requires IsTimeGrid(view) && !payload.isAllDay && cell.Some? && dragged.Some?
    ensures var out := DropOutcomeOf(view, dragged, payload, date, hour, cell, y, cellHeight);
      var snap := SnapOffset(RelativeY(y, cell.value), cellHeight);
      && out.EventUpdate? && out.eventId == payload.eventId && out.times.Some?
      && out.newDate == out.times.value.start == SetHoursMinutes(date, snap.hours, snap.minutes)
      && out.times.value.end - out.times.value.start == dragged.value.end - dragged.value.start
      && DayOf(out.newDate) == DayOf(date) + (60 * snap.hours + snap.minutes) * 60000 / 86400000
  {
    var snap := SnapOffset(RelativeY(y, cell.value), cellHeight);
    var d := DayOf(date);
    var rest := (60 * snap.hours + snap.minutes) * 60000 + SecondOf(date) * 1000 + MillisOf(date);
    var start := SetHoursMinutes(date, snap.hours, snap.minutes);
    assert start == d * 86400000 + rest;
    assert -3600000 <= rest < 86400000;
    if (60 * snap.hours + snap.minutes) < 0 {
      assert rest < 0;
      assert (60 * snap.hours + snap.minutes) * 60000 / 86400000 == -1;
    } else {
      assert (60 * snap.hours + snap.minutes) * 60000 / 86400000 == 0;
    }
  }

  /** Outside the hour grids, or for an all-day event, the drop passes only the date, at `hour` if given. */
  lemma DateDropPassesDate(view: View, dragged: Option<Event>, payload: DragPayload, date: Instant,
                           hour: Option<int>, cell: Option<DayCell>, y: real, cellHeight: real)
    requires cellHeight > 0.0
    requires !IsTimeGrid(view) || payload.isAllDay
    ensures DropOutcomeOf(view, dragged, payload, date, hour, cell, y, cellHeight) ==
      EventUpdate(payload.eventId, if hour.Some? then SetHour(date, hour.value) else date, None)
  {
  }

  /**
   * In the hour grids a timed drop with no cell falls back to `hour`, and with no hour either
   * nothing is updated; with a cell but no dragged event the handler throws.
   */
  lemma TimedDropFallbacks(view: View, dragged: Option<Event>, payload: DragPayload, date: Instant,
                           hour: Option<int>, cell: Option<DayCell>, y: real, cellHeight: real)
    requires cellHeight > 0.0
    requires IsTimeGrid(view) && !payload.isAllDay
    ensures var out := DropOutcomeOf(view, dragged, payload, date, hour, cell, y, cellHeight);
      && (cell.None? && hour.None? <==> out == NoUpdate)
      && (cell.None? && hour.Some? ==> out == EventUpdate(payload.eventId, SetHour(date, hour.value), None))
      && (out == Threw <==> cell.Some? && dragged.None?)
  {
  }

  /** `setHours(h)` moves to hour `h` of the same day and keeps the minutes, seconds and milliseconds. */
  lemma SetHourKeepsMinutes(t: Instant, h: int)
    requires 0 <= h < 24
    ensures DayOf(SetHour(t, h)) == DayOf(t) && HourOf(SetHour(t, h)) == h
    ensures MinuteOf(SetHour(t, h)) == MinuteOf(t) && SecondOf(SetHour(t, h)) == SecondOf(t)
    ensures MillisOf(SetHour(t, h)) == MillisOf(t)
  {
    AtTimeFields(DayOf(t), h, MinuteOf(t), SecondOf(t), MillisOf(t));
  }

  // ---------------------------------------------------------------------------
  // The hook's state

  /** `useCalendarDragDrop`: the view and cell height it was given and its three state fields. */
  class DragState {
    const view: View
    const cellHeight: real
    var draggedEvent: Option<Event>
    var dragOverColumn: Option<int>
    var dropPreview: Option<Preview>

    /** All three fields start out empty. */
    constructor(view: View, cellHeight: real)
      requires cellHeight > 0.0
      ensures this.view == view && this.cellHeight == cellHeight
      ensures draggedEvent == None && dragOverColumn == None && dropPreview == None
    {
      this.view := view;
      this.cellHeight := cellHeight;
      draggedEvent := None;
      dragOverColumn := None;
      dropPreview := None;
    }

    /** `handleDragStart`: remembers the event and writes its id and all-day flag into the transfer. */
    method DragStart(event: Event) returns (payload: DragPayload)
      modifies this
      ensures draggedEvent == Some(event)
      ensures dragOverColumn == old(dragOverColumn) && dropPreview == old(dropPreview)
      ensures payload == DragPayload(event.id, event.isAllDay)
    {
      draggedEvent := Some(event);
      payload := DragPayload(event.id, event.isAllDay);
    }

    /**
     * `handleDragOver`: without a dragged event nothing changes; otherwise the preview is
     * refreshed when there is one to show, and the hovered column is recorded outside Day view.
     */
    method DragOver(columnIndex: Option<int>, date: Instant, cell: Option<DayCell>, y: real)
      requires cellHeight > 0.0
      modifies this
      ensures draggedEvent == old(draggedEvent)
      ensures old(draggedEvent).None? ==> dragOverColumn == old(dragOverColumn) && dropPreview == old(dropPreview)
      ensures old(draggedEvent).Some? ==>
        var np := NewPreview(view, old(draggedEvent).value, columnIndex, date, cell, y, cellHeight);
        && dropPreview == (if np.Some? then np else old(dropPreview))
        && dragOverColumn == (if view != Day then columnIndex else old(dragOverColumn))
    {
      if draggedEvent.None? {
        return;
      }
      var dragged := draggedEvent.value;
      if IsTimeGrid(view) && !dragged.isAllDay {
        var timePosition := GetTimePosition(view, cell, y, cellHeight);
        if timePosition.Some? {
          var newDate := SetHoursMinutes(date, timePosition.value.hours, timePosition.value.minutes);
          var endDate := PreviewEnd(dragged, newDate);
          dropPreview := Some(TimedPreview(dragged.(start := newDate, end := endDate), columnIndex));
        }
      } else {
        dropPreview := Some(DatePreview(dragged, date, columnIndex));
      }
      if view != Day {
        dragOverColumn := columnIndex;
      }
    }

    /** `handleDragLeave`: clears the hovered column and the preview, keeps the dragged event. */
    method DragLeave()
      modifies this
      ensures draggedEvent == old(draggedEvent) && dragOverColumn == None && dropPreview == None
    {
      dragOverColumn := None;
      dropPreview := None;
    }

    /** `handleDragEnd`: clears all three fields. */
    method DragEnd()
      modifies this
      ensures draggedEvent == None && dragOverColumn == None && dropPreview == None
    {
      draggedEvent := None;
      dragOverColumn := None;
      dropPreview := None;
    }

    /**
     * `handleDrop`: computes the update request and clears all three fields; when a timed
     * drop finds no dragged event to measure, the handler throws before clearing anything.
     */
    method Drop(payload: DragPayload, date: Instant, hour: Option<int>, cell: Option<DayCell>, y: real)
      returns (outcome: DropOutcome)
      requires cellHeight > 0.0
      modifies this
      ensures outcome == DropOutcomeOf(view, old(draggedEvent), payload, date, hour, cell, y, cellHeight)
      ensures outcome.Threw? ==> unchanged(this)
      ensures !outcome.Threw? ==> draggedEvent == None && dragOverColumn == None && dropPreview == None
    {
      var newDate := date;
      if IsTimeGrid(view) && !payload.isAllDay {
        var timePosition := GetTimePosition(view, cell, y, cellHeight);
        if timePosition.Some? {
          var hours, minutes := timePosition.value.hours, timePosition.value.minutes;
          newDate := SetHoursMinutes(date, hours, minutes);
          if draggedEvent.None? {
            return Threw;
          }
          var originalEvent := draggedEvent.value;
          var duration := originalEvent.end - originalEvent.start;
          var newEndDate := newDate + duration;
          outcome := EventUpdate(payload.eventId, newDate, Some(DropTimes(newDate, newEndDate, hours, minutes)));
        } else if hour.Some? {
          newDate := SetHour(newDate, hour.value);
          outcome := EventUpdate(payload.eventId, newDate, None);
        } else {
          outcome := NoUpdate;
        }
      } else {
        if hour.Some? {
          newDate := SetHour(newDate, hour.value);
        }
        outcome := EventUpdate(payload.eventId, newDate, None);
      }
      draggedEvent := None;
      dragOverColumn := None;
      dropPreview := None;
    }
  }
}
