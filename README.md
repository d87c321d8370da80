# Timewise calendar front end, modelled in Dafny

Timewise is a calendar web application. This project models the logic of its
React front end:

- the calendar shell (`CalendarApp`): the event list, the selected date and
  week, the dialogs, and saving, deleting and moving events;
- the day view's all-day strip, its timed column and its pixel geometry;
- the month view's six-week grid;
- the layout of overlapping events: columns (`calculateEventColumns`) and
  container segments (`processEvents`);
- drag and drop with quarter-hour snapping;
- the add/edit dialog: its pre-filled times and the record it saves;
- the sidebar's mini-calendar toggle, task list, calendar filter panel and
  the friends page.

Instants are integers counting milliseconds. Day `DayOf(t) = t / 86400000`
is the calendar date, and the hour, minute, second and millisecond fields are
read off the rest. There is one clock and no time zone. Civil dates
(year, month 1..12, day) appear only where the month grid needs them
(`Time.DaysFromCivil`).

State that a component updates through React hooks is a `class`:
`CalendarApp.App`, `DragDrop.DragState`, `EventModal.Modal`,
`Sidebar.Sidebar`, `CalendarFilter.Filter` and `FriendPage.Page`. Each handler
is a method whose `ensures` gives the whole new state. Server responses are
method parameters:

- `ok` says whether the request succeeded;
- `fetched`, `reloaded` and `saved` hold what the server returned;
- `token` says whether a login token is stored.

The loops of the layout passes and of the month grid are methods proved equal
to recursive specification functions. The properties are lemmas about those
functions.

Modules (one per file):

- `Wrappers`: `Option`.
- `Time`: instants, date fields, weekdays, civil dates.
- `Events`: the event record, views, ids.
- `Lists`: `filter`.
- `Text`: `trim`, `toLowerCase`, `includes`.
- `Sorting`: the stable `Array.prototype.sort`.
- `Positioning`: `calendarPositioningUtils.js`.
- `DragDrop`: `useCalendarDragDrop.js`.
- `CalendarApp`, `DayView`, `MonthView`, `Tasks`, `EventModal`, `Sidebar`,
  `CalendarFilter`, `FriendPage`: the components of the same names.

Some consequences of what the code does:

- Overlapping events do not always share one column group. The code builds
  each group from the events that overlap the group's first event. In a
  chain a-b-c where only neighbours overlap, c therefore gets a group of its
  own (`Positioning.ChainIsNotOneGroup`).
- Snapping while dragging above the top of the grid can give the minutes
  -15, -30, -45 or -60 (`DragDrop.OffsetAboveTopClampsHour`).
- After a failed move the events are fetched again. They are not restored
  from a saved copy (`CalendarApp.App.EventUpdate`).
- The day view's event height reads only hours and minutes. An event that
  ends on a later day at an earlier time of day gets a negative height
  (`DayView.OvernightHeightIsNegative`).

## Model

Source paths are relative to the repository root.

| member | source | states |
|---|---|---|
| Time.StartOfDay | frontend/src/components/Sidebar/Tasks.js:15-16 | `setHours(0,0,0,0)`: the midnight on or before `t`, less than a day before it, on the same date |
| Time.HourOf | frontend/src/components/Calendar/DayView.js:19-27 | `getHours()` lies in 0..23 |
| Time.MinuteOf | frontend/src/components/Calendar/DayView.js:19-27 | `getMinutes()` lies in 0..59 |
| Time.MinuteOfDay | frontend/src/components/Calendar/DayView.js:29-38 | minutes since midnight lie in 0..1439 |
| Time.MinuteOfDayMeaning | frontend/src/components/Calendar/DayView.js:29-38 | `hours * 60 + minutes` is the count of whole minutes of the time of day |
| Time.MinuteOfDayShift | frontend/src/components/Modals/AddEditEventModal.js:114-119 | adding k minutes to a whole-minute instant adds k to its minute of day, wrapping at midnight |
| Time.FieldsRoundTrip | frontend/src/components/Calendar/CalendarApp.js:197-202 | rebuilding an instant from its date, hour, minute, second and millisecond gives it back |
| Time.AtTimeFields | frontend/src/components/Calendar/CalendarApp.js:201-202 | building an instant from in-range fields and reading them gives the same fields |
| Time.Weekday | frontend/src/components/Calendar/CalendarApp.js:31-33 | `getDay()` lies in 0..6 |
| Time.DaysInMonth | frontend/src/components/Calendar/MonthView.js:28-30 | a month has 28..31 days, and February has 29 exactly in leap years |
| Time.YearLength | frontend/src/components/Calendar/MonthView.js:28-30 | consecutive 1 Januaries are 366 days apart in a leap year and 365 otherwise |
| Time.MonthsAreContiguous | frontend/src/components/Calendar/MonthView.js:45-59 | the day after a month's last day is the first of the next month |
| Time.KnownDates | frontend/src/components/Calendar/MonthView.js:32-34 | the civil-date count puts 1970-01-01 at day 0 and 2024-01-01 on a Monday |
| Time.NextMonth | frontend/src/components/Calendar/MonthView.js:48-59 | `new Date(y, m + 1, d)` normalises to a month in 1..12 |
| Time.PrevMonth | frontend/src/components/Calendar/MonthView.js:39-44 | `new Date(y, m - 1, d)` normalises to a month in 1..12 |
| Events.IdsOfConcat | frontend/src/components/Calendar/CalendarApp.js:145-151 | the ids of a concatenation are the union of the ids |
| Events.DistinctConcat | frontend/src/components/Calendar/CalendarApp.js:145-151 | two lists with distinct, disjoint ids concatenate to a list with distinct ids |
| Lists.Filter | frontend/src/components/Calendar/CalendarApp.js:177 | `filter` keeps exactly the elements that pass, each of which passes, never lengthening the list |
| Lists.FilterConcat | frontend/src/components/Calendar/DayView.js:55-61 | filtering keeps order: the filter of a concatenation is the concatenation of the filters |
| Lists.FilterKeepsAll | frontend/src/components/Calendar/DayView.js:55-58 | a filter every element passes returns the list unchanged |
| Lists.FilterPartition | frontend/src/components/Calendar/DayView.js:60-61 | filtering by a condition and by its negation splits a list into two disjoint parts that add up to it |
| Lists.FilterSameCondition | frontend/src/components/Friends/FriendPage.js:45-50 | filters whose conditions agree on the list give the same result |
| Text.Trim | frontend/src/components/Modals/AddEditEventModal.js:133 | `trim()` returns a slice with blanks outside it and non-blank ends |
| Text.TrimEmptyIffBlank | frontend/src/components/Friends/FriendPage.js:154 | a string trims to empty exactly when every character is blank |
| Text.TrimIdempotent | frontend/src/components/Modals/AddEditEventModal.js:133 | trimming twice is trimming once |
| Text.ToLower | frontend/src/components/Friends/FriendPage.js:47 | `toLowerCase()` keeps the length and maps each character to one with no capital |
| Text.ToLowerIdempotent | frontend/src/components/Friends/FriendPage.js:47 | lower-casing twice is lower-casing once |
| Text.Includes | frontend/src/components/Friends/FriendPage.js:47 | `includes` holds exactly when the term occurs at some position |
| Text.IncludesEmpty | frontend/src/components/Friends/FriendPage.js:47 | every string includes the empty string |
| Sorting.InsertPermutes | frontend/src/components/Sidebar/Tasks.js:47-51 | inserting adds exactly the one element |
| Sorting.InsertSorted | frontend/src/components/Sidebar/Tasks.js:47-51 | inserting into a sorted list keeps it sorted |
| Sorting.SortBy | frontend/src/utils/calendarPositioningUtils.js:32-41 | `sort` returns its input ordered by the comparator's key |
| Sorting.SortPermutes | frontend/src/utils/calendarPositioningUtils.js:32-41 | `sort` returns a permutation of its input |
| Sorting.SortIsStable | frontend/src/utils/calendarPositioningUtils.js:32-41 | elements with equal keys keep their input order |
| Sorting.SortKeepsElements | frontend/src/utils/calendarPositioningUtils.js:108-112 | sorting keeps exactly the same events and ids |
| Sorting.SortKeepsDistinct | frontend/src/utils/calendarPositioningUtils.js:108-112 | sorting events with distinct ids gives distinct ids |
| Sorting.SortOfSorted | frontend/src/utils/calendarPositioningUtils.js:32-41 | sorting a sorted list changes nothing |
| Positioning.OverlapMeansCommonInstant | frontend/src/utils/calendarPositioningUtils.js:19-25 | two non-empty events overlap exactly when their half-open intervals share an instant |
| Positioning.OverlapSymmetric | frontend/src/utils/calendarPositioningUtils.js:19-25 | overlap is symmetric, and back-to-back events do not overlap |
| Positioning.ContainmentIsPreorder | frontend/src/utils/calendarPositioningUtils.js:3-17 | containment is reflexive and transitive; an exact time match is containment both ways |
| Positioning.ContainedOverlaps | frontend/src/utils/calendarPositioningUtils.js:11-25 | a non-empty event inside another overlaps it |
| Positioning.GroupPosition | frontend/src/utils/calendarPositioningUtils.js:86-97 | member `index` of a group of `n` gets column `index`, a positive width inside 95%, and z-index `20 + index` |
| Positioning.PlacementBounds | frontend/src/utils/calendarPositioningUtils.js:72-97 | every placement has its column inside its group and stays inside the track |
| Positioning.Columns | frontend/src/utils/calendarPositioningUtils.js:27-101 | the column map has exactly one placement for each event id |
| Positioning.CalculateEventColumns | frontend/src/utils/calendarPositioningUtils.js:27-101 | the three passes compute `Columns(events)` |
| Positioning.FlagOverlaps | frontend/src/utils/calendarPositioningUtils.js:43-51 | the first pass flags exactly the ids of `FlaggedIds` |
| Positioning.CollectGroup | frontend/src/utils/calendarPositioningUtils.js:61-67 | a group is its head followed by the later-scanned unprocessed events overlapping the head |
| Positioning.MarkProcessed | frontend/src/utils/calendarPositioningUtils.js:69 | every group member is marked processed |
| Positioning.GroupEvents | frontend/src/utils/calendarPositioningUtils.js:53-83 | the second pass computes the grouping specification |
| Positioning.PlaceAllGroups | frontend/src/utils/calendarPositioningUtils.js:85-98 | the third pass places every group as the specification does |
| Positioning.PlaceGroup | frontend/src/utils/calendarPositioningUtils.js:86-97 | one group's members are placed side by side |
| Positioning.PlaceMembersKeys | frontend/src/utils/calendarPositioningUtils.js:88-96 | placing a group's members adds exactly their ids to the position map and keeps every other entry's key |
| Positioning.FlaggedIdsMeaning | frontend/src/utils/calendarPositioningUtils.js:43-51 | an id is flagged exactly when its event is one of an overlapping pair |
| Positioning.OverlappingEventsFlagged | frontend/src/utils/calendarPositioningUtils.js:43-51 | both events of an overlapping pair with different ids are flagged |
| Positioning.FlaggedIffOverlapsAnother | frontend/src/utils/calendarPositioningUtils.js:43-51 | with distinct ids, an event is flagged exactly when it overlaps another event |
| Positioning.ColumnsCoverIds | frontend/src/utils/calendarPositioningUtils.js:53-83 | the grouping pass processes every id; each id is placed solo or in a group |
| Positioning.GroupedIdsAreFlagged | frontend/src/utils/calendarPositioningUtils.js:57-83 | the grouped ids are exactly the flagged ones, and the solo ids are the rest |
| Positioning.SoloIffUnflagged | frontend/src/utils/calendarPositioningUtils.js:71-82 | an event gets the whole track exactly when the first pass did not flag it |
| Positioning.SoloIffNoOverlap | frontend/src/utils/calendarPositioningUtils.js:71-82 | with distinct ids, an event gets the whole track exactly when it overlaps no other event |
| Positioning.SeparateGroupsUpTo | frontend/src/utils/calendarPositioningUtils.js:57-70 | with distinct ids, the groups have distinct ids, are in layout order, and share no id |
| Positioning.GroupsArePlaced | frontend/src/utils/calendarPositioningUtils.js:86-97 | with distinct ids, member `i` of each group gets exactly `GroupPosition(i, size)` |
| Positioning.ThreeWayGroup | frontend/src/utils/calendarPositioningUtils.js:57-97 | three events whose first overlaps the other two share one group of three columns |
| Positioning.ThreeWayExample | frontend/src/utils/calendarPositioningUtils.js:57-97 | 09:00-10:00, 09:30-10:30 and 09:45-10:15 get three columns of 95/3 percent |
| Positioning.ChainIsNotOneGroup | frontend/src/utils/calendarPositioningUtils.js:61-67 | in a chain a-b-c where a and c do not overlap, c opens a group of its own |
| Positioning.ChainExample | frontend/src/utils/calendarPositioningUtils.js:61-67 | 09:00-10:00, 09:30-11:00 and 10:30-12:00 give two groups |
| Positioning.SingleColumn | frontend/src/utils/calendarPositioningUtils.js:71-82 | a lone event gets the whole track |
| Positioning.OpacityOrDefault | frontend/src/utils/calendarPositioningUtils.js:147 | `opacity \|\| 0.65` keeps a non-zero opacity and never yields zero |
| Positioning.ContainedIn | frontend/src/utils/calendarPositioningUtils.js:118-122 | the contained events are those of the list, other than the container, unprocessed and inside it |
| Positioning.Unprocessed | frontend/src/utils/calendarPositioningUtils.js:155 | the remaining events are exactly those not processed |
| Positioning.UnprocessedIds | frontend/src/utils/calendarPositioningUtils.js:155 | the remaining ids are the ids minus the processed ones |
| Positioning.WellPlacedBounds | frontend/src/utils/calendarPositioningUtils.js:124-167 | containers span 95% at z-index 5; contained segments are inset by 4% and scaled by 0.92; the others keep their columns |
| Positioning.ContainerPass | frontend/src/utils/calendarPositioningUtils.js:108-151 | after any number of events the container loop has produced only container blocks, each well placed and nested, and, with distinct ids, draws distinct events of its input, exactly the ids it marked processed |
| Positioning.SegmentsAreShaped | frontend/src/utils/calendarPositioningUtils.js:103-171 | every segment is well placed; each contained segment follows a container that holds it; no container follows an uncontained segment |
| Positioning.SegmentsCoverEvents | frontend/src/utils/calendarPositioningUtils.js:103-171 | with distinct ids, `processEvents` draws every event exactly once and nothing else |
| Positioning.ContainerExample | frontend/src/utils/calendarPositioningUtils.js:108-151 | of two events, the longer one containing the other, the longer becomes a container holding the shorter |
| Positioning.ContainmentExample | frontend/src/utils/calendarPositioningUtils.js:108-151 | 09:00-12:00 and 10:00-10:30 give a container and a contained segment |
| Positioning.LongerFirst | frontend/src/utils/calendarPositioningUtils.js:108-112 | the duration sort puts the longer event first |
| Positioning.ProcessEvents | frontend/src/utils/calendarPositioningUtils.js:103-171 | the container pass and the remaining pass compute `Segments(events)` |
| Positioning.EmitContained | frontend/src/utils/calendarPositioningUtils.js:136-150 | one contained segment per contained event, each marked processed |
| Positioning.EmitUncontained | frontend/src/utils/calendarPositioningUtils.js:158-167 | one segment per remaining event, placed by its column |
| DragDrop.Trunc | frontend/src/hooks/useCalendarDragDrop.js:27-30 | truncation toward zero lies within one of its argument on the zero side |
| DragDrop.JsRem60 | frontend/src/hooks/useCalendarDragDrop.js:30 | `% 60` takes the dividend's sign and rebuilds the dividend with the truncated quotient |
| DragDrop.JsRound | frontend/src/hooks/useCalendarDragDrop.js:32 | `Math.round` is within a half of its argument |
| DragDrop.SnapOffset | frontend/src/hooks/useCalendarDragDrop.js:21-45 | the snapped hour lies in 0..23; the minutes are a multiple of 15 in -60..45 |
| DragDrop.GetTimePosition | frontend/src/hooks/useCalendarDragDrop.js:13-46 | no position without a day cell or outside the week and day views; otherwise the snap of the offset |
| DragDrop.OffsetBelowTopSnapsToQuarter | frontend/src/hooks/useCalendarDragDrop.js:27-45 | below the top of the grid the minutes are 0, 15, 30 or 45 |
| DragDrop.OffsetAboveTopClampsHour | frontend/src/hooks/useCalendarDragDrop.js:27-45 | above the top of the grid the hour is 0 and the minutes are 0 or negative |
| DragDrop.SnapIsNearestQuarter | frontend/src/hooks/useCalendarDragDrop.js:24-45 | inside the day the snap is the quarter hour nearest the pointer, within 7.5 minutes |
| DragDrop.SnapExample | frontend/src/hooks/useCalendarDragDrop.js:13-46 | 87 px below the header at 60 px an hour snaps to 1:30 |
| DragDrop.LateSnapExample | frontend/src/hooks/useCalendarDragDrop.js:34-40 | 23:55 snaps to 23:00, because the hour after rounding is clamped |
| DragDrop.PreviewKeepsDuration | frontend/src/hooks/useCalendarDragDrop.js:85-90 | the preview lasts the stored duration in minutes, or the event's own length |
| DragDrop.NewPreview | frontend/src/hooks/useCalendarDragDrop.js:78-106 | no preview only for a timed event over an hour grid without a cell |
| DragDrop.TimedDropKeepsDuration | frontend/src/hooks/useCalendarDragDrop.js:144-163 | a timed drop starts at the snapped time of the target day and keeps the event's length |
| DragDrop.DateDropPassesDate | frontend/src/hooks/useCalendarDragDrop.js:168-173 | outside the hour grids, or for an all-day event, only the date is passed, at `hour` if given |
| DragDrop.TimedDropFallbacks | frontend/src/hooks/useCalendarDragDrop.js:164-167 | without a snap position the drop uses the given hour, or does nothing |
| DragDrop.SetHourKeepsMinutes | frontend/src/hooks/useCalendarDragDrop.js:165 | `setHours(h)` keeps the date, minutes, seconds and milliseconds |
| DragDrop.DragState.constructor | frontend/src/hooks/useCalendarDragDrop.js:9-11 | nothing is dragged, hovered or previewed |
| DragDrop.DragState.DragStart | frontend/src/hooks/useCalendarDragDrop.js:48-71 | the event becomes the dragged one; the transfer holds its id and all-day flag |
| DragDrop.DragState.DragOver | frontend/src/hooks/useCalendarDragDrop.js:73-118 | nothing happens without a dragged event; otherwise the preview is set, and the column is set outside the day view |
| DragDrop.DragState.DragLeave | frontend/src/hooks/useCalendarDragDrop.js:120-125 | the column and the preview are cleared |
| DragDrop.DragState.DragEnd | frontend/src/hooks/useCalendarDragDrop.js:127-132 | the dragged event, the column and the preview are cleared |
| DragDrop.DragState.Drop | frontend/src/hooks/useCalendarDragDrop.js:134-186 | the update call is `DropOutcomeOf`; a throw leaves the state, any other outcome clears it |
| CalendarApp.WeekStart | frontend/src/components/Calendar/CalendarApp.js:71-89 | the week start is the Sunday on or before the date, at the same time of day |
| CalendarApp.WeekStartIdempotent | frontend/src/components/Calendar/CalendarApp.js:249-257 | a week start is its own week start |
| CalendarApp.WeekStartSameWeek | frontend/src/components/Calendar/CalendarApp.js:71-89 | every day from a Sunday to the next Saturday has that Sunday as its week start |
| CalendarApp.FindById | frontend/src/components/Calendar/CalendarApp.js:194-195 | `find` fails exactly when the id is absent, and otherwise returns the first event with the id |
| CalendarApp.ReplaceAll | frontend/src/components/Calendar/CalendarApp.js:146-147 | `map` keeps the length; with the id absent nothing changes |
| CalendarApp.ReplaceAllIds | frontend/src/components/Calendar/CalendarApp.js:146-147 | with the id present the set of ids changes only by that id, replaced by the new record's id |
| CalendarApp.ReplaceAllAt | frontend/src/components/Calendar/CalendarApp.js:146-147 | exactly the positions holding the id get the new record |
| CalendarApp.ReplaceKeepsDistinct | frontend/src/components/Calendar/CalendarApp.js:145-151 | replacing a record under its own id keeps ids distinct, and the id then finds the new record |
| CalendarApp.DeleteRemoves | frontend/src/components/Calendar/CalendarApp.js:177 | deleting removes the id, keeps every other event, and removes exactly the events with the id |
| CalendarApp.DeleteAbsent | frontend/src/components/Calendar/CalendarApp.js:177 | deleting an absent id changes nothing |
| CalendarApp.SavedEvents | frontend/src/components/Calendar/CalendarApp.js:145-151 | a new event is appended after the unchanged list; an edit keeps the length |
| CalendarApp.SaveKeepsDistinct | frontend/src/components/Calendar/CalendarApp.js:145-151 | saving keeps ids distinct, adds the saved id, and the id finds the saved record |
| CalendarApp.Moved | frontend/src/components/Calendar/CalendarApp.js:197-209 | moving keeps the event's id, title and calendar |
| CalendarApp.MovedKeepsTimeAndLength | frontend/src/components/Calendar/CalendarApp.js:197-209 | a moved event lands on the new date at its old hour, minute and second, and keeps its length |
| CalendarApp.UpdatedEvents | frontend/src/components/Calendar/CalendarApp.js:212-221 | the optimistic list keeps the length and the ids, and is unchanged when the id is absent |
| CalendarApp.UpdateMovesTarget | frontend/src/components/Calendar/CalendarApp.js:212-221 | exactly the events with the id are replaced by the moved copy of the first of them |
| CalendarApp.App.constructor | frontend/src/components/Calendar/CalendarApp.js:20-28 | no events, no selection, every dialog closed |
| CalendarApp.App.FetchEvents | frontend/src/components/Calendar/CalendarApp.js:40-69 | the fetched list replaces the events only with a token and a successful response |
| CalendarApp.App.Open | frontend/src/components/Calendar/CalendarApp.js:30-38 | mounting selects today and today's week start, then fetches |
| CalendarApp.App.SelectDate | frontend/src/components/Calendar/CalendarApp.js:71-89 | the date is selected; the week start moves to the date's week only in the week view |
| CalendarApp.App.AddEvent | frontend/src/components/Calendar/CalendarApp.js:91-95 | the dialog opens for a new event, on the given date or on the selected one |
| CalendarApp.App.EventClick | frontend/src/components/Calendar/CalendarApp.js:97-100 | the event is selected and its details open |
| CalendarApp.App.CloseEventDetails | frontend/src/components/Calendar/CalendarApp.js:102-105 | the details close and the selection clears |
| CalendarApp.App.EditFromDetails | frontend/src/components/Calendar/CalendarApp.js:107-110 | the details close and the dialog opens on the same event |
| CalendarApp.App.CloseModal | frontend/src/components/Calendar/CalendarApp.js:112-115 | the dialog closes and the selection clears |
| CalendarApp.App.ToggleSidebar | frontend/src/components/Calendar/CalendarApp.js:245-247 | the sidebar flag flips |
| CalendarApp.App.SaveEvent | frontend/src/components/Calendar/CalendarApp.js:117-162 | on success the list becomes `SavedEvents` and the dialog closes; otherwise nothing changes |
| CalendarApp.App.DeleteEvent | frontend/src/components/Calendar/CalendarApp.js:164-187 | on success the id is deleted and the details close; otherwise nothing changes |
| CalendarApp.App.EventUpdate | frontend/src/components/Calendar/CalendarApp.js:189-243 | the optimistic move stays on success; on failure the events are fetched again |
| DayView.AllDayMeaning | frontend/src/components/Calendar/DayView.js:19-27 | all-day means starting in the first minute and ending in the last minute of the same date |
| DayView.StyleOf | frontend/src/components/Calendar/DayView.js:29-47 | `top` is the start's minute of day and `height` the difference of the minutes of day |
| DayView.HeightIsLength | frontend/src/components/Calendar/DayView.js:36-38 | for a same-day event on whole minutes the height in pixels is its length in minutes |
| DayView.OvernightHeightIsNegative | frontend/src/components/Calendar/DayView.js:36-38 | an event from 23:00 to 01:00 the next day gets a height of -1320 pixels |
| DayView.CurrentTimePosition | frontend/src/components/Calendar/DayView.js:49-53 | the current-time line sits at the current minute of day |
| DayView.ShownEvents | frontend/src/components/Calendar/DayView.js:55-58 | the shown events are exactly those starting on the shown date |
| DayView.AllDayEvents | frontend/src/components/Calendar/DayView.js:60 | the strip holds exactly the shown all-day events |
| DayView.TimedEvents | frontend/src/components/Calendar/DayView.js:61 | the column holds exactly the shown events that are not all-day |
| DayView.StripAndColumnPartition | frontend/src/components/Calendar/DayView.js:60-61 | strip and column share nothing and together draw each shown event once |
| MonthView.FirstDayOfMonth | frontend/src/components/Calendar/MonthView.js:32-34 | the first of the month's weekday, in 0..6 |
| MonthView.DaysInPrevMonth | frontend/src/components/Calendar/MonthView.js:39-44 | the previous month has 28..31 days |
| MonthView.RenderCalendar | frontend/src/components/Calendar/MonthView.js:36-61 | the loop yields 42 cells, cell `i` being `CellAt(y, m, i)` |
| MonthView.CellDate | frontend/src/components/Calendar/MonthView.js:36-61 | cell `i` is `i` days after the Sunday on or before the first of the month |
| MonthView.CellsAreConsecutive | frontend/src/components/Calendar/MonthView.js:36-61 | adjacent cells hold adjacent dates, also across month boundaries |
| MonthView.CellWeekday | frontend/src/components/Calendar/MonthView.js:16-19 | cell `i` falls on weekday `i % 7`, and is a weekend exactly in the first and last columns |
| MonthView.GridRegions | frontend/src/components/Calendar/MonthView.js:45-59 | the leading cells end on the previous month's last day, the month runs 1..n, the trailing cells start at 1, and at least five trail |
| MonthView.CurrentMonthCells | frontend/src/components/Calendar/MonthView.js:45-59 | a cell is in the current month exactly when its date lies in the month |
| MonthView.SelectedCellUnique | frontend/src/components/Calendar/MonthView.js:21-26 | at most one cell matches the selected date |
| MonthView.CellClick | frontend/src/components/Calendar/MonthView.js:72-73 | a click passes on the date exactly for a cell of the shown month |
| MonthView.ClickStaysInMonth | frontend/src/components/Calendar/MonthView.js:72-73 | every date a click passes on lies in the shown month |
| Tasks.GetTasks | frontend/src/components/Sidebar/Tasks.js:10-52 | no event list gives no tasks; otherwise exactly the kept tasks, each once, sorted by start |
| Tasks.UpcomingMeaning | frontend/src/components/Sidebar/Tasks.js:24-37 | upcoming means on a later date than now, or today and starting less than two hours ago or later |
| Tasks.TasksKeepListOrder | frontend/src/components/Sidebar/Tasks.js:47-51 | tasks with equal starts keep their list order |
| Tasks.FormatDate | frontend/src/components/Sidebar/Tasks.js:56-67 | "Today" exactly on today's date, "Tomorrow" exactly on the next, the date otherwise |
| Tasks.UpcomingLabels | frontend/src/components/Sidebar/Tasks.js:24-37 | an upcoming task labelled by its date lies after tomorrow |
| Tasks.TaskClick | frontend/src/components/Sidebar/Tasks.js:69-73 | with a callback, the task id and the flipped status are reported |
| EventModal.OrElse | frontend/src/components/Modals/AddEditEventModal.js:47 | `s \|\| fallback` is `s` unless `s` is empty |
| EventModal.AtMinuteFields | frontend/src/components/Modals/AddEditEventModal.js:165-166 | a date and a time of day read back as that date and minute |
| EventModal.CeilHalfHour | frontend/src/components/Modals/AddEditEventModal.js:110 | rounding up to a half hour gives a multiple of 30 less than 30 above |
| EventModal.RoundUpHalfHour | frontend/src/components/Modals/AddEditEventModal.js:108-113 | the default start is on a half-hour boundary, less than 30 minutes after the current minute |
| EventModal.RoundDownHalfHour | frontend/src/components/Modals/AddEditEventModal.js:65-75 | a clicked time goes down to the half hour: same date and hour, minute 0 or 30, no seconds |
| EventModal.NextHour | frontend/src/components/Modals/AddEditEventModal.js:77-79 | `setHours(h + 1)` is one hour later, same minute, minute of day up by 60 modulo a day |
| EventModal.DefaultTimeRange | frontend/src/components/Modals/AddEditEventModal.js:108-121 | the default start is the current time rounded up to the next half hour (`RoundUpHalfHour`), and the end is one hour later modulo a day |
| EventModal.ClickedTimeRange | frontend/src/components/Modals/AddEditEventModal.js:63-92 | a clicked start is the clicked time rounded down to its half hour (`RoundDownHalfHour`), and the end is one hour later modulo a day |
| EventModal.EditTaskForm | frontend/src/components/Modals/AddEditEventModal.js:38-48 | a task's form has no time exactly when it is all-day |
| EventModal.EditEventForm | frontend/src/components/Modals/AddEditEventModal.js:49-62 | an event's form has both times and a calendar |
| EventModal.SavedTitle | frontend/src/components/Modals/AddEditEventModal.js:133 | the saved title is the trimmed title, or "(No title)", and never empty |
| EventModal.EditedId | frontend/src/components/Modals/AddEditEventModal.js:182-184 | the id is copied exactly when the edited event has a truthy id |
| EventModal.SubmitData | frontend/src/components/Modals/AddEditEventModal.js:123-188 | saving fails exactly for a timed event with a missing time; tasks go to calendar "Task" with no location |
| EventModal.AllDaySubmitIsAllDay | frontend/src/components/Modals/AddEditEventModal.js:130-141 | an all-day save runs from 00:00:00 to 23:59:59 of its date, which the day view treats as all-day |
| EventModal.TimedTaskLastsHalfHour | frontend/src/components/Modals/AddEditEventModal.js:142-156 | a timed task starts at its time and lasts thirty minutes |
| EventModal.TimedEventTimes | frontend/src/components/Modals/AddEditEventModal.js:164-167 | a timed event runs between its two times on its date, ending before it starts when the end time is earlier |
| EventModal.LateClickEndsNextDay | frontend/src/components/Modals/AddEditEventModal.js:77-85 | a click after 23:00 pre-fills an end time earlier than the start time |
| EventModal.Modal.constructor | frontend/src/components/Modals/AddEditEventModal.js:14-31 | both forms start empty on the initial date, or on today's date |
| EventModal.Modal.Open | frontend/src/components/Modals/AddEditEventModal.js:33-106 | editing fills the task or event form; a clicked time fills rounded times; otherwise the default range |
| EventModal.Modal.SelectMode | frontend/src/components/Modals/AddEditEventModal.js:224-234 | the chosen form is shown and nothing else changes |
| EventModal.Modal.ToggleTaskTime | frontend/src/components/Modals/AddEditEventModal.js:275 | the task-time flag flips |
| EventModal.Modal.Submit | frontend/src/components/Modals/AddEditEventModal.js:123-188 | the saved record is `SubmitData` of the current forms |
| Sidebar.Pick | frontend/src/components/Sidebar/Sidebar.js:16-36 | a new date is selected and reported; picking the selected date again reports the day view, or from the day view the remembered view; a non-day view is remembered |
| Sidebar.FirstPickSelects | frontend/src/components/Sidebar/Sidebar.js:13-17 | before any pick, a pick always selects its date |
| Sidebar.DoublePickToggles | frontend/src/components/Sidebar/Sidebar.js:16-36 | picking a date again opens the day view, and once more returns to the view it was picked in |
| Sidebar.Sidebar.constructor | frontend/src/components/Sidebar/Sidebar.js:13-14 | no date is selected and the month view is remembered |
| Sidebar.Sidebar.Select | frontend/src/components/Sidebar/Sidebar.js:16-36 | the new state and the callback are those of `Pick` |
| CalendarFilter.JsRem | frontend/src/components/Sidebar/CalendarFilter.js:75 | `%` takes the dividend's sign and stays within the divisor |
| CalendarFilter.DefaultColor | frontend/src/components/Sidebar/CalendarFilter.js:73-78 | a server gets one of the seven colours exactly when its id is non-negative or a negative multiple of 7 |
| CalendarFilter.DefaultColorOfNatural | frontend/src/components/Sidebar/CalendarFilter.js:75 | a non-negative id gets the colour at its remainder modulo 7 |
| CalendarFilter.DefaultColorPeriodic | frontend/src/components/Sidebar/CalendarFilter.js:75 | default colours repeat every seven ids |
| CalendarFilter.DefaultColorsDistinct | frontend/src/components/Sidebar/CalendarFilter.js:6-75 | seven consecutive non-negative ids get seven different colours |
| CalendarFilter.DefaultServerColors | frontend/src/components/Sidebar/CalendarFilter.js:73-78 | the `reduce` gives exactly the listed ids, each with its default colour |
| CalendarFilter.Toggle | frontend/src/components/Sidebar/CalendarFilter.js:193-206 | the item's flag flips, a missing flag counting as false, and every other flag is kept |
| CalendarFilter.ToggleTwice | frontend/src/components/Sidebar/CalendarFilter.js:198-207 | toggling a flag twice restores every flag's reading |
| CalendarFilter.Filter.constructor | frontend/src/components/Sidebar/CalendarFilter.js:16-17 | no flags, no colours, no servers |
| CalendarFilter.Filter.LoadServers | frontend/src/components/Sidebar/CalendarFilter.js:65-84 | a fetched list replaces the servers and rebuilds the colours; a missing list empties the servers and keeps the colours |
| CalendarFilter.Filter.ToggleVisibility | frontend/src/components/Sidebar/CalendarFilter.js:189-196 | the item's visibility flips |
| CalendarFilter.Filter.TogglePopup | frontend/src/components/Sidebar/CalendarFilter.js:198-207 | the item's colour picker flips |
| CalendarFilter.Filter.ChangeServerColor | frontend/src/components/Sidebar/CalendarFilter.js:85-98 | the server's colour is set and its picker is closed |
| CalendarFilter.Filter.ChangeColor | frontend/src/components/Sidebar/CalendarFilter.js:209-214 | the colour goes to the callback when there is one, and the item's picker flips |
| FriendPage.SearchFriends | frontend/src/components/Friends/FriendPage.js:44-50 | the results are exactly the friends whose lower-cased name includes the lower-cased term |
| FriendPage.EmptyTermMatchesAll | frontend/src/components/Friends/FriendPage.js:44-50 | an empty term matches every friend |
| FriendPage.SearchIgnoresTermCase | frontend/src/components/Friends/FriendPage.js:47 | lower-casing the term does not change the results |
| FriendPage.SearchKeepsOrder | frontend/src/components/Friends/FriendPage.js:45-50 | the results keep the friend list's order |
| FriendPage.WithoutId | frontend/src/components/Friends/FriendPage.js:90 | removing an id keeps exactly the entries with other ids |
| FriendPage.WithoutIdShrinks | frontend/src/components/Friends/FriendPage.js:200-211 | removing an absent id changes nothing, and removing a present one shortens the list |
| FriendPage.BlankNameSendsNothing | frontend/src/components/Friends/FriendPage.js:154 | a username of blanks trims to empty, so no request is sent |
| FriendPage.Page.constructor | frontend/src/components/Friends/FriendPage.js:14-26 | empty lists and inputs, with the list hidden |
| FriendPage.Page.SearchEffect | frontend/src/components/Friends/FriendPage.js:43-53 | a term filters the friends; no term with the list shown shows all of them; otherwise nothing changes |
| FriendPage.Page.SearchBlur | frontend/src/components/Friends/FriendPage.js:33-37 | the list hides only when no term is typed |
| FriendPage.Page.SearchFocus | frontend/src/components/Friends/FriendPage.js:38-41 | the list shows every friend |
| FriendPage.Page.FetchFriendsList | frontend/src/components/Friends/FriendPage.js:104-116 | a fetched list replaces both the friends and the shown friends |
| FriendPage.Page.AcceptRequest | frontend/src/components/Friends/FriendPage.js:79-101 | on success the request leaves the inbox and the friends are fetched again |
| FriendPage.Page.DeclineRequest | frontend/src/components/Friends/FriendPage.js:125-145 | on success the request leaves the inbox |
| FriendPage.Page.AddFriend | frontend/src/components/Friends/FriendPage.js:154-180 | a request for the typed name is sent exactly when it is not blank, and the input clears on success |
| FriendPage.Page.RemoveFriend | frontend/src/components/Friends/FriendPage.js:200-211 | every friend with the id is removed |

## Left out

- I/O: requests to the server, `localStorage`, `console`, timers, notifications, the theme context, `savePreferences`, and the profile, server-user and inbox fetches. A request is a method parameter (`ok`, `fetched`, `saved`, `reloaded`); what was sent is not modelled.
- Time zones: `toISOString()` is UTC, but `getHours()` and `new Date("YYYY-MM-DD")` use local or UTC time depending on the call. Here one clock serves all of them.
- Date comparisons: `toDateString()` equality and the `getDate()`/`getMonth()`/`getFullYear()` comparisons are modelled as equality of day numbers.
- Display strings: `toLocaleDateString`, `toLocaleTimeString` and the `HH:MM` strings of the dialog are not produced. A time field holds a minute of the day, or `None` when empty; a date field holds a day number; a month-day label holds a day number.
- DOM and rendering: JSX, styles, colours of days, `getBoundingClientRect`, scrolling, drag images and the drop highlight. The drag hook's container geometry is a parameter (`DayCell`).
- Floating point: pixel and percent arithmetic uses `real`.
- `CalendarApp`'s `shiftDirection` animation state and `isVisible` in the dialog are left out; they only drive CSS transitions.
- The dialog's form field setters (typing into inputs) are left out; they overwrite one field of a form.
- `Text.ToLower` and `Text.Trim` cover ASCII letters and the ASCII blank characters only. Unicode case mapping and Unicode white space are not modelled.
- CalendarFilter.Key: JavaScript turns object keys into strings, so `Server(5)` and `Named("5")` are the same key in the source. Here they differ.
- CalendarFilter's panel fold flags, the import popup and the server-user list are left out; they only show or hide parts of the panel.
- FriendPage's selected-friend view, tab switching and the inbox fetch on opening the inbox tab are left out (navigation and I/O).
- DragDrop.GetTimePosition: a `cellHeight` of zero or less is excluded, because the hook always receives a positive height (60 by default).
- View names: the drag hook compares the lower-case names `'week'` and `'day'`, while `CalendarApp` and `Sidebar` use `'Week'` and `'Day'`. The model merges both spellings into one `View` type. It therefore does not capture that a caller passing the capitalised names to the hook would get every view treated as neither week nor day. The hook's callers are not part of this model.
- Positioning: the layout functions work on the events as given. The source assumes distinct ids but does not check it, so the lemmas that need distinct ids require it.
