/**
 * The event layout engine (frontend/src/utils/calendarPositioningUtils.js):
 * interval predicates, the column assignment for one day's events
 * (`CalculateEventColumns`) and the container pass that nests short events
 * inside a long one (`ProcessEvents`). Percentages are exact reals.
 */
module Positioning {
  import opened Time
  import opened Events
  import opened Sorting

  // ---------------------------------------------------------------------------
  // Interval predicates

  /** Same start and same end. */
  predicate AreExactTimeMatch(a: Event, b: Event) {
    a.start == b.start && a.end == b.end
  }

  /** `e` lies within `c`, endpoints included. */
  predicate IsContainedWithin(e: Event, c: Event) {
    e.start >= c.start && e.end <= c.end
  }

  /** Half-open intervals [start, end) share an instant. */
  predicate EventsOverlap(a: Event, b: Event) {
    a.start < b.end && a.end > b.start
  }

  /** `t` lies in the half-open interval of `e`. */
  predicate During(t: Instant, e: Event) {
    e.start <= t < e.end
  }

  /** Overlap is exactly a common instant of the two half-open intervals. */
  lemma OverlapMeansCommonInstant(a: Event, b: Event)
    requires a.start < a.end && b.start < b.end
    ensures EventsOverlap(a, b) <==> exists t :: During(t, a) && During(t, b)
  {
    if EventsOverlap(a, b) {
      var t := if a.start < b.start then b.start else a.start;
      assert During(t, a) && During(t, b);
    }
  }

  /** Overlap does not depend on the order of its arguments; touching intervals do not overlap. */
  lemma OverlapSymmetric(a: Event, b: Event)
    ensures EventsOverlap(a, b) == EventsOverlap(b, a)
    ensures a.end == b.start ==> !EventsOverlap(a, b)
  {
  }

  /** Containment is reflexive and transitive; an exact time match is containment both ways. */
  lemma ContainmentIsPreorder(a: Event, b: Event, c: Event)
    ensures IsContainedWithin(a, a)
    ensures IsContainedWithin(a, b) && IsContainedWithin(b, c) ==> IsContainedWithin(a, c)
    ensures AreExactTimeMatch(a, b) <==> IsContainedWithin(a, b) && IsContainedWithin(b, a)
  {
  }

  /** A non-empty event contained in another overlaps it. */
  lemma ContainedOverlaps(e: Event, c: Event)
    requires e.start < e.end && IsContainedWithin(e, c)
    ensures EventsOverlap(e, c)
  {
  }

  // ---------------------------------------------------------------------------
  // Placements

  /** Column, column count, width and left offset (percent), stacking order and opacity. */
  datatype Position = Position(column: int, totalColumns: int, width: real, left: real, zIndex: int, opacity: real)

  /** The placement of an event that overlaps nothing: the whole track. */
  const SoloPosition := Position(0, 1, 100.0, 0.0, 20, 0.65)

  /** The object the placing loop stores for member `index` of a group whose columns are `width` wide. */
  function MemberPosition(index: int, size: int, width: real): Position {
    Position(index, size, width, index as real * width, 20 + index, 0.65 + index as real * 0.25)
  }

  /** The placement of member `index` of an overlap group of `size` events: columns `95 / size` wide. */
  function GroupPosition(index: int, size: int): (p: Position)
    requires 0 <= index < size
    ensures p.column == index && p.totalColumns == size
    ensures 0.0 <= p.left && p.left + p.width <= 95.0
    ensures p.width > 0.0 && p.zIndex == 20 + index
    ensures p.opacity >= 0.65
  {
    var width := 95.0 / size as real;
    assert (index + 1) as real * width <= size as real * width;
    MemberPosition(index, size, width)
  }

  /** The two shapes a placement can have. */
  predicate IsPlacement(p: Position) {
    p == SoloPosition || (0 <= p.column < p.totalColumns && p == GroupPosition(p.column, p.totalColumns))
  }

  /** Every placement has its column inside the group and stays inside the track. */
  lemma PlacementBounds(p: Position)
    requires IsPlacement(p)
    ensures 0 <= p.column < p.totalColumns
    ensures 0.0 <= p.left && p.left + p.width <= 100.0 && p.width > 0.0
    ensures p.opacity >= 0.65 && p.zIndex == 20 + p.column
    ensures p != SoloPosition ==> p.left + p.width <= 95.0
  {
  }

  // ---------------------------------------------------------------------------
  // calculateEventColumns, as specification functions

  /** Start ascending; on equal starts the longer event first. */
  function LayoutRank(e: Event): Rank {
    Rank(e.start, e.start - e.end)
  }

  /** Ids flagged by row `i` of the first pass after its first `j` inner steps. */
  function FlagRow(s: seq<Event>, i: int, j: int): set<int>
    requires 0 <= i < |s| && 0 <= j <= |s|
  {
    if j == 0 then {}
    else
      var pair := if i < j - 1 && EventsOverlap(s[i], s[j - 1]) then {s[i].id, s[j - 1].id} else {};
      FlagRow(s, i, j - 1) + pair
  }

  /** Ids flagged by the first `i` rows of the first pass. */
  function FlagRows(s: seq<Event>, i: int): set<int>
    requires 0 <= i <= |s|
  {
    if i == 0 then {} else FlagRows(s, i - 1) + FlagRow(s, i - 1, |s|)
  }

  /** `overlappingSets`: ids of events that overlap some later event or are overlapped by an earlier one. */
  function FlaggedIds(s: seq<Event>): set<int> {
    FlagRows(s, |s|)
  }

  /** The events of `t`, in order, that join the group headed by `e` while `processed` are taken. */
  function Partners(t: seq<Event>, e: Event, processed: set<int>): seq<Event> {
    if t == [] then []
    else
      var o := t[|t| - 1];
      Partners(t[..|t| - 1], e, processed) +
        (if o.id != e.id && o.id !in processed && EventsOverlap(e, o) then [o] else [])
  }

  /** State of the grouping pass: `processedEvents`, the full-width `positions`, `overlappingGroups`. */
  datatype Grouping = Grouping(processed: set<int>, positions: map<int, Position>, groups: seq<seq<Event>>)

  /** One iteration of the grouping pass over the sorted events `s`, at event `e`. */
  function GroupStep(s: seq<Event>, flagged: set<int>, st: Grouping, e: Event): Grouping {
    if e.id in st.processed then st
    else if e.id in flagged then
      var g := [e] + Partners(s, e, st.processed);
      Grouping(st.processed + Ids(g), st.positions, st.groups + [g])
    else
      Grouping(st.processed + {e.id}, st.positions[e.id := SoloPosition], st.groups)
  }

  /** The grouping pass after the first `k` sorted events. */
  function GroupingUpTo(s: seq<Event>, flagged: set<int>, k: int): Grouping
    requires 0 <= k <= |s|
  {
    if k == 0 then Grouping({}, map[], [])
    else GroupStep(s, flagged, GroupingUpTo(s, flagged, k - 1), s[k - 1])
  }

  /** `m` after placing the first `k` members of group `g`. */
  function PlaceMembers(m: map<int, Position>, g: seq<Event>, k: int): (r: map<int, Position>)
    requires 0 <= k <= |g|
  {
    if k == 0 then m
    else PlaceMembers(m, g, k - 1)[g[k - 1].id := GroupPosition(k - 1, |g|)]
  }

  /** `m` after placing the first `k` groups of `gs`. */
  function PlaceGroups(m: map<int, Position>, gs: seq<seq<Event>>, k: int): (r: map<int, Position>)
    requires 0 <= k <= |gs|
    ensures r.Keys == m.Keys + GroupIdsUpTo(gs, k)
  {
    if k == 0 then m
    else
      var before := PlaceGroups(m, gs, k - 1);
      PlaceMembersKeys(before, gs[k - 1], |gs[k - 1]|);
      PlaceMembers(before, gs[k - 1], |gs[k - 1]|)
  }

  /** Placing members adds exactly their ids to the map's keys. */
  lemma {:induction false} PlaceMembersKeys(m: map<int, Position>, g: seq<Event>, k: int)
    requires 0 <= k <= |g|
    ensures PlaceMembers(m, g, k).Keys == m.Keys + PrefixIds(g, k)
  {
    if k > 0 {
      PlaceMembersKeys(m, g, k - 1);
    }
  }

  /** The sorted events and the finished grouping pass. */
  function GroupingOf(events: seq<Event>): Grouping {
    var s := SortBy(events, LayoutRank);
    GroupingUpTo(s, FlaggedIds(s), |s|)
  }

  /** `overlappingGroups` of `calculateEventColumns(events)`. */
  function OverlapGroups(events: seq<Event>): seq<seq<Event>> {
    GroupingOf(events).groups
  }

  /** The union of the ids of the groups. */
  function GroupIds(gs: seq<seq<Event>>): set<int> {
    if gs == [] then {}
    else
      var n := |gs| - 1;
      GroupIds(gs[..n]) + Ids(gs[n])
  }

  /** The union of the ids of the first `k` groups. */
  function GroupIdsUpTo(gs: seq<seq<Event>>, k: int): set<int>
    requires 0 <= k <= |gs|
  {
    if k == 0 then {} else GroupIdsUpTo(gs, k - 1) + PrefixIds(gs[k - 1], |gs[k - 1]|)
  }

  lemma {:induction false} GroupIdsUpToIs(gs: seq<seq<Event>>, k: int)
    requires 0 <= k <= |gs|
    ensures GroupIdsUpTo(gs, k) == GroupIds(gs[..k])
  {
    if k > 0 {
      GroupIdsUpToIs(gs, k - 1);
      AllPrefixIds(gs[k - 1]);
      assert gs[..k][..k - 1] == gs[..k - 1];
    }
  }

  lemma GroupIdsAppend(gs: seq<seq<Event>>, g: seq<Event>)
    ensures GroupIds(gs + [g]) == GroupIds(gs) + Ids(g)
  {
    assert (gs + [g])[..|gs|] == gs;
  }

  /** The result of `calculateEventColumns(events)`: one placement per id. */
  function Columns(events: seq<Event>): (r: map<int, Position>)
    ensures r.Keys == Ids(events)
    ensures forall id :: id in r ==> IsPlacement(r[id])
  {
    ColumnsShape(events);
    PlaceGroups(GroupingOf(events).positions, GroupingOf(events).groups, |GroupingOf(events).groups|)
  }

  // ---------------------------------------------------------------------------
  // Facts used by the functions above

  lemma {:induction false} PlaceGroupsValues(m: map<int, Position>, gs: seq<seq<Event>>, k: int)
    requires 0 <= k <= |gs|
    requires forall id :: id in m ==> IsPlacement(m[id])
    ensures forall id :: id in PlaceGroups(m, gs, k) ==> IsPlacement(PlaceGroups(m, gs, k)[id])
  {
    if k > 0 {
      PlaceGroupsValues(m, gs, k - 1);
      var g := gs[k - 1];
      PlaceMembersValues(PlaceGroups(m, gs, k - 1), g, |g|);
    }
  }

  lemma {:induction false} PlaceMembersValues(m: map<int, Position>, g: seq<Event>, k: int)
    requires 0 <= k <= |g|
    requires forall id :: id in m ==> IsPlacement(m[id])
    ensures forall id :: id in PlaceMembers(m, g, k) ==> IsPlacement(PlaceMembers(m, g, k)[id])
  {
    if k > 0 {
      PlaceMembersValues(m, g, k - 1);
      var p := GroupPosition(k - 1, |g|);
      assert IsPlacement(p);
    }
  }

  /** The facts about the grouping pass that hold whatever the ids. */
  ghost predicate GroupingCovers(s: seq<Event>, st: Grouping, k: int)
    requires 0 <= k <= |s|
  {
    && st.processed == st.positions.Keys + GroupIds(st.groups)
    && Ids(s[..k]) <= st.processed <= Ids(s)
    && (forall id :: id in st.positions ==> st.positions[id] == SoloPosition)
  }

  lemma PartnersAreFrom(t: seq<Event>, e: Event, processed: set<int>)
    ensures forall o :: o in Partners(t, e, processed) <==>
      o in t && o.id != e.id && o.id !in processed && EventsOverlap(e, o)
  {
    if t != [] {
      PartnersAreFrom(t[..|t| - 1], e, processed);
      assert t == t[..|t| - 1] + [t[|t| - 1]];
    }
  }

  /** One grouping step extends the coverage by the event it visits. */
  lemma GroupStepCovers(s: seq<Event>, flagged: set<int>, st: Grouping, k: int)
    requires 0 < k <= |s| && GroupingCovers(s, st, k - 1)
    ensures GroupingCovers(s, GroupStep(s, flagged, st, s[k - 1]), k)
  {
    var e := s[k - 1];
    if e.id in st.processed {
      SkipStepCovers(s, flagged, st, k);
    } else if e.id in flagged {
      OpenStepCovers(s, flagged, st, k);
    } else {
      SoloStepCovers(s, flagged, st, k);
    }
  }

  lemma NextPrefixIds(s: seq<Event>, k: int)
    requires 0 < k <= |s|
    ensures Ids(s[..k]) == Ids(s[..k - 1]) + {s[k - 1].id} && s[k - 1].id in Ids(s)
  {
    assert s[..k] == s[..k - 1] + [s[k - 1]];
    IdsOfConcat(s[..k - 1], [s[k - 1]]);
    assert s[k - 1] in s;
  }

  lemma SkipStepCovers(s: seq<Event>, flagged: set<int>, st: Grouping, k: int)
    requires 0 < k <= |s| && GroupingCovers(s, st, k - 1) && s[k - 1].id in st.processed
    ensures GroupingCovers(s, GroupStep(s, flagged, st, s[k - 1]), k)
  {
    NextPrefixIds(s, k);
  }

  lemma OpenStepCovers(s: seq<Event>, flagged: set<int>, st: Grouping, k: int)
    requires 0 < k <= |s| && GroupingCovers(s, st, k - 1)
    requires s[k - 1].id !in st.processed && s[k - 1].id in flagged
    ensures GroupingCovers(s, GroupStep(s, flagged, st, s[k - 1]), k)
  {
    NextPrefixIds(s, k);
    var e := s[k - 1];
    assert e in s;
    NewGroupCovers(s, st, e);
  }

  lemma SoloStepCovers(s: seq<Event>, flagged: set<int>, st: Grouping, k: int)
    requires 0 < k <= |s| && GroupingCovers(s, st, k - 1)
    requires s[k - 1].id !in st.processed && s[k - 1].id !in flagged
    ensures GroupingCovers(s, GroupStep(s, flagged, st, s[k - 1]), k)
  {
    NextPrefixIds(s, k);
    var e := s[k - 1];
    var next := Grouping(st.processed + {e.id}, st.positions[e.id := SoloPosition], st.groups);
    assert GroupStep(s, flagged, st, e) == next;
    assert next.positions.Keys == st.positions.Keys + {e.id};
  }

  lemma NewGroupCovers(s: seq<Event>, st: Grouping, e: Event)
    requires e in s
    ensures var g := [e] + Partners(s, e, st.processed);
      e.id in Ids(g) && Ids(g) <= Ids(s) && GroupIds(st.groups + [g]) == GroupIds(st.groups) + Ids(g)
  {
    var g := [e] + Partners(s, e, st.processed);
    PartnersAreFrom(s, e, st.processed);
    assert e in g;
    GroupIdsAppend(st.groups, g);
  }

  lemma {:induction false} GroupingCoversUpTo(s: seq<Event>, flagged: set<int>, k: int)
    requires 0 <= k <= |s|
    ensures GroupingCovers(s, GroupingUpTo(s, flagged, k), k)
  {
    if k > 0 {
      GroupingCoversUpTo(s, flagged, k - 1);
      GroupStepCovers(s, flagged, GroupingUpTo(s, flagged, k - 1), k);
    }
  }


  lemma ColumnsShape(events: seq<Event>)
    ensures var st := GroupingOf(events);
      var r := PlaceGroups(st.positions, st.groups, |st.groups|);
      r.Keys == Ids(events) && forall id :: id in r ==> IsPlacement(r[id])
  {
    var st := GroupingOf(events);
    ColumnsCoverIds(events);
    PlaceGroupsValues(st.positions, st.groups, |st.groups|);
    assert st.groups[..|st.groups|] == st.groups;
    GroupIdsUpToIs(st.groups, |st.groups|);
  }

  lemma ColumnsCoverIds(events: seq<Event>)
    ensures GroupingOf(events).processed == Ids(events)
    ensures GroupingOf(events).positions.Keys + GroupIds(GroupingOf(events).groups) == Ids(events)
    ensures forall id :: id in GroupingOf(events).positions ==> IsPlacement(GroupingOf(events).positions[id])
  {
    var s := SortBy(events, LayoutRank);
    SortKeepsElements(events, LayoutRank);
    GroupingCoversUpTo(s, FlaggedIds(s), |s|);
    assert s[..|s|] == s;
  }

  // ---------------------------------------------------------------------------
  // What the first pass flags

  /** Two positions of `s`, in order, whose events overlap. */
  ghost predicate OverlappingPair(s: seq<Event>, a: int, b: int) {
    0 <= a < b < |s| && EventsOverlap(s[a], s[b])
  }

  lemma {:induction false} FlagRowMeaning(s: seq<Event>, i: int, j: int, id: int)
    requires 0 <= i < |s| && 0 <= j <= |s|
    ensures id in FlagRow(s, i, j) <==>
      exists b :: i < b < j && OverlappingPair(s, i, b) && (s[i].id == id || s[b].id == id)
  {
    if j > 0 {
      FlagRowMeaning(s, i, j - 1, id);
      if i < j - 1 && OverlappingPair(s, i, j - 1) && (s[i].id == id || s[j - 1].id == id) {
        assert id in FlagRow(s, i, j);
      }
    }
  }

  lemma {:induction false} FlagRowsMeaning(s: seq<Event>, i: int, id: int)
    requires 0 <= i <= |s|
    ensures id in FlagRows(s, i) <==>
      exists a, b :: a < i && OverlappingPair(s, a, b) && (s[a].id == id || s[b].id == id)
  {
    if i > 0 {
      FlagRowsMeaning(s, i - 1, id);
      FlagRowMeaning(s, i - 1, |s|, id);
      if id in FlagRows(s, i) && id !in FlagRows(s, i - 1) {
        var b :| i - 1 < b < |s| && OverlappingPair(s, i - 1, b) && (s[i - 1].id == id || s[b].id == id);
        assert i - 1 < i;
      }
    }
  }

  /** An id is flagged exactly when its event is one of a pair of overlapping positions. */
  lemma FlaggedIdsMeaning(s: seq<Event>, id: int)
    ensures id in FlaggedIds(s) <==>
      exists a, b :: OverlappingPair(s, a, b) && (s[a].id == id || s[b].id == id)
  {
    FlagRowsMeaning(s, |s|, id);
  }

  /** Two overlapping events of `s` with different ids are both flagged. */
  lemma OverlappingEventsFlagged(s: seq<Event>, x: Event, y: Event)
    requires x in s && y in s && x.id != y.id && EventsOverlap(x, y)
    ensures x.id in FlaggedIds(s) && y.id in FlaggedIds(s)
  {
    var p :| 0 <= p < |s| && s[p] == x;
    var q :| 0 <= q < |s| && s[q] == y;
    if p < q {
      assert OverlappingPair(s, p, q);
    } else {
      assert OverlappingPair(s, q, p);
    }
    FlaggedIdsMeaning(s, x.id);
    FlaggedIdsMeaning(s, y.id);
  }

  /** With distinct ids, an event of `s` is flagged exactly when it overlaps another event of `s`. */
  lemma FlaggedIffOverlapsAnother(s: seq<Event>, e: Event)
    requires DistinctIds(s) && e in s
    ensures e.id in FlaggedIds(s) <==> exists o :: o in s && o.id != e.id && EventsOverlap(e, o)
  {
    if e.id in FlaggedIds(s) {
      FlaggedIdsMeaning(s, e.id);
      var a, b :| OverlappingPair(s, a, b) && (s[a].id == e.id || s[b].id == e.id);
      var p :| 0 <= p < |s| && s[p] == e;
      if s[a].id == e.id {
        assert a == p;
        assert s[b] in s && s[b].id != e.id && EventsOverlap(e, s[b]);
      } else {
        assert b == p;
        assert s[a] in s && s[a].id != e.id && EventsOverlap(e, s[a]);
      }
    }
    if exists o :: o in s && o.id != e.id && EventsOverlap(e, o) {
      var o :| o in s && o.id != e.id && EventsOverlap(e, o);
      OverlappingEventsFlagged(s, e, o);
    }
  }

  // ---------------------------------------------------------------------------
  // The shape of the groups

  /** A group: a head from `s`, then events of `s` with other ids that overlap the head. */
  ghost predicate HeadedGroup(s: seq<Event>, g: seq<Event>) {
    |g| >= 1 && g[0] in s &&
    forall m :: 1 <= m < |g| ==> g[m] in s && g[m].id != g[0].id && EventsOverlap(g[0], g[m])
  }

  /** Every group is headed by a flagged event, and no flagged id is placed solo. */
  ghost predicate GroupingShaped(s: seq<Event>, flagged: set<int>, st: Grouping) {
    (forall gi :: 0 <= gi < |st.groups| ==> HeadedGroup(s, st.groups[gi]) && st.groups[gi][0].id in flagged)
    && st.positions.Keys !! flagged
  }

  lemma {:induction false} GroupingShapedUpTo(s: seq<Event>, flagged: set<int>, k: int)
    requires 0 <= k <= |s|
    ensures GroupingShaped(s, flagged, GroupingUpTo(s, flagged, k))
  {
    if k > 0 {
      GroupingShapedUpTo(s, flagged, k - 1);
      var st := GroupingUpTo(s, flagged, k - 1);
      var e := s[k - 1];
      if e.id !in st.processed && e.id in flagged {
        var g := [e] + Partners(s, e, st.processed);
        PartnersAreFrom(s, e, st.processed);
        assert forall m :: 1 <= m < |g| ==> g[m] in Partners(s, e, st.processed);
        assert HeadedGroup(s, g);
      }
    }
  }

  lemma {:induction false} GroupIdsMeaning(gs: seq<seq<Event>>, id: int)
    ensures id in GroupIds(gs) <==> exists gi, m :: 0 <= gi < |gs| && 0 <= m < |gs[gi]| && gs[gi][m].id == id
  {
    if gs != [] {
      var n := |gs| - 1;
      GroupIdsMeaning(gs[..n], id);
      if id in Ids(gs[n]) {
        var e :| e in gs[n] && e.id == id;
        var m :| 0 <= m < |gs[n]| && gs[n][m] == e;
        assert gs[n][m].id == id;
      }
      if exists gi, m :: 0 <= gi < |gs| && 0 <= m < |gs[gi]| && gs[gi][m].id == id {
        var gi, m :| 0 <= gi < |gs| && 0 <= m < |gs[gi]| && gs[gi][m].id == id;
        if gi < n {
          assert gs[..n][gi][m].id == id;
        } else {
          assert gs[n][m] in gs[n];
        }
      }
    }
  }

  /** The grouped ids are exactly the flagged ones; the solo ids are the rest. */
  lemma GroupedIdsAreFlagged(events: seq<Event>)
    ensures var s := SortBy(events, LayoutRank);
      var st := GroupingOf(events);
      GroupIds(st.groups) == FlaggedIds(s) && st.positions.Keys == Ids(events) - FlaggedIds(s)
  {
    var s := SortBy(events, LayoutRank);
    var F := FlaggedIds(s);
    var st := GroupingOf(events);
    SortKeepsElements(events, LayoutRank);
    ColumnsCoverIds(events);
    GroupingCoversUpTo(s, F, |s|);
    GroupingShapedUpTo(s, F, |s|);
    GroupMembersFlagged(s, st);
    FlaggedIdsOccur(s);
  }

  /** Every member of a group headed by a flagged event is itself flagged. */
  lemma GroupMembersFlagged(s: seq<Event>, st: Grouping)
    requires GroupingShaped(s, FlaggedIds(s), st)
    ensures GroupIds(st.groups) <= FlaggedIds(s)
  {
    forall id | id in GroupIds(st.groups) ensures id in FlaggedIds(s) {
      GroupIdsMeaning(st.groups, id);
      var gi, m :| 0 <= gi < |st.groups| && 0 <= m < |st.groups[gi]| && st.groups[gi][m].id == id;
      var g := st.groups[gi];
      assert HeadedGroup(s, g) && g[0].id in FlaggedIds(s);
      if m > 0 {
        OverlappingEventsFlagged(s, g[0], g[m]);
      }
    }
  }

  /** Flagged ids are ids of the events. */
  lemma FlaggedIdsOccur(s: seq<Event>)
    ensures FlaggedIds(s) <= Ids(s)
  {
    forall id | id in FlaggedIds(s) ensures id in Ids(s) {
      FlaggedIdsMeaning(s, id);
      var a, b :| OverlappingPair(s, a, b) && (s[a].id == id || s[b].id == id);
      assert s[a] in s && s[b] in s;
    }
  }

  lemma {:induction false} PlaceMembersKeepAt(m: map<int, Position>, g: seq<Event>, k: int, id: int)
    requires 0 <= k <= |g| && id in m && id !in PrefixIds(g, k)
    ensures id in PlaceMembers(m, g, k) && PlaceMembers(m, g, k)[id] == m[id]
  {
    if k > 0 {
      PlaceMembersKeepAt(m, g, k - 1, id);
    }
  }

  lemma {:induction false} PlaceMembersWidthAt(m: map<int, Position>, g: seq<Event>, k: int, id: int)
    requires 0 <= k <= |g| && id in PrefixIds(g, k)
    ensures id in PlaceMembers(m, g, k) && PlaceMembers(m, g, k)[id].width <= 95.0
  {
    if k > 0 && id != g[k - 1].id {
      PlaceMembersWidthAt(m, g, k - 1, id);
    }
  }

  lemma {:induction false} PlaceGroupsKeepAt(m: map<int, Position>, gs: seq<seq<Event>>, k: int, id: int)
    requires 0 <= k <= |gs| && id in m && id !in GroupIdsUpTo(gs, k)
    ensures PlaceGroups(m, gs, k)[id] == m[id]
  {
    if k > 0 {
      PlaceGroupsKeepAt(m, gs, k - 1, id);
      PlaceMembersKeepAt(PlaceGroups(m, gs, k - 1), gs[k - 1], |gs[k - 1]|, id);
    }
  }

  lemma {:induction false} PlaceGroupsWidthAt(m: map<int, Position>, gs: seq<seq<Event>>, k: int, id: int)
    requires 0 <= k <= |gs| && id in GroupIdsUpTo(gs, k)
    ensures PlaceGroups(m, gs, k)[id].width <= 95.0
  {
    var g := gs[k - 1];
    if id in PrefixIds(g, |g|) {
      PlaceMembersWidthAt(PlaceGroups(m, gs, k - 1), g, |g|, id);
    } else {
      PlaceGroupsWidthAt(m, gs, k - 1, id);
      PlaceMembersKeepAt(PlaceGroups(m, gs, k - 1), g, |g|, id);
    }
  }

  /** An event gets the whole track exactly when the first pass did not flag it. */
  lemma SoloIffUnflagged(events: seq<Event>, id: int)
    requires id in Ids(events)
    ensures Columns(events)[id] == SoloPosition <==> id !in FlaggedIds(SortBy(events, LayoutRank))
  {
    var s := SortBy(events, LayoutRank);
    var F := FlaggedIds(s);
    var st := GroupingOf(events);
    var r := Columns(events);
    assert r == PlaceGroups(st.positions, st.groups, |st.groups|);
    GroupedIdsAreFlagged(events);
    assert st.groups[..|st.groups|] == st.groups;
    GroupIdsUpToIs(st.groups, |st.groups|);
    if id in F {
      PlaceGroupsWidthAt(st.positions, st.groups, |st.groups|, id);
      assert r[id].width <= 95.0;
    } else {
      GroupingCoversUpTo(s, F, |s|);
      PlaceGroupsKeepAt(st.positions, st.groups, |st.groups|, id);
      assert r[id] == st.positions[id];
    }
  }

  /** With distinct ids, an event gets the whole track exactly when it overlaps no other event. */
  lemma SoloIffNoOverlap(events: seq<Event>, e: Event)
    requires DistinctIds(events) && e in events
    ensures Columns(events)[e.id] == SoloPosition <==>
      forall o :: o in events && o.id != e.id ==> !EventsOverlap(e, o)
  {
    var s := SortBy(events, LayoutRank);
    SortKeepsElements(events, LayoutRank);
    SortKeepsDistinct(events, LayoutRank);
    SoloIffUnflagged(events, e.id);
    FlaggedIffOverlapsAnother(s, e);
  }

  // ---------------------------------------------------------------------------
  // With distinct ids: separate, ordered groups, one column per member

  lemma {:induction false} PartnersDistinctSorted(t: seq<Event>, e: Event, processed: set<int>)
    requires DistinctIds(t) && SortedBy(t, LayoutRank)
    ensures DistinctIds(Partners(t, e, processed)) && SortedBy(Partners(t, e, processed), LayoutRank)
  {
    if t != [] {
      var n := |t| - 1;
      var o := t[n];
      PartnersDistinctSorted(t[..n], e, processed);
      if o.id != e.id && o.id !in processed && EventsOverlap(e, o) {
        PartnersAreFrom(t[..n], e, processed);
        var p := Partners(t[..n], e, processed);
        forall x | x in p ensures x.id != o.id && RankLe(LayoutRank(x), LayoutRank(o)) {
          var q :| 0 <= q < n && t[..n][q] == x;
          assert t[q] == x;
        }
        AppendDistinctSorted(p, o);
      }
    }
  }

  /** Appending an event after distinct events that all precede it keeps them distinct and in layout order. */
  lemma AppendDistinctSorted(p: seq<Event>, o: Event)
    requires DistinctIds(p) && SortedBy(p, LayoutRank)
    requires forall x | x in p :: x.id != o.id && RankLe(LayoutRank(x), LayoutRank(o))
    ensures DistinctIds(p + [o]) && SortedBy(p + [o], LayoutRank)
  {
    var r := p + [o];
    forall a, b | 0 <= a < b < |r| ensures r[a].id != r[b].id && RankLe(LayoutRank(r[a]), LayoutRank(r[b])) {
      if b == |p| {
        assert r[a] in p;
      }
    }
  }

  /** Each group has distinct ids, is in layout order, and shares no id with an earlier group. */
  ghost predicate SeparateGroups(gs: seq<seq<Event>>) {
    forall gi :: 0 <= gi < |gs| ==>
      DistinctIds(gs[gi]) && SortedBy(gs[gi], LayoutRank) && Ids(gs[gi]) !! GroupIds(gs[..gi])
  }

  /** The group opened at position `k - 1` has distinct ids, is in layout order and avoids `processed`. */
  lemma NewGroupSeparate(s: seq<Event>, k: int, processed: set<int>)
    requires DistinctIds(s) && SortedBy(s, LayoutRank) && 0 < k <= |s|
    requires Ids(s[..k - 1]) <= processed && s[k - 1].id !in processed
    ensures var g := [s[k - 1]] + Partners(s, s[k - 1], processed);
      DistinctIds(g) && SortedBy(g, LayoutRank) && Ids(g) !! processed
  {
    var e := s[k - 1];
    var ps := Partners(s, e, processed);
    var g := [e] + ps;
    PartnersAreFrom(s, e, processed);
    PartnersDistinctSorted(s, e, processed);
    forall x | x in ps ensures RankLe(LayoutRank(e), LayoutRank(x)) {
      var q :| 0 <= q < |s| && s[q] == x;
    }
    forall a, b | 0 <= a < b < |g| ensures g[a].id != g[b].id && RankLe(LayoutRank(g[a]), LayoutRank(g[b])) {
      assert g[b] == ps[b - 1] && g[b] in ps;
      if a > 0 {
        assert g[a] == ps[a - 1];
      }
    }
    forall x | x in g ensures x.id !in processed {
      if x != e {
        assert x in ps;
      }
    }
  }

  lemma SeparateGroupsAppend(gs: seq<seq<Event>>, g: seq<Event>)
    requires SeparateGroups(gs) && DistinctIds(g) && SortedBy(g, LayoutRank) && Ids(g) !! GroupIds(gs)
    ensures SeparateGroups(gs + [g])
  {
    var r := gs + [g];
    forall gi | 0 <= gi < |r|
      ensures DistinctIds(r[gi]) && SortedBy(r[gi], LayoutRank) && Ids(r[gi]) !! GroupIds(r[..gi])
    {
      if gi < |gs| {
        assert r[gi] == gs[gi] && r[..gi] == gs[..gi];
      } else {
        assert r[gi] == g && r[..gi] == gs;
      }
    }
  }

  /** One grouping step keeps the groups separate. */
  lemma GroupStepSeparate(s: seq<Event>, flagged: set<int>, st: Grouping, k: int)
    requires 0 < k <= |s|
    ensures DistinctIds(s) && SortedBy(s, LayoutRank) && SeparateGroups(st.groups) && GroupingCovers(s, st, k - 1) ==>
      SeparateGroups(GroupStep(s, flagged, st, s[k - 1]).groups)
  {
    var e := s[k - 1];
    if DistinctIds(s) && SortedBy(s, LayoutRank) && SeparateGroups(st.groups) && GroupingCovers(s, st, k - 1) &&
       e.id !in st.processed && e.id in flagged
    {
      assert GroupIds(st.groups) <= st.processed && Ids(s[..k - 1]) <= st.processed;
      var g := [e] + Partners(s, e, st.processed);
      NewGroupSeparate(s, k, st.processed);
      SeparateGroupsAppend(st.groups, g);
    }
  }

  lemma {:induction false} SeparateGroupsUpTo(s: seq<Event>, flagged: set<int>, k: int)
    requires DistinctIds(s) && SortedBy(s, LayoutRank) && 0 <= k <= |s|
    ensures SeparateGroups(GroupingUpTo(s, flagged, k).groups)
  {
    if k > 0 {
      SeparateGroupsUpTo(s, flagged, k - 1);
      SeparateGroupsStep(s, flagged, k);
    }
  }

  /** The grouping step at position `k - 1` keeps the groups separate. */
  lemma SeparateGroupsStep(s: seq<Event>, flagged: set<int>, k: int)
    requires 0 < k <= |s|
    ensures DistinctIds(s) && SortedBy(s, LayoutRank) && SeparateGroups(GroupingUpTo(s, flagged, k - 1).groups) ==>
      SeparateGroups(GroupingUpTo(s, flagged, k).groups)
  {
    GroupingCoversUpTo(s, flagged, k - 1);
    GroupStepSeparate(s, flagged, GroupingUpTo(s, flagged, k - 1), k);
  }

  lemma {:induction false} PlaceMembersOwn(m: map<int, Position>, g: seq<Event>, k: int, i: int)
    requires DistinctIds(g) && 0 <= i < k <= |g|
    ensures g[i].id in PlaceMembers(m, g, k) && PlaceMembers(m, g, k)[g[i].id] == GroupPosition(i, |g|)
  {
    if i < k - 1 {
      PlaceMembersOwn(m, g, k - 1, i);
      assert g[i].id != g[k - 1].id;
    }
  }

  lemma {:induction false} PlaceGroupsOwn(m: map<int, Position>, gs: seq<seq<Event>>, k: int, gi: int, i: int)
    requires 0 <= gi < k <= |gs| && 0 <= i < |gs[gi]| && DistinctIds(gs[gi])
    requires forall gj :: gi < gj < k ==> gs[gi][i].id !in Ids(gs[gj])
    ensures var id := gs[gi][i].id;
      id in PlaceGroups(m, gs, k) && PlaceGroups(m, gs, k)[id] == GroupPosition(i, |gs[gi]|)
  {
    if gi == k - 1 {
      PlaceLastGroupOwn(m, gs, k, i);
    } else {
      PlaceGroupsOwn(m, gs, k - 1, gi, i);
      PlaceGroupsKeep(m, gs, k, gs[gi][i].id);
    }
  }

  /** Member `i` of the last placed group gets column `i` of that group. */
  lemma PlaceLastGroupOwn(m: map<int, Position>, gs: seq<seq<Event>>, k: int, i: int)
    requires 0 < k <= |gs| && 0 <= i < |gs[k - 1]| && DistinctIds(gs[k - 1])
    ensures var id := gs[k - 1][i].id;
      id in PlaceGroups(m, gs, k) && PlaceGroups(m, gs, k)[id] == GroupPosition(i, |gs[k - 1]|)
  {
    var g := gs[k - 1];
    assert g[..|g|][i] == g[i];
    PlaceMembersOwn(PlaceGroups(m, gs, k - 1), g, |g|, i);
  }

  /** Placing group `k - 1` keeps the position of an id placed before and absent from it. */
  lemma PlaceGroupsKeep(m: map<int, Position>, gs: seq<seq<Event>>, k: int, id: int)
    requires 0 < k <= |gs| && id in PlaceGroups(m, gs, k - 1) && id !in Ids(gs[k - 1])
    ensures id in PlaceGroups(m, gs, k) && PlaceGroups(m, gs, k)[id] == PlaceGroups(m, gs, k - 1)[id]
  {
    var g := gs[k - 1];
    AllPrefixIds(g);
    PlaceMembersKeepAt(PlaceGroups(m, gs, k - 1), g, |g|, id);
  }

  /**
   * With distinct ids the overlap groups are disjoint; each lists distinct events in layout
   * order, every one overlapping the first; member `i` of a group of `n` gets column `i`.
   */
  lemma GroupsArePlaced(events: seq<Event>)
    requires DistinctIds(events)
    ensures var gs := OverlapGroups(events);
      && (forall gi :: 0 <= gi < |gs| ==>
            HeadedGroup(events, gs[gi]) && DistinctIds(gs[gi]) && SortedBy(gs[gi], LayoutRank))
      && (forall gi, gj :: 0 <= gi < gj < |gs| ==> Ids(gs[gi]) !! Ids(gs[gj]))
      && (forall gi, i :: 0 <= gi < |gs| && 0 <= i < |gs[gi]| ==>
            Columns(events)[gs[gi][i].id] == GroupPosition(i, |gs[gi]|))
  {
    var s := SortBy(events, LayoutRank);
    var F := FlaggedIds(s);
    var st := GroupingOf(events);
    var gs := st.groups;
    SortKeepsElements(events, LayoutRank);
    SortKeepsDistinct(events, LayoutRank);
    GroupingShapedUpTo(s, F, |s|);
    SeparateGroupsUpTo(s, F, |s|);
    forall gi | 0 <= gi < |gs| ensures HeadedGroup(events, gs[gi]) {
      assert HeadedGroup(s, gs[gi]);
    }
    forall gi, gj | 0 <= gi < gj < |gs| ensures Ids(gs[gi]) !! Ids(gs[gj]) {
      forall id | id in Ids(gs[gi]) ensures id in GroupIds(gs[..gj]) {
        var x: Event :| x in gs[gi] && x.id == id;
        var i :| 0 <= i < |gs[gi]| && gs[gi][i] == x;
        GroupIdsMeaning(gs[..gj], id);
        assert gs[..gj][gi][i].id == id;
      }
    }
    var r := Columns(events);
    assert r == PlaceGroups(st.positions, gs, |gs|);
    forall gi, i | 0 <= gi < |gs| && 0 <= i < |gs[gi]| ensures r[gs[gi][i].id] == GroupPosition(i, |gs[gi]|) {
      assert gs[gi][i] in gs[gi];
      PlaceGroupsOwn(st.positions, gs, |gs|, gi, i);
    }
  }

  // ---------------------------------------------------------------------------
  // Worked examples

  /** The column map is read off the sorted order and the finished grouping pass. */
  lemma ColumnsFrom(events: seq<Event>, s: seq<Event>, st: Grouping)
    requires SortBy(events, LayoutRank) == s && GroupingUpTo(s, FlaggedIds(s), |s|) == st
    ensures Columns(events) == PlaceGroups(st.positions, st.groups, |st.groups|)
  {
  }

  lemma ThreeGrouping(x: Event, y: Event, z: Event, flagged: set<int>)
    requires x.id != y.id && y.id != z.id && x.id != z.id
    requires EventsOverlap(x, y) && EventsOverlap(x, z) && x.id in flagged
    ensures GroupingUpTo([x, y, z], flagged, 3) == Grouping({x.id, y.id, z.id}, map[], [[x, y, z]])
  {
    var s := [x, y, z];
    var st0 := GroupingUpTo(s, flagged, 0);
    assert [x][..0] == [] && [x, y][..1] == [x] && s[..2] == [x, y];
    assert Partners([x], x, {}) == [];
    assert Partners([x, y], x, {}) == [y];
    assert Partners(s, x, {}) == [y, z];
    assert st0 == Grouping({}, map[], []);
    assert GroupingUpTo(s, flagged, 1) == GroupStep(s, flagged, st0, x);
    assert [x] + Partners(s, x, {}) == s;
    assert st0.groups + [s] == [s];
    assert Ids(s) == {x.id, y.id, z.id};
    assert GroupingUpTo(s, flagged, 2) == GroupingUpTo(s, flagged, 1);
  }

  /** Three events in layout order whose first overlaps the other two form one group of three. */
  lemma ThreeWayGroup(x: Event, y: Event, z: Event)
    requires x.id != y.id && y.id != z.id && x.id != z.id
    requires SortedBy([x, y, z], LayoutRank)
    requires EventsOverlap(x, y) && EventsOverlap(x, z)
    ensures Columns([x, y, z]) ==
      map[x.id := GroupPosition(0, 3), y.id := GroupPosition(1, 3), z.id := GroupPosition(2, 3)]
  {
    var s := [x, y, z];
    SortOfSorted(s, LayoutRank);
    assert x in s && y in s;
    OverlappingEventsFlagged(s, x, y);
    ThreeGrouping(x, y, z, FlaggedIds(s));
    ColumnsFrom(s, s, Grouping({x.id, y.id, z.id}, map[], [s]));
    PlaceThree(x, y, z);
  }

  lemma PlaceThree(x: Event, y: Event, z: Event)
    requires x.id != y.id && y.id != z.id && x.id != z.id
    ensures PlaceGroups(map[], [[x, y, z]], 1) ==
      map[x.id := GroupPosition(0, 3), y.id := GroupPosition(1, 3), z.id := GroupPosition(2, 3)]
  {
    var g := [x, y, z];
    assert [g][..0] == [];
    assert PlaceGroups(map[], [g], 1) == PlaceMembers(map[], g, 3);
    assert PlaceMembers(map[], g, 1) == map[x.id := GroupPosition(0, 3)];
    assert PlaceMembers(map[], g, 2) == map[x.id := GroupPosition(0, 3), y.id := GroupPosition(1, 3)];
  }

  /** 09:00-10:00, 09:30-10:30 and 09:45-10:15 on day 0: three columns of 95/3 percent. */
  lemma ThreeWayExample()
    ensures var x := Timed(1, 9 * 3600000, 10 * 3600000);
      var y := Timed(2, 9 * 3600000 + 30 * 60000, 10 * 3600000 + 30 * 60000);
      var z := Timed(3, 9 * 3600000 + 45 * 60000, 10 * 3600000 + 15 * 60000);
      var c := Columns([x, y, z]);
      c.Keys == {1, 2, 3} && c[1].width == 95.0 / 3.0 && c[3].column == 2 && c[3].totalColumns == 3
  {
    var x := Timed(1, 9 * 3600000, 10 * 3600000);
    var y := Timed(2, 9 * 3600000 + 30 * 60000, 10 * 3600000 + 30 * 60000);
    var z := Timed(3, 9 * 3600000 + 45 * 60000, 10 * 3600000 + 15 * 60000);
    SortedThree(x, y, z, LayoutRank);
    ThreeWayGroup(x, y, z);
    var c := Columns([x, y, z]);
    assert c[1] == GroupPosition(0, 3) && c[3] == GroupPosition(2, 3);
  }

  lemma ChainGrouping(a: Event, b: Event, c: Event, flagged: set<int>)
    requires a.id != b.id && b.id != c.id && a.id != c.id
    requires EventsOverlap(a, b) && !EventsOverlap(a, c) && a.id in flagged && c.id in flagged
    ensures GroupingUpTo([a, b, c], flagged, 3) == Grouping({a.id, b.id, c.id}, map[], [[a, b], [c]])
  {
    var s := [a, b, c];
    ChainFirstGroup(a, b, c, flagged);
    var st1 := GroupingUpTo(s, flagged, 2);
    assert st1 == Grouping({a.id, b.id}, map[], [[a, b]]);
    assert GroupingUpTo(s, flagged, 3) == GroupStep(s, flagged, st1, c);
    var P := {a.id, b.id};
    assert [a][..0] == [] && [a, b][..1] == [a] && s[..2] == [a, b];
    assert Partners([a], c, P) == [];
    assert Partners([a, b], c, P) == [];
    assert Partners(s, c, P) == [];
    assert [c] + Partners(s, c, P) == [c];
    assert Ids([c]) == {c.id};
    assert st1.groups + [[c]] == [[a, b], [c]];
  }

  /** In the chain, `a` takes `b` into its group and `b` is then skipped. */
  lemma ChainFirstGroup(a: Event, b: Event, c: Event, flagged: set<int>)
    requires a.id != b.id && b.id != c.id && a.id != c.id
    requires EventsOverlap(a, b) && !EventsOverlap(a, c) && a.id in flagged
    ensures GroupingUpTo([a, b, c], flagged, 2) == Grouping({a.id, b.id}, map[], [[a, b]])
  {
    var s := [a, b, c];
    var st0 := GroupingUpTo(s, flagged, 0);
    assert [a][..0] == [] && [a, b][..1] == [a] && s[..2] == [a, b];
    assert Partners([a], a, {}) == [];
    assert Partners([a, b], a, {}) == [b];
    assert Partners(s, a, {}) == [b];
    assert st0 == Grouping({}, map[], []);
    assert GroupingUpTo(s, flagged, 1) == GroupStep(s, flagged, st0, a);
    assert [a] + Partners(s, a, {}) == [a, b];
    assert st0.groups + [[a, b]] == [[a, b]];
    assert Ids([a, b]) == {a.id, b.id};
  }

  /**
   * Grouping is single-hop: when `a` overlaps `b` and `b` overlaps `c` but `a` does not
   * overlap `c`, `c` gets a group of its own whose track covers the second column of `b`.
   */
  lemma ChainIsNotOneGroup(a: Event, b: Event, c: Event)
    requires a.id != b.id && b.id != c.id && a.id != c.id
    requires SortedBy([a, b, c], LayoutRank)
    requires EventsOverlap(a, b) && EventsOverlap(b, c) && !EventsOverlap(a, c)
    ensures Columns([a, b, c]) ==
      map[a.id := GroupPosition(0, 2), b.id := GroupPosition(1, 2), c.id := GroupPosition(0, 1)]
    ensures var cols := Columns([a, b, c]);
      cols[c.id].left < cols[b.id].left + cols[b.id].width && cols[b.id].left < cols[c.id].left + cols[c.id].width
  {
    var s := [a, b, c];
    ChainColumns(a, b, c);
    PlaceChain(a, b, c);
    var cols := Columns(s);
    assert cols[c.id] == GroupPosition(0, 1) && cols[b.id] == GroupPosition(1, 2);
    SecondOfTwoMeetsSolo();
  }

  lemma ChainColumns(a: Event, b: Event, c: Event)
    requires a.id != b.id && b.id != c.id && a.id != c.id
    requires SortedBy([a, b, c], LayoutRank)
    requires EventsOverlap(a, b) && EventsOverlap(b, c) && !EventsOverlap(a, c)
    ensures Columns([a, b, c]) == PlaceGroups(map[], [[a, b], [c]], 2)
  {
    var s := [a, b, c];
    SortOfSorted(s, LayoutRank);
    assert a in s && b in s && c in s;
    OverlappingEventsFlagged(s, a, b);
    OverlappingEventsFlagged(s, b, c);
    ChainGrouping(a, b, c, FlaggedIds(s));
    ColumnsFrom(s, s, Grouping({a.id, b.id, c.id}, map[], [[a, b], [c]]));
  }

  /** The second of two columns lies within the track of a one-member group. */
  lemma SecondOfTwoMeetsSolo()
    ensures var p, q := GroupPosition(1, 2), GroupPosition(0, 1);
      q.left < p.left + p.width && p.left < q.left + q.width
  {
    var p := GroupPosition(1, 2);
    assert p.left == 95.0 / 2.0 && p.width == 95.0 / 2.0;
  }

  lemma PlaceChain(a: Event, b: Event, c: Event)
    requires a.id != b.id && b.id != c.id && a.id != c.id
    ensures PlaceGroups(map[], [[a, b], [c]], 2) ==
      map[a.id := GroupPosition(0, 2), b.id := GroupPosition(1, 2), c.id := GroupPosition(0, 1)]
  {
    var gs := [[a, b], [c]];
    var m0: map<int, Position> := map[];
    assert PlaceMembers(m0, [a, b], 0) == m0;
    var m1 := PlaceMembers(m0, [a, b], 1);
    assert m1 == m0[a.id := GroupPosition(0, 2)];
    var m2 := PlaceMembers(m0, [a, b], 2);
    assert m2 == m1[b.id := GroupPosition(1, 2)];
    assert PlaceGroups(m0, gs, 0) == m0;
    assert gs[0] == [a, b] && gs[1] == [c];
    assert PlaceGroups(m0, gs, 1) == m2;
    assert PlaceMembers(m2, [c], 0) == m2;
    assert PlaceGroups(m0, gs, 2) == PlaceMembers(m2, [c], 1) == m2[c.id := GroupPosition(0, 1)];
  }

  /** 09:00-10:00, 09:30-11:00, 10:30-12:00 on day 0: the last event sits apart from the second. */
  lemma ChainExample()
    ensures var a := Timed(1, 9 * 3600000, 10 * 3600000);
      var b := Timed(2, 9 * 3600000 + 30 * 60000, 11 * 3600000);
      var c := Timed(3, 10 * 3600000 + 30 * 60000, 12 * 3600000);
      var cols := Columns([a, b, c]);
      cols.Keys == {1, 2, 3} && cols[2].totalColumns == 2 && cols[3].totalColumns == 1 && cols[3].width == 95.0
  {
    var a := Timed(1, 9 * 3600000, 10 * 3600000);
    var b := Timed(2, 9 * 3600000 + 30 * 60000, 11 * 3600000);
    var c := Timed(3, 10 * 3600000 + 30 * 60000, 12 * 3600000);
    SortedThree(a, b, c, LayoutRank);
    ChainIsNotOneGroup(a, b, c);
  }

  // ---------------------------------------------------------------------------
  // calculateEventColumns, as the loops it is written with

  /** Sorts, flags overlapping ids, groups them around each flagged event and places each group. */
  method CalculateEventColumns(events: seq<Event>) returns (positions: map<int, Position>)
    ensures positions == Columns(events)
    ensures positions.Keys == Ids(events)
    ensures forall id :: id in positions ==> IsPlacement(positions[id])
  {
    var sorted := SortBy(events, LayoutRank);
    var overlapping := FlagOverlaps(sorted);
    var st := GroupEvents(sorted, overlapping);
    positions := PlaceAllGroups(st.positions, st.groups);
  }

  /** The first pass: every pair i < j of sorted events that overlap flags both ids. */
  method FlagOverlaps(sorted: seq<Event>) returns (overlapping: set<int>)
    ensures overlapping == FlaggedIds(sorted)
  {
    overlapping := {};
    for i := 0 to |sorted|
      invariant overlapping == FlagRows(sorted, i)
    {
      for j := 0 to |sorted|
        invariant overlapping == FlagRows(sorted, i) + FlagRow(sorted, i, j)
      {
        if i < j && EventsOverlap(sorted[i], sorted[j]) {
          overlapping := overlapping + {sorted[i].id, sorted[j].id};
        }
      }
    }
  }

  /** The group headed by `event`: it and every later-scanned unprocessed event overlapping it. */
  method CollectGroup(sorted: seq<Event>, event: Event, processed: set<int>) returns (group: seq<Event>)
    ensures group == [event] + Partners(sorted, event, processed)
  {
    group := [event];
    for j := 0 to |sorted|
      invariant group == [event] + Partners(sorted[..j], event, processed)
    {
      assert sorted[..j + 1][..j] == sorted[..j];
      var other := sorted[j];
      if other.id != event.id && other.id !in processed && EventsOverlap(event, other) {
        group := group + [other];
      }
    }
    assert sorted[..|sorted|] == sorted;
  }

  /** Marks every member of `group` as processed. */
  method MarkProcessed(processed: set<int>, group: seq<Event>) returns (result: set<int>)
    ensures result == processed + Ids(group)
  {
    result := processed;
    for m := 0 to |group|
      invariant result == processed + Ids(group[..m])
    {
      assert group[..m + 1] == group[..m] + [group[m]];
      IdsOfConcat(group[..m], [group[m]]);
      result := result + {group[m].id};
    }
    assert group[..|group|] == group;
  }

  /** The second pass: solo events get the full track, flagged ones open a group. */
  method GroupEvents(sorted: seq<Event>, overlapping: set<int>) returns (st: Grouping)
    ensures st == GroupingUpTo(sorted, overlapping, |sorted|)
  {
    var positions: map<int, Position> := map[];
    var groups: seq<seq<Event>> := [];
    var processed: set<int> := {};
    for k := 0 to |sorted|
      invariant Grouping(processed, positions, groups) == GroupingUpTo(sorted, overlapping, k)
    {
      var event := sorted[k];
      if event.id in processed {
        continue;
      }
      if event.id in overlapping {
        var group := CollectGroup(sorted, event, processed);
        processed := MarkProcessed(processed, group);
        groups := groups + [group];
      } else {
        positions := positions[event.id := SoloPosition];
        processed := processed + {event.id};
      }
    }
    st := Grouping(processed, positions, groups);
  }

  /** The third pass: member `index` of a group of `n` gets `GroupPosition(index, n)`. */
  method PlaceAllGroups(base: map<int, Position>, groups: seq<seq<Event>>) returns (positions: map<int, Position>)
    ensures positions == PlaceGroups(base, groups, |groups|)
  {
    positions := base;
    for g := 0 to |groups|
      invariant positions == PlaceGroups(base, groups, g)
    {
      positions := PlaceGroup(positions, groups[g]);
    }
  }

  /** Places the members of one group side by side, each `95 / n` percent wide. */
  method PlaceGroup(m: map<int, Position>, group: seq<Event>) returns (positions: map<int, Position>)
    ensures positions == PlaceMembers(m, group, |group|)
  {
    positions := m;
    var width := if group == [] then 0.0 else 95.0 / |group| as real;
    for index := 0 to |group|
      invariant positions == PlaceMembers(m, group, index)
    {
      var p := MemberPosition(index, |group|, width);
      assert p == GroupPosition(index, |group|);
      positions := positions[group[index].id := p];
    }
  }

  // ---------------------------------------------------------------------------
  // processEvents, as specification functions

  /** Longest first. */
  function DurationRank(e: Event): Rank {
    Rank(e.start - e.end, 0)
  }

  /** What a segment is drawn as. */
  datatype SegmentKind = Container | Contained | Uncontained

  /** One drawable piece of the day track: the event, its kind, and its placement in percent. */
  datatype Segment = Segment(event: Event, kind: SegmentKind, left: real, width: real, zIndex: int, opacity: real)

  /** `opacity || 0.65`: a zero opacity falls back to 0.65. */
  function OpacityOrDefault(opacity: real): (r: real)
    ensures opacity != 0.0 ==> r == opacity
    ensures r != 0.0
  {
    if opacity == 0.0 then 0.65 else opacity
  }

  /** A container spans 95 percent behind what it contains. */
  function ContainerSegment(c: Event): Segment {
    Segment(c, Container, 0.0, 95.0, 5, 0.65)
  }

  /** A contained event is laid out in the container's track inset by 4 percent and scaled by 0.92. */
  function ContainedSegment(e: Event, p: Position): Segment {
    Segment(e, Contained, 4.0 + p.left * 0.92, p.width * 0.92, 10 + p.column, OpacityOrDefault(p.opacity))
  }

  /** An event outside every container keeps its column placement. */
  function UncontainedSegment(e: Event, p: Position): Segment {
    Segment(e, Uncontained, p.left, p.width, 15 + p.column, OpacityOrDefault(p.opacity))
  }

  /** The events of `t`, in order, other than `c`, not yet processed and inside `c`. */
  function ContainedIn(t: seq<Event>, c: Event, processed: set<int>): (r: seq<Event>)
    ensures forall e :: e in r <==> e in t && e.id != c.id && e.id !in processed && IsContainedWithin(e, c)
  {
    if t == [] then []
    else
      var n := |t| - 1;
      assert t == t[..n] + [t[n]];
      ContainedIn(t[..n], c, processed) +
        (if t[n].id != c.id && t[n].id !in processed && IsContainedWithin(t[n], c) then [t[n]] else [])
  }

  /** The events of `t`, in order, whose id is not in `processed`. */
  function Unprocessed(t: seq<Event>, processed: set<int>): (r: seq<Event>)
    ensures forall e :: e in r <==> e in t && e.id !in processed
  {
    if t == [] then []
    else
      var n := |t| - 1;
      assert t == t[..n] + [t[n]];
      Unprocessed(t[..n], processed) + (if t[n].id !in processed then [t[n]] else [])
  }

  /** One contained segment per event of `cs`, placed by `positions`. */
  function ContainedSegments(cs: seq<Event>, positions: map<int, Position>): seq<Segment>
    requires Ids(cs) <= positions.Keys
  {
    seq(|cs|, i requires 0 <= i < |cs| => assert cs[i] in cs; ContainedSegment(cs[i], positions[cs[i].id]))
  }

  /** Extending the prefix of `cs` by one event appends that event's contained segment. */
  lemma ContainedSegmentsSnoc(cs: seq<Event>, m: nat, positions: map<int, Position>)
    requires m < |cs| && Ids(cs) <= positions.Keys
    ensures Ids(cs[..m]) <= positions.Keys && Ids(cs[..m + 1]) <= positions.Keys && cs[m].id in positions
    ensures ContainedSegments(cs[..m + 1], positions)
         == ContainedSegments(cs[..m], positions) + [ContainedSegment(cs[m], positions[cs[m].id])]
  {
    assert cs[..m + 1] == cs[..m] + [cs[m]];
    IdsOfConcat(cs[..m], [cs[m]]);
    assert cs == cs[..m + 1] + cs[m + 1..];
    IdsOfConcat(cs[..m + 1], cs[m + 1..]);
  }

  /** Extending the prefix of `rs` by one event appends that event's uncontained segment. */
  lemma UncontainedSegmentsSnoc(rs: seq<Event>, m: nat, positions: map<int, Position>)
    requires m < |rs| && Ids(rs) <= positions.Keys
    ensures Ids(rs[..m]) <= positions.Keys && Ids(rs[..m + 1]) <= positions.Keys && rs[m].id in positions
    ensures UncontainedSegments(rs[..m + 1], positions)
         == UncontainedSegments(rs[..m], positions) + [UncontainedSegment(rs[m], positions[rs[m].id])]
  {
    assert rs[..m + 1] == rs[..m] + [rs[m]];
    IdsOfConcat(rs[..m], [rs[m]]);
    assert rs == rs[..m + 1] + rs[m + 1..];
    IdsOfConcat(rs[..m + 1], rs[m + 1..]);
  }

  /** One uncontained segment per event of `rs`, placed by `positions`. */
  function UncontainedSegments(rs: seq<Event>, positions: map<int, Position>): seq<Segment>
    requires Ids(rs) <= positions.Keys
  {
    seq(|rs|, i requires 0 <= i < |rs| => assert rs[i] in rs; UncontainedSegment(rs[i], positions[rs[i].id]))
  }

  /** State of the container pass: `processed` and `segments`. */
  datatype Pass = Pass(processed: set<int>, segments: seq<Segment>)

  /** One iteration of the container pass over the duration-sorted events `s`, at `c`. */
  function ContainerStep(s: seq<Event>, st: Pass, c: Event): Pass {
    if c.id in st.processed then st
    else
      var cs := ContainedIn(s, c, st.processed);
      if |cs| == 0 then st
      else
        Pass(st.processed + {c.id} + Ids(cs),
             st.segments + [ContainerSegment(c)] + ContainedSegments(cs, Columns(cs)))
  }

  /**
   * The container pass after the first `k` events of `s`. Its segments stay shaped: each
   * container block is placed as its kind says, and no segment is uncontained. With distinct
   * ids, its segments draw distinct events of `s`, exactly those it marked processed.
   */
  function ContainerPass(s: seq<Event>, k: int): (r: Pass)
    requires 0 <= k <= |s|
    ensures SegmentsShaped(r.segments) && NoneUncontained(r.segments)
    ensures DistinctIds(s) ==> PassCovers(s, r)
  {
    if k == 0 then Pass({}, [])
    else
      var prev := ContainerPass(s, k - 1);
      ContainerStepShaped(s, prev, s[k - 1]);
      ContainerStepCovers(s, prev, s[k - 1]);
      ContainerStep(s, prev, s[k - 1])
  }

  /** The segments of the events left after the container pass. */
  function RemainingSegments(s: seq<Event>, processed: set<int>): seq<Segment> {
    var rest := Unprocessed(s, processed);
    if |rest| > 0 then UncontainedSegments(rest, Columns(rest)) else []
  }

  /** The result of `processEvents(events)`. */
  function Segments(events: seq<Event>): seq<Segment> {
    var s := SortBy(events, DurationRank);
    var st := ContainerPass(s, |s|);
    st.segments + RemainingSegments(s, st.processed)
  }

  // ---------------------------------------------------------------------------
  // What processEvents produces

  /** A segment is drawn where its kind says, from some column placement. */
  ghost predicate WellPlaced(seg: Segment) {
    match seg.kind
    case Container => seg == ContainerSegment(seg.event)
    case Contained => exists p :: IsPlacement(p) && seg == ContainedSegment(seg.event, p)
    case Uncontained => exists p :: IsPlacement(p) && seg == UncontainedSegment(seg.event, p)
  }

  /** Segment `j` is the container whose run of contained segments reaches segment `k`, which it contains. */
  ghost predicate OpensRun(segs: seq<Segment>, j: int, k: int) {
    0 <= j < k < |segs| && segs[j].kind == Container &&
    IsContainedWithin(segs[k].event, segs[j].event) && segs[k].event.id != segs[j].event.id &&
    forall i :: j < i < k ==> segs[i].kind == Contained
  }

  /**
   * Containers come with at least one contained segment right after them; each contained
   * segment lies inside the container that opens its run; uncontained segments come last.
   */
  ghost predicate Nested(segs: seq<Segment>) {
    && (forall k :: 0 <= k < |segs| && segs[k].kind == Container ==>
          k + 1 < |segs| && segs[k + 1].kind == Contained)
    && (forall k :: 0 <= k < |segs| && segs[k].kind == Contained ==> exists j :: OpensRun(segs, j, k))
    && (forall i, j :: 0 <= i < j < |segs| && segs[i].kind == Uncontained ==> segs[j].kind == Uncontained)
  }

  /** No segment is uncontained. */
  ghost predicate NoneUncontained(segs: seq<Segment>) {
    forall k :: 0 <= k < |segs| ==> segs[k].kind != Uncontained
  }

  ghost predicate SegmentsShaped(segs: seq<Segment>) {
    (forall k :: 0 <= k < |segs| ==> WellPlaced(segs[k])) && Nested(segs)
  }

  /** The bounds every well-placed segment keeps; a contained one may reach 96 percent. */
  lemma WellPlacedBounds(seg: Segment)
    requires WellPlaced(seg)
    ensures seg.kind == Container ==> seg.left == 0.0 && seg.width == 95.0 && seg.zIndex == 5 && seg.opacity == 0.65
    ensures seg.kind == Contained ==>
      4.0 <= seg.left && seg.left + seg.width <= 96.0 && seg.width > 0.0 && seg.zIndex >= 10 && seg.opacity >= 0.65
    ensures seg.kind == Uncontained ==>
      0.0 <= seg.left && seg.left + seg.width <= 100.0 && seg.width > 0.0 && seg.zIndex >= 15 && seg.opacity >= 0.65
  {
    if seg.kind != Container {
      var p :| IsPlacement(p) && (seg == ContainedSegment(seg.event, p) || seg == UncontainedSegment(seg.event, p));
      PlacementBounds(p);
    }
  }

  lemma ContainedSegmentsPlaced(cs: seq<Event>, positions: map<int, Position>)
    requires Ids(cs) <= positions.Keys
    requires forall id :: id in positions ==> IsPlacement(positions[id])
    ensures var segs := ContainedSegments(cs, positions);
      forall i :: 0 <= i < |segs| ==> WellPlaced(segs[i]) && segs[i].kind == Contained && segs[i].event == cs[i]
  {
    var segs := ContainedSegments(cs, positions);
    forall i | 0 <= i < |segs| ensures WellPlaced(segs[i]) {
      assert cs[i] in cs;
      var p := positions[cs[i].id];
      assert IsPlacement(p) && segs[i] == ContainedSegment(segs[i].event, p);
    }
  }

  lemma UncontainedSegmentsPlaced(rs: seq<Event>, positions: map<int, Position>)
    requires Ids(rs) <= positions.Keys
    requires forall id :: id in positions ==> IsPlacement(positions[id])
    ensures var segs := UncontainedSegments(rs, positions);
      forall i :: 0 <= i < |segs| ==> WellPlaced(segs[i]) && segs[i].kind == Uncontained && segs[i].event == rs[i]
  {
    var segs := UncontainedSegments(rs, positions);
    forall i | 0 <= i < |segs| ensures WellPlaced(segs[i]) {
      assert rs[i] in rs;
      var p := positions[rs[i].id];
      assert IsPlacement(p) && segs[i] == UncontainedSegment(segs[i].event, p);
    }
  }

  /** Runs that open in `a` survive appending `b`. */
  lemma OpensRunAppend(a: seq<Segment>, b: seq<Segment>, j: int, k: int)
    requires OpensRun(a, j, k)
    ensures OpensRun(a + b, j, k)
  {
    assert forall i :: 0 <= i < |a| ==> (a + b)[i] == a[i];
  }

  /** Runs that open in `b` survive prefixing `a`. */
  lemma OpensRunShift(a: seq<Segment>, b: seq<Segment>, j: int, k: int)
    requires OpensRun(b, j, k)
    ensures OpensRun(a + b, |a| + j, |a| + k)
  {
    assert forall i :: 0 <= i < |b| ==> (a + b)[|a| + i] == b[i];
  }

  /** Two shaped runs concatenate to a shaped run when the first has no uncontained segment and the second does not start inside a container. */
  lemma ShapedConcat(a: seq<Segment>, b: seq<Segment>)
    requires SegmentsShaped(a) && NoneUncontained(a) && SegmentsShaped(b)
    requires b != [] ==> b[0].kind != Contained
    ensures SegmentsShaped(a + b)
    ensures NoneUncontained(b) ==> NoneUncontained(a + b)
  {
    var r := a + b;
    var n := |a|;
    assert forall k :: 0 <= k < n ==> r[k] == a[k];
    assert forall k :: n <= k < |r| ==> r[k] == b[k - n];
    forall k | 0 <= k < |r| && r[k].kind == Contained ensures exists j :: OpensRun(r, j, k) {
      if k < n {
        var j :| OpensRun(a, j, k);
        OpensRunAppend(a, b, j, k);
      } else {
        var j :| OpensRun(b, j, k - n);
        OpensRunShift(a, b, j, k - n);
      }
    }
    forall k | 0 <= k < |r| && r[k].kind == Container ensures k + 1 < |r| && r[k + 1].kind == Contained {
      if k < n {
        assert a[k].kind == Container;
      }
    }
  }

  /** A container followed by the contained run it opens is shaped. */
  lemma BlockShaped(c: Event, block: seq<Segment>)
    requires block != []
    requires forall i :: 0 <= i < |block| ==> WellPlaced(block[i]) && block[i].kind == Contained
    requires forall i :: 0 <= i < |block| ==> IsContainedWithin(block[i].event, c) && block[i].event.id != c.id
    ensures var r := [ContainerSegment(c)] + block;
      SegmentsShaped(r) && NoneUncontained(r) && r[0].kind == Container
  {
    var r := [ContainerSegment(c)] + block;
    assert forall k :: 0 < k < |r| ==> r[k] == block[k - 1];
    forall k | 0 <= k < |r| && r[k].kind == Contained ensures exists j :: OpensRun(r, j, k) {
      assert OpensRun(r, 0, k);
    }
  }

  /** The container segment and contained run one step of the container pass adds. */
  lemma ContainerBlockShaped(c: Event, cs: seq<Event>)
    requires cs != [] && forall e :: e in cs ==> IsContainedWithin(e, c) && e.id != c.id
    ensures var r := [ContainerSegment(c)] + ContainedSegments(cs, Columns(cs));
      SegmentsShaped(r) && NoneUncontained(r) && r[0].kind == Container
  {
    var block := ContainedSegments(cs, Columns(cs));
    ContainedSegmentsPlaced(cs, Columns(cs));
    assert forall i :: 0 <= i < |block| ==> block[i].event in cs;
    BlockShaped(c, block);
  }

  /** The run of uncontained segments is shaped. */
  lemma RemainingShaped(rs: seq<Event>, processed: set<int>)
    ensures var r := RemainingSegments(rs, processed);
      SegmentsShaped(r) && (r != [] ==> r[0].kind == Uncontained)
  {
    var rest := Unprocessed(rs, processed);
    if |rest| > 0 {
      var segs := UncontainedSegments(rest, Columns(rest));
      UncontainedSegmentsPlaced(rest, Columns(rest));
      UncontainedRunShaped(segs);
    }
  }

  /** A run of well-placed uncontained segments is shaped. */
  lemma UncontainedRunShaped(segs: seq<Segment>)
    requires forall k :: 0 <= k < |segs| ==> WellPlaced(segs[k]) && segs[k].kind == Uncontained
    ensures SegmentsShaped(segs)
  {
  }

  lemma ContainerStepShaped(s: seq<Event>, st: Pass, c: Event)
    requires SegmentsShaped(st.segments) && NoneUncontained(st.segments)
    ensures SegmentsShaped(ContainerStep(s, st, c).segments) && NoneUncontained(ContainerStep(s, st, c).segments)
  {
    if c.id !in st.processed {
      var cs := ContainedIn(s, c, st.processed);
      if |cs| > 0 {
        AppendBlockShaped(st.segments, c, cs);
      }
    }
  }

  /** A container block appended to shaped segments keeps them shaped. */
  lemma AppendBlockShaped(prefix: seq<Segment>, c: Event, cs: seq<Event>)
    requires SegmentsShaped(prefix) && NoneUncontained(prefix)
    requires cs != [] && forall e :: e in cs ==> IsContainedWithin(e, c) && e.id != c.id
    ensures var r := prefix + [ContainerSegment(c)] + ContainedSegments(cs, Columns(cs));
      SegmentsShaped(r) && NoneUncontained(r)
  {
    var inner := ContainedSegments(cs, Columns(cs));
    var block := [ContainerSegment(c)] + inner;
    ContainerBlockShaped(c, cs);
    ShapedConcat(prefix, block);
    assert prefix + [ContainerSegment(c)] + inner == prefix + block;
  }

  /**
   * Every segment of `processEvents` is placed as its kind says; containers are followed by
   * what they contain, each contained event lies inside the container opening its run, and
   * uncontained segments come last.
   */
  lemma SegmentsAreShaped(events: seq<Event>)
    ensures SegmentsShaped(Segments(events))
  {
    var s := SortBy(events, DurationRank);
    var st := ContainerPass(s, |s|);
    RemainingShaped(s, st.processed);
    ShapedConcat(st.segments, RemainingSegments(s, st.processed));
  }

  /** The events the segments draw, in order. */
  function SegmentEvents(segs: seq<Segment>): (r: seq<Event>)
    ensures |r| == |segs| && forall i :: 0 <= i < |segs| ==> r[i] == segs[i].event
  {
    seq(|segs|, i requires 0 <= i < |segs| => segs[i].event)
  }

  lemma {:induction false} ContainedInDistinct(t: seq<Event>, c: Event, processed: set<int>)
    requires DistinctIds(t)
    ensures DistinctIds(ContainedIn(t, c, processed))
  {
    if t != [] {
      var n := |t| - 1;
      assert DistinctIds(t[..n]);
      ContainedInDistinct(t[..n], c, processed);
      var r := ContainedIn(t[..n], c, processed);
      forall x | x in r ensures x.id != t[n].id {
        var q :| 0 <= q < n && t[..n][q] == x;
      }
      var r' := r + (if t[n].id != c.id && t[n].id !in processed && IsContainedWithin(t[n], c) then [t[n]] else []);
      forall a, b | 0 <= a < b < |r'| ensures r'[a].id != r'[b].id {
        if b == |r| {
          assert r'[a] in r;
        }
      }
    }
  }

  lemma {:induction false} UnprocessedDistinct(t: seq<Event>, processed: set<int>)
    requires DistinctIds(t)
    ensures DistinctIds(Unprocessed(t, processed))
  {
    if t != [] {
      var n := |t| - 1;
      assert DistinctIds(t[..n]);
      UnprocessedDistinct(t[..n], processed);
      var r := Unprocessed(t[..n], processed);
      forall x | x in r ensures x.id != t[n].id {
        var q :| 0 <= q < n && t[..n][q] == x;
      }
      var r' := r + (if t[n].id !in processed then [t[n]] else []);
      forall a, b | 0 <= a < b < |r'| ensures r'[a].id != r'[b].id {
        if b == |r| {
          assert r'[a] in r;
        }
      }
    }
  }

  /** The segments drawn so far: distinct events of `s`, exactly the processed ids. */
  ghost predicate PassCovers(s: seq<Event>, st: Pass) {
    var evs := SegmentEvents(st.segments);
    DistinctIds(evs) && Ids(evs) == st.processed && forall e :: e in evs ==> e in s
  }

  lemma SegmentEventsConcat(a: seq<Segment>, b: seq<Segment>)
    ensures SegmentEvents(a + b) == SegmentEvents(a) + SegmentEvents(b)
  {
  }

  lemma SegmentEventsOfRuns(es: seq<Event>, positions: map<int, Position>)
    requires Ids(es) <= positions.Keys
    ensures SegmentEvents(ContainedSegments(es, positions)) == es
    ensures SegmentEvents(UncontainedSegments(es, positions)) == es
  {
  }

  /** Adding a container and its run to what was drawn keeps ids distinct and matching `processed`. */
  lemma CoversAppendBlock(evs: seq<Event>, processed: set<int>, c: Event, cs: seq<Event>)
    requires DistinctIds(evs) && Ids(evs) == processed && DistinctIds(cs)
    requires c.id !in processed && forall x :: x in cs ==> x.id !in processed && x.id != c.id
    ensures DistinctIds(evs + [c] + cs) && Ids(evs + [c] + cs) == processed + {c.id} + Ids(cs)
  {
    IdsOfConcat(evs, [c]);
    IdsOfConcat(evs + [c], cs);
    assert Ids([c]) == {c.id};
    DistinctConcat(evs, [c]);
    DistinctConcat(evs + [c], cs);
  }

  lemma ContainerStepCovers(s: seq<Event>, st: Pass, c: Event)
    ensures DistinctIds(s) && c in s && PassCovers(s, st) ==> PassCovers(s, ContainerStep(s, st, c))
  {
    if DistinctIds(s) && c in s && PassCovers(s, st) && c.id !in st.processed {
      var cs := ContainedIn(s, c, st.processed);
      if |cs| > 0 {
        var evs := SegmentEvents(st.segments);
        var block := ContainedSegments(cs, Columns(cs));
        SegmentEventsOfRuns(cs, Columns(cs));
        SegmentEventsConcat(st.segments, [ContainerSegment(c)]);
        SegmentEventsConcat(st.segments + [ContainerSegment(c)], block);
        assert SegmentEvents([ContainerSegment(c)]) == [c];
        ContainedInDistinct(s, c, st.processed);
        CoversAppendBlock(evs, st.processed, c, cs);
      }
    }
  }

  /** With distinct ids, `processEvents` draws every event exactly once and nothing else. */
  lemma SegmentsCoverEvents(events: seq<Event>)
    requires DistinctIds(events)
    ensures var evs := SegmentEvents(Segments(events));
      DistinctIds(evs) && Ids(evs) == Ids(events) && forall e :: e in evs ==> e in events
  {
    var s := SortBy(events, DurationRank);
    SortKeepsElements(events, DurationRank);
    SortKeepsDistinct(events, DurationRank);
    var st := ContainerPass(s, |s|);
    RemainingCovers(s, st);
  }

  lemma RemainingCovers(s: seq<Event>, st: Pass)
    requires DistinctIds(s) && PassCovers(s, st)
    ensures var evs := SegmentEvents(st.segments + RemainingSegments(s, st.processed));
      DistinctIds(evs) && Ids(evs) == Ids(s) && forall e :: e in evs ==> e in s
  {
    var evs := SegmentEvents(st.segments);
    var rest := Unprocessed(s, st.processed);
    var tail := RemainingSegments(s, st.processed);
    if |rest| > 0 {
      SegmentEventsOfRuns(rest, Columns(rest));
    }
    assert SegmentEvents(tail) == rest;
    UnprocessedDistinct(s, st.processed);
    UnprocessedIds(s, st.processed);
    SegmentEventsConcat(st.segments, tail);
    IdsOfConcat(evs, rest);
    assert Ids(evs) == st.processed && Ids(evs) !! Ids(rest);
    DistinctConcat(evs, rest);
    assert Ids(evs) <= Ids(s) by {
      forall id | id in Ids(evs) ensures id in Ids(s) {
        var e :| e in evs && e.id == id;
        assert e in s;
      }
    }
  }

  lemma UnprocessedIds(s: seq<Event>, processed: set<int>)
    ensures Ids(Unprocessed(s, processed)) == Ids(s) - processed
  {
    var rest := Unprocessed(s, processed);
    forall id | id in Ids(s) - processed ensures id in Ids(rest) {
      var e :| e in s && e.id == id;
      assert e in rest;
    }
  }

  /** A lone event gets the whole track. */
  lemma SingleColumn(e: Event)
    ensures Columns([e]) == map[e.id := SoloPosition]
  {
    var s := [e];
    SortOfSorted(s, LayoutRank);
    FlaggedIdsMeaning(s, e.id);
    var F := FlaggedIds(s);
    assert e.id !in F;
    var st0 := GroupingUpTo(s, F, 0);
    assert GroupingUpTo(s, F, 1) == GroupStep(s, F, st0, e);
    ColumnsFrom(s, s, Grouping({e.id}, map[e.id := SoloPosition], []));
  }

  lemma TwoContainerPass(a: Event, b: Event)
    requires a.id != b.id && IsContainedWithin(b, a)
    ensures ContainerPass([a, b], 2) ==
      Pass({a.id, b.id}, [ContainerSegment(a), ContainedSegment(b, SoloPosition)])
  {
    var s := [a, b];
    var st1 := Pass({a.id, b.id}, [ContainerSegment(a), ContainedSegment(b, SoloPosition)]);
    FirstContainerStep(a, b);
    assert ContainerPass(s, 1) == st1;
    assert s[1] == b && b.id in st1.processed;
    assert ContainerStep(s, st1, s[1]) == st1;
  }

  /** The first event of the pair opens a container holding the second. */
  lemma FirstContainerStep(a: Event, b: Event)
    requires a.id != b.id && IsContainedWithin(b, a)
    ensures ContainerStep([a, b], Pass({}, []), a) ==
      Pass({a.id, b.id}, [ContainerSegment(a), ContainedSegment(b, SoloPosition)])
  {
    PairContainedIn(a, b);
    SoloContainedSegments(b);
    assert ContainerStep([a, b], Pass({}, []), a) ==
      Pass({} + {a.id} + Ids([b]), [] + [ContainerSegment(a)] + ContainedSegments([b], Columns([b])));
  }

  /** Of the pair, only the second event lies inside the first. */
  lemma PairContainedIn(a: Event, b: Event)
    requires a.id != b.id && IsContainedWithin(b, a)
    ensures ContainedIn([a, b], a, {}) == [b]
  {
    assert [a, b][..1] == [a] && [a][..0] == [];
    assert ContainedIn([a], a, {}) == [];
  }

  /** A lone contained event keeps the full-width column, inset. */
  lemma SoloContainedSegments(b: Event)
    ensures Ids([b]) == {b.id}
    ensures ContainedSegments([b], Columns([b])) == [ContainedSegment(b, SoloPosition)]
  {
    SingleColumn(b);
    assert Ids([b]) == {b.id};
  }

  /**
   * A container and the one event inside it: the longer event is drawn as a container
   * at 95 percent, the shorter one inset at 4 percent and 92 percent wide, whatever the input order.
   */
  lemma ContainerExample(a: Event, b: Event)
    requires a.id != b.id && IsContainedWithin(b, a) && a.end - a.start > b.end - b.start
    ensures Segments([b, a]) == [
      Segment(a, Container, 0.0, 95.0, 5, 0.65),
      Segment(b, Contained, 4.0, 92.0, 10, 0.65)]
  {
    LongerFirst(a, b);
    TwoContainerPass(a, b);
    var st := Pass({a.id, b.id}, [ContainerSegment(a), ContainedSegment(b, SoloPosition)]);
    SegmentsFrom([b, a], [a, b], st);
    NothingRemains(a, b);
  }

  /** The segments are read off the duration order and the finished container pass. */
  lemma SegmentsFrom(events: seq<Event>, s: seq<Event>, st: Pass)
    requires SortBy(events, DurationRank) == s && ContainerPass(s, |s|) == st
    ensures Segments(events) == st.segments + RemainingSegments(s, st.processed)
  {
  }

  lemma LongerFirst(a: Event, b: Event)
    requires a.end - a.start > b.end - b.start
    ensures SortBy([b, a], DurationRank) == [a, b]
  {
    assert [b, a][1..] == [a] && [a][1..] == [];
    assert SortBy([a], DurationRank) == Insert(a, [], DurationRank) == [a];
    assert Insert(b, [a], DurationRank) == [a] + Insert(b, [], DurationRank) == [a, b];
  }

  lemma NothingRemains(a: Event, b: Event)
    ensures RemainingSegments([a, b], {a.id, b.id}) == []
  {
    assert [a, b][..1] == [a] && [a][..0] == [];
    assert Unprocessed([a], {a.id, b.id}) == [];
    assert Unprocessed([a, b], {a.id, b.id}) == [];
  }

  /** 09:00-12:00 and 10:00-10:30 on day 0: the second is nested in the first's inset track. */
  lemma ContainmentExample()
    ensures var a := Timed(1, 9 * 3600000, 12 * 3600000);
      var b := Timed(2, 10 * 3600000, 10 * 3600000 + 30 * 60000);
      var segs := Segments([b, a]);
      |segs| == 2 && segs[0].kind == Container && segs[0].event == a && segs[0].width == 95.0
      && segs[1].kind == Contained && segs[1].left == 4.0 && segs[1].width == 92.0
  {
    var a := Timed(1, 9 * 3600000, 12 * 3600000);
    var b := Timed(2, 10 * 3600000, 10 * 3600000 + 30 * 60000);
    ContainerExample(a, b);
  }

  // ---------------------------------------------------------------------------
  // processEvents, as the loops it is written with

  /** Containers first, longest event first; then the events no container took. */
  method ProcessEvents(events: seq<Event>) returns (segments: seq<Segment>)
    ensures segments == Segments(events)
  {
    var sorted := SortBy(events, DurationRank);
    var processed: set<int> := {};
    segments := [];
    for k := 0 to |sorted|
      invariant Pass(processed, segments) == ContainerPass(sorted, k)
    {
      var container := sorted[k];
      if container.id in processed {
        continue;
      }
      var containedEvents := ContainedIn(sorted, container, processed);
      if |containedEvents| > 0 {
        segments := segments + [ContainerSegment(container)];
        processed := processed + {container.id};
        var positions := CalculateEventColumns(containedEvents);
        segments, processed := EmitContained(segments, processed, containedEvents, positions);
      }
    }
    var remainingEvents := Unprocessed(sorted, processed);
    if |remainingEvents| > 0 {
      var positions := CalculateEventColumns(remainingEvents);
      segments := EmitUncontained(segments, remainingEvents, positions);
    }
  }

  /** Pushes one contained segment per event and marks each event processed. */
  method EmitContained(segments: seq<Segment>, processed: set<int>, cs: seq<Event>, positions: map<int, Position>)
    returns (segments': seq<Segment>, processed': set<int>)
    requires Ids(cs) <= positions.Keys
    ensures segments' == segments + ContainedSegments(cs, positions)
    ensures processed' == processed + Ids(cs)
  {
    segments', processed' := segments, processed;
    for m := 0 to |cs|
      invariant segments' == segments + ContainedSegments(cs[..m], positions)
      invariant processed' == processed + Ids(cs[..m])
    {
      ContainedSegmentsSnoc(cs, m, positions);
      IdsOfConcat(cs[..m], [cs[m]]);
      assert cs[..m + 1] == cs[..m] + [cs[m]];
      var pos := positions[cs[m].id];
      var adjustedWidth := pos.width * 0.92;
      var adjustedLeft := 4.0 + pos.left * 0.92;
      var opacity := if pos.opacity == 0.0 then 0.65 else pos.opacity;
      segments' := segments' + [Segment(cs[m], Contained, adjustedLeft, adjustedWidth, 10 + pos.column, opacity)];
      processed' := processed' + {cs[m].id};
    }
    assert cs[..|cs|] == cs;
  }

  /** Pushes one uncontained segment per remaining event. */
  method EmitUncontained(segments: seq<Segment>, rs: seq<Event>, positions: map<int, Position>)
    returns (segments': seq<Segment>)
    requires Ids(rs) <= positions.Keys
    ensures segments' == segments + UncontainedSegments(rs, positions)
  {
    segments' := segments;
    for m := 0 to |rs|
      invariant segments' == segments + UncontainedSegments(rs[..m], positions)
    {
      UncontainedSegmentsSnoc(rs, m, positions);
      var pos := positions[rs[m].id];
      var opacity := if pos.opacity == 0.0 then 0.65 else pos.opacity;
      segments' := segments' + [Segment(rs[m], Uncontained, pos.left, pos.width, 15 + pos.column, opacity)];
    }
    assert rs[..|rs|] == rs;
  }
}
