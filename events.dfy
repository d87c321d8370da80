/** The event record shared by every view of the calendar. */
module Events {
  import opened Time
  import opened Wrappers

  /**
   * One calendar entry as the front end holds it. `start` and `end` are the
   * parsed `start_time` and `end_time`; `allDay` is the flag the edit form
   * reads, `isAllDay` the one the drag handlers read; `duration` is the
   * optional fixed length in minutes a drag preview prefers; `completed` is
   * the done flag of a task.
   */
  datatype Event = Event(
    id: int,
    title: string,
    start: Instant,
    end: Instant,
    allDay: bool,
    isAllDay: bool,
    duration: Option<int>,
    calendar: string,
    location: string,
    frequency: string,
    completed: bool)

  /** The calendar's three views. */
  datatype View = Month | Week | Day

  /** The ids that occur in `s`. */
  function Ids(s: seq<Event>): set<int> {
    set e | e in s :: e.id
  }

  /** No id occurs twice in `s`. */
  predicate DistinctIds(s: seq<Event>) {
    forall i, j :: 0 <= i < j < |s| ==> s[i].id != s[j].id
  }

  /** A plain timed event, used by the worked examples. */
  function Timed(id: int, start: Instant, end: Instant): Event {
    Event(id, "", start, end, false, false, None, "Personal", "", "", false)
  }

  lemma IdsOfConcat(a: seq<Event>, b: seq<Event>)
    ensures Ids(a + b) == Ids(a) + Ids(b)
  {
    assert forall e :: e in a + b <==> e in a || e in b;
  }

  /** The ids of a prefix one longer add the id of its last event. */
  lemma IdsOfLongerPrefix(s: seq<Event>, k: int)
    requires 0 < k <= |s|
    ensures Ids(s[..k]) == Ids(s[..k - 1]) + {s[k - 1].id}
  {
    assert s[..k] == s[..k - 1] + [s[k - 1]];
    IdsOfConcat(s[..k - 1], [s[k - 1]]);
    assert Ids([s[k - 1]]) == {s[k - 1].id};
  }

  /** The ids of the first `k` events, one at a time. */
  function PrefixIds(s: seq<Event>, k: int): set<int>
    requires 0 <= k <= |s|
  {
    if k == 0 then {} else PrefixIds(s, k - 1) + {s[k - 1].id}
  }

  /** Collecting the ids one at a time gives the ids of the prefix. */
  lemma {:induction false} PrefixIdsAreIds(s: seq<Event>, k: int)
    requires 0 <= k <= |s|
    ensures PrefixIds(s, k) == Ids(s[..k])
  {
    if k > 0 {
      PrefixIdsAreIds(s, k - 1);
      IdsOfLongerPrefix(s, k);
    }
  }

  /** Collecting every id gives the ids of the whole sequence. */
  lemma AllPrefixIds(s: seq<Event>)
    ensures PrefixIds(s, |s|) == Ids(s)
  {
    PrefixIdsAreIds(s, |s|);
    assert s[..|s|] == s;
  }

  /** Two sequences with distinct ids and no id in common concatenate to one with distinct ids. */
  lemma DistinctConcat(a: seq<Event>, b: seq<Event>)
    requires DistinctIds(a) && DistinctIds(b) && Ids(a) !! Ids(b)
    ensures DistinctIds(a + b)
  {
    var r := a + b;
    forall i, j | 0 <= i < j < |r| ensures r[i].id != r[j].id {
      if j < |a| {
        assert r[i] == a[i] && r[j] == a[j];
      } else if i >= |a| {
        assert r[i] == b[i - |a|] && r[j] == b[j - |a|];
      } else {
        assert r[i] == a[i] && r[j] == b[j - |a|];
        assert r[i] in a && r[j] in b;
        assert r[i].id in Ids(a) && r[j].id in Ids(b);
      }
    }
  }
}
