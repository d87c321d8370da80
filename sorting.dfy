/**
 * `Array.prototype.sort` with a comparator, as the calendar uses it: a
 * stable sort of events by a rank. Ranks are pairs compared
 * lexicographically, which covers every comparator in the source
 * (start time; start time then longer duration first; longer duration first).
 */
module Sorting {
  import opened Events

  datatype Rank = Rank(major: int, minor: int)

  predicate RankLe(a: Rank, b: Rank) {
    a.major < b.major || (a.major == b.major && a.minor <= b.minor)
  }

  predicate SortedBy(s: seq<Event>, key: Event -> Rank) {
    forall i, j :: 0 <= i < j < |s| ==> RankLe(key(s[i]), key(s[j]))
  }

  /** Three elements whose neighbours are in order are sorted. */
  lemma SortedThree(a: Event, b: Event, c: Event, key: Event -> Rank)
    requires RankLe(key(a), key(b)) && RankLe(key(b), key(c))
    ensures SortedBy([a, b, c], key)
  {
    var s := [a, b, c];
    forall i, j | 0 <= i < j < 3 ensures RankLe(key(s[i]), key(s[j])) {
    }
  }

  /** Inserts `x` before the first element that does not rank below it. */
  function Insert(x: Event, s: seq<Event>, key: Event -> Rank): seq<Event> {
    if s == [] then [x]
    else if RankLe(key(x), key(s[0])) then [x] + s
    else [s[0]] + Insert(x, s[1..], key)
  }

  /** Inserting adds exactly the one element. */
  lemma {:induction false} InsertPermutes(x: Event, s: seq<Event>, key: Event -> Rank)
    ensures multiset(Insert(x, s, key)) == multiset(s) + multiset{x}
  {
    if s != [] && !RankLe(key(x), key(s[0])) {
      InsertPermutes(x, s[1..], key);
      assert s == [s[0]] + s[1..];
    }
  }

  /** Every element of `Insert(x, s, key)` is `x` or an element of `s`. */
  lemma InsertElements(x: Event, s: seq<Event>, key: Event -> Rank)
    ensures forall e :: e in Insert(x, s, key) ==> e == x || e in s
  {
    var r := Insert(x, s, key);
    InsertPermutes(x, s, key);
    forall e | e in r ensures e == x || e in s {
      assert e in multiset(r);
    }
  }

  lemma {:induction false} InsertSorted(x: Event, s: seq<Event>, key: Event -> Rank)
    requires SortedBy(s, key)
    ensures SortedBy(Insert(x, s, key), key)
  {
    if s != [] && !RankLe(key(x), key(s[0])) {
      InsertSorted(x, s[1..], key);
      InsertAfterHead(x, s, key);
      SortedCons(s[0], Insert(x, s[1..], key), key);
    }
  }

  /** When `x` goes after the head of sorted `s`, the head ranks at most every element of the rest. */
  lemma InsertAfterHead(x: Event, s: seq<Event>, key: Event -> Rank)
    requires SortedBy(s, key) && s != [] && !RankLe(key(x), key(s[0]))
    ensures forall e :: e in Insert(x, s[1..], key) ==> RankLe(key(s[0]), key(e))
  {
    InsertElements(x, s[1..], key);
    forall e | e in s[1..] ensures RankLe(key(s[0]), key(e)) {
      var j :| 0 <= j < |s[1..]| && s[1..][j] == e;
      assert s[j + 1] == e;
    }
  }

  /** A sorted sequence stays sorted behind an element ranking at most each of its elements. */
  lemma SortedCons(a: Event, t: seq<Event>, key: Event -> Rank)
    requires SortedBy(t, key) && forall e :: e in t ==> RankLe(key(a), key(e))
    ensures SortedBy([a] + t, key)
  {
    var r := [a] + t;
    forall i, j | 0 <= i < j < |r| ensures RankLe(key(r[i]), key(r[j])) {
      assert r[j] == t[j - 1] && t[j - 1] in t;
      if i > 0 {
        assert r[i] == t[i - 1];
      }
    }
  }

  /** The stable sort: ordered by `key` (and a permutation of `s`, by `SortPermutes`). */
  function SortBy(s: seq<Event>, key: Event -> Rank): (r: seq<Event>)
    ensures SortedBy(r, key)
  {
    if s == [] then []
    else
      InsertSorted(s[0], SortBy(s[1..], key), key);
      Insert(s[0], SortBy(s[1..], key), key)
  }

  /** Sorting returns a permutation of its input. */
  lemma {:induction false} SortPermutes(s: seq<Event>, key: Event -> Rank)
    ensures multiset(SortBy(s, key)) == multiset(s)
  {
    if s != [] {
      SortPermutes(s[1..], key);
      InsertPermutes(s[0], SortBy(s[1..], key), key);
      assert s == [s[0]] + s[1..];
    }
  }

  /** The elements of `s` whose rank is `k`, in their order in `s`. */
  function WithRank(s: seq<Event>, key: Event -> Rank, k: Rank): seq<Event> {
    if s == [] then []
    else (if key(s[0]) == k then [s[0]] else []) + WithRank(s[1..], key, k)
  }

  lemma {:induction false} InsertKeepsRankOrder(x: Event, s: seq<Event>, key: Event -> Rank, k: Rank)
    ensures WithRank(Insert(x, s, key), key, k) == (if key(x) == k then [x] else []) + WithRank(s, key, k)
  {
    var hx := if key(x) == k then [x] else [];
    if s != [] && !RankLe(key(x), key(s[0])) {
      InsertKeepsRankOrder(x, s[1..], key, k);
      var t := Insert(x, s[1..], key);
      var h0 := if key(s[0]) == k then [s[0]] else [];
      var rest := WithRank(s[1..], key, k);
      assert Insert(x, s, key) == [s[0]] + t;
      WithRankCons(s[0], t, key, k);
      assert WithRank(s, key, k) == h0 + rest;
      if key(x) == k {
        assert h0 == [];
        assert WithRank([s[0]] + t, key, k) == hx + rest;
        assert WithRank(s, key, k) == rest;
      } else {
        assert hx == [];
        assert WithRank([s[0]] + t, key, k) == h0 + rest;
      }
    } else if s != [] {
      WithRankCons(x, s, key, k);
    } else {
      WithRankCons(x, [], key, k);
      assert [x] + [] == [x];
    }
  }

  /** The rank-`k` elements of `[a] + t`: `a` when it has rank `k`, then those of `t`. */
  lemma WithRankCons(a: Event, t: seq<Event>, key: Event -> Rank, k: Rank)
    ensures WithRank([a] + t, key, k) == (if key(a) == k then [a] else []) + WithRank(t, key, k)
  {
    assert ([a] + t)[0] == a && ([a] + t)[1..] == t;
  }

  /** Stability: elements of equal rank keep their input order. */
  lemma {:induction false} SortIsStable(s: seq<Event>, key: Event -> Rank, k: Rank)
    ensures WithRank(SortBy(s, key), key, k) == WithRank(s, key, k)
  {
    if s != [] {
      SortIsStable(s[1..], key, k);
      InsertKeepsRankOrder(s[0], SortBy(s[1..], key), key, k);
    }
  }

  /** Sorting keeps exactly the same events, hence the same ids. */
  lemma SortKeepsElements(s: seq<Event>, key: Event -> Rank)
    ensures forall e :: e in SortBy(s, key) <==> e in s
    ensures Ids(SortBy(s, key)) == Ids(s)
  {
    var r := SortBy(s, key);
    SortPermutes(s, key);
    assert forall e :: e in r <==> e in multiset(r);
    assert forall e :: e in s <==> e in multiset(s);
  }

  lemma {:induction false} InsertKeepsDistinct(x: Event, s: seq<Event>, key: Event -> Rank)
    requires DistinctIds(s) && x.id !in Ids(s)
    ensures DistinctIds(Insert(x, s, key))
  {
    if s != [] && !RankLe(key(x), key(s[0])) {
      assert s == [s[0]] + s[1..];
      assert Ids(s[1..]) <= Ids(s);
      InsertKeepsDistinct(x, s[1..], key);
      var t := Insert(x, s[1..], key);
      InsertElements(x, s[1..], key);
      assert s[0].id !in Ids(t);
    } else if s != [] {
      assert forall i :: 0 <= i < |s| ==> s[i] in s;
    }
  }

  /** Sorting events with distinct ids yields events with distinct ids. */
  lemma {:induction false} SortKeepsDistinct(s: seq<Event>, key: Event -> Rank)
    requires DistinctIds(s)
    ensures DistinctIds(SortBy(s, key))
  {
    if s != [] {
      assert s == [s[0]] + s[1..];
      SortKeepsDistinct(s[1..], key);
      SortKeepsElements(s[1..], key);
      assert s[0].id !in Ids(s[1..]);
      InsertKeepsDistinct(s[0], SortBy(s[1..], key), key);
    }
  }

  /** A sequence already in order is left as it is. */
  lemma {:induction false} SortOfSorted(s: seq<Event>, key: Event -> Rank)
    requires SortedBy(s, key)
    ensures SortBy(s, key) == s
  {
    if s != [] {
      assert SortedBy(s[1..], key);
      SortOfSorted(s[1..], key);
      assert s == [s[0]] + s[1..];
    }
  }
}
