/**
 * The three string operations the forms and the friend search rely on:
 * `trim`, `toLowerCase` and `includes`, over ASCII text.
 */
module Text {

  /** The ASCII characters `String.prototype.trim` removes: tab, line feed, vertical tab, form feed, carriage return, space. */
  predicate IsSpace(c: char) {
    (9 <= c as int <= 13) || c == ' '
  }

  /** Number of whitespace characters at the start of `s`. */
  function LeadingSpaces(s: string): (n: nat)
    ensures n <= |s|
    ensures forall k :: 0 <= k < n ==> IsSpace(s[k])
    ensures n < |s| ==> !IsSpace(s[n])
  {
    if s == [] || !IsSpace(s[0]) then 0 else 1 + LeadingSpaces(s[1..])
  }

  /** Number of whitespace characters at the end of `s`. */
  function TrailingSpaces(s: string): (n: nat)
    ensures n <= |s|
    ensures forall k :: |s| - n <= k < |s| ==> IsSpace(s[k])
    ensures n < |s| ==> !IsSpace(s[|s| - n - 1])
  {
    if s == [] || !IsSpace(s[|s| - 1]) then 0 else 1 + TrailingSpaces(s[..|s| - 1])
  }

  /** Everything in `s` before `i` and from `j` on is whitespace. */
  predicate BlankOutside(s: string, i: int, j: int)
    requires 0 <= i <= j <= |s|
  {
    (forall k :: 0 <= k < i ==> IsSpace(s[k])) && (forall k :: j <= k < |s| ==> IsSpace(s[k]))
  }

  /**
   * `s.trim()`: the slice of `s` left after removing whitespace from both ends;
   * it neither starts nor ends with whitespace.
   */
  function Trim(s: string): (r: string)
    ensures r == [] || (!IsSpace(r[0]) && !IsSpace(r[|r| - 1]))
    ensures exists i, j :: 0 <= i <= j <= |s| && r == s[i..j] && BlankOutside(s, i, j)
  {
    var i := LeadingSpaces(s);
    if i == |s| then
      assert BlankOutside(s, 0, 0);
      s[0..0]
    else
      var j := |s| - TrailingSpaces(s[i..]);
      TrimEnds(s, i, j);
      s[i..j]
  }

  /** Where `Trim` cuts a string that is not all whitespace: between two non-blank characters. */
  lemma TrimEnds(s: string, i: int, j: int)
    requires i == LeadingSpaces(s) < |s| && j == |s| - TrailingSpaces(s[i..])
    ensures i < j <= |s| && BlankOutside(s, i, j) && !IsSpace(s[i]) && !IsSpace(s[j - 1])
  {
    TrailingBlank(s, i, j);
    LastKept(s, i, j);
  }

  /** Everything from the cut at the end on is whitespace. */
  lemma TrailingBlank(s: string, i: int, j: int)
    requires 0 <= i <= |s| && j == |s| - TrailingSpaces(s[i..])
    ensures forall k :: j <= k < |s| ==> IsSpace(s[k])
  {
    var t := s[i..];
    forall k | j <= k < |s| ensures IsSpace(s[k]) {
      assert s[k] == t[k - i];
    }
  }

  /** After a non-blank character at `i`, the cut at the end keeps it and ends on a non-blank character. */
  lemma LastKept(s: string, i: int, j: int)
    requires 0 <= i < |s| && !IsSpace(s[i]) && j == |s| - TrailingSpaces(s[i..])
    ensures i < j && !IsSpace(s[j - 1])
  {
    var t := s[i..];
    var n := TrailingSpaces(t);
    assert t[0] == s[i];
    assert s[j - 1] == t[|t| - n - 1];
  }

  /** The trimmed text is empty exactly when `s` is all whitespace. */
  lemma TrimEmptyIffBlank(s: string)
    ensures Trim(s) == [] <==> forall k :: 0 <= k < |s| ==> IsSpace(s[k])
  {
    var i := LeadingSpaces(s);
    if i < |s| {
      assert !IsSpace(s[i]);
      var t := s[i..];
      assert Trim(s)[0] == t[0] == s[i];
    }
  }

  /** Trimming twice is trimming once. */
  lemma TrimIdempotent(s: string)
    ensures Trim(Trim(s)) == Trim(s)
  {
    var r := Trim(s);
    if r != [] {
      assert LeadingSpaces(r) == 0;
      assert TrailingSpaces(r) == 0;
      assert r[0..|r|] == r;
    }
  }

  /** `toLowerCase` on one ASCII character. */
  function LowerChar(c: char): (r: char)
    ensures !('A' <= r <= 'Z')
    ensures !('A' <= c <= 'Z') ==> r == c
  {
    if 'A' <= c <= 'Z' then (c as int + 32) as char else c
  }

  /** `s.toLowerCase()` for ASCII text. */
  function ToLower(s: string): (r: string)
    ensures |r| == |s|
    ensures forall k :: 0 <= k < |r| ==> r[k] == LowerChar(s[k])
  {
    seq(|s|, k requires 0 <= k < |s| => LowerChar(s[k]))
  }

  /** Lowercasing twice is lowercasing once. */
  lemma ToLowerIdempotent(s: string)
    ensures ToLower(ToLower(s)) == ToLower(s)
  {
  }

  /** `t` occurs in `s` at position `i`. */
  predicate OccursAt(s: string, t: string, i: int) {
    0 <= i && i + |t| <= |s| && s[i..i + |t|] == t
  }

  /** `s.includes(t)`: tries every start position from the left. */
  function Includes(s: string, t: string): (r: bool)
    ensures r <==> exists i :: OccursAt(s, t, i)
    decreases |s|
  {
    if |t| > |s| then
      assert forall i :: !OccursAt(s, t, i);
      false
    else if s[..|t|] == t then
      assert OccursAt(s, t, 0);
      true
    else
      var rest := Includes(s[1..], t);
      IncludesShift(s, t);
      rest
  }

  /** An occurrence past the first character is an occurrence in the tail, and back. */
  lemma IncludesShift(s: string, t: string)
    requires |t| <= |s| && s[..|t|] != t
    ensures (exists i :: OccursAt(s, t, i)) <==> (exists i :: OccursAt(s[1..], t, i))
  {
    forall i | OccursAt(s, t, i) ensures OccursAt(s[1..], t, i - 1) {
      assert i != 0;
      assert s[1..][i - 1..i - 1 + |t|] == s[i..i + |t|];
    }
    forall i | OccursAt(s[1..], t, i) ensures OccursAt(s, t, i + 1) {
      assert s[1..][i..i + |t|] == s[i + 1..i + 1 + |t|];
    }
  }

  /** The empty string occurs in every string, so an empty search matches everything. */
  lemma IncludesEmpty(s: string)
    ensures Includes(s, "")
  {
    assert OccursAt(s, "", 0);
  }
}
