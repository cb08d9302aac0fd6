/**
 * The event filter of the extraction entrypoint: a listing row is dropped
 * when its lower-cased event/locale text contains a match of
 * `(blitz)|(bullet)|(simultaneous)|(simul)|(960)|(lichess)|(exhibition)|(speed)|(chess.com)|(fischer)|(titled)`.
 * Every alternative is literal text except for the `.` of `chess.com`,
 * which matches any character but a newline.
 */
module EventFilter {
  import opened Records

  /** One position of a pattern alternative. */
  datatype PatternChar = Exactly(c: char) | AnyButNewline

  predicate CharMatches(p: PatternChar, c: char)
  {
    match p
    case Exactly(d) => c == d
    case AnyButNewline => c != '\n'
  }

  function Literal(s: string): (p: seq<PatternChar>)
    ensures |p| == |s|
    ensures forall k :: 0 <= k < |s| ==> p[k] == Exactly(s[k])
  {
    seq(|s|, k requires 0 <= k < |s| => Exactly(s[k]))
  }

  /** The alternatives, in the order the pattern lists them. */
  const EventsOut: seq<seq<PatternChar>> := [
    Literal("blitz"), Literal("bullet"), Literal("simultaneous"), Literal("simul"),
    Literal("960"), Literal("lichess"), Literal("exhibition"), Literal("speed"),
    Literal("chess") + [AnyButNewline] + Literal("com"), Literal("fischer"), Literal("titled")]

  /** `str.lower()` on ASCII letters. */
  function LowerChar(c: char): (l: char)
    ensures 'A' <= c <= 'Z' ==> l as int == c as int + 32
    ensures !('A' <= c <= 'Z') ==> l == c
  {
    if 'A' <= c <= 'Z' then (c as int + 32) as char else c
  }

  function ToLower(s: string): (l: string)
    ensures |l| == |s|
    ensures forall k :: 0 <= k < |s| ==> l[k] == LowerChar(s[k])
  {
    seq(|s|, k requires 0 <= k < |s| => LowerChar(s[k]))
  }

  /** The alternative matches the text at position `i`. */
  predicate MatchesAt(text: string, i: nat, pattern: seq<PatternChar>)
  {
    i + |pattern| <= |text| && forall k :: 0 <= k < |pattern| ==> CharMatches(pattern[k], text[i + k])
  }

  /** Some position of the text matches the alternative. */
  predicate Contains(text: string, pattern: seq<PatternChar>)
  {
    exists i :: 0 <= i <= |text| && MatchesAt(text, i, pattern)
  }

  /** The search of `str.contains`: try each start position from `i` on, left to right. */
  function SearchFrom(text: string, pattern: seq<PatternChar>, i: nat): (found: bool)
    ensures found <==> exists j :: i <= j <= |text| && MatchesAt(text, j, pattern)
    decreases |text| - i
  {
    if i > |text| then false
    else MatchesAt(text, i, pattern) || SearchFrom(text, pattern, i + 1)
  }

  /** Line 55: the event matches one of the alternatives after lower-casing. */
  function IsExcluded(event: string): (excluded: bool)
    ensures excluded <==> exists p :: p in EventsOut && Contains(ToLower(event), p)
  {
    exists p :: p in EventsOut && SearchFrom(ToLower(event), p, 0)
  }

  /** Lines 54-56: keep the rows whose event is not excluded, in their order;
      the kept rows are numbered from 0 by their position. */
  function KeepEvents(rows: seq<ListingRow>): (kept: seq<ListingRow>)
    ensures |kept| <= |rows|
  {
    if |rows| == 0 then []
    else (if IsExcluded(rows[0].event) then [] else [rows[0]]) + KeepEvents(rows[1..])
  }

  /** Exactly the rows whose event no alternative matches survive. */
  lemma {:induction false} KeepEventsMembers(rows: seq<ListingRow>)
    ensures forall r :: r in KeepEvents(rows) <==> r in rows && !IsExcluded(r.event)
    decreases |rows|
  {
    if |rows| > 0 {
      KeepEventsMembers(rows[1..]);
      assert rows == [rows[0]] + rows[1..];
    }
  }

  /** The search finds a match exactly when the text contains one. */
  lemma SearchIsContains(text: string, pattern: seq<PatternChar>)
    ensures SearchFrom(text, pattern, 0) <==> Contains(text, pattern)
  {
  }

  /** The filter works row by row, so it keeps the relative order of rows. */
  lemma {:induction false} KeepEventsConcat(a: seq<ListingRow>, b: seq<ListingRow>)
    ensures KeepEvents(a + b) == KeepEvents(a) + KeepEvents(b)
    decreases |a|
  {
    if |a| == 0 {
      assert a + b == b;
    } else {
      assert (a + b)[1..] == a[1..] + b;
      KeepEventsConcat(a[1..], b);
    }
  }

  /** Filtering twice is filtering once. */
  lemma {:induction false} KeepEventsIdempotent(rows: seq<ListingRow>)
    ensures KeepEvents(KeepEvents(rows)) == KeepEvents(rows)
    decreases |rows|
  {
    if |rows| > 0 {
      var head := if IsExcluded(rows[0].event) then [] else [rows[0]];
      KeepEventsIdempotent(rows[1..]);
      KeepEventsConcat(head, KeepEvents(rows[1..]));
      if head != [] {
        assert ([rows[0]] + [])[1..] == [];
      }
    }
  }

  /** Rows that no alternative matches all stay, unchanged and in order. */
  lemma {:induction false} KeepEventsOfKept(rows: seq<ListingRow>)
    requires forall k :: 0 <= k < |rows| ==> !IsExcluded(rows[k].event)
    ensures KeepEvents(rows) == rows
    decreases |rows|
  {
    if |rows| > 0 {
      KeepEventsOfKept(rows[1..]);
      assert [rows[0]] + rows[1..] == rows;
    }
  }

  /** Upper case does not hide a blitz event. */
  lemma BlitzExcluded()
    ensures IsExcluded("World Blitz")
  {
    var l := ToLower("World Blitz");
    assert l[6..11] == "blitz";
    assert MatchesAt(l, 6, EventsOut[0]);
    assert SearchFrom(l, EventsOut[0], 0);
  }

  /** The `.` of `chess.com` is a wildcard: a dash matches it as well as a dot. */
  lemma ChessDashComExcluded()
    ensures IsExcluded("Chess-com")
  {
    var l := ToLower("Chess-com");
    var p := EventsOut[8];
    assert l == "chess-com";
    assert MatchesAt(l, 0, p);
    assert SearchFrom(l, p, 0);
  }

  /** An alternative whose first character the text lacks is never found. */
  lemma NotFoundWithoutFirstChar(text: string, pattern: seq<PatternChar>, c: char)
    requires 0 < |pattern| && pattern[0] == Exactly(c) && c !in text
    ensures !SearchFrom(text, pattern, 0)
  {
    forall j | 0 <= j <= |text| ensures !MatchesAt(text, j, pattern) {
      if j < |text| {
        assert text[j] != c;
      }
    }
  }

  /** An event none of whose letters starts an alternative is kept. */
  lemma NorwayKept()
    ensures !IsExcluded("Norway")
  {
    var l := ToLower("Norway");
    assert l == "norway";
    forall p: seq<PatternChar> | p in EventsOut ensures !SearchFrom(l, p, 0) {
      assert p[0].Exactly? && p[0].c in "bs9lecft";
      NotFoundWithoutFirstChar(l, p, p[0].c);
    }
  }
}
