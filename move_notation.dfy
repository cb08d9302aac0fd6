/**
 * The move table of `get_positions_with_white`: the movetext is split on
 * move-number markers (the regular expression ` ?[0-9]+\. `), the first piece
 * is replaced by the beginning-of-game token, the end-of-game token is
 * appended, every piece is split on single spaces, a lone non-token move is
 * padded with "", the two token pieces are dropped and the rows are stacked
 * into a numpy array.
 */
module MoveNotation {
  import opened Common

  const BeginningOfGame: string := "<BOG>"
  const EndOfGame: string := "<EOG>"

  predicate IsSentinel(t: string) { t == BeginningOfGame || t == EndOfGame }

  predicate IsDigit(c: char) { '0' <= c <= '9' }

  // ---------------------------------------------------------------------
  // The marker language ` ?[0-9]+\. ` and where a match starts

  /** `u` is, as a whole, a match of `[0-9]+\. `. */
  predicate IsNumberDot(u: string)
  {
    3 <= |u| && u[|u| - 2] == '.' && u[|u| - 1] == ' ' &&
    forall k :: 0 <= k < |u| - 2 ==> IsDigit(u[k])
  }

  /** `u` is, as a whole, a match of ` ?[0-9]+\. `. */
  predicate IsMarker(u: string)
  {
    IsNumberDot(u) || (1 <= |u| && u[0] == ' ' && IsNumberDot(u[1..]))
  }

  /** No substring of `t` is a move-number marker. */
  predicate MarkerFree(t: string)
  {
    forall a, b :: 0 <= a < b <= |t| ==> !IsMarker(t[a..b])
  }

  /** Length of the maximal run of ASCII digits starting at `i`. */
  function DigitRun(s: string, i: nat): (n: nat)
    requires i <= |s|
    ensures i + n <= |s|
    ensures forall k :: i <= k < i + n ==> IsDigit(s[k])
    ensures i + n == |s| || !IsDigit(s[i + n])
    decreases |s| - i
  {
    if i < |s| && IsDigit(s[i]) then 1 + DigitRun(s, i + 1) else 0
  }

  /** End of a match of `[0-9]+\. ` starting at `i`. Backtracking `[0-9]+`
      to a shorter run cannot help: the next character would be a digit. */
  function NumberDotEnd(s: string, i: nat): Option<nat>
    requires i <= |s|
  {
    var n := DigitRun(s, i);
    if 0 < n && i + n + 1 < |s| && s[i + n] == '.' && s[i + n + 1] == ' ' then Some(i + n + 2) else None
  }

  /** End of a match of ` ?[0-9]+\. ` starting at `i`. The optional space is
      tried first; giving it back cannot help, a space is not a digit. */
  function MarkerEnd(s: string, i: nat): (e: Option<nat>)
    requires i <= |s|
    ensures e.Some? ==> i < e.value <= |s|
  {
    if i < |s| && s[i] == ' ' then NumberDotEnd(s, i + 1) else NumberDotEnd(s, i)
  }

  lemma NumberDotEndExact(s: string, i: nat, j: nat)
    requires i <= j <= |s|
    ensures NumberDotEnd(s, i) == Some(j) <==> IsNumberDot(s[i..j])
  {
    var u := s[i..j];
    if IsNumberDot(u) {
      forall k | i <= k < j - 2 ensures IsDigit(s[k]) {
        assert s[k] == u[k - i];
      }
      assert s[j - 2] == '.' && s[j - 1] == ' ';
    }
  }

  /** The scanner recognises a marker at `i` exactly when the text from `i` to `j` is one. */
  lemma MarkerEndExact(s: string, i: nat, j: nat)
    requires i < j <= |s|
    ensures MarkerEnd(s, i) == Some(j) <==> IsMarker(s[i..j])
  {
    var u := s[i..j];
    if s[i] == ' ' {
      NumberDotEndExact(s, i + 1, j);
      assert u[1..] == s[i + 1..j];
      assert u[0] == ' ';
    } else {
      NumberDotEndExact(s, i, j);
    }
  }

  /** Two adjacent characters of a marker. */
  predicate CanContinue(a: char, b: char)
  {
    (a == ' ' && IsDigit(b)) || (IsDigit(a) && IsDigit(b)) || (IsDigit(a) && b == '.') || (a == '.' && b == ' ')
  }

  lemma MarkerAdjacent(u: string, o: nat)
    requires IsMarker(u) && o + 1 < |u|
    ensures CanContinue(u[o], u[o + 1])
  {
    if !IsNumberDot(u) {
      if o > 0 {
        assert u[1..][o - 1] == u[o] && u[1..][o] == u[o + 1];
        MarkerAdjacent(u[1..], o - 1);
      } else {
        assert IsDigit(u[1..][0]);
      }
    }
  }

  lemma NoDotIsMarkerFree(t: string)
    requires '.' !in t
    ensures MarkerFree(t)
  {
    forall a, b | 0 <= a < b <= |t| ensures !IsMarker(t[a..b]) {
      var u := t[a..b];
      if 3 <= |u| { assert u[|u| - 2] in t; }
      if 1 <= |u| && 3 <= |u[1..]| { assert u[1..][|u[1..]| - 2] in t; }
    }
  }

  lemma NoSpaceIsMarkerFree(t: string)
    requires ' ' !in t
    ensures MarkerFree(t)
  {
    forall a, b | 0 <= a < b <= |t| ensures !IsMarker(t[a..b]) {
      var u := t[a..b];
      if 3 <= |u| { assert u[|u| - 1] in t; }
    }
  }

  // ---------------------------------------------------------------------
  // re.split on the marker pattern

  /** The pieces between the matches, and the matches themselves. */
  datatype Split = Split(pieces: seq<string>, markers: seq<string>)

  /** Left-to-right scan of `re.split`: `s[..i]` is the piece read so far,
      and no match starts in it. */
  function Scan(s: string, i: nat): (r: Split)
    requires i <= |s|
    ensures |r.pieces| == |r.markers| + 1
    decreases |s|, |s| - i
  {
    if i == |s| then Split([s], [])
    else match MarkerEnd(s, i)
      case None => Scan(s, i + 1)
      case Some(e) =>
        var rest := Scan(s[e..], 0);
        Split([s[..i]] + rest.pieces, [s[i..e]] + rest.markers)
  }

  /** `re.split(" ?[0-9]+\. ", s)`, with the separators kept aside. */
  function SplitOnMarkers(s: string): (r: Split)
    ensures |r.pieces| == |r.markers| + 1
  {
    Scan(s, 0)
  }

  /** No match starts before `i`, so the text read so far holds no marker. */
  lemma PrefixMarkerFree(s: string, i: nat)
    requires i <= |s|
    requires forall j :: 0 <= j < i ==> MarkerEnd(s, j).None?
    ensures MarkerFree(s[..i])
  {
    forall a, b | 0 <= a < b <= i ensures !IsMarker(s[..i][a..b]) {
      assert s[..i][a..b] == s[a..b];
      if IsMarker(s[a..b]) { MarkerEndExact(s, a, b); }
    }
  }

  /** `r` is a faithful split of `s`: interleaving gives `s` back, every
      separator is a marker, and no piece holds a marker. */
  predicate SoundSplit(r: Split, s: string)
  {
    |r.pieces| == |r.markers| + 1 &&
    Interleave(r.pieces, r.markers) == s &&
    (forall k :: 0 <= k < |r.markers| ==> IsMarker(r.markers[k])) &&
    (forall k :: 0 <= k < |r.pieces| ==> MarkerFree(r.pieces[k]))
  }

  /** A marker-free piece and a marker in front of a sound split of the rest. */
  lemma SoundSplitCons(p: string, sep: string, r: Split, rest: string)
    requires MarkerFree(p) && IsMarker(sep) && SoundSplit(r, rest)
    ensures SoundSplit(Split([p] + r.pieces, [sep] + r.markers), p + sep + rest)
  {
    var c := Split([p] + r.pieces, [sep] + r.markers);
    assert c.pieces[1..] == r.pieces && c.markers[1..] == r.markers;
  }

  lemma {:induction false} ScanSound(s: string, i: nat)
    requires i <= |s|
    requires forall j :: 0 <= j < i ==> MarkerEnd(s, j).None?
    ensures SoundSplit(Scan(s, i), s)
    decreases |s|, |s| - i
  {
    if i == |s| {
      PrefixMarkerFree(s, i);
      assert s[..i] == s;
    } else {
      match MarkerEnd(s, i)
      case None =>
        ScanSound(s, i + 1);
      case Some(e) =>
        ScanSound(s[e..], 0);
        MarkerEndExact(s, i, e);
        PrefixMarkerFree(s, i);
        SoundSplitCons(s[..i], s[i..e], Scan(s[e..], 0), s[e..]);
        assert s == s[..i] + s[i..e] + s[e..];
    }
  }

  /** re.split gives back its input: the pieces interleaved with the matched
      markers are the text; every separator is a marker; no piece contains one. */
  lemma SplitRoundTrip(s: string)
    ensures Interleave(SplitOnMarkers(s).pieces, SplitOnMarkers(s).markers) == s
    ensures forall k :: 0 <= k < |SplitOnMarkers(s).markers| ==> IsMarker(SplitOnMarkers(s).markers[k])
    ensures forall k :: 0 <= k < |SplitOnMarkers(s).pieces| ==> MarkerFree(SplitOnMarkers(s).pieces[k])
  {
    ScanSound(s, 0);
  }

  /** A marker cannot start inside `piece` and run on into `sep`. */
  predicate Separable(piece: string, sep: string)
  {
    |piece| == 0 || |sep| == 0 || !CanContinue(piece[|piece| - 1], sep[0])
  }

  lemma ScanSkips(s: string, i: nat, n: nat)
    requires i <= n <= |s|
    requires forall j :: i <= j < n ==> MarkerEnd(s, j).None?
    ensures Scan(s, i) == Scan(s, n)
    decreases n - i
  {
    if i < n { ScanSkips(s, i + 1, n); }
  }

  lemma NoMarkerInFirstPiece(pieces: seq<string>, seps: seq<string>, j: nat)
    requires |pieces| == |seps| + 1
    requires MarkerFree(pieces[0])
    requires 0 < |seps| ==> IsMarker(seps[0]) && Separable(pieces[0], seps[0])
    requires j < |pieces[0]|
    ensures MarkerEnd(Interleave(pieces, seps), j).None?
  {
    var s := Interleave(pieces, seps);
    var p := pieces[0];
    if |seps| > 0 {
      assert s == p + seps[0] + Interleave(pieces[1..], seps[1..]);
    }
    assert s[..|p|] == p;
    forall e | j < e <= |s| ensures !IsMarker(s[j..e]) {
      var u := s[j..e];
      if e <= |p| {
        assert u == p[j..e];
      } else if |seps| > 0 {
        assert u[|p| - 1 - j] == p[|p| - 1] && u[|p| - j] == seps[0][0];
        if IsMarker(u) { MarkerAdjacent(u, |p| - 1 - j); }
      }
    }
    if MarkerEnd(s, j).Some? {
      MarkerEndExact(s, j, MarkerEnd(s, j).value);
    }
  }

  /** A scan that finds no match inside `p` and then the marker `sep` cuts there. */
  lemma ScanOverPiece(p: string, sep: string, tail: string)
    requires IsMarker(sep)
    requires forall j :: 0 <= j < |p| ==> MarkerEnd(p + sep + tail, j).None?
    ensures SplitOnMarkers(p + sep + tail) ==
      Split([p] + SplitOnMarkers(tail).pieces, [sep] + SplitOnMarkers(tail).markers)
  {
    var s := p + sep + tail;
    ScanSkips(s, 0, |p|);
    var e := |p| + |sep|;
    assert s[|p|..e] == sep;
    MarkerEndExact(s, |p|, e);
    assert s[e..] == tail;
    assert s[..|p|] == p;
  }

  /** The inverse direction: splitting text built from marker-free pieces and
      markers, where no marker can straddle a boundary, gives them back. */
  lemma {:induction false} SplitOfInterleave(pieces: seq<string>, seps: seq<string>)
    requires |pieces| == |seps| + 1
    requires forall k :: 0 <= k < |pieces| ==> MarkerFree(pieces[k])
    requires forall k :: 0 <= k < |seps| ==> IsMarker(seps[k]) && Separable(pieces[k], seps[k])
    ensures SplitOnMarkers(Interleave(pieces, seps)) == Split(pieces, seps)
    decreases |seps|
  {
    var s := Interleave(pieces, seps);
    var p := pieces[0];
    forall j | 0 <= j < |p| ensures MarkerEnd(s, j).None? {
      NoMarkerInFirstPiece(pieces, seps, j);
    }
    if |seps| == 0 {
      ScanSkips(s, 0, |p|);
    } else {
      var tail := Interleave(pieces[1..], seps[1..]);
      assert s == p + seps[0] + tail;
      ScanOverPiece(p, seps[0], tail);
      SplitOfInterleave(pieces[1..], seps[1..]);
      assert [p] + pieces[1..] == pieces;
      assert [seps[0]] + seps[1..] == seps;
    }
  }

  // ---------------------------------------------------------------------
  // str.split(" ") and the padding of a lone move

  /** Python's `str.split(" ")`: every single space separates, so two spaces
      in a row give an empty token. */
  function SplitOnSpace(s: string): (tokens: seq<string>)
    ensures 1 <= |tokens|
    ensures forall k :: 0 <= k < |tokens| ==> ' ' !in tokens[k]
  {
    if |s| == 0 then [""]
    else
      var rest := SplitOnSpace(s[1..]);
      if s[0] == ' ' then [""] + rest else [[s[0]] + rest[0]] + rest[1..]
  }

  /** `" ".join(tokens)`. */
  function JoinOnSpace(tokens: seq<string>): string
    requires 1 <= |tokens|
  {
    if |tokens| == 1 then tokens[0] else tokens[0] + " " + JoinOnSpace(tokens[1..])
  }

  lemma {:induction false} SplitOnSpaceRoundTrip(s: string)
    ensures JoinOnSpace(SplitOnSpace(s)) == s
  {
    if |s| > 0 {
      var rest := SplitOnSpace(s[1..]);
      SplitOnSpaceRoundTrip(s[1..]);
      if s[0] == ' ' {
        assert ([""] + rest)[1..] == rest;
      } else {
        var t := [[s[0]] + rest[0]] + rest[1..];
        if |rest| > 1 {
          assert t[1..] == rest[1..];
          assert JoinOnSpace(rest) == rest[0] + " " + JoinOnSpace(rest[1..]);
        }
        assert s == [s[0]] + s[1..];
      }
    }
  }

  lemma {:induction false} SplitSpaceFree(w: string)
    requires ' ' !in w
    ensures SplitOnSpace(w) == [w]
  {
    if |w| > 0 {
      assert forall c :: c in w[1..] ==> c in w;
      SplitSpaceFree(w[1..]);
      assert [w[0]] + w[1..] == w;
    }
  }

  lemma {:induction false} SplitSpaceFreeThenSpace(w: string, r: string)
    requires ' ' !in w
    ensures SplitOnSpace(w + " " + r) == [w] + SplitOnSpace(r)
  {
    if |w| == 0 {
      assert w + " " + r == [' '] + r;
      assert (w + " " + r)[1..] == r;
    } else {
      assert forall c :: c in w[1..] ==> c in w;
      SplitSpaceFreeThenSpace(w[1..], r);
      assert (w + " " + r)[1..] == w[1..] + " " + r;
      assert [w[0]] + w[1..] == w;
    }
  }

  /** The other direction of the round trip: space-free tokens joined by
      spaces split back into the same tokens. */
  lemma {:induction false} JoinOnSpaceRoundTrip(tokens: seq<string>)
    requires 1 <= |tokens|
    requires forall k :: 0 <= k < |tokens| ==> ' ' !in tokens[k]
    ensures SplitOnSpace(JoinOnSpace(tokens)) == tokens
  {
    if |tokens| == 1 {
      SplitSpaceFree(tokens[0]);
    } else {
      JoinOnSpaceRoundTrip(tokens[1..]);
      SplitSpaceFreeThenSpace(tokens[0], JoinOnSpace(tokens[1..]));
      assert [tokens[0]] + tokens[1..] == tokens;
    }
  }

  /** Index of the first space, or the length when there is none. */
  function FirstSpace(s: string): (k: nat)
    ensures k <= |s|
    ensures forall j :: 0 <= j < k ==> s[j] != ' '
    ensures k < |s| ==> s[k] == ' '
  {
    if |s| == 0 || s[0] == ' ' then 0 else 1 + FirstSpace(s[1..])
  }

  /** White's move in a round's text: everything before the first space. */
  function WhiteMove(round: string): string
  {
    round[..FirstSpace(round)]
  }

  /** Black's reply in a round's text: everything after the first space, or "" when there is none. */
  function BlackMove(round: string): string
  {
    if FirstSpace(round) < |round| then round[FirstSpace(round) + 1..] else ""
  }

  /** The round's text holds at most one space, so at most two moves. */
  predicate AtMostOneSpace(round: string)
  {
    forall k :: FirstSpace(round) < k < |round| ==> round[k] != ' '
  }

  /** A lone move that is not a token gets an empty second cell. */
  function PadMove(tokens: seq<string>): (row: seq<string>)
    ensures |row| == |tokens| || |row| == |tokens| + 1
    ensures row[..|tokens|] == tokens
    ensures |row| == |tokens| + 1 <==> |tokens| == 1 && !IsSentinel(tokens[0])
    ensures forall k :: |tokens| <= k < |row| ==> row[k] == ""
  {
    if |tokens| == 1 && !IsSentinel(tokens[0]) then tokens + [""] else tokens
  }

  /** Splitting and padding a round that holds one or two moves gives the
      pair (white's move, black's reply), with "" when black has not moved. */
  lemma RowIsMovePair(round: string)
    requires AtMostOneSpace(round) && !IsSentinel(round)
    ensures PadMove(SplitOnSpace(round)) == [WhiteMove(round), BlackMove(round)]
  {
    var k := FirstSpace(round);
    if k == |round| {
      assert ' ' !in round;
      SplitSpaceFree(round);
      assert round[..k] == round;
    } else {
      var w, b := round[..k], round[k + 1..];
      assert ' ' !in w;
      assert ' ' !in b by {
        forall j | 0 <= j < |b| ensures b[j] != ' ' { assert b[j] == round[k + 1 + j]; }
      }
      assert round == w + " " + b;
      SplitSpaceFreeThenSpace(w, b);
      SplitSpaceFree(b);
    }
  }

  // ---------------------------------------------------------------------
  // The move table

  /** Lines 58-73: the rows of the move table, before numpy stacks them. */
  function MoveRows(pgn: string): (rows: seq<seq<string>>)
    ensures |rows| == |SplitOnMarkers(pgn).markers|
    ensures forall k :: 0 <= k < |rows| ==> 1 <= |rows[k]|
  {
    var parsed := SplitOnMarkers(pgn).pieces;
    var bounded := [BeginningOfGame] + parsed[1..] + [EndOfGame];
    var padded := seq(|bounded|, k requires 0 <= k < |bounded| => PadMove(SplitOnSpace(bounded[k])));
    padded[1..|padded| - 1]
  }

  /** Row `k` comes from the piece after the `k`-th marker; the text before
      the first marker plays no part. */
  lemma RowOfRound(pgn: string, k: nat)
    requires k < |MoveRows(pgn)|
    ensures MoveRows(pgn)[k] == PadMove(SplitOnSpace(SplitOnMarkers(pgn).pieces[k + 1]))
  {
  }

  predicate IsRectangular(rows: seq<seq<string>>)
  {
    forall k :: 0 <= k < |rows| ==> |rows[k]| == |rows[0]|
  }

  /** Every round after the first marker holds one or two moves, none a token. */
  predicate PlainRounds(pgn: string)
  {
    var pieces := SplitOnMarkers(pgn).pieces;
    forall k :: 1 <= k < |pieces| ==> AtMostOneSpace(pieces[k]) && !IsSentinel(pieces[k])
  }

  /** When every round holds one or two moves, every row has exactly two cells:
      white's move and black's reply, "" exactly when black did not move. */
  lemma MoveRowsArePairs(pgn: string)
    requires PlainRounds(pgn)
    ensures forall k :: 0 <= k < |MoveRows(pgn)| ==>
      MoveRows(pgn)[k] == [WhiteMove(SplitOnMarkers(pgn).pieces[k + 1]), BlackMove(SplitOnMarkers(pgn).pieces[k + 1])]
    ensures IsRectangular(MoveRows(pgn))
    ensures forall k :: 0 <= k < |MoveRows(pgn)| ==> |MoveRows(pgn)[k]| == 2
  {
    var pieces := SplitOnMarkers(pgn).pieces;
    forall k | 0 <= k < |MoveRows(pgn)|
      ensures MoveRows(pgn)[k] == [WhiteMove(pieces[k + 1]), BlackMove(pieces[k + 1])]
    {
      RowOfRound(pgn, k);
      RowIsMovePair(pieces[k + 1]);
    }
  }

  /** Text without a move-number marker gives no rows. */
  lemma NoMarkerNoRows(pgn: string)
    requires MarkerFree(pgn)
    ensures MoveRows(pgn) == []
  {
    forall j | 0 <= j < |pgn| ensures MarkerEnd(pgn, j).None? {
      if MarkerEnd(pgn, j).Some? { MarkerEndExact(pgn, j, MarkerEnd(pgn, j).value); }
    }
    ScanSkips(pgn, 0, |pgn|);
  }

  /** Line 73: numpy stacks the rows; rows of unequal width make it raise. */
  datatype TableError = InhomogeneousRows | EmptyRange

  function MoveTable(pgn: string): (r: Result<seq<seq<string>>, TableError>)
    ensures r.Success? <==> IsRectangular(MoveRows(pgn))
    ensures r.Success? ==> r.value == MoveRows(pgn)
  {
    var rows := MoveRows(pgn);
    if IsRectangular(rows) then Success(rows) else Failure(InhomogeneousRows)
  }

  /** Plain rounds always stack: the table is the rows, each of width two. */
  lemma PlainRoundsStack(pgn: string)
    requires PlainRounds(pgn)
    ensures MoveTable(pgn) == Success(MoveRows(pgn))
    ensures forall k :: 0 <= k < |MoveRows(pgn)| ==> |MoveTable(pgn).value[k]| == 2
  {
    MoveRowsArePairs(pgn);
  }

  // ---------------------------------------------------------------------
  // Worked examples

  /** How re.split cuts the two-move game of the repository's test data. */
  lemma TwoRoundSplit()
    ensures SplitOnMarkers("1. e4 e5 2. d4") == Split(["", "e4 e5", "d4"], ["1. ", " 2. "])
  {
    var pieces := ["", "e4 e5", "d4"];
    var seps := ["1. ", " 2. "];
    assert Interleave(pieces, seps) == "1. e4 e5 2. d4";
    NoDotIsMarkerFree("");
    NoDotIsMarkerFree("e4 e5");
    NoDotIsMarkerFree("d4");
    assert IsMarker("1. ");
    assert IsNumberDot(" 2. "[1..]);
    SplitOfInterleave(pieces, seps);
  }

  lemma {:induction false} TwoRoundRows(g: string)
    requires SplitOnMarkers(g) == Split(["", "e4 e5", "d4"], ["1. ", " 2. "])
    ensures MoveRows(g) == [["e4", "e5"], ["d4", ""]]
  {
    var rows := MoveRows(g);
    assert |rows| == 2;
    RowOfRound(g, 0);
    RowOfRound(g, 1);
    TwoMovesRow();
    OneMoveRow();
    assert rows[0] == ["e4", "e5"] && rows[1] == ["d4", ""];
  }

  lemma TwoMovesRow()
    ensures PadMove(SplitOnSpace("e4 e5")) == ["e4", "e5"]
  {
    var r := "e4 e5";
    assert r[0] != ' ' && r[1] != ' ' && r[2] == ' ';
    assert FirstSpace(r) == 2;
    assert r[..2] == "e4" && r[3..] == "e5";
    RowIsMovePair(r);
  }

  lemma OneMoveRow()
    ensures PadMove(SplitOnSpace("d4")) == ["d4", ""]
  {
    var r := "d4";
    assert r[0] != ' ' && r[1] != ' ';
    assert FirstSpace(r) == 2;
    assert r[..2] == r;
    RowIsMovePair(r);
  }

  /** The two-move game of the repository's test data, after its score is removed. */
  lemma TwoRoundExample()
    ensures MoveRows("1. e4 e5 2. d4") == [["e4", "e5"], ["d4", ""]]
  {
    TwoRoundSplit();
    TwoRoundRows("1. e4 e5 2. d4");
  }

  /** No space after the period: nothing matches, so the table is empty. */
  lemma NoSpaceAfterPeriodExample()
    ensures MoveRows("1.e4") == []
  {
    NoSpaceIsMarkerFree("1.e4");
    NoMarkerNoRows("1.e4");
  }

  lemma DoubleSpaceSplit()
    ensures SplitOnMarkers("1. e4  e5") == Split(["", "e4  e5"], ["1. "])
  {
    var pieces := ["", "e4  e5"];
    var seps := ["1. "];
    assert Interleave(pieces, seps) == "1. e4  e5";
    NoDotIsMarkerFree("");
    NoDotIsMarkerFree("e4  e5");
    assert IsMarker("1. ");
    SplitOfInterleave(pieces, seps);
  }

  /** Two spaces in a row give an empty token between the moves. */
  lemma DoubleSpaceRow()
    ensures PadMove(SplitOnSpace("e4  e5")) == ["e4", "", "e5"]
  {
    assert "e4  e5" == "e4" + " " + " e5";
    SplitSpaceFreeThenSpace("e4", " e5");
    assert " e5" == "" + " " + "e5";
    SplitSpaceFreeThenSpace("", "e5");
    SplitSpaceFree("e5");
  }

  lemma {:induction false} DoubleSpaceRows(g: string)
    requires SplitOnMarkers(g) == Split(["", "e4  e5"], ["1. "])
    ensures MoveRows(g) == [["e4", "", "e5"]]
  {
    RowOfRound(g, 0);
    DoubleSpaceRow();
  }

  /** Two spaces in a round widen its row: a one-round game then stacks into
      a table of width three. */
  lemma DoubleSpaceWidensRow()
    ensures MoveRows("1. e4  e5") == [["e4", "", "e5"]]
    ensures MoveTable("1. e4  e5") == Success([["e4", "", "e5"]])
  {
    DoubleSpaceSplit();
    DoubleSpaceRows("1. e4  e5");
  }
}
