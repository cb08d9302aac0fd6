/**
 * The sampling half of `get_positions_with_white`: the move table is
 * stacked into an array, `GAMES_SAMPLE` row indices are drawn, and each
 * index becomes a (context, label) pair whose label is white's move in
 * that row.
 *
 * The random generator is not modelled: the drawn indices are an input.
 */
module WhiteSampling {
  import opened Common
  import opened MoveNotation
  import opened PgnCleanup

  /** Number of indices drawn per game. */
  const GamesSample: nat := 5

  /** What a sample shows before white's move: the start-of-game token, or rows of the table. */
  datatype Context = Token(token: string) | History(rows: seq<seq<string>>)

  datatype PositionSample = PositionSample(context: Context, whiteMove: string)

  /** Every row has a first cell, white's move. */
  predicate HasWhiteCells(table: seq<seq<string>>)
  {
    forall k :: 0 <= k < |table| ==> 0 < |table[k]|
  }

  /** The moves a context shows, in the order they were played. */
  function Plies(context: Context): seq<string>
  {
    match context
    case Token(_) => []
    case History(rows) => Flatten(rows)
  }

  /** Lines 81-87 as written: index 0 gives the start token; index i > 0 gives
      the rows `0 : i - 1`, which leaves out the round just before row i. */
  function WrittenSample(table: seq<seq<string>>, i: nat): (s: PositionSample)
    requires i < |table| && HasWhiteCells(table)
    ensures s.whiteMove == table[i][0]
    ensures s.context.Token? <==> i == 0
    ensures s.context.Token? ==> s.context.token == BeginningOfGame
    ensures s.context.History? ==> |s.context.rows| + 1 == i && s.context.rows < table[..i]
  {
    if i == 0 then PositionSample(Token(BeginningOfGame), table[0][0])
    else PositionSample(History(table[..i - 1]), table[i][0])
  }

  /** What the sample is meant to be (the repository's test data for the
      two-move game): the context of row i is every round before it. */
  function IntendedSample(table: seq<seq<string>>, i: nat): (s: PositionSample)
    requires i < |table| && HasWhiteCells(table)
    ensures s.whiteMove == table[i][0]
    ensures s.context.Token? <==> i == 0
    ensures s.context.Token? ==> s.context.token == BeginningOfGame
    ensures s.context.History? ==> s.context.rows + [table[i]] == table[..i + 1]
  {
    if i == 0 then PositionSample(Token(BeginningOfGame), table[0][0])
    else PositionSample(History(table[..i]), table[i][0])
  }

  /** The intended context shows every move played before white's move in row i. */
  lemma IntendedContextIsHistory(table: seq<seq<string>>, i: nat)
    requires i < |table| && HasWhiteCells(table)
    ensures Plies(IntendedSample(table, i).context) == Flatten(table[..i])
  {
    if i == 0 {
      assert table[..0] == [];
    }
  }

  /** The slice as written drops exactly the round before row i: its moves are
      missing from the context, so the two samples differ for every i > 0. */
  lemma WrittenContextMissesPreviousRound(table: seq<seq<string>>, i: nat)
    requires 0 < i < |table| && HasWhiteCells(table)
    ensures WrittenSample(table, i).context.rows + [table[i - 1]] == IntendedSample(table, i).context.rows
    ensures Plies(WrittenSample(table, i).context) + table[i - 1] == Plies(IntendedSample(table, i).context)
    ensures |Plies(WrittenSample(table, i).context)| < |Plies(IntendedSample(table, i).context)|
    ensures WrittenSample(table, i) != IntendedSample(table, i)
  {
    assert table[..i] == table[..i - 1] + [table[i - 1]];
    FlattenSnoc(table, i - 1);
  }

  /** The two-move game: sampling row 1 as written gives an empty history,
      where the expected sample shows the first round. */
  lemma WrittenSampleExample()
    ensures WrittenSample([["e4", "e5"], ["d4", ""]], 1) == PositionSample(History([]), "d4")
    ensures IntendedSample([["e4", "e5"], ["d4", ""]], 1) == PositionSample(History([["e4", "e5"]]), "d4")
  {
    var table := [["e4", "e5"], ["d4", ""]];
    assert table[..0] == [];
    assert table[..1] == [["e4", "e5"]];
  }

  /** Lines 79-88: one sample per drawn index, in draw order, duplicates kept.
      Each sample is the one the code writes; a history sample lacks exactly
      the round before the drawn row compared with the intended one. */
  method SampleWhitePositions(table: seq<seq<string>>, draws: seq<nat>) returns (samples: seq<PositionSample>)
    requires HasWhiteCells(table)
    requires forall k :: 0 <= k < |draws| ==> draws[k] < |table|
    ensures |samples| == |draws|
    ensures forall k :: 0 <= k < |draws| ==> samples[k] == WrittenSample(table, draws[k])
    ensures forall k :: 0 <= k < |draws| && 0 < draws[k] ==>
      samples[k].context.History? &&
      samples[k].context.rows + [table[draws[k] - 1]] == IntendedSample(table, draws[k]).context.rows
  {
    samples := [];
    for j := 0 to |draws|
      invariant |samples| == j
      invariant forall k :: 0 <= k < j ==> samples[k] == WrittenSample(table, draws[k])
      invariant forall k :: 0 <= k < j && 0 < draws[k] ==>
        samples[k].context.History? &&
        samples[k].context.rows + [table[draws[k] - 1]] == IntendedSample(table, draws[k]).context.rows
    {
      var sample := draws[j];
      var positionSample;
      if sample == 0 {
        positionSample := PositionSample(Token(BeginningOfGame), table[0][0]);
      } else {
        positionSample := PositionSample(History(table[..sample - 1]), table[sample][0]);
        WrittenContextMissesPreviousRound(table, sample);
      }
      samples := samples + [positionSample];
    }
  }

  /** What the generator guarantees about its draws: `GAMES_SAMPLE` of them, each in `[0, rowCount)`. */
  predicate ValidDraws(draws: seq<nat>, rowCount: nat)
  {
    |draws| == GamesSample && forall k :: 0 <= k < |draws| ==> draws[k] < rowCount
  }

  /** Lines 55-89.  Rows of unequal width make the stacking fail; an empty
      table makes the draw fail; otherwise one sample per drawn index. */
  method GetPositionsWithWhite(pgn: string, draws: seq<nat>) returns (r: Result<seq<PositionSample>, TableError>)
    requires IsRectangular(MoveRows(pgn)) && 0 < |MoveRows(pgn)| ==> ValidDraws(draws, |MoveRows(pgn)|)
    ensures !IsRectangular(MoveRows(pgn)) <==> r == Failure(InhomogeneousRows)
    ensures IsRectangular(MoveRows(pgn)) && |MoveRows(pgn)| == 0 <==> r == Failure(EmptyRange)
    ensures r.Success? ==> |r.value| == GamesSample
    ensures r.Success? ==> forall k :: 0 <= k < GamesSample ==>
      r.value[k] == WrittenSample(MoveRows(pgn), draws[k])
  {
    var table := MoveTable(pgn);
    if table.Failure? {
      return Failure(table.error);
    }
    var rows := table.value;
    if |rows| == 0 {
      return Failure(EmptyRange);
    }
    var samples := SampleWhitePositions(rows, draws);
    return Success(samples);
  }

  /** When every round holds one or two moves, a sample's move is white's move
      of the round after the drawn marker. */
  lemma SampledMoveIsWhites(pgn: string, i: nat)
    requires PlainRounds(pgn) && i < |MoveRows(pgn)|
    ensures HasWhiteCells(MoveRows(pgn))
    ensures WrittenSample(MoveRows(pgn), i).whiteMove == WhiteMove(SplitOnMarkers(pgn).pieces[i + 1])
  {
    MoveRowsArePairs(pgn);
  }

  /** A game without a move-number marker yields no samples: the draw fails. */
  lemma NoMarkerNoTable(pgn: string)
    requires MarkerFree(pgn)
    ensures MoveTable(pgn) == Success([])
  {
    NoMarkerNoRows(pgn);
  }

  /** The repository's two-move test game end to end: once the merge has
      cleaned it, its table is `[["e4","e5"],["d4",""]]`, and draw 1 as
      written shows an empty history. */
  lemma TestGameSamples()
    ensures MoveRows(CleanPgn("1. e4 e5 2. d4" + " 1-0")) == [["e4", "e5"], ["d4", ""]]
    ensures WrittenSample(MoveRows(CleanPgn("1. e4 e5 2. d4" + " 1-0")), 1) == PositionSample(History([]), "d4")
    ensures IntendedSample(MoveRows(CleanPgn("1. e4 e5 2. d4" + " 1-0")), 1) == PositionSample(History([["e4", "e5"]]), "d4")
  {
    TestGameClean();
    TwoRoundExample();
    WrittenSampleExample();
  }
}
