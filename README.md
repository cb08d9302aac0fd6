# chess-llm data preparation, modelled in Dafny

The chess-llm repository builds training data for a language model that plays
chess. Its extraction entrypoint does three things:

- it takes a player's game listing and drops every row whose lower-cased event
  contains one of eleven alternatives (`blitz`, `bullet`, `simultaneous`,
  `simul`, `960`, `lichess`, `exhibition`, `speed`, `chess.com`, `fischer`,
  `titled`);
- it fetches every remaining game in batches of 100 gids;
- it stores a list of `(gid, {pgn, game_type, fens, result})` responses.

The processing step then works on those responses:

- `merge_data` joins the listing with the responses on `gid` and cleans the
  movetext. Newlines become spaces and score tokens are deleted.
- `get_positions_with_white` turns one game's movetext into a table of
  `[white move, black move]` rows, draws five row indices, and pairs each
  index with the context shown before white's move.

The model follows the source module by module:

| file | module | what it holds |
|---|---|---|
| `common.dfy` | `Common`, `Records` | `Option`/`Result`, `Flatten`; the listing row, game record and response types |
| `move_notation.dfy` | `MoveNotation` | `re.split(" ?[0-9]+\. ")` as a leftmost scan, `str.split(" ")`, padding of a lone move, and the numpy stacking of the move rows |
| `pgn_cleanup.dfy` | `PgnCleanup` | the newline replacement and the single-pass deletion of `( 1-0)\|( 0-1)\|( 1/2-1/2)` |
| `merge_data.dfy` | `GameMerge` | the inner join on `gid`, in listing order |
| `white_sampling.dfy` | `WhiteSampling` | the sampling loop, given the drawn indices |
| `batching.dfy` | `Batching` | the gid batches `gids[i : i + 100]` |
| `event_filter.dfy` | `EventFilter` | lower-casing, and the search for the excluded-event pattern |
| `games_extraction.dfy` | `GamesExtraction` | `get_game_data`, `asyncio.gather`, the batch loop with its flattening, and the entrypoint flow |
| `pipeline.dfy` | `Pipeline` | what the merge keeps of the extracted responses |

The scraper, the network, the random generator and the parquet files are not
part of this model. What the scraper yields for a gid is the input
`site(gid)`, and each awaited fetch is a `Result` that may fail. The indices
drawn by `np.random.randint` are also an input.

Some code paths fail in Python:

- rows of unequal width make the call fail (`InhomogeneousRows`). From numpy
  1.24, `np.array` refuses to stack them. Older numpy builds an object array,
  and the indexing at `src/extraction/processing.py:82` or `:85` fails instead;
- `randint(0, 0, 5)` refuses an empty range (`EmptyRange`).

Both are modelled as `Failure` values.

Where the code and its surrounding description differ, the model follows the code:

- The drawn indices are used as drawn: in draw order, with duplicates, unsorted.
- `get_game_data` gives up with a bare `None` when the movetext or position
  fetch fails. The model lets that response carry no gid. Under that
  assumption, the inner join drops the listing row, and the merge is
  one-to-one only when every fetch succeeded (`Pipeline.FetchThenMergeOneToOne`,
  `Pipeline.FailedFetchDropsRow`). The game-data table built from the responses
  is outside the model; see "Left out".
- The marker pattern needs a space after the period. Movetext such as `1.e4`
  therefore has no marker and gives no rows
  (`MoveNotation.NoSpaceAfterPeriodExample`), and the draw then fails.
  The repository's test data for a newer parser (`src/tests/testing.py:13-19`)
  expects such text to parse. That parser is not part of this model.
- Two spaces in a row give an empty token, because `str.split(" ")` splits on
  every single space (`MoveNotation.SplitOnSpace`). The empty token widens its
  row: `1. e4  e5` stacks into the one-row table `[["e4", "", "e5"]]`
  (`MoveNotation.DoubleSpaceWidensRow`). Stacking fails only when rows end up
  with different widths (`MoveNotation.MoveTable`).

## Model

| member | source | states |
|---|---|---|
| MoveNotation.MarkerEnd | src/extraction/processing.py:58 | a match of the marker pattern that starts at `i` ends after `i` and within the text |
| MoveNotation.MarkerEndExact | src/extraction/processing.py:58 | the scanner finds a marker from `i` to `j` exactly when that text is a whole match of ` ?[0-9]+\. ` |
| MoveNotation.Scan | src/extraction/processing.py:58 | the leftmost-match scan behind `re.split` always gives one more piece than separators; `MoveNotation.ScanSound` proves the split it gives sound |
| MoveNotation.SplitOnMarkers | src/extraction/processing.py:58 | a split always has one more piece than separators |
| MoveNotation.ScanSound | src/extraction/processing.py:58 | a scan that has found no match so far ends in a sound split of the whole text |
| MoveNotation.SplitRoundTrip | src/extraction/processing.py:58 | interleaving the pieces with the matched separators gives the text back; every separator is a marker; no piece contains a marker |
| MoveNotation.SplitOfInterleave | src/extraction/processing.py:58 | the inverse: splitting marker-free pieces joined by markers, where no marker straddles a boundary, returns those pieces and markers |
| MoveNotation.TwoRoundSplit | src/extraction/processing.py:58 | `1. e4 e5 2. d4` splits into `"", "e4 e5", "d4"` with separators `1. ` and ` 2. ` |
| MoveNotation.SplitOnSpace | src/extraction/processing.py:63 | `str.split(" ")` gives at least one token, and no token holds a space |
| MoveNotation.SplitOnSpaceRoundTrip | src/extraction/processing.py:63 | joining the tokens with single spaces gives the text back |
| MoveNotation.JoinOnSpaceRoundTrip | src/extraction/processing.py:63 | splitting space-free tokens joined by spaces gives the tokens back |
| MoveNotation.FirstSpace | src/extraction/processing.py:63 | the index of the first space, or the length of the text when it has none |
| MoveNotation.PadMove | src/extraction/processing.py:64-72 | padding keeps the tokens as a prefix and adds at most one cell, `""`, exactly when the round is a single move that is not a token; `MoveNotation.RowIsMovePair` gives the resulting pair |
| MoveNotation.RowIsMovePair | src/extraction/processing.py:63-72 | a round with at most one space becomes `[white move, black move]`, with `""` padding when black has not moved |
| MoveNotation.MoveRows | src/extraction/processing.py:58-73 | one row per marker, since the leading text and both tokens are sliced off; every row has a cell |
| MoveNotation.RowOfRound | src/extraction/processing.py:58-73 | row `k` is the split and padded piece after the `k`-th marker |
| MoveNotation.MoveRowsArePairs | src/extraction/processing.py:63-73 | when every round holds one or two moves, every row is exactly the pair of white's and black's move, so the table is rectangular |
| MoveNotation.NoMarkerNoRows | src/extraction/processing.py:58-73 | text without a marker yields no rows |
| MoveNotation.MoveTable | src/extraction/processing.py:73 | stacking succeeds exactly when all rows have the same width, and then yields the rows unchanged |
| MoveNotation.TwoRoundRows | src/extraction/processing.py:63-73 | a split into `"", "e4 e5", "d4"` gives the rows `[["e4","e5"],["d4",""]]` |
| MoveNotation.PlainRoundsStack | src/extraction/processing.py:63-73 | when every round holds one or two moves, stacking succeeds with the rows themselves, each of width two |
| MoveNotation.DoubleSpaceSplit | src/extraction/processing.py:58 | `1. e4  e5` splits into `"", "e4  e5"` with the separator `1. ` |
| MoveNotation.DoubleSpaceRow | src/extraction/processing.py:63-72 | `e4  e5` splits into three tokens `e4`, `""`, `e5`, and padding leaves them as they are |
| MoveNotation.DoubleSpaceRows | src/extraction/processing.py:58-73 | a split into `"", "e4  e5"` gives the single row `["e4", "", "e5"]` |
| MoveNotation.DoubleSpaceWidensRow | src/extraction/processing.py:58-73 | `1. e4  e5` gives the row `["e4", "", "e5"]`, and the one-row table stacks at width three |
| MoveNotation.TwoRoundExample | src/extraction/processing.py:58-73 | the two-move test game gives `[["e4","e5"],["d4",""]]` |
| MoveNotation.NoSpaceAfterPeriodExample | src/extraction/processing.py:58 | `1.e4` has no marker and gives no rows |
| PgnCleanup.ScoreAt | src/extraction/processing.py:36-38 | a match at the start consumes between 1 and all of the remaining characters |
| PgnCleanup.ScoreAtMeaning | src/extraction/processing.py:36-38 | a match is found at the start exactly when the text starts with one of the three score tokens, and the matched text is a score token |
| PgnCleanup.CleanPgn | src/extraction/processing.py:33-38 | the cleaned movetext is on one line and no longer than the input; `PgnCleanup.RemoveScoresOfInterleave` and `PgnCleanup.ReplaceNewlines` say what is kept |
| PgnCleanup.ReplaceNewlines | src/extraction/processing.py:33 | same length; no newline is left; every newline is now a space; every other character is unchanged |
| PgnCleanup.RemoveScores | src/extraction/processing.py:36-38 | deleting matches never lengthens the text |
| PgnCleanup.RemoveScoresOfScoreFree | src/extraction/processing.py:36-38 | text without a score token is unchanged |
| PgnCleanup.RemoveScoresAtToken | src/extraction/processing.py:36-38 | a score token at the start is deleted and the rest is cleaned as usual |
| PgnCleanup.RemoveScoresSplice | src/extraction/processing.py:36-38 | score-free text before a score token is kept as it is, and the token is deleted |
| PgnCleanup.RemoveScoresOfInterleave | src/extraction/processing.py:36-38 | for score-free gaps joined by score tokens, the result is exactly the gaps concatenated in order |
| PgnCleanup.RemoveScoresIsSinglePass | src/extraction/processing.py:36-38 | the deletion is a single left-to-right pass: a score formed by a deletion stays (`" 1 1-0-0"` becomes `" 1-0"`) |
| PgnCleanup.NoDashIsScoreFree | src/extraction/processing.py:36-38 | text without a dash holds no score token |
| PgnCleanup.ScoreOnNextLine | src/extraction/processing.py:33-38 | a score on its own line after score-free moves is removed entirely, because the newline becomes the token's leading space |
| PgnCleanup.ReplaceNewlinesOfOneLine | src/extraction/processing.py:33 | text without a newline is unchanged |
| PgnCleanup.ScoreOnSameLine | src/extraction/processing.py:33-38 | a score token at the end of one line of score-free moves is removed, and the moves are kept |
| PgnCleanup.TestGameClean | src/extraction/processing.py:33-38 | the repository's test game `1. e4 e5 2. d4 1-0` cleans to `1. e4 e5 2. d4` |
| PgnCleanup.RemoveScoresChars | src/extraction/processing.py:36-38 | score removal never introduces a character |
| PgnCleanup.NewlineBeforeScoreExample | src/extraction/processing.py:33-38 | `"1. e4 e5 2. d4\n1-0"` cleans to `"1. e4 e5 2. d4"` |
| GameMerge.Combine | src/extraction/processing.py:28-30 | the merged row keeps the listing row, takes fens and game type from the game, takes the cleaned pgn, and drops the game's own result |
| GameMerge.MatchesOf | src/extraction/processing.py:27 | one listing row gives at most one merged row per response, and each of them carries that listing row |
| GameMerge.MergeData | src/extraction/processing.py:23-38 | every merged row carries a listing row of the input |
| GameMerge.MatchesOfSound | src/extraction/processing.py:27 | every merged row of one listing row comes from a response with its gid |
| GameMerge.MatchesOfComplete | src/extraction/processing.py:27 | every response with the row's gid gives a merged row |
| GameMerge.MatchesOfCount | src/extraction/processing.py:27 | a listing row gives as many merged rows as there are responses with its gid |
| GameMerge.MergeSound | src/extraction/processing.py:27-30 | every merged row is the combination of some listing row and some response with the same gid |
| GameMerge.MergeComplete | src/extraction/processing.py:27-30 | every listing row and response with the same gid give a merged row: the join is inner and complete |
| GameMerge.MergeDropsUnmatched | src/extraction/processing.py:27 | a gid that no response carries has no merged row |
| GameMerge.MergeOneToOne | src/extraction/processing.py:27-30 | when each listing gid matches exactly one response, the merge has one row per listing row, in listing order, each combined with its own response |
| GameMerge.MergedPgnHasNoNewline | src/extraction/processing.py:33-38 | every merged pgn is on one line |
| WhiteSampling.WrittenSample | src/extraction/processing.py:81-87 | the label is white's move in the drawn row; index 0 gives the start token; index `i > 0` gives a history of `i - 1` rows, a proper prefix of the rows before `i` |
| WhiteSampling.IntendedSample | src/extraction/processing.py:84-86 | the corrected sample: the history of index `i > 0` holds every row before `i` |
| WhiteSampling.IntendedContextIsHistory | src/extraction/processing.py:84-86 | the corrected context shows exactly the moves played before white's move in the drawn row |
| WhiteSampling.WrittenContextMissesPreviousRound | src/extraction/processing.py:85 | as written, the history lacks exactly the round just before the drawn row, so it differs from the corrected sample for every index above 0 |
| WhiteSampling.WrittenSampleExample | src/extraction/processing.py:85 | for the two-move game and index 1, the history as written is empty, while the corrected history is `[["e4","e5"]]` |
| WhiteSampling.TestGameSamples | src/extraction/processing.py:33-87 | the test game `1. e4 e5 2. d4 1-0`, once cleaned, gives the table `[["e4","e5"],["d4",""]]`; for draw 1 the history as written is empty, while the corrected history is the first round |
| WhiteSampling.SampleWhitePositions | src/extraction/processing.py:79-88 | one sample per drawn index, in draw order with duplicates kept, each as the code writes it, and each history lacking exactly the previous round of the corrected one |
| WhiteSampling.GetPositionsWithWhite | src/extraction/processing.py:55-89 | a ragged table fails with `InhomogeneousRows`; an empty table fails with `EmptyRange`; otherwise there are five samples, one for each draw |
| WhiteSampling.SampledMoveIsWhites | src/extraction/processing.py:86 | when every round holds one or two moves, the label is white's move of the round after the drawn marker |
| WhiteSampling.NoMarkerNoTable | src/extraction/processing.py:73-77 | a game without a marker gives an empty table, so the draw's range is empty |
| Batching.Batches | src/entrypoints/games_extraction.py:68 | no batch is empty or longer than the batch size, and there are batches exactly when there are gids; `Batching.BatchesShape` and `Batching.BatchesRoundTrip` give the slices and the round trip |
| Batching.BatchesFrom | src/entrypoints/games_extraction.py:68 | every batch holds between 1 and `batch_size` gids |
| Batching.BatchesFromFlatten | src/entrypoints/games_extraction.py:68 | the batches from `start` on, concatenated, give the list from `start` on |
| Batching.BatchesRoundTrip | src/entrypoints/games_extraction.py:68 | concatenating the batches gives the gid list back: nothing is lost, duplicated or reordered |
| Batching.BatchesFromAt | src/entrypoints/games_extraction.py:68 | batch `k` is the slice at `start + k * size`, clamped at the end |
| Batching.BatchesFromFull | src/entrypoints/games_extraction.py:68 | every batch except the last is full |
| Batching.BatchesShape | src/entrypoints/games_extraction.py:68 | batch `k` is `xs[k*size : min(k*size + size, n)]`; all batches but the last are full; the last holds 1 to `size` gids; there are none only for an empty list |
| Batching.BatchesFromCount | src/entrypoints/games_extraction.py:66-68 | there are ceil((n - start) / 100) batches from `start` |
| Batching.BatchCount | src/entrypoints/games_extraction.py:66-68 | there are ceil(n / 100) batches |
| Common.Flatten | src/entrypoints/games_extraction.py:89-91 | the flattened list is as long as all the lists together; `Common.FlattenConcat` relates it to concatenation |
| Common.FlattenConcat | src/entrypoints/games_extraction.py:89-91 | flattening distributes over concatenation |
| Common.FlattenSnoc | src/entrypoints/games_extraction.py:89-91 | flattening a prefix that is one list longer appends that list |
| Common.FlattenAround | src/entrypoints/games_extraction.py:89-91 | the lists before `i`, list `i` and the lists after `i` flatten to the whole |
| Records.Gids | src/entrypoints/games_extraction.py:67 | one gid per listing row, in order |
| EventFilter.LowerChar | src/entrypoints/games_extraction.py:55 | an upper-case ASCII letter becomes its lower-case letter; every other character stays |
| EventFilter.ToLower | src/entrypoints/games_extraction.py:55 | lower-cases character by character and keeps the length |
| EventFilter.Literal | src/entrypoints/games_extraction.py:53 | a literal alternative matches its text character for character |
| EventFilter.SearchFrom | src/entrypoints/games_extraction.py:55 | the left-to-right search succeeds exactly when some position from `i` on matches |
| EventFilter.IsExcluded | src/entrypoints/games_extraction.py:55 | an event is excluded exactly when its lower-cased text contains a match of one of the alternatives |
| EventFilter.SearchIsContains | src/entrypoints/games_extraction.py:55 | the search from the start agrees with the declarative "the text contains a match" |
| EventFilter.KeepEvents | src/entrypoints/games_extraction.py:54-56 | the filter never adds rows |
| EventFilter.KeepEventsMembers | src/entrypoints/games_extraction.py:54-56 | a row survives exactly when it is an input row whose event no alternative matches |
| EventFilter.KeepEventsConcat | src/entrypoints/games_extraction.py:54-56 | the filter works row by row, so it keeps relative order |
| EventFilter.KeepEventsIdempotent | src/entrypoints/games_extraction.py:54-56 | filtering twice is filtering once |
| EventFilter.KeepEventsOfKept | src/entrypoints/games_extraction.py:54-56 | rows that no alternative matches all stay, unchanged and in order |
| EventFilter.BlitzExcluded | src/entrypoints/games_extraction.py:53-55 | `World Blitz` is excluded after lower-casing |
| EventFilter.ChessDashComExcluded | src/entrypoints/games_extraction.py:53 | the unescaped `.` in `chess.com` also matches `Chess-com` |
| EventFilter.NotFoundWithoutFirstChar | src/entrypoints/games_extraction.py:55 | an alternative whose first character the text lacks is never found |
| EventFilter.NorwayKept | src/entrypoints/games_extraction.py:53-55 | `Norway` is kept |
| GamesExtraction.GetGameData | src/entrypoints/games_extraction.py:13-42 | a failed result fetch propagates its error; a failed movetext or position fetch gives a bare `None`; otherwise the response is the gid with its pgn, game type, fens and result |
| GamesExtraction.Gather | src/entrypoints/games_extraction.py:81 | succeeds exactly when every task succeeds, with the values in argument order; otherwise fails with the error of some failed task |
| GamesExtraction.GatherConcat | src/entrypoints/games_extraction.py:81 | gathering a concatenation fails with the first part's failure, else the second part's; otherwise it concatenates the values |
| GamesExtraction.Responses | src/entrypoints/games_extraction.py:76-79 | one fetch per gid, in order |
| GamesExtraction.ResponsesConcat | src/entrypoints/games_extraction.py:76-79 | the fetches of a concatenation of gid lists are the concatenated fetches |
| GamesExtraction.GatherResponsesConcat | src/entrypoints/games_extraction.py:81 | the concatenation law of gathering, applied to gid lists |
| GamesExtraction.BatchStepSuccess | src/entrypoints/games_extraction.py:73-82 | a successful batch extends the responses of the batches before it |
| GamesExtraction.FailureWins | src/entrypoints/games_extraction.py:81 | a failure after successful fetches is the failure of everything that follows too |
| GamesExtraction.BatchStepFailure | src/entrypoints/games_extraction.py:73-82 | a failing batch, after successful ones, is the failure of the whole walk |
| GamesExtraction.FetchInBatches | src/entrypoints/games_extraction.py:65-91 | the batch walk with its flattening gives exactly what gathering all the fetches at once would give |
| GamesExtraction.FetchedResponses | src/entrypoints/games_extraction.py:25-42 | the walk fails exactly when some result fetch fails, with that error; otherwise there is one response per gid in order, carrying its own gid, and a response is `None` exactly when that gid's movetext or position fetch failed |
| GamesExtraction.ExtractGames | src/entrypoints/games_extraction.py:45-96 | the listing is filtered before fetching; the result holds the kept rows with the gathered responses of their gids, or the fetch error |
| Pipeline.JoinCountNone | src/extraction/processing.py:27 | a gid that no response carries is joined zero times |
| Pipeline.JoinCountOnce | src/extraction/processing.py:27 | when gids are distinct and every fetch is present, each gid is joined exactly once |
| Pipeline.FetchThenMergeOneToOne | src/extraction/processing.py:27-38 | when listing gids are distinct and every fetch succeeds, the merge keeps each listing row once, in order, with its own game's fens and cleaned pgn |
| Pipeline.FailedFetchDropsRow | src/entrypoints/games_extraction.py:28-32 | a listing row whose movetext or position fetch failed has no merged row |

## Left out

- The scraper classes (`PlayerGames`, `PageGames`, `GameScrapper`) are not part
  of this model. The listing (`src/entrypoints/games_extraction.py:47-50`) is an
  input, and so is what the scraper yields per gid.
- Parquet export and re-import and `drop(columns="links")`
  (`src/entrypoints/games_extraction.py:59-63, 93-94`) are not modelled. They
  are file I/O and table bookkeeping. The listing row type has no `links` field.
- `reset_index` (`src/entrypoints/games_extraction.py:56`) is not modelled:
  the kept rows are simply numbered from 0 by their position.
- The `(gid, data)` table built at `src/entrypoints/games_extraction.py:93` is
  not modelled. The model assumes the table keeps every response, and that a
  `None` response is a row carrying no gid, which joins with nothing. pandas
  may instead refuse to build the table when the first response is `None`. In
  that case no game data is written at all, and the model does not capture it.
- Each gid's fetch is modelled as a function `site(gid)` of the gid alone, so
  two fetches of the same gid always agree. `Pipeline.FailedFetchDropsRow`
  relies on this when a gid appears more than once in the listing.
- Progress printing and the 120-second sleep between batches
  (`src/entrypoints/games_extraction.py:74, 84-87`) are not modelled. They are
  output and timing only.
- The random generator (`np.random.seed`, `randint` at
  `src/extraction/processing.py:76-77`) is not modelled. The drawn indices are
  an input, and `ValidDraws` states what `randint` guarantees about them.
- WhiteSampling.GetPositionsWithWhite: it does not say which indices a given
  seed produces. The Mersenne Twister is not modelled.
- GamesExtraction.Gather: the order in which tasks run is not modelled. When
  several fetches of a batch fail, the model reports the first in argument
  order, while `asyncio.gather` reports the first exception raised. The
  contract says only that the error comes from some failed task.
- EventFilter.LowerChar and EventFilter.ToLower: they model `str.lower()` on
  ASCII letters only, not full Unicode case mapping. Python can change a text's
  length when lower-casing (`'İ'` becomes two code points); `ToLower` always
  keeps it.
- A missing (NaN) event is not modelled. The event is always a string.
- GameMerge.MergeData: when a listing gid is repeated, the model keeps strict
  listing order (`[a, b, a]` stays in that order). That is the order pandas
  documents for an inner merge from version 2.2. Earlier pandas grouped repeated
  left keys together (`[a, a, b]`).
- pandas column order and dtypes are not modelled. `MergedRow` keeps the
  listing row and the three added columns as fields.
- WhiteSampling.SampleWhitePositions and WhiteSampling.GetPositionsWithWhite
  model the slice as the code writes it, not the corrected one. Their contracts
  tie each sample to `WhiteSampling.IntendedSample` through the missing round.
- The `__main__` blocks of both files are not part of this model, nor are
  `src/main.py`, `src/extraction/games.py`, `src/entrypoints/games_processing.py`
  and the black-to-move sampling.

## Findings

| source | as written | input that shows it | evidently intended | confidence | as-written member | corrected member |
|---|---|---|---|---|---|---|
| src/extraction/processing.py:85 | the history of drawn index `sample > 0` is rows `0 : sample - 1`, which leaves out the round just before white's move | movetext `1. e4 e5 2. d4` with draw 1: the history is empty, while the repository's expected sample (`src/tests/testing.py:42`) shows `[["e4","e5"]]` | rows `0 : sample`, every round before white's move | not executed | WhiteSampling.WrittenContextMissesPreviousRound | WhiteSampling.IntendedContextIsHistory |
