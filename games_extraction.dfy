/**
 * The extraction entrypoint: fetch one game (`get_game_data`), gather a
 * batch of fetches, walk the gid batches and flatten the responses, and
 * the `main` flow that filters the listing before fetching.
 *
 * The scraper is not part of this model: what it yields for a gid is an
 * input `site(gid)`, each of its awaited fetches a `Result` that may fail.
 */
module GamesExtraction {
  import opened Common
  import opened Records
  import opened Batching
  import opened EventFilter

  datatype FetchError = FetchError(message: string)

  /** What the scraper for one gid yields: the game's result, its type, its
      movetext, and the positions after each move. */
  datatype Scraper = Scraper(
    result: Result<string, FetchError>,
    gameType: Option<string>,
    pgn: Result<string, FetchError>,
    fens: Result<seq<seq<string>>, FetchError>)

  /** One fetch: a failing result fetch propagates; a failing movetext or
      position fetch gives a bare `None`, which carries no gid. */
  function GetGameData(gid: string, scraper: Scraper): (r: Result<Option<GameEntry>, FetchError>)
    ensures r.Failure? <==> scraper.result.Failure?
    ensures r.Failure? ==> r.error == scraper.result.error
    ensures r == Success(None) <==> scraper.result.Success? && (scraper.pgn.Failure? || scraper.fens.Failure?)
    ensures r.Success? && r.value.Some? ==>
      r.value.value.gid == gid &&
      r.value.value.data == GameRecord(scraper.pgn.value, scraper.gameType, scraper.fens.value, scraper.result.value)
  {
    if scraper.result.Failure? then Failure(scraper.result.error)
    else if scraper.pgn.Failure? || scraper.fens.Failure? then Success(None)
    else Success(Some(GameEntry(gid, GameRecord(scraper.pgn.value, scraper.gameType, scraper.fens.value, scraper.result.value))))
  }

  /** `asyncio.gather`: every value in argument order, or a failure of one of the tasks. */
  function Gather<T>(tasks: seq<Result<T, FetchError>>): (r: Result<seq<T>, FetchError>)
    ensures r.Success? <==> forall k :: 0 <= k < |tasks| ==> tasks[k].Success?
    ensures r.Success? ==> |r.value| == |tasks| && forall k :: 0 <= k < |tasks| ==> r.value[k] == tasks[k].value
    ensures r.Failure? ==> exists k :: 0 <= k < |tasks| && tasks[k] == Failure(r.error)
  {
    if |tasks| == 0 then Success([])
    else if tasks[0].Failure? then Failure(tasks[0].error)
    else match Gather(tasks[1..])
      case Failure(e) => Failure(e)
      case Success(rest) => Success([tasks[0].value] + rest)
  }

  /** Gathering a concatenation: the first list's failure wins, then the second's;
      otherwise the values are concatenated. */
  lemma {:induction false} GatherConcat<T>(a: seq<Result<T, FetchError>>, b: seq<Result<T, FetchError>>)
    ensures Gather(a).Failure? ==> Gather(a + b) == Gather(a)
    ensures Gather(a).Success? && Gather(b).Failure? ==> Gather(a + b) == Gather(b)
    ensures Gather(a).Success? && Gather(b).Success? ==> Gather(a + b) == Success(Gather(a).value + Gather(b).value)
    decreases |a|
  {
    if |a| == 0 {
      assert a + b == b;
      assert Gather(a) == Success([]);
      if Gather(b).Success? {
        assert [] + Gather(b).value == Gather(b).value;
      }
    } else {
      assert (a + b)[0] == a[0];
      assert (a + b)[1..] == a[1..] + b;
      GatherConcat(a[1..], b);
      if a[0].Success? && Gather(a[1..]).Success? && Gather(b).Success? {
        assert [a[0].value] + Gather(a[1..]).value + Gather(b).value == [a[0].value] + (Gather(a[1..]).value + Gather(b).value);
      }
    }
  }

  /** The fetch of each gid, in order. */
  function Responses(gids: seq<string>, site: string -> Scraper): (tasks: seq<Result<Option<GameEntry>, FetchError>>)
    ensures |tasks| == |gids|
    ensures forall k :: 0 <= k < |gids| ==> tasks[k] == GetGameData(gids[k], site(gids[k]))
  {
    seq(|gids|, k requires 0 <= k < |gids| => GetGameData(gids[k], site(gids[k])))
  }

  lemma ResponsesConcat(a: seq<string>, b: seq<string>, site: string -> Scraper)
    ensures Responses(a + b, site) == Responses(a, site) + Responses(b, site)
  {
    assert forall k :: 0 <= k < |a| ==> (a + b)[k] == a[k];
    assert forall k :: 0 <= k < |b| ==> (a + b)[|a| + k] == b[k];
  }

  /** Fetching a concatenation of gid lists, in the terms of `GatherConcat`. */
  lemma GatherResponsesConcat(a: seq<string>, b: seq<string>, site: string -> Scraper)
    ensures Gather(Responses(a, site)).Failure? ==> Gather(Responses(a + b, site)) == Gather(Responses(a, site))
    ensures Gather(Responses(a, site)).Success? && Gather(Responses(b, site)).Failure? ==>
      Gather(Responses(a + b, site)) == Gather(Responses(b, site))
    ensures Gather(Responses(a, site)).Success? && Gather(Responses(b, site)).Success? ==>
      Gather(Responses(a + b, site)) == Success(Gather(Responses(a, site)).value + Gather(Responses(b, site)).value)
  {
    ResponsesConcat(a, b, site);
    GatherConcat(Responses(a, site), Responses(b, site));
  }

  /** One step of the batch walk: after the batches before `i` succeeded with
      `prior`, a successful batch `i` extends `prior`. */
  lemma BatchStepSuccess(gidBatches: seq<seq<string>>, i: nat, site: string -> Scraper,
                         prior: seq<Option<GameEntry>>, batch: seq<Option<GameEntry>>)
    requires i < |gidBatches|
    requires Gather(Responses(Flatten(gidBatches[..i]), site)) == Success(prior)
    requires Gather(Responses(gidBatches[i], site)) == Success(batch)
    ensures Gather(Responses(Flatten(gidBatches[..i + 1]), site)) == Success(prior + batch)
  {
    FlattenSnoc(gidBatches, i);
    GatherResponsesConcat(Flatten(gidBatches[..i]), gidBatches[i], site);
  }

  /** A failure after successful fetches is the failure of everything that follows too. */
  lemma FailureWins(done: seq<string>, batch: seq<string>, rest: seq<string>, site: string -> Scraper, e: FetchError)
    requires Gather(Responses(done, site)).Success?
    requires Gather(Responses(batch, site)) == Failure(e)
    ensures Gather(Responses(done + batch + rest, site)) == Failure(e)
  {
    GatherResponsesConcat(done, batch, site);
    GatherResponsesConcat(done + batch, rest, site);
  }

  /** ... and a failing batch `i` is the failure of the whole walk. */
  lemma BatchStepFailure(gidBatches: seq<seq<string>>, i: nat, site: string -> Scraper,
                         prior: seq<Option<GameEntry>>, e: FetchError)
    requires i < |gidBatches|
    requires Gather(Responses(Flatten(gidBatches[..i]), site)) == Success(prior)
    requires Gather(Responses(gidBatches[i], site)) == Failure(e)
    ensures Gather(Responses(Flatten(gidBatches), site)) == Failure(e)
  {
    FlattenAround(gidBatches, i);
    FailureWins(Flatten(gidBatches[..i]), gidBatches[i], Flatten(gidBatches[i + 1..]), site, e);
  }

  /** Lines 65-91: fetch the gids batch by batch, gather each batch, keep the
      batch responses as a list of lists and flatten it at the end.  A
      failure that escapes a fetch ends the walk. */
  method FetchInBatches(gids: seq<string>, site: string -> Scraper)
    returns (r: Result<seq<Option<GameEntry>>, FetchError>)
    ensures r == Gather(Responses(gids, site))
  {
    var gidBatches := Batches(gids, BatchSize);
    BatchesRoundTrip(gids, BatchSize);
    var gameDataResponses: seq<seq<Option<GameEntry>>> := [];
    for batchIdx := 0 to |gidBatches|
      invariant Gather(Responses(Flatten(gidBatches[..batchIdx]), site)) == Success(Flatten(gameDataResponses))
    {
      var gidBatch := gidBatches[batchIdx];
      var gameDataTasks := [];
      for j := 0 to |gidBatch|
        invariant gameDataTasks == Responses(gidBatch[..j], site)
      {
        var gid := gidBatch[j];
        gameDataTasks := gameDataTasks + [GetGameData(gid, site(gid))];
      }
      assert gidBatch[..|gidBatch|] == gidBatch;
      var batchData := Gather(gameDataTasks);
      if batchData.Failure? {
        BatchStepFailure(gidBatches, batchIdx, site, Flatten(gameDataResponses), batchData.error);
        return Failure(batchData.error);
      }
      BatchStepSuccess(gidBatches, batchIdx, site, Flatten(gameDataResponses), batchData.value);
      var extended := gameDataResponses + [batchData.value];
      FlattenSnoc(extended, |gameDataResponses|);
      assert extended[..|gameDataResponses|] == gameDataResponses;
      assert extended[..|gameDataResponses| + 1] == extended;
      gameDataResponses := extended;
    }
    assert gidBatches[..|gidBatches|] == gidBatches;
    return Success(Flatten(gameDataResponses));
  }

  /** The walk ends with one response per gid, in input order, each from its
      own gid's fetch; it fails exactly when a result fetch fails, with that
      fetch's error. */
  lemma FetchedResponses(gids: seq<string>, site: string -> Scraper)
    ensures Gather(Responses(gids, site)).Success? <==> forall k :: 0 <= k < |gids| ==> site(gids[k]).result.Success?
    ensures Gather(Responses(gids, site)).Failure? ==>
      exists k :: 0 <= k < |gids| && site(gids[k]).result == Failure(Gather(Responses(gids, site)).error)
    ensures Gather(Responses(gids, site)).Success? ==>
      var games := Gather(Responses(gids, site)).value;
      |games| == |gids| &&
      forall k :: 0 <= k < |gids| ==>
        (games[k].Some? ==> games[k].value.gid == gids[k]) &&
        (games[k].None? <==> site(gids[k]).pgn.Failure? || site(gids[k]).fens.Failure?)
  {
    var tasks := Responses(gids, site);
    if Gather(tasks).Failure? {
      var k :| 0 <= k < |tasks| && tasks[k] == Failure(Gather(tasks).error);
      assert site(gids[k]).result == Failure(Gather(tasks).error);
    }
  }

  /** What the entrypoint produces: the filtered listing and the game responses. */
  datatype Extraction = Extraction(players: seq<ListingRow>, games: seq<Option<GameEntry>>)

  /** Lines 45-96 without the files: filter the listing's events, then fetch
      the surviving gids batch by batch. */
  method ExtractGames(listing: seq<ListingRow>, site: string -> Scraper)
    returns (r: Result<Extraction, FetchError>)
    ensures r.Success? ==> r.value.players == KeepEvents(listing)
    ensures r.Success? <==> Gather(Responses(Gids(KeepEvents(listing)), site)).Success?
    ensures r.Success? ==> Success(r.value.games) == Gather(Responses(Gids(KeepEvents(listing)), site))
    ensures r.Failure? ==> Failure(r.error) == Gather(Responses(Gids(KeepEvents(listing)), site))
  {
    var playerGames := KeepEvents(listing);
    var gids := Gids(playerGames);
    var responses := FetchInBatches(gids, site);
    if responses.Failure? {
      return Failure(responses.error);
    }
    return Success(Extraction(playerGames, responses.value));
  }
}
