/**
 * The extraction output fed to `merge_data`: what the join keeps of the
 * fetched games, and what it loses when a fetch gave up.
 */
module Pipeline {
  import opened Common
  import opened Records
  import opened PgnCleanup
  import opened GameMerge
  import opened GamesExtraction

  /** Successful responses are keyed by their own gid, position by position. */
  predicate KeyedBy(games: seq<Option<GameEntry>>, gids: seq<string>)
  {
    |games| == |gids| && forall k :: 0 <= k < |gids| ==> games[k].Some? ==> games[k].value.gid == gids[k]
  }

  predicate Distinct(gids: seq<string>)
  {
    forall i, j :: 0 <= i < j < |gids| ==> gids[i] != gids[j]
  }

  lemma {:induction false} JoinCountNone(games: seq<Option<GameEntry>>, gid: string)
    requires forall k :: 0 <= k < |games| ==> !Joins(games[k], gid)
    ensures JoinCount(games, gid) == 0
    decreases |games|
  {
    if |games| > 0 {
      JoinCountNone(games[1..], gid);
    }
  }

  /** With distinct gids and every fetch present, each gid is carried by exactly one response. */
  lemma {:induction false} JoinCountOnce(games: seq<Option<GameEntry>>, gids: seq<string>, i: nat)
    requires KeyedBy(games, gids) && Distinct(gids) && i < |gids|
    requires forall k :: 0 <= k < |games| ==> games[k].Some?
    ensures JoinCount(games, gids[i]) == 1
    decreases |gids|
  {
    if i == 0 {
      JoinCountNone(games[1..], gids[0]);
    } else {
      JoinCountOnce(games[1..], gids[1..], i - 1);
    }
  }

  /** When every fetch succeeds and the listing's gids are distinct, the merge
      keeps every listing row once, in listing order, with its own game's
      positions and cleaned movetext. */
  lemma FetchThenMergeOneToOne(players: seq<ListingRow>, site: string -> Scraper, games: seq<Option<GameEntry>>)
    requires Distinct(Gids(players))
    requires Gather(Responses(Gids(players), site)) == Success(games)
    requires forall k :: 0 <= k < |players| ==> site(players[k].gid).pgn.Success? && site(players[k].gid).fens.Success?
    ensures |MergeData(players, games)| == |players|
    ensures forall i :: 0 <= i < |players| ==>
      MergeData(players, games)[i].listing == players[i] &&
      MergeData(players, games)[i].fens == site(players[i].gid).fens.value &&
      MergeData(players, games)[i].pgn == CleanPgn(site(players[i].gid).pgn.value)
  {
    var gids := Gids(players);
    FetchedResponses(gids, site);
    assert KeyedBy(games, gids);
    forall i | 0 <= i < |players| ensures JoinCount(games, players[i].gid) == 1 {
      JoinCountOnce(games, gids, i);
    }
    MergeOneToOne(players, games);
  }

  /** A listing row whose movetext or position fetch failed has no merged row:
      `get_game_data` returns a bare `None`, so the gid is lost before the join. */
  lemma FailedFetchDropsRow(players: seq<ListingRow>, site: string -> Scraper, games: seq<Option<GameEntry>>, i: nat)
    requires Gather(Responses(Gids(players), site)) == Success(games)
    requires i < |players|
    requires site(players[i].gid).pgn.Failure? || site(players[i].gid).fens.Failure?
    ensures forall r :: r in MergeData(players, games) ==> r.listing.gid != players[i].gid
    ensures players[i] !in (set r | r in MergeData(players, games) :: r.listing)
  {
    var gids := Gids(players);
    var gid := players[i].gid;
    FetchedResponses(gids, site);
    forall k | 0 <= k < |games| ensures !Joins(games[k], gid) {
      if gids[k] == gid {
        assert games[k].None?;
      }
    }
    MergeDropsUnmatched(players, games, gid);
  }
}
