/**
 * `merge_data`: an inner join of the listing rows with the fetched game
 * content on `gid`, followed by the movetext cleanup of `PgnCleanup`.
 *
 * The fetched table is a list of responses; a response that is `None` (a
 * fetch that gave up) carries no gid and so never joins.  The join keeps
 * the order of the listing and, within one listing row, the order of the
 * matching responses.  Inputs are values, so they are never modified.
 */
module GameMerge {
  import opened Common
  import opened Records
  import opened PgnCleanup

  /** A listing row with the columns taken from its game: fens, game type and cleaned pgn.
      The `result` key of the fetched dictionary is dropped; the listing's own result stays. */
  datatype MergedRow = MergedRow(
    listing: ListingRow, fens: seq<seq<string>>, gameType: Option<string>, pgn: string)

  function Combine(p: ListingRow, g: GameEntry): (r: MergedRow)
    ensures r.listing == p
    ensures r.fens == g.data.fens && r.gameType == g.data.gameType
    ensures r.pgn == CleanPgn(g.data.pgn)
  {
    MergedRow(p, g.data.fens, g.data.gameType, CleanPgn(g.data.pgn))
  }

  /** Does a response join with the gid `gid`? */
  predicate Joins(response: Option<GameEntry>, gid: string)
  {
    response.Some? && response.value.gid == gid
  }

  /** The merged rows one listing row produces, in the order of the responses. */
  function MatchesOf(p: ListingRow, games: seq<Option<GameEntry>>): (rows: seq<MergedRow>)
    ensures |rows| <= |games|
    ensures forall r :: r in rows ==> r.listing == p
    decreases |games|
  {
    if |games| == 0 then []
    else (if Joins(games[0], p.gid) then [Combine(p, games[0].value)] else []) + MatchesOf(p, games[1..])
  }

  /** `player_games.merge(games_data, on="gid")` followed by the cleanup of lines 33-38. */
  function MergeData(players: seq<ListingRow>, games: seq<Option<GameEntry>>): (merged: seq<MergedRow>)
    ensures forall r :: r in merged ==> r.listing in players
    decreases |players|
  {
    if |players| == 0 then [] else MatchesOf(players[0], games) + MergeData(players[1..], games)
  }

  /** Number of responses that join with `gid`. */
  function JoinCount(games: seq<Option<GameEntry>>, gid: string): nat
  {
    if |games| == 0 then 0 else (if Joins(games[0], gid) then 1 else 0) + JoinCount(games[1..], gid)
  }

  lemma {:induction false} MatchesOfSound(p: ListingRow, games: seq<Option<GameEntry>>, r: MergedRow)
    requires r in MatchesOf(p, games)
    ensures exists k :: 0 <= k < |games| && Joins(games[k], p.gid) && r == Combine(p, games[k].value)
    decreases |games|
  {
    if Joins(games[0], p.gid) && r == Combine(p, games[0].value) {
      assert Joins(games[0], p.gid);
    } else {
      MatchesOfSound(p, games[1..], r);
      var k :| 0 <= k < |games[1..]| && Joins(games[1..][k], p.gid) && r == Combine(p, games[1..][k].value);
      assert games[1..][k] == games[k + 1];
    }
  }

  lemma {:induction false} MatchesOfComplete(p: ListingRow, games: seq<Option<GameEntry>>, k: nat)
    requires k < |games| && Joins(games[k], p.gid)
    ensures Combine(p, games[k].value) in MatchesOf(p, games)
    decreases k
  {
    if k > 0 {
      assert games[1..][k - 1] == games[k];
      MatchesOfComplete(p, games[1..], k - 1);
    }
  }

  lemma {:induction false} MatchesOfCount(p: ListingRow, games: seq<Option<GameEntry>>)
    ensures |MatchesOf(p, games)| == JoinCount(games, p.gid)
    decreases |games|
  {
    if |games| > 0 {
      MatchesOfCount(p, games[1..]);
    }
  }

  /** Every merged row pairs some listing row with some response of the same gid. */
  lemma {:induction false} MergeSound(players: seq<ListingRow>, games: seq<Option<GameEntry>>, r: MergedRow)
    requires r in MergeData(players, games)
    ensures exists i, k :: (0 <= i < |players| && 0 <= k < |games| &&
      Joins(games[k], players[i].gid) && r == Combine(players[i], games[k].value))
    decreases |players|
  {
    if r in MatchesOf(players[0], games) {
      MatchesOfSound(players[0], games, r);
      var k :| 0 <= k < |games| && Joins(games[k], players[0].gid) && r == Combine(players[0], games[k].value);
      assert 0 <= 0 < |players|;
    } else {
      MergeSound(players[1..], games, r);
      var i, k :| 0 <= i < |players[1..]| && 0 <= k < |games| &&
        Joins(games[k], players[1..][i].gid) && r == Combine(players[1..][i], games[k].value);
      assert players[1..][i] == players[i + 1];
    }
  }

  /** Every pair of a listing row and a response with its gid gives a merged row. */
  lemma {:induction false} MergeComplete(players: seq<ListingRow>, games: seq<Option<GameEntry>>, i: nat, k: nat)
    requires i < |players| && k < |games| && Joins(games[k], players[i].gid)
    ensures Combine(players[i], games[k].value) in MergeData(players, games)
    decreases i
  {
    if i == 0 {
      MatchesOfComplete(players[0], games, k);
    } else {
      assert players[1..][i - 1] == players[i];
      MergeComplete(players[1..], games, i - 1, k);
    }
  }

  /** Inner join: a gid that no response carries (for instance because its fetch
      gave up) has no merged row. */
  lemma MergeDropsUnmatched(players: seq<ListingRow>, games: seq<Option<GameEntry>>, gid: string)
    requires forall k :: 0 <= k < |games| ==> !Joins(games[k], gid)
    ensures forall r :: r in MergeData(players, games) ==> r.listing.gid != gid
  {
    forall r | r in MergeData(players, games) ensures r.listing.gid != gid {
      MergeSound(players, games, r);
    }
  }

  /** When each listing gid is carried by exactly one response, the merge keeps
      every listing row once and in order, each with the content of its own game. */
  lemma {:induction false} MergeOneToOne(players: seq<ListingRow>, games: seq<Option<GameEntry>>)
    requires forall i :: 0 <= i < |players| ==> JoinCount(games, players[i].gid) == 1
    ensures |MergeData(players, games)| == |players|
    ensures forall i :: 0 <= i < |players| ==>
      MergeData(players, games)[i].listing == players[i] &&
      exists k :: (0 <= k < |games| && Joins(games[k], players[i].gid) &&
        MergeData(players, games)[i] == Combine(players[i], games[k].value))
    decreases |players|
  {
    if |players| > 0 {
      var head := MatchesOf(players[0], games);
      MatchesOfCount(players[0], games);
      assert |head| == 1;
      MatchesOfSound(players[0], games, head[0]);
      MergeOneToOne(players[1..], games);
      var tail := MergeData(players[1..], games);
      assert MergeData(players, games) == head + tail;
      forall i | 0 < i < |players|
        ensures MergeData(players, games)[i].listing == players[i]
        ensures exists k :: (0 <= k < |games| && Joins(games[k], players[i].gid) &&
          MergeData(players, games)[i] == Combine(players[i], games[k].value))
      {
        assert MergeData(players, games)[i] == tail[i - 1];
        assert players[1..][i - 1] == players[i];
      }
    }
  }

  /** Every merged pgn is on one line. */
  lemma MergedPgnHasNoNewline(players: seq<ListingRow>, games: seq<Option<GameEntry>>)
    ensures forall r :: r in MergeData(players, games) ==> '\n' !in r.pgn
  {
    forall r | r in MergeData(players, games) ensures '\n' !in r.pgn {
      MergeSound(players, games, r);
      var i, k :| 0 <= i < |players| && 0 <= k < |games| &&
        Joins(games[k], players[i].gid) && r == Combine(players[i], games[k].value);
      RemoveScoresChars(ReplaceNewlines(games[k].value.data.pgn), '\n');
    }
  }
}
