/** Failure-compatible wrappers and sequence helpers shared by the model. */
module Common {

  datatype Option<+T> = None | Some(value: T)

  datatype Result<+T, +E> = Success(value: T) | Failure(error: E)

  function Min(a: int, b: int): int { if a <= b then a else b }

  /** The sum of the lengths of the lists. */
  function TotalLength<T>(xss: seq<seq<T>>): nat
  {
    if |xss| == 0 then 0 else |xss[0]| + TotalLength(xss[1..])
  }

  /** Concatenation of a list of lists, as `[item for sub in xss for item in sub]`. */
  function Flatten<T>(xss: seq<seq<T>>): (flat: seq<T>)
    ensures |flat| == TotalLength(xss)
  {
    if |xss| == 0 then [] else xss[0] + Flatten(xss[1..])
  }

  lemma {:induction false} FlattenConcat<T>(a: seq<seq<T>>, b: seq<seq<T>>)
    ensures Flatten(a + b) == Flatten(a) + Flatten(b)
  {
    if |a| == 0 {
      assert a + b == b;
    } else {
      assert (a + b)[1..] == a[1..] + b;
      FlattenConcat(a[1..], b);
    }
  }

  /** Flattening a prefix one element longer appends that element. */
  lemma {:induction false} FlattenSnoc<T>(xss: seq<seq<T>>, i: nat)
    requires i < |xss|
    ensures Flatten(xss[..i + 1]) == Flatten(xss[..i]) + xss[i]
  {
    assert xss[..i + 1] == xss[..i] + [xss[i]];
    FlattenConcat(xss[..i], [xss[i]]);
    assert Flatten([xss[i]]) == xss[i] + Flatten([xss[i]][1..]);
  }

  /** The lists before `i`, list `i` and the lists after it make up the whole. */
  lemma {:induction false} FlattenAround<T>(xss: seq<seq<T>>, i: nat)
    requires i < |xss|
    ensures Flatten(xss) == Flatten(xss[..i]) + xss[i] + Flatten(xss[i + 1..])
  {
    var front, back := xss[..i + 1], xss[i + 1..];
    calc {
      Flatten(xss);
    == { assert front + back == xss; }
      Flatten(front + back);
    == { FlattenConcat(front, back); }
      Flatten(front) + Flatten(back);
    == { FlattenSnoc(xss, i); }
      Flatten(xss[..i]) + xss[i] + Flatten(back);
    }
  }


  /** `pieces[0] + seps[0] + pieces[1] + ... + pieces[n]`: the text that a split took apart. */
  function Interleave(pieces: seq<string>, seps: seq<string>): string
    requires |pieces| == |seps| + 1
  {
    if |seps| == 0 then pieces[0] else pieces[0] + seps[0] + Interleave(pieces[1..], seps[1..])
  }
}

/** The records that flow between the listing walk, the game fetch and the merge. */
module Records {
  import opened Common

  /** One row of a player's game listing, after the `links` column is dropped. */
  datatype ListingRow = ListingRow(
    game: string, result: string, year: int, gid: string, isWhite: bool, event: string, url: string)

  /** The per-game dictionary built by `get_game_data`: keys pgn, game_type, fens, result. */
  datatype GameRecord = GameRecord(
    pgn: string, gameType: Option<string>, fens: seq<seq<string>>, result: string)

  /** A successful `(gid, data)` response. */
  datatype GameEntry = GameEntry(gid: string, data: GameRecord)

  function Gids(rows: seq<ListingRow>): (gids: seq<string>)
    ensures |gids| == |rows|
    ensures forall k :: 0 <= k < |rows| ==> gids[k] == rows[k].gid
  {
    seq(|rows|, k requires 0 <= k < |rows| => rows[k].gid)
  }
}
