/**
 * The text cleanup of `merge_data`: every newline of the movetext becomes a
 * space, then every left-to-right, non-overlapping match of the pattern
 * `( 1-0)|( 0-1)|( 1/2-1/2)` is deleted.
 */
module PgnCleanup {
  import opened Common

  /** The alternatives of the score pattern, in the order the regex tries them. */
  const Scores: seq<string> := [" 1-0", " 0-1", " 1/2-1/2"]

  predicate IsScore(w: string) { w in Scores }

  /** No substring of `t` is a score token. */
  predicate ScoreFree(t: string)
  {
    forall a, b :: 0 <= a <= b <= |t| ==> !IsScore(t[a..b])
  }

  predicate IsPrefix(p: string, s: string) { |p| <= |s| && s[..|p|] == p }

  /** Character `k` of `s` exists and is `c`. */
  predicate At(s: string, k: nat, c: char) { k < |s| && s[k] == c }

  /** Length of the score token a match at the start of `s` consumes: the
      alternatives are tried in order, character by character. */
  function ScoreAt(s: string): (n: Option<nat>)
    ensures n.Some? ==> 0 < n.value <= |s|
  {
    if At(s, 0, ' ') && At(s, 1, '1') && At(s, 2, '-') && At(s, 3, '0') then Some(4)
    else if At(s, 0, ' ') && At(s, 1, '0') && At(s, 2, '-') && At(s, 3, '1') then Some(4)
    else if At(s, 0, ' ') && At(s, 1, '1') && At(s, 2, '/') && At(s, 3, '2') &&
            At(s, 4, '-') && At(s, 5, '1') && At(s, 6, '/') && At(s, 7, '2') then Some(8)
    else None
  }

  lemma IsPrefixChars(w: string, s: string)
    ensures IsPrefix(w, s) <==> |w| <= |s| && forall k :: 0 <= k < |w| ==> s[k] == w[k]
  {
    if |w| <= |s| && forall k :: 0 <= k < |w| ==> s[k] == w[k] {
      assert s[..|w|] == w;
    }
  }

  /** A match at the start of `s` is exactly a score token that `s` starts with. */
  lemma ScoreAtMeaning(s: string)
    ensures ScoreAt(s).None? <==> !IsPrefix(Scores[0], s) && !IsPrefix(Scores[1], s) && !IsPrefix(Scores[2], s)
    ensures ScoreAt(s).Some? ==> IsScore(s[0..ScoreAt(s).value])
  {
    IsPrefixChars(Scores[0], s);
    IsPrefixChars(Scores[1], s);
    IsPrefixChars(Scores[2], s);
    assert Scores[0] == [' ', '1', '-', '0'];
    assert Scores[1] == [' ', '0', '-', '1'];
    assert Scores[2] == [' ', '1', '/', '2', '-', '1', '/', '2'];
  }

  /** `s.replace("\n", " ")`. */
  function ReplaceNewlines(s: string): (r: string)
    ensures |r| == |s|
    ensures '\n' !in r
    ensures forall k :: 0 <= k < |s| && s[k] != '\n' ==> r[k] == s[k]
    ensures forall k :: 0 <= k < |s| && s[k] == '\n' ==> r[k] == ' '
  {
    if |s| == 0 then "" else [if s[0] == '\n' then ' ' else s[0]] + ReplaceNewlines(s[1..])
  }

  /** `re.sub("( 1-0)|( 0-1)|( 1/2-1/2)", "", s)`: scan left to right; at a
      match drop it and go on after it, elsewhere keep one character. */
  function RemoveScores(s: string): (r: string)
    ensures |r| <= |s|
    decreases |s|
  {
    if |s| == 0 then ""
    else match ScoreAt(s)
      case Some(n) => RemoveScores(s[n..])
      case None => [s[0]] + RemoveScores(s[1..])
  }

  /** Lines 33-38, applied to one game's movetext: the result is on one line
      and no longer than the input. */
  function CleanPgn(pgn: string): (clean: string)
    ensures '\n' !in clean
    ensures |clean| <= |pgn|
  {
    RemoveScoresChars(ReplaceNewlines(pgn), '\n');
    RemoveScores(ReplaceNewlines(pgn))
  }

  lemma {:induction false} ScoreFreeTail(t: string)
    requires ScoreFree(t) && 0 < |t|
    ensures ScoreFree(t[1..])
  {
    forall a, b | 0 <= a <= b <= |t[1..]| ensures !IsScore(t[1..][a..b]) {
      var u, v := t[1..][a..b], t[a + 1..b + 1];
      assert |u| == |v|;
      assert forall k :: 0 <= k < |u| ==> u[k] == t[a + 1 + k] == v[k];
      assert u == v;
      ScoreFreeAt(t, a + 1, b + 1);
    }
  }

  lemma ScoreFreeAt(t: string, a: nat, b: nat)
    requires ScoreFree(t) && a <= b <= |t|
    ensures !IsScore(t[a..b])
  {
  }

  /** A score token holds a space only as its first character. */
  lemma ScoreSpaces(w: string, k: nat)
    requires IsScore(w) && 0 < k < |w|
    ensures w[k] != ' '
  {
  }

  /** Text without a score token is left as it is. */
  lemma {:induction false} RemoveScoresOfScoreFree(t: string)
    requires ScoreFree(t)
    ensures RemoveScores(t) == t
    decreases |t|
  {
    if 0 < |t| {
      ScoreAtMeaning(t);
      ScoreFreeTail(t);
      RemoveScoresOfScoreFree(t[1..]);
      assert t == [t[0]] + t[1..];
    }
  }

  lemma {:induction false} ScoreAtToken(tok: string, u: string)
    requires IsScore(tok)
    ensures ScoreAt(tok + u) == Some(|tok|)
  {
    var s := tok + u;
    assert forall k :: 0 <= k < |tok| ==> s[k] == tok[k];
  }

  lemma {:induction false} NoScoreAtStart(t: string, tok: string, u: string)
    requires ScoreFree(t) && 0 < |t| && IsScore(tok)
    ensures ScoreAt(t + tok + u).None?
  {
    var s := t + tok + u;
    forall w | w in Scores ensures !IsPrefix(w, s) {
      if |w| <= |t| {
        assert s[..|w|] == t[0..|w|];
      } else {
        assert s[|t|] == ' ';
        ScoreSpaces(w, |t|);
      }
    }
    ScoreAtMeaning(s);
  }

  /** A score token at the start is dropped. */
  lemma {:induction false} RemoveScoresAtToken(tok: string, u: string)
    requires IsScore(tok)
    ensures RemoveScores(tok + u) == RemoveScores(u)
  {
    ScoreAtToken(tok, u);
    assert (tok + u)[|tok|..] == u;
  }

  /** One step of the splice: where no score starts, the first character is kept. */
  lemma {:induction false} SpliceStep(s: string, rest: string, t: string, v: string)
    requires 0 < |s| && 0 < |t| && ScoreAt(s).None? && s[1..] == rest && s[0] == t[0]
    requires RemoveScores(rest) == t[1..] + v
    ensures RemoveScores(s) == t + v
  {
    assert [t[0]] + t[1..] == t;
  }

  lemma TailOfConcat(t: string, tok: string, u: string)
    requires 0 < |t|
    ensures (t + tok + u)[1..] == t[1..] + tok + u && (t + tok + u)[0] == t[0]
  {
  }

  /** Score-free text before a score token is kept and the token is dropped. */
  lemma {:induction false} RemoveScoresSplice(t: string, tok: string, u: string)
    requires ScoreFree(t) && IsScore(tok)
    ensures RemoveScores(t + tok + u) == t + RemoveScores(u)
    decreases |t|
  {
    if |t| == 0 {
      assert t + tok + u == tok + u;
      RemoveScoresAtToken(tok, u);
    } else {
      NoScoreAtStart(t, tok, u);
      ScoreFreeTail(t);
      RemoveScoresSplice(t[1..], tok, u);
      TailOfConcat(t, tok, u);
      SpliceStep(t + tok + u, t[1..] + tok + u, t, RemoveScores(u));
    }
  }

  /** The text between the deleted score tokens is kept, in order: when the
      gaps hold no score, removing the scores from the interleaving gives the
      gaps concatenated. */
  lemma {:induction false} RemoveScoresOfInterleave(gaps: seq<string>, tokens: seq<string>)
    requires |gaps| == |tokens| + 1
    requires forall k :: 0 <= k < |gaps| ==> ScoreFree(gaps[k])
    requires forall k :: 0 <= k < |tokens| ==> IsScore(tokens[k])
    ensures RemoveScores(Interleave(gaps, tokens)) == Flatten(gaps)
    decreases |tokens|
  {
    if |tokens| == 0 {
      RemoveScoresOfScoreFree(gaps[0]);
      assert Flatten(gaps) == gaps[0] + Flatten(gaps[1..]);
    } else {
      var rest := Interleave(gaps[1..], tokens[1..]);
      RemoveScoresSplice(gaps[0], tokens[0], rest);
      RemoveScoresOfInterleave(gaps[1..], tokens[1..]);
    }
  }

  lemma NoDashIsScoreFree(t: string)
    requires '-' !in t
    ensures ScoreFree(t)
  {
    forall a, b | 0 <= a <= b <= |t| ensures !IsScore(t[a..b]) {
      var w := t[a..b];
      assert '-' !in w by {
        forall k | 0 <= k < |w| ensures w[k] != '-' { assert w[k] == t[a + k]; }
      }
      assert Scores[0][2] == '-' && Scores[1][2] == '-' && Scores[2][4] == '-';
    }
  }

  /** Removal is one pass: deleting a score can bring a new one together,
      and that one stays. */
  lemma {:induction false} RemoveScoresIsSinglePass()
    ensures RemoveScores(" 1 1-0-0") == " 1-0"
  {
    var s := " 1 1-0-0";
    assert ScoreAt(s).None? by { assert s[2] == ' '; }
    assert s[1..] == "1 1-0-0";
    assert ScoreAt(s[1..]).None? by { assert s[1] == '1'; }
    assert s[2..] == " 1-0-0";
    ScoreAtToken(" 1-0", "-0");
    assert s[2..] == " 1-0" + "-0";
    assert s[6..] == "-0";
    NoDashIsScoreFree("0");
    assert "-0" == "-" + "0";
    assert ScoreAt("-0").None?;
    assert "-0"[1..] == "0";
    RemoveScoresOfScoreFree("0");
  }

  /** A score on a line of its own is removed too: the newline becomes a
      space first, which makes it a score token. */
  lemma {:induction false} ScoreOnNextLine(moves: string, tok: string)
    requires '\n' !in moves && ScoreFree(moves) && IsScore(tok)
    ensures CleanPgn(moves + "\n" + tok[1..]) == moves
  {
    var s := moves + "\n" + tok[1..];
    var r := ReplaceNewlines(s);
    assert '\n' !in tok[1..] by {
      assert Scores[0][1..] == "1-0" && Scores[1][1..] == "0-1" && Scores[2][1..] == "1/2-1/2";
    }
    assert r == moves + tok by {
      forall k | 0 <= k < |r| ensures r[k] == (moves + tok)[k] {
        if k < |moves| {
          assert s[k] == moves[k];
        } else if k > |moves| {
          assert s[k] == tok[1..][k - |moves| - 1];
        }
      }
    }
    RemoveScoresSplice(moves, tok, "");
    assert moves + tok + "" == moves + tok;
  }

  /** Removing score tokens never introduces a character. */
  lemma {:induction false} RemoveScoresChars(s: string, c: char)
    requires c !in s
    ensures c !in RemoveScores(s)
    decreases |s|
  {
    if |s| > 0 {
      match ScoreAt(s) {
        case Some(n) =>
          assert forall x :: x in s[n..] ==> x in s;
          RemoveScoresChars(s[n..], c);
        case None =>
          assert forall x :: x in s[1..] ==> x in s;
          RemoveScoresChars(s[1..], c);
      }
    }
  }

  /** The end of the repository's two-move test game, with its score on the next line. */
  lemma NewlineBeforeScoreExample()
    ensures CleanPgn("1. e4 e5 2. d4" + "\n" + "1-0") == "1. e4 e5 2. d4"
  {
    NoDashIsScoreFree("1. e4 e5 2. d4");
    assert " 1-0"[1..] == "1-0";
    ScoreOnNextLine("1. e4 e5 2. d4", " 1-0");
  }

  /** Text on one line is left as it is by the newline replacement. */
  lemma ReplaceNewlinesOfOneLine(s: string)
    requires '\n' !in s
    ensures ReplaceNewlines(s) == s
  {
    assert forall k :: 0 <= k < |s| ==> s[k] != '\n';
  }

  /** A score at the end of one line of score-free moves is removed. */
  lemma {:induction false} ScoreOnSameLine(moves: string, tok: string)
    requires '\n' !in moves && ScoreFree(moves) && IsScore(tok)
    ensures CleanPgn(moves + tok) == moves
  {
    assert '\n' !in tok by {
      assert Scores[0] == " 1-0" && Scores[1] == " 0-1" && Scores[2] == " 1/2-1/2";
    }
    ReplaceNewlinesOfOneLine(moves + tok);
    RemoveScoresSplice(moves, tok, "");
    assert moves + tok + "" == moves + tok;
  }

  /** The repository's two-move test game, score on the same line: the score is removed. */
  lemma TestGameClean()
    ensures CleanPgn("1. e4 e5 2. d4" + " 1-0") == "1. e4 e5 2. d4"
  {
    NoDashIsScoreFree("1. e4 e5 2. d4");
    ScoreOnSameLine("1. e4 e5 2. d4", " 1-0");
  }
}
