/**
 * Positional scoring of one guess (server.js, calculateScores).
 *
 * A guesser earns 10 points for every position at which their ranking names
 * the same item as the spotlight's ranking. Positions past the end of the
 * spotlight's ranking never match: JavaScript reads them as `undefined`.
 */
module Scoring {

  type Item = string
  type Ranking = seq<Item>

  const PointsPerMatch: nat := 10

  /** Matching positions among the first `n` of the guess. */
  function MatchesUpTo(guess: Ranking, truth: Ranking, n: nat): nat
    requires n <= |guess|
  {
    if n == 0 then 0
    else MatchesUpTo(guess, truth, n - 1) + (if n - 1 < |truth| && guess[n - 1] == truth[n - 1] then 1 else 0)
  }

  function Matches(guess: Ranking, truth: Ranking): nat {
    MatchesUpTo(guess, truth, |guess|)
  }

  /** The points a guess earns against the spotlight's ranking. */
  function Points(guess: Ranking, truth: Ranking): nat {
    PointsPerMatch * Matches(guess, truth)
  }

  /** The positions at which the guess agrees with the truth: the reference definition. */
  ghost function MatchIndices(guess: Ranking, truth: Ranking): set<int> {
    set i | 0 <= i < |guess| && i < |truth| && guess[i] == truth[i]
  }

  lemma {:induction false} MatchesUpToCounts(guess: Ranking, truth: Ranking, n: nat)
    requires n <= |guess|
    ensures MatchesUpTo(guess, truth, n) == |set i | 0 <= i < n && i < |truth| && guess[i] == truth[i]|
  {
    if n > 0 {
      MatchesUpToCounts(guess, truth, n - 1);
      var before := set i | 0 <= i < n - 1 && i < |truth| && guess[i] == truth[i];
      var after := set i | 0 <= i < n && i < |truth| && guess[i] == truth[i];
      if n - 1 < |truth| && guess[n - 1] == truth[n - 1] {
        assert n - 1 !in before;
        assert after == before + {n - 1} by {
          forall i | i in after ensures i in before + {n - 1} {
          }
        }
      } else {
        assert after == before by {
          forall i | i in after ensures i in before {
          }
        }
      }
    }
  }

  /** The score is ten times the number of agreeing positions. */
  lemma PointsCountMatchingPositions(guess: Ranking, truth: Ranking)
    ensures Points(guess, truth) == PointsPerMatch * |MatchIndices(guess, truth)|
  {
    MatchesUpToCounts(guess, truth, |guess|);
  }

  lemma {:induction false} MatchesUpToBounded(guess: Ranking, truth: Ranking, n: nat)
    requires n <= |guess|
    ensures MatchesUpTo(guess, truth, n) <= n
    ensures MatchesUpTo(guess, truth, n) <= |truth|
  {
    if n > 0 {
      MatchesUpToBounded(guess, truth, n - 1);
    }
  }

  /** A guess earns at most 10 points per item of either ranking; a missing (empty) guess earns nothing. */
  lemma PointsBounded(guess: Ranking, truth: Ranking)
    ensures Points(guess, truth) <= PointsPerMatch * |guess|
    ensures Points(guess, truth) <= PointsPerMatch * |truth|
  {
    MatchesUpToBounded(guess, truth, |guess|);
  }

  lemma {:induction false} MatchesUpToSelf(truth: Ranking, n: nat)
    requires n <= |truth|
    ensures MatchesUpTo(truth, truth, n) == n
  {
    if n > 0 {
      MatchesUpToSelf(truth, n - 1);
    }
  }

  /** Guessing the spotlight's exact ranking earns 10 points per item. */
  lemma PerfectGuess(truth: Ranking)
    ensures Points(truth, truth) == PointsPerMatch * |truth|
  {
    MatchesUpToSelf(truth, |truth|);
  }

  /** The `pRank.forEach` loop of calculateScores. */
  method GuessPoints(guess: Ranking, truth: Ranking) returns (score: int)
    ensures score == Points(guess, truth)
  {
    score := 0;
    var index := 0;
    while index < |guess|
      invariant 0 <= index <= |guess|
      invariant score == PointsPerMatch * MatchesUpTo(guess, truth, index)
    {
      if index < |truth| && guess[index] == truth[index] {
        score := score + 10;
      }
      index := index + 1;
    }
  }
}
