/**
 * The planner (strategy): among all holds of a hand, the one whose
 * expected score after rerolling the other dice is largest.
 */
module Planner {
  import opened Basics
  import opened Scoring
  import opened Expectation
  import opened Holds

  /** Every hold in `holds` keeps at most the dice of the hand, so the rest can be rerolled. */
  ghost predicate Fits(holds: set<seq<int>>, hand: seq<int>)
  {
    forall h :: h in holds ==> |h| <= |hand|
  }

  /**
   * The search of the source's loop: tries every hold in turn and keeps the
   * first one whose expected value is strictly larger than the best so far,
   * starting from (0.0, no dice). The holds are visited in an unspecified
   * order, so among holds of equal value any one may be returned.
   */
  method BestHold(hand: seq<int>, numDieSides: int, holds: set<seq<int>>) returns (expectedScore: real, hold: seq<int>)
    requires numDieSides >= 1 || |hand| == 0
    requires Fits(holds, hand)
    ensures || (expectedScore == 0.0 && hold == [])
            || (hold in holds && |hold| <= |hand| && expectedScore == MeanScore(hold, numDieSides, |hand| - |hold|))
    ensures forall h :: h in holds ==> |h| <= |hand| && MeanScore(h, numDieSides, |hand| - |h|) <= expectedScore
  {
    expectedScore, hold := 0.0, [];
    var todo := holds;
    while todo != {}
      invariant todo <= holds
      invariant || (expectedScore == 0.0 && hold == [])
                || (hold in holds - todo && |hold| <= |hand| && expectedScore == MeanScore(hold, numDieSides, |hand| - |hold|))
      invariant forall h :: h in holds - todo ==> |h| <= |hand| && MeanScore(h, numDieSides, |hand| - |h|) <= expectedScore
      decreases todo
    {
      ghost var some := Member(todo);
      var candidate :| candidate in todo;
      assert |candidate| <= |hand|;
      var eVal := ExpectedValue(candidate, numDieSides, |hand| - |candidate|);
      if eVal > expectedScore {
        expectedScore, hold := eVal, candidate;
      }
      todo := todo - {candidate};
    }
    assert holds - todo == holds;
  }

  /**
   * The strategy: the hold of the hand with the largest expected score after
   * rerolling the other dice, together with that expected score.
   */
  method Strategy(hand: seq<int>, numDieSides: int) returns (expectedScore: real, hold: seq<int>)
    requires numDieSides >= 1 || |hand| == 0
    ensures hold in AllHolds(hand) && |hold| <= |hand|
    ensures expectedScore == MeanScore(hold, numDieSides, |hand| - |hold|)
    ensures forall h :: h in AllHolds(hand) ==>
              |h| <= |hand| && MeanScore(h, numDieSides, |hand| - |h|) <= expectedScore
    ensures expectedScore >= UpperScore(hand) as real
  {
    var holds := GenAllHolds(hand);
    forall h | h in holds ensures |h| <= |hand| {
      HoldsWithinHand(hand, h);
    }
    expectedScore, hold := BestHold(hand, numDieSides, holds);
    BestHoldIsBest(hand, numDieSides, expectedScore, hold);
  }

  /** What the search over all holds of the hand establishes about its result. */
  lemma BestHoldIsBest(hand: seq<int>, numDieSides: int, expectedScore: real, hold: seq<int>)
    requires numDieSides >= 1 || |hand| == 0
    requires || (expectedScore == 0.0 && hold == [])
             || (hold in AllHolds(hand) && |hold| <= |hand| && expectedScore == MeanScore(hold, numDieSides, |hand| - |hold|))
    requires forall h :: h in AllHolds(hand) ==> |h| <= |hand| && MeanScore(h, numDieSides, |hand| - |h|) <= expectedScore
    ensures hold in AllHolds(hand) && |hold| <= |hand|
    ensures expectedScore == MeanScore(hold, numDieSides, |hand| - |hold|)
    ensures expectedScore >= UpperScore(hand) as real
  {
    var holds := AllHolds(hand);
    HoldsIncludeNoneAndAll(hand);
    SearchLeftStart(hand, numDieSides, holds, expectedScore, hold);
    var whole := SortAscending(hand);
    MeanScoreAllHeld(whole, numDieSides);
    UpperScorePermutation(whole, hand);
  }

  /**
   * When the search ends it holds one of the holds together with its value:
   * with dice in the hand, holding none of them is worth at least 1, so the
   * starting pair (0.0, no dice) has been replaced.
   */
  lemma SearchLeftStart(hand: seq<int>, numDieSides: int, holds: set<seq<int>>, expectedScore: real, hold: seq<int>)
    requires numDieSides >= 1 || |hand| == 0
    requires [] in holds
    requires || (expectedScore == 0.0 && hold == [])
             || (hold in holds && |hold| <= |hand| && expectedScore == MeanScore(hold, numDieSides, |hand| - |hold|))
    requires forall h :: h in holds ==> |h| <= |hand| && MeanScore(h, numDieSides, |hand| - |h|) <= expectedScore
    ensures hold in holds && |hold| <= |hand|
    ensures expectedScore == MeanScore(hold, numDieSides, |hand| - |hold|)
  {
    var none: seq<int> := [];
    if |hand| == 0 {
      MeanScoreAllHeld(none, numDieSides);
    } else {
      MeanScoreAtLeastOne(none, numDieSides, |hand|);
      assert MeanScore(none, numDieSides, |hand| - |none|) <= expectedScore;
    }
  }
}
