/**
 * The expected score of holding some dice and rerolling the others
 * (expected_value): the mean of the score over every equally likely
 * outcome of the free dice.
 */
module Expectation {
  import opened Basics
  import opened Sequences
  import opened Scoring

  /** The faces of a die with `numDieSides` sides: 1, 2, ..., numDieSides (none for a count below 1). */
  function Outcomes(numDieSides: int): (r: seq<int>)
    ensures |r| == if numDieSides > 0 then numDieSides else 0
    ensures Distinct(r)
  {
    seq(if numDieSides > 0 then numDieSides else 0, die => die + 1)
  }

  /** A die shows exactly the faces 1 to numDieSides. */
  lemma OutcomesMembership(numDieSides: int, x: int)
    ensures x in Outcomes(numDieSides) <==> 1 <= x <= numDieSides
  {
    if 1 <= x <= numDieSides {
      assert Outcomes(numDieSides)[x - 1] == x;
    }
  }

  /** Some roll of a nonempty set of rolls. */
  ghost function PickRoll(rolls: set<seq<int>>): (roll: seq<int>)
    requires rolls != {}
    ensures roll in rolls
  {
    if forall r :: r !in rolls then assert false; [] else var r :| r in rolls; r
  }

  /** The sum of the scores of `held` completed by each roll in `rolls`. */
  ghost function SumScores(held: seq<int>, rolls: set<seq<int>>): int
    decreases rolls
  {
    if rolls == {} then 0
    else
      var roll := PickRoll(rolls);
      UpperScore(held + roll) + SumScores(held, rolls - {roll})
  }

  /** Any roll can be taken out of the sum first. */
  lemma {:induction false} SumScoresRemove(held: seq<int>, rolls: set<seq<int>>, roll: seq<int>)
    requires roll in rolls
    ensures SumScores(held, rolls) == UpperScore(held + roll) + SumScores(held, rolls - {roll})
    decreases rolls
  {
    var first := PickRoll(rolls);
    if first != roll {
      SumScoresRemove(held, rolls - {first}, roll);
      SumScoresRemove(held, rolls - {roll}, first);
      assert rolls - {first} - {roll} == rolls - {roll} - {first};
    }
  }

  /** Adding one more roll to the sum adds its score. */
  lemma SumScoresAdd(held: seq<int>, rolls: set<seq<int>>, roll: seq<int>)
    requires roll !in rolls
    ensures SumScores(held, rolls + {roll}) == SumScores(held, rolls) + UpperScore(held + roll)
  {
    SumScoresRemove(held, rolls + {roll}, roll);
    assert rolls + {roll} - {roll} == rolls;
  }

  /** The set of rolls of the free dice is never empty when they can show a face, or when there are none. */
  lemma RollsCard(numDieSides: int, numFreeDice: nat)
    requires numDieSides >= 1 || numFreeDice == 0
    ensures |AllSequences(Outcomes(numDieSides), numFreeDice)| == Pow(|Outcomes(numDieSides)|, numFreeDice) >= 1
  {
    AllSequencesCard(Outcomes(numDieSides), numFreeDice);
  }

  /**
   * The total score, over every roll of `numFreeDice` dice showing
   * `outcomes`, of `held` completed by the roll: the first free die shows
   * each outcome in turn and the remaining dice are rolled after it.
   */
  function TotalScore(held: seq<int>, outcomes: seq<int>, numFreeDice: nat): int
    decreases numFreeDice, 0
  {
    if numFreeDice == 0 then UpperScore(held)
    else FirstDieTotal(held, outcomes, numFreeDice - 1, |outcomes|)
  }

  /** The sum of TotalScore(held + [outcomes[k]], outcomes, rest) over k < j. */
  function FirstDieTotal(held: seq<int>, outcomes: seq<int>, rest: nat, j: nat): int
    requires j <= |outcomes|
    decreases rest, j + 1
  {
    if j == 0 then 0
    else FirstDieTotal(held, outcomes, rest, j - 1) + TotalScore(held + [outcomes[j - 1]], outcomes, rest)
  }

  /**
   * A die with no sides has no roll for even one free die: the number of
   * rolls, by which the source divides, is then 0.
   */
  lemma NoRollsWithoutFaces(numDieSides: int, numFreeDice: nat)
    requires numDieSides < 1 && numFreeDice >= 1
    ensures AllSequences(Outcomes(numDieSides), numFreeDice) == {}
  {
    forall s | s in AllSequences(Outcomes(numDieSides), numFreeDice) ensures false {
      AllSequencesMembership(Outcomes(numDieSides), numFreeDice, s);
    }
  }

  /**
   * The expected score of holding `heldDice` and rerolling `numFreeDice`
   * dice: the total score over every equally likely roll of the free dice,
   * divided by the number of rolls, numDieSides^numFreeDice.
   */
  function MeanScore(heldDice: seq<int>, numDieSides: int, numFreeDice: nat): real
    requires numDieSides >= 1 || numFreeDice == 0
  {
    var outcomes := Outcomes(numDieSides);
    TotalScore(heldDice, outcomes, numFreeDice) as real / Pow(|outcomes|, numFreeDice) as real
  }

  /** Every roll of R with x put in front of it. */
  function Prefixed(x: int, R: set<seq<int>>): set<seq<int>>
  {
    set r | r in R :: [x] + r
  }

  /** Every roll of R with one of outcomes[0], ..., outcomes[j-1] put in front of it. */
  function PrefixedUpTo(outcomes: seq<int>, j: nat, R: set<seq<int>>): set<seq<int>>
    requires j <= |outcomes|
  {
    if j == 0 then {} else PrefixedUpTo(outcomes, j - 1, R) + Prefixed(outcomes[j - 1], R)
  }

  /** The sum over a union of two disjoint sets of rolls is the sum of the two sums. */
  lemma {:induction false} SumScoresUnion(held: seq<int>, A: set<seq<int>>, B: set<seq<int>>)
    requires A !! B
    ensures SumScores(held, A + B) == SumScores(held, A) + SumScores(held, B)
    decreases B
  {
    if B == {} {
      assert A + B == A;
    } else {
      var b := Member(B);
      SumScoresUnion(held, A, B - {b});
      SumScoresRemove(held, B, b);
      SumScoresRemove(held, A + B, b);
      assert (A + B) - {b} == A + (B - {b});
    }
  }

  /** Putting x in front is one-to-one, so removing r from R removes exactly [x] + r. */
  lemma PrefixedRemove(x: int, R: set<seq<int>>, r: seq<int>)
    requires r in R
    ensures [x] + r in Prefixed(x, R)
    ensures Prefixed(x, R) - {[x] + r} == Prefixed(x, R - {r})
  {
    forall t | t in Prefixed(x, R) - {[x] + r} ensures t in Prefixed(x, R - {r}) {
      var u :| u in R && t == [x] + u;
      assert u == t[1..];
    }
    forall t | t in Prefixed(x, R - {r}) ensures t in Prefixed(x, R) - {[x] + r} {
      var u :| u in R - {r} && t == [x] + u;
      assert u == t[1..];
    }
  }

  /** Putting x in front of every roll is the same as holding x as well. */
  lemma {:induction false} SumScoresPrefixed(held: seq<int>, x: int, R: set<seq<int>>)
    ensures SumScores(held, Prefixed(x, R)) == SumScores(held + [x], R)
    decreases R
  {
    if R == {} {
      assert Prefixed(x, R) == {};
    } else {
      var r := Member(R);
      SumScoresPrefixed(held, x, R - {r});
      SumScoresPrefixedStep(held, x, R, r);
    }
  }

  /** One step of SumScoresPrefixed: taking the roll r out of both sums. */
  lemma SumScoresPrefixedStep(held: seq<int>, x: int, R: set<seq<int>>, r: seq<int>)
    requires r in R
    requires SumScores(held, Prefixed(x, R - {r})) == SumScores(held + [x], R - {r})
    ensures SumScores(held, Prefixed(x, R)) == SumScores(held + [x], R)
  {
    PrefixedRemove(x, R, r);
    SumScoresRemove(held, Prefixed(x, R), [x] + r);
    SumScoresRemove(held + [x], R, r);
    ScoreRegroup(held, x, r);
  }

  /** Holding x and rolling r scores the same as rolling x followed by r. */
  lemma ScoreRegroup(held: seq<int>, x: int, r: seq<int>)
    ensures UpperScore(held + ([x] + r)) == UpperScore((held + [x]) + r)
  {
    assert held + ([x] + r) == (held + [x]) + r;
  }

  /** The members of PrefixedUpTo(outcomes, j, R): a first die among the first j outcomes, then a roll of R. */
  lemma {:induction false} PrefixedUpToMembership(outcomes: seq<int>, j: nat, R: set<seq<int>>, t: seq<int>)
    requires j <= |outcomes|
    ensures t in PrefixedUpTo(outcomes, j, R) <==> |t| > 0 && t[0] in outcomes[..j] && t[1..] in R
  {
    if j > 0 {
      PrefixedUpToMembership(outcomes, j - 1, R, t);
      assert outcomes[..j] == outcomes[..j - 1] + [outcomes[j - 1]];
      if t in Prefixed(outcomes[j - 1], R) {
        var u :| u in R && t == [outcomes[j - 1]] + u;
        assert t[1..] == u;
      }
      if |t| > 0 && t[0] == outcomes[j - 1] && t[1..] in R {
        assert t == [outcomes[j - 1]] + t[1..];
      }
    }
  }

  /** A roll of n > 0 dice is a first die followed by a roll of the other n - 1. */
  lemma AllSequencesByFirst(outcomes: seq<int>, n: nat)
    requires n > 0
    ensures AllSequences(outcomes, n) == PrefixedUpTo(outcomes, |outcomes|, AllSequences(outcomes, n - 1))
  {
    var R := AllSequences(outcomes, n - 1);
    assert outcomes[..|outcomes|] == outcomes;
    forall t ensures t in AllSequences(outcomes, n) <==> t in PrefixedUpTo(outcomes, |outcomes|, R) {
      AllSequencesMembership(outcomes, n, t);
      PrefixedUpToMembership(outcomes, |outcomes|, R, t);
      if |t| > 0 {
        AllSequencesMembership(outcomes, n - 1, t[1..]);
        if IsRoll(t[1..], outcomes, n - 1) && t[0] in outcomes {
          forall i | 0 <= i < |t| ensures t[i] in outcomes {
            if i > 0 {
              assert t[i] == t[1..][i - 1];
            }
          }
        }
      }
    }
  }

  /** For distinct outcomes, rolls starting with one of the first j outcomes never start with outcomes[j]. */
  lemma PrefixedUpToDisjoint(outcomes: seq<int>, j: nat, R: set<seq<int>>)
    requires Distinct(outcomes) && j < |outcomes|
    ensures PrefixedUpTo(outcomes, j, R) !! Prefixed(outcomes[j], R)
  {
    forall t | t in PrefixedUpTo(outcomes, j, R) ensures t !in Prefixed(outcomes[j], R) {
      PrefixedUpToMembership(outcomes, j, R, t);
      var k :| 0 <= k < j && outcomes[..j][k] == t[0];
      assert outcomes[k] != outcomes[j];
    }
  }

  /** The rolls whose first die is among the first j outcomes add up to FirstDieTotal. */
  lemma {:induction false} FirstDieTotalIsSum(held: seq<int>, outcomes: seq<int>, rest: nat, j: nat)
    requires Distinct(outcomes) && j <= |outcomes|
    ensures SumScores(held, PrefixedUpTo(outcomes, j, AllSequences(outcomes, rest))) == FirstDieTotal(held, outcomes, rest, j)
    decreases rest, j + 1
  {
    if j > 0 {
      var R := AllSequences(outcomes, rest);
      var x := outcomes[j - 1];
      PrefixedUpToDisjoint(outcomes, j - 1, R);
      SumScoresUnion(held, PrefixedUpTo(outcomes, j - 1, R), Prefixed(x, R));
      FirstDieTotalIsSum(held, outcomes, rest, j - 1);
      SumScoresPrefixed(held, x, R);
      TotalScoreIsSum(held + [x], outcomes, rest);
    } else {
      assert PrefixedUpTo(outcomes, j, AllSequences(outcomes, rest)) == {};
    }
  }

  /** For distinct outcomes, TotalScore is the sum of the scores over the set of all rolls. */
  lemma {:induction false} TotalScoreIsSum(held: seq<int>, outcomes: seq<int>, numFreeDice: nat)
    requires Distinct(outcomes)
    ensures TotalScore(held, outcomes, numFreeDice) == SumScores(held, AllSequences(outcomes, numFreeDice))
    decreases numFreeDice, 0
  {
    if numFreeDice == 0 {
      var rolls := AllSequences(outcomes, 0);
      assert rolls == {[]};
      SumScoresRemove(held, rolls, []);
      assert rolls - {[]} == {};
      assert held + [] == held;
    } else {
      var rolls := AllSequences(outcomes, numFreeDice);
      var byFirst := PrefixedUpTo(outcomes, |outcomes|, AllSequences(outcomes, numFreeDice - 1));
      AllSequencesByFirst(outcomes, numFreeDice);
      FirstDieTotalIsSum(held, outcomes, numFreeDice - 1, |outcomes|);
      calc {
        SumScores(held, rolls);
        { assert rolls == byFirst; }
        SumScores(held, byFirst);
        FirstDieTotal(held, outcomes, numFreeDice - 1, |outcomes|);
        TotalScore(held, outcomes, numFreeDice);
      }
    }
  }

  /**
   * The expected value is the source's formula: the sum of the scores over
   * the set of all rolls of the free dice, divided by the number of rolls.
   */
  lemma MeanScoreOverRolls(heldDice: seq<int>, numDieSides: int, numFreeDice: nat)
    requires numDieSides >= 1 || numFreeDice == 0
    ensures var rolls := AllSequences(Outcomes(numDieSides), numFreeDice);
            |rolls| >= 1 &&
            MeanScore(heldDice, numDieSides, numFreeDice) == SumScores(heldDice, rolls) as real / |rolls| as real
  {
    RollsCard(numDieSides, numFreeDice);
    TotalScoreIsSum(heldDice, Outcomes(numDieSides), numFreeDice);
  }

  /**
   * The expected value as the source computes it: enumerate the rolls of
   * the free dice, add up the score of each completed hand and divide by
   * the number of rolls.
   */
  method ExpectedValue(heldDice: seq<int>, numDieSides: int, numFreeDice: nat) returns (e: real)
    requires numDieSides >= 1 || numFreeDice == 0
    ensures e == MeanScore(heldDice, numDieSides, numFreeDice)
    ensures numFreeDice == 0 ==> e == UpperScore(heldDice) as real
  {
    var outcomes := Outcomes(numDieSides);
    var sequences := GenAllSequences(outcomes, numFreeDice);
    var sumScores := 0;
    var todo := sequences;
    while todo != {}
      invariant todo <= sequences
      invariant sumScores == SumScores(heldDice, sequences - todo)
      decreases todo
    {
      ghost var some := Member(todo);
      var hand :| hand in todo;
      var handScore := Score(heldDice + hand);
      SumScoresStep(heldDice, sequences, todo, hand);
      sumScores := sumScores + handScore;
      todo := todo - {hand};
    }
    assert sequences - todo == sequences;
    MeanScoreOverRolls(heldDice, numDieSides, numFreeDice);
    e := sumScores as real / |sequences| as real;
    if numFreeDice == 0 {
      MeanScoreAllHeld(heldDice, numDieSides);
    }
  }

  /** Moving one roll from the rolls still to do to the rolls done adds its score to the running sum. */
  lemma SumScoresStep(held: seq<int>, rolls: set<seq<int>>, todo: set<seq<int>>, roll: seq<int>)
    requires todo <= rolls && roll in todo
    ensures SumScores(held, rolls - (todo - {roll})) == SumScores(held, rolls - todo) + UpperScore(held + roll)
  {
    SumScoresAdd(held, rolls - todo, roll);
    assert rolls - (todo - {roll}) == (rolls - todo) + {roll};
  }

  /** Holding every die leaves nothing to roll: the expected score is the score of the held dice. */
  lemma MeanScoreAllHeld(heldDice: seq<int>, numDieSides: int)
    ensures MeanScore(heldDice, numDieSides, 0) == UpperScore(heldDice) as real
  {
  }

  /** With no free dice the only roll is the empty one, and the source's mean is the score of the held dice. */
  lemma MeanScoreNoFreeDice(heldDice: seq<int>, numDieSides: int)
    ensures var rolls := AllSequences(Outcomes(numDieSides), 0);
            |rolls| == 1 && SumScores(heldDice, rolls) as real / |rolls| as real == UpperScore(heldDice) as real
  {
    var rolls := AllSequences(Outcomes(numDieSides), 0);
    assert rolls == {[]};
    SumScoresRemove(heldDice, rolls, []);
    assert rolls - {[]} == {};
    assert heldDice + [] == heldDice;
  }

  /** The expected value is the total score over all rolls divided by numDieSides^numFreeDice. */
  lemma MeanScoreFormula(heldDice: seq<int>, numDieSides: int, numFreeDice: nat)
    requires numDieSides >= 1
    ensures MeanScore(heldDice, numDieSides, numFreeDice)
         == SumScores(heldDice, AllSequences(Outcomes(numDieSides), numFreeDice)) as real
            / Pow(numDieSides, numFreeDice) as real
  {
    MeanScoreOverRolls(heldDice, numDieSides, numFreeDice);
    RollsCard(numDieSides, numFreeDice);
  }

  /** When every completed hand scores at least b, so does the sum, once per roll. */
  lemma {:induction false} SumScoresLowerBound(heldDice: seq<int>, rolls: set<seq<int>>, b: int)
    requires forall roll :: roll in rolls ==> UpperScore(heldDice + roll) >= b
    ensures SumScores(heldDice, rolls) >= b * |rolls|
    decreases rolls
  {
    if rolls != {} {
      var roll := Member(rolls);
      var rest := rolls - {roll};
      SumScoresRemove(heldDice, rolls, roll);
      SumScoresLowerBound(heldDice, rest, b);
      MulPred(b, |rolls|, |rest|);
    }
  }

  /** Rerolling at least one die of faces 1..numDieSides is worth at least 1 in expectation. */
  lemma MeanScoreAtLeastOne(heldDice: seq<int>, numDieSides: int, numFreeDice: nat)
    requires numDieSides >= 1 && numFreeDice >= 1
    ensures MeanScore(heldDice, numDieSides, numFreeDice) >= 1.0
  {
    var outcomes := Outcomes(numDieSides);
    var rolls := AllSequences(outcomes, numFreeDice);
    forall roll | roll in rolls ensures UpperScore(heldDice + roll) >= 1 {
      AllSequencesMembership(outcomes, numFreeDice, roll);
      var hand := heldDice + roll;
      var i := |hand| - 1;
      assert hand[i] == roll[numFreeDice - 1];
      OutcomesMembership(numDieSides, roll[numFreeDice - 1]);
      UpperScoreAtLeastDie(hand, i);
    }
    SumScoresLowerBound(heldDice, rolls, 1);
    MeanScoreOverRolls(heldDice, numDieSides, numFreeDice);
    QuotientAtLeastOne(SumScores(heldDice, rolls), |rolls|);
  }

  /** Arithmetic step of SumScoresLowerBound: b times one more roll is b more. */
  lemma MulPred(b: int, n: nat, m: nat)
    requires n == m + 1
    ensures b * n == b * m + b
  {
  }

  /** A total at least as large as a positive count gives a mean of at least 1. */
  lemma QuotientAtLeastOne(total: int, count: int)
    requires total >= count >= 1
    ensures total as real / count as real >= 1.0
  {
  }
}
