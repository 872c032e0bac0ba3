/**
 * The upper-section score of a hand: the largest, over the faces in the
 * hand, of the face value times the number of dice showing it (score).
 */
module Scoring {
  import opened Basics

  /** What a face is worth when every die showing it is counted: face * count. */
  function Tally(hand: seq<int>, face: int): int
  {
    face * multiset(hand)[face]
  }

  /** `r` is the largest tally of a face in the nonempty hand. */
  predicate IsMaxTally(hand: seq<int>, r: int)
  {
    && (exists j :: 0 <= j < |hand| && r == Tally(hand, hand[j]))
    && (forall j :: 0 <= j < |hand| ==> Tally(hand, hand[j]) <= r)
  }

  /** The largest tally among the faces hand[0], ..., hand[k-1]. */
  function MaxTally(hand: seq<int>, k: nat): (r: int)
    requires 1 <= k <= |hand|
    ensures exists j :: 0 <= j < k && r == Tally(hand, hand[j])
    ensures forall j :: 0 <= j < k ==> Tally(hand, hand[j]) <= r
  {
    if k == 1 then Tally(hand, hand[0])
    else
      var m := MaxTally(hand, k - 1);
      var t := Tally(hand, hand[k - 1]);
      if m < t then t else m
  }

  /** The upper-section score: 0 for the empty hand, otherwise the largest tally of a face in it. */
  function UpperScore(hand: seq<int>): (r: int)
    ensures |hand| == 0 ==> r == 0
    ensures |hand| > 0 ==> IsMaxTally(hand, r)
  {
    if |hand| == 0 then 0 else MaxTally(hand, |hand|)
  }


  /** `scores` maps exactly the faces of `dice` to their tallies in `dice`. */
  ghost predicate TallyTable(scores: map<int, int>, dice: seq<int>)
  {
    && (forall i :: 0 <= i < |dice| ==> dice[i] in scores)
    && (forall v :: v in scores ==> v in dice)
    && (forall v :: v in scores ==> scores[v] == Tally(dice, v))
  }

  /**
   * The score as the source computes it: a dictionary from each face to the
   * running sum of the dice showing it, then the largest value in it.
   */
  method Score(hand: seq<int>) returns (r: int)
    ensures |hand| == 0 ==> r == 0
    ensures |hand| > 0 ==> IsMaxTally(hand, r)
    ensures r == UpperScore(hand)
  {
    if |hand| == 0 {
      return 0;
    }
    var scores: map<int, int> := map[];
    for i := 0 to |hand|
      invariant TallyTable(scores, hand[..i])
    {
      var die := hand[i];
      TallyTableAppend(scores, hand[..i], die);
      assert hand[..i + 1] == hand[..i] + [die];
      if die in scores {
        scores := scores[die := scores[die] + die];
      } else {
        scores := scores[die := die];
      }
    }
    assert hand[..|hand|] == hand;
    assert hand[0] in scores;
    r := MaxValue(scores);
    TalliesMax(hand, scores, r);
    MaxTallyUnique(hand, r, UpperScore(hand));
  }

  /** The largest value stored in a nonempty dictionary (Python's max over its values). */
  method MaxValue(scores: map<int, int>) returns (r: int)
    requires scores != map[]
    ensures r in scores.Values
    ensures forall v :: v in scores ==> scores[v] <= r
  {
    var keys := scores.Keys;
    ghost var some := Member(keys);
    var first :| first in keys;
    r := scores[first];
    keys := keys - {first};
    while keys != {}
      invariant keys <= scores.Keys
      invariant r in scores.Values
      invariant forall v :: v in scores && v !in keys ==> scores[v] <= r
      decreases keys
    {
      ghost var some := Member(keys);
      var k :| k in keys;
      if scores[k] > r {
        r := scores[k];
      }
      keys := keys - {k};
    }
  }

  /** Counting one more die adds its face to the tally of that face only. */
  lemma TallyTableAppend(scores: map<int, int>, dice: seq<int>, die: int)
    requires TallyTable(scores, dice)
    ensures TallyTable(if die in scores then scores[die := scores[die] + die] else scores[die := die], dice + [die])
  {
    var next := if die in scores then scores[die := scores[die] + die] else scores[die := die];
    assert multiset(dice + [die]) == multiset(dice) + multiset{die};
    forall v ensures (v in next <==> v in dice + [die]) && (v in next ==> next[v] == Tally(dice + [die], v)) {
      assert v in dice + [die] <==> v in dice || v == die;
      if v == die && die !in scores {
        assert die !in dice;
        assert multiset(dice)[die] == 0;
      }
    }
  }

  /** The largest value of the table of tallies is the largest tally of a face in the hand. */
  lemma TalliesMax(hand: seq<int>, scores: map<int, int>, r: int)
    requires TallyTable(scores, hand)
    requires r in scores.Values
    requires forall v :: v in scores ==> scores[v] <= r
    ensures IsMaxTally(hand, r)
  {
    var v := KeyOf(scores, r);
    assert v in hand;
    var j :| 0 <= j < |hand| && hand[j] == v;
    assert r == Tally(hand, hand[j]);
    forall i | 0 <= i < |hand| ensures Tally(hand, hand[i]) <= r {
      assert hand[i] in scores;
    }
  }

  /** The largest tally is determined by the hand. */
  lemma MaxTallyUnique(hand: seq<int>, r: int, s: int)
    requires IsMaxTally(hand, r) && IsMaxTally(hand, s)
    ensures r == s
  {
  }

  /** The score depends only on which dice are in the hand, not on their order. */
  lemma UpperScorePermutation(a: seq<int>, b: seq<int>)
    requires multiset(a) == multiset(b)
    ensures UpperScore(a) == UpperScore(b)
  {
    if |a| > 0 {
      assert |b| == |multiset(b)| == |multiset(a)| == |a|;
      var r := UpperScore(a);
      var j :| 0 <= j < |a| && r == Tally(a, a[j]);
      assert a[j] in multiset(b);
      var k :| 0 <= k < |b| && b[k] == a[j];
      assert r == Tally(b, b[k]);
      forall i | 0 <= i < |b| ensures Tally(b, b[i]) <= r {
        assert b[i] in multiset(a);
        var m :| 0 <= m < |a| && a[m] == b[i];
        assert Tally(b, b[i]) == Tally(a, a[m]);
      }
      MaxTallyUnique(b, r, UpperScore(b));
    }
  }

  /** A die showing a face of value at least 0 scores at least its face: the face alone is a tally. */
  lemma UpperScoreAtLeastDie(hand: seq<int>, i: nat)
    requires i < |hand| && hand[i] >= 0
    ensures UpperScore(hand) >= hand[i]
  {
    assert hand[i] in multiset(hand);
    var c := multiset(hand)[hand[i]];
    assert c >= 1;
    assert hand[i] * c >= hand[i] * 1;
    assert Tally(hand, hand[i]) == hand[i] * c;
  }
}
