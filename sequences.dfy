/**
 * The enumeration of every outcome of rolling a number of dice: all
 * sequences of a given length over an alphabet of outcomes
 * (gen_all_sequences).
 */
module Sequences {
  import opened Basics

  /** Every sequence of S extended by one more outcome drawn from `outcomes`. */
  function Extend(S: set<seq<int>>, outcomes: seq<int>): set<seq<int>>
  {
    set s, x | s in S && x in outcomes :: s + [x]
  }

  /** The set of all sequences of length `length` over `outcomes`, built one position at a time. */
  function AllSequences(outcomes: seq<int>, length: nat): set<seq<int>>
  {
    if length == 0 then {[]} else Extend(AllSequences(outcomes, length - 1), outcomes)
  }

  /** `s` is a roll of `length` dice: it has that length and shows only outcomes. */
  predicate IsRoll(s: seq<int>, outcomes: seq<int>, length: nat)
  {
    |s| == length && forall i :: 0 <= i < |s| ==> s[i] in outcomes
  }

  /**
   * The enumeration as the source computes it: start from the set holding
   * the empty sequence and, `length` times, replace the set by all of its
   * members extended by each outcome in turn.
   */
  method GenAllSequences(outcomes: seq<int>, length: nat) returns (answerSet: set<seq<int>>)
    ensures answerSet == AllSequences(outcomes, length)
  {
    answerSet := {[]};
    for idx := 0 to length
      invariant answerSet == AllSequences(outcomes, idx)
    {
      var tempSet: set<seq<int>> := {};
      var todo := answerSet;
      while todo != {}
        invariant todo <= answerSet
        invariant tempSet == Extend(answerSet - todo, outcomes)
        decreases todo
      {
        var partialSequence :| partialSequence in todo;
        ghost var before := tempSet;
        for j := 0 to |outcomes|
          invariant tempSet == before + set k | 0 <= k < j :: partialSequence + [outcomes[k]]
        {
          assert (set k | 0 <= k < j + 1 :: partialSequence + [outcomes[k]])
              == (set k | 0 <= k < j :: partialSequence + [outcomes[k]]) + {partialSequence + [outcomes[j]]};
          tempSet := tempSet + {partialSequence + [outcomes[j]]};
        }
        ExtendAddOne(answerSet - todo, partialSequence, outcomes);
        assert tempSet == Extend((answerSet - todo) + {partialSequence}, outcomes);
        assert answerSet - (todo - {partialSequence}) == (answerSet - todo) + {partialSequence};
        todo := todo - {partialSequence};
      }
      assert answerSet - todo == answerSet;
      answerSet := tempSet;
    }
  }

  /** Extending one more sequence p adds exactly p followed by each outcome. */
  lemma ExtendAddOne(D: set<seq<int>>, p: seq<int>, outcomes: seq<int>)
    ensures Extend(D + {p}, outcomes)
         == Extend(D, outcomes) + set k | 0 <= k < |outcomes| :: p + [outcomes[k]]
  {
    var lhs := Extend(D + {p}, outcomes);
    var rhs := Extend(D, outcomes) + set k | 0 <= k < |outcomes| :: p + [outcomes[k]];
    forall t | t in lhs ensures t in rhs {
      var s, x :| s in D + {p} && x in outcomes && t == s + [x];
      if s != p {
        assert s in D;
        assert t in Extend(D, outcomes);
      } else {
        var k :| 0 <= k < |outcomes| && outcomes[k] == x;
        assert t == p + [outcomes[k]];
      }
    }
    forall t | t in rhs ensures t in lhs {
      if t in Extend(D, outcomes) {
        var s, x :| s in D && x in outcomes && t == s + [x];
        assert s in D + {p};
        assert t in lhs;
      } else {
        var k :| 0 <= k < |outcomes| && t == p + [outcomes[k]];
        var x := outcomes[k];
        assert p in D + {p} && x in outcomes;
        assert p + [x] in lhs;
      }
    }
  }

  /** The members of AllSequences(outcomes, length) are exactly the rolls of `length` dice. */
  lemma {:induction false} AllSequencesMembership(outcomes: seq<int>, length: nat, s: seq<int>)
    ensures s in AllSequences(outcomes, length) <==> IsRoll(s, outcomes, length)
  {
    if length > 0 {
      if s in AllSequences(outcomes, length) {
        var p, x :| p in AllSequences(outcomes, length - 1) && x in outcomes && s == p + [x];
        AllSequencesMembership(outcomes, length - 1, p);
        forall i | 0 <= i < |s| ensures s[i] in outcomes {
          if i < |p| {
            assert s[i] == p[i];
          }
        }
      }
      if IsRoll(s, outcomes, length) {
        var p, x := s[..length - 1], s[length - 1];
        AllSequencesMembership(outcomes, length - 1, p);
        assert p in AllSequences(outcomes, length - 1);
        assert x in outcomes;
        assert s == p + [x];
      }
    }
  }

  /** Appending the same outcome to two sequences keeps them apart. */
  lemma AppendInjective(s: seq<int>, t: seq<int>, x: int)
    ensures s + [x] == t + [x] ==> s == t
  {
    if s + [x] == t + [x] {
      assert s == (s + [x])[..|s|];
      assert t == (t + [x])[..|t|];
    }
  }

  /** Appending the same outcome to every member of S is one-to-one. */
  lemma {:induction false} AppendCard(S: set<seq<int>>, x: int)
    ensures |set s | s in S :: s + [x]| == |S|
    decreases |S|
  {
    if S != {} {
      var y :| y in S;
      var rest := S - {y};
      AppendCard(rest, x);
      var img := set s | s in S :: s + [x];
      var imgRest := set s | s in rest :: s + [x];
      assert img == imgRest + {y + [x]};
      forall s | s in rest ensures s + [x] != y + [x] {
        AppendInjective(s, y, x);
      }
      assert y + [x] !in imgRest;
    }
  }

  /** Extending by all outcomes is extending by all but the last, plus appending the last. */
  lemma ExtendSplitLast(S: set<seq<int>>, outcomes: seq<int>)
    requires |outcomes| > 0
    ensures Extend(S, outcomes)
         == Extend(S, outcomes[..|outcomes| - 1]) + set s | s in S :: s + [outcomes[|outcomes| - 1]]
  {
    var n := |outcomes| - 1;
    var front, x := outcomes[..n], outcomes[n];
    forall t | t in Extend(S, outcomes)
      ensures t in Extend(S, front) || t in set s | s in S :: s + [x]
    {
      var s, y :| s in S && y in outcomes && t == s + [y];
      if y != x {
        var k :| 0 <= k < |outcomes| && outcomes[k] == y;
        assert y == front[k];
      }
    }
    forall t | t in Extend(S, front) ensures t in Extend(S, outcomes) {
      var s, y :| s in S && y in front && t == s + [y];
      var k :| 0 <= k < n && front[k] == y;
      assert y == outcomes[k];
    }
    assert x in outcomes;
  }

  /** An outcome missing from `front` cannot end a sequence of Extend(S, front). */
  lemma ExtendLastDisjoint(S: set<seq<int>>, front: seq<int>, x: int)
    requires x !in front
    ensures Extend(S, front) !! set s | s in S :: s + [x]
  {
    forall t | t in Extend(S, front) ensures t !in set s | s in S :: s + [x] {
      var s, y :| s in S && y in front && t == s + [y];
      assert t[|t| - 1] == y;
    }
  }

  /** The size of a disjoint union is the sum of the sizes. */
  lemma DisjointUnionCard(U: set<seq<int>>, A: set<seq<int>>, B: set<seq<int>>)
    requires U == A + B && A !! B
    ensures |U| == |A| + |B|
  {
  }

  /** Arithmetic step of ExtendCard: a * n plus one more a is a * (n + 1). */
  lemma MulSucc(a: nat, n: nat, total: nat, part: nat)
    requires part == a * n && total == part + a
    ensures total == a * (n + 1)
  {
  }

  /** Dropping the last of distinct outcomes leaves distinct outcomes without it. */
  lemma DistinctFront(outcomes: seq<int>)
    requires Distinct(outcomes) && |outcomes| > 0
    ensures Distinct(outcomes[..|outcomes| - 1])
    ensures outcomes[|outcomes| - 1] !in outcomes[..|outcomes| - 1]
  {
  }

  /** For distinct outcomes, each member of S gives rise to |outcomes| new sequences. */
  lemma {:induction false} ExtendCard(S: set<seq<int>>, outcomes: seq<int>)
    requires Distinct(outcomes)
    ensures |Extend(S, outcomes)| == |S| * |outcomes|
    decreases |outcomes|
  {
    if |outcomes| > 0 {
      var n := |outcomes| - 1;
      var front, x := outcomes[..n], outcomes[n];
      DistinctFront(outcomes);
      ExtendCard(S, front);
      AppendCard(S, x);
      ExtendSplitLast(S, outcomes);
      ExtendLastDisjoint(S, front, x);
      DisjointUnionCard(Extend(S, outcomes), Extend(S, front), set s | s in S :: s + [x]);
      MulSucc(|S|, n, |Extend(S, outcomes)|, |Extend(S, front)|);
    }
  }

  /** For distinct outcomes there are |outcomes|^length rolls of `length` dice. */
  lemma {:induction false} AllSequencesCard(outcomes: seq<int>, length: nat)
    requires Distinct(outcomes)
    ensures |AllSequences(outcomes, length)| == Pow(|outcomes|, length)
  {
    if length > 0 {
      AllSequencesCard(outcomes, length - 1);
      ExtendCard(AllSequences(outcomes, length - 1), outcomes);
    }
  }
}
