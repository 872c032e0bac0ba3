/**
 * The holds a player can choose: every sub-collection of the hand
 * (all_subsets_recur, all_subsets), each sorted, with equal ones merged
 * (gen_all_holds).
 */
module Holds {
  import opened Basics

  /** The sequence read back to front. */
  function Reversed(s: seq<int>): (r: seq<int>)
    ensures |r| == |s| && multiset(r) == multiset(s)
  {
    if |s| == 0 then []
    else
      assert s == [s[0]] + s[1..];
      Reversed(s[1..]) + [s[0]]
  }

  /** The elements of `items` whose position is marked in `mask`, in their original order. */
  function Select(items: seq<int>, mask: seq<bool>): (r: seq<int>)
    requires |mask| == |items|
    ensures multiset(r) <= multiset(items)
  {
    if |items| == 0 then []
    else
      assert items == [items[0]] + items[1..];
      (if mask[0] then [items[0]] else []) + Select(items[1..], mask[1..])
  }

  /**
   * The leaves of the include/exclude recursion, left (include) branch first:
   * the current subset extended, at the front, by each choice of the elements
   * still left.
   */
  function Subsets(left: seq<int>, currentSubset: seq<int>): seq<seq<int>>
    decreases |left|
  {
    if |left| == 0 then [currentSubset]
    else Subsets(left[1..], [left[0]] + currentSubset) + Subsets(left[1..], currentSubset)
  }

  /** The list the recursion appends its leaves to (the accumulator). */
  class SubsetList {
    var items: seq<seq<int>>

    constructor ()
      ensures items == []
    {
      items := [];
    }

    /** Adds a subset at the end of the list. */
    method Append(subset: seq<int>)
      modifies this
      ensures items == old(items) + [subset]
    {
      items := items + [subset];
    }
  }

  /**
   * The recursion of the source: at a leaf, append the current subset to the
   * accumulator; otherwise first recurse with the next element put in front
   * of the current subset, then without it.
   */
  method AllSubsetsRecur(left: seq<int>, currentSubset: seq<int>, accumulator: SubsetList)
    modifies accumulator
    ensures accumulator.items == old(accumulator.items) + Subsets(left, currentSubset)
    decreases |left|
  {
    if |left| == 0 {
      accumulator.Append(currentSubset);
    } else {
      AllSubsetsRecur(left[1..], [left[0]] + currentSubset, accumulator);
      AllSubsetsRecur(left[1..], currentSubset, accumulator);
    }
  }

  /** All subsets of `items`, one per include/exclude choice for each element. */
  method AllSubsets(items: seq<int>) returns (r: seq<seq<int>>)
    ensures r == Subsets(items, [])
    ensures |r| == Pow(2, |items|)
  {
    var accumulator := new SubsetList();
    AllSubsetsRecur(items, [], accumulator);
    r := accumulator.items;
    SubsetsCount(items, []);
  }

  /** The recursion has 2^|left| leaves. */
  lemma {:induction false} SubsetsCount(left: seq<int>, currentSubset: seq<int>)
    ensures |Subsets(left, currentSubset)| == Pow(2, |left|)
    decreases |left|
  {
    if |left| > 0 {
      SubsetsCount(left[1..], [left[0]] + currentSubset);
      SubsetsCount(left[1..], currentSubset);
    }
  }

  /**
   * The elements of `left` marked in `mask`, last marked first: the order in
   * which the recursion puts them in front of the current subset.
   */
  function Chosen(left: seq<int>, mask: seq<bool>): seq<int>
    requires |mask| == |left|
  {
    if |left| == 0 then []
    else Chosen(left[1..], mask[1..]) + (if mask[0] then [left[0]] else [])
  }

  /** Every leaf is the current subset preceded by the chosen elements of some mask. */
  lemma {:induction false} SubsetsSound(left: seq<int>, currentSubset: seq<int>, m: seq<int>) returns (mask: seq<bool>)
    requires m in Subsets(left, currentSubset)
    ensures |mask| == |left| && m == Chosen(left, mask) + currentSubset
    decreases |left|
  {
    if |left| == 0 {
      mask := [];
    } else {
      var rest, first := left[1..], left[0];
      var mask';
      if m in Subsets(rest, [first] + currentSubset) {
        mask' := SubsetsSound(rest, [first] + currentSubset, m);
        mask := [true] + mask';
      } else {
        mask' := SubsetsSound(rest, currentSubset, m);
        mask := [false] + mask';
      }
      assert mask[1..] == mask';
    }
  }

  /** Every mask gives a leaf. */
  lemma {:induction false} SubsetsComplete(left: seq<int>, currentSubset: seq<int>, mask: seq<bool>)
    requires |mask| == |left|
    ensures Chosen(left, mask) + currentSubset in Subsets(left, currentSubset)
    decreases |left|
  {
    if |left| > 0 {
      var rest, first, mask' := left[1..], left[0], mask[1..];
      if mask[0] {
        SubsetsComplete(rest, [first] + currentSubset, mask');
        assert Chosen(left, mask) + currentSubset == Chosen(rest, mask') + ([first] + currentSubset);
      } else {
        SubsetsComplete(rest, currentSubset, mask');
        assert Chosen(left, mask) + currentSubset == Chosen(rest, mask') + currentSubset;
      }
    } else {
      assert Chosen(left, mask) + currentSubset == currentSubset;
    }
  }

  /** The chosen elements are those of the mask in reverse input order, so they form a sub-multiset of `left`. */
  lemma {:induction false} ChosenIsReversedSelection(left: seq<int>, mask: seq<bool>)
    requires |mask| == |left|
    ensures Chosen(left, mask) == Reversed(Select(left, mask))
    ensures multiset(Chosen(left, mask)) <= multiset(left)
    decreases |left|
  {
    if |left| > 0 {
      var rest, first, mask' := left[1..], left[0], mask[1..];
      ChosenIsReversedSelection(rest, mask');
      if mask[0] {
        assert Select(left, mask) == [first] + Select(rest, mask');
        ReversedCons(first, Select(rest, mask'));
      } else {
        assert Select(left, mask) == Select(rest, mask');
      }
    }
  }

  /** Reversing puts the first element last. */
  lemma ReversedCons(x: int, s: seq<int>)
    ensures Reversed([x] + s) == Reversed(s) + [x]
  {
    assert ([x] + s)[1..] == s;
  }

  /** The leaves are exactly the current subset preceded by the chosen elements of a mask. */
  lemma SubsetsMembership(left: seq<int>, currentSubset: seq<int>, m: seq<int>)
    ensures m in Subsets(left, currentSubset)
        <==> exists mask :: |mask| == |left| && m == Chosen(left, mask) + currentSubset
  {
    if m in Subsets(left, currentSubset) {
      var mask := SubsetsSound(left, currentSubset, m);
    }
    if exists mask :: |mask| == |left| && m == Chosen(left, mask) + currentSubset {
      var mask :| |mask| == |left| && m == Chosen(left, mask) + currentSubset;
      SubsetsComplete(left, currentSubset, mask);
    }
  }

  /** The values never decrease from left to right. */
  predicate IsAscending(s: seq<int>)
  {
    forall i, j :: 0 <= i < j < |s| ==> s[i] <= s[j]
  }

  /** Inserts x before the first element not smaller than it. */
  function Insert(x: int, s: seq<int>): (r: seq<int>)
    ensures multiset(r) == multiset(s) + multiset{x}
  {
    if |s| == 0 then [x]
    else if x <= s[0] then [x] + s
    else
      assert s == [s[0]] + s[1..];
      [s[0]] + Insert(x, s[1..])
  }

  /** Inserting into an ascending sequence keeps it ascending. */
  lemma {:induction false} InsertAscending(x: int, s: seq<int>)
    requires IsAscending(s)
    ensures IsAscending(Insert(x, s))
    decreases |s|
  {
    if |s| > 0 && x > s[0] {
      var tail := Insert(x, s[1..]);
      InsertAscending(x, s[1..]);
      forall k | 0 <= k < |tail| ensures s[0] <= tail[k] {
        assert tail[k] in multiset(tail);
        if tail[k] != x {
          assert tail[k] in multiset(s[1..]);
          var i :| 0 <= i < |s[1..]| && s[1..][i] == tail[k];
          assert s[1 + i] == tail[k];
        }
      }
    }
  }

  /** The values of s in ascending order (Python's sorted). */
  function SortAscending(s: seq<int>): (r: seq<int>)
    ensures IsAscending(r) && multiset(r) == multiset(s)
  {
    if |s| == 0 then []
    else
      assert s == [s[0]] + s[1..];
      InsertAscending(s[0], SortAscending(s[1..]));
      Insert(s[0], SortAscending(s[1..]))
  }

  /** There is only one ascending arrangement of a multiset of values. */
  lemma {:induction false} AscendingUnique(a: seq<int>, b: seq<int>)
    requires IsAscending(a) && IsAscending(b) && multiset(a) == multiset(b)
    ensures a == b
    decreases |a|
  {
    if |a| > 0 {
      assert |b| == |multiset(b)| == |multiset(a)| == |a|;
      assert a[0] in multiset(b) && b[0] in multiset(a);
      assert a[0] >= b[0] && b[0] >= a[0];
      assert a == [a[0]] + a[1..] && b == [b[0]] + b[1..];
      assert multiset(a[1..]) == multiset(a) - multiset{a[0]};
      assert multiset(b[1..]) == multiset(b) - multiset{b[0]};
      AscendingUnique(a[1..], b[1..]);
    } else {
      assert |b| == |multiset(b)| == 0;
    }
  }

  /** The holds of a hand: every subset of its dice, sorted, each distinct one once. */
  function AllHolds(hand: seq<int>): set<seq<int>>
  {
    set subset | subset in Subsets(hand, []) :: SortAscending(subset)
  }

  /**
   * The holds as the source builds them: enumerate the subsets with
   * AllSubsets, sort each one and collect the sorted ones into a set.
   */
  method GenAllHolds(hand: seq<int>) returns (holds: set<seq<int>>)
    ensures holds == AllHolds(hand)
  {
    var subsets := AllSubsets(hand);
    var tupleSubsets := seq(|subsets|, i requires 0 <= i < |subsets| => SortAscending(subsets[i]));
    holds := set t | t in tupleSubsets;
    forall t | t in holds ensures t in AllHolds(hand) {
      var i :| 0 <= i < |tupleSubsets| && tupleSubsets[i] == t;
      assert subsets[i] in Subsets(hand, []);
    }
    forall t | t in AllHolds(hand) ensures t in holds {
      var subset :| subset in Subsets(hand, []) && t == SortAscending(subset);
      var i :| 0 <= i < |subsets| && subsets[i] == subset;
      assert tupleSubsets[i] == t;
    }
  }

  /** A mask that picks a given sub-multiset of the items. */
  lemma {:induction false} MaskFor(items: seq<int>, picked: multiset<int>) returns (mask: seq<bool>)
    requires picked <= multiset(items)
    ensures |mask| == |items| && multiset(Chosen(items, mask)) == picked
    decreases |items|
  {
    if |items| == 0 {
      mask := [];
    } else {
      var first, rest := items[0], items[1..];
      assert items == [first] + rest;
      assert multiset(items) == multiset{first} + multiset(rest);
      var mask';
      if first in picked {
        mask' := MaskFor(rest, picked - multiset{first});
        mask := [true] + mask';
        assert mask[1..] == mask';
        assert Chosen(items, mask) == Chosen(rest, mask') + [first];
      } else {
        mask' := MaskFor(rest, picked);
        mask := [false] + mask';
        assert mask[1..] == mask';
        assert Chosen(items, mask) == Chosen(rest, mask');
      }
    }
  }

  /** The holds are exactly the ascending sequences whose dice are a sub-multiset of the hand. */
  lemma HoldsMembership(hand: seq<int>, hold: seq<int>)
    ensures hold in AllHolds(hand) <==> IsAscending(hold) && multiset(hold) <= multiset(hand)
  {
    if hold in AllHolds(hand) {
      var subset :| subset in Subsets(hand, []) && hold == SortAscending(subset);
      var mask := SubsetsSound(hand, [], subset);
      ChosenIsReversedSelection(hand, mask);
      assert subset == Chosen(hand, mask);
    }
    if IsAscending(hold) && multiset(hold) <= multiset(hand) {
      var mask := MaskFor(hand, multiset(hold));
      var subset := Chosen(hand, mask);
      SubsetsComplete(hand, [], mask);
      assert subset + [] == subset;
      AscendingUnique(SortAscending(subset), hold);
    }
  }

  /** Holding nothing and holding the whole (sorted) hand are both among the holds. */
  lemma HoldsIncludeNoneAndAll(hand: seq<int>)
    ensures [] in AllHolds(hand)
    ensures SortAscending(hand) in AllHolds(hand)
  {
    HoldsMembership(hand, []);
    HoldsMembership(hand, SortAscending(hand));
  }

  /** Each hold is sorted and uses only dice of the hand, so it holds at most all of them. */
  lemma HoldsWithinHand(hand: seq<int>, hold: seq<int>)
    requires hold in AllHolds(hand)
    ensures IsAscending(hold) && multiset(hold) <= multiset(hand) && |hold| <= |hand|
  {
    HoldsMembership(hand, hold);
    var extra := multiset(hand) - multiset(hold);
    assert multiset(hand) == multiset(hold) + extra;
    assert |multiset(hand)| == |multiset(hold)| + |extra|;
    assert |hold| == |multiset(hold)| && |hand| == |multiset(hand)|;
  }

  /** The hold that a mask picks: the chosen dice, sorted. */
  function HoldOf(hand: seq<int>, mask: seq<bool>): seq<int>
    requires |mask| == |hand|
  {
    SortAscending(Chosen(hand, mask))
  }

  /** All include/exclude masks over n positions. */
  function Masks(n: nat): (r: set<seq<bool>>)
    ensures forall mask :: mask in r ==> |mask| == n
  {
    if n == 0 then {[]}
    else (set m | m in Masks(n - 1) :: [true] + m) + (set m | m in Masks(n - 1) :: [false] + m)
  }

  /** Every sequence of n booleans is a mask over n positions. */
  lemma {:induction false} MasksComplete(n: nat, mask: seq<bool>)
    requires |mask| == n
    ensures mask in Masks(n)
  {
    if n > 0 {
      var rest := mask[1..];
      MasksComplete(n - 1, rest);
      assert mask == [mask[0]] + rest;
      if mask[0] {
        assert mask in set m | m in Masks(n - 1) :: [true] + m;
      } else {
        assert mask in set m | m in Masks(n - 1) :: [false] + m;
      }
    }
  }

  /** Putting the same value in front of every mask of M keeps them apart. */
  lemma {:induction false} PrependCard(b: bool, M: set<seq<bool>>)
    ensures |set m | m in M :: [b] + m| == |M|
    decreases M
  {
    if M != {} {
      var y := Member(M);
      var rest := M - {y};
      PrependCard(b, rest);
      var img := set m | m in M :: [b] + m;
      var imgRest := set m | m in rest :: [b] + m;
      assert img == imgRest + {[b] + y};
      forall m | m in rest ensures [b] + m != [b] + y {
        assert ([b] + m)[1..] == m && ([b] + y)[1..] == y;
      }
    }
  }

  /** Each mask over n > 0 positions starts with true or with false, followed by a mask over n - 1. */
  lemma MasksDouble(n: nat)
    requires n > 0
    ensures |Masks(n)| == 2 * |Masks(n - 1)|
  {
    var M := Masks(n - 1);
    var withFirst := set m | m in M :: [true] + m;
    var withoutFirst := set m | m in M :: [false] + m;
    assert Masks(n) == withFirst + withoutFirst;
    PrependCard(true, M);
    PrependCard(false, M);
    PrependDisjoint(M);
    assert |withFirst + withoutFirst| == |withFirst| + |withoutFirst|;
  }

  /** Masks starting with true are never masks starting with false. */
  lemma PrependDisjoint(M: set<seq<bool>>)
    ensures (set m | m in M :: [true] + m) !! (set m | m in M :: [false] + m)
  {
    var withFirst := set m | m in M :: [true] + m;
    var withoutFirst := set m | m in M :: [false] + m;
    forall m | m in withFirst ensures m !in withoutFirst {
      assert m[0];
    }
  }

  /** There are 2^n masks over n positions. */
  lemma {:induction false} MasksCard(n: nat)
    ensures |Masks(n)| == Pow(2, n)
  {
    if n > 0 {
      MasksCard(n - 1);
      MasksDouble(n);
    }
  }

  /** In a hand of distinct dice, a die is among the chosen ones exactly once if its mask entry is set, otherwise not at all. */
  lemma {:induction false} ChosenCount(left: seq<int>, mask: seq<bool>, i: nat)
    requires Distinct(left) && |mask| == |left| && i < |left|
    ensures multiset(Chosen(left, mask))[left[i]] == if mask[i] then 1 else 0
    decreases |left|
  {
    var rest, mask' := left[1..], mask[1..];
    var extra := if mask[0] then [left[0]] else [];
    assert multiset(Chosen(left, mask)) == multiset(Chosen(rest, mask')) + multiset(extra);
    if i == 0 {
      ChosenIsReversedSelection(rest, mask');
      assert left[0] !in rest;
      assert multiset(rest)[left[0]] == 0;
    } else {
      assert Distinct(rest);
      ChosenCount(rest, mask', i - 1);
      assert rest[i - 1] == left[i] && mask'[i - 1] == mask[i];
      assert left[0] != left[i];
    }
  }

  /** In a hand of distinct dice, the hold determines the mask that picks it. */
  lemma HoldOfInjective(hand: seq<int>, m1: seq<bool>, m2: seq<bool>)
    requires Distinct(hand) && |m1| == |hand| && |m2| == |hand|
    requires HoldOf(hand, m1) == HoldOf(hand, m2)
    ensures m1 == m2
  {
    assert multiset(Chosen(hand, m1)) == multiset(Chosen(hand, m2));
    forall i | 0 <= i < |hand| ensures m1[i] == m2[i] {
      ChosenCount(hand, m1, i);
      ChosenCount(hand, m2, i);
    }
  }

  /** The holds are the holds picked by the masks over the hand's positions. */
  lemma HoldsByMasks(hand: seq<int>)
    ensures AllHolds(hand) == set mask | mask in Masks(|hand|) :: HoldOf(hand, mask)
  {
    var byMasks := set mask | mask in Masks(|hand|) :: HoldOf(hand, mask);
    forall t | t in AllHolds(hand) ensures t in byMasks {
      var subset :| subset in Subsets(hand, []) && t == SortAscending(subset);
      var mask := SubsetsSound(hand, [], subset);
      assert subset == Chosen(hand, mask);
      MasksComplete(|hand|, mask);
    }
    forall t | t in byMasks ensures t in AllHolds(hand) {
      var mask :| mask in Masks(|hand|) && t == HoldOf(hand, mask);
      SubsetsComplete(hand, [], mask);
      assert Chosen(hand, mask) + [] == Chosen(hand, mask);
    }
  }

  /** Picking holds by masks from a set of masks over a distinct hand loses none of them. */
  lemma {:induction false} HoldsOfMasksCard(hand: seq<int>, M: set<seq<bool>>)
    requires Distinct(hand)
    requires forall mask :: mask in M ==> |mask| == |hand|
    ensures |set mask | mask in M :: HoldOf(hand, mask)| == |M|
    decreases M
  {
    if M != {} {
      var y := Member(M);
      var rest := M - {y};
      HoldsOfMasksCard(hand, rest);
      var img := set mask | mask in M :: HoldOf(hand, mask);
      var imgRest := set mask | mask in rest :: HoldOf(hand, mask);
      assert img == imgRest + {HoldOf(hand, y)};
      forall m | m in rest ensures HoldOf(hand, m) != HoldOf(hand, y) {
        if HoldOf(hand, m) == HoldOf(hand, y) {
          HoldOfInjective(hand, m, y);
        }
      }
    }
  }

  /** A hand of n distinct dice has exactly 2^n holds: merging equal sorted subsets merges none. */
  lemma HoldsCardDistinct(hand: seq<int>)
    requires Distinct(hand)
    ensures |AllHolds(hand)| == Pow(2, |hand|)
  {
    HoldsByMasks(hand);
    HoldsOfMasksCard(hand, Masks(|hand|));
    MasksCard(|hand|);
  }
}
