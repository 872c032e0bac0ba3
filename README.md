# Yahtzee planner, modelled in Dafny

This project models the planner for a simplified Yahtzee in
`poc_yahtzee_template.py`. The player holds some dice, rerolls the rest
once, and scores only against the upper section of the card. The model
covers:

- the enumeration of every outcome of rolling a number of dice
  (`gen_all_sequences`);
- the upper-section score of a hand (`score`): the largest, over the
  faces present, of face × number of dice showing it;
- the expected score of holding some dice and rerolling the others
  (`expected_value`);
- the enumeration of all subsets of a hand through a recursive helper
  that appends to a shared accumulator list (`all_subsets_recur`,
  `all_subsets`), and the set of sorted holds built from them
  (`gen_all_holds`);
- the planner (`strategy`), which tries every hold and keeps the one with
  the largest expected score.

Modules, one per file, in dependency order:

- `Basics` (`basics.dfy`): powers, and helper lemmas that pick a member of
  a nonempty set or a key of a map value.
- `Sequences` (`sequences.dfy`): `gen_all_sequences` as the method
  `GenAllSequences`, proved against the set function `AllSequences`.
- `Scoring` (`scoring.dfy`): `score` as the method `Score`. It runs the
  source's dictionary loop and a maximum over its values. It is proved
  against the function `UpperScore`.
- `Expectation` (`expectation.dfy`): `expected_value` as the method
  `ExpectedValue`. It enumerates the rolls, adds up their scores and
  divides. It is proved against `MeanScore`, a recursive reference
  definition in which the first free die shows each face in turn.
  `MeanScoreOverRolls` proves that this reference equals the source's
  formula: the sum over the set of rolls divided by the number of rolls.
- `Holds` (`holds.dfy`): the accumulator list as the class `SubsetList`.
  `all_subsets_recur` and `all_subsets` are methods that append to it,
  proved against the function `Subsets`. `gen_all_holds` is the method
  `GenAllHolds`. It calls `AllSubsets`, sorts each subset and collects
  the results into a set. It is proved equal to the set function
  `AllHolds`.
- `Planner` (`planner.dfy`): `strategy` as the method `Strategy`. Its loop
  over the holds is the method `BestHold`.

Hands and holds are `seq<int>`; Python tuples and lists both become
sequences. The source returns a float; the model computes the expected
value as an exact `real`.

## Model

| member | source | states |
|---|---|---|
| Sequences.GenAllSequences | poc_yahtzee_template.py:10-25 | the loop over lengths, partial sequences and outcomes returns exactly AllSequences(outcomes, length): the empty sequence extended `length` times by every outcome |
| Sequences.AllSequencesMembership | poc_yahtzee_template.py:16-25 | a sequence is enumerated if and only if it has the given length and every entry is one of the outcomes; for length 0 this is only the empty sequence |
| Sequences.AllSequencesCard | poc_yahtzee_template.py:16-25 | for distinct outcomes the enumeration has exactly (number of outcomes)^length members |
| Sequences.ExtendCard | poc_yahtzee_template.py:18-24 | one pass of the outer loop multiplies the number of sequences by the number of distinct outcomes |
| Sequences.ExtendAddOne | poc_yahtzee_template.py:19-23 | handling one more partial sequence adds exactly that sequence followed by each outcome |
| Scoring.Score | poc_yahtzee_template.py:28-47 | the empty hand scores 0; otherwise the result is the largest face × count over the faces in the hand, and it equals UpperScore(hand) |
| Scoring.MaxValue | poc_yahtzee_template.py:47 | the maximum of a nonempty dictionary's values is one of the values and is at least every value |
| Scoring.UpperScore | poc_yahtzee_template.py:37-47 | 0 for the empty hand; otherwise some face in the hand attains it and no face's face × count exceeds it |
| Scoring.TallyTableAppend | poc_yahtzee_template.py:41-45 | after each die the dictionary maps exactly the faces seen so far to face × their count so far |
| Scoring.TalliesMax | poc_yahtzee_template.py:47 | the maximum of the dictionary's values is the largest face × count in the hand |
| Scoring.UpperScorePermutation | poc_yahtzee_template.py:40-47 | the score depends only on the multiset of dice, not on their order |
| Scoring.UpperScoreAtLeastDie | poc_yahtzee_template.py:40-47 | the score is at least the value of any die whose value is not negative |
| Expectation.Outcomes | poc_yahtzee_template.py:62 | the faces 1..num_die_sides are num_die_sides distinct values, or none when num_die_sides < 1 |
| Expectation.OutcomesMembership | poc_yahtzee_template.py:62 | x is a face if and only if 1 <= x <= num_die_sides |
| Expectation.ExpectedValue | poc_yahtzee_template.py:50-65 | enumerating the rolls, adding the score of held dice plus each roll and dividing by the number of rolls yields MeanScore; with no free dice it yields the score of the held dice |
| Expectation.MeanScoreOverRolls | poc_yahtzee_template.py:62-65 | the reference expected value equals the sum of score(held + roll) over the set of rolls, divided by the number of rolls, which is at least 1 |
| Expectation.TotalScoreIsSum | poc_yahtzee_template.py:63-64 | for distinct faces, the recursive total (first die shows each face in turn) equals the sum over the set of all rolls |
| Expectation.FirstDieTotalIsSum | poc_yahtzee_template.py:63-64 | the rolls whose first die shows one of the first j faces add up to the recursive partial total |
| Expectation.AllSequencesByFirst | poc_yahtzee_template.py:63 | the rolls of n > 0 dice are exactly one face followed by a roll of n - 1 dice |
| Expectation.SumScores | poc_yahtzee_template.py:64 | the sum of score(held_dice + roll) over a set of rolls, each roll counted once; the lemmas below show the order of summation does not matter |
| Expectation.SumScoresRemove | poc_yahtzee_template.py:64 | the sum over the rolls does not depend on the order in which they are visited: any roll can be taken out first |
| Expectation.SumScoresUnion | poc_yahtzee_template.py:64 | the sum over two disjoint sets of rolls is the sum of the two sums |
| Expectation.SumScoresPrefixed | poc_yahtzee_template.py:64 | rolling face x first and then r scores the same, summed over r, as holding x and rolling r |
| Expectation.NoRollsWithoutFaces | poc_yahtzee_template.py:62-65 | with num_die_sides < 1 and at least one free die there is no roll, so the source's division is by zero |
| Expectation.MeanScoreNoFreeDice | poc_yahtzee_template.py:62-65 | with no free dice the only roll is the empty one and the mean is score(held_dice) |
| Expectation.MeanScoreFormula | poc_yahtzee_template.py:62-65 | the expected value is the total score over all rolls divided by num_die_sides^num_free_dice |
| Expectation.SumScoresLowerBound | poc_yahtzee_template.py:64 | when every completed hand scores at least b, the sum is at least b times the number of rolls |
| Expectation.MeanScoreAtLeastOne | poc_yahtzee_template.py:62-65 | rerolling at least one die with faces 1..num_die_sides is worth at least 1 in expectation |
| Holds.SubsetList.Append | poc_yahtzee_template.py:75 | appending to the accumulator adds the subset at its end and keeps everything before |
| Holds.AllSubsetsRecur | poc_yahtzee_template.py:68-80 | the accumulator grows only by appending, and what is appended is exactly Subsets(left, current_subset): first all subsets with left[0], then all without |
| Holds.AllSubsets | poc_yahtzee_template.py:82-89 | the result is Subsets(items, []) and has 2^n entries for n items |
| Holds.SubsetsCount | poc_yahtzee_template.py:73-80 | the recursion produces 2^n subsets for n dice left |
| Holds.SubsetsSound | poc_yahtzee_template.py:73-80 | every subset produced is the dice chosen by some mask, taken in reverse order, in front of current_subset |
| Holds.SubsetsComplete | poc_yahtzee_template.py:73-80 | for every mask, the dice it chooses, in reverse order, in front of current_subset, are produced |
| Holds.SubsetsMembership | poc_yahtzee_template.py:73-80 | a sequence is produced if and only if some mask chooses it in front of current_subset |
| Holds.ChosenIsReversedSelection | poc_yahtzee_template.py:78 | the dice a mask chooses come out in reverse order of the hand and form a sub-multiset of it |
| Holds.Reversed | poc_yahtzee_template.py:78 | reversing keeps the length and the multiset of dice |
| Holds.Select | poc_yahtzee_template.py:77-80 | the dice a mask selects form a sub-multiset of the items |
| Holds.SortAscending | poc_yahtzee_template.py:101 | sorting yields an ascending sequence with the same multiset of dice |
| Holds.AscendingUnique | poc_yahtzee_template.py:101-102 | two ascending sequences with the same multiset are equal, so holds that differ only in order collapse into one tuple of the set |
| Holds.AllHolds | poc_yahtzee_template.py:100-102 | each leaf of the subset recursion, sorted, collected into a set |
| Holds.GenAllHolds | poc_yahtzee_template.py:92-102 | calling AllSubsets, sorting every subset and collecting the sorted subsets into a set gives exactly AllHolds(hand) |
| Holds.HoldsMembership | poc_yahtzee_template.py:92-102 | a hold is produced if and only if it is ascending and its dice are a sub-multiset of the hand |
| Holds.HoldsIncludeNoneAndAll | poc_yahtzee_template.py:92-102 | holding nothing and holding the whole hand, sorted, are both among the holds |
| Holds.HoldsWithinHand | poc_yahtzee_template.py:92-102 | every hold is sorted, is a sub-multiset of the hand and is no longer than the hand |
| Holds.HoldsCardDistinct | poc_yahtzee_template.py:92-102 | a hand of n distinct dice has exactly 2^n holds: merging equal sorted subsets merges none of them |
| Holds.HoldOfInjective | poc_yahtzee_template.py:100-102 | in a hand of distinct dice, two masks that give the same sorted hold are the same mask |
| Holds.ChosenCount | poc_yahtzee_template.py:73-80 | in a hand of distinct dice, each die occurs among the chosen dice once if its mask entry is set and otherwise not at all |
| Holds.HoldsByMasks | poc_yahtzee_template.py:92-102 | the holds are exactly the sorted dice picked by the masks over the hand's positions |
| Holds.MasksCard | poc_yahtzee_template.py:73-80 | there are 2^n include/exclude choices for n dice |
| Planner.BestHold | poc_yahtzee_template.py:116-123 | starting from (0.0, ()), the loop keeps a pair that is either the start or a visited hold with its expected value, and that value is at least every visited hold's expected value |
| Planner.Strategy | poc_yahtzee_template.py:105-123 | the holds come from GenAllHolds; the returned hold is one of them, the returned score is its expected value, no hold has a larger expected value, and the score is at least score(hand) |
| Planner.SearchLeftStart | poc_yahtzee_template.py:116-121 | with dice in the hand, holding nothing is worth at least 1, so the strict comparison has replaced the starting pair (0.0, ()) |
| Planner.BestHoldIsBest | poc_yahtzee_template.py:105-123 | the search's result is a hold with its own expected value, and that value is at least that of holding the whole hand, which is score(hand) |

## Left out

- The `codeskulptor` import and `set_timeout` call (lines 7-8): they only tune the browser runtime.
- `run_example` and its `print` (lines 126-136), and the commented-out test-suite hook (lines 139-140): they are I/O.
- Floating point: `1.0 * sum_scores / len(sequences)` is computed as an exact `real`, so IEEE rounding, and any ordering of nearly equal expected values that rounding could change, is not modelled.
- Expectation.ExpectedValue: requires `numDieSides >= 1 || numFreeDice == 0`. Outside that, the source divides by `len(sequences) == 0` and raises ZeroDivisionError. NoRollsWithoutFaces shows that the set of rolls is then empty.
- Planner.Strategy: requires `numDieSides >= 1 || |hand| == 0`. Outside that, the hold of no dice has free dice but no faces, so the source raises ZeroDivisionError.
- Planner.Strategy: which hold is returned among holds of equal expected value is not stated. Python iterates a set in an unspecified order, and the model picks from the set arbitrarily.
- Set iteration in `gen_all_sequences`, `expected_value` and `strategy` is modelled as picking an arbitrary remaining member until none remain. The iteration order of the source's sets is not modelled.
- Python's distinction between tuples and lists (`tuple(sorted(subset))`, `list(partial_sequence)`) is not modelled; both are sequences.
- Python 2's `dict.has_key` and `max` over `dict.values()` are modelled by map membership and by the method `MaxValue`.
- Sequences.GenAllSequences, Expectation.ExpectedValue: the length and the number of free dice are `nat`. In Python, `range` of a negative number is empty, so a negative length gives `{()}` and a negative number of free dice gives `score(held_dice)`. `strategy` never passes a negative number, so the model does not cover that case.
