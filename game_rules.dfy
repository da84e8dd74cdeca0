/** The rules of the Mind Reader game as functions on values: the constants, how many
    candidates a question asks about, the partition of 1..MaxNumber into candidate and
    denied numbers, what a well-formed question shows, and the facts that make the
    engine's list manipulations safe and sound. */
module GameRules {
  import opened SeqFacts

  /** MAX_NUMBER: the player thinks of a number from 1 to MaxNumber. */
  const MaxNumber: nat := 100

  /** NUMBERS_PER_QUESTION: every question shows exactly this many numbers. */
  const NumbersPerQuestion: nat := 25

  /** The player may think of `n`. */
  predicate Guessable(n: int)
  {
    1 <= n <= MaxNumber
  }

  /** Every number the player may think of: 1..MaxNumber. (The bounds are spelled out
      beside `Guessable` so that the set is visibly finite.) */
  function AllNumbers(): (all: set<int>)
    ensures forall x :: x in all <==> Guessable(x)
  {
    set n | 1 <= n <= MaxNumber && Guessable(n)
  }

  /** How many candidates a question with `size` candidates asks about: all
      NumbersPerQuestion when there are more candidates than that, otherwise half of
      them rounded down (`(int) (size * 0.5)`). Either answer strictly shrinks a
      candidate list of two or more without emptying it. */
  function TakeCount(size: nat): (take: nat)
    ensures take <= size && take <= NumbersPerQuestion
    ensures 2 <= size ==> 1 <= take < size
  {
    if size > NumbersPerQuestion then NumbersPerQuestion else size / 2
  }

  /** The candidate list and the denied list are duplicate-free and share no number. */
  predicate Separate(possible: seq<int>, denied: seq<int>)
  {
    && NoDup(possible)
    && NoDup(denied)
    && Elements(possible) !! Elements(denied)
  }

  /** The candidate list and the denied list are duplicate-free, share no number, and
      together hold exactly the numbers 1..MaxNumber. */
  predicate Partition(possible: seq<int>, denied: seq<int>)
  {
    && Separate(possible, denied)
    && Elements(possible) + Elements(denied) == AllNumbers()
  }

  /** A question shows exactly NumbersPerQuestion distinct numbers: every number of the
      true subset, and otherwise only denied numbers (decoys). */
  predicate WellFormedDisplay(subset: seq<int>, shown: seq<int>, denied: seq<int>)
  {
    && |shown| == NumbersPerQuestion
    && NoDup(shown)
    && Elements(subset) <= Elements(shown)
    && forall x :: x in shown && x !in subset ==> x in denied
  }

  /** The list `start` fills in before shuffling: 1, 2, ..., |s| in this order. */
  predicate CountsUp(s: seq<int>)
  {
    forall k :: 0 <= k < |s| ==> s[k] == k + 1
  }

  /** A list that counts up from 1 holds each of the numbers 1..|s| exactly once. */
  lemma {:induction false} CountsUpElements(s: seq<int>)
    requires CountsUp(s)
    ensures NoDup(s)
    ensures forall x :: x in s <==> 1 <= x <= |s|
  {
    if |s| > 0 {
      var init := s[..|s| - 1];
      assert s == init + [|s|];
      CountsUpElements(init);
      NoDupConcat(init, [|s|]);
    }
  }

  /** There are exactly MaxNumber numbers to guess from. */
  lemma {:induction false} AllNumbersCount()
    ensures |AllNumbers()| == MaxNumber
  {
    var s := seq(MaxNumber, k => k + 1);
    CountsUpElements(s);
    assert Elements(s) == AllNumbers();
    NoDupCardinality(s);
  }

  /** The two lists of a partition have MaxNumber entries between them. */
  lemma PartitionSizes(possible: seq<int>, denied: seq<int>)
    requires Partition(possible, denied)
    ensures |possible| + |denied| == MaxNumber
  {
    NoDupCardinality(possible);
    NoDupCardinality(denied);
    AllNumbersCount();
    assert |Elements(possible) + Elements(denied)| == |Elements(possible)| + |Elements(denied)|;
  }

  /** The decoy draw stays in bounds: whenever the small-candidate regime runs, the
      denied list holds at least the NumbersPerQuestion - take decoys it needs (with
      MaxNumber = 100 and NumbersPerQuestion = 25 it holds at least 75). */
  lemma DecoysAvailable(possible: seq<int>, denied: seq<int>)
    requires Partition(possible, denied)
    requires |possible| <= NumbersPerQuestion
    ensures |denied| >= MaxNumber - NumbersPerQuestion
    ensures NumbersPerQuestion - TakeCount(|possible|) <= |denied|
  {
    PartitionSizes(possible, denied);
  }

  /** After `start`: a shuffle of 1..MaxNumber and an empty denied list form a partition. */
  lemma StartPartition(ordered: seq<int>, possible: seq<int>)
    requires CountsUp(ordered) && |ordered| == MaxNumber
    requires multiset(possible) == multiset(ordered)
    ensures Partition(possible, [])
    ensures |possible| == MaxNumber
  {
    CountsUpElements(ordered);
    Permutation(possible, ordered);
    assert |possible| == |multiset(possible)| == |multiset(ordered)|;
    assert Elements(possible) == AllNumbers();
    assert Elements([]) == {};
  }

  /** The "no" branch: dropping the first `take` candidates and appending them to the
      denied list keeps the partition, and removes exactly those numbers by value. */
  lemma NoAnswerPartition(possible: seq<int>, denied: seq<int>, take: nat)
    requires Partition(possible, denied)
    requires take <= |possible|
    ensures Partition(possible[take..], denied + possible[..take])
    ensures Elements(possible[take..]) == Elements(possible) - Elements(possible[..take])
  {
    NoDupSplit(possible, take);
    NoDupConcat(denied, possible[..take]);
    assert Elements(denied + possible[..take]) == Elements(denied) + Elements(possible[..take]);
  }

  /** The "yes" branch: a shuffle of the true subset, together with any arrangement of the
      numbers of 1..MaxNumber outside it, forms a partition. */
  lemma YesAnswerPartition(possible: seq<int>, subset: seq<int>, denied: seq<int>)
    requires NoDup(subset) && Elements(subset) <= AllNumbers()
    requires multiset(possible) == multiset(subset)
    requires NoDup(denied)
    requires forall x :: x in denied <==> x in AllNumbers() && x !in subset
    ensures Partition(possible, denied)
  {
    Permutation(possible, subset);
  }

  /** The large-candidate regime shows the first NumbersPerQuestion candidates and
      nothing else. */
  lemma LargeQuestionDisplay(possible: seq<int>, denied: seq<int>)
    requires Partition(possible, denied)
    requires |possible| > NumbersPerQuestion
    ensures WellFormedDisplay(possible[..NumbersPerQuestion], possible[..NumbersPerQuestion], denied)
  {
    NoDupSplit(possible, NumbersPerQuestion);
  }

  /** The small-candidate regime: the first `take` candidates plus the first
      NumbersPerQuestion - take entries of the denied list, in any order, are
      NumbersPerQuestion distinct numbers, so no number is shown twice. */
  lemma SmallQuestionDisplay(possible: seq<int>, denied: seq<int>, shown: seq<int>)
    requires Separate(possible, denied)
    requires |possible| <= NumbersPerQuestion
    requires NumbersPerQuestion - TakeCount(|possible|) <= |denied|
    requires multiset(shown)
      == multiset(possible[..TakeCount(|possible|)] + denied[..NumbersPerQuestion - TakeCount(|possible|)])
    ensures WellFormedDisplay(possible[..TakeCount(|possible|)], shown, denied)
  {
    var take := TakeCount(|possible|);
    var subset, decoys := possible[..take], denied[..NumbersPerQuestion - take];
    NoDupSplit(possible, take);
    NoDupSplit(denied, NumbersPerQuestion - take);
    MergedDisplay(subset, decoys, shown);
  }

  /** Two disjoint duplicate-free lists, merged in any order, give a duplicate-free list
      of their combined length holding the values of both. */
  lemma MergedDisplay(subset: seq<int>, decoys: seq<int>, shown: seq<int>)
    requires NoDup(subset) && NoDup(decoys) && Elements(subset) !! Elements(decoys)
    requires multiset(shown) == multiset(subset + decoys)
    ensures NoDup(shown) && |shown| == |subset| + |decoys|
    ensures Elements(shown) == Elements(subset) + Elements(decoys)
  {
    NoDupConcat(subset, decoys);
    Permutation(shown, subset + decoys);
    assert |shown| == |multiset(shown)| == |subset + decoys|;
    assert Elements(subset + decoys) == Elements(subset) + Elements(decoys);
  }

  /** Answering consistently with a target (yes exactly when the target is in the true
      subset): a "no" keeps the target among the candidates after the subset. */
  lemma ConsistentAnswerKeepsTarget(possible: seq<int>, take: nat, answer: bool, target: int)
    requires take <= |possible| && target in possible
    requires answer <==> target in possible[..take]
    ensures !answer ==> target in possible[take..]
  {
    assert possible == possible[..take] + possible[take..];
  }

  /** The ceiling of the base-2 logarithm of n: how many halvings bring n down to 1. */
  function Log2Ceil(n: nat): nat
  {
    if n <= 1 then 0 else 1 + Log2Ceil((n + 1) / 2)
  }

  /** How many more questions a game with `size` candidates can need at most:
      NumbersPerQuestion candidates are asked about per question until the small-candidate
      regime starts halving. */
  function QuestionsLeft(size: nat): nat
  {
    if size <= NumbersPerQuestion then Log2Ceil(size)
    else Log2Ceil(NumbersPerQuestion) + (size - 1) / NumbersPerQuestion
  }

  lemma {:induction false} Log2CeilMonotone(a: nat, b: nat)
    requires a <= b
    ensures Log2Ceil(a) <= Log2Ceil(b)
  {
    if a > 1 {
      Log2CeilMonotone((a + 1) / 2, (b + 1) / 2);
    }
  }

  /** Whichever way a question is answered, the bound on the questions still needed
      drops by at least one. */
  lemma AnswerUsesUpAQuestion(size: nat)
    requires 2 <= size
    ensures QuestionsLeft(TakeCount(size)) < QuestionsLeft(size)
    ensures QuestionsLeft(size - TakeCount(size)) < QuestionsLeft(size)
  {
    if size <= NumbersPerQuestion {
      Log2CeilMonotone(size / 2, (size + 1) / 2);
      assert size - size / 2 == (size + 1) / 2;
    } else if size - NumbersPerQuestion <= NumbersPerQuestion {
      Log2CeilMonotone(size - NumbersPerQuestion, NumbersPerQuestion);
    }
  }

  /** A game over 1..100 with 25 numbers per question ends after at most 8 questions. */
  lemma MaxQuestions()
    ensures QuestionsLeft(MaxNumber) == 8
  {
    assert Log2Ceil(NumbersPerQuestion) == 5;
  }
}
