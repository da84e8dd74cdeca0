/** The Mind Reader engine: the state the game keeps between button presses and the
    operations `start`, `question`, `answer` and `result` that change or read it. */
module Engine {
  import opened SeqFacts
  import opened GameRules

  datatype Option<T> = None | Some(value: T)

  /** `Collections.shuffle`: the list comes back in some order chosen at random. Only
      the fact that it is a rearrangement of the same values is modelled. */
  method Shuffle(s: seq<int>) returns (r: seq<int>)
    ensures multiset(r) == multiset(s)
  {
    r :| multiset(r) == multiset(s);
  }

  class MindReader {
    /** The number of the question on screen; 0 before the first one. */
    var currentQuestion: nat
    /** The numbers the player may still be thinking of. */
    var possibleNumbers: seq<int>
    /** The numbers the player is known not to be thinking of. */
    var deniedNumbers: seq<int>
    /** The true subset of the current question: the candidates it asks about. */
    var currentQuestionNumbers: seq<int>
    /** What the current question shows when candidates are few: the true subset mixed
        with decoys from the denied numbers. Empty while candidates are many. */
    var currentQuestionNumbersWithPlaceholder: seq<int>

    /** A game that has not started: no question, no numbers. */
    ghost predicate NotStarted()
      reads this
    {
      && currentQuestion == 0
      && possibleNumbers == []
      && deniedNumbers == []
      && currentQuestionNumbers == []
      && currentQuestionNumbersWithPlaceholder == []
    }

    /** The numbers on screen for the current question: the true subset itself while
        there are more candidates than NumbersPerQuestion, the padded list otherwise. */
    function ShownNumbers(): seq<int>
      reads this
    {
      if |possibleNumbers| > NumbersPerQuestion then currentQuestionNumbers
      else currentQuestionNumbersWithPlaceholder
    }

    /** A question is on screen and waits for an answer: candidates and denied numbers
        partition 1..MaxNumber, at least two candidates are left, the true subset is the
        front of the candidate list, and the display is well formed. */
    ghost predicate Asking()
      reads this
    {
      && Partition(possibleNumbers, deniedNumbers)
      && 2 <= |possibleNumbers|
      && 1 <= currentQuestion
      && currentQuestionNumbers == possibleNumbers[..TakeCount(|possibleNumbers|)]
      && WellFormedDisplay(currentQuestionNumbers, ShownNumbers(), deniedNumbers)
      && (|possibleNumbers| > NumbersPerQuestion ==> currentQuestionNumbersWithPlaceholder == [])
    }

    /** The field initialisers: question 0 and four empty lists. */
    constructor ()
      ensures NotStarted()
    {
      currentQuestion := 0;
      possibleNumbers := [];
      deniedNumbers := [];
      currentQuestionNumbers := [];
      currentQuestionNumbersWithPlaceholder := [];
    }

    /** `start`: the candidates become 1..MaxNumber in random order, nothing is denied,
        and the first question is shown. */
    method Start()
      requires NotStarted()
      modifies this
      ensures Asking()
      ensures currentQuestion == 1
      ensures |possibleNumbers| == MaxNumber
      ensures NoDup(possibleNumbers) && Elements(possibleNumbers) == AllNumbers()
      ensures deniedNumbers == []
      ensures currentQuestionNumbers == possibleNumbers[..NumbersPerQuestion]
      ensures ShownNumbers() == currentQuestionNumbers
    {
      for i := 0 to MaxNumber
        invariant |possibleNumbers| == i && CountsUp(possibleNumbers)
        modifies this`possibleNumbers
      {
        possibleNumbers := possibleNumbers + [i + 1];
      }
      ghost var ordered := possibleNumbers;
      possibleNumbers := Shuffle(possibleNumbers);
      StartPartition(ordered, possibleNumbers);
      Question();
    }

    /** `question`: counts the question and builds it. With more than
        NumbersPerQuestion candidates the true subset is the first NumbersPerQuestion of
        them and is shown as it is. Otherwise the true subset is the first half (rounded
        down) of the candidates, padded with decoys and shown in random order. Either
        way exactly NumbersPerQuestion distinct numbers are shown. */
    method Question()
      requires Partition(possibleNumbers, deniedNumbers)
      requires 2 <= |possibleNumbers|
      requires currentQuestionNumbers == [] && currentQuestionNumbersWithPlaceholder == []
      modifies this
      ensures Asking()
      ensures currentQuestion == old(currentQuestion) + 1
      ensures possibleNumbers == old(possibleNumbers)
      ensures multiset(deniedNumbers) == multiset(old(deniedNumbers))
      ensures |possibleNumbers| > NumbersPerQuestion ==>
        && deniedNumbers == old(deniedNumbers)
        && currentQuestionNumbers == possibleNumbers[..NumbersPerQuestion]
        && ShownNumbers() == currentQuestionNumbers
      ensures |possibleNumbers| <= NumbersPerQuestion ==>
        && currentQuestionNumbers == possibleNumbers[..|possibleNumbers| / 2]
        && NumbersPerQuestion - |currentQuestionNumbers| <= |deniedNumbers|
        && multiset(ShownNumbers()) == multiset(currentQuestionNumbers
             + deniedNumbers[..NumbersPerQuestion - |currentQuestionNumbers|])
    {
      currentQuestion := currentQuestion + 1;
      if |possibleNumbers| > NumbersPerQuestion {
        AskAboutMany();
      } else {
        DecoysAvailable(possibleNumbers, deniedNumbers);
        AskAboutFew();
        Permutation(deniedNumbers, old(deniedNumbers));
      }
    }

    /** The branch of `question` for more than NumbersPerQuestion candidates: the first
        NumbersPerQuestion candidates are copied into the true subset, which is what the
        question shows. */
    method AskAboutMany()
      requires Partition(possibleNumbers, deniedNumbers)
      requires |possibleNumbers| > NumbersPerQuestion
      requires currentQuestionNumbers == []
      modifies this`currentQuestionNumbers
      ensures currentQuestionNumbers == possibleNumbers[..NumbersPerQuestion]
      ensures WellFormedDisplay(currentQuestionNumbers, currentQuestionNumbers, deniedNumbers)
    {
      for i := 0 to NumbersPerQuestion
        invariant currentQuestionNumbers == possibleNumbers[..i]
      {
        currentQuestionNumbers := currentQuestionNumbers + [possibleNumbers[i]];
      }
      LargeQuestionDisplay(possibleNumbers, deniedNumbers);
    }

    /** The branch of `question` for at most NumbersPerQuestion candidates: the first half
        (rounded down) of the candidates is copied into the true subset and the display
        list; the denied list is reshuffled and its first NumbersPerQuestion - take
        entries are added to the display list as decoys; the display list is shuffled. */
    method AskAboutFew()
      requires Separate(possibleNumbers, deniedNumbers)
      requires 2 <= |possibleNumbers| <= NumbersPerQuestion
      requires NumbersPerQuestion - TakeCount(|possibleNumbers|) <= |deniedNumbers|
      requires currentQuestionNumbers == [] && currentQuestionNumbersWithPlaceholder == []
      modifies this`currentQuestionNumbers, this`currentQuestionNumbersWithPlaceholder,
        this`deniedNumbers
      ensures currentQuestionNumbers == possibleNumbers[..TakeCount(|possibleNumbers|)]
      ensures multiset(deniedNumbers) == multiset(old(deniedNumbers))
      ensures Separate(possibleNumbers, deniedNumbers)
      ensures NumbersPerQuestion - |currentQuestionNumbers| <= |deniedNumbers|
      ensures multiset(currentQuestionNumbersWithPlaceholder) == multiset(currentQuestionNumbers
        + deniedNumbers[..NumbersPerQuestion - |currentQuestionNumbers|])
      ensures WellFormedDisplay(currentQuestionNumbers, currentQuestionNumbersWithPlaceholder,
        deniedNumbers)
    {
      var numbersToTake := |possibleNumbers| / 2;
      for i := 0 to numbersToTake
        invariant currentQuestionNumbers == possibleNumbers[..i]
        invariant currentQuestionNumbersWithPlaceholder == possibleNumbers[..i]
        modifies this`currentQuestionNumbers, this`currentQuestionNumbersWithPlaceholder
      {
        var n := possibleNumbers[i];
        currentQuestionNumbers := currentQuestionNumbers + [n];
        currentQuestionNumbersWithPlaceholder := currentQuestionNumbersWithPlaceholder + [n];
      }
      deniedNumbers := Shuffle(deniedNumbers);
      Permutation(deniedNumbers, old(deniedNumbers));
      var placeholderNumbersToTake := NumbersPerQuestion - numbersToTake;
      for i := 0 to placeholderNumbersToTake
        invariant currentQuestionNumbersWithPlaceholder
          == currentQuestionNumbers + deniedNumbers[..i]
        modifies this`currentQuestionNumbersWithPlaceholder
      {
        currentQuestionNumbersWithPlaceholder
          := currentQuestionNumbersWithPlaceholder + [deniedNumbers[i]];
      }
      assert |currentQuestionNumbers| == numbersToTake;
      ghost var padded := currentQuestionNumbersWithPlaceholder;
      assert padded == currentQuestionNumbers
        + deniedNumbers[..NumbersPerQuestion - |currentQuestionNumbers|];
      currentQuestionNumbersWithPlaceholder := Shuffle(currentQuestionNumbersWithPlaceholder);
      assert multiset(currentQuestionNumbersWithPlaceholder) == multiset(padded);
      SmallQuestionDisplay(possibleNumbers, deniedNumbers, currentQuestionNumbersWithPlaceholder);
    }

    /** The "yes" branch of `answer`: the candidates become the true subset in random
        order, and the denied list is rebuilt as every other number of 1..MaxNumber,
        in random order. */
    method AnswerYes()
      requires NoDup(currentQuestionNumbers) && Elements(currentQuestionNumbers) <= AllNumbers()
      modifies this`possibleNumbers, this`deniedNumbers
      ensures multiset(possibleNumbers) == multiset(currentQuestionNumbers)
      ensures NoDup(deniedNumbers)
      ensures forall x :: x in deniedNumbers <==> x in AllNumbers() && x !in currentQuestionNumbers
      ensures Partition(possibleNumbers, deniedNumbers)
    {
      possibleNumbers := [];
      deniedNumbers := [];
      for i := 0 to |currentQuestionNumbers|
        invariant possibleNumbers == currentQuestionNumbers[..i]
        modifies this`possibleNumbers
      {
        possibleNumbers := possibleNumbers + [currentQuestionNumbers[i]];
      }
      assert currentQuestionNumbers[..|currentQuestionNumbers|] == currentQuestionNumbers;
      possibleNumbers := Shuffle(possibleNumbers);
      Permutation(possibleNumbers, currentQuestionNumbers);
      for i := 0 to MaxNumber
        invariant NoDup(deniedNumbers)
        invariant forall x :: x in deniedNumbers <==> 1 <= x <= i && x !in possibleNumbers
        modifies this`deniedNumbers
      {
        var number := i + 1;
        if number in possibleNumbers {
          continue;
        }
        NoDupConcat(deniedNumbers, [number]);
        deniedNumbers := deniedNumbers + [number];
      }
      var complement := deniedNumbers;
      deniedNumbers := Shuffle(deniedNumbers);
      Permutation(deniedNumbers, complement);
      YesAnswerPartition(possibleNumbers, currentQuestionNumbers, deniedNumbers);
    }

    /** The "no" branch of `answer`: the first entry of the candidate list is removed once
        per number of the true subset, and the true subset is appended to the denied list. */
    method AnswerNo()
      requires |currentQuestionNumbers| <= |possibleNumbers|
      modifies this`possibleNumbers, this`deniedNumbers
      ensures possibleNumbers == old(possibleNumbers)[|currentQuestionNumbers|..]
      ensures deniedNumbers == old(deniedNumbers) + currentQuestionNumbers
    {
      for i := 0 to |currentQuestionNumbers|
        invariant possibleNumbers == old(possibleNumbers)[i..]
        modifies this`possibleNumbers
      {
        possibleNumbers := possibleNumbers[1..];
      }
      for i := 0 to |currentQuestionNumbers|
        invariant deniedNumbers == old(deniedNumbers) + currentQuestionNumbers[..i]
        modifies this`deniedNumbers
      {
        deniedNumbers := deniedNumbers + [currentQuestionNumbers[i]];
      }
      assert currentQuestionNumbers[..|currentQuestionNumbers|] == currentQuestionNumbers;
    }

    /** `answer`: applies the player's answer to the current question. If one candidate
        is left the game ends and reports it; otherwise the question lists are cleared and
        the next question is shown. Every answer keeps the partition and strictly shrinks
        the candidates without emptying them; a candidate that agrees with the answer (in
        the true subset exactly when the answer is yes) stays a candidate. */
    method Answer(answer: bool) returns (result: Option<int>)
      requires Asking()
      modifies this
      ensures Partition(possibleNumbers, deniedNumbers)
      ensures var size, take := old(|possibleNumbers|), TakeCount(old(|possibleNumbers|));
        |possibleNumbers| == (if answer then take else size - take)
      ensures 1 <= |possibleNumbers| < old(|possibleNumbers|)
      ensures answer ==> multiset(possibleNumbers) == multiset(old(currentQuestionNumbers))
      ensures !answer ==> possibleNumbers == old(possibleNumbers)[|old(currentQuestionNumbers)|..]
      ensures !answer ==> (multiset(deniedNumbers)
        == multiset(old(deniedNumbers)) + multiset(old(currentQuestionNumbers)))
      ensures forall t :: (t in old(possibleNumbers) && (answer <==> t in old(currentQuestionNumbers))
        ==> t in possibleNumbers)
      ensures result.Some? <==> |possibleNumbers| == 1
      ensures result.Some? ==> (possibleNumbers == [result.value]
        && currentQuestion == old(currentQuestion)
        && currentQuestionNumbers == old(currentQuestionNumbers)
        && currentQuestionNumbersWithPlaceholder == old(currentQuestionNumbersWithPlaceholder))
      ensures result.None? ==> (Asking() && currentQuestion == old(currentQuestion) + 1)
    {
      ghost var take := |currentQuestionNumbers|;
      NoDupSplit(possibleNumbers, take);
      if answer {
        AnswerYes();
        assert |possibleNumbers| == |multiset(possibleNumbers)| == take;
      } else {
        AnswerNo();
        NoAnswerPartition(old(possibleNumbers), old(deniedNumbers), take);
      }
      forall t | t in old(possibleNumbers) && (answer <==> t in old(currentQuestionNumbers))
        ensures t in possibleNumbers
      {
        ConsistentAnswerKeepsTarget(old(possibleNumbers), take, answer, t);
        if answer {
          assert t in multiset(possibleNumbers);
        }
      }
      if |possibleNumbers| == 1 {
        result := Some(Result());
      } else {
        currentQuestionNumbers := [];
        currentQuestionNumbersWithPlaceholder := [];
        Question();
        result := None;
      }
    }

    /** `result`: the guess is the first candidate; once a single candidate is left, it
        is that candidate. */
    function Result(): (guess: int)
      reads this
      requires 1 <= |possibleNumbers|
      ensures guess in possibleNumbers
      ensures |possibleNumbers| == 1 ==> possibleNumbers == [guess]
    {
      possibleNumbers[0]
    }
  }

  /** A player who looks at the numbers on screen answers the question about the true
      subset: the decoys mixed into a small question are all denied numbers, so they
      never change the honest answer of a player whose number is still a candidate. */
  lemma ShownAnswerIsTrue(m: MindReader, t: int)
    requires m.Asking() && t in m.possibleNumbers
    ensures t in m.ShownNumbers() <==> t in m.currentQuestionNumbers
  {
    assert t in Elements(m.possibleNumbers);
    assert t !in Elements(m.deniedNumbers);
    if t in m.currentQuestionNumbers {
      assert t in Elements(m.currentQuestionNumbers);
    }
  }

  /** A whole game against a player who thinks of `target` and answers every question
      truthfully about the numbers shown: start, then answer until the engine reports a
      result. The engine reports the target, after at most 8 questions. */
  method PlayConsistently(target: int) returns (guess: int, questions: nat)
    requires Guessable(target)
    ensures guess == target
    ensures 1 <= questions <= 8
  {
    var game := new MindReader();
    game.Start();
    assert target in Elements(game.possibleNumbers);
    MaxQuestions();
    var outcome := None;
    while outcome.None?
      invariant fresh(game)
      invariant target in game.possibleNumbers
      invariant outcome.None? ==> (game.Asking()
        && game.currentQuestion + QuestionsLeft(|game.possibleNumbers|) <= 9)
      invariant outcome.Some? ==> (game.possibleNumbers == [outcome.value]
        && 1 <= game.currentQuestion <= 8)
      decreases |game.possibleNumbers|, outcome.None?
    {
      AnswerUsesUpAQuestion(|game.possibleNumbers|);
      ghost var size := |game.possibleNumbers|;
      ShownAnswerIsTrue(game, target);
      outcome := game.Answer(target in game.ShownNumbers());
      assert QuestionsLeft(size) >= 1;
    }
    guess := outcome.value;
    questions := game.currentQuestion;
  }
}
