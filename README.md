# Mind Reader: a Dafny model of the number-guessing engine

Mind Reader is a "think of a number" game. The player picks a number from 1 to
`MAX_NUMBER` (100). Each question shows `NUMBERS_PER_QUESTION` (25) numbers and asks
whether the player's number is among them. Every answer narrows the list of
candidates. When one candidate is left, the game reports it.

The model covers the game logic of `MindReader.java`: the fields of the game
(`currentQuestion`, `possibleNumbers`, `deniedNumbers`, `currentQuestionNumbers`,
`currentQuestionNumbersWithPlaceholder`) and the methods `start`, `question`,
`answer` and `result`, with the Swing calls stripped out.

- `seq_facts.dfy`, module `SeqFacts`: duplicate-free integer lists (`NoDup`,
  `Elements`) and facts about splitting, joining and rearranging them.
- `game_rules.dfy`, module `GameRules`: the two constants, the number of candidates a
  question asks about (`TakeCount`), the partition of 1..100 into candidate and denied
  numbers, what a well-formed question shows, and the lemmas the engine relies on.
  These cover the decoy bound, partition preservation by each answer, soundness
  against a consistently answering player, and a bound on the number of questions.
- `engine.dfy`, module `Engine`: class `MindReader`. Its fields are the Java fields,
  each list a `seq<int>` that the methods reassign the way the Java code calls
  `add`, `remove(0)` and `clear`. The counted `for` loops of the source are `for` loops
  with invariants. `Collections.shuffle` is `Shuffle`, which returns some
  rearrangement of its argument. `PlayConsistently` plays a whole game against a
  player who answers truthfully.

Key guarantees:

- Partition: after `start` and after every `answer`, the candidate list and the
  denied list are duplicate-free and disjoint, and their union is exactly 1..100.
- Shrinking: every answer strictly shrinks the candidates and leaves at least one.
  The new size is 25, ⌊p/2⌋, p − 25 or ⌈p/2⌉.
- Display: every question shows exactly 25 distinct numbers.
- Decoy bound: in the small-candidate regime the denied list holds at least 75 numbers,
  so the decoy draw `deniedNumbers.get(i)` stays in range.
- Soundness: with truthful answers about the numbers shown, the target stays a
  candidate, the reported number is the target, and the game asks at most 8 questions.

How the code behaves where a reader might expect otherwise:

- The code raises no error when `answer` is called before `start` or after the
  result, or when `start` is called twice. The model excludes these calls by
  preconditions (`Asking()`, `NotStarted()`).
- The code has no separate path to the result for a game over a single number; with
  the fixed constants the first question always has 100 candidates.
- On a "no" answer the code removes index 0 of the candidates once per number of the
  true subset. `GameRules.NoAnswerPartition` proves that this removes exactly those
  numbers by value.
- In the large-candidate regime the code leaves `currentQuestionNumbersWithPlaceholder`
  empty and shows `currentQuestionNumbers`. `MindReader.ShownNumbers` picks the
  displayed list the same way.

## Model

| member | source | states |
|---|---|---|
| `Engine.MindReader.constructor` | MindReader.java:31-44 | a new game has question counter 0 and four empty lists |
| `Engine.MindReader.Start` | MindReader.java:112-129 | the candidates become a duplicate-free arrangement of exactly 1..100 and nothing is denied; the first question is built, so the counter is 1 and the true subset is the first 25 candidates |
| `Engine.MindReader.Question` | MindReader.java:135-228 | the counter grows by exactly one and the candidates are unchanged; with more than 25 candidates the true subset is their first 25, shown as they are; otherwise it is their first ⌊p/2⌋, and the display is a rearrangement of that subset plus 25 − ⌊p/2⌋ entries of the reshuffled denied list; either way the partition holds and the display is well formed |
| `Engine.MindReader.AskAboutMany` | MindReader.java:160-170 | the true subset is exactly the first 25 candidates in order, and as a display it is 25 distinct numbers |
| `Engine.MindReader.AskAboutFew` | MindReader.java:197-228 | the true subset is the first ⌊p/2⌋ candidates; the denied list keeps its numbers and holds enough decoys; the display is a rearrangement of the subset plus the first 25 − ⌊p/2⌋ denied numbers, and no number is shown twice |
| `Engine.MindReader.AnswerYes` | MindReader.java:265-300 | the candidates become a rearrangement of the true subset; the denied list is duplicate-free and holds exactly the numbers of 1..100 outside the subset; the partition holds |
| `Engine.MindReader.AnswerNo` | MindReader.java:301-322 | removing index 0 once per subset number leaves the candidates after the first take entries; the denied list grows by exactly the subset, in order |
| `Engine.MindReader.Answer` | MindReader.java:262-340 | keeps the partition; the new candidate count is take (yes) or p − take (no), at least 1 and below p; every candidate consistent with the answer survives; the game ends with a single candidate exactly when one is left, otherwise the next question is on screen and the counter grew by one; when the game ends the counter and both question lists are left as they were |
| `Engine.MindReader.Result` | MindReader.java:346-358 | the reported number is a candidate, and the only one once a single candidate is left |
| `Engine.Shuffle` | MindReader.java:124-125 | the shuffled list is a rearrangement of the input (same multiset) |
| `Engine.ShownAnswerIsTrue` | MindReader.java:197-253 | for a number still among the candidates, being on screen is the same as being in the true subset: the decoys never change an honest answer |
| `Engine.PlayConsistently` | MindReader.java:324-338 | a game whose player answers truthfully about the numbers on screen, for a target in 1..100, reports that target after between 1 and 8 questions |
| `GameRules.TakeCount` | MindReader.java:159-200 | the true subset size is at most the candidate count and at most 25; with at least 2 candidates both it and the rest are non-empty |
| `GameRules.CountsUpElements` | MindReader.java:118-122 | the list filled by `start` holds each of 1..n exactly once |
| `GameRules.AllNumbersCount` | MindReader.java:25-26 | there are exactly MAX_NUMBER guessable numbers |
| `GameRules.PartitionSizes` | MindReader.java:34-38 | partitioned candidate and denied lists have 100 entries together |
| `GameRules.DecoysAvailable` | MindReader.java:216-225 | in the small-candidate regime the denied list has at least 75 entries, so at least the 25 − take decoys it must supply |
| `GameRules.StartPartition` | MindReader.java:118-125 | a shuffle of 1..100 with an empty denied list is a partition of 100 numbers |
| `GameRules.NoAnswerPartition` | MindReader.java:305-321 | dropping the first take candidates and appending them to the denied list keeps the partition and removes exactly those numbers by value |
| `GameRules.YesAnswerPartition` | MindReader.java:267-299 | a rearranged true subset with any duplicate-free list of the other numbers of 1..100 is a partition |
| `GameRules.LargeQuestionDisplay` | MindReader.java:160-170 | the first 25 of more than 25 partitioned candidates form a well-formed display |
| `GameRules.SmallQuestionDisplay` | MindReader.java:199-228 | subset plus decoys, in any order, are 25 distinct numbers, each of them in the subset or denied |
| `GameRules.ConsistentAnswerKeepsTarget` | MindReader.java:301-321 | a target outside the true subset, where a consistent player answers no, lies in the candidates the "no" branch keeps |
| `GameRules.AnswerUsesUpAQuestion` | MindReader.java:324-338 | either answer lowers the bound on the questions still needed by at least one |
| `GameRules.MaxQuestions` | MindReader.java:26-29 | with 100 numbers and 25 per question, at most 8 questions are needed |

## Left out

- The Swing interface: `main`, `buildGUI`, the frame, labels and buttons, the
  `setVisible`/`setText`/`add` calls and the three `ActionListener` classes
  (MindReader.java:47-107, 115-116, 141-157, 349-362, 365-399). They only present
  state. `PlayConsistently` stands in for a player pressing the buttons.
- The comma-joined text of the question label (MindReader.java:172-195, 230-253). It
  only feeds a label; the model exposes the shown list itself (`ShownNumbers`).
- Engine.Shuffle: the random number generator behind `Collections.shuffle` is not
  modelled; the contract says only that the result is some rearrangement.
- `(int) (possibleNumbers.size() * 0.5)` is modelled as `size / 2`. The two agree for
  every non-negative size a Java list can have, because the double product is exact.
- Java's 32-bit `int` is modelled as unbounded. No value in the game exceeds 100.
- The constants are fixed at 100 and 25, as the source's `static final` fields are.
  Other values, including the one-number game, are not modelled.
- Showing the result (MindReader.java:349-362): the model returns the guessed number
  from `answer`; the labels and widgets of the result screen are not modelled.
