# Flashcards: a verified model of the spaced-repetition core

This project models the core of a small Java spaced-repetition program in Dafny 4.11.

- **`Flashcard`** is a card: a due date, a front text and a back text. Cards are ordered by due date.
- **`FlashcardPriorityQueue`** keeps the cards in a 1-indexed ternary min-heap held in a growable array.
- **`FlashcardDisplayer`** does three things:
  - It loads a queue from a tab-separated flashcard file.
  - It writes the queue back out.
  - It runs a review session. Each card that is due is shown, the user answers it, and the card is rescheduled according to the answer.

The model follows the code as written. The parts below are where the code does not behave the way its comments suggest.

- **Lazy heap repair.**
  - `add` writes the new card after the last live one and then sifts down from the root only. `peek` and `poll` also sift down from the root before reading slot 1.
  - A sift down from the root turns a semiheap into a heap. A semiheap is heap-ordered everywhere except between the root and its children.
  - Once a fifth card goes into the queue, the new leaf is no longer a child of the root. A card due before every other card can then stay unseen in slot 5.
  - So `peek` returns a card that is not the least one, even though the comments on `peek` and `poll` promise the first card by `compareTo`.
- **Stale slot 1.**
  - `poll` moves the last live card into slot 1 and leaves the slot it vacated as it was.
  - After the last card is polled, slot 1 still holds that card. `peek` on the now empty queue returns it, because the empty check guards only the `reheap(1)` call and not the read of slot 1.
- **No exception on an empty queue.** The comments on `poll` and `peek` say an empty queue throws an exception. In the code, `poll` returns `null` on an empty queue, and `peek` returns whatever slot 1 holds. That is `null` only while slot 1 is `null`. The model follows the code.
- **Crash when the last due card is dropped.**
  - In `displayFlashcards`, an answer other than "1" or "2" drops the card.
  - If that card was the last in the queue, the next `peek` returns the same card again from slot 1. It is due, so the loop goes on.
  - `poll` then returns `null`, and `getFrontText` on it throws a `NullPointerException`.
  - On a fresh queue, slot 1 is `null`, and `peek().getDueDate()` is where the exception is thrown. The same holds for a queue cleared while it still held cards, since `clear` nulls the slots from the last live one down to slot 0.
  - `clear` on a queue that is already empty nulls slot 0 only, so a stale card in slot 1 stays there.
- **Rescheduling.**
  - The comment on `displayFlashcards` says a card is rescheduled from the current date and time. The code instead adds one day (answer "1") or one minute (answer "2") to the card's old due date. The model follows the code.
  - The new date goes through `toString` and is parsed back, and the model keeps that round trip.
- **Saved files that do not load.**
  - `saveFlashcards` writes each card's `toString`: date, tab, front, tab, back.
  - `String.split` drops trailing empty fields. So a card with an empty back is written as a line that has only two fields when it is read back, and loading that line fails.
  - Every other card loads back as the same card, provided its texts are already trimmed and hold no tab and no character at which `Scanner.nextLine` ends a line. Those characters are line feed, carriage return, U+0085, U+2028 and U+2029.

Files and the console are modelled as sequences of lines:
- A file that cannot be opened is `None`.
- The writer that fails to open is the flag `canOpen`.
- The clock `LocalDateTime.now()` is the parameter `now`.
- Due dates are whole seconds since 1970-01-01T00:00.
- `LocalDateTime.parse` and `toString` are replaced by a decimal rendering of that count with a proved round trip (`DateText.Render` / `DateText.Parse`).

Module layout:
- `wrappers.dfy`: `Option`, `Result`.
- `seq_facts.dfy`: facts about sequences and multisets that the proofs use.
- `text.dfy`: Java's `String.split` and `String.trim`.
- `date_text.dfy`: the date text.
- `flashcard.dfy`: `Flashcard.java`.
- `priority_queue.dfy`: `FlashcardPriorityQueue.java`. It defines the class `FlashcardPriorityQueue` over an `array`, specified by the functions `Reheaped`, `Added` and `Polled` on the array contents.
- `queue_scenarios.dfy`: the demonstration in `FlashcardPriorityQueue.main` and the two defects above.
- `displayer.dfy`: `FlashcardDisplayer.java`. It defines the class `FlashcardDisplayer`, specified by `LoadAll`, `Drain`, `AddedAll`, `StudyRound` and `Session`.

## Model

| member | source | states |
|---|---|---|
| Flashcards.Flashcard.CompareTo | Flashcard.java:12-15 | the sign of the result is the order of the two due dates: negative, zero or positive exactly when this card is due earlier, at the same time or later |
| Flashcards.CompareIgnoresText | Flashcard.java:12-15 | the comparison depends on the due dates only, never on the texts |
| Flashcards.CompareIsTotalPreorder | Flashcard.java:12-15 | `compareTo` is reflexive, antisymmetric in sign, total and transitive, and cards due at the same moment compare equal |
| Flashcards.NewFlashcard | Flashcard.java:27-31 | construction fails exactly when the date text does not parse, with a parse error naming that text |
| Flashcards.GettersReturnConstructorArguments | Flashcard.java:27-52 | on a date that parses, the getters return the front and back given and the parsed date |
| Flashcards.NewFlashcardFromRenderedDate | FlashcardDisplayer.java:106-108 | a card built from the text of a date is due exactly at that date |
| Flashcards.ToStringFields | Flashcard.java:54-56 | `toString` of a card whose faces hold no tab splits on tab into exactly the date text, the front and the back |
| DateText.ParseRender | Flashcard.java:28 | parsing the text of a date gives that date back |
| DateText.RenderIsPlain | Flashcard.java:55 | the text of a date is non-empty and holds no blank or control character, so trimming and splitting leave it whole |
| DateText.ParseAcceptsExactlyNumerals | Flashcard.java:28 | a text parses exactly when it is a numeral, with or without one leading minus sign; every other text is refused |
| DateText.NotADateIsRefused | Flashcard.java:28 | the two texts "not-a-date" and "" do not parse |
| JavaText.JoinSplit | FlashcardDisplayer.java:36 | joining the fields of a split with the separator gives the original line |
| JavaText.SplitJoin | FlashcardDisplayer.java:36 | splitting a join of separator-free fields gives those fields |
| JavaText.DropTrailingEmpty | FlashcardDisplayer.java:36 | Java's `split` keeps a prefix of the fields, ends on a non-empty field, and drops only empty ones |
| JavaText.TrimFixedPoints | FlashcardDisplayer.java:37-39 | trimming is idempotent, and text already trimmed is left as is |
| FlashcardQueue.ParentOfChild | FlashcardPriorityQueue.java:84-90 | the children of slot `i` are exactly `3i-1`, `3i` and `3i+1` |
| FlashcardQueue.HeapIsSemiheap | FlashcardPriorityQueue.java:80-115 | a heap is a semiheap whose root is settled |
| FlashcardQueue.HeapRootIsLeast | FlashcardPriorityQueue.java:34-36 | the root of a non-empty heap is a live card due no later than any live card |
| FlashcardQueue.SmallestChildIsLeast | FlashcardPriorityQueue.java:88-102 | the child `reheap` selects is a live child due no later than its live siblings |
| FlashcardQueue.SiftStep | FlashcardPriorityQueue.java:104-109 | moving the least child up into the open slot keeps the sift-down invariant, with the child's slot now open |
| FlashcardQueue.SiftDownPermutes | FlashcardPriorityQueue.java:80-115 | the sift down only rearranges the slots, with the card held aside put back |
| FlashcardQueue.SiftDownOrders | FlashcardPriorityQueue.java:80-115 | from the sift-down invariant the sift down ends in a heap |
| FlashcardQueue.ReheapedFacts | FlashcardPriorityQueue.java:80-115 | `reheap(1)` permutes the live cards, leaves every other slot alone, keeps live slots filled, repairs a semiheap into a heap, and moves nothing when the root is settled |
| FlashcardQueue.ReheapedPrefix | FlashcardPriorityQueue.java:80-115 | `reheap(1)` reads and writes no slot after the last live one |
| FlashcardQueue.AddedPermutes | FlashcardPriorityQueue.java:26-32 | `add(x)` adds exactly `x` to the live cards, keeps them all cards and leaves slot 0 alone |
| FlashcardQueue.AddedKeepsHeap | FlashcardPriorityQueue.java:26-32 | `add(x)` on a semiheap gives a heap when the new leaf is a child of the root or is due no earlier than its parent |
| FlashcardQueue.AddedSettled | FlashcardPriorityQueue.java:26-32 | `add(x)` moves nothing when the root is due no later than its live children |
| FlashcardQueue.AddSteps | FlashcardPriorityQueue.java:26-32 | writing `x`, growing the array and `reheap(1)` together give the live slots of `Added`, one more card |
| FlashcardQueue.PolledPermutes | FlashcardPriorityQueue.java:37-49 | `poll` takes out of the live cards exactly the card it returns |
| FlashcardQueue.PolledValid | FlashcardPriorityQueue.java:37-49 | on a non-empty queue `poll` returns a card, and the live slots left hold cards |
| FlashcardQueue.PolledOutside | FlashcardPriorityQueue.java:37-49 | `poll` changes no slot outside the live ones; with one live card, slot 1 still holds the card returned |
| FlashcardQueue.PolledFromSemiheap | FlashcardPriorityQueue.java:37-49 | on a semiheap, `poll` returns a least live card and leaves a semiheap |
| FlashcardQueue.PolledSettled | FlashcardPriorityQueue.java:37-49 | when the root is settled, `poll` returns the card at the root |
| FlashcardQueue.PeekFromSemiheap | FlashcardPriorityQueue.java:54-62 | on a non-empty semiheap, `peek` returns a least live card and leaves a heap of the same cards |
| FlashcardQueue.RootIsLive | FlashcardPriorityQueue.java:57-59 | on a non-empty queue, slot 1 holds one of the live cards |
| FlashcardQueue.FlashcardPriorityQueue.constructor | FlashcardPriorityQueue.java:16-23 | an empty queue over a fresh array of five `null` slots |
| FlashcardQueue.FlashcardPriorityQueue.IsEmpty | FlashcardPriorityQueue.java:65-67 | true exactly when the queue holds no card |
| FlashcardQueue.FlashcardPriorityQueue.EnsureCapacity | FlashcardPriorityQueue.java:118-126 | when every usable slot is taken, the usable capacity triples and the old slots are copied with `null` after them; otherwise the array is unchanged |
| FlashcardQueue.FlashcardPriorityQueue.SmallerChild | FlashcardPriorityQueue.java:84-102 | gives the first of the least due live children of the slot |
| FlashcardQueue.FlashcardPriorityQueue.Reheap | FlashcardPriorityQueue.java:80-115 | the array becomes `Reheaped` of the old array, so `ReheapedFacts` applies to it |
| FlashcardQueue.FlashcardPriorityQueue.Add | FlashcardPriorityQueue.java:26-32 | one more live card, the live slots are `Added` of the old ones, and the live cards gain exactly `item` |
| FlashcardQueue.FlashcardPriorityQueue.Poll | FlashcardPriorityQueue.java:37-49 | on an empty queue returns `null` and changes nothing; otherwise returns the root after `reheap(1)`, the array becomes `Polled`, and the live cards lose exactly the card returned |
| FlashcardQueue.FlashcardPriorityQueue.Peek | FlashcardPriorityQueue.java:54-62 | returns slot 1 after `reheap(1)` on a non-empty queue, and slot 1 untouched on an empty one; the live cards do not change |
| FlashcardQueue.FlashcardPriorityQueue.Clear | FlashcardPriorityQueue.java:70-78 | slots up to the old last live one become `null`, the count becomes 0, and later slots keep what they held |
| QueueScenarios.AddCard1AndCard2 | FlashcardPriorityQueue.java:138-140 | adding card1 then card2 moves nothing, and neither does the peek |
| QueueScenarios.AddCard3 | FlashcardPriorityQueue.java:141 | adding card3 sifts it to the root and card1 down to slot 3 |
| QueueScenarios.AddCard4 | FlashcardPriorityQueue.java:142-144 | adding card4 below card3 moves nothing, and neither does the peek |
| QueueScenarios.PollCard3 | FlashcardPriorityQueue.java:146-147 | the poll returns card3 and moves card4 to the root |
| QueueScenarios.AddCard5 | FlashcardPriorityQueue.java:149-151 | adding card5 sifts it to the root and card4 down to slot 4 |
| QueueScenarios.AddTwoThenPeek | FlashcardPriorityQueue.java:138-140 | on the empty queue, adding card1 and card2 and peeking gives card1 |
| QueueScenarios.AddTwoMoreThenPeek | FlashcardPriorityQueue.java:141-144 | then adding card3 and card4 and peeking gives card3 |
| QueueScenarios.PollThenPeek | FlashcardPriorityQueue.java:146-147 | then the poll gives card3 and the peek card4 |
| QueueScenarios.AddLastThenPeek | FlashcardPriorityQueue.java:149-151 | then adding card5 and peeking gives card5 |
| QueueScenarios.MainScenario | FlashcardPriorityQueue.java:128-163 | the four peeks of `main` give card1, card3, card4 and card5, its poll gives card3, and the queue is empty after `clear` |
| QueueScenarios.AddFiveInOrder | FlashcardPriorityQueue.java:26-32 | four cards added in due order, then a fifth due before them all: the fifth stays in slot 5 and a peek moves nothing |
| QueueScenarios.AddLateMinimumThenPeek | FlashcardPriorityQueue.java:54-62 | after those five adds, `peek` returns the first card although the fifth is in the queue and due earlier |
| QueueScenarios.LazyRepairMissesNewMinimum | FlashcardPriorityQueue.java:26-62 | after cards due at 10, 20, 30, 40 and then 5 are added, `peek` returns the card due at 10 while five cards are in the queue |
| QueueScenarios.StalePeekAfterLastPoll | FlashcardPriorityQueue.java:37-62 | after polling the only card, `isEmpty` holds, `peek` still returns that card, and a second `poll` returns `null` |
| Displayer.ParseLine | FlashcardDisplayer.java:36-40 | a line fails with a missing field exactly when Java's `split` gives fewer than three fields; it fails at all exactly when that happens or the trimmed first field does not parse; a card read has the trimmed second and third fields as its faces and the parsed trimmed first field as its due date |
| Displayer.CardOf | FlashcardDisplayer.java:37-40 | fails exactly when the date does not parse, and then with a bad-date error; a card built keeps the faces given and is due at the parsed date |
| Displayer.JavaSplitOfJoin | FlashcardDisplayer.java:36 | joining tab-free fields whose third is non-empty and splitting again keeps the first three fields |
| Displayer.SameFirstThreeFields | FlashcardDisplayer.java:36-40 | two lines whose first three fields agree read the same |
| Displayer.ParseLineIgnoresExtraFields | FlashcardDisplayer.java:36-40 | anything after a non-empty third field does not change what the line reads as |
| Displayer.JavaSplitOfToString | FlashcardDisplayer.java:36 | the line written for a card with a non-empty, tab-free back splits into its date text, front and back |
| Displayer.ParseLineOfFields | FlashcardDisplayer.java:36-40 | a line of three trimmed fields whose date parses reads as the card built from them |
| Displayer.ParseLineOfToString | FlashcardDisplayer.java:53-60 | the line written for a card whose faces are savable and whose back is non-empty reads back as that same card |
| Displayer.EmptyBackIsNotReloaded | FlashcardDisplayer.java:36-39 | the line written for a card with an empty back fails to load with a missing field |
| Displayer.LoadAll | FlashcardDisplayer.java:34-42 | a successful load gives one card per line |
| Displayer.LoadAllStopsAtError | FlashcardDisplayer.java:32-46 | a line that does not read ends the load with its error, whatever lines follow |
| Displayer.LoadReadsLine | FlashcardDisplayer.java:34-42 | reading one more line that reads appends its card to the cards loaded |
| Displayer.LoadStopsAtLine | FlashcardDisplayer.java:34-42 | reading one more line that does not read makes its error the error of the whole file |
| Displayer.LoadAllOfRecords | FlashcardDisplayer.java:53-60 | the lines written for savable cards with non-empty backs load back as the same cards in the same order |
| Displayer.Rebuilt | FlashcardDisplayer.java:106-108 | rebuilding a card from the text of a new date gives the same faces due at exactly that date |
| Displayer.Reschedule | FlashcardDisplayer.java:105-116 | answer "1" puts the card back due one day after its old due date, "2" one minute after, and any other answer drops it |
| Displayer.AddedOne | FlashcardDisplayer.java:41 | one `add` puts exactly its card among the live cards and keeps the live slots valid |
| Displayer.AddedAllValid | FlashcardDisplayer.java:34-42 | adding cards one by one keeps slot 0 empty and every live slot holding a card |
| Displayer.AddedAllPermutes | FlashcardDisplayer.java:34-42 | adding cards one by one adds exactly those cards to the queue |
| Displayer.AddedAllStep | FlashcardDisplayer.java:41 | one more `add` after the same cards extends the same sequence of adds |
| Displayer.DrainPermutes | FlashcardDisplayer.java:68-72 | polling until empty returns every live card exactly once |
| Displayer.DrainOne | FlashcardDisplayer.java:68-72 | one `poll` returns the first card of the drain, and draining what is left gives the rest |
| Displayer.WrittenStep | FlashcardDisplayer.java:70 | writing one more card appends its `toString` and a line break |
| Displayer.SaveStep | FlashcardDisplayer.java:68-72 | one round of the save loop keeps the cards polled, the copy queue and the lines written in step |
| Displayer.SaveKeepsCards | FlashcardDisplayer.java:56-59 | the queue rebuilt from the drained cards holds the same cards as the queue before |
| Displayer.PollOne | FlashcardDisplayer.java:98 | polling a non-empty queue returns a card, leaves valid live slots, and takes exactly that card out |
| Displayer.Shown | FlashcardDisplayer.java:97 | the `peek` of the loop test keeps the live slots valid and the live cards the same |
| Displayer.RequeuedCons | FlashcardDisplayer.java:104-116 | the cards a session puts back are the first card's put-back card followed by those of the rest, each answered by its own line |
| Displayer.RoundShape | FlashcardDisplayer.java:97-116 | a round shows at most one card; it shows none exactly when it stops at the loop test or at a `null`; input runs out only after a card is shown; a `null` needs an empty queue; and a round that empties the queue leaves its card in slot 1 |
| Displayer.RoundPolls | FlashcardDisplayer.java:97-116 | a round that shows a card polled it from the queue `peek` left and put back what `Reschedule` gives for the answer |
| Displayer.RoundKeepsCardsIdle | FlashcardDisplayer.java:97 | a round that shows no card keeps the cards of the queue |
| Displayer.RoundKeepsCardsDropped | FlashcardDisplayer.java:97-116 | a round that drops its card takes exactly that card out of the queue |
| Displayer.RoundKeepsCardsRequeued | FlashcardDisplayer.java:105-116 | a round that reschedules its card trades it for the rescheduled copy |
| Displayer.RoundTrades | FlashcardDisplayer.java:97-116 | a round that does not end the session shows one card and trades it for what the answer puts back |
| Displayer.SessionStops | FlashcardDisplayer.java:97 | a session whose first round ends it ends as that round does |
| Displayer.SessionGoesOn | FlashcardDisplayer.java:97-117 | a session whose first round does not end it is that round's card followed by the session from the queue the round left |
| Displayer.KeepsCardsStop | FlashcardDisplayer.java:92-120 | card bookkeeping of a session that ends in its first round |
| Displayer.KeepsCardsNext | FlashcardDisplayer.java:92-120 | card bookkeeping of a session that goes on after its first round |
| Displayer.SessionKeepsCards | FlashcardDisplayer.java:92-120 | no card is lost or made up: the cards before plus the cards put back equal the cards left plus the cards shown |
| Displayer.SessionReadsTwoLinesPerCard | FlashcardDisplayer.java:99-104 | each card shown takes two input lines, and the session runs out of input exactly when the lines do not cover the cards shown |
| Displayer.SessionCrashesOnEmptyQueue | FlashcardDisplayer.java:97-98 | a `NullPointerException` happens only with the queue empty; before any card is shown it needs a queue that was empty from the start, with slot 1 unchanged |
| Displayer.SessionCrashFollowsLastCard | FlashcardDisplayer.java:97-99 | after a card is shown, a crash finds the last card shown still in slot 1 |
| Displayer.SessionFinishesAtCardNotDue | FlashcardDisplayer.java:97 | a session that ends normally ends at a card due after `now`, which is the first live card when any remain |
| Displayer.DroppingLastCardCrashes | FlashcardDisplayer.java:97-117 | with one due card answered neither "1" nor "2", the session shows it, empties the queue, and ends in a `NullPointerException` with the card still in slot 1 |
| Displayer.FlashcardDisplayer.constructor | FlashcardDisplayer.java:15 | a displayer studying from the given queue |
| Displayer.FlashcardDisplayer.LoadNext | FlashcardDisplayer.java:35-41 | one turn of the load loop: either the card of line `i` is added, following `LoadAll` and `AddedAll`, or the error of line `i` is the load's error |
| Displayer.FlashcardDisplayer.LoadLines | FlashcardDisplayer.java:30-42 | fails exactly when `LoadAll` fails, with its error; otherwise a fresh queue built by adding the loaded cards in file order |
| Displayer.FlashcardDisplayer.Open | FlashcardDisplayer.java:28-51 | a file that does not open gives an empty queue; a line that does not read makes the construction fail with its error; otherwise the queue holds the file's cards, added in file order |
| Displayer.FlashcardDisplayer.SaveNext | FlashcardDisplayer.java:68-72 | one turn of the save loop: one card polled, written and added to the copy, with the accounts of `SaveStep` kept |
| Displayer.FlashcardDisplayer.SaveAll | FlashcardDisplayer.java:68-72 | the queue ends empty; the cards come off in `Drain` order, each written as its `toString` and a line break, and are added in that order to the copy |
| Displayer.FlashcardDisplayer.SaveFlashcards | FlashcardDisplayer.java:61-81 | when the file does not open, returns false, writes nothing and leaves the queue alone; otherwise returns true, writes the cards in `Drain` order, and replaces the queue with a fresh one holding the same cards |
| Displayer.FlashcardDisplayer.Turn | FlashcardDisplayer.java:97-116 | one pass of the loop, its test included, does what `StudyRound` says to the queue and slot 1 |
| Displayer.FlashcardDisplayer.Answer | FlashcardDisplayer.java:99-116 | reading the answer and putting the card back do what `Answered` says |
| Displayer.FlashcardDisplayer.DisplayFlashcards | FlashcardDisplayer.java:92-120 | ends with the outcome and shown cards of `Session`, and leaves the queue and slot 1 as `Session` says, so the session lemmas above hold of it |

## Left out

- FlashcardQueue.FlashcardPriorityQueue.Peek: does not promise the least card, as the comment on `peek` does, because the code does not deliver it. `LazyRepairMissesNewMinimum` shows the case, and `PeekFromSemiheap` states when it does hold.
- FlashcardQueue.FlashcardPriorityQueue.Poll: does not promise the least card, as the comment on `poll` does, for the same reason. `PolledFromSemiheap` states when it does hold.
- The null-`filePath` branch of the `FlashcardDisplayer` constructor is not modelled. That branch prints a message and leaves the queue `null`.
- Opening and reading files, and the `PrintWriter`, are not modelled.
  - A file is its sequence of lines, or `None` when `FileNotFoundException` is raised.
  - The output file is the flag `canOpen` and the sequence of strings written.
  - Write errors that `PrintWriter` swallows are not modelled.
- Console output is not modelled. The prompts and the front and back texts that are printed have no place in the model. The line read before the back of a card is consumed and ignored, as in the code.
- The clock is not modelled: `LocalDateTime.now()` is the parameter `now`.
- The ISO-8601 date grammar of `LocalDateTime.parse`/`toString` is not modelled: a date is a whole number of seconds, written as a decimal numeral.
  - Seconds and fractions in the date text are not modelled.
  - Calendar validation is not modelled.
  - `minusDays(-1)` and `minusMinutes(-1)` are +86400 and +60 seconds. This is exact for `LocalDateTime`, which has no time zone.
- Java `int` overflow is not modelled. Counts and capacities are unbounded integers, so the overflow of `lastIndex` or `3 * capacity` cannot happen in the model.
- `add(null)` is not modelled: queue items have the type `Flashcard`, which excludes `null`.
- `reheap(rootIndex)` is modelled only for `rootIndex == 1`, its only call site (`Reheap`).
- `compareTo` returns -1, 0 or 1 in the model. `LocalDateTime.compareTo` promises only the sign, and the code uses only the sign.
- `playGame` and `FlashcardDisplayer.main` are not modelled. They are the interactive command loop, with `System.exit`.
- The printing in `FlashcardPriorityQueue.main` is not modelled. `MainScenario` returns the cards that `main` prints.
- The constructor `FlashcardDisplayer(String)` is split into three parts:
  - the static `Open`, which returns the displayer or the exception that escapes the Java constructor;
  - `LoadLines` and `LoadNext`, which are its loop and the loop's body;
  - a constructor that takes the queue.
- The loops of `saveFlashcards` and `displayFlashcards` are split the same way, into `SaveAll`/`SaveNext` and `DisplayFlashcards`/`Turn`/`Answer`.
- `Scanner.nextLine` on exhausted standard input throws `NoSuchElementException`. The model does not follow the exception further: it is the outcome `InputExhausted`, which ends the session with the card already polled.
