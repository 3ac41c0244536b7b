/**
 * The flashcard displayer: loads cards from the lines of a flashcard file into
 * a priority queue, writes them back out, and runs a review session in which
 * each due card is shown and rescheduled from the answer typed in.
 * Files and the console are modelled as sequences of lines.
 */
module Displayer {
  import opened Wrappers
  import opened DateText
  import opened JavaText
  import opened Flashcards
  import opened FlashcardQueue
  import opened SeqFacts

  /**
   * Why loading stopped: a line with fewer than three tab-separated fields
   * (an `ArrayIndexOutOfBoundsException`), or a due date that is not a date.
   */
  datatype LoadError = MissingField(line: string) | BadDate(error: ParseError)

  /** One line of a flashcard file: split on tab, and fields 0, 1, 2, trimmed, are the date, front and back. */
  function ParseLine(line: string): (r: Result<Flashcard, LoadError>)
    ensures r.Err? && r.error.MissingField? <==> |JavaSplit(line, '\t')| < 3
    ensures r.Err? <==> |JavaSplit(line, '\t')| < 3 || Parse(Trim(JavaSplit(line, '\t')[0])).None?
    ensures r.Ok? ==>
      && r.value.frontText == Trim(JavaSplit(line, '\t')[1])
      && r.value.backText == Trim(JavaSplit(line, '\t')[2])
      && Parse(Trim(JavaSplit(line, '\t')[0])) == Some(r.value.dueDate)
  {
    var fields := JavaSplit(line, '\t');
    if |fields| < 3 then Err(MissingField(line))
    else CardOf(Trim(fields[0]), Trim(fields[1]), Trim(fields[2]))
  }

  /** The card of a line's first three fields, already trimmed: the due date, the front and the back. */
  function CardOf(date: string, front: string, back: string): (r: Result<Flashcard, LoadError>)
    ensures r.Err? <==> Parse(date).None?
    ensures r.Err? ==> r.error.BadDate?
    ensures r.Ok? ==> r.value.frontText == front && r.value.backText == back && Parse(date) == Some(r.value.dueDate)
  {
    match NewFlashcard(date, front, back)
    case Ok(card) => Ok(card)
    case Err(e) => Err(BadDate(e))
  }

  /** Joining tab-free fields, the third of them not empty, and splitting Java-style keeps the first three. */
  lemma JavaSplitOfJoin(fields: seq<string>)
    requires |fields| >= 3 && fields[2] != ""
    requires forall i :: 0 <= i < |fields| ==> '\t' !in fields[i]
    ensures |JavaSplit(Join(fields, '\t'), '\t')| >= 3
    ensures JavaSplit(Join(fields, '\t'), '\t')[..3] == fields[..3]
  {
    SplitJoin(fields, '\t');
    var line := Join(fields, '\t');
    assert line == fields[0] + ['\t'] + Join(fields[1..], '\t');
    assert line[|fields[0]|] == '\t';
    assert |DropTrailingEmpty(fields)| >= 3;
  }

  /** Two lines whose first three fields agree read the same. */
  lemma SameFirstThreeFields(line: string, line': string)
    requires |JavaSplit(line, '\t')| >= 3 && |JavaSplit(line', '\t')| >= 3
    requires JavaSplit(line, '\t')[..3] == JavaSplit(line', '\t')[..3]
    ensures ParseLine(line) == ParseLine(line')
  {
    var f, f' := JavaSplit(line, '\t'), JavaSplit(line', '\t');
    assert f[0] == f[..3][0] && f[1] == f[..3][1] && f[2] == f[..3][2];
    assert f'[0] == f'[..3][0] && f'[1] == f'[..3][1] && f'[2] == f'[..3][2];
  }

  /** Joining tab-free fields, the third of them not empty, splits to the same first three fields as joining just those three. */
  lemma JavaSplitKeepsFirstThree(fields: seq<string>)
    requires |fields| >= 3 && fields[2] != ""
    requires forall i :: 0 <= i < |fields| ==> '\t' !in fields[i]
    ensures |JavaSplit(Join(fields, '\t'), '\t')| >= 3 && |JavaSplit(Join(fields[..3], '\t'), '\t')| >= 3
    ensures JavaSplit(Join(fields, '\t'), '\t')[..3] == JavaSplit(Join(fields[..3], '\t'), '\t')[..3]
  {
    var three := fields[..3];
    JavaSplitOfJoin(fields);
    JavaSplitOfJoin(three);
    assert three[..3] == three;
  }

  /** Only the first three fields matter: anything after a third, non-empty field is ignored. */
  lemma ParseLineIgnoresExtraFields(fields: seq<string>)
    requires |fields| >= 3 && fields[2] != ""
    requires forall i :: 0 <= i < |fields| ==> '\t' !in fields[i]
    ensures ParseLine(Join(fields, '\t')) == ParseLine(Join(fields[..3], '\t'))
  {
    JavaSplitKeepsFirstThree(fields);
    SameFirstThreeFields(Join(fields, '\t'), Join(fields[..3], '\t'));
  }

  /** `toString` of a card whose faces hold no tab splits, Java-style, into the date text, the front and the back. */
  lemma {:induction false} JavaSplitOfToString(card: Flashcard)
    requires '\t' !in card.frontText && '\t' !in card.backText && card.backText != ""
    ensures JavaSplit(card.ToString(), '\t') == [Render(card.dueDate), card.frontText, card.backText]
  {
    var fields := [Render(card.dueDate), card.frontText, card.backText];
    ToStringFields(card);
    assert card.ToString()[|Render(card.dueDate)|] == '\t';
    assert DropTrailingEmpty(fields) == fields;
  }

  /** A line whose fields are already trimmed reads as the card built from them. */
  lemma ParseLineOfFields(line: string, date: string, front: string, back: string)
    requires JavaSplit(line, '\t') == [date, front, back]
    requires Trim(date) == date && Trim(front) == front && Trim(back) == back
    requires NewFlashcard(date, front, back).Ok?
    ensures ParseLine(line) == Ok(NewFlashcard(date, front, back).value)
  {
  }

  /** The line `toString` gives for a card whose faces are savable and whose back is not empty reads back as that card. */
  lemma ParseLineOfToString(card: Flashcard)
    requires SavableText(card.frontText) && SavableText(card.backText) && card.backText != ""
    ensures ParseLine(card.ToString()) == Ok(card)
  {
    var date := Render(card.dueDate);
    JavaSplitOfToString(card);
    assert Trim(date) == date by {
      RenderIsPlain(card.dueDate);
      TrimFixedPoints(date);
    }
    assert Trim(card.frontText) == card.frontText by {
      TrimFixedPoints(card.frontText);
    }
    assert Trim(card.backText) == card.backText by {
      TrimFixedPoints(card.backText);
    }
    NewFlashcardFromRenderedDate(card.dueDate, card.frontText, card.backText);
    ParseLineOfFields(card.ToString(), date, card.frontText, card.backText);
  }

  /**
   * A card with an empty back is written as a line ending in a tab, and `split`
   * drops the empty field after it: the line does not read back.
   */
  lemma EmptyBackIsNotReloaded(card: Flashcard)
    requires SavableText(card.frontText) && card.backText == ""
    ensures ParseLine(card.ToString()) == Err(MissingField(card.ToString()))
  {
    var fields := [Render(card.dueDate), card.frontText, card.backText];
    ToStringFields(card);
    assert card.ToString()[|Render(card.dueDate)|] == '\t';
    assert |DropTrailingEmpty(fields)| < 3;
  }

  /** The cards of a file's lines in file order, or the error of the first line that does not read. */
  function LoadAll(lines: seq<string>): (r: Result<seq<Flashcard>, LoadError>)
    ensures r.Ok? ==> |r.value| == |lines|
    decreases |lines|
  {
    if lines == [] then Ok([])
    else
      match LoadAll(lines[..|lines| - 1])
      case Err(e) => Err(e)
      case Ok(cards) =>
        match ParseLine(lines[|lines| - 1])
        case Err(e) => Err(e)
        case Ok(card) => Ok(cards + [card])
  }

  /** A line that does not read stops the load with its error, whatever follows it. */
  lemma {:induction false} LoadAllStopsAtError(lines: seq<string>, i: nat, j: nat)
    requires i <= j <= |lines|
    requires LoadAll(lines[..i]).Err?
    ensures LoadAll(lines[..j]) == LoadAll(lines[..i])
    decreases j - i
  {
    if i < j {
      assert lines[..i + 1][..i] == lines[..i];
      LoadAllStopsAtError(lines, i + 1, j);
    }
  }

  /** The lines a reader of the written file sees: each card's `toString`, the line break stripped. */
  function Records(cards: seq<Flashcard>): (lines: seq<string>)
    ensures |lines| == |cards|
    decreases |cards|
  {
    if cards == [] then [] else Records(cards[..|cards| - 1]) + [cards[|cards| - 1].ToString()]
  }

  /** Loading one more line that reads appends its card. */
  lemma LoadAllSnoc(lines: seq<string>, cards: seq<Flashcard>, card: Flashcard)
    requires lines != [] && LoadAll(lines[..|lines| - 1]) == Ok(cards)
    requires ParseLine(lines[|lines| - 1]) == Ok(card)
    ensures LoadAll(lines) == Ok(cards + [card])
  {
  }

  /** Loading one more line that does not read stops with its error. */
  lemma LoadAllSnocError(lines: seq<string>, cards: seq<Flashcard>, error: LoadError)
    requires lines != [] && LoadAll(lines[..|lines| - 1]) == Ok(cards)
    requires ParseLine(lines[|lines| - 1]) == Err(error)
    ensures LoadAll(lines) == Err(error)
  {
  }

  /** Loading the records of saved cards gives the same cards back, in the same order. */
  lemma {:induction false} LoadAllOfRecords(cards: seq<Flashcard>)
    requires forall i :: 0 <= i < |cards| ==>
      SavableText(cards[i].frontText) && SavableText(cards[i].backText) && cards[i].backText != ""
    ensures LoadAll(Records(cards)) == Ok(cards)
    decreases |cards|
  {
    if cards != [] {
      var k := |cards| - 1;
      var lines := Records(cards);
      LoadAllOfRecords(cards[..k]);
      assert lines[..k] == Records(cards[..k]);
      assert lines[k] == cards[k].ToString();
      ParseLineOfToString(cards[k]);
      LoadAllSnoc(lines, cards[..k], cards[k]);
      ButLastThenLast(cards);
    }
  }

  /** A card with its due date moved to `t`: `new Flashcard(t.toString(), front, back)`. */
  function Rebuilt(card: Flashcard, t: DateTime): (r: Flashcard)
    ensures r == Flashcard(t, card.frontText, card.backText)
  {
    NewFlashcardFromRenderedDate(t, card.frontText, card.backText);
    NewFlashcard(Render(t), card.frontText, card.backText).value
  }

  /**
   * The card put back after a review: answer "1" makes it due one day after its
   * old due date, answer "2" one minute after; any other answer drops it.
   */
  function Reschedule(card: Flashcard, guess: string): (r: Option<Flashcard>)
    ensures guess == "1" ==> r == Some(Flashcard(card.dueDate + SECONDS_PER_DAY, card.frontText, card.backText))
    ensures guess == "2" ==> r == Some(Flashcard(card.dueDate + SECONDS_PER_MINUTE, card.frontText, card.backText))
    ensures guess != "1" && guess != "2" ==> r == None
  {
    if guess == "1" then Some(Rebuilt(card, card.dueDate + SECONDS_PER_DAY))
    else if guess == "2" then Some(Rebuilt(card, card.dueDate + SECONDS_PER_MINUTE))
    else None
  }

  /** The slots holding `cards`, as a multiset. */
  ghost function Slots(cards: seq<Flashcard>): multiset<Slot>
    decreases |cards|
  {
    if cards == [] then multiset{} else Slots(cards[..|cards| - 1]) + multiset{Some(cards[|cards| - 1])}
  }

  /** `Slots` of a concatenation is the union of the two. */
  lemma {:induction false} SlotsAppend(xs: seq<Flashcard>, ys: seq<Flashcard>)
    ensures Slots(xs + ys) == Slots(xs) + Slots(ys)
    decreases |ys|
  {
    if ys == [] {
      assert xs + ys == xs;
    } else {
      var k := |ys| - 1;
      SlotsAppend(xs, ys[..k]);
      var zs := xs + ys;
      assert zs[..|zs| - 1] == xs + ys[..k];
      assert zs[|zs| - 1] == ys[k];
    }
  }

  /** The live slots (slot 0 included) after `add`ing `cards` one after another to the queue whose live slots are `live`. */
  ghost function AddedAll(live: seq<Slot>, cards: seq<Flashcard>): (r: seq<Slot>)
    requires 1 <= |live|
    ensures |r| == |live| + |cards|
    decreases |cards|
  {
    if cards == [] then live
    else
      var before := AddedAll(live, cards[..|cards| - 1]);
      Added(before, |before| - 1, cards[|cards| - 1])
  }

  /** The live cards of the live slots `live`, slot 0 not counted. */
  ghost function Cards(live: seq<Slot>): multiset<Slot>
    requires 1 <= |live|
  {
    LiveCards(live, |live| - 1)
  }

  /** One `add` puts exactly its card among the live cards, keeping slot 0 empty and the live slots full. */
  lemma AddedOne(live: seq<Slot>, x: Flashcard)
    requires 1 <= |live|
    ensures Cards(Added(live, |live| - 1, x)) == Cards(live) + multiset{Some(x)}
    ensures live[0] == None && LiveSlots(live, |live| - 1) ==>
      Added(live, |live| - 1, x)[0] == None && LiveSlots(Added(live, |live| - 1, x), |live|)
  {
    AddedPermutes(live, |live| - 1, x);
  }

  /** Adding cards one by one keeps slot 0 empty and every live slot holding a card. */
  lemma {:induction false} AddedAllValid(live: seq<Slot>, cards: seq<Flashcard>)
    requires 1 <= |live| && live[0] == None && LiveSlots(live, |live| - 1)
    ensures AddedAll(live, cards)[0] == None && LiveSlots(AddedAll(live, cards), |live| + |cards| - 1)
    decreases |cards|
  {
    if cards != [] {
      var k := |cards| - 1;
      AddedAllValid(live, cards[..k]);
      AddedOne(AddedAll(live, cards[..k]), cards[k]);
    }
  }

  /** Adding cards one by one adds exactly those cards to the live cards. */
  lemma {:induction false} AddedAllPermutes(live: seq<Slot>, cards: seq<Flashcard>)
    requires 1 <= |live|
    ensures Cards(AddedAll(live, cards)) == Cards(live) + Slots(cards)
    decreases |cards|
  {
    if cards == [] {
      EmptyUnion(Cards(live));
    } else {
      var k := |cards| - 1;
      var before := AddedAll(live, cards[..k]);
      AddedAllPermutes(live, cards[..k]);
      AddedOne(before, cards[k]);
      UnionChain(Cards(before), Cards(AddedAll(live, cards)),
        Cards(live), Slots(cards[..k]), multiset{Some(cards[k])}, Slots(cards));
    }
  }

  /**
   * The cards `poll` returns, in order, when called until the queue whose live
   * slots are `live` is empty.
   */
  ghost function Drain(live: seq<Slot>): (cards: seq<Flashcard>)
    requires 1 <= |live| && live[0] == None && LiveSlots(live, |live| - 1)
    ensures |cards| == |live| - 1
    decreases |live|
  {
    var n := |live| - 1;
    if n == 0 then []
    else
      PolledValid(live, n);
      [PolledRoot(live, n).value] + Drain(Polled(live, n)[..n])
  }

  /** Draining returns every live card exactly once. */
  lemma {:induction false} DrainPermutes(live: seq<Slot>)
    requires 1 <= |live| && live[0] == None && LiveSlots(live, |live| - 1)
    ensures Slots(Drain(live)) == Cards(live)
    decreases |live|
  {
    var n := |live| - 1;
    if n > 0 {
      PolledValid(live, n);
      var rest := Polled(live, n)[..n];
      DrainPermutes(rest);
      PolledPermutes(live, n);
      LiveCardsPrefix(Polled(live, n), n - 1, n);
      SlotsAppend([PolledRoot(live, n).value], Drain(rest));
      assert Slots([PolledRoot(live, n).value]) == multiset{PolledRoot(live, n)};
    }
  }

  /** Reading line `i` after lines `..i` have been read, when it reads: its card is appended. */
  lemma LoadReadsLine(lines: seq<string>, i: int, cards: seq<Flashcard>, card: Flashcard)
    requires 0 <= i < |lines| && LoadAll(lines[..i]) == Ok(cards) && ParseLine(lines[i]) == Ok(card)
    ensures LoadAll(lines[..i + 1]) == Ok(cards + [card])
  {
    TakeTake(lines, i, i + 1);
    LoadAllSnoc(lines[..i + 1], cards, card);
  }

  /** Reading line `i` after lines `..i` have been read, when it does not read: its error ends the load. */
  lemma LoadStopsAtLine(lines: seq<string>, i: int, cards: seq<Flashcard>, error: LoadError)
    requires 0 <= i < |lines| && LoadAll(lines[..i]) == Ok(cards) && ParseLine(lines[i]) == Err(error)
    ensures LoadAll(lines) == Err(error)
  {
    TakeTake(lines, i, i + 1);
    LoadAllSnocError(lines[..i + 1], cards, error);
    LoadAllStopsAtError(lines, i + 1, |lines|);
    TakeAll(lines);
  }

  /** One `poll` on a non-empty queue returns the first card of the drain; draining the rest gives the others. */
  lemma DrainOne(before: seq<Slot>, after: seq<Slot>, root: Slot)
    requires 2 <= |before| && before[0] == None && LiveSlots(before, |before| - 1)
    requires after == Polled(before, |before| - 1)[..|before| - 1] && root == PolledRoot(before, |before| - 1)
    ensures root.Some? && after[0] == None && LiveSlots(after, |after| - 1)
    ensures Drain(before) == [root.value] + Drain(after)
  {
    var n := |before| - 1;
    PolledValid(before, n);
    assert LiveSlots(after, |after| - 1) by {
      forall k | 1 <= k <= |after| - 1 ensures after[k].Some? {
        assert after[k] == Polled(before, n)[k];
      }
    }
  }

  /** The same `add` after the same cards gives the same live slots. */
  lemma AddedAllStep(live: seq<Slot>, cards: seq<Flashcard>, card: Flashcard, before: seq<Slot>, after: seq<Slot>)
    requires 1 <= |live| && before == AddedAll(live, cards) && after == Added(before, |before| - 1, card)
    ensures after == AddedAll(live, cards + [card])
  {
    assert (cards + [card])[..|cards|] == cards;
  }

  /** Each line written is a record and a line break. */
  function Terminated(lines: seq<string>): (written: seq<string>)
    ensures |written| == |lines|
    decreases |lines|
  {
    if lines == [] then [] else Terminated(lines[..|lines| - 1]) + [lines[|lines| - 1] + "\n"]
  }

  /** Writing one more card writes one more line. */
  lemma WrittenStep(cards: seq<Flashcard>, card: Flashcard)
    ensures Terminated(Records(cards + [card])) == Terminated(Records(cards)) + [card.ToString() + "\n"]
  {
    assert (cards + [card])[..|cards|] == cards;
    var lines := Records(cards + [card]);
    assert lines[..|lines| - 1] == Records(cards);
  }

  /** The live cards of a queue are those of its live slots. */
  lemma CardsOfLive(h: seq<Slot>, n: int)
    requires 0 <= n < |h|
    ensures Cards(h[..n + 1]) == LiveCards(h, n)
  {
    LiveCardsPrefix(h, n, n + 1);
  }

  /** Rebuilding a queue from its drained cards keeps its live cards. */
  lemma SaveKeepsCards(live0: seq<Slot>, drained: seq<Flashcard>, h0: seq<Slot>, n0: int, h: seq<Slot>, n: int)
    requires 0 <= n0 < |h0| && live0 == h0[..n0 + 1] && live0[0] == None && LiveSlots(live0, n0)
    requires drained == Drain(live0)
    requires 0 <= n < |h| && h[..n + 1] == AddedAll([None], drained)
    ensures LiveCards(h, n) == LiveCards(h0, n0)
  {
    CardsOfLive(h, n);
    CardsOfLive(h0, n0);
    AddedAllPermutes([None], drained);
    DrainPermutes(live0);
    assert Cards([None]) == multiset{};
  }

  /** One round of the save loop keeps the loop's three accounts in step. */
  lemma SaveStep(live0: seq<Slot>, polled: seq<Flashcard>, before: seq<Slot>, after: seq<Slot>, root: Slot,
                 copied: seq<Slot>, copied': seq<Slot>, written: seq<string>, line: string)
    requires 1 <= |live0| && live0[0] == None && LiveSlots(live0, |live0| - 1)
    requires 2 <= |before| && before[0] == None && LiveSlots(before, |before| - 1)
    requires Drain(live0) == polled + Drain(before)
    requires after == Polled(before, |before| - 1)[..|before| - 1] && root == PolledRoot(before, |before| - 1)
    requires root.Some? && copied == AddedAll([None], polled) && copied' == Added(copied, |copied| - 1, root.value)
    requires written == Terminated(Records(polled)) && line == root.value.ToString() + "\n"
    ensures after[0] == None && LiveSlots(after, |after| - 1)
    ensures Drain(live0) == (polled + [root.value]) + Drain(after)
    ensures copied' == AddedAll([None], polled + [root.value])
    ensures written + [line] == Terminated(Records(polled + [root.value]))
  {
    DrainOne(before, after, root);
    WrittenStep(polled, root.value);
    AddedAllStep([None], polled, root.value, copied, copied');
    ConcatAssociates(polled, [root.value], Drain(after));
  }

  /** One `poll` on a non-empty queue returns a card, leaves valid live slots, and takes exactly that card out. */
  lemma PollOne(live: seq<Slot>)
    requires 2 <= |live| && live[0] == None && LiveSlots(live, |live| - 1)
    ensures PolledRoot(live, |live| - 1).Some?
    ensures var rest := Polled(live, |live| - 1)[..|live| - 1];
      && rest[0] == None && LiveSlots(rest, |rest| - 1)
      && Cards(live) == Cards(rest) + multiset{PolledRoot(live, |live| - 1)}
  {
    var n := |live| - 1;
    DrainOne(live, Polled(live, n)[..n], PolledRoot(live, n));
    PolledPermutes(live, n);
    LiveCardsPrefix(Polled(live, n), n - 1, n);
  }

  /** How `displayFlashcards` ends: its loop test fails, it dereferences `null`, or standard input runs out. */
  datatype Outcome = Finished | NullPointer | InputExhausted

  /**
   * The end of a study session: how it ended, the cards polled and shown in
   * order, the live slots left and what slot 1 of the array holds.
   */
  datatype Review = Review(outcome: Outcome, reviewed: seq<Flashcard>, live: seq<Slot>, top: Slot)

  /** A session's end, with `earlier` reviewed before it. */
  function Resumed(earlier: seq<Flashcard>, r: Review): Review
  {
    Review(r.outcome, earlier + r.reviewed, r.live, r.top)
  }

  /** Resuming after `earlier` a session resumed after `more` is resuming after both. */
  lemma ResumedTwice(earlier: seq<Flashcard>, more: seq<Flashcard>, r: Review)
    ensures Resumed(earlier, Resumed(more, r)) == Resumed(earlier + more, r)
  {
    ConcatAssociates(earlier, more, r.reviewed);
  }

  /** The live slots `peek` leaves: `reheap(1)` on a non-empty queue, unchanged on an empty one. */
  ghost function Shown(live: seq<Slot>): (shown: seq<Slot>)
    requires 1 <= |live| && live[0] == None && LiveSlots(live, |live| - 1)
    ensures |shown| == |live| && shown[0] == None && LiveSlots(shown, |shown| - 1)
    ensures Cards(shown) == Cards(live)
  {
    if |live| == 1 then live
    else
      ReheapedFacts(live, |live| - 1);
      Reheaped(live, |live| - 1)
  }

  /**
   * One round of the loop of `displayFlashcards`: how the session stops in it,
   * if it does, the card it shows, if any, and the live slots and slot 1 it
   * leaves.
   */
  datatype Round = Round(stop: Option<Outcome>, shown: seq<Flashcard>, live: seq<Slot>, top: Slot)

  /**
   * One round of the loop of `displayFlashcards` on live slots `live`, slot 1
   * holding `top`, the clock at `now` and `input` the lines left on standard
   * input. It peeks; a `null` stops the session with a `NullPointerException`,
   * a card due after `now` stops it normally. Otherwise it polls (`null` again
   * on an empty queue), shows the card, reads a line before its back and a line
   * for the answer, and puts the card back rescheduled for answers "1" and "2".
   */
  ghost function StudyRound(live: seq<Slot>, top: Slot, now: DateTime, input: seq<string>): (r: Round)
    requires 1 <= |live| && live[0] == None && LiveSlots(live, |live| - 1)
    ensures 1 <= |r.live| && r.live[0] == None && LiveSlots(r.live, |r.live| - 1)
    ensures r.stop.None? ==> 2 <= |input|
  {
    var shown := Shown(live);
    var peeked := if |shown| == 1 then top else shown[1];
    if peeked.None? then Round(Some(NullPointer), [], shown, peeked)
    else if peeked.value.dueDate > now then Round(Some(Finished), [], shown, peeked)
    else if |shown| == 1 then Round(Some(NullPointer), [], shown, peeked)
    else
      PollOne(shown);
      var polled := Polled(shown, |shown| - 1);
      var rest := polled[..|shown| - 1];
      var card := PolledRoot(shown, |shown| - 1).value;
      Answered(card, rest, polled[1], input)
  }

  /**
   * The second half of a round: `card` has been polled, leaving live slots
   * `live` and slot 1 holding `top`; the answer is the second line of `input`.
   */
  ghost function Answered(card: Flashcard, live: seq<Slot>, top: Slot, input: seq<string>): (r: Round)
    requires 1 <= |live| && live[0] == None && LiveSlots(live, |live| - 1)
    ensures 1 <= |r.live| && r.live[0] == None && LiveSlots(r.live, |r.live| - 1)
    ensures r.stop.None? ==> 2 <= |input|
  {
    if |input| < 2 then Round(Some(InputExhausted), [card], live, top)
    else
      match Reschedule(card, input[1])
      case None => Round(None, [card], live, top)
      case Some(c) =>
        AddedOne(live, c);
        var next := Added(live, |live| - 1, c);
        Round(None, [card], next, next[1])
  }

  /** `displayFlashcards` from live slots `live` and slot 1 holding `top`: rounds until one stops the session. */
  ghost function Session(live: seq<Slot>, top: Slot, now: DateTime, input: seq<string>): (r: Review)
    requires 1 <= |live| && live[0] == None && LiveSlots(live, |live| - 1)
    ensures 1 <= |r.live| && r.live[0] == None && LiveSlots(r.live, |r.live| - 1)
    decreases |input|
  {
    var round := StudyRound(live, top, now, input);
    if round.stop.Some? then Review(round.stop.value, round.shown, round.live, round.top)
    else Resumed(round.shown, Session(round.live, round.top, now, input[2..]))
  }

  /** The cards put back by a session that reviewed `reviewed`, answering with every second line of `input`. */
  function Requeued(reviewed: seq<Flashcard>, input: seq<string>): (cards: seq<Flashcard>)
    ensures |cards| <= |reviewed|
    decreases |reviewed|
  {
    if reviewed == [] || |input| < 2 then []
    else
      match Reschedule(reviewed[0], input[1])
      case None => Requeued(reviewed[1..], input[2..])
      case Some(c) => [c] + Requeued(reviewed[1..], input[2..])
  }

  /**
   * What a round shows: nothing when it stops at `peek` or at a `null`, and one
   * card otherwise. A `null` only comes from an empty queue, and a round that
   * empties the queue leaves the card it showed in slot 1.
   */
  lemma RoundShape(live: seq<Slot>, top: Slot, now: DateTime, input: seq<string>)
    requires 1 <= |live| && live[0] == None && LiveSlots(live, |live| - 1)
    ensures var round := StudyRound(live, top, now, input);
      && |round.shown| <= 1
      && (round.shown == [] <==> round.stop == Some(NullPointer) || round.stop == Some(Finished))
      && (round.stop == Some(InputExhausted) <==> round.shown != [] && |input| < 2)
      && (round.stop == Some(NullPointer) ==> |live| == 1 && round.live == live && round.top == top)
      && (round.stop.None? && |round.live| == 1 ==> round.top == Some(round.shown[0]))
  {
    var shown := Shown(live);
    if |shown| == 2 {
      assert Polled(shown, 1)[1] == PolledRoot(shown, 1);
    }
  }

  /** A round that shows a card polled it from the non-empty queue `peek` left, and put back what the answer says. */
  lemma RoundPolls(live: seq<Slot>, top: Slot, now: DateTime, input: seq<string>)
    requires 1 <= |live| && live[0] == None && LiveSlots(live, |live| - 1)
    requires StudyRound(live, top, now, input).shown != []
    ensures var round := StudyRound(live, top, now, input);
      var shown := Shown(live);
      && 2 <= |shown|
      && var rest := Polled(shown, |shown| - 1)[..|shown| - 1];
      && var card := PolledRoot(shown, |shown| - 1);
      && card.Some? && round.shown == [card.value]
      && (round.stop.Some? || Reschedule(card.value, input[1]).None? ==> round.live == rest)
      && (round.stop.None? && Reschedule(card.value, input[1]).Some? ==>
            round.live == Added(rest, |rest| - 1, Reschedule(card.value, input[1]).value))
  {
    RoundShape(live, top, now, input);
    PollOne(Shown(live));
  }

  /** A round that shows no card leaves the cards of the queue as they were. */
  lemma RoundKeepsCardsIdle(live: seq<Slot>, top: Slot, now: DateTime, input: seq<string>)
    requires 1 <= |live| && live[0] == None && LiveSlots(live, |live| - 1)
    ensures var round := StudyRound(live, top, now, input);
      round.shown == [] ==> Cards(round.live) == Cards(live)
  {
    RoundShape(live, top, now, input);
  }

  /** A round that shows a card and does not put it back takes exactly that card out of the queue. */
  lemma RoundKeepsCardsDropped(live: seq<Slot>, top: Slot, now: DateTime, input: seq<string>)
    requires 1 <= |live| && live[0] == None && LiveSlots(live, |live| - 1)
    ensures var round := StudyRound(live, top, now, input);
      round.shown != [] && (round.stop.Some? || Reschedule(round.shown[0], input[1]).None?) ==>
        Cards(live) == Cards(round.live) + multiset{Some(round.shown[0])}
  {
    if StudyRound(live, top, now, input).shown != [] {
      RoundPolls(live, top, now, input);
      PollOne(Shown(live));
    }
  }

  /** A round that shows a card and puts it back rescheduled trades the card for its rescheduled copy. */
  lemma RoundKeepsCardsRequeued(live: seq<Slot>, top: Slot, now: DateTime, input: seq<string>)
    requires 1 <= |live| && live[0] == None && LiveSlots(live, |live| - 1)
    ensures var round := StudyRound(live, top, now, input);
      round.shown != [] && round.stop.None? && Reschedule(round.shown[0], input[1]).Some? ==>
        Cards(live) + multiset{Some(Reschedule(round.shown[0], input[1]).value)} == Cards(round.live) + multiset{Some(round.shown[0])}
  {
    var round := StudyRound(live, top, now, input);
    if round.shown != [] && round.stop.None? && Reschedule(round.shown[0], input[1]).Some? {
      RoundPolls(live, top, now, input);
      var shown := Shown(live);
      PollOne(shown);
      AddedOne(Polled(shown, |shown| - 1)[..|shown| - 1], Reschedule(round.shown[0], input[1]).value);
    }
  }

  /** The card an answer puts back, as a sequence of none or one. */
  function PutBack(card: Flashcard, guess: string): (cards: seq<Flashcard>)
    ensures Reschedule(card, guess).None? ==> cards == []
    ensures Reschedule(card, guess).Some? ==> cards == [Reschedule(card, guess).value]
  {
    match Reschedule(card, guess)
    case None => []
    case Some(c) => [c]
  }

  /** The cards put back after reviewing `card` first are its own, then the others'. */
  lemma RequeuedCons(card: Flashcard, more: seq<Flashcard>, input: seq<string>)
    requires 2 <= |input|
    ensures Requeued([card] + more, input) == PutBack(card, input[1]) + Requeued(more, input[2..])
  {
    TailOfCons(card, more);
  }

  /** The multiset bookkeeping of one round followed by the rest of the session. */
  lemma CardsStep(before: multiset<Slot>, after: multiset<Slot>, card: Flashcard, back: seq<Flashcard>,
                  left: multiset<Slot>, reviewed: seq<Flashcard>, requeued: seq<Flashcard>)
    requires |back| <= 1
    requires back == [] ==> before == after + multiset{Some(card)}
    requires back != [] ==> before + multiset{Some(back[0])} == after + multiset{Some(card)}
    requires after + Slots(requeued) == left + Slots(reviewed)
    ensures before + Slots(back + requeued) == left + Slots([card] + reviewed)
  {
    SlotsAppend(back, requeued);
    SlotsAppend([card], reviewed);
    assert Slots([card]) == multiset{Some(card)} by {
      assert [card][..0] == [];
    }
    if back == [] {
      assert Slots(back) == multiset{};
    } else {
      assert Slots(back) == multiset{Some(back[0])} by {
        assert back[..0] == [];
      }
    }
    TradeTwice(before, Slots(back), after, multiset{Some(card)}, Slots(requeued), left, Slots(reviewed));
  }

  /** A round that stops the session shows at most one card, and takes out of the queue exactly the card it shows. */
  lemma RoundStopsKeepingCards(live: seq<Slot>, top: Slot, now: DateTime, input: seq<string>)
    requires 1 <= |live| && live[0] == None && LiveSlots(live, |live| - 1)
    requires StudyRound(live, top, now, input).stop.Some?
    ensures var round := StudyRound(live, top, now, input);
      && |round.shown| <= 1
      && (round.shown == [] ==> Cards(live) == Cards(round.live))
      && (round.shown != [] ==> |input| < 2 && Cards(live) == Cards(round.live) + multiset{Some(round.shown[0])})
  {
    RoundShape(live, top, now, input);
    RoundKeepsCardsIdle(live, top, now, input);
    RoundKeepsCardsDropped(live, top, now, input);
  }

  /** A session whose first round stops it ends as that round does. */
  lemma SessionStops(live: seq<Slot>, top: Slot, now: DateTime, input: seq<string>)
    requires 1 <= |live| && live[0] == None && LiveSlots(live, |live| - 1)
    requires StudyRound(live, top, now, input).stop.Some?
    ensures var round := StudyRound(live, top, now, input);
      Session(live, top, now, input) == Review(round.stop.value, round.shown, round.live, round.top)
  {
  }

  /** The bookkeeping of a session that ends having shown at most one card, with no answer read. */
  lemma StoppedKeepsCards(before: multiset<Slot>, input: seq<string>, r: Review)
    requires 1 <= |r.live| && r.live[0] == None && LiveSlots(r.live, |r.live| - 1)
    requires |r.reviewed| <= 1
    requires r.reviewed == [] ==> before == Cards(r.live)
    requires r.reviewed != [] ==> |input| < 2 && before == Cards(r.live) + multiset{Some(r.reviewed[0])}
    ensures before + Slots(Requeued(r.reviewed, input)) == Cards(r.live) + Slots(r.reviewed)
  {
    if r.reviewed != [] {
      assert Slots(r.reviewed) == multiset{Some(r.reviewed[0])} by {
        assert r.reviewed[..0] == [];
      }
    }
  }

  /** `SessionKeepsCards` for a session that stops in its first round. */
  lemma KeepsCardsStop(live: seq<Slot>, top: Slot, now: DateTime, input: seq<string>)
    requires 1 <= |live| && live[0] == None && LiveSlots(live, |live| - 1)
    requires StudyRound(live, top, now, input).stop.Some?
    ensures var r := Session(live, top, now, input);
      Cards(live) + Slots(Requeued(r.reviewed, input)) == Cards(r.live) + Slots(r.reviewed)
  {
    RoundStopsKeepingCards(live, top, now, input);
    SessionStops(live, top, now, input);
    StoppedKeepsCards(Cards(live), input, Session(live, top, now, input));
  }

  /** A round that does not stop the session shows one card and trades it for what the answer puts back. */
  lemma RoundTrades(live: seq<Slot>, top: Slot, now: DateTime, input: seq<string>)
    requires 1 <= |live| && live[0] == None && LiveSlots(live, |live| - 1)
    requires StudyRound(live, top, now, input).stop.None?
    ensures var round := StudyRound(live, top, now, input);
      && 2 <= |input| && |round.shown| == 1
      && var card := round.shown[0];
      && (PutBack(card, input[1]) == [] ==> Cards(live) == Cards(round.live) + multiset{Some(card)})
      && (PutBack(card, input[1]) != [] ==>
            Cards(live) + multiset{Some(PutBack(card, input[1])[0])} == Cards(round.live) + multiset{Some(card)})
  {
    RoundShape(live, top, now, input);
    RoundKeepsCardsDropped(live, top, now, input);
    RoundKeepsCardsRequeued(live, top, now, input);
  }

  /** A session whose first round does not stop it is that round's card, then the session from what the round left. */
  lemma SessionGoesOn(live: seq<Slot>, top: Slot, now: DateTime, input: seq<string>)
    requires 1 <= |live| && live[0] == None && LiveSlots(live, |live| - 1)
    requires StudyRound(live, top, now, input).stop.None? && |StudyRound(live, top, now, input).shown| == 1
    ensures var round := StudyRound(live, top, now, input);
      Session(live, top, now, input) == Resumed([round.shown[0]], Session(round.live, round.top, now, input[2..]))
  {
    var round := StudyRound(live, top, now, input);
    assert round.shown == [round.shown[0]];
  }

  /** The bookkeeping of a session that reviews `card` first and then goes on as `sub`. */
  lemma ResumedKeepsCards(before: multiset<Slot>, after: multiset<Slot>, card: Flashcard, input: seq<string>, sub: Review)
    requires 2 <= |input|
    requires 1 <= |sub.live| && sub.live[0] == None && LiveSlots(sub.live, |sub.live| - 1)
    requires PutBack(card, input[1]) == [] ==> before == after + multiset{Some(card)}
    requires PutBack(card, input[1]) != [] ==>
      before + multiset{Some(PutBack(card, input[1])[0])} == after + multiset{Some(card)}
    requires after + Slots(Requeued(sub.reviewed, input[2..])) == Cards(sub.live) + Slots(sub.reviewed)
    ensures var r := Resumed([card], sub);
      before + Slots(Requeued(r.reviewed, input)) == Cards(r.live) + Slots(r.reviewed)
  {
    RequeuedCons(card, sub.reviewed, input);
    CardsStep(before, after, card, PutBack(card, input[1]), Cards(sub.live), sub.reviewed, Requeued(sub.reviewed, input[2..]));
  }

  /** `SessionKeepsCards` for a session that goes on after its first round, given it for the rest. */
  lemma KeepsCardsNext(live: seq<Slot>, top: Slot, now: DateTime, input: seq<string>)
    requires 1 <= |live| && live[0] == None && LiveSlots(live, |live| - 1)
    requires StudyRound(live, top, now, input).stop.None?
    requires var round := StudyRound(live, top, now, input);
      var sub := Session(round.live, round.top, now, input[2..]);
      Cards(round.live) + Slots(Requeued(sub.reviewed, input[2..])) == Cards(sub.live) + Slots(sub.reviewed)
    ensures var r := Session(live, top, now, input);
      Cards(live) + Slots(Requeued(r.reviewed, input)) == Cards(r.live) + Slots(r.reviewed)
  {
    var round := StudyRound(live, top, now, input);
    RoundTrades(live, top, now, input);
    SessionGoesOn(live, top, now, input);
    ResumedKeepsCards(Cards(live), Cards(round.live), round.shown[0], input, Session(round.live, round.top, now, input[2..]));
  }

  /**
   * A session loses no card and makes none up: the cards in the queue before,
   * with those it put back, are the cards left in the queue with those it
   * polled and showed.
   */
  lemma {:induction false} SessionKeepsCards(live: seq<Slot>, top: Slot, now: DateTime, input: seq<string>)
    requires 1 <= |live| && live[0] == None && LiveSlots(live, |live| - 1)
    ensures var r := Session(live, top, now, input);
      Cards(live) + Slots(Requeued(r.reviewed, input)) == Cards(r.live) + Slots(r.reviewed)
    decreases |input|
  {
    var round := StudyRound(live, top, now, input);
    if round.stop.Some? {
      KeepsCardsStop(live, top, now, input);
    } else {
      SessionKeepsCards(round.live, round.top, now, input[2..]);
      KeepsCardsNext(live, top, now, input);
    }
  }

  /**
   * Each card shown takes two lines of input, one before its back and one for
   * the answer; the session runs out of input exactly when the lines left do
   * not cover the cards it showed.
   */
  lemma {:induction false} SessionReadsTwoLinesPerCard(live: seq<Slot>, top: Slot, now: DateTime, input: seq<string>)
    requires 1 <= |live| && live[0] == None && LiveSlots(live, |live| - 1)
    ensures var r := Session(live, top, now, input);
      && (r.outcome == InputExhausted <==> |input| < 2 * |r.reviewed|)
      && (r.outcome == InputExhausted ==> |input| + 2 >= 2 * |r.reviewed|)
    decreases |input|
  {
    var round := StudyRound(live, top, now, input);
    RoundShape(live, top, now, input);
    if round.stop.None? {
      SessionReadsTwoLinesPerCard(round.live, round.top, now, input[2..]);
    }
  }

  /**
   * A session only dereferences `null` on an empty queue; when it does so
   * before showing any card, it started on an empty queue and slot 1 is as it
   * was.
   */
  lemma {:induction false} SessionCrashesOnEmptyQueue(live: seq<Slot>, top: Slot, now: DateTime, input: seq<string>)
    requires 1 <= |live| && live[0] == None && LiveSlots(live, |live| - 1)
    ensures var r := Session(live, top, now, input);
      r.outcome == NullPointer ==> |r.live| == 1 && (r.reviewed == [] ==> |live| == 1 && r.top == top)
    decreases |input|
  {
    var round := StudyRound(live, top, now, input);
    RoundShape(live, top, now, input);
    if round.stop.None? {
      SessionCrashesOnEmptyQueue(round.live, round.top, now, input[2..]);
    }
  }

  /** Resuming after `card` a session whose crash follows the last card it showed, or `card` when it showed none. */
  lemma CrashAfterCard(card: Flashcard, sub: Review)
    requires sub.outcome == NullPointer && sub.reviewed == [] ==> sub.top == Some(card)
    requires sub.outcome == NullPointer && sub.reviewed != [] ==> sub.top == Some(sub.reviewed[|sub.reviewed| - 1])
    ensures var r := Resumed([card], sub);
      r.outcome == NullPointer ==> r.top == Some(r.reviewed[|r.reviewed| - 1])
  {
    if sub.reviewed != [] {
      LastOfCons(card, sub.reviewed);
    }
  }

  /**
   * After a card is shown, a crash needs the queue it leaves to be empty: the
   * next `peek` returns that card again from slot 1, it is due, and `poll`
   * returns `null`.
   */
  lemma {:induction false} SessionCrashFollowsLastCard(live: seq<Slot>, top: Slot, now: DateTime, input: seq<string>)
    requires 1 <= |live| && live[0] == None && LiveSlots(live, |live| - 1)
    ensures var r := Session(live, top, now, input);
      r.outcome == NullPointer && r.reviewed != [] ==> r.top == Some(r.reviewed[|r.reviewed| - 1])
    decreases |input|
  {
    var round := StudyRound(live, top, now, input);
    RoundShape(live, top, now, input);
    if round.stop.Some? {
      SessionStops(live, top, now, input);
    } else {
      SessionGoesOn(live, top, now, input);
      SessionCrashFollowsLastCard(round.live, round.top, now, input[2..]);
      SessionCrashesOnEmptyQueue(round.live, round.top, now, input[2..]);
      CrashAfterCard(round.shown[0], Session(round.live, round.top, now, input[2..]));
    }
  }

  /** A session that stops normally stops at a live card due after `now`, the first card of the queue it leaves. */
  lemma {:induction false} SessionFinishesAtCardNotDue(live: seq<Slot>, top: Slot, now: DateTime, input: seq<string>)
    requires 1 <= |live| && live[0] == None && LiveSlots(live, |live| - 1)
    ensures var r := Session(live, top, now, input);
      r.outcome == Finished ==> r.top.Some? && r.top.value.dueDate > now && (|r.live| >= 2 ==> r.top == r.live[1])
    decreases |input|
  {
    var round := StudyRound(live, top, now, input);
    if round.stop.None? {
      SessionFinishesAtCardNotDue(round.live, round.top, now, input[2..]);
    }
  }

  /**
   * Dropping the last due card of the queue crashes the session: with one card,
   * due by `now`, and an answer other than "1" or "2", the card is shown, the
   * queue is left empty with the card still in slot 1, and the next round
   * dereferences the `null` that `poll` returns.
   */
  lemma DroppingLastCardCrashes(card: Flashcard, top: Slot, now: DateTime, input: seq<string>)
    requires card.dueDate <= now && 2 <= |input| && input[1] != "1" && input[1] != "2"
    ensures Session([None, Some(card)], top, now, input) == Review(NullPointer, [card], [None], Some(card))
  {
    var live := [None, Some(card)];
    assert Shown(live) == live;
    assert Polled(live, 1)[..1] == [None];
    var round := StudyRound(live, top, now, input);
    assert round == Round(None, [card], [None], Some(card));
    assert StudyRound([None], Some(card), now, input[2..]) == Round(Some(NullPointer), [], [None], Some(card));
  }

  /** The displayer: the queue of flashcards it studies from. */
  class FlashcardDisplayer {
    var flashcards: FlashcardPriorityQueue

    ghost predicate Valid()
      reads this, flashcards, flashcards.heap
    {
      flashcards.Valid()
    }

    /** A displayer studying from the queue `flashcards`. */
    constructor (flashcards: FlashcardPriorityQueue)
      ensures this.flashcards == flashcards
    {
      this.flashcards := flashcards;
    }

    /**
     * One turn of the loop of the constructor: reads line `i` and adds its card
     * to `queue`, or gives the error that aborts the load. The ghost `cards`
     * are those of the lines before.
     */
    static method LoadNext(queue: FlashcardPriorityQueue, lines: seq<string>, i: int, ghost cards: seq<Flashcard>)
      returns (parsed: Result<Flashcard, LoadError>)
      requires 0 <= i < |lines| && queue.Valid()
      requires LoadAll(lines[..i]) == Ok(cards) && queue.Live() == AddedAll([None], cards)
      modifies queue, queue.heap
      ensures queue.Valid() && (queue.heap == old(queue.heap) || fresh(queue.heap))
      ensures parsed.Err? ==> LoadAll(lines) == Err(parsed.error)
      ensures parsed.Ok? ==> LoadAll(lines[..i + 1]) == Ok(cards + [parsed.value])
      ensures parsed.Ok? ==> queue.Live() == AddedAll([None], cards + [parsed.value])
    {
      parsed := ParseLine(lines[i]);
      if parsed.Err? {
        LoadStopsAtLine(lines, i, cards, parsed.error);
        return;
      }
      LoadReadsLine(lines, i, cards, parsed.value);
      ghost var queueBefore := queue.Live();
      assert |queueBefore| - 1 == queue.lastIndex;
      queue.Add(parsed.value);
      AddedAllStep([None], cards, parsed.value, queueBefore, queue.Live());
    }

    /**
     * The loop of the constructor: a fresh queue, then each line read and its
     * card added, in file order. A line that does not read aborts the load with
     * its error.
     */
    static method LoadLines(lines: seq<string>) returns (r: Result<FlashcardPriorityQueue, LoadError>)
      ensures r.Err? <==> LoadAll(lines).Err?
      ensures r.Err? ==> r.error == LoadAll(lines).error
      ensures r.Ok? ==> fresh(r.value) && fresh(r.value.heap) && r.value.Valid()
      ensures r.Ok? ==> r.value.Live() == AddedAll([None], LoadAll(lines).value)
    {
      var queue := new FlashcardPriorityQueue();
      ghost var cards: seq<Flashcard> := [];
      var i := 0;
      while i < |lines|
        invariant 0 <= i <= |lines|
        invariant queue.Valid() && fresh(queue) && fresh(queue.heap)
        invariant LoadAll(lines[..i]) == Ok(cards)
        invariant queue.Live() == AddedAll([None], cards)
      {
        var parsed := LoadNext(queue, lines, i, cards);
        if parsed.Err? {
          return Err(parsed.error);
        }
        cards := cards + [parsed.value];
        i := i + 1;
      }
      TakeAll(lines);
      r := Ok(queue);
    }

    /**
     * The constructor, loading a flashcard file given as its lines. A line that
     * does not read aborts the load with its error; a file that cannot be
     * opened (`None`) leaves the queue empty.
     */
    static method Open(file: Option<seq<string>>) returns (r: Result<FlashcardDisplayer, LoadError>)
      ensures r.Err? <==> file.Some? && LoadAll(file.value).Err?
      ensures r.Err? ==> r.error == LoadAll(file.value).error
      ensures r.Ok? ==> fresh(r.value) && fresh(r.value.flashcards) && fresh(r.value.flashcards.heap)
      ensures r.Ok? ==> r.value.Valid()
      ensures r.Ok? && file.None? ==> r.value.flashcards.Live() == [None]
      ensures r.Ok? && file.Some? ==> r.value.flashcards.Live() == AddedAll([None], LoadAll(file.value).value)
    {
      var queue;
      if file.Some? {
        var loaded := LoadLines(file.value);
        if loaded.Err? {
          return Err(loaded.error);
        }
        queue := loaded.value;
      } else {
        queue := new FlashcardPriorityQueue();
      }
      var displayer := new FlashcardDisplayer(queue);
      r := Ok(displayer);
    }

    /**
     * One turn of the loop in `saveFlashcards`: polls a card, gives the line
     * written for it, and adds it to `copyQueue`. The ghost parameters are the
     * loop's accounts so far: the queue it started from, the cards polled and
     * the lines written.
     */
    method SaveNext(copyQueue: FlashcardPriorityQueue, ghost live0: seq<Slot>, ghost polled: seq<Flashcard>, ghost written: seq<string>)
      returns (line: string, ghost card: Flashcard)
      requires Valid() && copyQueue.Valid() && flashcards.lastIndex >= 1
      requires copyQueue != flashcards && copyQueue.heap != flashcards.heap
      requires 1 <= |live0| && live0[0] == None && LiveSlots(live0, |live0| - 1)
      requires Drain(live0) == polled + Drain(flashcards.Live())
      requires copyQueue.Live() == AddedAll([None], polled)
      requires written == Terminated(Records(polled))
      modifies flashcards, flashcards.heap, copyQueue, copyQueue.heap
      ensures Valid() && copyQueue.Valid()
      ensures flashcards.heap == old(flashcards.heap)
      ensures copyQueue.heap == old(copyQueue.heap) || fresh(copyQueue.heap)
      ensures flashcards.lastIndex == old(flashcards.lastIndex) - 1
      ensures Drain(live0) == (polled + [card]) + Drain(flashcards.Live())
      ensures copyQueue.Live() == AddedAll([None], polled + [card])
      ensures written + [line] == Terminated(Records(polled + [card]))
    {
      ghost var before, copied := flashcards.Live(), copyQueue.Live();
      assert |before| - 1 == flashcards.lastIndex && |copied| - 1 == copyQueue.lastIndex;
      var copiedCard := flashcards.Poll();
      card := copiedCard.value;
      line := copiedCard.value.ToString() + "\n";
      copyQueue.Add(copiedCard.value);
      SaveStep(live0, polled, before, flashcards.Live(), copiedCard, copied, copyQueue.Live(), written, line);
    }

    /**
     * The loop of `saveFlashcards`: polls every card off the queue, writing each
     * one and adding it to `copyQueue`; `polled` is the order they came off in.
     */
    method SaveAll(copyQueue: FlashcardPriorityQueue) returns (written: seq<string>, ghost polled: seq<Flashcard>)
      requires Valid() && copyQueue.Valid() && copyQueue.Live() == [None]
      requires copyQueue != flashcards && copyQueue.heap != flashcards.heap
      modifies flashcards, flashcards.heap, copyQueue, copyQueue.heap
      ensures Valid() && copyQueue.Valid() && flashcards.lastIndex == 0
      ensures flashcards.heap == old(flashcards.heap)
      ensures copyQueue.heap == old(copyQueue.heap) || fresh(copyQueue.heap)
      ensures polled == Drain(old(flashcards.Live()))
      ensures copyQueue.Live() == AddedAll([None], polled)
      ensures written == Terminated(Records(polled))
    {
      written := [];
      ghost var live0 := flashcards.Live();
      polled := [];
      while !flashcards.IsEmpty()
        invariant Valid() && copyQueue.Valid()
        invariant flashcards.heap == old(flashcards.heap)
        invariant copyQueue.heap == old(copyQueue.heap) || fresh(copyQueue.heap)
        invariant Drain(live0) == polled + Drain(flashcards.Live())
        invariant copyQueue.Live() == AddedAll([None], polled)
        invariant written == Terminated(Records(polled))
        decreases flashcards.lastIndex
      {
        ghost var card;
        var line;
        line, card := SaveNext(copyQueue, live0, polled, written);
        written := written + [line];
        polled := polled + [card];
      }
      AppendEmpty(polled);
    }

    /**
     * `saveFlashcards`: when the output file opens (`canOpen`), polls every card
     * off the queue, writing each card's `toString` and a line break, and adds it
     * to a fresh queue, which then replaces the drained one. When it does not
     * open, nothing is written and the queue is untouched.
     */
    method SaveFlashcards(canOpen: bool) returns (done: bool, written: seq<string>)
      requires Valid()
      modifies this, flashcards, flashcards.heap
      ensures Valid()
      ensures !canOpen ==> !done && written == [] && flashcards == old(flashcards)
      ensures !canOpen ==> flashcards.lastIndex == old(flashcards.lastIndex) && flashcards.heap[..] == old(flashcards.heap[..])
      ensures canOpen ==> done && fresh(flashcards) && fresh(flashcards.heap)
      ensures canOpen ==> written == Terminated(Records(Drain(old(flashcards.Live()))))
      ensures canOpen ==> flashcards.Live() == AddedAll([None], Drain(old(flashcards.Live())))
      ensures flashcards.Elements() == old(flashcards.Elements())
    {
      if !canOpen {
        return false, [];
      }
      ghost var live0, h0, n0 := flashcards.Live(), flashcards.heap[..], flashcards.lastIndex;
      var copyQueue := new FlashcardPriorityQueue();
      ghost var polled;
      written, polled := SaveAll(copyQueue);
      flashcards := copyQueue;
      done := true;
      SaveKeepsCards(live0, polled, h0, n0, flashcards.heap[..], flashcards.lastIndex);
    }

    /**
     * One round of the loop of `displayFlashcards`, its test included, with the
     * clock reading `now` and `input` the lines left on standard input. It
     * gives the outcome when the session ends in this round, and the card it
     * showed, if any; either way it does what `Session` says.
     */
    method Turn(now: DateTime, input: seq<string>) returns (stop: Option<Outcome>, shown: seq<Flashcard>)
      requires Valid()
      modifies flashcards, flashcards.heap
      ensures Valid() && (flashcards.heap == old(flashcards.heap) || fresh(flashcards.heap))
      ensures StudyRound(old(flashcards.Live()), old(flashcards.heap[1]), now, input) == Round(stop, shown, flashcards.Live(), flashcards.heap[1])
    {
      ghost var live, top := flashcards.Live(), flashcards.heap[1];
      assert |live| - 1 == flashcards.lastIndex;
      var peeked := flashcards.Peek();
      assert flashcards.Live() == Shown(live);
      if peeked.None? {
        return Some(NullPointer), [];
      }
      if peeked.value.dueDate > now {
        return Some(Finished), [];
      }
      var currentCard := flashcards.Poll();
      if currentCard.None? {
        return Some(NullPointer), [];
      }
      stop, shown := Answer(currentCard.value, input);
    }

    /**
     * The rest of a round of `displayFlashcards` once `card` has been polled:
     * reads the answer from `input` and puts the card back as it says.
     */
    method Answer(card: Flashcard, input: seq<string>) returns (stop: Option<Outcome>, shown: seq<Flashcard>)
      requires Valid()
      modifies flashcards, flashcards.heap
      ensures Valid() && (flashcards.heap == old(flashcards.heap) || fresh(flashcards.heap))
      ensures Answered(card, old(flashcards.Live()), old(flashcards.heap[1]), input) == Round(stop, shown, flashcards.Live(), flashcards.heap[1])
    {
      shown := [card];
      if |input| < 2 {
        return Some(InputExhausted), shown;
      }
      var guess := input[1];
      ghost var rest := flashcards.Live();
      assert |rest| - 1 == flashcards.lastIndex;
      ghost var putBack := Reschedule(card, guess);
      if guess == "1" {
        var newFlashcard := Rebuilt(card, card.dueDate + SECONDS_PER_DAY);
        flashcards.Add(newFlashcard);
        assert flashcards.Live() == Added(rest, |rest| - 1, putBack.value);
        assert flashcards.heap[1] == flashcards.Live()[1];
      } else if guess == "2" {
        var newFlashcard := Rebuilt(card, card.dueDate + SECONDS_PER_MINUTE);
        flashcards.Add(newFlashcard);
        assert flashcards.Live() == Added(rest, |rest| - 1, putBack.value);
        assert flashcards.heap[1] == flashcards.Live()[1];
      } else {
        assert putBack.None?;
      }
      stop := None;
    }

    /**
     * `displayFlashcards` with the clock reading `now` and `input` the lines on
     * standard input: it ends as `Session` of the queue and slot 1 says, having
     * shown the same cards, and leaves the queue as `Session` says.
     */
    method DisplayFlashcards(now: DateTime, input: seq<string>) returns (outcome: Outcome, reviewed: seq<Flashcard>)
      requires Valid()
      modifies flashcards, flashcards.heap
      ensures Valid()
      ensures var r := Session(old(flashcards.Live()), old(flashcards.heap[1]), now, input);
        && outcome == r.outcome && reviewed == r.reviewed
        && flashcards.Live() == r.live && flashcards.heap[1] == r.top
    {
      ghost var goal := Session(flashcards.Live(), flashcards.heap[1], now, input);
      var pos := 0;
      reviewed := [];
      while true
        invariant Valid() && 0 <= pos <= |input|
        invariant flashcards.heap == old(flashcards.heap) || fresh(flashcards.heap)
        invariant goal == Resumed(reviewed, Session(flashcards.Live(), flashcards.heap[1], now, input[pos..]))
        decreases |input| - pos
      {
        var stop, shown := Turn(now, input[pos..]);
        if stop.Some? {
          ResumedTwice(reviewed, shown, Review(stop.value, [], flashcards.Live(), flashcards.heap[1]));
          return stop.value, reviewed + shown;
        }
        ghost var after := Session(flashcards.Live(), flashcards.heap[1], now, input[pos..][2..]);
        DropTwice(input, pos, 2);
        ResumedTwice(reviewed, shown, after);
        reviewed := reviewed + shown;
        pos := pos + 2;
      }
    }
  }
}
