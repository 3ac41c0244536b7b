/**
 * Runs of the queue as a client sees them: the demonstration in
 * `FlashcardPriorityQueue.main`, the run that shows the lazy repair missing a
 * new minimum, and the run that shows `peek` returning a card already polled.
 *
 * Due dates are seconds since 1970-01-01T00:00; the five demonstration cards
 * carry the dates `main` writes as ISO-8601 text.
 */
module QueueScenarios {
  import opened Wrappers
  import opened Flashcards
  import opened FlashcardQueue

  /** 2016-11-09T04:03 */
  const CARD1 := Flashcard(1478664180, "Welcome to our city!!!", "Ciao ciao...")
  /** 2021-03-02T14:15 */
  const CARD2 := Flashcard(1614694500, "Sawubona.", "Hamba Kahle.")
  /** 2015-11-04T05:25 */
  const CARD3 := Flashcard(1446614700, "Buon giorno", "Ci vediamo.")
  /** 2016-10-09T04:03 */
  const CARD4 := Flashcard(1475985780, "It's a beautiful day.", "Goodnight.")
  /** 2012-11-04T05:25 */
  const CARD5 := Flashcard(1352006700, "What's good!", "Peace.")

  /** The due dates of the five cards of `main`, earliest first: card5, card3, card4, card1, card2. */
  predicate InMainOrder(c1: Flashcard, c2: Flashcard, c3: Flashcard, c4: Flashcard, c5: Flashcard)
  {
    c5.dueDate < c3.dueDate < c4.dueDate < c1.dueDate < c2.dueDate
  }

  /** Adding card1 to the empty queue, then card2, moves nothing, and neither does a peek. */
  lemma AddCard1AndCard2(c1: Flashcard, c2: Flashcard, c3: Flashcard, c4: Flashcard, c5: Flashcard)
    requires InMainOrder(c1, c2, c3, c4, c5)
    ensures Added([None], 0, c1) == [None, Some(c1)]
    ensures Added([None, Some(c1)], 1, c2) == [None, Some(c1), Some(c2)]
    ensures Reheaped([None, Some(c1), Some(c2)], 2) == [None, Some(c1), Some(c2)]
  {
    AddedSettled([None], 0, c1);
    var two := [None, Some(c1), Some(c2)];
    assert [None, Some(c1)][..2] + [Some(c2)] == two;
    assert RootSettled(two, 2);
    AddedSettled([None, Some(c1)], 1, c2);
    ReheapedSettled(two, 2);
  }

  /** Adding card3 to card1 and card2 sifts card3 up to the root, card1 down to slot 3. */
  lemma AddCard3(c1: Flashcard, c2: Flashcard, c3: Flashcard, c4: Flashcard, c5: Flashcard)
    requires InMainOrder(c1, c2, c3, c4, c5)
    ensures Added([None, Some(c1), Some(c2)], 2, c3) == [None, Some(c3), Some(c2), Some(c1)]
  {
    var h := [None, Some(c1), Some(c2), Some(c3)];
    assert h[..3] + [Some(c3)] == h;
    assert SmallestChild(h, 3, 1) == 3;
    var h' := h[1 := h[3]];
    assert 3 * 3 - 1 > 3;
    assert SiftDown(h', 3, 3, Some(c1)) == h'[3 := Some(c1)];
  }

  /** Adding card4 below card3 moves nothing, and neither does a peek. */
  lemma AddCard4(c1: Flashcard, c2: Flashcard, c3: Flashcard, c4: Flashcard, c5: Flashcard)
    requires InMainOrder(c1, c2, c3, c4, c5)
    ensures Added([None, Some(c3), Some(c2), Some(c1)], 3, c4)
      == [None, Some(c3), Some(c2), Some(c1), Some(c4)]
    ensures Reheaped([None, Some(c3), Some(c2), Some(c1), Some(c4)], 4)
      == [None, Some(c3), Some(c2), Some(c1), Some(c4)]
  {
    var four := [None, Some(c3), Some(c2), Some(c1), Some(c4)];
    assert [None, Some(c3), Some(c2), Some(c1)][..4] + [Some(c4)] == four;
    assert RootSettled(four, 4);
    AddedSettled([None, Some(c3), Some(c2), Some(c1)], 3, c4);
    ReheapedSettled(four, 4);
  }

  /** Polling after card4 was added returns card3 and moves card4 to the root; a peek then moves nothing. */
  lemma PollCard3(c1: Flashcard, c2: Flashcard, c3: Flashcard, c4: Flashcard, c5: Flashcard)
    requires InMainOrder(c1, c2, c3, c4, c5)
    ensures PolledRoot([None, Some(c3), Some(c2), Some(c1), Some(c4)], 4) == Some(c3)
    ensures Polled([None, Some(c3), Some(c2), Some(c1), Some(c4)], 4)[..4]
      == [None, Some(c4), Some(c2), Some(c1)]
    ensures Reheaped([None, Some(c4), Some(c2), Some(c1)], 3) == [None, Some(c4), Some(c2), Some(c1)]
  {
    var h := [None, Some(c3), Some(c2), Some(c1), Some(c4)];
    assert RootSettled(h, 4);
    ReheapedSettled(h, 4);
    var three := [None, Some(c4), Some(c2), Some(c1)];
    assert RootSettled(three, 3);
    ReheapedSettled(three, 3);
  }

  /** Adding card5 below card4, card2 and card1 sifts card5 to the root, card4 down to slot 4; a peek then moves nothing. */
  lemma AddCard5(c1: Flashcard, c2: Flashcard, c3: Flashcard, c4: Flashcard, c5: Flashcard)
    requires InMainOrder(c1, c2, c3, c4, c5)
    ensures Added([None, Some(c4), Some(c2), Some(c1)], 3, c5)
      == [None, Some(c5), Some(c2), Some(c1), Some(c4)]
    ensures Reheaped([None, Some(c5), Some(c2), Some(c1), Some(c4)], 4)
      == [None, Some(c5), Some(c2), Some(c1), Some(c4)]
  {
    var h := [None, Some(c4), Some(c2), Some(c1), Some(c5)];
    assert h[..4] + [Some(c5)] == h;
    assert SmallestChild(h, 4, 1) == 4;
    var h' := h[1 := h[4]];
    assert SiftDown(h', 4, 4, Some(c4)) == h'[4 := Some(c4)];
    var last := [None, Some(c5), Some(c2), Some(c1), Some(c4)];
    assert RootSettled(last, 4);
    ReheapedSettled(last, 4);
  }

  /** `main`, first part: add card1 and card2, then peek, which gives card1. */
  method AddTwoThenPeek(test: FlashcardPriorityQueue, c1: Flashcard, c2: Flashcard, c3: Flashcard, c4: Flashcard, c5: Flashcard) returns (first: Slot)
    requires InMainOrder(c1, c2, c3, c4, c5)
    requires test.Valid() && test.Live() == [None]
    modifies test, test.heap
    ensures test.Valid() && (fresh(test.heap) || test.heap == old(test.heap))
    ensures test.Live() == [None, Some(c1), Some(c2)]
    ensures first == Some(c1)
  {
    AddCard1AndCard2(c1, c2, c3, c4, c5);
    test.Add(c1);
    test.Add(c2);
    first := test.Peek();
    assert first == test.Live()[1];
  }

  /** `main`, second part: add card3 and card4, then peek, which gives card3. */
  method AddTwoMoreThenPeek(test: FlashcardPriorityQueue, c1: Flashcard, c2: Flashcard, c3: Flashcard, c4: Flashcard, c5: Flashcard) returns (second: Slot)
    requires InMainOrder(c1, c2, c3, c4, c5)
    requires test.Valid() && test.Live() == [None, Some(c1), Some(c2)]
    modifies test, test.heap
    ensures test.Valid() && (fresh(test.heap) || test.heap == old(test.heap))
    ensures test.Live() == [None, Some(c3), Some(c2), Some(c1), Some(c4)]
    ensures second == Some(c3)
  {
    AddCard3(c1, c2, c3, c4, c5);
    AddCard4(c1, c2, c3, c4, c5);
    test.Add(c3);
    test.Add(c4);
    second := test.Peek();
    assert second == test.Live()[1];
  }

  /** `main`, third part: poll, which gives card3, then peek, which gives card4. */
  method PollThenPeek(test: FlashcardPriorityQueue, c1: Flashcard, c2: Flashcard, c3: Flashcard, c4: Flashcard, c5: Flashcard) returns (polled: Slot, third: Slot)
    requires InMainOrder(c1, c2, c3, c4, c5)
    requires test.Valid() && test.Live() == [None, Some(c3), Some(c2), Some(c1), Some(c4)]
    modifies test, test.heap
    ensures test.Valid() && test.heap == old(test.heap)
    ensures test.Live() == [None, Some(c4), Some(c2), Some(c1)]
    ensures polled == Some(c3) && third == Some(c4)
  {
    PollCard3(c1, c2, c3, c4, c5);
    polled := test.Poll();
    third := test.Peek();
    assert third == test.Live()[1];
  }

  /** `main`, fourth part: add card5, then peek, which gives card5. */
  method AddLastThenPeek(test: FlashcardPriorityQueue, c1: Flashcard, c2: Flashcard, c3: Flashcard, c4: Flashcard, c5: Flashcard) returns (fourth: Slot)
    requires InMainOrder(c1, c2, c3, c4, c5)
    requires test.Valid() && test.Live() == [None, Some(c4), Some(c2), Some(c1)]
    modifies test, test.heap
    ensures test.Valid() && (fresh(test.heap) || test.heap == old(test.heap))
    ensures test.Live() == [None, Some(c5), Some(c2), Some(c1), Some(c4)]
    ensures fourth == Some(c5)
  {
    AddCard5(c1, c2, c3, c4, c5);
    test.Add(c5);
    fourth := test.Peek();
    assert fourth == test.Live()[1];
  }

  /**
   * `main`: add card1 and card2, peek; add card3 and card4, peek; poll, peek;
   * add card5, peek; clear. The four peeks give card1, card3, card4 and card5,
   * the poll gives card3, and the queue is empty after the clear.
   */
  method MainScenario() returns (first: Slot, second: Slot, polled: Slot, third: Slot, fourth: Slot, emptied: bool)
    ensures first == Some(CARD1) && second == Some(CARD3) && polled == Some(CARD3)
    ensures third == Some(CARD4) && fourth == Some(CARD5)
    ensures emptied
  {
    var test := new FlashcardPriorityQueue();
    assert test.Live() == [None];
    first := AddTwoThenPeek(test, CARD1, CARD2, CARD3, CARD4, CARD5);
    second := AddTwoMoreThenPeek(test, CARD1, CARD2, CARD3, CARD4, CARD5);
    polled, third := PollThenPeek(test, CARD1, CARD2, CARD3, CARD4, CARD5);
    fourth := AddLastThenPeek(test, CARD1, CARD2, CARD3, CARD4, CARD5);
    test.Clear();
    emptied := test.IsEmpty();
  }

  /** Four cards in increasing due-date order, then a fifth due before all of them. */
  predicate LateMinimum(a: Flashcard, b: Flashcard, c: Flashcard, d: Flashcard, e: Flashcard)
  {
    e.dueDate < a.dueDate <= b.dueDate <= c.dueDate <= d.dueDate
  }

  /**
   * Adding `a`, `b`, `c`, `d` in due-date order moves nothing; adding `e` then
   * puts it in slot 5, a child of slot 2, where the sift down from the root
   * never looks, and a peek moves nothing either.
   */
  lemma AddFiveInOrder(a: Flashcard, b: Flashcard, c: Flashcard, d: Flashcard, e: Flashcard)
    requires LateMinimum(a, b, c, d, e)
    ensures Added([None], 0, a) == [None, Some(a)]
    ensures Added([None, Some(a)], 1, b) == [None, Some(a), Some(b)]
    ensures Added([None, Some(a), Some(b)], 2, c) == [None, Some(a), Some(b), Some(c)]
    ensures Added([None, Some(a), Some(b), Some(c)], 3, d) == [None, Some(a), Some(b), Some(c), Some(d)]
    ensures Added([None, Some(a), Some(b), Some(c), Some(d)], 4, e)
      == [None, Some(a), Some(b), Some(c), Some(d), Some(e)]
    ensures Reheaped([None, Some(a), Some(b), Some(c), Some(d), Some(e)], 5)
      == [None, Some(a), Some(b), Some(c), Some(d), Some(e)]
  {
    AddedSettled([None], 0, a);
    var h2 := [None, Some(a), Some(b)];
    assert [None, Some(a)][..2] + [Some(b)] == h2;
    assert RootSettled(h2, 2);
    AddedSettled([None, Some(a)], 1, b);
    var h3 := [None, Some(a), Some(b), Some(c)];
    assert h2[..3] + [Some(c)] == h3;
    assert RootSettled(h3, 3);
    AddedSettled(h2, 2, c);
    var h4 := [None, Some(a), Some(b), Some(c), Some(d)];
    assert h3[..4] + [Some(d)] == h4;
    assert RootSettled(h4, 4);
    AddedSettled(h3, 3, d);
    var h5 := [None, Some(a), Some(b), Some(c), Some(d), Some(e)];
    assert h4[..5] + [Some(e)] == h5;
    assert RootSettled(h5, 5);
    AddedSettled(h4, 4, e);
    ReheapedSettled(h5, 5);
  }

  /** Adding `a` and then `b` to the empty queue. */
  method AddFirstTwo(queue: FlashcardPriorityQueue, a: Flashcard, b: Flashcard, c: Flashcard, d: Flashcard, e: Flashcard)
    requires LateMinimum(a, b, c, d, e)
    requires queue.Valid() && queue.Live() == [None]
    modifies queue, queue.heap
    ensures queue.Valid() && (fresh(queue.heap) || queue.heap == old(queue.heap))
    ensures queue.Live() == [None, Some(a), Some(b)]
  {
    AddFiveInOrder(a, b, c, d, e);
    queue.Add(a);
    queue.Add(b);
  }

  /** Adding `c` and then `d` after `a` and `b`. */
  method AddNextTwo(queue: FlashcardPriorityQueue, a: Flashcard, b: Flashcard, c: Flashcard, d: Flashcard, e: Flashcard)
    requires LateMinimum(a, b, c, d, e)
    requires queue.Valid() && queue.Live() == [None, Some(a), Some(b)]
    modifies queue, queue.heap
    ensures queue.Valid() && (fresh(queue.heap) || queue.heap == old(queue.heap))
    ensures queue.Live() == [None, Some(a), Some(b), Some(c), Some(d)]
  {
    AddFiveInOrder(a, b, c, d, e);
    queue.Add(c);
    queue.Add(d);
  }

  /** Adding `e` after the other four, then a peek: it gives `a`, though `e` is in the queue and due first. */
  method AddLateMinimumThenPeek(queue: FlashcardPriorityQueue, a: Flashcard, b: Flashcard, c: Flashcard, d: Flashcard, e: Flashcard)
    returns (peeked: Slot)
    requires LateMinimum(a, b, c, d, e)
    requires queue.Valid() && queue.Live() == [None, Some(a), Some(b), Some(c), Some(d)]
    modifies queue, queue.heap
    ensures queue.Valid()
    ensures queue.Live() == [None, Some(a), Some(b), Some(c), Some(d), Some(e)]
    ensures peeked == Some(a) && e.dueDate < a.dueDate
  {
    AddFiveInOrder(a, b, c, d, e);
    queue.Add(e);
    peeked := queue.Peek();
    assert peeked == queue.Live()[1];
  }

  /**
   * The lazy repair misses a new minimum: after adding cards due at 10, 20, 30
   * and 40 and then one due at 5, `peek` returns the card due at 10 while the
   * card due at 5 is in the queue.
   */
  method LazyRepairMissesNewMinimum() returns (peeked: Slot, size: int)
    ensures peeked == Some(Flashcard(10, "", "")) && size == 5
  {
    var a, b, c, d, e := Flashcard(10, "", ""), Flashcard(20, "", ""), Flashcard(30, "", ""), Flashcard(40, "", ""), Flashcard(5, "", "");
    var queue := new FlashcardPriorityQueue();
    AddFirstTwo(queue, a, b, c, d, e);
    AddNextTwo(queue, a, b, c, d, e);
    peeked := AddLateMinimumThenPeek(queue, a, b, c, d, e);
    size := queue.lastIndex;
  }

  /**
   * `poll` leaves its vacated slot in place, so a `peek` on the queue it has
   * just emptied still returns the card it polled, while `isEmpty` holds and a
   * second `poll` returns nothing.
   */
  method StalePeekAfterLastPoll(card: Flashcard) returns (polled: Slot, empty: bool, peeked: Slot, again: Slot)
    ensures polled == Some(card) && empty
    ensures peeked == Some(card) && again == None
  {
    var queue := new FlashcardPriorityQueue();
    assert queue.Live() == [None];
    AddedSettled([None], 0, card);
    queue.Add(card);
    assert queue.Live() == [None, Some(card)];
    ghost var h := queue.heap[..];
    PolledOutside(h, 1);
    PolledOutside(queue.Live(), 1);
    polled := queue.Poll();
    empty := queue.IsEmpty();
    peeked := queue.Peek();
    again := queue.Poll();
  }
}
