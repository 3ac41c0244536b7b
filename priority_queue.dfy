/**
 * The flashcard priority queue: a ternary min-heap, ordered by due date, kept
 * 1-indexed in a growable array.
 *
 * Slot 0 is never used. The children of slot `i` are `3i-1`, `3i` and `3i+1`,
 * so the parent of slot `j >= 2` is `(j+1)/3`. `lastIndex` is the number of live
 * cards, held in slots `1..lastIndex`.
 *
 * Heap repair is lazy: `add` appends a leaf and then sifts down from the root
 * only, and `peek` and `poll` sift down from the root before reading slot 1.
 * A sift down from the root turns a semiheap (heap order everywhere except,
 * perhaps, between the root and its children) into a heap; appending a leaf
 * keeps that shape only while the new leaf is a child of the root.
 */
module FlashcardQueue {
  import opened Wrappers
  import opened Flashcards

  /** A slot of the array; `None` is a Java `null`. */
  type Slot = Option<Flashcard>

  const DEFAULT_CAPACITY: nat := 5

  /** The parent of slot `j`. */
  function Parent(j: int): int
  {
    (j + 1) / 3
  }

  /** The children of slot `i` are exactly `3i-1`, `3i` and `3i+1`. */
  lemma ParentOfChild(i: int, j: int)
    requires i >= 1
    ensures Parent(j) == i <==> 3 * i - 1 <= j <= 3 * i + 1
  {
  }

  /** The sort key of a slot: its card's due date (live slots are never `None`). */
  function Key(s: Slot): int
  {
    if s.Some? then s.value.dueDate else 0
  }

  /** Every slot `j` in `from..n` is due no earlier than its parent. */
  ghost predicate OrderedFrom(h: seq<Slot>, n: int, from: int)
    requires 2 <= from && n < |h|
  {
    forall j :: from <= j <= n ==> Key(h[Parent(j)]) <= Key(h[j])
  }

  /** Slots `1..n` of `h` form a ternary min-heap. */
  ghost predicate IsHeap(h: seq<Slot>, n: int)
  {
    0 <= n < |h| && OrderedFrom(h, n, 2)
  }

  /** Slots `1..n` of `h` are heap-ordered except, perhaps, between the root and its children (slots 2 to 4). */
  ghost predicate IsSemiheap(h: seq<Slot>, n: int)
  {
    0 <= n < |h| && OrderedFrom(h, n, 5)
  }

  /** The root is due no later than any of its live children: a sift down from the root moves nothing. */
  ghost predicate RootSettled(h: seq<Slot>, n: int)
  {
    2 <= |h| && n < |h| && forall j :: 2 <= j <= n && j <= 4 ==> Key(h[1]) <= Key(h[j])
  }

  /** `x` is one of `m` and is due no later than any of them. */
  ghost predicate IsLeast(x: Slot, m: multiset<Slot>)
  {
    x in m && forall y :: y in m ==> Key(x) <= Key(y)
  }

  /** A heap is a semiheap, and its root is settled. */
  lemma HeapIsSemiheap(h: seq<Slot>, n: int)
    requires IsHeap(h, n) && 2 <= |h|
    ensures IsSemiheap(h, n) && RootSettled(h, n)
  {
    forall j | 2 <= j <= n && j <= 4 ensures Key(h[1]) <= Key(h[j]) {
      assert Parent(j) == 1;
    }
  }

  /** In a heap every live slot is due no earlier than the root. */
  lemma {:induction false} RootBelowSlot(h: seq<Slot>, n: int, j: int)
    requires IsHeap(h, n) && 1 <= j <= n
    ensures Key(h[1]) <= Key(h[j])
    decreases j
  {
    if j >= 2 {
      RootBelowSlot(h, n, Parent(j));
    }
  }

  /** The root of a non-empty heap is a least element of its live slots. */
  lemma HeapRootIsLeast(h: seq<Slot>, n: int)
    requires IsHeap(h, n) && 1 <= n
    ensures IsLeast(h[1], LiveCards(h, n))
  {
    var live := h[1..n + 1];
    assert h[1] == live[0];
    forall y | y in multiset(live) ensures Key(h[1]) <= Key(y) {
      var k :| 0 <= k < |live| && live[k] == y;
      RootBelowSlot(h, n, k + 1);
    }
  }

  /** The cards in the live slots `1..n`. */
  ghost function LiveCards(h: seq<Slot>, n: int): multiset<Slot>
    requires 0 <= n < |h|
  {
    if n == 0 then multiset{} else LiveCards(h, n - 1) + multiset{h[n]}
  }

  /** The live cards are the multiset of the slice `h[1..n+1]`. */
  lemma {:induction false} LiveCardsOfSlice(h: seq<Slot>, n: int)
    requires 0 <= n < |h|
    ensures LiveCards(h, n) == multiset(h[1..n + 1])
  {
    if n > 0 {
      LiveCardsOfSlice(h, n - 1);
      assert h[1..n + 1] == h[1..n] + [h[n]];
    }
  }

  /** `h` agrees with `h0` outside the live slots `1..n`. */
  ghost predicate SameOutside(h: seq<Slot>, h0: seq<Slot>, n: int)
  {
    |h| == |h0| && forall k :: 0 <= k < |h| && !(1 <= k <= n) ==> h[k] == h0[k]
  }

  /** Every live slot `1..n` holds a card. */
  ghost predicate LiveSlots(h: seq<Slot>, n: int)
    requires n < |h|
  {
    forall k :: 1 <= k <= n ==> h[k].Some?
  }

  /** Two arrays that agree outside the live slots and hold the same multiset hold the same live multiset. */
  lemma SameLiveMultiset(h: seq<Slot>, h0: seq<Slot>, n: int)
    requires 0 <= n < |h| && SameOutside(h, h0, n)
    requires multiset(h) == multiset(h0)
    ensures multiset(h[1..n + 1]) == multiset(h0[1..n + 1])
  {
    assert h == h[..1] + h[1..n + 1] + h[n + 1..];
    assert h0 == h0[..1] + h0[1..n + 1] + h0[n + 1..];
    assert h[..1] == h0[..1];
    assert h[n + 1..] == h0[n + 1..];
    assert multiset(h) == multiset(h[..1]) + multiset(h[1..n + 1]) + multiset(h[n + 1..]);
    assert multiset(h0) == multiset(h0[..1]) + multiset(h0[1..n + 1]) + multiset(h0[n + 1..]);
    calc {
      multiset(h[1..n + 1]);
      multiset(h) - multiset(h[..1]) - multiset(h[n + 1..]);
      multiset(h0) - multiset(h0[..1]) - multiset(h0[n + 1..]);
      multiset(h0[1..n + 1]);
    }
  }

  /** Writing a card into a live slot keeps both facts. */
  lemma WriteLiveSlot(h: seq<Slot>, h0: seq<Slot>, n: int, r: int, x: Slot)
    requires 1 <= r <= n < |h| && x.Some?
    requires SameOutside(h, h0, n) && LiveSlots(h, n)
    ensures SameOutside(h[r := x], h0, n) && LiveSlots(h[r := x], n)
  {
  }

  /**
   * The sift-down invariant, with the sinking card held aside and its slot `r`
   * open: every parent other than `r` is in order with its children ...
   */
  ghost predicate HoleOrdered(h: seq<Slot>, n: int, r: int)
    requires n < |h|
  {
    forall j :: 2 <= j <= n && Parent(j) != r ==> Key(h[Parent(j)]) <= Key(h[j])
  }

  /** ... and below the root, the parent of the open slot is due no later than the children of that slot or the card held aside. */
  ghost predicate HoleBounded(h: seq<Slot>, n: int, r: int, orphan: Slot)
    requires 1 <= r < |h| && n < |h|
  {
    r != 1 ==>
      && (forall j :: 2 <= j <= n && Parent(j) == r ==> Key(h[Parent(r)]) <= Key(h[j]))
      && Key(h[Parent(r)]) <= Key(orphan)
  }

  /** A semiheap is the sift-down invariant with the root open. */
  lemma SiftStart(h: seq<Slot>, n: int, orphan: Slot)
    requires IsSemiheap(h, n) && 1 < |h|
    ensures HoleOrdered(h, n, 1) && HoleBounded(h, n, 1, orphan)
  {
    forall j | 2 <= j <= n && Parent(j) != 1 ensures Key(h[Parent(j)]) <= Key(h[j]) {
      assert j >= 5;
    }
  }

  /** `m` is a live child of `r` due no later than any other live child of `r`. */
  ghost predicate LeastChild(h: seq<Slot>, n: int, r: int, m: int)
    requires n < |h|
  {
    2 <= m <= n && Parent(m) == r && forall j :: 2 <= j <= n && Parent(j) == r ==> Key(h[m]) <= Key(h[j])
  }

  /** Moving the least child `m` of the open slot `r` up keeps the invariant, with `m` open. */
  lemma SiftStep(h: seq<Slot>, n: int, r: int, m: int, orphan: Slot)
    requires 1 <= r <= n < |h| && LeastChild(h, n, r, m)
    requires HoleOrdered(h, n, r) && HoleBounded(h, n, r, orphan)
    requires Key(h[m]) < Key(orphan)
    ensures HoleOrdered(h[r := h[m]], n, m) && HoleBounded(h[r := h[m]], n, m, orphan)
  {
    var h' := h[r := h[m]];
    forall j | 2 <= j <= n && Parent(j) != m ensures Key(h'[Parent(j)]) <= Key(h'[j]) {
      if Parent(j) == r {
      } else if j == r {
      } else {
        assert Parent(j) != r;
      }
    }
    assert m != r && m >= 2;
  }

  /** Moving the child up and opening its slot only permutes the held-aside view. */
  lemma SiftStepPermutes(h: seq<Slot>, r: int, m: int, orphan: Slot)
    requires 0 <= r < |h| && 0 <= m < |h| && r != m
    ensures multiset(h[r := h[m]][m := orphan]) == multiset(h[r := orphan])
  {
    var a := h[r := orphan];
    assert h[r := h[m]][m := orphan] == a[r := h[m]][m := orphan];
    assert a[m] == h[m];
  }

  /**
   * The child `reheap` picks among the live children of `r`: the left one, replaced
   * by the middle one if that is due strictly earlier, then by the right one if
   * that is due strictly earlier still.
   */
  function SmallestChild(h: seq<Slot>, n: int, r: int): (m: int)
    requires 1 <= r && 3 * r - 1 <= n < |h|
    ensures 3 * r - 1 <= m <= 3 * r + 1 && m <= n
  {
    var left := 3 * r - 1;
    var best := if left + 1 <= n && Key(h[left + 1]) < Key(h[left]) then left + 1 else left;
    if left + 2 <= n && Key(h[left + 2]) < Key(h[best]) then left + 2 else best
  }

  /** The child `reheap` picks is a least live child. */
  lemma SmallestChildIsLeast(h: seq<Slot>, n: int, r: int)
    requires 1 <= r && 3 * r - 1 <= n < |h|
    ensures LeastChild(h, n, r, SmallestChild(h, n, r))
  {
    var m := SmallestChild(h, n, r);
    forall j | 2 <= j <= n && Parent(j) == r ensures Key(h[m]) <= Key(h[j]) {
      ParentOfChild(r, j);
    }
  }

  /**
   * The sift down of `reheap` as a function: the card `orphan`, held aside from
   * the open slot `r`, sinks while its least live child is due strictly before it,
   * that child moving up into the open slot.
   */
  function SiftDown(h: seq<Slot>, n: int, r: int, orphan: Slot): (result: seq<Slot>)
    requires 0 <= n < |h| && 1 <= r < |h| && (r <= n || r == 1)
    ensures |result| == |h|
    decreases n - r
  {
    if 3 * r - 1 <= n && Key(orphan) > Key(h[SmallestChild(h, n, r)]) then
      var m := SmallestChild(h, n, r);
      SiftDown(h[r := h[m]], n, m, orphan)
    else
      h[r := orphan]
  }

  /** `reheap(1)` as a function: the root card sinks from the root. */
  function Reheaped(h: seq<Slot>, n: int): (result: seq<Slot>)
    requires 0 <= n < |h| && 2 <= |h|
    ensures |result| == |h|
  {
    SiftDown(h, n, 1, h[1])
  }

  /** The sift down only moves live slots around, the held card included. */
  lemma {:induction false} SiftDownPermutes(h: seq<Slot>, n: int, r: int, orphan: Slot)
    requires 0 <= n < |h| && 1 <= r < |h| && (r <= n || r == 1)
    ensures multiset(SiftDown(h, n, r, orphan)) == multiset(h[r := orphan])
    decreases n - r
  {
    if 3 * r - 1 <= n && Key(orphan) > Key(h[SmallestChild(h, n, r)]) {
      var m := SmallestChild(h, n, r);
      SiftDownPermutes(h[r := h[m]], n, m, orphan);
      SiftStepPermutes(h, r, m, orphan);
    }
  }

  /** The sift down writes only live slots, and the open slot `r`. */
  lemma {:induction false} SiftDownInPlace(h: seq<Slot>, n: int, r: int, orphan: Slot)
    requires 0 <= n < |h| && 1 <= r < |h| && (r <= n || r == 1)
    ensures SameOutside(SiftDown(h, n, r, orphan), h[r := orphan], n)
    decreases n - r
  {
    if 3 * r - 1 <= n && Key(orphan) > Key(h[SmallestChild(h, n, r)]) {
      var m := SmallestChild(h, n, r);
      SiftDownInPlace(h[r := h[m]], n, m, orphan);
      var result := SiftDown(h, n, r, orphan);
      forall k | 0 <= k < |h| && !(1 <= k <= n) ensures result[k] == h[r := orphan][k] {
        assert result[k] == h[r := h[m]][m := orphan][k];
      }
    }
  }

  /** The sift down keeps every live slot filled. */
  lemma {:induction false} SiftDownLive(h: seq<Slot>, n: int, r: int, orphan: Slot)
    requires 0 <= n < |h| && 1 <= r < |h| && (r <= n || r == 1)
    requires LiveSlots(h, n) && (n >= 1 ==> orphan.Some?)
    ensures LiveSlots(SiftDown(h, n, r, orphan), n)
    decreases n - r
  {
    if 3 * r - 1 <= n && Key(orphan) > Key(h[SmallestChild(h, n, r)]) {
      var m := SmallestChild(h, n, r);
      SiftDownLive(h[r := h[m]], n, m, orphan);
    }
  }

  /** From the sift-down invariant, the sift down ends in a heap. */
  lemma {:induction false} SiftDownOrders(h: seq<Slot>, n: int, r: int, orphan: Slot)
    requires 0 <= n < |h| && 1 <= r < |h| && (r <= n || r == 1)
    requires HoleOrdered(h, n, r) && HoleBounded(h, n, r, orphan)
    ensures IsHeap(SiftDown(h, n, r, orphan), n)
    decreases n - r
  {
    if 3 * r - 1 <= n && Key(orphan) > Key(h[SmallestChild(h, n, r)]) {
      var m := SmallestChild(h, n, r);
      SmallestChildIsLeast(h, n, r);
      SiftStep(h, n, r, m, orphan);
      SiftDownOrders(h[r := h[m]], n, m, orphan);
    } else {
      var h' := h[r := orphan];
      forall j | 2 <= j <= n ensures Key(h'[Parent(j)]) <= Key(h'[j]) {
        if Parent(j) == r {
          SmallestChildIsLeast(h, n, r);
          assert Key(orphan) <= Key(h[SmallestChild(h, n, r)]);
        }
      }
    }
  }

  /** `reheap(1)` permutes the live slots and leaves every other slot alone. */
  lemma ReheapedPermutes(h: seq<Slot>, n: int)
    requires 0 <= n < |h| && 2 <= |h|
    ensures SameOutside(Reheaped(h, n), h, n)
    ensures LiveCards(Reheaped(h, n), n) == LiveCards(h, n)
    ensures LiveSlots(h, n) ==> LiveSlots(Reheaped(h, n), n)
  {
    assert h[1 := h[1]] == h;
    SiftDownPermutes(h, n, 1, h[1]);
    SiftDownInPlace(h, n, 1, h[1]);
    SameLiveMultiset(Reheaped(h, n), h, n);
    LiveCardsOfSlice(h, n);
    LiveCardsOfSlice(Reheaped(h, n), n);
    if LiveSlots(h, n) {
      SiftDownLive(h, n, 1, h[1]);
    }
  }

  /** `reheap(1)` turns a semiheap into a heap. */
  lemma ReheapedRepairsSemiheap(h: seq<Slot>, n: int)
    requires IsSemiheap(h, n) && 2 <= |h|
    ensures IsHeap(Reheaped(h, n), n)
  {
    SiftStart(h, n, h[1]);
    SiftDownOrders(h, n, 1, h[1]);
  }

  /** `reheap(1)` moves nothing when the root is already due no later than its children. */
  lemma ReheapedSettled(h: seq<Slot>, n: int)
    requires RootSettled(h, n) && 0 <= n
    ensures Reheaped(h, n) == h
  {
    if 2 <= n {
      assert Parent(SmallestChild(h, n, 1)) == 1;
      assert Key(h[1]) <= Key(h[SmallestChild(h, n, 1)]);
    }
    assert h[1 := h[1]] == h;
  }

  /** The facts `reheap(1)` promises its callers, together. */
  lemma ReheapedFacts(h: seq<Slot>, n: int)
    requires 0 <= n < |h| && 2 <= |h|
    ensures SameOutside(Reheaped(h, n), h, n)
    ensures LiveCards(Reheaped(h, n), n) == LiveCards(h, n)
    ensures LiveSlots(h, n) ==> LiveSlots(Reheaped(h, n), n)
    ensures IsSemiheap(h, n) ==> IsHeap(Reheaped(h, n), n)
    ensures RootSettled(h, n) ==> Reheaped(h, n) == h
  {
    ReheapedPermutes(h, n);
    if IsSemiheap(h, n) {
      ReheapedRepairsSemiheap(h, n);
    }
    if RootSettled(h, n) {
      ReheapedSettled(h, n);
    }
  }

  /** The sift down reads and writes no slot after `n`, so it commutes with cutting the array after `n`. */
  lemma {:induction false} SiftDownPrefix(h: seq<Slot>, n: int, r: int, orphan: Slot, m: int)
    requires 0 <= n < |h| && 1 <= r < |h| && (r <= n || r == 1) && n < m <= |h| && r < m
    ensures SiftDown(h, n, r, orphan)[..m] == SiftDown(h[..m], n, r, orphan)
    decreases n - r
  {
    if 3 * r - 1 <= n {
      assert SmallestChild(h, n, r) == SmallestChild(h[..m], n, r);
    }
    if 3 * r - 1 <= n && Key(orphan) > Key(h[SmallestChild(h, n, r)]) {
      var c := SmallestChild(h, n, r);
      assert h[r := h[c]][..m] == h[..m][r := h[..m][c]];
      SiftDownPrefix(h[r := h[c]], n, c, orphan, m);
    } else {
      assert h[r := orphan][..m] == h[..m][r := orphan];
    }
  }

  /** `reheap(1)` commutes with cutting the array after the live slots. */
  lemma ReheapedPrefix(h: seq<Slot>, n: int, m: int)
    requires 0 <= n < |h| && 2 <= m && n < m <= |h|
    ensures Reheaped(h, n)[..m] == Reheaped(h[..m], n)
  {
    SiftDownPrefix(h, n, 1, h[1], m);
  }

  /** Slot 0 and the live slots `1..n+1` after `add(x)` on `n` live cards: `x` appended, then `reheap(1)`. */
  function Added(h: seq<Slot>, n: int, x: Flashcard): (result: seq<Slot>)
    requires 0 <= n < |h|
    ensures |result| == n + 2
  {
    Reheaped(h[..n + 1] + [Some(x)], n + 1)
  }

  /**
   * The array `add(x)` leaves: `x` written after the `n` live cards of `h0`, the
   * array perhaps grown (`h2`), then `reheap(1)` on `n + 1` live cards (`h3`).
   */
  lemma AddedInPlace(h0: seq<Slot>, n: int, x: Flashcard, h2: seq<Slot>, h3: seq<Slot>)
    requires 0 <= n < |h0| && n + 1 < |h2|
    requires h2[..n + 2] == h0[..n + 1] + [Some(x)]
    requires h3 == Reheaped(h2, n + 1)
    ensures h3[..n + 2] == Added(h0, n, x)
    ensures LiveCards(h3, n + 1) == LiveCards(h0, n) + multiset{Some(x)}
  {
    ReheapedPrefix(h2, n + 1, n + 2);
    AddedPermutes(h0, n, x);
    LiveCardsPrefix(h3, n + 1, n + 2);
  }

  /**
   * The arrays `add(x)` goes through on `n` live cards: `h0` before, `h1` once
   * `x` is written after them, `h2` once the array has perhaps grown, `h3`
   * after `reheap(1)`.
   */
  lemma AddSteps(h0: seq<Slot>, n: int, x: Flashcard, h1: seq<Slot>, h2: seq<Slot>, h3: seq<Slot>)
    requires 0 <= n && n + 1 < |h0| && h1 == h0[n + 1 := Some(x)]
    requires n + 1 < |h2| && h2[..n + 2] == h1[..n + 2] && h3 == Reheaped(h2, n + 1)
    ensures h3[..n + 2] == Added(h0[..n + 1], n, x)
    ensures LiveCards(h3, n + 1) == LiveCards(h0, n) + multiset{Some(x)}
  {
    var live := h0[..n + 1];
    assert h2[..n + 2] == live + [Some(x)];
    LiveCardsPrefix(h0, n, n + 1);
    AddedInPlace(live, n, x, h2, h3);
  }

  /** `add(x)` adds exactly `x` to the live cards and keeps them all cards. */
  lemma AddedPermutes(h: seq<Slot>, n: int, x: Flashcard)
    requires 0 <= n < |h|
    ensures LiveCards(Added(h, n, x), n + 1) == LiveCards(h, n) + multiset{Some(x)}
    ensures LiveSlots(h, n) ==> LiveSlots(Added(h, n, x), n + 1)
    ensures Added(h, n, x)[0] == h[0]
  {
    var h' := h[..n + 1] + [Some(x)];
    ReheapedPermutes(h', n + 1);
    assert h'[..n + 1] == h[..n + 1];
    LiveCardsPrefix(h, n, n + 1);
    LiveCardsPrefix(h', n, n + 1);
    assert LiveCards(h', n + 1) == LiveCards(h', n) + multiset{Some(x)};
  }

  /**
   * `add(x)` on a semiheap yields a heap while the new leaf is a child of the root
   * (at most four live cards) or is due no earlier than its parent.
   */
  lemma AddedKeepsHeap(h: seq<Slot>, n: int, x: Flashcard)
    requires IsSemiheap(h, n)
    requires n + 1 <= 4 || Key(h[Parent(n + 1)]) <= x.dueDate
    ensures IsHeap(Added(h, n, x), n + 1)
  {
    var h' := h[..n + 1] + [Some(x)];
    forall j | 5 <= j <= n + 1 ensures Key(h'[Parent(j)]) <= Key(h'[j]) {
      if j <= n {
        assert h'[j] == h[j] && h'[Parent(j)] == h[Parent(j)];
      }
    }
    ReheapedRepairsSemiheap(h', n + 1);
  }

  /** `add(x)` moves nothing when the root is due no later than its live children, the new leaf included. */
  lemma AddedSettled(h: seq<Slot>, n: int, x: Flashcard)
    requires 0 <= n < |h| && RootSettled(h[..n + 1] + [Some(x)], n + 1)
    ensures Added(h, n, x) == h[..n + 1] + [Some(x)]
  {
    ReheapedSettled(h[..n + 1] + [Some(x)], n + 1);
  }

  /** The array after `poll` on `n >= 1` live cards: `reheap(1)`, then the last live card moves to the root. */
  function Polled(h: seq<Slot>, n: int): (result: seq<Slot>)
    requires 1 <= n < |h|
    ensures |result| == |h|
  {
    var r := Reheaped(h, n);
    r[1 := r[n]]
  }

  /** The card `poll` returns on `n >= 1` live cards: the root after `reheap(1)`. */
  function PolledRoot(h: seq<Slot>, n: int): Slot
    requires 1 <= n < |h|
  {
    Reheaped(h, n)[1]
  }

  /** `poll` removes exactly the card it returns from the live cards. */
  lemma PolledPermutes(h: seq<Slot>, n: int)
    requires 1 <= n < |h|
    ensures LiveCards(h, n) == LiveCards(Polled(h, n), n - 1) + multiset{PolledRoot(h, n)}
  {
    var r := Reheaped(h, n);
    ReheapedPermutes(h, n);
    LiveCardsOfSlice(r, n);
    LiveCardsOfSlice(r[1 := r[n]], n - 1);
    LastToRoot(r, n);
  }

  /** Moving the last of `n` live slots into slot 1 loses exactly the card of slot 1. */
  lemma LastToRoot(r: seq<Slot>, n: int)
    requires 1 <= n < |r|
    ensures multiset(r[1..n + 1]) == multiset(r[1 := r[n]][1..n]) + multiset{r[1]}
  {
    var after := r[1 := r[n]];
    if n == 1 {
      assert after[1..n] == [];
      assert r[1..n + 1] == [r[1]];
    } else {
      assert r[1..n + 1] == [r[1]] + r[2..n] + [r[n]];
      assert after[1..n] == [r[n]] + r[2..n];
    }
  }

  /** On a queue whose live slots hold cards, `poll` returns a card and the live slots left hold cards; slot 0 stays empty. */
  lemma PolledValid(h: seq<Slot>, n: int)
    requires 1 <= n < |h| && h[0] == None && LiveSlots(h, n)
    ensures PolledRoot(h, n).Some?
    ensures Polled(h, n)[0] == None && LiveSlots(Polled(h, n), n - 1)
  {
    ReheapedPermutes(h, n);
  }

  /**
   * The array `poll` leaves on `n >= 1` live cards of `h0`: `reheap(1)` gives
   * `h1`, whose slot `n` is then copied into slot 1, giving `h2`.
   */
  lemma PolledInPlace(h0: seq<Slot>, n: int, h1: seq<Slot>, h2: seq<Slot>)
    requires 1 <= n < |h0| && h0[0] == None && LiveSlots(h0, n)
    requires h1 == Reheaped(h0, n) && h2 == h1[1 := h1[n]]
    ensures h2 == Polled(h0, n) && h1[1] == PolledRoot(h0, n) && h1[1].Some?
    ensures h2[0] == None && LiveSlots(h2, n - 1)
    ensures LiveCards(h0, n) == LiveCards(h2, n - 1) + multiset{h1[1]}
  {
    PolledValid(h0, n);
    PolledPermutes(h0, n);
  }

  /** `poll` reads and writes no slot after `n`. */
  lemma PolledPrefix(h: seq<Slot>, n: int)
    requires 1 <= n < |h|
    ensures Polled(h, n)[..n] == Polled(h[..n + 1], n)[..n]
    ensures PolledRoot(h, n) == PolledRoot(h[..n + 1], n)
  {
    ReheapedPrefix(h, n, n + 1);
  }

  /** Slot 1 after `poll` depends only on the live slots: it is the card moved up, or the stale card returned. */
  lemma PolledSlotOne(h: seq<Slot>, n: int)
    requires 1 <= n < |h|
    ensures Polled(h, n)[1] == Polled(h[..n + 1], n)[1]
  {
    PolledPrefix(h, n);
    if n == 1 {
      PolledOutside(h, 1);
      PolledOutside(h[..2], 1);
    } else {
      assert Polled(h, n)[..n][1] == Polled(h[..n + 1], n)[..n][1];
    }
  }

  /** `poll` leaves every slot outside `1..n` alone; with a single live card, the vacated slot 1 still holds the card returned. */
  lemma PolledOutside(h: seq<Slot>, n: int)
    requires 1 <= n < |h|
    ensures forall k :: 0 <= k < |h| && !(1 <= k <= n) ==> Polled(h, n)[k] == h[k]
    ensures n == 1 ==> Polled(h, n)[1] == PolledRoot(h, n)
  {
    ReheapedPermutes(h, n);
  }

  /**
   * On a semiheap, `poll` returns a live card due no later than any other, and
   * the cards left form a semiheap again.
   */
  lemma PolledFromSemiheap(h: seq<Slot>, n: int)
    requires 1 <= n && IsSemiheap(h, n)
    ensures IsLeast(PolledRoot(h, n), LiveCards(h, n))
    ensures IsSemiheap(Polled(h, n), n - 1)
  {
    var r := Reheaped(h, n);
    ReheapedPermutes(h, n);
    ReheapedRepairsSemiheap(h, n);
    HeapRootIsLeast(r, n);
    var after := r[1 := r[n]];
    forall j | 5 <= j <= n - 1 ensures Key(after[Parent(j)]) <= Key(after[j]) {
      assert Parent(j) >= 2;
    }
  }

  /** `poll` returns the card at the root when the root is already due no later than its live children. */
  lemma PolledSettled(h: seq<Slot>, n: int)
    requires 1 <= n && RootSettled(h, n)
    ensures PolledRoot(h, n) == h[1]
  {
    ReheapedSettled(h, n);
  }

  /** `peek` on a non-empty semiheap returns a least live card and leaves a heap of the same cards. */
  lemma PeekFromSemiheap(h: seq<Slot>, n: int)
    requires 1 <= n && IsSemiheap(h, n) && 2 <= |h|
    ensures IsLeast(Reheaped(h, n)[1], LiveCards(h, n))
    ensures IsHeap(Reheaped(h, n), n) && LiveCards(Reheaped(h, n), n) == LiveCards(h, n)
  {
    ReheapedPermutes(h, n);
    ReheapedRepairsSemiheap(h, n);
    HeapRootIsLeast(Reheaped(h, n), n);
  }

  /** The shape of the queue depends on slots `0..n` only. */
  lemma PrefixShape(h: seq<Slot>, n: int, m: int)
    requires 1 <= n < m <= |h|
    ensures IsHeap(h, n) <==> IsHeap(h[..m], n)
    ensures IsSemiheap(h, n) <==> IsSemiheap(h[..m], n)
    ensures RootSettled(h, n) <==> RootSettled(h[..m], n)
    ensures LiveCards(h, n) == LiveCards(h[..m], n)
  {
    LiveCardsPrefix(h, n, m);
  }

  /** The card in slot 1 is one of the live cards. */
  lemma {:induction false} RootIsLive(h: seq<Slot>, n: int)
    requires 1 <= n < |h|
    ensures h[1] in LiveCards(h, n)
  {
    if n > 1 {
      RootIsLive(h, n - 1);
    }
  }

  /** The live cards are read from slots `1..n` only. */
  lemma LiveCardsPrefix(h: seq<Slot>, n: int, m: int)
    requires 0 <= n < m <= |h|
    ensures LiveCards(h, n) == LiveCards(h[..m], n)
  {
    LiveCardsOfSlice(h, n);
    LiveCardsOfSlice(h[..m], n);
    assert h[..m][1..n + 1] == h[1..n + 1];
  }

  class FlashcardPriorityQueue {
    var heap: array<Slot>
    var lastIndex: int

    /** Slot 0 is unused, the live slots hold cards, and the next append is in bounds. */
    ghost predicate Valid()
      reads this, heap
    {
      && 0 <= lastIndex < heap.Length - 1
      && heap[0] == None
      && forall i :: 1 <= i <= lastIndex ==> heap[i].Some?
    }

    /** The live cards, slots `1..lastIndex`. */
    ghost function Elements(): multiset<Slot>
      reads this, heap
      requires 0 <= lastIndex < heap.Length
    {
      LiveCards(heap[..], lastIndex)
    }

    /** Slot 0 and the live slots. */
    ghost function Live(): seq<Slot>
      reads this, heap
      requires 0 <= lastIndex < heap.Length
    {
      heap[..lastIndex + 1]
    }

    /** An empty queue with room for `DEFAULT_CAPACITY - 1` cards. */
    constructor ()
      ensures Valid() && fresh(heap)
      ensures lastIndex == 0 && Elements() == multiset{} && Live() == [None]
      ensures heap.Length == DEFAULT_CAPACITY
      ensures forall i :: 0 <= i < heap.Length ==> heap[i] == None
    {
      heap := new Slot[DEFAULT_CAPACITY](_ => None);
      lastIndex := 0;
    }

    /** `isEmpty`: no live card. */
    predicate IsEmpty()
      reads this, heap
      requires Valid()
      ensures IsEmpty() <==> Elements() == multiset{}
    {
      lastIndex < 1
    }

    /** `ensureCapacity`: when every usable slot is taken, the usable capacity triples and the old slots are copied. */
    method EnsureCapacity()
      requires 0 <= lastIndex <= heap.Length - 1 && 2 <= heap.Length
      modifies this
      ensures lastIndex == old(lastIndex)
      ensures old(lastIndex) >= old(heap.Length) - 1 ==>
        && fresh(heap)
        && heap.Length - 1 == 3 * (old(heap.Length) - 1)
        && heap[..old(heap.Length)] == old(heap[..])
        && forall i :: old(heap.Length) <= i < heap.Length ==> heap[i] == None
      ensures old(lastIndex) < old(heap.Length) - 1 ==> heap == old(heap)
      ensures heap[..lastIndex + 1] == old(heap[..lastIndex + 1])
    {
      var numberOfEntries := lastIndex;
      var capacity := heap.Length - 1;
      if numberOfEntries >= capacity {
        var newCapacity := 3 * capacity;
        var copy := heap[..];
        heap := new Slot[newCapacity + 1](i => if 0 <= i < |copy| then copy[i] else None);
      }
    }

    /** The child selection of `reheap`: the first of the least due live children of `rootIndex`. */
    method SmallerChild(rootIndex: int) returns (smallerChildIndex: int)
      requires 0 <= lastIndex < heap.Length && LiveSlots(heap[..], lastIndex)
      requires 1 <= rootIndex && 3 * rootIndex - 1 <= lastIndex
      ensures smallerChildIndex == SmallestChild(heap[..], lastIndex, rootIndex)
    {
      var leftChildIndex := 3 * rootIndex - 1;
      smallerChildIndex := leftChildIndex; // Assume smaller
      var middleChildIndex := leftChildIndex + 1;
      var rightChildIndex := leftChildIndex + 2;
      if middleChildIndex <= lastIndex && heap[middleChildIndex].value.CompareTo(heap[smallerChildIndex].value) < 0 {
        smallerChildIndex := middleChildIndex;
      }
      if rightChildIndex <= lastIndex && heap[rightChildIndex].value.CompareTo(heap[smallerChildIndex].value) < 0 {
        smallerChildIndex := rightChildIndex;
      }
    }

    /**
     * `reheap(1)`, its only use: the card at the root sinks along the path of
     * least children until none of them is due before it. The live slots are
     * only permuted; a semiheap becomes a heap; a settled root moves nothing.
     */
    method Reheap()
      requires Valid()
      modifies heap
      ensures heap[..] == Reheaped(old(heap[..]), lastIndex)
      ensures Valid()
    {
      ghost var h0 := heap[..];
      var done := false;
      var rootIndex := 1;
      var orphan := heap[rootIndex];
      var leftChildIndex := 3 * rootIndex - 1;
      while !done && leftChildIndex <= lastIndex
        invariant 1 <= rootIndex < heap.Length && (rootIndex <= lastIndex || rootIndex == 1)
        invariant leftChildIndex == 3 * rootIndex - 1
        invariant lastIndex >= 1 ==> orphan.Some?
        invariant LiveSlots(heap[..], lastIndex)
        invariant !done ==> SiftDown(heap[..], lastIndex, rootIndex, orphan) == Reheaped(h0, lastIndex)
        invariant done ==> heap[..][rootIndex := orphan] == Reheaped(h0, lastIndex)
        decreases lastIndex - rootIndex + (if done then 0 else 1)
      {
        var smallerChildIndex := SmallerChild(rootIndex);
        if orphan.value.CompareTo(heap[smallerChildIndex].value) > 0 {
          heap[rootIndex] := heap[smallerChildIndex];
          rootIndex := smallerChildIndex;
          leftChildIndex := 3 * rootIndex - 1;
        } else {
          done := true;
        }
      }
      ghost var after := heap[..][rootIndex := orphan];
      heap[rootIndex] := orphan;
      assert heap[..] == after;
      ReheapedPermutes(h0, lastIndex);
    }

    /**
     * `add`: the card is written after the last live card, the count grows,
     * the array grows if it became full, and then `reheap(1)` runs.
     */
    method Add(item: Flashcard)
      requires Valid()
      modifies this, heap
      ensures Valid() && (heap == old(heap) || fresh(heap))
      ensures lastIndex == old(lastIndex) + 1
      ensures Live() == Added(old(Live()), old(lastIndex), item)
      ensures Elements() == old(Elements()) + multiset{Some(item)}
    {
      ghost var h0, n0 := heap[..], lastIndex;
      var newIndex := lastIndex + 1;
      heap[newIndex] := Some(item);
      lastIndex := lastIndex + 1;
      ghost var h1 := heap[..];
      EnsureCapacity();
      ghost var h2 := heap[..];
      Reheap();
      AddSteps(h0, n0, item, h1, h2, heap[..]);
    }

    /**
     * `poll`: on an empty queue, returns `null` and changes nothing; otherwise
     * runs `reheap(1)`, returns the root, moves the last live card into slot 1
     * (leaving its old slot as it was) and shrinks the count.
     */
    method Poll() returns (root: Slot)
      requires Valid()
      modifies this, heap
      ensures Valid() && heap == old(heap)
      ensures old(lastIndex) == 0 ==> root == None && lastIndex == 0 && heap[..] == old(heap[..])
      ensures old(lastIndex) >= 1 ==>
        && lastIndex == old(lastIndex) - 1
        && root == PolledRoot(old(heap[..]), old(lastIndex))
        && heap[..] == Polled(old(heap[..]), old(lastIndex))
        && Live() == Polled(old(Live()), old(lastIndex))[..lastIndex + 1]
        && root == PolledRoot(old(Live()), old(lastIndex))
        && heap[1] == Polled(old(Live()), old(lastIndex))[1]
      ensures old(lastIndex) >= 1 ==> root.Some? && old(Elements()) == Elements() + multiset{root}
    {
      root := None;
      if !IsEmpty() {
        ghost var h0 := heap[..];
        Reheap();
        ghost var h1 := heap[..];
        root := heap[1];
        heap[1] := heap[lastIndex];
        lastIndex := lastIndex - 1;
        PolledInPlace(h0, lastIndex + 1, h1, heap[..]);
        PolledPrefix(h0, lastIndex + 1);
        PolledSlotOne(h0, lastIndex + 1);
      }
    }

    /**
     * `peek`: on a non-empty queue runs `reheap(1)`; in every case returns slot 1,
     * which on an empty queue may still hold a card already polled.
     */
    method Peek() returns (root: Slot)
      requires Valid()
      modifies heap
      ensures Valid()
      ensures old(lastIndex) >= 1 ==> heap[..] == Reheaped(old(heap[..]), lastIndex)
      ensures old(lastIndex) >= 1 ==> Live() == Reheaped(old(Live()), lastIndex)
      ensures old(lastIndex) == 0 ==> heap[..] == old(heap[..])
      ensures root == heap[1]
      ensures Elements() == old(Elements())
      ensures lastIndex >= 1 ==> root in Elements()
    {
      if !IsEmpty() {
        ghost var h0 := heap[..];
        Reheap();
        ReheapedPermutes(h0, lastIndex);
        ReheapedPrefix(h0, lastIndex, lastIndex + 1);
        RootIsLive(heap[..], lastIndex);
      }
      root := heap[1];
    }

    /**
     * `clear`: nulls slots `lastIndex` down to 0, then sets the count to 0. Slots
     * after the old last live card keep what they held.
     */
    method Clear()
      requires Valid()
      modifies this, heap
      ensures Valid() && heap == old(heap)
      ensures lastIndex == 0
      ensures forall k :: 0 <= k <= old(lastIndex) ==> heap[k] == None
      ensures forall k :: old(lastIndex) < k < heap.Length ==> heap[k] == old(heap[k])
      ensures old(lastIndex) == 0 ==> heap[..] == old(heap[..])
    {
      while lastIndex > -1
        invariant heap == old(heap)
        invariant -1 <= lastIndex <= old(lastIndex)
        invariant forall k :: lastIndex < k <= old(lastIndex) ==> heap[k] == None
        invariant forall k :: 0 <= k <= lastIndex ==> heap[k] == old(heap[k])
        invariant forall k :: old(lastIndex) < k < heap.Length ==> heap[k] == old(heap[k])
      {
        heap[lastIndex] := None;
        lastIndex := lastIndex - 1;
      }
      lastIndex := 0;
    }
  }
}
