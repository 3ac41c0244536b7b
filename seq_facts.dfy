/** Facts about sequences and multisets that the proofs of the displayer use. */
module SeqFacts {
  /** Concatenation is associative. */
  lemma ConcatAssociates<T>(a: seq<T>, b: seq<T>, c: seq<T>)
    ensures a + (b + c) == (a + b) + c
  {
  }

  /** Appending nothing changes nothing. */
  lemma AppendEmpty<T>(s: seq<T>)
    ensures s + [] == s
  {
  }

  /** Taking all of a sequence gives the sequence. */
  lemma TakeAll<T>(s: seq<T>)
    ensures s[..|s|] == s
  {
  }

  /** A non-empty sequence is its prefix without the last element, then that element. */
  lemma ButLastThenLast<T>(s: seq<T>)
    requires s != []
    ensures s[..|s| - 1] + [s[|s| - 1]] == s
  {
  }

  /** Multiset union is associative. */
  lemma UnionAssociates<T>(a: multiset<T>, b: multiset<T>, c: multiset<T>)
    ensures (a + b) + c == a + (b + c)
  {
  }

  /** Adding `added` and then `x` to `before` adds `all`, their union. */
  lemma UnionChain<T>(a: multiset<T>, b: multiset<T>, before: multiset<T>, added: multiset<T>, x: multiset<T>, all: multiset<T>)
    requires a == before + added && b == a + x && all == added + x
    ensures b == before + all
  {
  }

  /** Trading `c` for `k` and then `r` for `v`, in one step. */
  lemma TradeTwice<T>(before: multiset<T>, c: multiset<T>, after: multiset<T>, k: multiset<T>,
                      r: multiset<T>, left: multiset<T>, v: multiset<T>)
    requires before + c == after + k && after + r == left + v
    ensures before + (c + r) == left + (k + v)
  {
    forall x: T ensures (before + (c + r))[x] == (left + (k + v))[x] {
      assert (before + c)[x] == (after + k)[x];
      assert (after + r)[x] == (left + v)[x];
    }
  }

  /** Adding the empty multiset changes nothing. */
  lemma EmptyUnion<T>(a: multiset<T>)
    ensures a + multiset{} == a
  {
  }

  /** A prefix of a prefix is a prefix. */
  lemma TakeTake<T>(s: seq<T>, i: int, j: int)
    requires 0 <= i <= j <= |s|
    ensures s[..j][..i] == s[..i] && (i < j ==> s[..j][i] == s[i])
  {
  }

  /** Dropping `j` elements after dropping `i` drops `i + j`. */
  lemma DropTwice<T>(s: seq<T>, i: nat, j: nat)
    requires i + j <= |s|
    ensures s[i..][j..] == s[i + j..]
  {
  }

  /** The rest of a sequence after its first element. */
  lemma TailOfCons<T>(x: T, s: seq<T>)
    ensures ([x] + s)[1..] == s && ([x] + s)[0] == x
  {
  }

  /** The last element of a sequence is still last with an element put in front. */
  lemma LastOfCons<T>(x: T, s: seq<T>)
    requires s != []
    ensures ([x] + s)[|s|] == s[|s| - 1]
  {
  }
}
