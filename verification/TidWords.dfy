/** Tid lists as sequences of machine words. A word is the set of the transactions whose bits are
    one in it: word w of a list holds transactions t with t / WORD_BITS == w. */
module TidWords {
  const WORD_BITS: nat := 128

  type Word = set<nat>

  function Words(s: set<nat>, size: nat): (t: seq<Word>)
    ensures |t| == size
    ensures forall w: nat :: w < size ==> t[w] == set e | e in s && e / WORD_BITS == w
  {
    seq(size, w requires 0 <= w => set e | e in s && e / WORD_BITS == w)
  }

  predicate InWord(e: nat, w: nat) {
    e / WORD_BITS == w
  }

  /** All bits of a word are one. */
  function FullWord(w: nat): (r: Word)
    ensures forall e: nat :: e in r <==> InWord(e, w)
  {
    set e: nat | e < (w + 1) * WORD_BITS && InWord(e, w)
  }

  function Full(size: nat): (t: seq<Word>)
    ensures |t| == size && forall w: nat :: w < size ==> t[w] == FullWord(w)
  {
    seq(size, w requires 0 <= w < size => FullWord(w))
  }

  /** Every transaction of s has a word among the first size. */
  predicate Fits(s: set<nat>, size: nat) {
    forall e :: e in s ==> e / WORD_BITS < size
  }

  /** Number of one bits in words lo..hi-1. */
  function Bits(t: seq<Word>, lo: nat, hi: nat): nat
    requires lo <= hi <= |t|
  {
    if lo == hi then 0 else Bits(t, lo, hi - 1) + |t[hi - 1]|
  }

  function And(a: seq<Word>, b: seq<Word>): (c: seq<Word>)
    requires |a| == |b|
    ensures |c| == |a| && forall w :: 0 <= w < |c| ==> c[w] == a[w] * b[w]
  {
    seq(|a|, w requires 0 <= w < |a| => a[w] * b[w])
  }

  /** The first k words of t are included in those of row. */
  predicate Within(t: seq<Word>, row: seq<Word>, k: nat)
    requires |t| == |row|
  {
    forall w :: 0 <= w < k && w < |t| ==> t[w] <= row[w]
  }

  /** Word k is the first of t that is not included in the row's. */
  predicate FirstMissing(t: seq<Word>, row: seq<Word>, k: nat)
    requires |t| == |row|
  {
    k < |t| && Within(t, row, k) && !(t[k] <= row[k])
  }

  /** There is one such word, and the included prefixes are those up to it. */
  lemma MissingIsBound(t: seq<Word>, row: seq<Word>, k: nat, m: nat)
    requires |t| == |row| && FirstMissing(t, row, k)
    ensures Within(t, row, m) <==> m <= k
    ensures FirstMissing(t, row, m) <==> m == k
  {
    if m > k { assert !(t[k] <= row[k]); }
  }

  lemma {:induction false} BitsSplit(t: seq<Word>, lo: nat, mid: nat, hi: nat)
    requires lo <= mid <= hi <= |t|
    ensures Bits(t, lo, hi) == Bits(t, lo, mid) + Bits(t, mid, hi)
    decreases hi - mid
  {
    if mid < hi { BitsSplit(t, lo, mid, hi - 1); }
  }

  lemma {:induction false} BitsSame(a: seq<Word>, b: seq<Word>, lo: nat, hi: nat)
    requires lo <= hi <= |a| && hi <= |b|
    requires forall w :: lo <= w < hi ==> a[w] == b[w]
    ensures Bits(a, lo, hi) == Bits(b, lo, hi)
    decreases hi - lo
  {
    if lo < hi { BitsSame(a, b, lo, hi - 1); }
  }

  /** Word-wise inclusion is inclusion of the sets. */
  lemma WithinIsSubset(a: set<nat>, b: set<nat>, size: nat)
    requires Fits(a, size)
    ensures Within(Words(a, size), Words(b, size), size) <==> a <= b
  {
    if Within(Words(a, size), Words(b, size), size) {
      forall e | e in a ensures e in b {
        var w := e / WORD_BITS;
        assert e in Words(a, size)[w];
      }
    }
  }

  /** Word-wise AND is intersection. */
  lemma AndIsIntersection(a: set<nat>, b: set<nat>, size: nat)
    ensures And(Words(a, size), Words(b, size)) == Words(a * b, size)
  {
    var c, d := And(Words(a, size), Words(b, size)), Words(a * b, size);
    forall w: nat | w < size ensures c[w] == d[w] {
    }
  }

  /** Counting bits word by word counts the set. */
  lemma {:induction false} BitsIsCard(s: set<nat>, size: nat, k: nat)
    requires k <= size
    ensures Bits(Words(s, size), 0, k) == |set e | e in s && e / WORD_BITS < k|
  {
    var below := set e | e in s && e / WORD_BITS < k;
    if k == 0 {
      assert below == {};
    } else {
      var before := set e | e in s && e / WORD_BITS < k - 1;
      var last := set e | e in s && e / WORD_BITS == k - 1;
      BitsIsCard(s, size, k - 1);
      assert below == before + last && before !! last;
    }
  }

  lemma CountIsCard(s: set<nat>, size: nat)
    requires Fits(s, size)
    ensures Bits(Words(s, size), 0, size) == |s|
  {
    BitsIsCard(s, size, size);
    assert s == set e | e in s && e / WORD_BITS < size;
  }

  /** Ones do not matter in an intersection, not even those behind the last transaction. */
  lemma FullAnd(s: set<nat>, size: nat)
    ensures And(Full(size), Words(s, size)) == Words(s, size)
  {
    var c := And(Full(size), Words(s, size));
    forall w: nat | w < size ensures c[w] == Words(s, size)[w] {
      assert forall e :: e in Words(s, size)[w] ==> InWord(e, w);
    }
  }
}
