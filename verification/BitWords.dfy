/** Machine words as sets of bit positions, their slices and shifts, and bit masks laid out in words. A
    sparse array keeps the words that are not empty, with their keys in ascending order: Denotes ties it
    to the mask. The lemmas follow the loops of the array's operations: two cursors that merge two word
    lists, the byte loop that counts a word, and the byte loop that projects one word onto another. */
module BitWords {
  import opened AimMasks
  import opened Basics

  const BITS: nat := 64

  type Word = set<nat>

  predicate IsWord(w: Word) {
    forall b :: b in w ==> b < BITS
  }

  /** Bit b of what m holds from position a on. */
  predicate BitFrom(m: Mask, a: nat, b: nat) {
    a + b in m
  }

  /** The bits of m at positions a, a+1, .., a+width-1, renumbered from 0. */
  function Slice(m: Mask, a: nat, width: nat): (w: Word)
    ensures forall b: nat :: b in w <==> b < width && a + b in m
  {
    set b: nat | b < width && BitFrom(m, a, b)
  }

  /** A bit of w laid down at position a lands in place q. */
  predicate Laid(w: Word, a: nat, q: nat) {
    a <= q && q - a in w
  }

  /** Word w moved up by k places; bits beyond the width are lost. */
  function ShiftLeft(w: Word, k: nat): (r: Word)
    ensures forall b: nat :: b in r <==> k <= b < BITS && b - k in w
  {
    set b: nat | b < BITS && Laid(w, k, b)
  }

  function ShiftRight(w: Word, k: nat): (r: Word)
    ensures forall b: nat :: b in r <==> b < BITS && b + k in w
  {
    Slice(w, k, BITS)
  }

  /** What is left of word x after k shifts to the right. */
  lemma SliceShift(x: Word, k: nat, step: nat)
    requires IsWord(x)
    ensures ShiftRight(Slice(x, k, BITS), step) == Slice(x, k + step, BITS)
    ensures 0 in Slice(x, k, BITS) <==> k in x
    ensures Slice(x, k, BITS) == {} <==> forall b :: b in x ==> b < k
  {
    forall b | b in x && b >= k ensures b - k in Slice(x, k, BITS) {}
  }

  /** Ranks within a slice continue those below it. */
  lemma {:induction false} RankSlice(m: Mask, a: nat, width: nat, b: nat)
    requires b <= width
    ensures Rank(m, a + b) == Rank(m, a) + Rank(Slice(m, a, width), b)
  {
    if b == 0 {
      assert (set q | q in Slice(m, a, width) && q < 0) == {};
    } else {
      RankSlice(m, a, width, b - 1);
      RankStep(m, a + b - 1);
      RankStep(Slice(m, a, width), b - 1);
    }
  }

  lemma RankAll(w: Word, width: nat)
    requires forall b :: b in w ==> b < width
    ensures Rank(w, width) == |w|
  {
    assert (set q | q in w && q < width) == w;
  }

  /** Bit q of a sequence of words. */
  predicate BitAt(values: seq<Word>, q: nat) {
    q / BITS < |values| && q % BITS in values[q / BITS]
  }

  /** Words keys[0], keys[1], .. of m are values[0], values[1], ..; the others are empty. */
  ghost predicate Denotes(keys: seq<nat>, values: seq<Word>, m: Mask) {
    && |keys| == |values|
    && Asc(keys)
    && (forall i :: 0 <= i < |keys| ==> values[i] == Slice(m, keys[i] * BITS, BITS))
    && (forall p :: p in m ==> p / BITS in keys)
  }

  /** The projection of the bits of m below bound. */
  function ProjectBelow(m: Mask, h: Mask, bound: nat): Mask {
    set p | p in m && p in h && p < bound :: Rank(h, p)
  }

  lemma ProjectBelowStep(m: Mask, h: Mask, k: nat)
    ensures ProjectBelow(m, h, k + 1) == ProjectBelow(m, h, k) + if k in m && k in h then {Rank(h, k)} else {}
  {
  }

  lemma ProjectBelowAll(m: Mask, h: Mask, bound: nat)
    requires forall p :: p in m && p in h ==> p < bound
    ensures ProjectBelow(m, h, bound) == Project(m, h)
  {
  }

  lemma ProjectStart(on: Word, from: Word)
    requires IsWord(on)
    ensures Slice(on, 0, BITS) == on && Slice(on * from, 0, BITS) == on * from
    ensures Rank(on, 0) == 0 && ProjectBelow(from, on, 0) == {}
  {
    assert (set q | q in on && q < 0) == {};
  }

  lemma ProjectEnd(on: Word, from: Word, k: nat)
    requires IsWord(on) && Slice(on * from, k, BITS) == {}
    ensures ProjectBelow(from, on, k) == Project(from, on)
  {
    SliceShift(on * from, k, 0);
    forall p | p in from && p in on ensures p < k { assert p in on * from; }
    ProjectBelowAll(from, on, k);
  }

  /** The next width bits project onto the places after those of the bits of h below them. */
  lemma ProjectSlice(m: Mask, h: Mask, a: nat, width: nat, q: nat)
    ensures q in ProjectBelow(m, h, a + width)
       <==> q in ProjectBelow(m, h, a) || Laid(Project(Slice(m, a, width), Slice(h, a, width)), Rank(h, a), q)
  {
    var sm, sh := Slice(m, a, width), Slice(h, a, width);
    if q in ProjectBelow(m, h, a + width) && q !in ProjectBelow(m, h, a) {
      var p :| p in m && p in h && p < a + width && Rank(h, p) == q;
      RankSlice(h, a, width, p - a);
      assert p - a in sm && p - a in sh && Rank(sh, p - a) == q - Rank(h, a);
    }
    if Laid(Project(sm, sh), Rank(h, a), q) {
      var b :| b in sm && b in sh && Rank(sh, b) == q - Rank(h, a);
      RankSlice(h, a, width, b);
      assert a + b in m && a + b in h && Rank(h, a + b) == q;
    }
  }

  /** Without bits of h between a and b, both have the same rank and the same projection. */
  lemma {:induction false} Gap(m: Mask, h: Mask, a: nat, b: nat)
    requires a <= b && forall p :: p in h ==> !(a <= p < b)
    ensures Rank(h, a) == Rank(h, b) && ProjectBelow(m, h, a) == ProjectBelow(m, h, b)
  {
    assert (set q | q in h && q < a) == (set q | q in h && q < b);
  }

  predicate AllWords(values: seq<Word>) {
    forall i :: 0 <= i < |values| ==> IsWord(values[i])
  }

  /** The bits of val are added at position a, and nothing else changes. */
  ghost predicate Added(before: seq<Word>, after: seq<Word>, val: Word, a: nat) {
    && |after| == |before| && AllWords(after)
    && forall q: nat :: BitAt(after, q) <==> BitAt(before, q) || Laid(val, a, q)
  }

  /** or-ing the low part of val into its word and the overflow into the next one adds val in place. */
  lemma OrWord(before: seq<Word>, after: seq<Word>, val: Word, a: nat, count: nat)
    requires (forall b :: b in val ==> b < count) && count <= 8 && (a + count) / BITS < |before| && AllWords(before)
    requires var w, off := a / BITS, a % BITS;
      if off + count > BITS then
        after == before[w + 1 := before[w + 1] + ShiftRight(val, BITS - off)][w := before[w] + ShiftLeft(val, off)]
      else
        after == before[w := before[w] + ShiftLeft(val, off)]
    ensures Added(before, after, val, a)
  {
    var w, off := a / BITS, a % BITS;
    forall q: nat ensures BitAt(after, q) <==> BitAt(before, q) || Laid(val, a, q) {
      if q / BITS == w {
        assert q % BITS == q - a + off;
      } else if q / BITS == w + 1 {
        assert q % BITS == q - a + off - BITS;
      }
    }
  }

  /** One more byte of a word under projection. */
  lemma AddedByte(first: seq<Word>, before: seq<Word>, after: seq<Word>, from: Word, on: Word, k: nat, a: nat)
    requires Added(first, before, ProjectBelow(from, on, k), a)
    requires Added(before, after, Project(Slice(from, k, 8), Slice(on, k, 8)), a + Rank(on, k))
    ensures Added(first, after, ProjectBelow(from, on, k + 8), a)
  {
    forall q: nat ensures BitAt(after, q) <==> BitAt(first, q) || Laid(ProjectBelow(from, on, k + 8), a, q) {
      if a <= q {
        ProjectSlice(from, on, k, 8, q - a);
      }
    }
  }

  /** One more word of the masks under projection. */
  lemma AddedWord(first: seq<Word>, before: seq<Word>, after: seq<Word>, m: Mask, h: Mask, k: nat)
    requires Added(first, before, ProjectBelow(m, h, k), 0)
    requires Added(before, after, Project(Slice(m, k, BITS), Slice(h, k, BITS)), Rank(h, k))
    ensures Added(first, after, ProjectBelow(m, h, k + BITS), 0)
  {
    forall q: nat ensures BitAt(after, q) <==> BitAt(first, q) || Laid(ProjectBelow(m, h, k + BITS), 0, q) {
      ProjectSlice(m, h, k, BITS, q);
    }
  }

  /** A word of h where m has no bits. */
  lemma SkippedWord(m: Mask, h: Mask, k: nat)
    requires Slice(m, k, BITS) == {}
    ensures ProjectBelow(m, h, k + BITS) == ProjectBelow(m, h, k)
  {
    forall p | p in m && p in h && p < k + BITS ensures p < k { assert p >= k ==> p - k in Slice(m, k, BITS); }
  }

  /** The word where m keeps the bits from key * BITS on. */
  lemma WordOf(keys: seq<nat>, values: seq<Word>, m: Mask, key: nat)
    requires Denotes(keys, values, m)
    ensures key !in keys ==> Slice(m, key * BITS, BITS) == {}
    ensures forall i :: 0 <= i < |keys| && keys[i] == key ==> Slice(m, key * BITS, BITS) == values[i]
  {
    if key !in keys {
      forall b: nat | b < BITS ensures !BitFrom(m, key * BITS, b) { assert (key * BITS + b) / BITS == key; }
    }
  }

  /** All places filled from 0 on: a dense array denotes the set of its bits. */
  lemma DenseDenotes(zeros: seq<Word>, keys: seq<nat>, values: seq<Word>, m: Mask)
    requires (forall i :: 0 <= i < |zeros| ==> zeros[i] == {}) && Added(zeros, values, m, 0)
    requires |keys| == |values| && forall i :: 0 <= i < |keys| ==> keys[i] == i
    requires forall p :: p in m ==> p / BITS < |keys|
    ensures Denotes(keys, values, m)
  {
    forall i | 0 <= i < |keys| ensures values[i] == Slice(m, keys[i] * BITS, BITS) {
      forall b: nat | b < BITS ensures b in values[i] <==> i * BITS + b in m {
        assert (i * BITS + b) / BITS == i && (i * BITS + b) % BITS == b;
        assert BitAt(values, i * BITS + b) <==> Laid(m, 0, i * BITS + b);
      }
    }
    forall p | p in m ensures p / BITS in keys { assert keys[p / BITS] == p / BITS; }
  }

  // ---------------------------------------------------------------------------------------
  // Merging two sorted key lists
  // ---------------------------------------------------------------------------------------

  /** The keys passed by one cursor lie below those still ahead of the other. */
  ghost predicate Ahead(keys: seq<nat>, pos: nat, others: seq<nat>, otherPos: nat) {
    && pos <= |keys| && otherPos <= |others|
    && (forall i, j :: 0 <= i < pos && otherPos <= j < |others| ==> keys[i] < others[j])
    && (forall i, j :: pos <= i < |keys| && 0 <= j < otherPos ==> others[j] < keys[i])
  }

  /** The words of t with keys among the first pos have been collected. */
  ghost predicate Collected(t: Mask, keys: seq<nat>, pos: nat, resKeys: seq<nat>, resValues: seq<Word>) {
    && pos <= |keys| && |resKeys| == |resValues|
    && Asc(resKeys)
    && (forall i :: 0 <= i < |resKeys| ==> resKeys[i] in keys[..pos])
    && (forall i :: 0 <= i < |resKeys| ==> resValues[i] == Slice(t, resKeys[i] * BITS, BITS))
    && (forall p :: p in t && p / BITS in keys[..pos] ==> p / BITS in resKeys)
  }

  lemma CollectWord(t: Mask, keys: seq<nat>, pos: nat, resKeys: seq<nat>, resValues: seq<Word>, word: Word)
    requires Collected(t, keys, pos, resKeys, resValues) && pos < |keys|
    requires Asc(keys)
    requires word == Slice(t, keys[pos] * BITS, BITS)
    ensures Collected(t, keys, pos + 1, resKeys + [keys[pos]], resValues + [word])
  {
    assert keys[..pos + 1] == keys[..pos] + [keys[pos]];
    var k := resKeys + [keys[pos]];
    assert k[|resKeys|] == keys[pos];
    assert forall x :: x in resKeys ==> x in k;
  }

  lemma InSlice(t: Mask, key: nat, p: nat)
    ensures p in t && p / BITS == key ==> p - key * BITS in Slice(t, key * BITS, BITS)
  {
    assert p / BITS == key ==> BitFrom(t, key * BITS, p - key * BITS) == (p in t);
  }

  lemma CollectNothing(t: Mask, keys: seq<nat>, pos: nat, resKeys: seq<nat>, resValues: seq<Word>)
    requires Collected(t, keys, pos, resKeys, resValues) && pos < |keys|
    requires Slice(t, keys[pos] * BITS, BITS) == {}
    ensures Collected(t, keys, pos + 1, resKeys, resValues)
  {
    assert keys[..pos + 1] == keys[..pos] + [keys[pos]];
    forall p | p in t ensures p / BITS != keys[pos] {
      InSlice(t, keys[pos], p);
    }
  }

  lemma CollectedAll(t: Mask, keys: seq<nat>, pos: nat, resKeys: seq<nat>, resValues: seq<Word>)
    requires Collected(t, keys, pos, resKeys, resValues)
    requires forall p :: p in t ==> p / BITS in keys[..pos]
    ensures Denotes(resKeys, resValues, t)
  {
  }

  /** Once one cursor is through, both masks have no more words in common. */
  lemma NoMoreCommon(m: Mask, keys: seq<nat>, values: seq<Word>, pos: nat, o: Mask, others: seq<nat>,
                     otherValues: seq<Word>, otherPos: nat)
    requires Denotes(keys, values, m) && Denotes(others, otherValues, o) && Ahead(keys, pos, others, otherPos)
    requires pos == |keys| || otherPos == |others|
    ensures forall p :: p in m * o ==> p / BITS in keys[..pos]
  {
    forall p | p in m * o ensures p / BITS in keys[..pos] {
      CommonPassed(keys, pos, others, otherPos, p / BITS);
    }
  }

  lemma CommonPassed(keys: seq<nat>, pos: nat, others: seq<nat>, otherPos: nat, key: nat)
    requires Ahead(keys, pos, others, otherPos) && (pos == |keys| || otherPos == |others|)
    requires key in keys && key in others
    ensures key in keys[..pos]
  {
    var i :| 0 <= i < |keys| && keys[i] == key;
    var j :| 0 <= j < |others| && others[j] == key;
    if i < pos {
      assert keys[..pos][i] == key;
    } else {
      assert false;
    }
  }

  /** The word at a cursor whose key the other list does not have. */
  lemma OnlyHere(keys: seq<nat>, pos: nat, others: seq<nat>, otherPos: nat)
    requires Ahead(keys, pos, others, otherPos) && pos < |keys|
    requires Asc(others)
    requires otherPos < |others| ==> keys[pos] < others[otherPos]
    ensures keys[pos] !in others
  {
  }

  lemma SliceOps(m: Mask, o: Mask, a: nat)
    ensures Slice(m * o, a, BITS) == Slice(m, a, BITS) * Slice(o, a, BITS)
    ensures Slice(m - o, a, BITS) == Slice(m, a, BITS) - Slice(o, a, BITS)
  {
  }

  /** Two sorted word lists being merged: m's cursor at pos, o's at otherPos. */
  ghost predicate Merging(m: Mask, keys: seq<nat>, values: seq<Word>, pos: nat,
                          o: Mask, others: seq<nat>, otherValues: seq<Word>, otherPos: nat) {
    Denotes(keys, values, m) && Denotes(others, otherValues, o) && Ahead(keys, pos, others, otherPos)
  }

  lemma MergeStart(m: Mask, keys: seq<nat>, values: seq<Word>, o: Mask, others: seq<nat>, otherValues: seq<Word>,
                   t: Mask)
    requires Denotes(keys, values, m) && Denotes(others, otherValues, o)
    ensures Merging(m, keys, values, 0, o, others, otherValues, 0) && Collected(t, keys, 0, [], []) && Asc(keys)
  {
  }

  /** m's key is smaller, or o is through: o has no such word. */
  lemma MergeFirst(m: Mask, keys: seq<nat>, values: seq<Word>, pos: nat,
                   o: Mask, others: seq<nat>, otherValues: seq<Word>, otherPos: nat)
    requires Merging(m, keys, values, pos, o, others, otherValues, otherPos) && pos < |keys|
    requires otherPos < |others| ==> keys[pos] < others[otherPos]
    ensures Merging(m, keys, values, pos + 1, o, others, otherValues, otherPos)
    ensures Slice(m * o, keys[pos] * BITS, BITS) == {} && Slice(m - o, keys[pos] * BITS, BITS) == values[pos]
    ensures Slice(m, keys[pos] * BITS, BITS) == values[pos] && Slice(o, keys[pos] * BITS, BITS) == {}
  {
    OnlyHere(keys, pos, others, otherPos);
    SliceOps(m, o, keys[pos] * BITS);
    WordOf(keys, values, m, keys[pos]);
    WordOf(others, otherValues, o, keys[pos]);
  }

  /** o's key is smaller: m has no such word. */
  lemma MergeSecond(m: Mask, keys: seq<nat>, values: seq<Word>, pos: nat,
                    o: Mask, others: seq<nat>, otherValues: seq<Word>, otherPos: nat)
    requires Merging(m, keys, values, pos, o, others, otherValues, otherPos) && otherPos < |others|
    requires pos < |keys| ==> others[otherPos] < keys[pos]
    ensures Merging(m, keys, values, pos, o, others, otherValues, otherPos + 1)
    ensures Slice(m, others[otherPos] * BITS, BITS) == {} &&
            Slice(o, others[otherPos] * BITS, BITS) == otherValues[otherPos]
  {
    assert others[otherPos] !in keys;
    WordOf(keys, values, m, others[otherPos]);
    WordOf(others, otherValues, o, others[otherPos]);
  }

  lemma MergeBoth(m: Mask, keys: seq<nat>, values: seq<Word>, pos: nat,
                  o: Mask, others: seq<nat>, otherValues: seq<Word>, otherPos: nat)
    requires Merging(m, keys, values, pos, o, others, otherValues, otherPos) && pos < |keys| && otherPos < |others|
    requires keys[pos] == others[otherPos]
    ensures Merging(m, keys, values, pos + 1, o, others, otherValues, otherPos + 1)
    ensures Slice(m * o, keys[pos] * BITS, BITS) == values[pos] * otherValues[otherPos]
    ensures Slice(m - o, keys[pos] * BITS, BITS) == values[pos] - otherValues[otherPos]
    ensures Slice(m, keys[pos] * BITS, BITS) == values[pos] && Slice(o, keys[pos] * BITS, BITS) == otherValues[otherPos]
  {
    SliceOps(m, o, keys[pos] * BITS);
    WordOf(keys, values, m, keys[pos]);
    WordOf(others, otherValues, o, keys[pos]);
  }

  lemma MergedAnd(m: Mask, keys: seq<nat>, values: seq<Word>, pos: nat, o: Mask, others: seq<nat>,
                  otherValues: seq<Word>, otherPos: nat,
                  resKeys: seq<nat>, resValues: seq<Word>)
    requires Merging(m, keys, values, pos, o, others, otherValues, otherPos) && (pos == |keys| || otherPos == |others|)
    requires Collected(m * o, keys, pos, resKeys, resValues)
    ensures Denotes(resKeys, resValues, m * o)
  {
    NoMoreCommon(m, keys, values, pos, o, others, otherValues, otherPos);
    CollectedAll(m * o, keys, pos, resKeys, resValues);
  }

  lemma MergedAndNot(m: Mask, keys: seq<nat>, values: seq<Word>, o: Mask, resKeys: seq<nat>, resValues: seq<Word>)
    requires Denotes(keys, values, m) && Collected(m - o, keys, |keys|, resKeys, resValues)
    ensures Denotes(resKeys, resValues, m - o)
  {
    assert keys[..|keys|] == keys;
    CollectedAll(m - o, keys, |keys|, resKeys, resValues);
  }

  // ---------------------------------------------------------------------------------------
  // Counting and projecting by bytes and words
  // ---------------------------------------------------------------------------------------

  /** The low byte of what is left of a word, and what is left after it. */
  lemma WordByte(word: Word, k: nat)
    requires IsWord(word)
    ensures k % 8 == 0 && Slice(word, k, BITS) != {} ==> k + 8 <= BITS
    ensures Slice(Slice(word, k, BITS), 0, 8) == Slice(word, k, 8)
    ensures ShiftRight(Slice(word, k, BITS), 8) == Slice(word, k + 8, BITS)
    ensures Rank(word, k + 8) == Rank(word, k) + |Slice(word, k, 8)|
  {
    SliceShift(word, k, 8);
    RankSlice(word, k, 8, 8);
    RankAll(Slice(word, k, 8), 8);
  }

  lemma WordEnd(word: Word, k: nat)
    requires IsWord(word) && Slice(word, k, BITS) == {}
    ensures Rank(word, k) == |word|
  {
    SliceShift(word, k, 0);
    RankAll(word, k);
  }

  /** The words before pos lie below bound, the others do not. */
  ghost predicate Counted(m: Mask, keys: seq<nat>, values: seq<Word>, pos: nat, bound: nat) {
    && Denotes(keys, values, m) && pos <= |keys|
    && (forall j :: 0 <= j < pos ==> keys[j] * BITS + BITS <= bound)
    && (forall j :: pos <= j < |keys| ==> bound <= keys[j] * BITS)
  }

  /** No bits of m lie between bound and the next word. */
  lemma NextWord(m: Mask, keys: seq<nat>, values: seq<Word>, pos: nat, bound: nat)
    requires Counted(m, keys, values, pos, bound) && pos < |keys|
    ensures Counted(m, keys, values, pos + 1, keys[pos] * BITS + BITS) && bound <= keys[pos] * BITS
    ensures |values| == |keys| && Slice(m, keys[pos] * BITS, BITS) == values[pos] && IsWord(values[pos])
    ensures forall p :: p in m ==> !(bound <= p < keys[pos] * BITS)
  {
    forall p | p in m ensures !(bound <= p < keys[pos] * BITS) {
      var j :| 0 <= j < |keys| && keys[j] == p / BITS;
      assert j < pos || keys[pos] <= keys[j];
    }
  }

  lemma CountStart(m: Mask, keys: seq<nat>, values: seq<Word>)
    requires Denotes(keys, values, m)
    ensures Counted(m, keys, values, 0, 0) && Rank(m, 0) == 0
  {
    assert (set q | q in m && q < 0) == {};
  }

  lemma CountWord(m: Mask, keys: seq<nat>, values: seq<Word>, pos: nat, bound: nat)
    requires Counted(m, keys, values, pos, bound) && pos < |keys|
    ensures Counted(m, keys, values, pos + 1, keys[pos] * BITS + BITS) && IsWord(values[pos])
    ensures Rank(m, keys[pos] * BITS + BITS) == Rank(m, bound) + |values[pos]|
  {
    hide *;
    NextWord(m, keys, values, pos, bound);
    GapWord(m, bound, keys[pos] * BITS, values[pos]);
  }

  lemma GapWord(m: Mask, bound: nat, a: nat, word: Word)
    requires bound <= a && (forall p :: p in m ==> !(bound <= p < a)) && word == Slice(m, a, BITS)
    ensures Rank(m, a + BITS) == Rank(m, bound) + |word|
  {
    Gap(m, m, bound, a);
    WordRank(m, a, word);
  }

  lemma WordRank(m: Mask, a: nat, word: Word)
    requires word == Slice(m, a, BITS)
    ensures Rank(m, a + BITS) == Rank(m, a) + |word|
  {
    RankSlice(m, a, BITS, BITS);
    RankAll(word, BITS);
  }

  lemma CountEnd(m: Mask, keys: seq<nat>, values: seq<Word>, bound: nat)
    requires Counted(m, keys, values, |keys|, bound)
    ensures Rank(m, bound) == |m|
  {
    forall p | p in m ensures p < bound {
      var j :| 0 <= j < |keys| && keys[j] == p / BITS;
    }
    RankAll(m, bound);
  }

  lemma ProjectBound(m: Word, h: Word)
    ensures forall b :: b in Project(m, h) ==> b < |h|
  {
    forall p | p in m && p in h ensures Rank(h, p) < |h| { RankBound(h, p); }
  }

  /** One step of the byte loop of Project: both words lose a byte, its projection is laid down. */
  lemma ProjectByte(first: seq<Word>, before: seq<Word>, after: seq<Word>, from: Word, on: Word, k: nat, a: nat)
    requires IsWord(from) && IsWord(on)
    requires Added(first, before, ProjectBelow(from, on, k), a)
    requires Added(before, after, Project(Slice(Slice(from, k, BITS), 0, 8), Slice(Slice(on, k, BITS), 0, 8)),
                   a + Rank(on, k))
    ensures Added(first, after, ProjectBelow(from, on, k + 8), a)
  {
    WordByte(from, k);
    WordByte(on, k);
    AddedByte(first, before, after, from, on, k, a);
  }

  /** There is room for the next byte below the end of the whole word. */
  lemma ByteFits(on: Word, k: nat)
    requires IsWord(on)
    ensures Rank(on, k) + |Slice(Slice(on, k, BITS), 0, 8)| <= |on|
  {
    WordByte(on, k);
    RankBound(on, k + 8);
  }

  // ---------------------------------------------------------------------------------------
  // Project over two sparse arrays
  // ---------------------------------------------------------------------------------------

  /** Below bound, h has been counted into bitPos and m has been projected into now. */
  ghost predicate Projecting(m: Mask, keys: seq<nat>, values: seq<Word>, pos: nat,
                             h: Mask, others: seq<nat>, otherValues: seq<Word>, onPos: nat,
                             bound: nat, bitPos: nat, zeros: seq<Word>, now: seq<Word>) {
    && Merging(m, keys, values, pos, h, others, otherValues, onPos)
    && Counted(h, others, otherValues, onPos, bound)
    && bitPos == Rank(h, bound)
    && |zeros| == |h| / BITS + 1 && (forall i :: 0 <= i < |zeros| ==> zeros[i] == {})
    && Added(zeros, now, ProjectBelow(m, h, bound), 0)
  }

  lemma ProjectingStart(m: Mask, keys: seq<nat>, values: seq<Word>, h: Mask, others: seq<nat>,
                        otherValues: seq<Word>, zeros: seq<Word>)
    requires Denotes(keys, values, m) && Denotes(others, otherValues, h)
    requires |zeros| == |h| / BITS + 1 && forall i :: 0 <= i < |zeros| ==> zeros[i] == {}
    ensures Projecting(m, keys, values, 0, h, others, otherValues, 0, 0, 0, zeros, zeros)
  {
    CountStart(h, others, otherValues);
  }

  /** m's word meets no word of h. */
  lemma ProjectingSkips(m: Mask, keys: seq<nat>, values: seq<Word>, pos: nat,
                        h: Mask, others: seq<nat>, otherValues: seq<Word>, onPos: nat,
                        bound: nat, bitPos: nat, zeros: seq<Word>, now: seq<Word>)
    requires Projecting(m, keys, values, pos, h, others, otherValues, onPos, bound, bitPos, zeros, now)
    requires pos < |keys| && onPos < |others| && keys[pos] < others[onPos]
    ensures Projecting(m, keys, values, pos + 1, h, others, otherValues, onPos, bound, bitPos, zeros, now)
  {
    MergeFirst(m, keys, values, pos, h, others, otherValues, onPos);
    hide Merging, Counted, Added;
  }

  /** h's word meets no word of m: its bits are counted, nothing is written. */
  lemma ProjectingCounts(m: Mask, keys: seq<nat>, values: seq<Word>, pos: nat,
                         h: Mask, others: seq<nat>, otherValues: seq<Word>, onPos: nat,
                         bound: nat, bitPos: nat, zeros: seq<Word>, now: seq<Word>)
    requires Projecting(m, keys, values, pos, h, others, otherValues, onPos, bound, bitPos, zeros, now)
    requires pos < |keys| && onPos < |others| && others[onPos] < keys[pos]
    ensures IsWord(otherValues[onPos])
    ensures Projecting(m, keys, values, pos, h, others, otherValues, onPos + 1, others[onPos] * BITS + BITS,
                       bitPos + |otherValues[onPos]|, zeros, now)
  {
    MergeSecond(m, keys, values, pos, h, others, otherValues, onPos);
    CountWord(h, others, otherValues, onPos, bound);
    NextWord(h, others, otherValues, onPos, bound);
    Gap(m, h, bound, others[onPos] * BITS);
    SkippedWord(m, h, others[onPos] * BITS);
    hide Merging, Counted, Added, Rank, ProjectBelow;
  }

  /** Both have the word: what ProjectWord may rely on. */
  lemma ProjectingReady(m: Mask, keys: seq<nat>, values: seq<Word>, pos: nat,
                        h: Mask, others: seq<nat>, otherValues: seq<Word>, onPos: nat,
                        bound: nat, bitPos: nat, zeros: seq<Word>, now: seq<Word>)
    requires Projecting(m, keys, values, pos, h, others, otherValues, onPos, bound, bitPos, zeros, now)
    requires pos < |keys| && onPos < |others| && keys[pos] == others[onPos]
    ensures IsWord(values[pos]) && IsWord(otherValues[onPos]) && AllWords(now)
    ensures (bitPos + |otherValues[onPos]|) / BITS < |now|
  {
    MergeBoth(m, keys, values, pos, h, others, otherValues, onPos);
    CountWord(h, others, otherValues, onPos, bound);
    RankBound(h, others[onPos] * BITS + BITS);
  }

  lemma ProjectingWrites(m: Mask, keys: seq<nat>, values: seq<Word>, pos: nat,
                         h: Mask, others: seq<nat>, otherValues: seq<Word>, onPos: nat,
                         bound: nat, bitPos: nat, zeros: seq<Word>, now: seq<Word>, next: seq<Word>)
    requires Projecting(m, keys, values, pos, h, others, otherValues, onPos, bound, bitPos, zeros, now)
    requires pos < |keys| && onPos < |others| && keys[pos] == others[onPos]
    requires Added(now, next, Project(values[pos], otherValues[onPos]), bitPos)
    ensures Projecting(m, keys, values, pos + 1, h, others, otherValues, onPos + 1, others[onPos] * BITS + BITS,
                       bitPos + |otherValues[onPos]|, zeros, next)
  {
    MergeBoth(m, keys, values, pos, h, others, otherValues, onPos);
    CountWord(h, others, otherValues, onPos, bound);
    NextWord(h, others, otherValues, onPos, bound);
    Gap(m, h, bound, others[onPos] * BITS);
    hide Merging, Counted, Added, Rank, ProjectBelow, Project, Slice;
    AddedWord(zeros, now, next, m, h, others[onPos] * BITS);
  }

  lemma ProjectingEnd(m: Mask, keys: seq<nat>, values: seq<Word>, pos: nat,
                      h: Mask, others: seq<nat>, otherValues: seq<Word>, onPos: nat,
                      bound: nat, bitPos: nat, zeros: seq<Word>, resKeys: seq<nat>, now: seq<Word>)
    requires Projecting(m, keys, values, pos, h, others, otherValues, onPos, bound, bitPos, zeros, now)
    requires pos == |keys| || onPos == |others|
    requires |resKeys| == |now| && forall i :: 0 <= i < |resKeys| ==> resKeys[i] == i
    ensures Denotes(resKeys, now, Project(m, h))
  {
    forall p | p in m && p in h ensures p < bound {
      var j :| 0 <= j < |others| && others[j] == p / BITS;
      var i :| 0 <= i < |keys| && keys[i] == p / BITS;
      assert j < onPos;
    }
    ProjectBelowAll(m, h, bound);
    ProjectBound(m, h);
    DenseDenotes(zeros, resKeys, now, Project(m, h));
  }
}
