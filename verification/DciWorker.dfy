/** The worker of DCI-Closed on its preallocated, levelled buffers, with the word-level caches of
    Check_Inclusion and Intersect_and_Count. The closed set in the making, the pre-list with its bounds, and
    the post-lists of all levels share four arrays; every level owns a region of them and one tid list. A tid
    list is a row of the dataset or a list of a level, cut into the words of the section equal and the others.
    The jobs are those of One_Thread, of the pair policies, and the one job of Simplest. */
module DciWorker {
  import opened Basics
  import opened ClosedSets
  import opened DciWalk
  import opened TidWords
  import opened DciPolicies

  /** Where a tid list is kept: a row of the vertical dataset, or one of the worker's own lists. */
  datatype Ptr = Row(item: nat) | Slot(level: nat)

  /** An item of a post list, with the number of leading words of the current tid list that are
      known to be included in its row. */
  datatype PostItem = PostItem(id: nat, included: nat)

  /** A closed set in the making, or the one of a level. */
  datatype CloseItemset = CloseItemset(
    lung: nat,          // number of items
    count: nat,         // support
    head: Ptr,          // words of the section equal
    tail: Ptr,          // the other words
    incl: bool,         // contains an item of the section equal
    headBits: nat,      // one bits in the section equal
    seBytes: nat,       // leading words known to be included in the section equal
    oldBits: nat,
    bits: nat,          // one bits in the leading words that every post item includes
    oldMin: nat,
    min: nat            // number of those words
  )

  /** What a worker writes out: the closed sets of two or more items. */
  function Printed(r: seq<Event>): seq<Event> {
    if r == [] then []
    else if IsPrinted(r[0]) then [r[0]] + Printed(r[1..])
    else Printed(r[1..])
  }

  predicate IsPrinted(e: Event) {
    e.Found? && |e.items| >= 2
  }

  lemma {:induction false} PrintedConcat(a: seq<Event>, b: seq<Event>)
    ensures Printed(a + b) == Printed(a) + Printed(b)
  {
    if a == [] {
      assert a + b == b;
    } else {
      assert (a + b)[1..] == a[1..] + b;
      PrintedConcat(a[1..], b);
    }
  }

  lemma {:induction false} PrintedCount(r: seq<Event>, e: Event)
    ensures multiset(Printed(r))[e] == if IsPrinted(e) then multiset(r)[e] else 0
  {
    if r != [] {
      assert r == [r[0]] + r[1..];
      PrintedCount(r[1..], e);
    }
  }

  /** Vertical dataset: one row per item. Items from startSE on share their first head words, which
      hold seBits one bits. */
  datatype Vertical = Vertical(rows: seq<seq<Word>>, size: nat, head: nat, startSE: nat, seBits: nat) {
    predicate Valid() {
      && head <= size && size >= 1 && startSE <= |rows|
      && (forall i :: 0 <= i < |rows| ==> |rows[i]| == size)
      && (forall i, w :: startSE <= i < |rows| && 0 <= w < head ==> rows[i][w] == rows[startSE][w])
      && (startSE < |rows| ==> seBits == Bits(rows[startSE], 0, head))
    }

    predicate InSE(i: nat) {
      i >= startSE
    }
  }

  class TidStore {
    const data: Vertical
    const tids: array2<Word>      // one list per level

    constructor (d: Vertical, levels: nat)
      requires d.Valid()
      ensures Valid() && data == d && fresh(tids) && tids.Length0 == levels
    {
      data := d;
      tids := new Word[levels, d.size];
    }

    ghost predicate Valid() {
      data.Valid() && tids.Length1 == data.size
    }

    predicate Stored(p: Ptr) {
      match p
      case Row(i) => i < |data.rows|
      case Slot(l) => l < tids.Length0
    }

    function At(p: Ptr, w: nat): Word
      requires Valid() && Stored(p) && w < data.size
      reads tids
    {
      match p
      case Row(i) => data.rows[i][w]
      case Slot(l) => tids[l, w]
    }

    /** The tid list t is kept at head (words of the section equal) and tail (the others). */
    ghost predicate Holds(head: Ptr, tail: Ptr, t: seq<Word>)
      requires Valid()
      reads tids
    {
      && Stored(head) && Stored(tail) && |t| == data.size
      && (forall w: nat :: w < data.head ==> At(head, w) == t[w])
      && (forall w: nat :: data.head <= w < data.size ==> At(tail, w) == t[w])
    }

    /** What is known of t and the section equal: its leading words that are included there, and
        whether all of them are because t belongs to a set with an item of the section. */
    ghost predicate SeOk(seBytes: nat, incl: bool, t: seq<Word>)
      requires Valid() && |t| == data.size
    {
      data.startSE < |data.rows| ==>
        && Within(t, data.rows[data.startSE], Min(seBytes, data.head))
        && (incl ==> Within(t, data.rows[data.startSE], data.head))
    }

    /** tid_list_inclusion: compare words off+kk .. off+end-1 of a list with those of row j. */
    method Inclusion(p: Ptr, off: nat, j: nat, kk0: nat, end: nat, ghost t: seq<Word>) returns (match_: bool, kk: nat)
      requires Valid() && Stored(p) && j < |data.rows| && off + end <= data.size == |t|
      requires forall w: nat :: off <= w < off + end ==> At(p, w) == t[w]
      requires forall w: nat :: off <= w < off + kk0 && w < data.size ==> t[w] <= data.rows[j][w]
      ensures match_ <==> forall w: nat :: off <= w < off + end ==> t[w] <= data.rows[j][w]
      ensures kk0 >= end ==> match_ && kk == kk0
      ensures kk0 < end ==> kk0 < kk <= end && (match_ ==> kk == end)
      ensures !match_ ==> forall w: nat :: off <= w < off + kk - 1 ==> t[w] <= data.rows[j][w]
      ensures !match_ ==> !(t[off + kk - 1] <= data.rows[j][off + kk - 1])
    {
      match_ := true;
      kk := kk0;
      while match_ && kk < end
        invariant kk0 <= kk && (kk0 < end ==> kk <= end) && (kk0 >= end ==> kk == kk0)
        invariant forall w: nat :: off <= w < off + kk - 1 && w < data.size ==> t[w] <= data.rows[j][w]
        invariant match_ ==> forall w: nat :: off <= w < off + kk && w < data.size ==> t[w] <= data.rows[j][w]
        invariant !match_ ==> kk > kk0 && !(t[off + kk - 1] <= data.rows[j][off + kk - 1])
        decreases end - kk, match_
      {
        match_ := At(p, off + kk) * data.rows[j][off + kk] == At(p, off + kk);
        assert match_ <==> t[off + kk] <= data.rows[j][off + kk];
        kk := kk + 1;
      }
    }

    /** What is known of the section equal after a comparison with row j. */
    ghost predicate SeNext(cs: CloseItemset, j: nat, eq: nat, t: seq<Word>, seBytes: nat)
      requires Valid() && |t| == data.size && j < |data.rows|
    {
      if data.head == 0 || !data.InSE(j) || cs.incl then seBytes == cs.seBytes
      else if !Within(t, data.rows[j], data.head) then FirstMissing(t, data.rows[j], seBytes)
      else seBytes == if Max(cs.seBytes, eq) < data.head then data.head - 1 else Max(cs.seBytes, eq)
    }

    /** The knowledge of the section equal never shrinks, and once a row of the section was compared it is exact, up to
        the one word less that a full comparison leaves. */
    ghost predicate SeAfter(before: nat, seBytes: nat, compared: bool, incl: bool, t: seq<Word>)
      requires Valid() && |t| == data.size
    {
      if !compared || incl || data.head == 0 then seBytes == before
      else before <= seBytes && data.startSE < |data.rows| && SeExact(seBytes, t)
    }

    ghost predicate SeExact(seBytes: nat, t: seq<Word>)
      requires Valid() && |t| == data.size && data.startSE < |data.rows|
    {
      if Within(t, data.rows[data.startSE], data.head) then seBytes >= data.head - 1
      else FirstMissing(t, data.rows[data.startSE], seBytes)
    }

    lemma SeNextAfter(cs: CloseItemset, j: nat, eq: nat, t: seq<Word>, seBytes: nat)
      requires Valid() && |t| == data.size && j < |data.rows| && SeOk(cs.seBytes, cs.incl, t)
      requires SeNext(cs, j, eq, t, seBytes)
      ensures SeAfter(cs.seBytes, seBytes, data.InSE(j), cs.incl, t)
    {
    }

    lemma SeAfterBoth(a: nat, b: nat, c: nat, first: bool, second: bool, incl: bool, t: seq<Word>)
      requires Valid() && |t| == data.size
      requires SeAfter(a, b, first, incl, t) && SeAfter(b, c, second, incl, t)
      ensures SeAfter(a, c, first || second, incl, t)
    {
      hide SeExact;
    }

    /** Check_Inclusion: is the tid list of cs included in row j? eq leading words are known to be;
        newEq is the bound for the list of cs, the exact one if it is not included. seBytes is its new knowledge
        of the section equal: exact if the comparison stopped there, one word less than all after a full one. */
    method CheckInclusion(cs: CloseItemset, j: nat, eq: nat, ghost t: seq<Word>)
      returns (included: bool, newEq: nat, seBytes: nat)
      requires Valid() && Holds(cs.head, cs.tail, t) && SeOk(cs.seBytes, cs.incl, t)
      requires j < |data.rows| && eq <= data.size && Within(t, data.rows[j], eq)
      ensures included <==> Within(t, data.rows[j], data.size)
      ensures if included then newEq == data.size - 1 else eq <= newEq && FirstMissing(t, data.rows[j], newEq)
      ensures SeOk(seBytes, cs.incl, t)
      ensures SeNext(cs, j, eq, t, seBytes)
    {
      hide SeOk, SeNext, Holds;
      var kk;
      included, kk, seBytes := CheckHead(cs, j, eq, t);
      if included {
        included, newEq := CheckTail(cs, j, eq, t);
      } else {
        newEq := kk - 1;
      }
    }

    /** The section equal. */
    method CheckHead(cs: CloseItemset, j: nat, eq: nat, ghost t: seq<Word>)
      returns (ok: bool, kk: nat, seBytes: nat)
      requires Valid() && Holds(cs.head, cs.tail, t) && SeOk(cs.seBytes, cs.incl, t)
      requires j < |data.rows| && eq <= data.size && Within(t, data.rows[j], eq)
      ensures ok <==> Within(t, data.rows[j], data.head)
      ensures !ok ==> eq < kk <= data.head && FirstMissing(t, data.rows[j], kk - 1)
      ensures SeOk(seBytes, cs.incl, t) && SeNext(cs, j, eq, t, seBytes)
    {
      ok, kk, seBytes := true, 0, cs.seBytes;
      if data.head > 0 && data.InSE(j) {
        if !cs.incl {
          kk := if cs.seBytes > eq then cs.seBytes else eq;
          if kk < data.head {
            ok, kk := Inclusion(cs.head, 0, j, kk, data.head, t);
            seBytes := kk - 1;
          } else {
            seBytes := kk;
          }
        }
      } else {
        ok, kk := Inclusion(cs.head, 0, j, eq, data.head, t);
      }
    }

    method CheckTail(cs: CloseItemset, j: nat, eq: nat, ghost t: seq<Word>) returns (ok: bool, newEq: nat)
      requires Valid() && Holds(cs.head, cs.tail, t)
      requires j < |data.rows| && eq <= data.size && Within(t, data.rows[j], eq)
      requires Within(t, data.rows[j], data.head)
      ensures ok <==> Within(t, data.rows[j], data.size)
      ensures if ok then newEq == data.size - 1 else eq <= newEq && FirstMissing(t, data.rows[j], newEq)
    {
      var kk := if eq <= data.head then 0 else eq - data.head;
      ok, kk := Inclusion(cs.tail, data.head, j, kk, data.size - data.head, t);
      newEq := data.head + kk - 1;
    }

    // -------------------------------------------------------------------------------------
    // Intersection
    // -------------------------------------------------------------------------------------

    /** memcpy of words lo..hi-1 of p into list l. */
    method CopyWords(l: nat, p: Ptr, lo: nat, hi: nat)
      requires Valid() && Stored(p) && p != Slot(l) && l < tids.Length0 && hi <= data.size
      modifies tids
      ensures forall w: nat :: lo <= w < hi ==> tids[l, w] == old(At(p, w))
      ensures forall k: nat, w: nat :: k < tids.Length0 && w < data.size && !(k == l && lo <= w < hi) ==>
                tids[k, w] == old(tids[k, w])
    {
      var w := lo;
      while w < hi
        invariant lo <= w && (lo <= hi ==> w <= hi) && (lo > hi ==> w == lo)
        invariant forall v: nat :: lo <= v < w && v < hi ==> tids[l, v] == old(At(p, v))
        invariant forall k: nat, v: nat :: k < tids.Length0 && v < data.size && !(k == l && lo <= v < w) ==>
                    tids[k, v] == old(tids[k, v])
      {
        tids[l, w] := At(p, w);
        w := w + 1;
      }
    }

    /** count_1_bits of words lo..hi-1 of list l. */
    method CountWords(l: nat, lo: nat, hi: nat, ghost t: seq<Word>) returns (c: nat)
      requires Valid() && l < tids.Length0 && lo <= hi <= data.size == |t|
      requires forall w: nat :: lo <= w < hi ==> tids[l, w] == t[w]
      ensures c == Bits(t, lo, hi)
    {
      c := 0;
      var w := lo;
      while w < hi
        invariant lo <= w <= hi && c == Bits(t, lo, w)
      {
        c := c + |tids[l, w]|;
        w := w + 1;
      }
    }

    /** and_tid_list_count_1: words lo..hi-1 of list l become those of p AND row i; count their bits. */
    method AndWords(l: nat, p: Ptr, i: nat, lo: nat, hi: nat, ghost t: seq<Word>) returns (c: nat)
      requires Valid() && Stored(p) && p != Slot(l) && l < tids.Length0 && i < |data.rows| &&
               lo <= hi <= data.size == |t|
      requires forall w: nat :: lo <= w < hi ==> At(p, w) == t[w]
      modifies tids
      ensures forall w: nat :: lo <= w < hi ==> tids[l, w] == And(t, data.rows[i])[w]
      ensures forall k: nat, w: nat :: k < tids.Length0 && w < data.size && !(k == l && lo <= w < hi) ==>
                tids[k, w] == old(tids[k, w])
      ensures c == Bits(And(t, data.rows[i]), lo, hi)
    {
      c := 0;
      var w := lo;
      ghost var r := And(t, data.rows[i]);
      while w < hi
        invariant lo <= w <= hi && c == Bits(r, lo, w)
        invariant forall v: nat :: lo <= v < w ==> tids[l, v] == r[v]
        invariant forall k: nat, v: nat :: k < tids.Length0 && v < data.size && !(k == l && lo <= v < w) ==>
                    tids[k, v] == old(tids[k, v])
      {
        tids[l, w] := At(p, w) * data.rows[i][w];
        c := c + |tids[l, w]|;
        w := w + 1;
      }
    }

    /** List l is where the intersections of one Mine call are built, one after the other. prev is
        the included bound of the post item handled before, t the list of the level's closed set. */
    ghost predicate Reusable(l: nat, cs: CloseItemset, dest: CloseItemset, prev: nat, t: seq<Word>)
      requires Valid() && |t| == data.size && l < tids.Length0
      reads tids
    {
      && cs.head != Slot(l) && cs.tail != Slot(l) && dest.tail == Slot(l)
      && (cs.incl ==> dest.incl)
      && (dest.incl ==> data.startSE < |data.rows|)
      && (!cs.incl ==> dest.head == Slot(l))
      && (!cs.incl && !dest.incl ==> forall w: nat :: w < prev && w < data.head ==> tids[l, w] == t[w])
      && (!cs.incl && dest.incl ==>
            (forall w: nat :: w < data.head ==> tids[l, w] == And(t, data.rows[data.startSE])[w])
            && dest.headBits == Bits(And(t, data.rows[data.startSE]), 0, data.head))
      && (forall w: nat :: data.head <= w < prev && w < data.size ==> tids[l, w] == t[w])
    }

    lemma ReusableFields(l: nat, cs: CloseItemset, dest: CloseItemset, dest': CloseItemset, prev: nat, t: seq<Word>)
      requires Valid() && |t| == data.size && l < tids.Length0 && Reusable(l, cs, dest, prev, t)
      requires dest'.head == dest.head && dest'.tail == dest.tail && dest'.incl == dest.incl &&
               dest'.headBits == dest.headBits
      ensures Reusable(l, cs, dest', prev, t)
    {
    }

    /** The inherited bit counts of cs. */
    ghost predicate CountOk(cs: CloseItemset, t: seq<Word>)
      requires Valid() && |t| == data.size
    {
      && (cs.incl ==> cs.headBits == Bits(t, 0, data.head))
      && (!cs.incl ==>
            && Min(cs.oldMin, data.head) <= Min(cs.min, data.head)
            && cs.bits == Bits(t, 0, Min(cs.oldMin, data.head))
            && (cs.oldMin == cs.min || cs.oldBits == cs.bits))
    }

    /** The inherited counts of cs brought up to date: the one bits of the words that every post item includes. */
    ghost function Recounted(cs: CloseItemset, t: seq<Word>): CloseItemset
      requires Valid() && |t| == data.size
    {
      if Min(cs.min, data.head) == Min(cs.oldMin, data.head) then cs
      else cs.(bits := Bits(t, 0, Min(cs.min, data.head)), oldMin := cs.min)
    }

    lemma RecountedKeeps(cs: CloseItemset, t: seq<Word>)
      requires Valid() && |t| == data.size
      ensures var cs' := Recounted(cs, t); cs' == cs.(bits := cs'.bits, oldMin := cs'.oldMin)
    {
    }

    /** The section equal of Intersect_and_Count. */
    method IntersectHead(l: nat, cs: CloseItemset, dest: CloseItemset, id: nat, inc: nat, prev: nat, ghost t: seq<Word>)
      returns (cs': CloseItemset, dest': CloseItemset)
      requires Valid() && l < tids.Length0 && Holds(cs.head, cs.tail, t) && id < |data.rows| && inc <= data.size &&
               prev <= data.size
      requires SeOk(cs.seBytes, cs.incl, t) && CountOk(cs, t) && Reusable(l, cs, dest, prev, t)
      requires Within(t, data.rows[id], inc) && (dest.incl ==> data.InSE(id)) && cs.min <= inc
      modifies tids
      ensures cs' == (if dest.incl then cs else Recounted(cs, t)) && CountOk(cs', t)
      ensures !dest.incl ==> cs'.bits == Bits(t, 0, Min(cs.min, data.head))
      ensures dest' == dest.(head := dest'.head, headBits := dest'.headBits)
      ensures dest'.headBits == Bits(And(t, data.rows[id]), 0, data.head)
      ensures Stored(dest'.head) && dest'.head == if cs.incl then cs.head else Slot(l)
      ensures forall w: nat :: w < data.head ==> At(dest'.head, w) == And(t, data.rows[id])[w]
      ensures !dest.incl ==> forall w: nat :: w < inc && w < data.head ==> tids[l, w] == t[w]
      ensures forall k: nat, w: nat :: k < tids.Length0 && w < data.size && !(k == l && w < data.head) ==>
                tids[k, w] == old(tids[k, w])
    {
      cs', dest' := cs, dest;
      ghost var r := And(t, data.rows[id]);
      if !cs.incl && dest.incl && data.InSE(id) {
        // this level has met the section equal already: its words are in place
        SameHead(t, id);
      } else if cs.incl && data.InSE(id) {
        // the list is included in the section equal: share the words of the level below
        dest' := dest.(headBits := cs.headBits, head := cs.head);
        SharedHead(cs, t, id);
      } else {
        cs', dest' := IntersectNewHead(l, cs, dest, id, inc, prev, t);
      }
    }

    lemma SameHead(t: seq<Word>, id: nat)
      requires Valid() && |t| == data.size && data.startSE <= id < |data.rows|
      ensures forall w: nat :: w < data.head ==> And(t, data.rows[id])[w] == And(t, data.rows[data.startSE])[w]
      ensures Bits(And(t, data.rows[id]), 0, data.head) == Bits(And(t, data.rows[data.startSE]), 0, data.head)
    {
      BitsSame(And(t, data.rows[id]), And(t, data.rows[data.startSE]), 0, data.head);
    }

    lemma SharedHead(cs: CloseItemset, t: seq<Word>, id: nat)
      requires Valid() && |t| == data.size && data.startSE <= id < |data.rows|
      requires cs.incl && SeOk(cs.seBytes, cs.incl, t)
      ensures forall w: nat :: w < data.head ==> And(t, data.rows[id])[w] == t[w]
      ensures Bits(And(t, data.rows[id]), 0, data.head) == Bits(t, 0, data.head)
    {
      BitsSame(And(t, data.rows[id]), t, 0, data.head);
    }

    /** The branch that computes: copy what is known to be included, count it with the help of the
        inherited counts, intersect the rest. */
    method IntersectNewHead(l: nat, cs: CloseItemset, dest: CloseItemset, id: nat, inc: nat, prev: nat,
                            ghost t: seq<Word>)
      returns (cs': CloseItemset, dest': CloseItemset)
      requires Valid() && l < tids.Length0 && Holds(cs.head, cs.tail, t) && id < |data.rows| && inc <= data.size
      requires CountOk(cs, t) && Reusable(l, cs, dest, prev, t) && !cs.incl && !dest.incl
      requires Within(t, data.rows[id], inc) && cs.min <= inc
      modifies tids
      ensures cs' == Recounted(cs, t) && CountOk(cs', t) && cs'.bits == Bits(t, 0, Min(cs.min, data.head))
      ensures dest' == dest.(headBits := Bits(And(t, data.rows[id]), 0, data.head))
      ensures forall w: nat :: w < data.head ==> tids[l, w] == And(t, data.rows[id])[w]
      ensures forall w: nat :: w < inc && w < data.head ==> tids[l, w] == t[w]
      ensures forall k: nat, w: nat :: k < tids.Length0 && w < data.size && !(k == l && w < data.head) ==>
                tids[k, w] == old(tids[k, w])
    {
      var max := Min(inc, data.head);
      CopyWords(l, cs.head, prev, max);
      assert forall w: nat :: w < max ==> tids[l, w] == t[w];
      var copied;
      cs', copied := CopiedBits(l, cs, max, t);
      var rest := AndWords(l, cs.head, id, max, data.head, t);
      ghost var r := And(t, data.rows[id]);
      BitsSame(t, r, 0, max);
      BitsSplit(r, 0, max, data.head);
      dest' := dest.(headBits := copied + rest);
    }

    /** The one bits of the words that were copied, computed with the counts inherited from the
        level below, which are brought up to date. */
    method CopiedBits(l: nat, cs: CloseItemset, max: nat, ghost t: seq<Word>) returns (cs': CloseItemset, c: nat)
      requires Valid() && l < tids.Length0 && |t| == data.size && CountOk(cs, t) && !cs.incl
      requires Min(cs.min, data.head) <= max <= data.head
      requires forall w: nat :: w < max ==> tids[l, w] == t[w]
      ensures cs' == Recounted(cs, t) && CountOk(cs', t) && cs'.bits == Bits(t, 0, Min(cs.min, data.head))
      ensures c == Bits(t, 0, max)
    {
      var newInc, oldInc := Min(cs.min, data.head), Min(cs.oldMin, data.head);
      cs' := cs;
      if newInc != oldInc {
        var k := CountWords(l, oldInc, newInc, t);
        BitsSplit(t, 0, oldInc, newInc);
        cs' := cs.(bits := cs.oldBits + k, oldMin := cs.min);
      }
      var k := CountWords(l, newInc, max, t);
      BitsSplit(t, 0, newInc, max);
      c := cs'.bits + k;
    }

    /** The words behind the section equal; returns the whole support. */
    method IntersectTail(l: nat, cs: CloseItemset, headBits: nat, id: nat, inc: nat, prev: nat, ghost t: seq<Word>)
      returns (count: nat)
      requires Valid() && l < tids.Length0 && id < |data.rows| && inc <= data.size && prev <= data.size == |t|
      requires Stored(cs.tail) && cs.tail != Slot(l)
      requires forall w: nat :: data.head <= w < data.size ==> At(cs.tail, w) == t[w]
      requires forall w: nat :: data.head <= w < prev ==> tids[l, w] == t[w]
      requires Within(t, data.rows[id], inc)
      modifies tids
      ensures forall w: nat :: data.head <= w < data.size ==> tids[l, w] == And(t, data.rows[id])[w]
      ensures forall w: nat :: data.head <= w < inc ==> tids[l, w] == t[w]
      ensures forall k: nat, w: nat :: k < tids.Length0 && w < data.size && !(k == l && data.head <= w) ==>
                tids[k, w] == old(tids[k, w])
      ensures count == headBits + Bits(And(t, data.rows[id]), data.head, data.size)
    {
      var max := if inc > data.head then inc else data.head;
      var start := if prev > data.head then prev else data.head;
      CopyWords(l, cs.tail, start, max);
      ghost var r := And(t, data.rows[id]);
      var c0 := CountWords(l, data.head, max, t);
      BitsSame(t, r, data.head, max);
      var c1 := AndWords(l, cs.tail, id, max, data.size, t);
      BitsSplit(r, data.head, max, data.size);
      count := headBits + c0 + c1;
    }

    /** Intersect_and_Count: dest becomes cs extended by the post item id; prev is the included bound
        of the post item handled before in this level (0 for the first). */
    method IntersectAndCount(l: nat, cs: CloseItemset, dest: CloseItemset, id: nat, inc: nat, prev: nat,
                             ghost t: seq<Word>)
      returns (cs': CloseItemset, dest': CloseItemset)
      requires Valid() && l < tids.Length0 && Holds(cs.head, cs.tail, t) && id < |data.rows| && inc <= data.size &&
               prev <= data.size
      requires SeOk(cs.seBytes, cs.incl, t) && CountOk(cs, t) && Reusable(l, cs, dest, prev, t)
      requires Within(t, data.rows[id], inc) && (dest.incl ==> data.InSE(id)) && cs.min <= inc
      modifies tids
      ensures cs' == (if dest.incl then cs else Recounted(cs, t)) && CountOk(cs', t)
      ensures !dest'.incl ==> cs'.bits == Bits(t, 0, Min(cs.min, data.head))
      ensures dest' == dest.(head := if cs.incl then cs.head else Slot(l), headBits := dest'.headBits,
                             count := dest'.count, incl := dest'.incl)
      ensures dest'.incl == (dest.incl || data.InSE(id))
      ensures Holds(dest'.head, dest'.tail, And(t, data.rows[id])) && Holds(cs.head, cs.tail, t)
      ensures dest'.count == Bits(And(t, data.rows[id]), 0, data.size)
      ensures dest'.headBits == Bits(And(t, data.rows[id]), 0, data.head)
      ensures Reusable(l, cs', dest', inc, t)
      ensures forall k: nat, w: nat :: k < tids.Length0 && k != l && w < data.size ==> tids[k, w] == old(tids[k, w])
    {
      hide Recounted, SeOk, CountOk;
      RecountedKeeps(cs, t);
      cs', dest' := IntersectHead(l, cs, dest, id, inc, prev, t);
      label H:
      ghost var r := And(t, data.rows[id]);
      var count := IntersectTail(l, cs', dest'.headBits, id, inc, prev, t);
      assert forall w: nat :: w < data.head ==> At(dest'.head, w) == old@H(At(dest'.head, w));
      assert Holds(dest'.head, dest'.tail, r);
      assert forall w: nat :: w < data.head ==> At(cs.head, w) == old(At(cs.head, w));
      assert forall w: nat :: data.head <= w < data.size ==> At(cs.tail, w) == old(At(cs.tail, w));
      BitsSplit(r, 0, data.head, data.size);
      assert Holds(cs.head, cs.tail, t);
      dest' := dest'.(count := count, incl := dest'.incl || data.InSE(id));
      ReusableNext(l, cs', dest', id, inc, t);
      hide Reusable, Holds;
    }

    /** The list just built serves for the next post item. */
    lemma ReusableNext(l: nat, cs: CloseItemset, dest: CloseItemset, id: nat, inc: nat, t: seq<Word>)
      requires Valid() && |t| == data.size && l < tids.Length0 && id < |data.rows|
      requires cs.head != Slot(l) && cs.tail != Slot(l) && dest.tail == Slot(l)
      requires (cs.incl ==> dest.incl) && (!cs.incl ==> dest.head == Slot(l)) && (dest.incl ==> data.InSE(id))
      requires Stored(dest.head) && forall w: nat :: w < data.head ==> At(dest.head, w) == And(t, data.rows[id])[w]
      requires dest.headBits == Bits(And(t, data.rows[id]), 0, data.head)
      requires !dest.incl ==> forall w: nat :: w < inc && w < data.head ==> tids[l, w] == t[w]
      requires forall w: nat :: data.head <= w < inc && w < data.size ==> tids[l, w] == t[w]
      ensures Reusable(l, cs, dest, inc, t)
    {
      if dest.incl { SameHead(t, id); }
    }
  }

  // ---------------------------------------------------------------------------------------
  // The levels
  // ---------------------------------------------------------------------------------------

  /** The LEVEL_* entries of one level. */
  datatype Level = Level(closed: CloseItemset, ub: nat, preLen: nat, preOff: nat, postOff: nat)

  /** The contents of a level, as values: the set mined there, its pre- and post-list, and the
      known inclusion bounds. base is the level of the job it belongs to. */
  datatype Content = Content(base: nat, items: seq<nat>, pre: seq<nat>, preInc: seq<nat>, posts: seq<PostItem>) {
    function X(): set<nat> {
      Elems(items)
    }
  }

  function Ids(posts: seq<PostItem>): (r: seq<nat>)
    ensures |r| == |posts| && forall k :: 0 <= k < |r| ==> r[k] == posts[k].id
  {
    seq(|posts|, k requires 0 <= k < |posts| => posts[k].id)
  }

  predicate Ascending(posts: seq<PostItem>) {
    forall a, b :: 0 <= a < b < |posts| ==> posts[a].id < posts[b].id
  }

  lemma TwoItems(x: set<nat>, a: nat, b: nat)
    requires a in x && b in x && a != b
    ensures |x| > 1
  {
    SubsetCard({a, b}, x);
  }

  /** A generator that leaves fewer items than there were has absorbed another one. */
  lemma SecondItem(db: Database, x: set<nat>, ids: seq<nat>, i: nat)
    requires i < |ids| && NoRepeat(ids) && |Left(db, x, ids, i)| < |ids| - i - 1
    ensures |Produced(db, x, ids, i)| > 1
  {
    hide Tids;
    var q := SomeAbsorbed(db, Tids(db, x + {ids[i]}), ids[i + 1..]);
    assert q in ids[i + 1..];
    TwoItems(Produced(db, x, ids, i), ids[i], q);
  }

  /** If fewer items are left than there were, some item was absorbed. */
  lemma {:induction false} SomeAbsorbed(db: Database, tids: set<nat>, post: seq<nat>) returns (q: nat)
    requires |Remaining(db, tids, post)| < |post|
    ensures q in Absorbed(db, tids, post)
  {
    hide Tids;
    if tids <= Tids(db, {post[0]}) {
      q := post[0];
    } else {
      q := SomeAbsorbed(db, tids, post[1..]);
    }
  }

  class Worker {
    const store: TidStore
    const n: nat
    const min: nat
    ghost const db: Database

    // preallocated buffers
    const closure: array<nat>
    const preList: array<nat>
    const preIncl: array<nat>
    const post: array<PostItem>
    const levels: array<Level>

    var out: seq<Event>

    ghost predicate Valid() {
      && store.Valid()
      && n == |store.data.rows|
      && (forall t :: 0 <= t < |db| ==> t / WORD_BITS < store.data.size)
      && (forall i: nat :: i < n ==> store.data.rows[i] == T({i}))
      && closure.Length == n && preList.Length == n && preIncl.Length == n * n
      && post.Length == Tri(n + 1)
      && levels.Length == n + 3
      && store.tids.Length0 == n + 1
      && closure != preList && closure != preIncl && preList != preIncl
    }

    /** allocate_memory, for a dataset whose rows are the tid lists of the items of a database. */
    constructor (data: Vertical, minCount: nat, ghost transactions: Database)
      requires data.Valid()
      requires forall t :: 0 <= t < |transactions| ==> t / WORD_BITS < data.size
      requires forall i: nat :: i < |data.rows| ==> data.rows[i] == Words(Tids(transactions, {i}), data.size)
      ensures Valid() && db == transactions && min == minCount && store.data == data && out == []
      ensures fresh(store.tids) && fresh(closure) && fresh(preList) && fresh(preIncl) && fresh(post) && fresh(levels)
    {
      var items := |data.rows|;
      TriIs(items + 1);
      assert (items + 1) * items == items * (items + 1);
      store := new TidStore(data, items + 1);
      n, min, db, out := items, minCount, transactions, [];
      closure, preList, preIncl := new nat[items], new nat[items], new nat[items * items];
      post := new PostItem[items * (items + 1) / 2];
      levels := new Level[items + 3];
    }

    lemma Apart()
      requires Valid()
      ensures closure != preList && closure != preIncl && preList != preIncl
      ensures store.Valid() && store.tids.Length1 == store.data.size
    {
    }

    /** The tid list of an item set; that of the empty set is all ones, those behind the last
        transaction included. */
    ghost function T(x: set<nat>): (t: seq<Word>)
      ensures |t| == store.data.size
    {
      if x == {} then Full(store.data.size) else Words(Tids(db, x), store.data.size)
    }

    lemma TidsFit(x: set<nat>)
      requires Valid()
      ensures Fits(Tids(db, x), store.data.size)
    {
    }

    /** Word-level facts mean what they should about sets. */
    lemma WordsMean(x: set<nat>, q: nat)
      requires Valid() && q < n && x != {}
      ensures Within(T(x), store.data.rows[q], store.data.size) <==> Tids(db, x) <= Tids(db, {q})
      ensures Bits(T(x), 0, store.data.size) == |Tids(db, x)|
    {
      TidsFit(x);
      WithinIsSubset(Tids(db, x), Tids(db, {q}), store.data.size);
      CountIsCard(Tids(db, x), store.data.size);
    }

    lemma WordsExtend(x: set<nat>, q: nat)
      requires Valid() && q < n
      ensures And(T(x), store.data.rows[q]) == T(x + {q})
    {
      if x == {} {
        assert x + {q} == {q};
        FullAnd(Tids(db, {q}), store.data.size);
      } else {
        AndIsIntersection(Tids(db, x), Tids(db, {q}), store.data.size);
        TidsUnion(db, x, {q});
      }
    }

    /** The cached knowledge of a level is true. */
    ghost predicate Sound(cs: CloseItemset, c: Content)
      requires Valid()
    {
      && store.SeOk(cs.seBytes, cs.incl, T(c.X())) && store.CountOk(cs, T(c.X()))
      && (cs.incl ==> store.data.startSE < n)
      && Ascending(c.posts)
      && (forall k :: 0 <= k < |c.posts| ==> PostOk(cs, c.X(), c.posts[k]) && c.posts[k].id !in c.items)
      && PreOks(c.X(), c.pre, c.preInc)
    }

    ghost predicate PostOk(cs: CloseItemset, x: set<nat>, p: PostItem)
      requires Valid()
    {
      && p.id < n && p.included <= store.data.size && cs.min <= p.included
      && (cs.incl ==> store.data.InSE(p.id))
      && Within(T(x), store.data.rows[p.id], p.included)
    }

    ghost predicate PreOk(x: set<nat>, q: nat, inc: nat)
      requires Valid()
    {
      q < n && inc <= store.data.size && Within(T(x), store.data.rows[q], inc)
    }

    /** Entries of the pre-list buffers: items and, at off, their bounds. */
    ghost predicate PreAt(pre: seq<nat>)
      reads preList
    {
      |pre| <= preList.Length && forall k: nat :: k < |pre| ==> preList[k] == pre[k]
    }

    ghost predicate BoundsAt(off: nat, inc: seq<nat>)
      reads preIncl
    {
      off + |inc| <= preIncl.Length && forall k: nat :: k < |inc| ==> preIncl[off + k] == inc[k]
    }

    ghost predicate PreOks(x: set<nat>, pre: seq<nat>, inc: seq<nat>)
      requires Valid()
    {
      |inc| == |pre| && forall k: nat :: k < |pre| ==> PreOk(x, pre[k], inc[k])
    }

    /** The bound is the exact number of leading words of the tid list that row q includes. */
    ghost predicate Exact(x: set<nat>, q: nat, inc: nat)
      requires Valid()
    {
      q < n && FirstMissing(T(x), store.data.rows[q], inc)
    }

    ghost predicate PreExact(x: set<nat>, pre: seq<nat>, inc: seq<nat>)
      requires Valid()
    {
      |inc| == |pre| && forall k: nat :: k < |pre| ==> Exact(x, pre[k], inc[k])
    }

    /** All bounds of a post list are exact, and m is the smallest of them; all words without any. */
    ghost predicate PostExact(x: set<nat>, m: nat, posts: seq<PostItem>)
      requires Valid()
    {
      && (forall k :: 0 <= k < |posts| ==> Exact(x, posts[k].id, posts[k].included) && m <= posts[k].included)
      && if posts == [] then m == store.data.size else exists k :: 0 <= k < |posts| && posts[k].included == m
    }

    lemma PostExactSnoc(x: set<nat>, m: nat, posts: seq<PostItem>, p: PostItem)
      requires Valid() && PostExact(x, m, posts) && Exact(x, p.id, p.included)
      ensures PostExact(x, Min(m, p.included), posts + [p])
    {
      var next := posts + [p];
      assert p.included < store.data.size;
      hide Exact, T;
      if p.included > m {
        var k :| 0 <= k < |posts| && posts[k].included == m;
        assert next[k].included == m;
      } else {
        assert next[|posts|].included == p.included;
      }
    }

    /** One of the items has a row of the section equal. */
    ghost predicate AnySE(items: seq<nat>) {
      exists k :: 0 <= k < |items| && store.data.InSE(items[k])
    }

    lemma AnySECons(items: seq<nat>, k: nat)
      requires k < |items|
      ensures AnySE(items[k..]) <==> AnySE(items[k + 1..]) || store.data.InSE(items[k])
    {
      var a, b := items[k..], items[k + 1..];
      if l :| 0 <= l < |a| && store.data.InSE(a[l]) {
        if l > 0 { assert b[l - 1] == a[l]; }
      }
      if l :| 0 <= l < |b| && store.data.InSE(b[l]) { assert a[l + 1] == b[l]; }
      assert a[0] == items[k];
    }

    lemma AnySESnoc(items: seq<nat>, lo: nat, k: nat)
      requires lo <= k < |items|
      ensures AnySE(items[lo..k + 1]) <==> AnySE(items[lo..k]) || store.data.InSE(items[k])
    {
      var a, b := items[lo..k + 1], items[lo..k];
      if l :| 0 <= l < |a| && store.data.InSE(a[l]) {
        if l < k - lo { assert b[l] == a[l]; }
      }
      if l :| 0 <= l < |b| && store.data.InSE(b[l]) { assert a[l] == b[l]; }
      assert a[k - lo] == items[k];
    }

    /** Check_Inclusion on a pre item, in terms of sets. */
    method CheckPre(nc: CloseItemset, q: nat, eq: nat, ghost gen: set<nat>)
      returns (included: bool, newEq: nat, seBytes: nat)
      requires Valid() && gen != {} && store.Holds(nc.head, nc.tail, T(gen)) &&
               store.SeOk(nc.seBytes, nc.incl, T(gen)) && PreOk(gen, q, eq)
      ensures included <==> Tids(db, gen) <= Tids(db, {q})
      ensures !included ==> PreOk(gen, q, newEq) && Exact(gen, q, newEq)
      ensures store.SeOk(seBytes, nc.incl, T(gen))
      ensures store.SeAfter(nc.seBytes, seBytes, store.data.InSE(q), nc.incl, T(gen))
    {
      WordsMean(gen, q);
      included, newEq, seBytes := store.CheckInclusion(nc, q, eq, T(gen));
      store.SeNextAfter(nc, q, eq, T(gen), seBytes);
    }

    /** The pre-list test of Mine, from the top of the list downwards. The bounds for the new closed
        set go to the region at newOff. */
    method IsDuplicate(nc: CloseItemset, len: nat, off: nat, newOff: nat, ghost gen: set<nat>, ghost pre: seq<nat>,
                       ghost inc: seq<nat>)
      returns (dup: bool, seBytes: nat, ghost newInc: seq<nat>)
      requires Valid() && gen != {} && store.Holds(nc.head, nc.tail, T(gen)) && store.SeOk(nc.seBytes, nc.incl, T(gen))
      requires len == |pre| && PreAt(pre) && BoundsAt(off, inc) && PreOks(gen, pre, inc)
      requires off + len <= newOff && newOff + len <= preIncl.Length
      modifies preIncl
      ensures dup <==> Subsumed(db, Tids(db, gen), Elems(pre))
      ensures !dup ==> PreOks(gen, pre, newInc) && BoundsAt(newOff, newInc) && PreExact(gen, pre, newInc)
      ensures BoundsAt(off, inc)
      ensures forall k :: 0 <= k < newOff ==> preIncl[k] == old(preIncl[k])
      ensures store.SeOk(seBytes, nc.incl, T(gen))
      ensures !dup ==> store.SeAfter(nc.seBytes, seBytes, AnySE(pre), nc.incl, T(gen))
    {
      hide TidStore.Holds, TidStore.SeOk, TidStore.SeAfter, PreOk, Tids, T, Exact, AnySE;
      var k := len;
      dup := false;
      seBytes := nc.seBytes;
      SeUntouched(nc, T(gen));
      assert pre[len..] == [];
      while k > 0 && !dup
        invariant 0 <= k <= len
        invariant dup ==> k < len && Tids(db, gen) <= Tids(db, {pre[k]})
        invariant !dup ==> forall j: nat :: k <= j < len ==>
                    && !(Tids(db, gen) <= Tids(db, {pre[j]})) && PreOk(gen, pre[j], preIncl[newOff + j])
                    && Exact(gen, pre[j], preIncl[newOff + j])
        invariant BoundsAt(off, inc)
        invariant forall j :: 0 <= j < newOff ==> preIncl[j] == old(preIncl[j])
        invariant store.SeOk(seBytes, nc.incl, T(gen))
        invariant store.SeAfter(nc.seBytes, seBytes, AnySE(pre[k..]), nc.incl, T(gen))
      {
        k := k - 1;
        var newEq;
        ghost var before := seBytes;
        dup, newEq, seBytes := CheckPre(nc.(seBytes := seBytes), preList[k], preIncl[off + k], gen);
        AnySECons(pre, k);
        store.SeAfterBoth(nc.seBytes, before, seBytes, AnySE(pre[k + 1..]), store.data.InSE(pre[k]), nc.incl, T(gen));
        preIncl[newOff + k] := newEq;
      }
      assert pre[0..] == pre;
      newInc := preIncl[newOff..newOff + len];
    }

    lemma SeUntouched(nc: CloseItemset, t: seq<Word>)
      requires Valid() && |t| == store.data.size
      ensures store.SeAfter(nc.seBytes, nc.seBytes, AnySE([]), nc.incl, t)
    {
    }

    /** A post item of the closed set being built: a bound for its tid list that is no smaller than
        the one it had before, and not below the minimum kept in the closed set. */
    ghost predicate NewPostOk(gen: set<nat>, m: nat, floor: nat, p: PostItem)
      requires Valid()
    {
      p.id < n && m <= p.included <= store.data.size && floor <= p.included &&
          Within(T(gen), store.data.rows[p.id], p.included)
    }

    /** The bounds of the post list being built for gen: m is their minimum, last the item of this
        level's list handled last. */
    ghost predicate NewPosts(gen: set<nat>, last: nat, floor: nat, m: nat, np: seq<PostItem>)
      requires Valid()
    {
      && floor <= m <= store.data.size
      && Ascending(np)
      && forall k :: 0 <= k < |np| ==> NewPostOk(gen, m, floor, np[k]) && np[k].id <= last
    }

    lemma NewPostsLater(gen: set<nat>, last: nat, last': nat, floor: nat, m: nat, np: seq<PostItem>)
      requires Valid() && NewPosts(gen, last, floor, m, np) && last <= last'
      ensures NewPosts(gen, last', floor, m, np)
    {
      hide NewPostOk;
    }

    lemma NewPostsSnoc(gen: set<nat>, last: nat, floor: nat, m: nat, np: seq<PostItem>, p: PostItem)
      requires Valid() && NewPosts(gen, last, floor, m, np) && NewPostOk(gen, 0, floor, p) && last < p.id
      ensures NewPosts(gen, p.id, floor, Min(m, p.included), np + [p])
    {
      hide Within, T;
    }

    /** Entries off.. of the post buffer are the list posts. */
    ghost predicate PostAt(off: nat, posts: seq<PostItem>)
      reads post
    {
      off + |posts| <= post.Length && forall k: nat :: k < |posts| ==> post[off + k] == posts[k]
    }

    /** The closure buffer starts with xs. */
    ghost predicate ClosureIs(xs: seq<nat>)
      reads closure
    {
      |xs| <= closure.Length && forall k: nat :: k < |xs| ==> closure[k] == xs[k]
    }

    /** The closure loop before post item j. */
    ghost predicate Closing(nc: CloseItemset, i: nat, j: nat, off: nat, floor: nat, gen: set<nat>, items: seq<nat>,
                            posts: seq<PostItem>, xs: seq<nat>, np: seq<PostItem>)
      requires Valid()
      reads closure, post, store.tids
    {
      && store.Holds(nc.head, nc.tail, T(gen)) && store.SeOk(nc.seBytes, nc.incl, T(gen))
      && i < j <= |posts| && gen != {}
      && off + |posts| + (|posts| - i - 1) <= post.Length && |items| + (|posts| - i - 1) <= n
      && (forall k :: i < k < |posts| ==> NewPostOk(gen, 0, floor, posts[k]))
      && PostAt(off, posts) && Ascending(posts)
      && NewPosts(gen, posts[j - 1].id, floor, nc.min, np) && PostAt(off + |posts|, np)
      && PostExact(gen, nc.min, np)
      && ClosingSets(db, gen, Ids(posts), i, j, xs, Ids(np))
      && nc.lung == |xs| && |xs| + |np| == |items| + (j - i - 1) && items <= xs && ClosureIs(xs)
    }

    /** The closure loop of Mine: later post items whose row includes the new tid list join the
        closed set, the others form the post list of the next level, behind this level's. */
    method Close(nc: CloseItemset, i: nat, off: nat, len: nat,
                 ghost gen: set<nat>, ghost items: seq<nat>, ghost posts: seq<PostItem>, ghost floor: nat)
      returns (nc': CloseItemset, count: nat, ghost xs: seq<nat>, ghost np: seq<PostItem>)
      requires Valid() && i < len == |posts| && off + len <= post.Length
      requires Closing(nc.(min := store.data.size), i, i + 1, off, floor, gen, items, posts, items, [])
      modifies closure, post
      ensures nc' == nc.(lung := nc'.lung, seBytes := nc'.seBytes, min := nc'.min)
      ensures count == |np| && Closing(nc', i, len, off, floor, gen, items, posts, xs, np)
      ensures store.SeAfter(nc.seBytes, nc'.seBytes, AnySE(Ids(posts)[i + 1..]), nc.incl, T(gen))
      ensures forall k :: 0 <= k < off + len ==> post[k] == old(post[k])
    {
      hide Closing, AnySE, TidStore.SeAfter, TidStore.Valid;
      SeUntouched(nc, T(gen));
      assert Ids(posts)[i + 1..i + 1] == [];
      nc', count, np, xs := nc.(min := store.data.size), 0, [], items;
      var j := i + 1;
      while j < len
        invariant i < j <= len && count == |np|
        invariant nc' == nc.(lung := nc'.lung, seBytes := nc'.seBytes, min := nc'.min)
        invariant Closing(nc', i, j, off, floor, gen, items, posts, xs, np)
        invariant store.SeAfter(nc.seBytes, nc'.seBytes, AnySE(Ids(posts)[i + 1..j]), nc.incl, T(gen))
        invariant forall k :: 0 <= k < off + len ==> post[k] == old(post[k])
      {
        ghost var before := nc'.seBytes;
        nc', count, xs, np := CloseStep(nc', i, j, off, len, count, gen, items, posts, floor, xs, np);
        AnySESnoc(Ids(posts), i + 1, j);
        store.SeAfterBoth(nc.seBytes, before, nc'.seBytes, AnySE(Ids(posts)[i + 1..j]),
                          store.data.InSE(posts[j].id), nc.incl, T(gen));
        j := j + 1;
      }
      assert Ids(posts)[i + 1..len] == Ids(posts)[i + 1..];
    }

    method CloseStep(nc: CloseItemset, ghost i: nat, j: nat, off: nat, len: nat, count: nat, ghost gen: set<nat>,
                     ghost items: seq<nat>,
                     ghost posts: seq<PostItem>, ghost floor: nat, ghost xs: seq<nat>, ghost np: seq<PostItem>)
      returns (nc': CloseItemset, count': nat, ghost xs': seq<nat>, ghost np': seq<PostItem>)
      requires Valid() && j < len == |posts| && count == |np|
      requires Closing(nc, i, j, off, floor, gen, items, posts, xs, np)
      modifies closure, post
      ensures nc' == nc.(lung := nc'.lung, seBytes := nc'.seBytes, min := nc'.min)
      ensures count' == |np'| && Closing(nc', i, j + 1, off, floor, gen, items, posts, xs', np')
      ensures store.SeAfter(nc.seBytes, nc'.seBytes, store.data.InSE(posts[j].id), nc.incl, T(gen))
      ensures forall k :: 0 <= k < off + len ==> post[k] == old(post[k])
    {
      hide NewPosts, ClosingSets, TidStore.SeOk, TidStore.SeAfter, TidStore.Holds, T, Elems, Within, Tids, Exact,
          PostExact;
      var p := post[off + j];
      assert p == posts[j];
      var included, newEq, seBytes := Decide(nc, p, gen, floor);
      nc', count', xs', np' := nc.(seBytes := seBytes), count, xs, np;
      ClosingSetsStep(db, gen, Ids(posts), i, j, xs, Ids(np));
      if included {
        NewPostsLater(gen, posts[j - 1].id, p.id, floor, nc.min, np);
        xs' := AddToClosure(nc.lung, p.id, xs);
        nc' := nc'.(lung := nc.lung + 1);
      } else {
        NewPostsSnoc(gen, posts[j - 1].id, floor, nc.min, np, PostItem(p.id, newEq));
        PostExactSnoc(gen, nc.min, np, PostItem(p.id, newEq));
        np' := AddToPost(off + len, count, PostItem(p.id, newEq), np);
        count' := count + 1;
        if nc.min > newEq {
          nc' := nc'.(min := newEq);
        }
      }
    }

    method AddToClosure(lung: nat, id: nat, ghost xs: seq<nat>) returns (ghost xs': seq<nat>)
      requires lung == |xs| < closure.Length && ClosureIs(xs)
      modifies closure
      ensures xs' == xs + [id] && ClosureIs(xs')
    {
      closure[lung] := id;
      xs' := xs + [id];
    }

    method AddToPost(off: nat, count: nat, p: PostItem, ghost np: seq<PostItem>) returns (ghost np': seq<PostItem>)
      requires count == |np| && off + count < post.Length && PostAt(off, np)
      modifies post
      ensures np' == np + [p] && PostAt(off, np') && Ids(np') == Ids(np) + [p.id]
      ensures forall k :: 0 <= k < off ==> post[k] == old(post[k])
    {
      post[off + count] := p;
      np' := np + [p];
    }

    /** Check_Inclusion on a post item, in terms of sets. */
    method Decide(nc: CloseItemset, p: PostItem, ghost gen: set<nat>, ghost floor: nat)
      returns (included: bool, newEq: nat, seBytes: nat)
      requires Valid() && gen != {} && NewPostOk(gen, 0, floor, p)
      requires store.Holds(nc.head, nc.tail, T(gen)) && store.SeOk(nc.seBytes, nc.incl, T(gen))
      ensures included <==> Tids(db, gen) <= Tids(db, {p.id})
      ensures !included ==> NewPostOk(gen, 0, floor, PostItem(p.id, newEq)) && Exact(gen, p.id, newEq)
      ensures store.SeOk(seBytes, nc.incl, T(gen))
      ensures store.SeAfter(nc.seBytes, seBytes, store.data.InSE(p.id), nc.incl, T(gen))
    {
      WordsMean(gen, p.id);
      included, newEq, seBytes := store.CheckInclusion(nc, p.id, p.included, T(gen));
      store.SeNextAfter(nc, p.id, p.included, T(gen), seBytes);
    }

    // -------------------------------------------------------------------------------------
    // One generator
    // -------------------------------------------------------------------------------------

    predicate Below(p: Ptr, level: nat) {
      p.Slot? ==> p.level < level
    }

    /** The buffers hold the content of a level: h are its offsets, cs its closed set. */
    ghost predicate Buffers(level: nat, h: Level, cs: CloseItemset, c: Content)
      requires Valid()
      reads closure, preList, preIncl, post, store.tids
    {
      && cs.lung == |c.items| && ClosureIs(c.items)
      && h.preLen == |c.pre| && PreAt(c.pre) && BoundsAt(h.preOff, c.preInc)
      && PostAt(h.postOff, c.posts)
      && store.Holds(cs.head, cs.tail, T(c.X()))
      && Below(cs.head, level) && Below(cs.tail, level)
    }

    /** The included bound of the post item before the i-th. */
    function Prev(posts: seq<PostItem>, i: nat): nat
      requires i <= |posts|
    {
      if i == 0 then 0 else posts[i - 1].included
    }

    /** The caches of the closed set under construction, for its tid list t. */
    ghost predicate NewCaches(nc: CloseItemset, m: nat, t: seq<Word>)
      requires Valid() && |t| == store.data.size
    {
      && (nc.incl ==> nc.headBits == Bits(t, 0, store.data.head) && store.data.startSE < n)
      && nc.oldMin == m && nc.oldBits == nc.bits
      && (!nc.incl ==> nc.bits == Bits(t, 0, Min(m, store.data.head)))
    }

    lemma ExtendedSe(seBytes: nat, incl: bool, t: seq<Word>, p: nat)
      requires Valid() && |t| == store.data.size && p < n && store.SeOk(seBytes, incl, t)
      ensures store.SeOk(seBytes, store.data.InSE(p), And(t, store.data.rows[p]))
    {
    }

    lemma ExtendedCount(t: seq<Word>, p: nat, m: nat)
      requires Valid() && |t| == store.data.size && p < n && m <= store.data.size && Within(t, store.data.rows[p], m)
      ensures Bits(And(t, store.data.rows[p]), 0, m) == Bits(t, 0, m)
    {
      BitsSame(And(t, store.data.rows[p]), t, 0, m);
    }

    /** Bounds known for a set hold for its supersets. */
    lemma BoundsShrink(x: set<nat>, p: nat, q: nat, inc: nat)
      requires Valid() && p < n && q < n && Within(T(x), store.data.rows[q], inc)
      ensures Within(T(x + {p}), store.data.rows[q], inc)
    {
      WordsExtend(x, p);
      forall w | 0 <= w < inc && w < store.data.size ensures T(x + {p})[w] <= store.data.rows[q][w] {
        assert And(T(x), store.data.rows[p])[w] == T(x)[w] * store.data.rows[p][w];
      }
    }

    /** The tid list, support and counts of the closed set extended by post item id. */
    method ExtendList(level: nat, cs: CloseItemset, nc: CloseItemset, id: nat, inc: nat, prev: nat, ghost x: set<nat>)
      returns (cs': CloseItemset, nc': CloseItemset)
      requires Valid() && level < store.tids.Length0 && id < n && inc <= store.data.size && prev <= store.data.size
      requires store.Holds(cs.head, cs.tail, T(x)) && store.SeOk(cs.seBytes, cs.incl, T(x)) && store.CountOk(cs, T(x))
      requires store.Reusable(level, cs, nc, prev, T(x))
      requires Within(T(x), store.data.rows[id], inc) && cs.min <= inc && (nc.incl ==> store.data.InSE(id))
      modifies store.tids
      ensures cs' == (if nc.incl then cs else store.Recounted(cs, T(x))) && store.CountOk(cs', T(x))
      ensures store.Reusable(level, cs', nc', inc, T(x)) && store.Holds(cs.head, cs.tail, T(x))
      ensures store.Holds(nc'.head, nc'.tail, T(x + {id})) && nc'.count == |Tids(db, x + {id})|
      ensures nc'.incl == store.data.InSE(id) && NewCaches(nc', cs.min, T(x + {id}))
      ensures nc'.lung == nc.lung && nc'.tail == Slot(level) && nc'.head == if cs.incl then cs.head else Slot(level)
      ensures forall k: nat, w: nat :: k < store.tids.Length0 && k != level && w < store.data.size ==>
                store.tids[k, w] == old(store.tids[k, w])
    {
      hide Tids, T, TidStore.Valid, TidStore.Holds, TidStore.SeOk, TidStore.CountOk, TidStore.Stored,
           TidStore.Recounted;
      Apart();
      store.RecountedKeeps(cs, T(x));
      cs', nc' := store.IntersectAndCount(level, cs, nc, id, inc, prev, T(x));
      nc' := nc'.(oldBits := cs'.bits, bits := cs'.bits, oldMin := cs'.min);
      WordsExtend(x, id);
      WordsMean(x + {id}, id);
      if !nc'.incl { ExtendedCount(T(x), id, Min(cs.min, store.data.head)); }
    }

    /** The closed set of the level, extended by generator i. */
    method Extend(level: nat, i: nat, h: Level, cs: CloseItemset, nc: CloseItemset, ghost c: Content)
      returns (cs': CloseItemset, nc': CloseItemset)
      requires Valid() && level < store.tids.Length0 && i < |c.posts| && |c.items| < n
      requires Buffers(level, h, cs, c) && Sound(cs, c)
      requires Reusable(level, cs, nc, c, i)
      modifies closure, store.tids
      ensures cs' == (if nc.incl then cs else store.Recounted(cs, T(c.X()))) && Sound(cs', c)
      ensures Reusable(level, cs', nc', c, i + 1)
      ensures ClosureIs(c.items + [c.posts[i].id]) && nc'.lung == |c.items| + 1
      ensures store.Holds(nc'.head, nc'.tail, T(c.X() + {c.posts[i].id})) &&
              nc'.count == |Tids(db, c.X() + {c.posts[i].id})|
      ensures nc'.incl == store.data.InSE(c.posts[i].id) && NewCaches(nc', cs.min, T(c.X() + {c.posts[i].id}))
      ensures Below(nc'.head, level + 1) && Below(nc'.tail, level + 1)
      ensures Buffers(level, h, cs', c)
      ensures forall k: nat, w: nat :: k < level && w < store.data.size ==> store.tids[k, w] == old(store.tids[k, w])
    {
      hide Tids, T, Ascending, PostOk, PreOks, Within, TidStore.Holds, TidStore.Reusable, TidStore.SeOk,
          TidStore.CountOk,
           NewCaches, TidStore.Valid, TidStore.Stored;
      hide TidStore.Recounted;
      store.RecountedKeeps(cs, T(c.X()));
      ReadPost(level, h, cs, nc, c, i);
      var id, inc := post[h.postOff + i].id, post[h.postOff + i].included;
      var prev := if i > 0 then post[h.postOff + i - 1].included else 0;
      ghost var items := AddToClosure(cs.lung, id, c.items);
      store.ReusableFields(level, cs, nc, nc.(lung := cs.lung + 1), prev, T(c.X()));
      cs', nc' := ExtendList(level, cs, nc.(lung := cs.lung + 1), id, inc, prev, c.X());
      SoundCounts(cs, cs', c);
    }

    /** What generator i of the level offers to the intersection. */
    lemma ReadPost(level: nat, h: Level, cs: CloseItemset, nc: CloseItemset, c: Content, i: nat)
      requires Valid() && level < store.tids.Length0 && i < |c.posts|
      requires Buffers(level, h, cs, c) && Sound(cs, c) && Reusable(level, cs, nc, c, i)
      ensures h.postOff + i < post.Length && post[h.postOff + i] == c.posts[i]
      ensures i > 0 ==> post[h.postOff + i - 1] == c.posts[i - 1]
      ensures Prev(c.posts, i) <= store.data.size
      ensures c.posts[i].id < n && c.posts[i].included <= store.data.size && cs.min <= c.posts[i].included
      ensures Within(T(c.X()), store.data.rows[c.posts[i].id], c.posts[i].included)
      ensures Within(T(c.X()), store.data.rows[c.posts[i].id], Min(cs.min, store.data.head))
      ensures nc.incl ==> store.data.InSE(c.posts[i].id)
    {
      hide Tids, T, TidStore.Holds, TidStore.Reusable;
      assert PostOk(cs, c.X(), c.posts[i]);
      if i > 0 { assert PostOk(cs, c.X(), c.posts[i - 1]); }
    }

    lemma SoundCounts(cs: CloseItemset, cs': CloseItemset, c: Content)
      requires Valid() && Sound(cs, c) && cs' == cs.(bits := cs'.bits, oldMin := cs'.oldMin) &&
               store.CountOk(cs', T(c.X()))
      ensures Sound(cs', c)
    {
      hide Tids, T;
    }

    /** The state of the list under construction before generator i, and where in the order of the
        post list the section equal was met. */
    ghost predicate Reusable(level: nat, cs: CloseItemset, nc: CloseItemset, c: Content, i: nat)
      requires Valid() && level < store.tids.Length0 && i <= |c.posts|
      reads store.tids
    {
      && store.Reusable(level, cs, nc, Prev(c.posts, i), T(c.X()))
      && (nc.incl ==> cs.incl || (i > 0 && store.data.InSE(c.posts[i - 1].id)))
    }

    /** The closed set has the tid list of its generator. */
    lemma SameTids(gen: set<nat>, ids: seq<nat>)
      requires gen != {}
      ensures Tids(db, gen + Absorbed(db, Tids(db, gen), ids)) == Tids(db, gen)
      ensures T(gen + Absorbed(db, Tids(db, gen), ids)) == T(gen)
    {
      var c := gen + Absorbed(db, Tids(db, gen), ids);
      TidsOfMembers(db, gen, gen);
      TidsOfMembers(db, gen, c);
      TidsAntitone(db, gen, c);
    }

    /** The bounds of the level serve for its generators. */
    lemma PreOksShrink(x: set<nat>, p: nat, pre: seq<nat>, inc: seq<nat>)
      requires Valid() && p < n && PreOks(x, pre, inc)
      ensures PreOks(x + {p}, pre, inc)
    {
      forall k: nat | k < |pre| ensures PreOk(x + {p}, pre[k], inc[k]) {
        BoundsShrink(x, p, pre[k], inc[k]);
      }
    }

    lemma PostsShrink(cs: CloseItemset, c: Content, i: nat)
      requires Valid() && Sound(cs, c) && i < |c.posts|
      ensures forall k :: i < k < |c.posts| ==> NewPostOk(c.X() + {c.posts[i].id}, 0, cs.min, c.posts[k])
      ensures cs.min <= store.data.size
    {
      hide Tids, T;
      assert PostOk(cs, c.X(), c.posts[i]);
      forall k | i < k < |c.posts| ensures NewPostOk(c.X() + {c.posts[i].id}, 0, cs.min, c.posts[k]) {
        assert PostOk(cs, c.X(), c.posts[k]);
        BoundsShrink(c.X(), c.posts[i].id, c.posts[k].id, c.posts[k].included);
      }
    }

    /** Start of the closure loop. */
    lemma ClosingBegins(cs: CloseItemset, nc: CloseItemset, h: Level, c: Content, i: nat)
      requires Valid() && i < |c.posts| && Sound(cs, c)
      requires PostAt(h.postOff, c.posts) && ClosureIs(c.items + [c.posts[i].id])
      requires h.postOff + |c.posts| + (|c.posts| - i - 1) <= post.Length && |c.items| + |c.posts| <= n
      requires nc.lung == |c.items| + 1
      requires store.Holds(nc.head, nc.tail, T(c.X() + {c.posts[i].id}))
      requires store.SeOk(nc.seBytes, nc.incl, T(c.X() + {c.posts[i].id}))
      ensures Closing(nc.(min := store.data.size), i, i + 1, h.postOff, cs.min, c.X() + {c.posts[i].id},
                      c.items + [c.posts[i].id], c.posts, c.items + [c.posts[i].id], [])
    {
      var gen, items := c.X() + {c.posts[i].id}, c.items + [c.posts[i].id];
      PostsShrink(cs, c, i);
      ElemsSnoc(c.items, c.posts[i].id);
      ClosingSetsStart(db, gen, Ids(c.posts), i, items);
      assert NewPosts(gen, c.posts[i].id, cs.min, store.data.size, []);
      assert Ids([]) == [];
    }

    lemma ChildSets(c: Content, i: nat, child: Content)
      requires i < |c.posts|
      requires ClosingSets(db, c.X() + {c.posts[i].id}, Ids(c.posts), i, |c.posts|, child.items, Ids(child.posts))
      ensures child.X() == Produced(db, c.X(), Ids(c.posts), i)
      ensures Ids(child.posts) == Left(db, c.X(), Ids(c.posts), i)
      ensures T(child.X()) == T(c.X() + {c.posts[i].id})
    {
      var ids := Ids(c.posts);
      SameTids(c.X() + {ids[i]}, ids[i + 1..]);
      hide Tids, T, Remaining, Absorbed;
      assert ids[i + 1..|c.posts|] == ids[i + 1..];
    }

    lemma ChildPosts(nc: CloseItemset, c: Content, i: nat, floor: nat, child: Content, k: nat)
      requires Valid() && i < |c.posts| && Ascending(c.posts) && k < |child.posts|
      requires Ids(child.posts) == Left(db, c.X(), Ids(c.posts), i)
      requires T(child.X()) == T(c.X() + {c.posts[i].id})
      requires NewPostOk(c.X() + {c.posts[i].id}, nc.min, floor, child.posts[k])
      requires nc.incl == store.data.InSE(c.posts[i].id)
      ensures PostOk(nc, child.X(), child.posts[k])
    {
      hide Tids, T, Within, Left;
      assert Ids(child.posts)[k] in Left(db, c.X(), Ids(c.posts), i);
      LeftIsLater(c.X(), c.posts, i, child.posts[k].id);
    }

    /** What the closure loop has built is the content of the next level. */
    lemma ChildContent(cs: CloseItemset, nc: CloseItemset, h: Level, c: Content, i: nat, child: Content)
      requires Valid() && i < |c.posts| && cs.min <= store.data.size && Sound(cs, c)
      requires Closing(nc, i, |c.posts|, h.postOff, cs.min, c.X() + {c.posts[i].id}, c.items + [c.posts[i].id],
                       c.posts, child.items, child.posts)
      requires NewCaches(nc, cs.min, T(c.X() + {c.posts[i].id})) && nc.incl == store.data.InSE(c.posts[i].id)
      requires child.pre == c.pre && PreOks(c.X() + {c.posts[i].id}, c.pre, child.preInc)
      ensures child.X() == Produced(db, c.X(), Ids(c.posts), i)
      ensures Ids(child.posts) == Left(db, c.X(), Ids(c.posts), i)
      ensures T(child.X()) == T(c.X() + {c.posts[i].id})
      ensures Sound(nc, child)
    {
      hide Valid, TidStore.Valid, Closing, Tids, T, Within, Left, Produced, ClosingSets, TidStore.Holds, TidStore.SeOk,
           TidStore.CountOk, NewPostOk, PostOk, PreOks, NewCaches, Elems;
      ghost var gen, ids := c.X() + {c.posts[i].id}, Ids(c.posts);
      ClosingFacts(nc, i, |c.posts|, h.postOff, cs.min, gen, c.items + [c.posts[i].id], c.posts, child.items,
                   child.posts);
      ChildSets(c, i, child);
      forall k | 0 <= k < |child.posts| ensures PostOk(nc, child.X(), child.posts[k]) {
        ChildPosts(nc, c, i, cs.min, child, k);
      }
      ChildPre(gen, child);
      ChildApart(cs, c, i, child);
      ChildCounts(nc, cs.min, T(gen));
    }

    lemma ChildCounts(nc: CloseItemset, m: nat, t: seq<Word>)
      requires Valid() && |t| == store.data.size && NewCaches(nc, m, t) && m <= nc.min
      ensures store.CountOk(nc, t) && (nc.incl ==> store.data.startSE < n)
    {
    }

    lemma ClosingFacts(nc: CloseItemset, i: nat, j: nat, off: nat, floor: nat, gen: set<nat>, items: seq<nat>,
                       posts: seq<PostItem>, xs: seq<nat>, np: seq<PostItem>)
      requires Valid() && Closing(nc, i, j, off, floor, gen, items, posts, xs, np)
      ensures ClosingSets(db, gen, Ids(posts), i, j, xs, Ids(np)) && Ascending(posts) && Ascending(np)
      ensures store.SeOk(nc.seBytes, nc.incl, T(gen)) && floor <= nc.min
      ensures forall k :: 0 <= k < |np| ==> NewPostOk(gen, nc.min, floor, np[k])
    {
      hide Tids, T, Within, TidStore.Holds, TidStore.SeOk, ClosingSets, PostAt, ClosureIs, NewPostOk;
    }

    /** The items left for the recursion are not in the closed set. */
    lemma ChildApart(cs: CloseItemset, c: Content, i: nat, child: Content)
      requires Valid() && Sound(cs, c) && i < |c.posts|
      requires child.X() == Produced(db, c.X(), Ids(c.posts), i)
      requires Ids(child.posts) == Left(db, c.X(), Ids(c.posts), i)
      ensures forall k :: 0 <= k < |child.posts| ==> child.posts[k].id !in child.items
    {
      hide Tids, T, PostOk, PreOks, TidStore.SeOk, TidStore.CountOk, Produced, Left, Ascending;
      forall k | 0 <= k < |child.posts| ensures child.posts[k].id !in child.items {
        var q := child.posts[k].id;
        assert Ids(child.posts)[k] in Left(db, c.X(), Ids(c.posts), i);
        LeftApart(c, i, q);
        assert q !in child.X();
      }
    }

    lemma LeftApart(c: Content, i: nat, q: nat)
      requires i < |c.posts| && Ascending(c.posts) && q in Left(db, c.X(), Ids(c.posts), i)
      requires forall k :: 0 <= k < |c.posts| ==> c.posts[k].id !in c.items
      ensures q !in Produced(db, c.X(), Ids(c.posts), i)
    {
      hide Tids, Ascending;
      LeftIsLater(c.X(), c.posts, i, q);
      assert q in Ids(c.posts)[i + 1..];
    }

    lemma ChildPre(gen: set<nat>, child: Content)
      requires Valid() && T(child.X()) == T(gen) && PreOks(gen, child.pre, child.preInc)
      ensures PreOks(child.X(), child.pre, child.preInc)
    {
      hide Tids, T, Within;
      assert forall k: nat :: k < |child.pre| ==> PreOk(gen, child.pre[k], child.preInc[k]);
    }

    lemma LeftIsLater(x: set<nat>, posts: seq<PostItem>, i: nat, q: nat)
      requires i < |posts| && Ascending(posts) && q in Left(db, x, Ids(posts), i)
      ensures q > posts[i].id
    {
      hide Tids;
      assert q in Ids(posts)[i + 1..];
    }

    /** Room for the recursion below a level: newOff is the pre-list region of the next level. */
    ghost predicate HasRoom(h: Level, newOff: nat, c: Content) {
      && |c.items| + |c.posts| <= n
      && h.postOff + |c.posts| + |c.posts| <= post.Length + 1
      && h.preOff + |c.pre| <= newOff && newOff + |c.pre| <= preIncl.Length
    }

    /** Mine's treatment of generator i, up to the recursive call: true if it produced a closed set,
        whose content and caches are then those of the next level. */
    method Visit(level: nat, i: nat, h: Level, newOff: nat, len: nat, cs: CloseItemset, nc: CloseItemset,
                 ghost c: Content)
      returns (good: bool, cs': CloseItemset, nc': CloseItemset, count: nat, ghost child: Content)
      requires Valid() && level < store.tids.Length0 && i < len == |c.posts| && HasRoom(h, newOff, c)
      requires Buffers(level, h, cs, c) && Sound(cs, c) && Reusable(level, cs, nc, c, i)
      modifies closure, preIncl, post, store.tids
      ensures good <==> !Covered(db, min, c.X(), Elems(c.pre), c.posts[i].id)
      ensures cs' == (if nc.incl then cs else store.Recounted(cs, T(c.X()))) && Sound(cs', c)
      ensures Buffers(level, h, cs', c) && Reusable(level, cs', nc', c, i + 1)
      ensures good ==> Spawns(level, h.postOff, newOff, nc', c, i, child) && count == |child.posts|
      ensures good ==> SeKnown(cs.seBytes, nc', c, i)
      ensures forall k :: 0 <= k < newOff ==> preIncl[k] == old(preIncl[k])
      ensures forall k :: 0 <= k < h.postOff + len ==> post[k] == old(post[k])
      ensures forall k: nat, w: nat :: k < level && w < store.data.size ==> store.tids[k, w] == old(store.tids[k, w])
    {
      assert |c.items| < n && store.Valid();
      hide *;
      store.RecountedKeeps(cs, T(c.X()));
      RareCovered(c.X(), c.pre, c.posts[i].id);
      cs', nc' := Extend(level, i, h, cs, nc, c);
      count, child := 0, c;
      if min > nc'.count {
        good := false;
      } else {
        good, nc', count, child := Judge(level, i, h, newOff, len, cs', nc', c);
      }
    }

    lemma RareCovered(x: set<nat>, pre: seq<nat>, p: nat)
      ensures Supp(db, x + {p}) == |Tids(db, x + {p})|
      ensures Supp(db, x + {p}) < min ==> Covered(db, min, x, Elems(pre), p)
    {
    }

    /** The next level, as left by generator i: the bounds of its lists are exact for the new tid list. */
    ghost predicate Spawns(level: nat, postOff: nat, newOff: nat, nc: CloseItemset, c: Content, i: nat, child: Content)
      requires Valid() && i < |c.posts|
      reads closure, preList, preIncl, post, store.tids
    {
      && child.X() == Produced(db, c.X(), Ids(c.posts), i)
      && Ids(child.posts) == Left(db, c.X(), Ids(c.posts), i)
      && c.items < child.items && Deeper(c, i, child)
      && nc.count == Supp(db, c.X() + {c.posts[i].id})
      && Sound(nc, child)
      && PreExact(c.X() + {c.posts[i].id}, child.pre, child.preInc)
      && PostExact(c.X() + {c.posts[i].id}, nc.min, child.posts)
      && Buffers(level + 1, Level(nc, |child.posts|, |c.pre|, newOff, postOff + |c.posts|), nc, child)
    }

    /** What the new closed set knows of the section equal, beyond what the level's knew: it was compared with the
        rows of the pre-list and of the post items behind its own. */
    ghost predicate SeKnown(before: nat, nc: CloseItemset, c: Content, i: nat)
      requires Valid() && i < |c.posts|
    {
      store.SeAfter(before, nc.seBytes, AnySE(c.pre) || AnySE(Ids(c.posts)[i + 1..]), nc.incl,
                    T(c.X() + {c.posts[i].id}))
    }

    lemma SeJoined(before: nat, nc: CloseItemset, nc': CloseItemset, c: Content, i: nat)
      requires Valid() && i < |c.posts| && nc'.incl == nc.incl
      requires store.SeAfter(before, nc.seBytes, AnySE(c.pre), nc.incl, T(c.X() + {c.posts[i].id}))
      requires store.SeAfter(nc.seBytes, nc'.seBytes, AnySE(Ids(c.posts)[i + 1..]), nc.incl,
                             T(c.X() + {c.posts[i].id}))
      ensures SeKnown(before, nc', c, i)
    {
      hide TidStore.SeAfter, AnySE;
      store.SeAfterBoth(before, nc.seBytes, nc'.seBytes, AnySE(c.pre), AnySE(Ids(c.posts)[i + 1..]), nc.incl,
                        T(c.X() + {c.posts[i].id}));
    }

    /** How the lists of a level and of the next one are related. */
    ghost predicate Deeper(c: Content, i: nat, child: Content) {
      && i < |c.posts| && child.base == c.base && child.pre == c.pre
      && |child.items| + |child.posts| == |c.items| + (|c.posts| - i) && |child.posts| + i < |c.posts|
    }

    /** Duplicate test and closure of a frequent generator. */
    method Judge(level: nat, i: nat, h: Level, newOff: nat, len: nat, cs: CloseItemset, nc: CloseItemset,
                 ghost c: Content)
      returns (good: bool, nc': CloseItemset, count: nat, ghost child: Content)
      requires Valid() && level < store.tids.Length0 && i < len == |c.posts| && HasRoom(h, newOff, c)
      requires Buffers(level, h, cs, c) && Sound(cs, c) && Reusable(level, cs, nc, c, i + 1)
      requires ClosureIs(c.items + [c.posts[i].id]) && nc.lung == |c.items| + 1
      requires store.Holds(nc.head, nc.tail, T(c.X() + {c.posts[i].id}))
      requires nc.count == Supp(db, c.X() + {c.posts[i].id}) >= min
      requires nc.incl == store.data.InSE(c.posts[i].id) && NewCaches(nc, cs.min, T(c.X() + {c.posts[i].id}))
      requires Below(nc.head, level + 1) && Below(nc.tail, level + 1)
      modifies closure, preIncl, post
      ensures good <==> !Covered(db, min, c.X(), Elems(c.pre), c.posts[i].id)
      ensures Buffers(level, h, cs, c) && Reusable(level, cs, nc', c, i + 1)
      ensures good ==> Spawns(level, h.postOff, newOff, nc', c, i, child) && count == |child.posts|
      ensures good ==> SeKnown(cs.seBytes, nc', c, i)
      ensures forall k :: 0 <= k < newOff ==> preIncl[k] == old(preIncl[k])
      ensures forall k :: 0 <= k < h.postOff + len ==> post[k] == old(post[k])
    {
      hide *;
      Apart();
      CoveredIsSubsumed(c.X(), c.pre, c.posts[i].id);
      count, child := 0, c;
      var dup;
      ghost var newInc;
      dup, nc', newInc := Dedup(level, i, h, newOff, cs, nc, c);
      good := !dup;
      if good {
        SameCaches(nc, nc', cs.min, T(c.X() + {c.posts[i].id}));
        ghost var tested := nc';
        nc', count, child := Build(level, i, h, newOff, len, cs, nc', c, newInc);
        SeJoined(cs.seBytes, tested, nc', c, i);
      }
      ReusableKept(level, cs, nc, nc', c, i + 1);
    }

    /** The duplicate test of generator i, with the caches it starts from. */
    method Dedup(level: nat, ghost i: nat, h: Level, newOff: nat, cs: CloseItemset, nc: CloseItemset, ghost c: Content)
      returns (dup: bool, nc': CloseItemset, ghost newInc: seq<nat>)
      requires Valid() && i < |c.posts| && HasRoom(h, newOff, c) && Buffers(level, h, cs, c) && Sound(cs, c)
      requires store.Holds(nc.head, nc.tail, T(c.X() + {c.posts[i].id})) && nc.incl == store.data.InSE(c.posts[i].id)
      modifies preIncl
      ensures dup <==> Subsumed(db, Tids(db, c.X() + {c.posts[i].id}), Elems(c.pre))
      ensures nc' == nc.(min := store.data.size, seBytes := nc'.seBytes)
      ensures store.SeOk(nc'.seBytes, nc'.incl, T(c.X() + {c.posts[i].id}))
      ensures !dup ==> PreOks(c.X() + {c.posts[i].id}, c.pre, newInc) && BoundsAt(newOff, newInc)
      ensures !dup ==> PreExact(c.X() + {c.posts[i].id}, c.pre, newInc)
      ensures !dup ==> store.SeAfter(cs.seBytes, nc'.seBytes, AnySE(c.pre), nc.incl, T(c.X() + {c.posts[i].id}))
      ensures Buffers(level, h, cs, c)
      ensures forall k :: 0 <= k < newOff ==> preIncl[k] == old(preIncl[k])
    {
      hide *;
      ghost var gen := c.X() + {c.posts[i].id};
      Apart();
      OpenLevel(level, h, newOff, cs, c, i);
      ExtendedSe(cs.seBytes, cs.incl, T(c.X()), c.posts[i].id);
      var seBytes;
      nc' := nc.(min := store.data.size, seBytes := cs.seBytes);
      dup, seBytes, newInc := IsDuplicate(nc', h.preLen, h.preOff, newOff, gen, c.pre, c.preInc);
      nc' := nc'.(seBytes := seBytes);
      CloseLevel(level, h, cs, c);
    }

    lemma CoveredIsSubsumed(x: set<nat>, pre: seq<nat>, p: nat)
      requires Supp(db, x + {p}) >= min
      ensures Covered(db, min, x, Elems(pre), p) <==> Subsumed(db, Tids(db, x + {p}), Elems(pre))
    {
    }

    lemma SameCaches(nc: CloseItemset, nc': CloseItemset, m: nat, t: seq<Word>)
      requires Valid() && |t| == store.data.size && NewCaches(nc, m, t)
      requires nc' == nc.(min := nc'.min, seBytes := nc'.seBytes)
      ensures NewCaches(nc', m, t)
    {
    }

    lemma ReusableKept(level: nat, cs: CloseItemset, nc: CloseItemset, nc': CloseItemset, c: Content, i: nat)
      requires Valid() && level < store.tids.Length0 && i <= |c.posts| && Reusable(level, cs, nc, c, i)
      requires nc'.head == nc.head && nc'.tail == nc.tail && nc'.incl == nc.incl && nc'.headBits == nc.headBits
      ensures Reusable(level, cs, nc', c, i)
    {
      store.ReusableFields(level, cs, nc, nc', Prev(c.posts, i), T(c.X()));
    }

    /** The parts of Buffers, and what generator i needs of the level. */
    lemma OpenLevel(level: nat, h: Level, newOff: nat, cs: CloseItemset, c: Content, i: nat)
      requires Valid() && i < |c.posts| && HasRoom(h, newOff, c) && Buffers(level, h, cs, c) && Sound(cs, c)
      ensures cs.lung == |c.items| && ClosureIs(c.items)
      ensures h.preLen == |c.pre| && PreAt(c.pre) && BoundsAt(h.preOff, c.preInc) && PostAt(h.postOff, c.posts)
      ensures store.Holds(cs.head, cs.tail, T(c.X())) && Below(cs.head, level) && Below(cs.tail, level)
      ensures c.posts[i].id < n && store.SeOk(cs.seBytes, cs.incl, T(c.X()))
      ensures And(T(c.X()), store.data.rows[c.posts[i].id]) == T(c.X() + {c.posts[i].id})
      ensures PreOks(c.X() + {c.posts[i].id}, c.pre, c.preInc)
      ensures h.preOff + |c.pre| <= newOff && newOff + |c.pre| <= preIncl.Length
    {
      hide Tids, T, Within, TidStore.Holds, TidStore.SeOk;
      assert PostOk(cs, c.X(), c.posts[i]);
      WordsExtend(c.X(), c.posts[i].id);
      PreOksShrink(c.X(), c.posts[i].id, c.pre, c.preInc);
    }

    lemma CloseLevel(level: nat, h: Level, cs: CloseItemset, c: Content)
      requires Valid() && cs.lung == |c.items| && ClosureIs(c.items)
      requires h.preLen == |c.pre| && PreAt(c.pre) && BoundsAt(h.preOff, c.preInc) && PostAt(h.postOff, c.posts)
      requires store.Holds(cs.head, cs.tail, T(c.X())) && Below(cs.head, level) && Below(cs.tail, level)
      ensures Buffers(level, h, cs, c)
    {
    }

    /** Closure and post list of a generator that is no duplicate. */
    method Build(level: nat, i: nat, h: Level, newOff: nat, len: nat, cs: CloseItemset, nc: CloseItemset,
                 ghost c: Content, ghost newInc: seq<nat>)
      returns (nc': CloseItemset, count: nat, ghost child: Content)
      requires Valid() && level < store.tids.Length0 && i < len == |c.posts| && HasRoom(h, newOff, c)
      requires Buffers(level, h, cs, c) && Sound(cs, c)
      requires ClosureIs(c.items + [c.posts[i].id]) && nc.lung == |c.items| + 1 && nc.min == store.data.size
      requires store.Holds(nc.head, nc.tail, T(c.X() + {c.posts[i].id}))
      requires store.SeOk(nc.seBytes, nc.incl, T(c.X() + {c.posts[i].id}))
      requires nc.count == Supp(db, c.X() + {c.posts[i].id})
      requires nc.incl == store.data.InSE(c.posts[i].id) && NewCaches(nc, cs.min, T(c.X() + {c.posts[i].id}))
      requires Below(nc.head, level + 1) && Below(nc.tail, level + 1)
      requires PreOks(c.X() + {c.posts[i].id}, c.pre, newInc) && BoundsAt(newOff, newInc)
      requires PreExact(c.X() + {c.posts[i].id}, c.pre, newInc)
      modifies closure, post
      ensures nc' == nc.(lung := nc'.lung, seBytes := nc'.seBytes, min := nc'.min)
      ensures Buffers(level, h, cs, c)
      ensures Spawns(level, h.postOff, newOff, nc', c, i, child) && count == |child.posts|
      ensures store.SeAfter(nc.seBytes, nc'.seBytes, AnySE(Ids(c.posts)[i + 1..]), nc.incl,
                            T(c.X() + {c.posts[i].id}))
      ensures forall k :: 0 <= k < h.postOff + len ==> post[k] == old(post[k])
    {
      assert PostAt(h.postOff, c.posts) && h.postOff + |c.posts| + (|c.posts| - i - 1) <= post.Length &&
             |c.items| + |c.posts| <= n;
      assert cs.lung == |c.items| && h.preLen == |c.pre| && PreAt(c.pre) && BoundsAt(h.preOff, c.preInc);
      assert store.Holds(cs.head, cs.tail, T(c.X())) && Below(cs.head, level) && Below(cs.tail, level);
      hide *;
      ghost var xs, np;
      ClosingBegins(cs, nc, h, c, i);
      nc', count, xs, np := Close(nc, i, h.postOff, len, c.X() + {c.posts[i].id}, c.items + [c.posts[i].id], c.posts,
                                  cs.min);
      child := Content(c.base, xs, c.pre, newInc, np);
      Built(level, h, newOff, cs, nc', c, i, child);
    }

    lemma Built(level: nat, h: Level, newOff: nat, cs: CloseItemset, nc: CloseItemset, c: Content, i: nat,
                child: Content)
      requires Valid() && i < |c.posts| && Sound(cs, c)
      requires Closing(nc, i, |c.posts|, h.postOff, cs.min, c.X() + {c.posts[i].id}, c.items + [c.posts[i].id],
                       c.posts, child.items, child.posts)
      requires cs.lung == |c.items| && h.preLen == |c.pre| && PreAt(c.pre) && BoundsAt(h.preOff, c.preInc)
      requires store.Holds(cs.head, cs.tail, T(c.X())) && Below(cs.head, level) && Below(cs.tail, level)
      requires Below(nc.head, level + 1) && Below(nc.tail, level + 1)
      requires child.base == c.base && child.pre == c.pre && BoundsAt(newOff, child.preInc) &&
               PreOks(c.X() + {c.posts[i].id}, c.pre, child.preInc)
      requires PreExact(c.X() + {c.posts[i].id}, c.pre, child.preInc)
      requires NewCaches(nc, cs.min, T(c.X() + {c.posts[i].id})) && nc.incl == store.data.InSE(c.posts[i].id)
      requires nc.count == Supp(db, c.X() + {c.posts[i].id})
      ensures Buffers(level, h, cs, c) && Spawns(level, h.postOff, newOff, nc, c, i, child)
    {
      hide Tids, T, Within, TidStore.Holds, TidStore.SeOk, TidStore.CountOk, PreOk, Produced, Left, NewCaches, Sound,
           NewPosts, PreExact, PostExact, ClosingSets, Buffers, Closing, PostAt, ClosureIs, PreAt, BoundsAt, PreOks,
               Below, Ascending;
      PostsShrink(cs, c, i);
      ChildContent(cs, nc, h, c, i, child);
      ClosingParts(nc, i, |c.posts|, h.postOff, cs.min, c.X() + {c.posts[i].id}, c.items + [c.posts[i].id], c.posts,
                   child.items, child.posts);
      assert c.items < child.items by { assert c.items < c.items + [c.posts[i].id] <= child.items; }
      ClosureIsPrefix(c.items, child.items);
      CloseLevel(level, h, cs, c);
      CloseLevel(level + 1, Level(nc, |child.posts|, |c.pre|, newOff, h.postOff + |c.posts|), nc, child);
    }

    lemma ClosingParts(nc: CloseItemset, i: nat, j: nat, off: nat, floor: nat, gen: set<nat>, items: seq<nat>,
                       posts: seq<PostItem>, xs: seq<nat>, np: seq<PostItem>)
      requires Valid() && Closing(nc, i, j, off, floor, gen, items, posts, xs, np)
      ensures nc.lung == |xs| && |xs| + |np| == |items| + (j - i - 1) && items <= xs && ClosureIs(xs)
      ensures PostAt(off, posts) && PostAt(off + |posts|, np) && store.Holds(nc.head, nc.tail, T(gen))
      ensures PostExact(gen, nc.min, np)
    {
      hide Tids, T, Within, TidStore.Holds, TidStore.SeOk, NewPosts, PostExact, ClosingSets, PostAt, ClosureIs;
    }

    lemma ClosureIsPrefix(items: seq<nat>, xs: seq<nat>)
      requires ClosureIs(xs) && items <= xs
      ensures ClosureIs(items)
    {
    }

    // -------------------------------------------------------------------------------------
    // Mine
    // -------------------------------------------------------------------------------------

    /** What the walk reports from generator i on. */
    ghost function Report(c: Content, i: nat, ub: nat): seq<Event>
      requires i <= ub <= |c.posts|
    {
      Printed(Walk(db, min, c.X(), Elems(c.pre), Ids(c.posts), i, ub))
    }

    ghost predicate Ready(level: nat, h: Level, cs: CloseItemset, c: Content)
      requires Valid()
      reads closure, preList, preIncl, post, store.tids
    {
      Buffers(level, h, cs, c) && Sound(cs, c)
    }

    /** Stack bounds before generator i: the lists of a level shorten by at least one from level to
        level, so everything that is still to be pushed fits. */
    ghost predicate StackFits(level: nat, h: Level, newOff: nat, c: Content, i: nat) {
      && i <= |c.posts|
      && c.base <= level && c.base <= 1
      && level - c.base + |c.pre| + (|c.posts| - i) <= n
      && |c.items| + |c.posts| <= n
      && h.postOff + Tri(|c.posts| + 1) <= post.Length
      && h.preOff + |c.pre| + (|c.posts| - i) <= newOff <= n * (level - c.base + 1)
    }

    /** The pre-list region of the level after the next. */
    ghost predicate NextRegion(level: nat, newOff: nat, newOff2: nat, c: Content, i: nat) {
      c.base <= level && newOff + |c.pre| + (|c.posts| - i) <= newOff2 <= n * (level - c.base + 2)
    }

    lemma StackHasRoom(level: nat, h: Level, newOff: nat, c: Content, i: nat)
      requires Valid() && StackFits(level, h, newOff, c, i) && i < |c.posts|
      ensures HasRoom(h, newOff, c) && NextRegion(level, newOff, newOff + |c.pre| + (|c.posts| - i), c, i)
      ensures level + 2 < levels.Length && level < store.tids.Length0 && newOff <= preIncl.Length && |c.pre| < n
    {
      TriTwice(|c.posts|);
      TriMonotone(|c.posts|, |c.posts| + 1);
      RegionFits(level - c.base, newOff, |c.pre|, |c.posts| - i);
      hide TidStore.Valid, T;
    }

    lemma RegionFits(d: nat, newOff: nat, pre: nat, rest: nat)
      requires d + pre + rest <= n && rest > 0 && newOff <= n * (d + 1)
      ensures newOff + pre <= n * n && newOff + pre + rest <= n * (d + 2)
    {
      MulStep(n, d + 1);
      MulGrows(d + 1, n, n);
      if d + 2 <= n { MulGrows(d + 2, n, n); }
    }

    lemma TriTwice(k: nat)
      ensures Tri(k + 1) + 1 >= 2 * k
    {
      if k >= 1 {
        assert Tri(k + 1) == Tri(k) + k && Tri(k) == Tri(k - 1) + (k - 1);
      }
    }

    lemma MulStep(a: nat, b: nat)
      ensures a * (b + 1) == a * b + a
    {
    }

    /** The next level fits, too. */
    lemma ChildFits(level: nat, h: Level, newOff: nat, newOff2: nat, c: Content, i: nat, child: Content, h': Level)
      requires Valid() && StackFits(level, h, newOff, c, i) && i < |c.posts|
      requires NextRegion(level, newOff, newOff2, c, i)
      requires Deeper(c, i, child)
      requires h'.postOff == h.postOff + |c.posts| && h'.preOff == newOff
      ensures StackFits(level + 1, h', newOff2, child, 0)
      ensures |child.posts| > 0 ==> level + 3 < levels.Length
    {
      TriMonotone(|child.posts| + 1, |c.posts|);
    }

    predicate Offsets(l: Level, preOff: nat, postOff: nat) {
      l.preOff == preOff && l.postOff == postOff
    }

    /** Mine's loop before generator i: the content of the level, the list being reused, the offsets
        of the levels above, and room. newOff2 is the pre-list region of the level after the next. */
    ghost predicate Loop(level: nat, i: nat, h: Level, newOff: nat, newOff2: nat, cs: CloseItemset, nc: CloseItemset,
                         c: Content)
      requires Valid()
      reads closure, preList, preIncl, post, levels, store.tids
    {
      && level < store.tids.Length0 && i <= |c.posts| && level + 2 < levels.Length
      && Ready(level, h, cs, c) && Reusable(level, cs, nc, c, i)
      && StackFits(level, h, newOff, c, i) && NextRegion(level, newOff, newOff2, c, i)
      && Offsets(levels[level + 1], newOff, h.postOff + |c.posts|) && levels[level + 2].preOff == newOff2
    }

    /** What Mine leaves alone: the levels below, and the list regions before the given ends. */
    twostate predicate Kept(level: nat, preEnd: nat, postEnd: nat)
      reads preIncl, post, levels, store.tids
    {
      && (forall k :: 0 <= k < preEnd && k < preIncl.Length ==> preIncl[k] == old(preIncl[k]))
      && (forall k :: 0 <= k < postEnd && k < post.Length ==> post[k] == old(post[k]))
      && (forall k :: 0 <= k < level && k < levels.Length ==> levels[k] == old(levels[k]))
      && (forall k: nat, w: nat :: k < level && k < store.tids.Length0 && w < store.tids.Length1 ==>
          store.tids[k, w] == old(store.tids[k, w]))
    }

    lemma VisitReady(level: nat, i: nat, h: Level, newOff: nat, newOff2: nat, cs: CloseItemset, nc: CloseItemset,
                     c: Content)
      requires Valid() && Loop(level, i, h, newOff, newOff2, cs, nc, c) && i < |c.posts|
      ensures level < store.tids.Length0 && HasRoom(h, newOff, c)
      ensures Buffers(level, h, cs, c) && Sound(cs, c) && Reusable(level, cs, nc, c, i)
    {
      hide Buffers, Sound, Reusable;
      StackHasRoom(level, h, newOff, c, i);
    }

    /** Visit, with the level's record brought up to date. */
    method Attempt(level: nat, i: nat, h: Level, newOff: nat, newOff2: nat, len: nat, cs: CloseItemset,
                   nc: CloseItemset, ghost c: Content)
      returns (good: bool, h': Level, cs': CloseItemset, nc': CloseItemset, count: nat, ghost child: Content)
      requires Valid() && Loop(level, i, h, newOff, newOff2, cs, nc, c) && i < len == |c.posts|
      modifies closure, preIncl, post, levels, store.tids
      ensures Loop(level, i + 1, h', newOff, newOff2, cs', nc', c)
      ensures good <==> !Covered(db, min, c.X(), Elems(c.pre), c.posts[i].id)
      ensures good ==> Spawns(level, h.postOff, newOff, nc', c, i, child) && count == |child.posts|
      ensures h' == h.(closed := cs') && levels[level] == h'
      ensures Kept(level, newOff, h.postOff + len)
    {
      hide Valid, TidStore.Valid, Loop, Ready, Offsets, Buffers, Sound, Reusable, Spawns, Covered, Supp, StackFits,
          NextRegion,
           HasRoom, T, Elems, Ids;
      Apart();
      VisitReady(level, i, h, newOff, newOff2, cs, nc, c);
      LoopLevels(level, i, h, newOff, newOff2, cs, nc, c);
      good, cs', nc', count, child := Visit(level, i, h, newOff, len, cs, nc, c);
      h' := h.(closed := cs');
      levels[level] := h';
      LoopNext(level, i, h, newOff, newOff2, cs, cs', nc', c);
    }

    lemma LoopLevels(level: nat, i: nat, h: Level, newOff: nat, newOff2: nat, cs: CloseItemset, nc: CloseItemset,
                     c: Content)
      requires Valid() && Loop(level, i, h, newOff, newOff2, cs, nc, c)
      ensures level + 2 < levels.Length
      ensures Offsets(levels[level + 1], newOff, h.postOff + |c.posts|) && levels[level + 2].preOff == newOff2
      ensures StackFits(level, h, newOff, c, i) && NextRegion(level, newOff, newOff2, c, i)
      ensures h.preOff <= newOff
    {
      hide Buffers, Sound, Reusable;
    }

    lemma LoopNext(level: nat, i: nat, h: Level, newOff: nat, newOff2: nat, cs: CloseItemset, cs': CloseItemset,
                   nc: CloseItemset, c: Content)
      requires Valid() && level < store.tids.Length0 && i < |c.posts| && level + 2 < levels.Length
      requires Buffers(level, h, cs', c) && Sound(cs', c) && Reusable(level, cs', nc, c, i + 1)
      requires Offsets(levels[level + 1], newOff, h.postOff + |c.posts|) && levels[level + 2].preOff == newOff2
      requires StackFits(level, h, newOff, c, i) && NextRegion(level, newOff, newOff2, c, i)
      ensures Loop(level, i + 1, h.(closed := cs'), newOff, newOff2, cs', nc, c)
    {
      hide Sound, Reusable, T, TidStore.Holds;
    }

    /** printTofile, for closed sets of more than one item. */
    method Write(lung: nat, count: nat, ghost xs: seq<nat>)
      requires lung == |xs| && ClosureIs(xs) && (lung > 1 <==> |Elems(xs)| > 1)
      modifies `out
      ensures out == old(out) + Printed([Found(Elems(xs), count)])
    {
      assert closure[..lung] == xs;
      if lung > 1 {
        out := out + [Found((set x | x in closure[..lung]), count)];
      }
    }

    /** The number of items built up tells whether there is more than one. */
    lemma SizeTold(cs: CloseItemset, c: Content, i: nat, child: Content)
      requires Valid() && Sound(cs, c) && Deeper(c, i, child) && c.items < child.items
      requires child.X() == Produced(db, c.X(), Ids(c.posts), i)
      requires Ids(child.posts) == Left(db, c.X(), Ids(c.posts), i)
      ensures |child.items| > 1 <==> |child.X()| > 1
    {
      hide Valid, TidStore.Valid, Sound, Produced, Left, Tids, T;
      var x, ids := c.X(), Ids(c.posts);
      PostsApart(cs, c, i);
      ProducedExtends(db, x, ids, i);
      if |child.items| == 1 {
        assert child.X() == {child.items[0]};
      } else if c.items != [] {
        assert c.items[0] in x;
        TwoItems(child.X(), c.items[0], ids[i]);
      } else {
        SecondItem(db, x, ids, i);
      }
    }

    lemma PostsApart(cs: CloseItemset, c: Content, i: nat)
      requires Valid() && Sound(cs, c) && i < |c.posts|
      ensures c.posts[i].id !in c.items && NoRepeat(Ids(c.posts))
    {
      hide T, PostOk, PreOks, TidStore.SeOk, TidStore.CountOk;
    }

    /** A level handed to Mine. */
    ghost predicate Entry(level: nat, c: Content, ub: nat)
      requires Valid()
      reads closure, preList, preIncl, post, levels, store.tids
    {
      && level + 2 < levels.Length && c.posts != []
      && ub <= |c.posts| && levels[level].ub == ub
      && Ready(level, levels[level], levels[level].closed, c)
      && levels[level + 1].postOff == levels[level].postOff + |c.posts|
      && StackFits(level, levels[level], levels[level + 1].preOff, c, 0)
    }

    lemma MakeEntry(level: nat, c: Content, ub: nat)
      requires Valid() && level + 2 < levels.Length && c.posts != [] && ub <= |c.posts| && levels[level].ub == ub
      requires Ready(level, levels[level], levels[level].closed, c)
      requires levels[level + 1].postOff == levels[level].postOff + |c.posts|
      requires StackFits(level, levels[level], levels[level + 1].preOff, c, 0)
      ensures Entry(level, c, ub)
    {
      hide Ready, StackFits;
    }

    /** The recursive call of generator i: record its closed set, mine below it. */
    method Recurse(level: nat, ghost i: nat, h: Level, newOff: nat, newOff2: nat, len: nat, count: nat,
                   ghost cs: CloseItemset, nc: CloseItemset, ghost c: Content, ghost child: Content)
      requires Valid() && i < len == |c.posts| && count == |child.posts|
      requires Loop(level, i + 1, h, newOff, newOff2, cs, nc, c) && Spawns(level, h.postOff, newOff, nc, c, i, child)
      requires StackFits(level, h, newOff, c, i) && NextRegion(level, newOff, newOff2, c, i)
      modifies closure, preList, preIncl, post, levels, store.tids, `out
      ensures Loop(level, i + 1, h, newOff, newOff2, cs, nc, c)
      ensures out == old(out) + Printed([Found(child.X(), nc.count)]) + Report(child, 0, |child.posts|)
      ensures Kept(level + 1, newOff, h.postOff + len)
      decreases |c.posts|, 4
    {
      hide Valid, TidStore.Valid, Loop, Ready, Reusable, Sound, T, StackFits, NextRegion, TidStore.Holds, ClosureIs,
          PreAt,
           PostAt, BoundsAt, Spawns, Report, Offsets, Below, Deeper, Printed, Elems, Content.X, TidStore.Stored;
      LoopSize(level, i, h, newOff, newOff2, cs, nc, c, child);
      SpawnFacts(level, h, newOff, nc, c, i, child);
      LoopLevels(level, i + 1, h, newOff, newOff2, cs, nc, c);
      ClosureIsPrefix(c.items, child.items);
      LoopLists(level, i + 1, h, newOff, newOff2, cs, nc, c);
      LoopHolds(level, i + 1, h, newOff, newOff2, cs, nc, c);
      Write(nc.lung, nc.count, child.items);
      if count == 0 {
        ReportNone(child);
        EndList(level, newOff, newOff2, h.postOff + len, h.postOff + len);
      } else {
        DescendKeeps(level, i, h, newOff, newOff2, len, count, cs, nc, c, child);
        ClosureIsPrefix(c.items, child.items);
      }
      LoopAgain(level, i + 1, h, newOff, newOff2, cs, nc, c);
    }

    lemma LoopSize(level: nat, i: nat, h: Level, newOff: nat, newOff2: nat, cs: CloseItemset, nc: CloseItemset,
                   c: Content, child: Content)
      requires Valid() && Loop(level, i + 1, h, newOff, newOff2, cs, nc, c) && i < |c.posts|
      requires Spawns(level, h.postOff, newOff, nc, c, i, child)
      ensures child.X() == Elems(child.items) && (|child.items| > 1 <==> |child.X()| > 1)
    {
      hide T, Elems, Produced, Left, Supp, Buffers, Sound, Reusable, StackFits;
      SizeTold(cs, c, i, child);
    }

    lemma ReportNone(c: Content)
      requires c.posts == []
      ensures Report(c, 0, 0) == []
    {
    }

    lemma LoopLists(level: nat, i: nat, h: Level, newOff: nat, newOff2: nat, cs: CloseItemset, nc: CloseItemset,
                    c: Content)
      requires Valid() && Loop(level, i, h, newOff, newOff2, cs, nc, c)
      ensures ClosureIs(c.items) && PreAt(c.pre) && h.preLen == |c.pre| && level < store.tids.Length0
    {
      hide Sound, T, TidStore.Holds, Reusable, PostAt, BoundsAt, PreAt, ClosureIs, StackFits;
    }

    /** LEVEL_post_list[level+2]: where the next level's list ends. */
    method EndList(level: nat, ghost newOff: nat, ghost newOff2: nat, ghost postOff: nat, end: nat)
      requires level + 2 < levels.Length && Offsets(levels[level + 1], newOff, postOff) &&
               levels[level + 2].preOff == newOff2
      modifies levels
      ensures Offsets(levels[level + 1], newOff, postOff) && Offsets(levels[level + 2], newOff2, end)
      ensures forall k: nat :: k < levels.Length && k != level + 2 ==> levels[k] == old(levels[k])
    {
      levels[level + 2] := levels[level + 2].(postOff := end);
    }

    method Descend(level: nat, ghost i: nat, h: Level, newOff: nat, newOff2: nat, len: nat, count: nat,
                   nc: CloseItemset, ghost c: Content, ghost child: Content)
      requires Valid() && i < len == |c.posts| && count == |child.posts| > 0 && level + 2 < levels.Length
      requires Offsets(levels[level + 1], newOff, h.postOff + len) && levels[level + 2].preOff == newOff2 &&
               h.preLen == |c.pre|
      requires StackFits(level, h, newOff, c, i) && NextRegion(level, newOff, newOff2, c, i)
      requires Deeper(c, i, child)
      requires Ready(level + 1, Level(nc, count, |c.pre|, newOff, h.postOff + len), nc, child) && c.items < child.items
      modifies closure, preList, preIncl, post, levels, store.tids, `out
      ensures out == old(out) + Report(child, 0, count)
      ensures ClosureIs(child.items) && PreAt(child.pre)
      ensures Kept(level + 1, newOff, h.postOff + len)
      ensures Offsets(levels[level + 1], newOff, h.postOff + len) && levels[level + 2].preOff == newOff2
      decreases |c.posts|, 1
    {
      hide Valid, TidStore.Valid, Ready, StackFits, NextRegion, Report, ClosureIs, PreAt, T, Entry;
      var next := Level(nc, count, h.preLen, newOff, h.postOff + len);
      ChildFits(level, h, newOff, newOff2, c, i, child, next);
      EndList(level, newOff, newOff2, h.postOff + len, h.postOff + len + count);
      levels[level + 1] := next;
      MakeEntry(level + 1, child, count);
      Mine(level + 1, child);
    }

    lemma LoopHolds(level: nat, i: nat, h: Level, newOff: nat, newOff2: nat, cs: CloseItemset, nc: CloseItemset,
                    c: Content)
      requires Valid() && Loop(level, i, h, newOff, newOff2, cs, nc, c)
      ensures level < store.tids.Length0 && i <= |c.posts|
      ensures store.Holds(cs.head, cs.tail, T(c.X())) && Below(cs.head, level) && Below(cs.tail, level) &&
              Reusable(level, cs, nc, c, i)
      ensures BoundsAt(h.preOff, c.preInc) && PostAt(h.postOff, c.posts) && h.preOff + |c.preInc| <= newOff
      ensures cs.lung == |c.items| && Sound(cs, c) && StackFits(level, h, newOff, c, i)
    {
      hide T, TidStore.Holds, Reusable, PostAt, BoundsAt, PreAt, ClosureIs;
    }

    lemma LoopAgain(level: nat, i: nat, h: Level, newOff: nat, newOff2: nat, cs: CloseItemset, nc: CloseItemset,
                    c: Content)
      requires Valid() && level < store.tids.Length0 && i <= |c.posts| && level + 2 < levels.Length
      requires store.Holds(cs.head, cs.tail, T(c.X())) && Below(cs.head, level) && Below(cs.tail, level) &&
               Reusable(level, cs, nc, c, i)
      requires BoundsAt(h.preOff, c.preInc) && PostAt(h.postOff, c.posts) && ClosureIs(c.items) && PreAt(c.pre) &&
               h.preLen == |c.pre|
      requires cs.lung == |c.items| && Sound(cs, c) && StackFits(level, h, newOff, c, i)
      requires NextRegion(level, newOff, newOff2, c, i)
      requires Offsets(levels[level + 1], newOff, h.postOff + |c.posts|) && levels[level + 2].preOff == newOff2
      ensures Loop(level, i, h, newOff, newOff2, cs, nc, c)
    {
      hide T, TidStore.Holds, Reusable, PostAt, BoundsAt, PreAt, ClosureIs, Sound, StackFits;
    }

    /** Descend leaves this level's lists alone. */
    method DescendLists(level: nat, ghost i: nat, h: Level, newOff: nat, newOff2: nat, len: nat, count: nat,
                        nc: CloseItemset, ghost c: Content, ghost child: Content)
      requires Valid() && i < len == |c.posts| && count == |child.posts| > 0 && level + 2 < levels.Length
      requires Offsets(levels[level + 1], newOff, h.postOff + len) && levels[level + 2].preOff == newOff2 &&
               h.preLen == |c.pre|
      requires StackFits(level, h, newOff, c, i) && NextRegion(level, newOff, newOff2, c, i)
      requires Deeper(c, i, child)
      requires Ready(level + 1, Level(nc, count, |c.pre|, newOff, h.postOff + len), nc, child) && c.items < child.items
      requires BoundsAt(h.preOff, c.preInc) && PostAt(h.postOff, c.posts) && h.preOff + |c.preInc| <= newOff
      modifies closure, preList, preIncl, post, levels, store.tids, `out
      ensures out == old(out) + Report(child, 0, count)
      ensures ClosureIs(child.items) && PreAt(child.pre)
      ensures Kept(level + 1, newOff, h.postOff + len)
      ensures Offsets(levels[level + 1], newOff, h.postOff + len) && levels[level + 2].preOff == newOff2
      ensures BoundsAt(h.preOff, c.preInc) && PostAt(h.postOff, c.posts)
      decreases |c.posts|, 2
    {
      hide Ready, StackFits, Report, ClosureIs, PreAt, T, Offsets;
      Descend(level, i, h, newOff, newOff2, len, count, nc, c, child);
    }

    /** Descend leaves this level's tid lists alone, the one under construction included. */
    method DescendKeeps(level: nat, ghost i: nat, h: Level, newOff: nat, newOff2: nat, len: nat, count: nat,
                        ghost cs: CloseItemset, nc: CloseItemset, ghost c: Content, ghost child: Content)
      requires Valid() && i < len == |c.posts| && count == |child.posts| > 0 && level + 2 < levels.Length &&
               level < store.tids.Length0
      requires Offsets(levels[level + 1], newOff, h.postOff + len) && levels[level + 2].preOff == newOff2 &&
               h.preLen == |c.pre|
      requires StackFits(level, h, newOff, c, i) && NextRegion(level, newOff, newOff2, c, i)
      requires Deeper(c, i, child)
      requires Ready(level + 1, Level(nc, count, |c.pre|, newOff, h.postOff + len), nc, child) && c.items < child.items
      requires BoundsAt(h.preOff, c.preInc) && PostAt(h.postOff, c.posts) && h.preOff + |c.preInc| <= newOff
      requires store.Holds(cs.head, cs.tail, T(c.X())) && Below(cs.head, level) && Below(cs.tail, level) &&
               Reusable(level, cs, nc, c, i + 1)
      modifies closure, preList, preIncl, post, levels, store.tids, `out
      ensures out == old(out) + Report(child, 0, count)
      ensures ClosureIs(child.items) && PreAt(child.pre)
      ensures Kept(level + 1, newOff, h.postOff + len)
      ensures Offsets(levels[level + 1], newOff, h.postOff + len) && levels[level + 2].preOff == newOff2
      ensures BoundsAt(h.preOff, c.preInc) && PostAt(h.postOff, c.posts)
      ensures store.Holds(cs.head, cs.tail, T(c.X())) && Reusable(level, cs, nc, c, i + 1)
      decreases |c.posts|, 3
    {
      hide Ready, StackFits, Report, ClosureIs, PreAt, T, Offsets, BoundsAt, PostAt;
      DescendLists(level, i, h, newOff, newOff2, len, count, nc, c, child);
      assert forall w: nat :: w < store.data.size ==> store.tids[level, w] == old(store.tids[level, w]);
      assert forall w: nat :: w < store.data.head ==> store.At(cs.head, w) == old(store.At(cs.head, w));
      assert forall w: nat :: store.data.head <= w < store.data.size ==>
               store.At(cs.tail, w) == old(store.At(cs.tail, w));
    }

    lemma SpawnFacts(level: nat, h: Level, newOff: nat, nc: CloseItemset, c: Content, i: nat, child: Content)
      requires Valid() && i < |c.posts| && Spawns(level, h.postOff, newOff, nc, c, i, child)
      ensures nc.lung == |child.items| && ClosureIs(child.items) && c.items < child.items
      ensures Deeper(c, i, child) && child.pre == c.pre
      ensures Ready(level + 1, Level(nc, |child.posts|, |c.pre|, newOff, h.postOff + |c.posts|), nc, child)
    {
      hide Sound, T, Elems, Produced, Supp, PreAt, BoundsAt, PostAt, TidStore.Holds;
    }

    // -------------------------------------------------------------------------------------
    // One turn of the loop, and the loop
    // -------------------------------------------------------------------------------------

    /** child is the level below generator i, c' this level after it. */
    ghost predicate Follows(c: Content, i: nat, child: Content, c': Content)
      requires i < |c.posts|
    {
      && c'.pre == c.pre + [c.posts[i].id] && child.pre == c.pre
      && child.X() == Produced(db, c.X(), Ids(c.posts), i) && Ids(child.posts) == Left(db, c.X(), Ids(c.posts), i)
    }

    /** What a generator adds to the report. */
    lemma ReportStep(c: Content, i: nat, ub: nat, child: Content, c': Content)
      requires i < ub <= |c.posts| && c'.items == c.items && c'.posts == c.posts
      ensures Covered(db, min, c.X(), Elems(c.pre), c.posts[i].id) ==> Report(c, i, ub) == Report(c, i + 1, ub)
      ensures (!Covered(db, min, c.X(), Elems(c.pre), c.posts[i].id) && Follows(c, i, child, c')) ==>
                Report(c, i, ub) == Printed([Found(child.X(), Supp(db, c.X() + {c.posts[i].id}))])
                                  + Report(child, 0, |child.posts|) + Report(c', i + 1, ub)
    {
      hide Covered, Produced, Left, Supp;
      var x, pre, ids, p := c.X(), Elems(c.pre), Ids(c.posts), c.posts[i].id;
      ElemsSnoc(c.pre, p);
      if Covered(db, min, x, pre, p) {
        var rest := Walk(db, min, x, pre, ids, i + 1, ub);
        assert ([Rejected(db, min, x, p)] + rest)[1..] == rest;
      } else if Follows(c, i, child, c') {
        var head, below, next := [Found(child.X(), Supp(db, x + {p}))],
            Walk(db, min, child.X(), pre, Ids(child.posts), 0, |child.posts|),
            Walk(db, min, x, pre + {p}, ids, i + 1, ub);
        PrintedConcat(head + below, next);
        PrintedConcat(head, below);
      }
    }

    /** Generator i joins the pre-list. */
    method Append(level: nat, ghost i: nat, h: Level, newOff: nat, newOff2: nat, id: nat, ghost cs: CloseItemset,
                  ghost nc: CloseItemset, ghost c: Content)
      returns (h': Level, ghost c': Content)
      requires Valid() && i < |c.posts| && id == c.posts[i].id && Loop(level, i + 1, h, newOff, newOff2, cs, nc, c)
      requires StackFits(level, h, newOff, c, i) && NextRegion(level, newOff, newOff2, c, i)
      modifies preList, preIncl, levels
      ensures h' == h.(preLen := h.preLen + 1) && levels[level] == h'
      ensures c' == Content(c.base, c.items, c.pre + [id], c.preInc + [0], c.posts)
      ensures Loop(level, i + 1, h', newOff, newOff2, cs, nc, c')
      ensures Kept(level, h.preOff, h.postOff + |c.posts|)
    {
      hide Valid, Loop, Ready, Reusable, Sound, T, StackFits, NextRegion, TidStore.Holds, TidStore.Valid,
          TidStore.Stored, Below,
           PreAt, BoundsAt, PostAt, ClosureIs, Offsets;
      LoopLevels(level, i + 1, h, newOff, newOff2, cs, nc, c);
      LoopLists(level, i + 1, h, newOff, newOff2, cs, nc, c);
      LoopHolds(level, i + 1, h, newOff, newOff2, cs, nc, c);
      AppendSound(cs, c, i);
      AppendRoom(level, h, newOff, c, i);
      h' := h.(preLen := h.preLen + 1);
      c' := Content(c.base, c.items, c.pre + [id], c.preInc + [0], c.posts);
      AppendEntries(level, h, id, c.items, c.pre, c.preInc, newOff, newOff2, h.postOff + |c.posts|);
      ReusableItems(level, cs, nc, c, c', i + 1);
      AppendFits(level, h, newOff, newOff2, c, i, h', c');
      LoopAgain(level, i + 1, h', newOff, newOff2, cs, nc, c');
    }

    method AppendEntries(level: nat, h: Level, id: nat, ghost items: seq<nat>, ghost pre: seq<nat>, ghost inc: seq<nat>,
                         ghost newOff: nat, ghost newOff2: nat, ghost end: nat)
      requires Valid() && level + 2 < levels.Length && h.preLen == |pre| == |inc| < preList.Length
      requires h.preOff + h.preLen < preIncl.Length && PreAt(pre) && BoundsAt(h.preOff, inc) && ClosureIs(items)
      requires Offsets(levels[level + 1], newOff, end) && levels[level + 2].preOff == newOff2
      modifies preList, preIncl, levels
      ensures levels[level] == h.(preLen := h.preLen + 1)
      ensures Offsets(levels[level + 1], newOff, end) && levels[level + 2].preOff == newOff2
      ensures PreAt(pre + [id]) && BoundsAt(h.preOff, inc + [0]) && ClosureIs(items)
      ensures forall k :: 0 <= k < level ==> levels[k] == old(levels[k])
      ensures forall k :: 0 <= k < h.preOff ==> preIncl[k] == old(preIncl[k])
    {
      hide T, TidStore.Valid;
      preList[h.preLen] := id;
      preIncl[h.preOff + h.preLen] := 0;
      levels[level] := h.(preLen := h.preLen + 1);
    }

    lemma ReusableItems(level: nat, cs: CloseItemset, nc: CloseItemset, c: Content, c': Content, i: nat)
      requires Valid() && level < store.tids.Length0 && i <= |c.posts| && c'.items == c.items && c'.posts == c.posts
      requires Reusable(level, cs, nc, c, i)
      ensures Reusable(level, cs, nc, c', i)
    {
    }

    lemma AppendSound(cs: CloseItemset, c: Content, i: nat)
      requires Valid() && Sound(cs, c) && i < |c.posts|
      ensures Sound(cs, Content(c.base, c.items, c.pre + [c.posts[i].id], c.preInc + [0], c.posts))
      ensures |c.preInc| == |c.pre|
    {
      hide T, TidStore.SeOk, TidStore.CountOk;
      assert PostOk(cs, c.X(), c.posts[i]);
      assert PreOk(c.X(), c.posts[i].id, 0);
    }

    lemma AppendRoom(level: nat, h: Level, newOff: nat, c: Content, i: nat)
      requires Valid() && StackFits(level, h, newOff, c, i) && i < |c.posts|
      ensures |c.pre| < preList.Length && h.preOff + |c.pre| < newOff <= preIncl.Length && level < levels.Length
    {
      StackHasRoom(level, h, newOff, c, i);
    }

    lemma AppendFits(level: nat, h: Level, newOff: nat, newOff2: nat, c: Content, i: nat, h': Level, c': Content)
      requires StackFits(level, h, newOff, c, i) && i < |c.posts| && Offsets(h', h.preOff, h.postOff)
      requires NextRegion(level, newOff, newOff2, c, i)
      requires c'.base == c.base && c'.items == c.items && c'.posts == c.posts && |c'.pre| == |c.pre| + 1
      ensures StackFits(level, h', newOff, c', i + 1) && NextRegion(level, newOff, newOff2, c', i + 1)
    {
    }

    /** One turn of Mine's loop: generator i, its recursive call, and its place in the pre-list. */
    method Turn(level: nat, i: nat, h: Level, newOff: nat, newOff2: nat, len: nat, cs: CloseItemset,
                nc: CloseItemset, ghost c: Content)
      returns (h': Level, cs': CloseItemset, nc': CloseItemset, ghost c': Content)
      requires Valid() && Loop(level, i, h, newOff, newOff2, cs, nc, c) && i < len == |c.posts|
      modifies closure, preList, preIncl, post, levels, store.tids, `out
      ensures Loop(level, i + 1, h', newOff, newOff2, cs', nc', c')
      ensures c'.items == c.items && c'.posts == c.posts && c.pre <= c'.pre
      ensures forall ub :: i < ub <= len ==> out + Report(c', i + 1, ub) == old(out) + Report(c, i, ub)
      ensures Offsets(h', h.preOff, h.postOff) && h'.ub == h.ub && level < levels.Length && levels[level] == h'
      ensures Kept(level, h.preOff, h.postOff + len)
      decreases |c.posts|, 5
    {
      hide Loop, Ready, Reusable, Sound, T, StackFits, Spawns, Report, Covered, Supp, Elems, Produced, Left;
      LoopLevels(level, i, h, newOff, newOff2, cs, nc, c);
      var good, count;
      ghost var child;
      good, h', cs', nc', count, child := Attempt(level, i, h, newOff, newOff2, len, cs, nc, c);
      c' := c;
      if good {
        SameOffsets(level, h, h', newOff, c, i);
        SpawnSets(level, h.postOff, newOff, nc', c, i, child);
        Recurse(level, i, h', newOff, newOff2, len, count, cs', nc', c, child);
        LoopPost(level, i, h', newOff, newOff2, cs', nc', c);
        h', c' := Append(level, i, h', newOff, newOff2, post[h.postOff + i].id, cs', nc', c);
      }
      forall ub | i < ub <= len ensures out + Report(c', i + 1, ub) == old(out) + Report(c, i, ub) {
        ReportStep(c, i, ub, child, c');
      }
    }

    lemma SameOffsets(level: nat, h: Level, h': Level, newOff: nat, c: Content, i: nat)
      requires StackFits(level, h, newOff, c, i) && Offsets(h', h.preOff, h.postOff)
      ensures StackFits(level, h', newOff, c, i)
    {
    }

    lemma SpawnSets(level: nat, postOff: nat, newOff: nat, nc: CloseItemset, c: Content, i: nat, child: Content)
      requires Valid() && i < |c.posts| && Spawns(level, postOff, newOff, nc, c, i, child)
      ensures child.X() == Produced(db, c.X(), Ids(c.posts), i) && Ids(child.posts) == Left(db, c.X(), Ids(c.posts), i)
      ensures child.pre == c.pre && nc.count == Supp(db, c.X() + {c.posts[i].id})
    {
      hide Sound, T, Elems, Produced, Left, Supp, Buffers;
    }

    lemma LoopPost(level: nat, i: nat, h: Level, newOff: nat, newOff2: nat, cs: CloseItemset, nc: CloseItemset,
                   c: Content)
      requires Valid() && i < |c.posts| && Loop(level, i + 1, h, newOff, newOff2, cs, nc, c)
      ensures h.postOff + i < post.Length && post[h.postOff + i] == c.posts[i]
    {
      hide Sound, T, TidStore.Holds, Reusable, BoundsAt, PreAt, ClosureIs, StackFits;
    }

    /** Mine: the closed sets below the one of a level, as the walk of its frame reports them. The bound
        is tested after a generator, so the first one is always processed. */
    method Mine(level: nat, ghost c: Content)
      requires Valid() && level < levels.Length && Entry(level, c, levels[level].ub)
      modifies closure, preList, preIncl, post, levels, store.tids, `out
      ensures out == old(out) + Report(c, 0, AtLeastOne(old(levels[level].ub)))
      ensures ClosureIs(c.items) && PreAt(c.pre)
      ensures Kept(level, old(levels[level].preOff), old(levels[level].postOff) + |c.posts|)
      ensures Offsets(levels[level], old(levels[level].preOff), old(levels[level].postOff))
      ensures Offsets(levels[level + 1], old(levels[level + 1].preOff), old(levels[level + 1].postOff))
      decreases |c.posts|, 6
    {
      hide Loop, Ready, Reusable, Sound, T, StackFits, Report, ClosureIs, PreAt, Entry;
      var h, newOff, newOff2, len, cs, nc := Begin(level, c);
      ghost var ci, end := c, AtLeastOne(h.ub);
      var i := 0;
      while true
        invariant 0 <= i < end <= len == |c.posts| && end == AtLeastOne(h.ub)
        invariant Loop(level, i, h, newOff, newOff2, cs, nc, ci) && ci.items == c.items && ci.posts == c.posts &&
                  c.pre <= ci.pre
        invariant out + Report(ci, i, end) == old(out) + Report(c, 0, end)
        invariant h.ub == old(levels[level].ub) && Offsets(h, old(levels[level].preOff), old(levels[level].postOff))
        invariant newOff == old(levels[level + 1].preOff) && h.postOff + len == old(levels[level + 1].postOff)
        invariant Kept(level, h.preOff, h.postOff + len) && levels[level] == h
        decreases len - i
      {
        h, cs, nc, ci := Turn(level, i, h, newOff, newOff2, len, cs, nc, ci);
        i := i + 1;
        if i >= h.ub { break; }
      }
      LoopLevels(level, i, h, newOff, newOff2, cs, nc, ci);
      Done(level, i, h, newOff, newOff2, cs, nc, ci, c);
    }

    lemma Done(level: nat, i: nat, h: Level, newOff: nat, newOff2: nat, cs: CloseItemset, nc: CloseItemset,
               ci: Content, c: Content)
      requires Valid() && Loop(level, i, h, newOff, newOff2, cs, nc, ci) && ci.items == c.items && c.pre <= ci.pre &&
               i <= |ci.posts|
      ensures ClosureIs(c.items) && PreAt(c.pre) && Report(ci, i, i) == []
    {
      LoopLists(level, i, h, newOff, newOff2, cs, nc, ci);
    }

    /** The local variables of Mine, and the pre-list region of the level after the next. */
    method Begin(level: nat, ghost c: Content)
      returns (h: Level, newOff: nat, newOff2: nat, len: nat, cs: CloseItemset, nc: CloseItemset)
      requires Valid() && level < levels.Length && Entry(level, c, levels[level].ub)
      modifies levels
      ensures level + 1 < levels.Length && h == old(levels[level]) && newOff == old(levels[level + 1].preOff)
      ensures levels[level] == h && h.postOff + len == old(levels[level + 1].postOff)
      ensures forall k :: 0 <= k < level ==> levels[k] == old(levels[k])
      ensures h.ub <= len == |c.posts| && len > 0
      ensures Loop(level, 0, h, newOff, newOff2, cs, nc, c)
    {
      hide T, TidStore.Holds, PostAt, BoundsAt, PreAt, ClosureIs;
      h := levels[level];
      newOff := levels[level + 1].preOff;
      len := levels[level + 1].postOff - h.postOff;
      newOff2 := newOff + len + h.preLen;
      levels[level + 2] := levels[level + 2].(preOff := newOff2);
      cs := h.closed;
      nc := levels[level + 1].closed.(head := Slot(level), tail := Slot(level), incl := cs.incl);
      StackHasRoom(level, h, newOff, c, 0);
    }

    // -------------------------------------------------------------------------------------
    // The jobs of the policies
    // -------------------------------------------------------------------------------------

    /** The post-list of all items from lo on. */
    ghost function From(lo: nat): (r: seq<PostItem>)
      requires lo <= n
      ensures |r| == n - lo && forall k :: 0 <= k < |r| ==> r[k] == PostItem(lo + k, 0)
      ensures Ids(r) == Items(lo, n)
    {
      var r := seq(n - lo, k requires 0 <= k < n - lo => PostItem(lo + k, 0));
      assert Ids(r) == Items(lo, n);
      r
    }

    /** One_Thread: f is the closed set, earlier items the pre-list, later ones the post-list. */
    ghost function Job(f: nat): Content
      requires f < n
    {
      Content(0, [f], Items(0, f), seq(f, _ => 0), From(f + 1))
    }

    /** SP_DA_2 and SP_SA_2: of the items before s all but f are in the pre-list. */
    ghost function Pair(f: nat, s: nat): Content
      requires f < s < n
    {
      Content(0, [f], Items(0, f) + Items(f + 1, s), seq(s - 1, _ => 0), From(s))
    }

    /** Simplest and DP_DA_2: the empty set at level 1, with all items to come. */
    ghost function Whole(): Content {
      Content(1, [], [], [], From(0))
    }

    lemma JobWalk(f: nat)
      requires f < n
      ensures Report(Job(f), 0, n - f - 1) == Printed(SingleJob(db, n, min, f))
    {
      assert Job(f).X() == {f};
    }

    lemma PairWalk(f: nat, s: nat)
      requires f < s < n
      ensures Report(Pair(f, s), 0, 1) == Printed(PairJob(db, n, min, f, s))
    {
      assert Pair(f, s).X() == {f};
      assert Elems(Items(0, f) + Items(f + 1, s)) == Elems(Items(0, s)) - {f};
    }

    lemma WholeWalk(ub: nat)
      requires n >= 1
      ensures Report(Whole(), 0, AtLeastOne(Clip(ub, n))) == Printed(WholeJob(db, n, min, ub))
    {
      assert Whole().X() == {} && Elems([]) == {};
    }

    /** A job that extends a single item starts with true caches. */
    lemma JobSound(f: nat, lo: nat, cs: CloseItemset, c: Content)
      requires Valid() && f < lo <= n && cs.head == Row(f) && cs.incl == store.data.InSE(f)
      requires cs.incl ==> cs.headBits == Bits(store.data.rows[store.data.startSE], 0, store.data.head)
      requires cs.seBytes == cs.oldBits == cs.bits == cs.oldMin == cs.min == 0
      requires c.items == [f] && c.posts == From(lo) && |c.preInc| == |c.pre|
      requires forall k: nat :: k < |c.pre| ==> c.pre[k] < n && c.preInc[k] == 0
      ensures Sound(cs, c)
    {
      assert c.X() == {f} && T(c.X()) == store.data.rows[f];
      if cs.incl { BitsSame(store.data.rows[f], store.data.rows[store.data.startSE], 0, store.data.head); }
      hide Tids, T;
      assert forall k :: 0 <= k < |c.posts| ==> PostOk(cs, c.X(), c.posts[k]);
    }

    lemma WholeSound(cs: CloseItemset)
      requires Valid() && !cs.incl && cs.seBytes == cs.oldBits == cs.bits == cs.oldMin == cs.min == 0
      ensures Sound(cs, Whole())
    {
      var c := Whole();
      hide Tids, T;
      assert forall k :: 0 <= k < |c.posts| ==> PostOk(cs, c.X(), c.posts[k]);
    }

    /** Every job fits into the buffers. */
    lemma JobFits(h: Level, c: Content)
      requires Valid() && h.preOff == 0 && h.postOff == 0 && c.base <= 1
      requires |c.pre| + |c.posts| <= n && |c.items| + |c.posts| <= n
      ensures StackFits(c.base, h, n, c, 0)
    {
      TriMonotone(|c.posts| + 1, n + 1);
    }

    lemma JobRoom()
      requires Valid() && n > 0
      ensures n <= post.Length && n <= preIncl.Length
    {
      MulGrows(1, n, n);
      assert Tri(n + 1) == Tri(n) + n;
    }

    lemma JobHolds(f: nat, x: set<nat>)
      requires Valid() && f < n && x == {f}
      ensures store.Holds(Row(f), Row(f), T(x))
    {
      hide Tids;
    }

    /** The bounds of the pre-list, all zero. */
    method ClearBounds()
      requires Valid()
      modifies preIncl
      ensures forall k: nat :: k < n && k < preIncl.Length ==> preIncl[k] == 0
    {
      if n == 0 { return; }
      JobRoom();
      var k := 0;
      while k < n
        invariant k <= n && forall j: nat :: j < k ==> preIncl[j] == 0
      {
        preIncl[k] := 0;
        k := k + 1;
      }
    }

    /** The post-list from item lo on. */
    method FillPost(lo: nat) returns (l: nat)
      requires Valid() && lo <= n
      modifies post
      ensures PostAt(0, From(lo)) && l == n - lo
    {
      if n > 0 { JobRoom(); }
      hide T;
      var i := lo;
      l := 0;
      while i < n
        invariant l == i - lo && lo <= i <= n && forall j: nat :: j < l ==> post[j] == PostItem(lo + j, 0)
      {
        post[l] := PostItem(i, 0);
        i, l := i + 1, l + 1;
      }
    }

    /** The pre-list of the items before s, f excepted. */
    method FillPre(f: nat, s: nat) returns (l: nat)
      requires Valid() && f < n && s <= n
      modifies preList
      ensures s <= f ==> PreAt(Items(0, s)) && l == s
      ensures f < s ==> PreAt(Items(0, f) + Items(f + 1, s)) && l == s - 1
    {
      var i := 0;
      l := 0;
      while i < s
        invariant i <= s && l == if f < i then i - 1 else i
        invariant forall j: nat :: j < l ==> preList[j] == if j < f then j else j + 1
      {
        if i != f {
          preList[l] := i;
          l := l + 1;
        }
        i := i + 1;
      }
    }

    /** The closed set of a job that extends item f. */
    method FirstItem(f: nat) returns (cs: CloseItemset)
      requires Valid() && f < n
      modifies closure
      ensures ClosureIs([f]) && cs.lung == 1
      ensures cs.head == cs.tail == Row(f) && cs.incl == store.data.InSE(f)
      ensures cs.incl ==> cs.headBits == Bits(store.data.rows[store.data.startSE], 0, store.data.head)
      ensures cs.seBytes == cs.oldBits == cs.bits == cs.oldMin == cs.min == 0
    {
      var se := store.data.InSE(f);
      cs := CloseItemset(1, 0, Row(f), Row(f), se, if se then store.data.seBits else 0, 0, 0, 0, 0, 0);
      closure[0] := f;
    }

    /** LEVEL_* entries of the first level of a job. */
    method SetLevels(level: nat, cs: CloseItemset, ub: nat, preLen: nat, len: nat)
      requires Valid() && level <= 1
      modifies levels
      ensures levels[level] == Level(cs, ub, preLen, 0, 0) && Offsets(levels[level + 1], n, len)
    {
      levels[level] := Level(cs, ub, preLen, 0, 0);
      levels[level + 1] := levels[level + 1].(preOff := n, postOff := len);
    }

    /** What makes a job of the lists in the buffers. */
    lemma JobEntry(c: Content, ub: nat)
      requires Valid() && c.base <= 1 && Offsets(levels[c.base], 0, 0) && Offsets(levels[c.base + 1], n, |c.posts|)
      requires ub <= |c.posts| && c.posts != [] && levels[c.base].ub == ub && levels[c.base].preLen == |c.pre|
      requires |c.pre| + |c.posts| <= n && |c.items| + |c.posts| <= n
      requires ClosureIs(c.items) && PreAt(c.pre) && BoundsAt(0, c.preInc) && PostAt(0, c.posts)
      requires Sound(levels[c.base].closed, c) && levels[c.base].closed.lung == |c.items|
      requires store.Holds(levels[c.base].closed.head, levels[c.base].closed.tail, T(c.X()))
      requires Below(levels[c.base].closed.head, c.base) && Below(levels[c.base].closed.tail, c.base)
      ensures Entry(c.base, c, ub)
    {
      hide T, Sound, TidStore.Holds, PreAt, BoundsAt, PostAt, ClosureIs;
      JobFits(levels[c.base], c);
    }

    /** get_job of One_Thread. */
    method GetJob(f: nat)
      requires Valid() && f + 1 < n
      modifies closure, preList, preIncl, post, levels
      ensures levels.Length > 0 && Entry(0, Job(f), levels[0].ub) && levels[0].ub == n - f - 1
    {
      hide T, Sound, StackFits, TidStore.Holds, TidStore.Valid, Vertical.InSE, Entry, PostAt, PreAt, ClosureIs;
      JobRoom();
      var cs := FirstItem(f);
      var preLen := FillPre(f, f);
      ClearBounds();
      var len := FillPost(f + 1);
      SetLevels(0, cs, len, preLen, len);
      JobSound(f, f + 1, cs, Job(f));
      JobHolds(f, Job(f).X());
      JobEntry(Job(f), len);
    }

    /** get_job of SP_DA_2 and SP_SA_2. */
    method GetPairJob(f: nat, s: nat)
      requires Valid() && f < s < n
      modifies closure, preList, preIncl, post, levels
      ensures levels.Length > 0 && Entry(0, Pair(f, s), levels[0].ub) && levels[0].ub == 1
    {
      hide T, Sound, StackFits, TidStore.Holds, TidStore.Valid, Vertical.InSE, Entry, PostAt, PreAt, ClosureIs;
      JobRoom();
      var cs := FirstItem(f);
      var preLen := FillPre(f, s);
      ClearBounds();
      var len := FillPost(s);
      SetLevels(0, cs, 1, preLen, len);
      JobSound(f, s, cs, Pair(f, s));
      JobHolds(f, Pair(f, s).X());
      JobEntry(Pair(f, s), 1);
    }

    /** get_job of Simplest, and the first of DP_DA_2: list 0 is all ones. */
    method GetWholeJob(ub: nat)
      requires Valid() && n >= 1
      modifies closure, preList, preIncl, post, levels, store.tids
      ensures levels.Length > 1 && Entry(1, Whole(), levels[1].ub) && levels[1].ub == Clip(ub, n)
    {
      JobRoom();
      hide Sound, StackFits;
      var cs := CloseItemset(0, 0, Slot(0), Slot(0), false, 0, 0, 0, 0, 0, 0);
      FillOnes();
      ClearBounds();
      var len := FillPost(0);
      SetLevels(1, cs, if ub > n then n else ub, 0, len);
      assert Whole().X() == {};
      WholeSound(cs);
      JobEntry(Whole(), Clip(ub, n));
    }

    method FillOnes()
      requires Valid()
      modifies store.tids
      ensures forall w: nat :: w < store.data.size ==> store.tids[0, w] == FullWord(w)
    {
      for w := 0 to store.data.size
        invariant forall v: nat :: v < w ==> store.tids[0, v] == FullWord(v)
      {
        store.tids[0, w] := FullWord(w);
      }
    }

    method MineItem(f: nat)
      requires Valid() && f + 1 < n
      modifies closure, preList, preIncl, post, levels, store.tids, `out
      ensures out == old(out) + Printed(SingleJob(db, n, min, f))
    {
      GetJob(f);
      JobWalk(f);
      Mine(0, Job(f));
    }

    method MinePair(f: nat, s: nat)
      requires Valid() && f < s < n
      modifies closure, preList, preIncl, post, levels, store.tids, `out
      ensures out == old(out) + Printed(PairJob(db, n, min, f, s))
    {
      GetPairJob(f, s);
      PairWalk(f, s);
      Mine(0, Pair(f, s));
    }

    /** The run of Simplest. */
    method RunWhole(ub: nat)
      requires Valid() && n >= 1 && out == []
      modifies closure, preList, preIncl, post, levels, store.tids, `out
      ensures forall c, s :: multiset(out)[Found(c, s)]
                == if Target(db, n, min, AtLeastOne(ub), c) && |c| >= 2 && s == Supp(db, c) then 1 else 0
    {
      GetWholeJob(ub);
      WholeWalk(ub);
      Mine(1, Whole());
      forall c, s ensures multiset(out)[Found(c, s)]
                == if Target(db, n, min, AtLeastOne(ub), c) && |c| >= 2 && s == Supp(db, c) then 1 else 0
      {
        hide Printed, WholeJob, Target, Supp;
        PrintedCount(WholeJob(db, n, min, ub), Found(c, s));
        WholeJobExact(db, n, min, ub, c, s);
      }
    }

    /** The output of the jobs of the items below k. */
    ghost function Written(k: nat): seq<Event>
      requires k <= n
    {
      if k == 0 then [] else Written(k - 1) + Printed(SingleJob(db, n, min, k - 1))
    }

    lemma {:induction false} WrittenCount(k: nat, e: Event)
      requires k <= n && IsPrinted(e)
      ensures multiset(Written(k))[e] == SingleRun(db, n, min, k)[e]
    {
      hide SingleJob, Printed, IsPrinted;
      if k > 0 {
        WrittenCount(k - 1, e);
        PrintedCount(SingleJob(db, n, min, k - 1), e);
      }
    }

    lemma {:induction false} WrittenNothing(k: nat, e: Event)
      requires k <= n && !IsPrinted(e)
      ensures multiset(Written(k))[e] == 0
    {
      hide SingleJob, Printed, IsPrinted;
      if k > 0 {
        WrittenNothing(k - 1, e);
        PrintedCount(SingleJob(db, n, min, k - 1), e);
      }
    }

    /** The sequential run: one job per item below ub, in order. It writes every frequent closed set of
        two or more items whose smallest item is below ub exactly once, with its support. */
    method Run(ub: nat)
      requires Valid() && n >= 1 && out == []
      modifies closure, preList, preIncl, post, levels, store.tids, `out
      ensures forall c, s :: multiset(out)[Found(c, s)]
                == if Target(db, n, min, ub, c) && |c| >= 2 && s == Supp(db, c) then 1 else 0
    {
      hide Printed, SingleJob, SingleRun, Target, Supp;
      var current, max := 0, if ub > n - 1 then n - 1 else ub;
      while current < max
        invariant current <= max && out == Written(current)
      {
        MineItem(current);
        current := current + 1;
      }
      forall c, s ensures multiset(out)[Found(c, s)]
                == if Target(db, n, min, ub, c) && |c| >= 2 && s == Supp(db, c) then 1 else 0
      {
        if |c| >= 2 { WrittenCount(max, Found(c, s)); } else { WrittenNothing(max, Found(c, s)); }
        SingleRunExact(db, n, min, ub, c, s);
      }
    }

    ghost function PairsWritten(jobs: seq<(nat, nat)>, k: nat): seq<Event>
      requires k <= |jobs| && forall j :: j in jobs ==> j.0 < j.1 < n
    {
      if k == 0 then []
      else PairsWritten(jobs, k - 1) + Printed(PairJob(db, n, min, jobs[k - 1].0, jobs[k - 1].1))
    }

    lemma {:induction false} PairsWrittenCount(jobs: seq<(nat, nat)>, k: nat, e: Event)
      requires k <= |jobs| && forall j :: j in jobs ==> j.0 < j.1 < n
      ensures multiset(PairsWritten(jobs, k))[e] == if IsPrinted(e) then PairRun(db, n, min, jobs[..k])[e] else 0
    {
      hide PairJob, Printed, IsPrinted, PairRun;
      if k > 0 {
        var j := jobs[k - 1];
        PairsWrittenCount(jobs, k - 1, e);
        PrintedCount(PairJob(db, n, min, j.0, j.1), e);
        PairRunSnoc(db, n, min, jobs[..k - 1], j);
        assert jobs[..k] == jobs[..k - 1] + [j];
      } else {
        NoPairs();
      }
    }

    lemma NoPairs()
      ensures PairRun(db, n, min, []) == multiset{}
    {
    }

    /** Any pairs, in any order: together the jobs write the closed sets whose two smallest items are one
        of the pairs. */
    method RunPairs(jobs: seq<(nat, nat)>)
      requires Valid() && out == [] && forall j :: j in jobs ==> j.0 < j.1 < n
      requires NoRepeat(jobs)
      modifies closure, preList, preIncl, post, levels, store.tids, `out
      ensures forall c, s :: multiset(out)[Found(c, s)]
                == if IsClosed(db, n, c) && Supp(db, c) >= min && s == Supp(db, c) &&
                    SmallestAmong(c, jobs) then 1 else 0
    {
      hide Valid, Printed, PairJob, PairRun, Supp, IsClosed, SmallestAmong, SmallestTwo;
      var k := 0;
      while k < |jobs|
        invariant k <= |jobs| && out == PairsWritten(jobs, k)
      {
        MinePair(jobs[k].0, jobs[k].1);
        k := k + 1;
      }
      forall c, s ensures multiset(out)[Found(c, s)]
                == if IsClosed(db, n, c) && Supp(db, c) >= min && s == Supp(db, c) &&
                    SmallestAmong(c, jobs) then 1 else 0
      {
        assert jobs[..|jobs|] == jobs;
        PairsWrittenCount(jobs, |jobs|, Found(c, s));
        PairRunCount(db, n, min, jobs, c, s);
        if SmallestAmong(c, jobs) { AmongSize(c, jobs); }
      }
    }
  }
}
