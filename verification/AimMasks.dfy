/** Bit masks of AIM as sets of bit positions, the coordinate space they live in, and the compression
    that Project performs. */
module AimMasks {
  import opened ClosedSets

  type Mask = set<nat>

  /** Number of bits of h below position p: the place of bit p after compression onto h. */
  function Rank(h: Mask, p: nat): nat {
    |set q | q in h && q < p|
  }

  /** The bits of m at the one bits of h, pushed together. */
  function Project(m: Mask, h: Mask): Mask {
    set p | p in m && p in h :: Rank(h, p)
  }

  /** space[p] is the transaction that bit p stands for. */
  ghost predicate IsSpace(space: seq<nat>) {
    forall a, b :: 0 <= a < b < |space| ==> space[a] < space[b]
  }

  /** m is the set of the transactions s, in the coordinates of space. */
  ghost predicate Repr(space: seq<nat>, m: Mask, s: set<nat>) {
    && (forall p :: p in m ==> p < |space|)
    && (forall p: nat :: p < |space| ==> (p in m <==> space[p] in s))
    && (forall t :: t in s ==> t in space)
  }

  lemma {:induction false} RankStep(h: Mask, p: nat)
    ensures Rank(h, p + 1) == Rank(h, p) + if p in h then 1 else 0
  {
    var below, upto := set q | q in h && q < p, set q | q in h && q < p + 1;
    assert upto == below + if p in h then {p} else {};
  }

  lemma RankMonotone(h: Mask, p: nat, q: nat)
    requires p <= q
    ensures Rank(h, p) <= Rank(h, q)
    ensures p in h && p < q ==> Rank(h, p) < Rank(h, q)
    decreases q - p
  {
    if p < q {
      RankStep(h, p);
      RankMonotone(h, p + 1, q);
    }
  }

  /** Positions of h become distinct, consecutive positions. */
  lemma RankInjective(h: Mask, p: nat, q: nat)
    requires p in h && q in h
    ensures Rank(h, p) == Rank(h, q) <==> p == q
  {
    if p < q { RankMonotone(h, p, q); }
    if q < p { RankMonotone(h, q, p); }
  }

  lemma RankBound(h: Mask, p: nat)
    ensures Rank(h, p) <= |h|
    ensures p in h ==> Rank(h, p) < |h|
  {
    SubsetCard((set q | q in h && q < p), h);
    if p in h {
      SubsetCard((set q | q in h && q < p), h - {p});
      assert |h - {p}| == |h| - 1;
    }
  }

  /** The coordinate space after compression onto h: the transactions of the one bits of h, in order. */
  ghost function Compress(space: seq<nat>, h: Mask): seq<nat>
  {
    if space == [] then []
    else Compress(space[..|space| - 1], h) + if |space| - 1 in h then [space[|space| - 1]] else []
  }

  lemma {:induction false} CompressAt(space: seq<nat>, h: Mask, p: nat)
    requires p < |space| && p in h
    ensures Rank(h, p) < |Compress(space, h)| && Compress(space, h)[Rank(h, p)] == space[p]
  {
    var k := |space| - 1;
    CompressLength(space[..k], h);
    if p < k {
      CompressAt(space[..k], h, p);
    }
  }

  lemma {:induction false} CompressLength(space: seq<nat>, h: Mask)
    ensures |Compress(space, h)| == Rank(h, |space|)
  {
    if space == [] {
      assert (set q | q in h && q < 0) == {};
    } else {
      CompressLength(space[..|space| - 1], h);
      RankStep(h, |space| - 1);
    }
  }

  /** The one bit of h that ends up at place r. */
  lemma {:induction false} BitAt(space: seq<nat>, h: Mask, r: nat) returns (p: nat)
    requires r < |Compress(space, h)|
    ensures p < |space| && p in h && Rank(h, p) == r && Compress(space, h)[r] == space[p]
  {
    var k := |space| - 1;
    CompressLength(space[..k], h);
    if r < |Compress(space[..k], h)| {
      p := BitAt(space[..k], h, r);
    } else {
      p := k;
    }
  }

  lemma CompressIsSpace(space: seq<nat>, h: Mask)
    requires IsSpace(space)
    ensures IsSpace(Compress(space, h))
  {
    var c := Compress(space, h);
    forall a, b | 0 <= a < b < |c| ensures c[a] < c[b] {
      var p := BitAt(space, h, a);
      var q := BitAt(space, h, b);
      if q <= p { RankMonotone(h, q, p); }
    }
  }

  /** Counting bits counts transactions. */
  lemma {:induction false} ReprCard(space: seq<nat>, m: Mask, s: set<nat>)
    requires IsSpace(space) && Repr(space, m, s)
    ensures |m| == |s|
    decreases |m|
  {
    if m == {} {
      assert forall t :: t in s ==> t in space;
      assert s == {};
    } else {
      var p :| p in m;
      forall q: nat | q < |space| ensures q in m - {p} <==> space[q] in s - {space[p]} {
        assert q == p || space[q] != space[p] by {
          if q < p { assert space[q] < space[p]; } else if q > p { assert space[p] < space[q]; }
        }
      }
      ReprCard(space, m - {p}, s - {space[p]});
    }
  }

  lemma ReprAnd(space: seq<nat>, m1: Mask, s1: set<nat>, m2: Mask, s2: set<nat>)
    requires Repr(space, m1, s1) && Repr(space, m2, s2)
    ensures Repr(space, m1 * m2, s1 * s2)
  {
  }

  lemma ReprAndNot(space: seq<nat>, m1: Mask, s1: set<nat>, m2: Mask, s2: set<nat>)
    requires Repr(space, m1, s1) && Repr(space, m2, s2)
    ensures Repr(space, m1 - m2, s1 - s2)
  {
  }

  /** Projection intersects, in the compressed space. */
  lemma ReprProject(space: seq<nat>, m: Mask, s: set<nat>, h: Mask, sh: set<nat>)
    requires IsSpace(space) && Repr(space, m, s) && Repr(space, h, sh)
    ensures Repr(Compress(space, h), Project(m, h), s * sh)
  {
    var c, r := Compress(space, h), Project(m, h);
    forall k: nat | k < |c| ensures k in r <==> c[k] in s * sh {
      var p := BitAt(space, h, k);
      if k in r {
        var q :| q in m && q in h && Rank(h, q) == k;
        RankInjective(h, p, q);
      }
    }
    forall k | k in r ensures k < |c| {
      var q :| q in m && q in h && Rank(h, q) == k;
      CompressAt(space, h, q);
    }
    forall t | t in s * sh ensures t in c {
      assert t in space;
      var p: nat :| p < |space| && space[p] == t;
      CompressAt(space, h, p);
    }
  }
}
