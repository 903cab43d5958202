/** The simple levelwise merge of two sets of frequent itemsets: every pair of an itemset of the first and
    one of the second part is tried at each size. */
module MergeSimple {
  import opened Basics
  import opened ClosedSets
  import opened MergeSets
  import opened MergeItemsets

  /** An itemset as the script writes it: its items of the first part, then those of the second. */
  datatype Two = Two(x: seq<nat>, y: seq<nat>)

  datatype Counted = Counted(z: Two, count: nat)

  function Count(c: Setting, z: Two): nat {
    Supp(c.db, Elems(z.x) + Elems(z.y))
  }

  /** A frequent itemset of k items, split. */
  ghost predicate IsTwo(c: Setting, k: nat, z: Two) {
    && Asc(z.x) && Asc(z.y) && |z.x| > 0 && |z.y| > 0 && |z.x| + |z.y| == k
    && Elems(z.x) <= c.part1 && Elems(z.y) <= c.part2
    && Count(c, z) >= c.support
  }

  /** The given itemsets are ascending and lie in their part. */
  ghost predicate Shaped(freq: seq<Trie>, part: set<nat>) {
    forall l, i :: 0 <= l < |freq| && 0 <= i < |freq[l]| ==>
        Asc(freq[l][i]) && |freq[l][i]| == l && Elems(freq[l][i]) <= part
  }

  ghost predicate SubsetsIn(previous: set<Two>, z: Two) {
    && (forall i :: 0 <= i < |z.x| && |z.x| > 1 ==> Two(Drop(z.x, i), z.y) in previous)
    && (forall i :: 0 <= i < |z.y| && |z.y| > 1 ==> Two(z.x, Drop(z.y, i)) in previous)
  }

  /** Whether a subset that lacks one item of a part, and still has others of it, is not frequent. */
  method Pruned(previous: set<Two>, z: Two) returns (prune: bool)
    ensures prune <==> !SubsetsIn(previous, z)
  {
    prune := false;
    if |z.x| > 1 {
      for i := 0 to |z.x|
        invariant forall l :: 0 <= l < i ==> Two(Drop(z.x, l), z.y) in previous
      {
        if Two(Drop(z.x, i), z.y) !in previous {
          return true;
        }
      }
    }
    if |z.y| > 1 {
      for i := 0 to |z.y|
        invariant forall l :: 0 <= l < i ==> Two(z.x, Drop(z.y, l)) in previous
      {
        if Two(z.x, Drop(z.y, i)) !in previous {
          return true;
        }
      }
    }
  }

  /** A frequent itemset is not pruned. */
  lemma NotPruned(c: Setting, k: nat, previous: set<Two>, z: Two)
    requires (forall w :: IsTwo(c, k, w) ==> w in previous) && IsTwo(c, k + 1, z)
    ensures SubsetsIn(previous, z)
  {
    forall i | 0 <= i < |z.x| && |z.x| > 1 ensures Two(Drop(z.x, i), z.y) in previous {
      DropAsc(z.x, i);
      SuppAntitone(c.db, Elems(Drop(z.x, i)) + Elems(z.y), Elems(z.x) + Elems(z.y));
      assert IsTwo(c, k, Two(Drop(z.x, i), z.y));
    }
    forall i | 0 <= i < |z.y| && |z.y| > 1 ensures Two(z.x, Drop(z.y, i)) in previous {
      DropAsc(z.y, i);
      SuppAntitone(c.db, Elems(z.x) + Elems(Drop(z.y, i)), Elems(z.x) + Elems(z.y));
      assert IsTwo(c, k, Two(z.x, Drop(z.y, i)));
    }
  }

  /** What the script counts: an itemset of each part, none of whose subsets with items in both parts is missing. */
  ghost predicate Tried(c: Setting, k: nat, previous: set<Two>, z: Two) {
    && |z.x| > 0 && |z.y| > 0 && |z.x| + |z.y| == k + 1
    && |z.x| < |c.freq1| && z.x in c.freq1[|z.x|] && |z.y| < |c.freq2| && z.y in c.freq2[|z.y|]
    && (k >= 2 ==> SubsetsIn(previous, z))
  }

  /** All pairs of one split of k + 1 items into xlen and the rest that are not pruned. */
  method Split(c: Setting, k: nat, xlen: nat, previous: set<Two>, cands: set<Two>) returns (next: set<Two>)
    requires Shaped(c.freq1, c.part1) && Shaped(c.freq2, c.part2) && 1 <= xlen <= k
    ensures forall z :: z in next <==> z in cands || (|z.x| == xlen && Tried(c, k, previous, z))
  {
    next := cands;
    var ylen := k + 1 - xlen;
    if xlen >= |c.freq1| || ylen >= |c.freq2| {
      return;
    }
    var xs, ys := c.freq1[xlen], c.freq2[ylen];
    SplitLengths(c, xlen, ylen);
    for i := 0 to |xs|
      invariant forall z :: z in next <==> z in cands || (z.x in xs[..i] && z.y in ys && Kept(k, previous, z))
    {
      for j := 0 to |ys|
        invariant forall z :: z in next <==>
          z in cands || (z.x in xs[..i] && z.y in ys && Kept(k, previous, z))
          || (z.x == xs[i] && z.y in ys[..j] && Kept(k, previous, z))
      {
        var z := Two(xs[i], ys[j]);
        var prune := false;
        if k >= 2 {
          prune := Pruned(previous, z);
        }
        assert prune <==> !Kept(k, previous, z);
        hide Kept, Shaped, Tried;
        assert ys[..j + 1] == ys[..j] + [ys[j]];
        if !prune {
          next := next + {z};
        }
      }
      assert xs[..i + 1] == xs[..i] + [xs[i]] && ys[..|ys|] == ys;
    }
    assert xs[..|xs|] == xs;
  }

  ghost predicate Kept(k: nat, previous: set<Two>, z: Two) {
    k >= 2 ==> SubsetsIn(previous, z)
  }

  lemma SplitLengths(c: Setting, xlen: nat, ylen: nat)
    requires Shaped(c.freq1, c.part1) && Shaped(c.freq2, c.part2) && xlen < |c.freq1| && ylen < |c.freq2|
    ensures (forall x :: x in c.freq1[xlen] ==> |x| == xlen) && (forall y :: y in c.freq2[ylen] ==> |y| == ylen)
  {
  }

  /** Nothing frequent is left out. */
  lemma TwoTried(c: Setting, k: nat, previous: set<Two>, z: Two)
    requires SettingOk(c) && Roomy(c, c.freq1, c.part1) && Roomy(c, c.freq2, c.part2) && IsTwo(c, k + 1, z)
    requires k >= 2 ==> forall w :: IsTwo(c, k, w) ==> w in previous
    ensures Tried(c, k, previous, z)
  {
    hide Supp;
    FromParts(c, k + 1, z);
    if k >= 2 { NotPruned(c, k, previous, z); }
    SuppAntitone(c.db, Elems(z.x), Elems(z.x) + Elems(z.y));
    SuppAntitone(c.db, Elems(z.y), Elems(z.x) + Elems(z.y));
    assert IsPartSet(c.db, c.support, c.part1, |z.x|, z.x);
    assert IsPartSet(c.db, c.support, c.part2, |z.y|, z.y);
  }

  /** A candidate is an itemset of each part. */
  lemma TriedShape(c: Setting, k: nat, previous: set<Two>, z: Two)
    requires Shaped(c.freq1, c.part1) && Shaped(c.freq2, c.part2) && Tried(c, k, previous, z)
    ensures Asc(z.x) && Asc(z.y) && Elems(z.x) <= c.part1 && Elems(z.y) <= c.part2
  {
    hide SubsetsIn;
    var i :| 0 <= i < |c.freq1[|z.x|]| && c.freq1[|z.x|][i] == z.x;
    var j :| 0 <= j < |c.freq2[|z.y|]| && c.freq2[|z.y|][j] == z.y;
  }

  lemma FromParts(c: Setting, k: nat, z: Two)
    requires SettingOk(c) && IsTwo(c, k, z)
    ensures |z.x| < |c.freq1| ==> z.x in c.freq1[|z.x|]
    ensures |z.y| < |c.freq2| ==> z.y in c.freq2[|z.y|]
  {
    SuppAntitone(c.db, Elems(z.x), Elems(z.x) + Elems(z.y));
    SuppAntitone(c.db, Elems(z.y), Elems(z.x) + Elems(z.y));
    assert IsPartSet(c.db, c.support, c.part1, |z.x|, z.x);
    assert IsPartSet(c.db, c.support, c.part2, |z.y|, z.y);
  }

  /** freq has room for every size of frequent itemsets of its part. */
  ghost predicate Roomy(c: Setting, freq: seq<Trie>, part: set<nat>) {
    forall l: nat, z: seq<nat> :: IsPartSet(c.db, c.support, part, l, z) ==> l < |freq|
  }

  /** All candidates of a size, and no others. */
  method AllSplits(c: Setting, k: nat, previous: set<Two>) returns (cands: set<Two>)
    requires Shaped(c.freq1, c.part1) && Shaped(c.freq2, c.part2) && k >= 1
    ensures forall z :: z in cands <==> Tried(c, k, previous, z)
  {
    hide Shaped, SubsetsIn;
    cands := {};
    for xlen := 1 to k + 1
      invariant forall z :: z in cands <==> |z.x| < xlen && Tried(c, k, previous, z)
    {
      cands := Split(c, k, xlen, previous, cands);
    }
  }

  ghost predicate WrittenTwo(c: Setting, upto: nat, out: set<Counted>) {
    forall z, f :: Counted(z, f) in out <==> |z.x| + |z.y| < upto && IsTwo(c, |z.x| + |z.y|, z) && f == Count(c, z)
  }

  /** The whole script: exactly the frequent itemsets with items in both parts. */
  method Merge(c: Setting) returns (out: set<Counted>)
    requires SettingOk(c) && Shaped(c.freq1, c.part1) && Shaped(c.freq2, c.part2)
    requires Roomy(c, c.freq1, c.part1) && Roomy(c, c.freq2, c.part2)
    ensures MergedTwo(c, out)
  {
    var k: nat, previous := 2, {};
    out := {};
    while true
      invariant k >= 2 && WrittenTwo(c, k, out)
      invariant k >= 3 ==> previous != {} && forall w :: w in previous <==> IsTwo(c, k - 1, w)
      decreases |c.part1| + |c.part2| + 3 - k
    {
      if k >= 3 { SizeBound(c, k - 1, previous); }
      var cands := AllSplits(c, k - 1, previous);
      EveryTwo(c, k - 1, previous, cands);
      previous := set z | z in cands && Count(c, z) >= c.support;
      ghost var before := out;
      out := out + set z | z in previous :: Counted(z, Count(c, z));
      WrittenTwoMore(c, k, before, previous, out);
      k := k + 1;
      if previous == {} {
        NothingTwo(c, k - 1, out);
        return;
      }
    }
  }

  lemma EveryTwo(c: Setting, k: nat, previous: set<Two>, cands: set<Two>)
    requires SettingOk(c) && Shaped(c.freq1, c.part1) && Shaped(c.freq2, c.part2)
    requires Roomy(c, c.freq1, c.part1) && Roomy(c, c.freq2, c.part2)
    requires k >= 2 ==> forall w :: IsTwo(c, k, w) ==> w in previous
    requires forall z :: z in cands <==> Tried(c, k, previous, z)
    ensures forall z :: IsTwo(c, k + 1, z) <==> z in cands && Count(c, z) >= c.support
  {
    hide Roomy, SettingOk, SubsetsIn, Supp;
    forall z ensures IsTwo(c, k + 1, z) <==> z in cands && Count(c, z) >= c.support {
      if IsTwo(c, k + 1, z) { TwoTried(c, k, previous, z); }
      if z in cands { TriedShape(c, k, previous, z); }
    }
  }

  ghost predicate MergedTwo(c: Setting, out: set<Counted>) {
    forall z, f :: Counted(z, f) in out <==> IsTwo(c, |z.x| + |z.y|, z) && f == Count(c, z)
  }

  lemma WrittenTwoMore(c: Setting, k: nat, before: set<Counted>, previous: set<Two>, out: set<Counted>)
    requires WrittenTwo(c, k, before) && forall w :: w in previous <==> IsTwo(c, k, w)
    requires out == before + set z | z in previous :: Counted(z, Count(c, z))
    ensures WrittenTwo(c, k + 1, out)
  {
    forall z, f ensures Counted(z, f) in out <==>
      |z.x| + |z.y| < k + 1 && IsTwo(c, |z.x| + |z.y|, z) && f == Count(c, z)
    {
      assert z in previous ==> Counted(z, Count(c, z)) in out;
    }
  }

  lemma SizeBound(c: Setting, k: nat, previous: set<Two>)
    requires previous != {} && forall w :: w in previous ==> IsTwo(c, k, w)
    ensures k <= |c.part1| + |c.part2|
  {
    var w :| w in previous;
    AscCard(w.x);
    AscCard(w.y);
    SubsetCard(Elems(w.x), c.part1);
    SubsetCard(Elems(w.y), c.part2);
  }

  lemma {:induction false} NoneAboveTwo(c: Setting, k: nat, z: Two)
    requires k >= 2 && (forall w :: !IsTwo(c, k, w)) && |z.x| + |z.y| >= k
    ensures !IsTwo(c, |z.x| + |z.y|, z)
    decreases |z.x| + |z.y|
  {
    if |z.x| + |z.y| > k && IsTwo(c, |z.x| + |z.y|, z) {
      var w := if |z.x| > 1 then Two(Drop(z.x, 0), z.y) else Two(z.x, Drop(z.y, 0));
      if |z.x| > 1 { DropAsc(z.x, 0); } else { DropAsc(z.y, 0); }
      SuppAntitone(c.db, Elems(w.x) + Elems(w.y), Elems(z.x) + Elems(z.y));
      NoneAboveTwo(c, k, w);
    }
  }

  lemma NothingTwo(c: Setting, k: nat, out: set<Counted>)
    requires k >= 2 && WrittenTwo(c, k + 1, out) && forall w :: !IsTwo(c, k, w)
    ensures MergedTwo(c, out)
  {
    forall z: Two | |z.x| + |z.y| >= k ensures !IsTwo(c, |z.x| + |z.y|, z) { NoneAboveTwo(c, k, z); }
  }

  // ---------------------------------------------------------------------------------------
  // Agreement
  // ---------------------------------------------------------------------------------------

  /** The items e are written with frequency f. */
  ghost predicate InMerged(out: seq<Pattern>, e: set<nat>, f: nat) {
    exists z :: Pattern(z, f) in out && Elems(z) == e
  }

  ghost predicate InSimple(out: set<Counted>, e: set<nat>, f: nat) {
    exists z :: Counted(z, f) in out && Elems(z.x) + Elems(z.y) == e
  }

  /** Started at level 2, the merge writes the same itemsets with the same frequencies as the script. */
  lemma MergesAgree(c: Setting, merged: seq<Pattern>, simple: set<Counted>, e: set<nat>, f: nat)
    requires SettingOk(c) && MergedFrom(c, 2, merged) && MergedTwo(c, simple)
    ensures InMerged(merged, e, f) <==> InSimple(simple, e, f)
  {
    if InMerged(merged, e, f) {
      var z :| Pattern(z, f) in merged && Elems(z) == e;
      SplitMixed(c, z);
      assert Counted(Two(Restrict(z, c.part1), Restrict(z, c.part2)), f) in simple;
    }
    if InSimple(simple, e, f) {
      var z :| Counted(z, f) in simple && Elems(z.x) + Elems(z.y) == e;
      var u := Join(c, z);
      assert Pattern(u, f) in merged;
    }
  }

  lemma SplitMixed(c: Setting, z: seq<nat>)
    requires SettingOk(c) && IsMixed(c, |z|, z)
    ensures var w := Two(Restrict(z, c.part1), Restrict(z, c.part2));
      IsTwo(c, |w.x| + |w.y|, w) && Elems(w.x) + Elems(w.y) == Elems(z)
  {
    MixedRestricted(c, |z|, z);
    RestrictAsc(z, c.part1);
    RestrictAsc(z, c.part2);
    assert Elems(z) * c.part1 + Elems(z) * c.part2 == Elems(z);
  }

  lemma Join(c: Setting, z: Two) returns (u: seq<nat>)
    requires SettingOk(c) && IsTwo(c, |z.x| + |z.y|, z)
    ensures IsMixed(c, |u|, u) && |u| >= 2 && Elems(u) == Elems(z.x) + Elems(z.y)
  {
    u := JoinAsc(z.x, z.y);
    FirstIn(z.x);
    FirstIn(z.y);
    assert z.x[0] in Elems(u) * c.part1 && z.y[0] in Elems(u) * c.part2;
    NotOnePart(u, c.part1, c.part2);
    assert u[0] == u[|u| - 1] ==> |u| == 1 || u[0] < u[|u| - 1];
  }

  lemma {:induction false} JoinAsc(x: seq<nat>, y: seq<nat>) returns (u: seq<nat>)
    requires Asc(x) && Asc(y) && Elems(x) !! Elems(y)
    ensures Asc(u) && Elems(u) == Elems(x) + Elems(y)
  {
    if x == [] {
      u := y;
    } else {
      UnconsAsc(x);
      var v := JoinAsc(x[1..], y);
      InsertAsc(v, x[0]);
      u := Insert(v, x[0]);
    }
  }
}
