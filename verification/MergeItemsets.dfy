/** Bitdrill's merge of the frequent itemsets of two item partitions, level by level, and the simple
    levelwise merge that it has to agree with. */
module MergeItemsets {
  import opened Basics
  import opened ClosedSets
  import opened MergeSets

  /** The vertical database, the two disjoint sets of frequent items, and the frequent itemsets mined in
      each part, by size. */
  datatype Setting = Setting(db: Database, support: nat, part1: set<nat>, part2: set<nat>, freq1: seq<Trie>,
                             freq2: seq<Trie>)

  ghost predicate SettingOk(c: Setting) {
    && c.part1 !! c.part2
    && PartComplete(c.db, c.support, c.part1, c.freq1) && PartComplete(c.db, c.support, c.part2, c.freq2)
  }

  ghost predicate IsMixed(c: Setting, k: nat, z: seq<nat>) {
    Mixed(c.db, c.support, c.part1, c.part2, k, z)
  }

  ghost predicate Levels(c: Setting, k: nat, prev: Trie) {
    PrevOk(c.db, c.support, c.part1, c.part2, k, prev)
  }

  /** What is known when the itemsets of k + 1 items are generated. */
  function Known(c: Setting, k: nat, prev: Trie): Level {
    Level(c.part1, c.part2, c.freq1, c.freq2, k, prev)
  }

  /** Pruning is safe: a frequent itemset is among those to be counted. */
  lemma MixedWanted(c: Setting, k: nat, prev: Trie, z: seq<nat>)
    requires SettingOk(c) && Levels(c, k, prev) && IsMixed(c, k + 1, z)
    ensures Wanted(Known(c, k, prev), z)
  {
    MixedRestricted(c, k + 1, z);
    forall i | 0 <= i < |z| && !OnePart(Drop(z, i), c.part1) ensures Drop(z, i) in prev {
      MixedDrop(c.db, c.support, c.part1, c.part2, k, z, i);
    }
  }

  /** All subsets with one item less are stored. */
  method CheckSupports(t: Trie, itemset: seq<nat>) returns (ok: bool)
    ensures ok <==> forall i :: 0 <= i < |itemset| ==> Drop(itemset, i) in t
  {
    for i := 0 to |itemset|
      invariant forall l :: 0 <= l < i ==> Drop(itemset, l) in t
    {
      if Drop(itemset, i) !in t {
        return false;
      }
    }
    return true;
  }

  /** All subsets with one item less and items in both parts are stored. */
  method CheckMergeSupports(t: Trie, itemset: seq<nat>, part1: set<nat>) returns (ok: bool)
    ensures ok <==> forall i :: 0 <= i < |itemset| && !OnePart(Drop(itemset, i), part1) ==> Drop(itemset, i) in t
  {
    for i := 0 to |itemset|
      invariant forall l :: 0 <= l < i && !OnePart(Drop(itemset, l), part1) ==> Drop(itemset, l) in t
    {
      if !OnePart(Drop(itemset, i), part1) && Drop(itemset, i) !in t {
        return false;
      }
    }
    return true;
  }

  /** One join of siblings, pruned by the itemsets mined in each part and by the previous level. */
  method JoinCandidate(c: Setting, k: nat, prev: Trie, prefix: seq<nat>, other: seq<nat>, cands: Trie)
    returns (next: Trie)
    requires SettingOk(c) && k > 0 && Levels(c, k, prev) && prefix in prev && other in prev && Siblings(prefix, other)
    requires CandOk(Known(c, k, prev), cands)
    ensures CandOk(Known(c, k, prev), next) && forall z :: z in cands ==> z in next
    ensures JoinedPair(Known(c, k, prev), prefix, other, next)
    ensures !Joint(Insert(prefix, Last(other)), c.part1) ==> next == cands
  {
    next := cands;
    ghost var v := Known(c, k, prev);
    var candidate := Insert(prefix, Last(other));
    JoinIs(c, k, prev, prefix, other);
    hide Asc, Elems, OnePart, Insert, Siblings, Restrict, Mixed, PartComplete;
    var candidate1, candidate2 := Restrict(candidate, c.part1), Restrict(candidate, c.part2);
    if candidate1 == [] || candidate2 == [] {
      return;
    }
    Both(c, candidate);
    if 1 < |candidate1| < |c.freq1| && candidate1 !in c.freq1[|candidate1|] {
      return;
    }
    if 1 < |candidate2| < |c.freq2| && candidate2 !in c.freq2[|candidate2|] {
      return;
    }
    var supported := CheckSupports(prev, candidate);
    if !supported {
      return;
    }
    AddOk(v, cands, candidate);
    next := Add(cands, candidate);
  }

  /** The join of two stored siblings has the shape of a candidate; if it is to be counted, it has items of both
      parts. */
  lemma JoinIs(c: Setting, k: nat, prev: Trie, prefix: seq<nat>, other: seq<nat>)
    requires SettingOk(c) && k > 0 && Levels(c, k, prev) && prefix in prev && other in prev && Siblings(prefix, other)
    ensures var z := Insert(prefix, Last(other));
      && Asc(z) && |z| == k + 1 && Elems(z) <= c.part1 + c.part2
      && (!OnePart(z, c.part1) ==> Restrict(z, c.part1) != [] && Restrict(z, c.part2) != [])
      && forall i :: 0 <= i < |z| && Drop(z, i) in prev ==> !OnePart(Drop(z, i), c.part1)
  {
    assert IsMixed(c, k, prefix) && IsMixed(c, k, other);
    JoinSiblings(prefix, other);
    var z := Insert(prefix, Last(other));
    if !OnePart(z, c.part1) {
      RestrictBoth(c, z);
    }
    forall i | 0 <= i < |z| && Drop(z, i) in prev ensures !OnePart(Drop(z, i), c.part1) {
      assert IsMixed(c, k, Drop(z, i));
    }
  }

  lemma RestrictBoth(c: Setting, z: seq<nat>)
    requires Asc(z) && Elems(z) <= c.part1 + c.part2 && !OnePart(z, c.part1)
    ensures Restrict(z, c.part1) != [] && Restrict(z, c.part2) != []
  {
    RestrictAsc(z, c.part1);
    RestrictAsc(z, c.part2);
    MixedParts(z, c.part1, c.part2);
    assert Elems([]) == {};
  }

  lemma MixedRestricted(c: Setting, k: nat, z: seq<nat>)
    requires SettingOk(c) && IsMixed(c, k, z)
    ensures Restrict(z, c.part1) != [] && Restrict(z, c.part2) != []
    ensures |Restrict(z, c.part1)| < |c.freq1| ==> Restrict(z, c.part1) in c.freq1[|Restrict(z, c.part1)|]
    ensures |Restrict(z, c.part2)| < |c.freq2| ==> Restrict(z, c.part2) in c.freq2[|Restrict(z, c.part2)|]
  {
    RestrictBoth(c, z);
    PartOfMixed(c.db, c.support, c.part1, c.part2, k, z, c.part1);
    PartOfMixed(c.db, c.support, c.part1, c.part2, k, z, c.part2);
  }

  lemma Both(c: Setting, z: seq<nat>)
    requires c.part1 !! c.part2 && Asc(z) && Restrict(z, c.part1) != [] && Restrict(z, c.part2) != []
    ensures !OnePart(z, c.part1)
  {
    RestrictAsc(z, c.part1);
    RestrictAsc(z, c.part2);
    FirstIn(Restrict(z, c.part1));
    FirstIn(Restrict(z, c.part2));
    NotOnePart(z, c.part1, c.part2);
  }

  /** All joins of one walked itemset with its later siblings. */
  method JoinPrefix(c: Setting, k: nat, prev: Trie, i: nat, cands: Trie) returns (next: Trie)
    requires SettingOk(c) && k > 0 && Levels(c, k, prev) && i < |prev| && CandOk(Known(c, k, prev), cands)
    requires Joined(Known(c, k, prev), i, cands)
    ensures CandOk(Known(c, k, prev), next) && Joined(Known(c, k, prev), i + 1, next)
  {
    next := cands;
    ghost var v := Known(c, k, prev);
    for j := i + 1 to |prev|
      invariant CandOk(v, next) && Joined(v, i, next)
      invariant forall b :: i < b < j ==> JoinedPair(v, prev[i], prev[b], next)
    {
      ghost var before := next;
      if Siblings(prev[i], prev[j]) {
        next := JoinCandidate(c, k, prev, prev[i], prev[j], next);
      }
      JoinedMore(v, i, before, next);
      hide Joined, CandOk, Siblings, Wanted, Joint;
      forall b | i < b < j ensures JoinedPair(v, prev[i], prev[b], next) {
        assert JoinedPair(v, prev[i], prev[b], before);
      }
    }
  }

  /** Counts the items of one part, and remembers the last. */
  method CountPart(z: seq<nat>, own: set<nat>) returns (num: nat, last: nat)
    requires Asc(z)
    ensures num == 1 <==> OnlyIn(z, own, last)
    ensures num != 1 ==> forall x :: !OnlyIn(z, own, x)
  {
    num, last := 0, 0;
    for i := 0 to |z|
      invariant num == 0 ==> forall l :: 0 <= l < i ==> z[l] !in own
      invariant num >= 1 ==> last in z[..i] && last in own
      invariant num == 1 ==> forall l :: 0 <= l < i && z[l] != last ==> z[l] !in own
      invariant num > 1 ==> exists l, m :: 0 <= l < m < i && z[l] in own && z[m] in own
    {
      if z[i] in own {
        ghost var l := if num > 0 then PlaceOf(z[..i], last) else 0;
        num := num + 1;
        last := z[i];
      }
    }
  }

  ghost function PlaceOf(z: seq<nat>, x: nat): (i: nat)
    requires x in z
    ensures i < |z| && z[i] == x
  {
    var i :| 0 <= i < |z| && z[i] == x;
    i
  }

  /** Walks the previous level: joins siblings, and collects the itemsets with a single item of one part. */
  method WalkPrevious(c: Setting, k: nat, prev: Trie) returns (cands: Trie, cond1: map<nat, Trie>, cond2: map<nat,
      Trie>)
    requires SettingOk(c) && k > 0 && Levels(c, k, prev)
    ensures CandOk(Known(c, k, prev), cands) && Joined(Known(c, k, prev), |prev|, cands)
    ensures CondOk(c.part1, c.part2, k, prev, |prev|, cond1) && CondOk(c.part2, c.part1, k, prev, |prev|, cond2)
  {
    cands, cond1, cond2 := [], map[], map[];
    for i := 0 to |prev|
      invariant CandOk(Known(c, k, prev), cands) && Joined(Known(c, k, prev), i, cands)
      invariant CondOk(c.part1, c.part2, k, prev, i, cond1) && CondOk(c.part2, c.part1, k, prev, i, cond2)
    {
      assert IsMixed(c, k, prev[i]);
      cands := JoinPrefix(c, k, prev, i, cands);
      cond1 := SeeAlone(c.part1, c.part2, k, prev, i, cond1);
      cond2 := SeeAlone(c.part2, c.part1, k, prev, i, cond2);
    }
  }

  method SeeAlone(own: set<nat>, other: set<nat>, k: nat, prev: Trie, i: nat, cond: map<nat, Trie>)
    returns (next: map<nat, Trie>)
    requires CondOk(own, other, k, prev, i, cond) && i < |prev|
    requires Asc(prev[i]) && |prev[i]| == k && Elems(prev[i]) <= own + other && own !! other
    ensures CondOk(own, other, k, prev, i + 1, next)
  {
    hide CondOk, OnlyIn;
    var num, x := CountPart(prev[i], own);
    next := cond;
    if num == 1 {
      CondAdd(own, other, k, prev, i, cond, x);
      next := cond[x := Add(if x in cond then cond[x] else [], Remove(prev[i], x))];
    } else {
      CondSkip(own, other, k, prev, i, cond);
    }
  }

  /** One join of itemsets seen with the single item x, with x put back. */
  method CondCandidate(c: Setting, k: nat, prev: Trie, own: set<nat>, other: set<nat>, freq: seq<Trie>, x: nat,
                       a: seq<nat>, b: seq<nat>, cands: Trie) returns (next: Trie)
    requires k >= 2 && TwoSides(Known(c, k, prev), own, other, freq)
    requires IsCond(own, other, k, x, a) && IsCond(own, other, k, x, b) && Siblings(a, b)
    requires CandOk(Known(c, k, prev), cands)
    ensures CandOk(Known(c, k, prev), next) && forall z :: z in cands ==> z in next
    ensures CondPair(Known(c, k, prev), own, x, a, b, next)
  {
    next := cands;
    ghost var v := Known(c, k, prev);
    var prevCandidate := Insert(a, Last(b));
    CondShape(v, own, other, freq, x, a, b);
    hide IsCond, IsCandidate, Insert, Siblings, Restrict, OnlyIn;
    if k < |freq| && prevCandidate !in freq[k] {
      return;
    }
    var candidate := Insert(prevCandidate, x);
    var supported := CheckMergeSupports(prev, candidate, c.part1);
    if supported {
      AddOk(v, cands, candidate);
      next := Add(cands, candidate);
    }
  }

  /** Candidates with a single item of own. */
  method CondCandidates(c: Setting, k: nat, prev: Trie, items: seq<nat>, own: set<nat>, other: set<nat>,
                        freq: seq<Trie>, cond: map<nat, Trie>, cands: Trie) returns (next: Trie)
    requires k >= 2 && TwoSides(Known(c, k, prev), own, other, freq)
    requires CondOk(own, other, k, prev, |prev|, cond) && CandOk(Known(c, k, prev), cands)
    ensures CandOk(Known(c, k, prev), next) && forall z :: z in cands ==> z in next
    ensures forall x :: x in items && x in cond ==> CondJoined(Known(c, k, prev), own, x, cond[x], |cond[x]|, next)
  {
    next := cands;
    ghost var v := Known(c, k, prev);
    for xi := 0 to |items|
      invariant CandOk(v, next) && forall z :: z in cands ==> z in next
      invariant forall l :: 0 <= l < xi && items[l] in cond ==>
        CondJoined(v, own, items[l], cond[items[l]], |cond[items[l]]|, next)
    {
      var x := items[xi];
      ghost var before := next;
      if x in cond {
        next := CondItem(c, k, prev, own, other, freq, x, cond[x], next);
      }
      forall l | 0 <= l < xi && items[l] in cond
        ensures CondJoined(v, own, items[l], cond[items[l]], |cond[items[l]]|, next)
      {
        CondJoinedMore(v, own, items[l], cond[items[l]], |cond[items[l]]|, before, next);
      }
    }
  }

  method CondItem(c: Setting, k: nat, prev: Trie, own: set<nat>, other: set<nat>, freq: seq<Trie>, x: nat, t: Trie,
                  cands: Trie)
    returns (next: Trie)
    requires k >= 2 && TwoSides(Known(c, k, prev), own, other, freq)
    requires (forall s :: s in t ==> IsCond(own, other, k, x, s)) && CandOk(Known(c, k, prev), cands)
    ensures CandOk(Known(c, k, prev), next) && forall z :: z in cands ==> z in next
    ensures CondJoined(Known(c, k, prev), own, x, t, |t|, next)
  {
    next := cands;
    for i := 0 to |t|
      invariant CandOk(Known(c, k, prev), next) && forall z :: z in cands ==> z in next
      invariant CondJoined(Known(c, k, prev), own, x, t, i, next)
    {
      next := CondPrefix(c, k, prev, own, other, freq, x, t, i, next);
    }
  }

  method CondPrefix(c: Setting, k: nat, prev: Trie, own: set<nat>, other: set<nat>, freq: seq<Trie>, x: nat, t: Trie,
                    i: nat, cands: Trie)
    returns (next: Trie)
    requires k >= 2 && TwoSides(Known(c, k, prev), own, other, freq) && i < |t|
    requires (forall s :: s in t ==> IsCond(own, other, k, x, s)) && CandOk(Known(c, k, prev), cands)
    requires CondJoined(Known(c, k, prev), own, x, t, i, cands)
    ensures CandOk(Known(c, k, prev), next) && forall z :: z in cands ==> z in next
    ensures CondJoined(Known(c, k, prev), own, x, t, i + 1, next)
  {
    next := cands;
    ghost var v := Known(c, k, prev);
    for j := i + 1 to |t|
      invariant CandOk(v, next) && forall z :: z in cands ==> z in next
      invariant CondJoined(v, own, x, t, i, next)
      invariant forall b :: i < b < j ==> CondPair(v, own, x, t[i], t[b], next)
    {
      ghost var before := next;
      if Siblings(t[i], t[j]) {
        next := CondCandidate(c, k, prev, own, other, freq, x, t[i], t[j], next);
      }
      CondJoinedMore(v, own, x, t, i, before, next);
      hide CondJoined, CandOk, Siblings, Wanted, OnlyIn;
      forall b | i < b < j ensures CondPair(v, own, x, t[i], t[b], next) {
        assert CondPair(v, own, x, t[i], t[b], before);
      }
    }
  }

  /** The first level: one item of each part. */
  method Pairs(c: Setting, prev: Trie, items1: seq<nat>, items2: seq<nat>) returns (cands: Trie)
    requires SettingOk(c) && Elems(items1) == c.part1 && Elems(items2) == c.part2
    ensures CandOk(Known(c, 1, prev), cands) && forall z :: Wanted(Known(c, 1, prev), z) ==> z in cands
  {
    hide Elems, CandOk, Wanted, Pair, SettingOk, Known, Add, Paired;
    cands := [];
    ghost var v := Known(c, 1, prev);
    NothingPaired(v, items1, items2);
    for i := 0 to |items1|
      invariant CandOk(v, cands) && Paired(items1, items2, i, 0, cands)
    {
      for j := 0 to |items2|
        invariant CandOk(v, cands) && Paired(items1, items2, i, j, cands)
      {
        PairOk(c, prev, items1, items2, i, j);
        AddOk(v, cands, Pair(items1[i], items2[j]));
        PairedNext(items1, items2, i, j, cands, Add(cands, Pair(items1[i], items2[j])));
        cands := Add(cands, Pair(items1[i], items2[j]));
      }
      PairedRow(items1, items2, i, cands);
    }
    forall z | Wanted(v, z) ensures z in cands {
      var a, b := PairFound(c, prev, items1, items2, z);
      PairedAt(items1, items2, a, b, cands);
    }
  }

  /** The pairs made so far are candidates. */
  ghost predicate Paired(items1: seq<nat>, items2: seq<nat>, i: nat, j: nat, cands: Trie) {
    forall a, b :: 0 <= a < |items1| && 0 <= b < |items2| && (a < i || (a == i && b < j)) ==>
      Pair(items1[a], items2[b]) in cands
  }

  lemma NothingPaired(v: Level, items1: seq<nat>, items2: seq<nat>)
    ensures CandOk(v, []) && Paired(items1, items2, 0, 0, [])
  {
  }

  lemma PairedNext(items1: seq<nat>, items2: seq<nat>, i: nat, j: nat, cands: Trie, next: Trie)
    requires i < |items1| && j < |items2| && Paired(items1, items2, i, j, cands)
    requires (forall z :: z in cands ==> z in next) && Pair(items1[i], items2[j]) in next
    ensures Paired(items1, items2, i, j + 1, next)
  {
  }

  lemma PairedRow(items1: seq<nat>, items2: seq<nat>, i: nat, cands: Trie)
    requires Paired(items1, items2, i, |items2|, cands)
    ensures Paired(items1, items2, i + 1, 0, cands)
  {
  }

  lemma PairedAt(items1: seq<nat>, items2: seq<nat>, a: nat, b: nat, cands: Trie)
    requires Paired(items1, items2, |items1|, 0, cands) && a < |items1| && b < |items2|
    ensures Pair(items1[a], items2[b]) in cands
  {
  }

  lemma PairFound(c: Setting, prev: Trie, items1: seq<nat>, items2: seq<nat>, z: seq<nat>) returns (a: nat, b: nat)
    requires SettingOk(c) && Elems(items1) == c.part1 && Elems(items2) == c.part2 && Wanted(Known(c, 1, prev), z)
    ensures a < |items1| && b < |items2| && z == Pair(items1[a], items2[b])
  {
    var x, y := MixedPair(c, z);
    hide Wanted, PartComplete, Pair;
    a :| 0 <= a < |items1| && items1[a] == x;
    b :| 0 <= b < |items2| && items2[b] == y;
  }

  /** Two items in item order. */
  function Pair(x: nat, y: nat): seq<nat> {
    if x < y then [x, y] else [y, x]
  }

  lemma PairOk(c: Setting, prev: Trie, items1: seq<nat>, items2: seq<nat>, i: nat, j: nat)
    requires SettingOk(c) && Elems(items1) == c.part1 && Elems(items2) == c.part2 && i < |items1| && j < |items2|
    ensures Wanted(Known(c, 1, prev), Pair(items1[i], items2[j]))
  {
    assert items1[i] in Elems(items1) && items2[j] in Elems(items2);
    hide Elems, PartComplete, Restrict, Pair, OnePart;
    var x, y := items1[i], items2[j];
    PairShape(c, x, y);
    OneOf(Pair(x, y), c.part1, x);
    OneOf(Pair(x, y), c.part2, y);
    forall l | 0 <= l < |Pair(x, y)| ensures OnePart(Drop(Pair(x, y), l), c.part1) {
      Alone(Drop(Pair(x, y), l), c.part1);
    }
  }

  lemma PairShape(c: Setting, x: nat, y: nat)
    requires c.part1 !! c.part2 && x in c.part1 && y in c.part2
    ensures IsCandidate(c.part1, c.part2, 2, Pair(x, y))
    ensures Elems(Pair(x, y)) * c.part1 == {x} && Elems(Pair(x, y)) * c.part2 == {y}
  {
    assert Elems([x, y]) == {x, y} == Elems([y, x]);
    assert x in Elems(Pair(x, y)) * c.part1 && y in Elems(Pair(x, y)) * c.part2;
    NotOnePart(Pair(x, y), c.part1, c.part2);
  }

  lemma OneOf(z: seq<nat>, part: set<nat>, x: nat)
    requires Asc(z) && Elems(z) * part == {x}
    ensures |Restrict(z, part)| == 1
  {
    RestrictAsc(z, part);
    AscCard(Restrict(z, part));
  }

  lemma Alone(z: seq<nat>, part: set<nat>)
    requires |z| == 1
    ensures OnePart(z, part)
  {
  }

  lemma MixedPair(c: Setting, z: seq<nat>) returns (x: nat, y: nat)
    requires SettingOk(c) && IsCandidate(c.part1, c.part2, 2, z)
    ensures x in c.part1 && y in c.part2 && z == Pair(x, y)
  {
    MixedParts(z, c.part1, c.part2);
    x :| x in Elems(z) * c.part1;
    y :| y in Elems(z) * c.part2;
  }

  /** All candidates of one level, and no others: the mixed itemsets that lack no stored subset. */
  method Candidates(c: Setting, k: nat, prev: Trie, items1: seq<nat>, items2: seq<nat>) returns (cands: Trie)
    requires SettingOk(c) && Elems(items1) == c.part1 && Elems(items2) == c.part2
    requires k >= 2 && Levels(c, k - 1, prev)
    ensures NoRepeat(cands) && forall z :: z in cands <==> Wanted(Known(c, k - 1, prev), z)
  {
    if k == 2 {
      cands := Pairs(c, prev, items1, items2);
    } else {
      var cond1, cond2;
      cands, cond1, cond2 := WalkPrevious(c, k - 1, prev);
      ghost var joined := cands;
      cands := CondCandidates(c, k - 1, prev, items1, c.part1, c.part2, c.freq2, cond1, cands);
      ghost var first := cands;
      cands := CondCandidates(c, k - 1, prev, items2, c.part2, c.part1, c.freq1, cond2, cands);
      hide Wanted, Joined, CondJoined, CondOk;
      forall z | Wanted(Known(c, k - 1, prev), z) ensures z in cands {
        AllWays(c, k - 1, prev, items1, items2, joined, cond1, first, cond2, cands, z);
      }
    }
  }

  /** An itemset to be counted is found by joining, or through its single item of one part. */
  lemma AllWays(c: Setting, k: nat, prev: Trie, items1: seq<nat>, items2: seq<nat>, joined: Trie, cond1: map<nat,
                Trie>, first: Trie,
                cond2: map<nat, Trie>, cands: Trie, z: seq<nat>)
    requires SettingOk(c) && Elems(items1) == c.part1 && Elems(items2) == c.part2 && k >= 2
    requires Joined(Known(c, k, prev), |prev|, joined)
    requires CondOk(c.part1, c.part2, k, prev, |prev|, cond1) && CondOk(c.part2, c.part1, k, prev, |prev|, cond2)
    requires forall x :: x in items1 && x in cond1 ==>
      CondJoined(Known(c, k, prev), c.part1, x, cond1[x], |cond1[x]|, first)
    requires forall x :: x in items2 && x in cond2 ==>
      CondJoined(Known(c, k, prev), c.part2, x, cond2[x], |cond2[x]|, cands)
    requires (forall y :: y in joined ==> y in first) && (forall y :: y in first ==> y in cands)
    requires Wanted(Known(c, k, prev), z)
    ensures z in cands
  {
    hide CondJoined, CondOk, Joined, PartComplete, OnlyIn;
    var v := Known(c, k, prev);
    if Joint(z, c.part1) {
      JoinComplete(v, joined, z);
    } else {
      var i: nat :| i < |z| && OnePart(Drop(z, i), c.part1);
      Lonely(z, c.part1, c.part2, i);
      var x := z[i];
      if OnlyIn(z, c.part1, x) {
        OnlyPart(z, c.part1, x);
        assert x in Elems(items1);
        CondComplete(v, c.part1, c.part2, c.freq2, cond1, first, z, x);
      } else {
        OnlyPart(z, c.part2, x);
        assert x in Elems(items2);
        CondComplete(v, c.part2, c.part1, c.freq1, cond2, cands, z, x);
      }
    }
  }

  lemma OnlyPart(z: seq<nat>, part: set<nat>, x: nat)
    ensures OnlyIn(z, part, x) ==> x in part
  {
  }

  // ---------------------------------------------------------------------------------------
  // The levelwise loop
  // ---------------------------------------------------------------------------------------

  /** A written itemset with its frequency. */
  datatype Pattern = Pattern(items: seq<nat>, frequency: nat)

  /** out holds the mixed frequent itemsets of from to upto - 1 items, once each, with their frequencies. */
  ghost predicate Written(c: Setting, from: nat, upto: nat, out: seq<Pattern>) {
    && (forall i, j :: 0 <= i < j < |out| ==> out[i].items != out[j].items)
    && forall z, f :: Pattern(z, f) in out <==> from <= |z| < upto && IsMixed(c, |z|, z) && f == Supp(c.db, Elems(z))
  }

  /** Counts the candidates of a level; the frequent ones are written, and make the next previous level. */
  method CountLevel(c: Setting, k: nat, cands: Trie, out: seq<Pattern>, ghost from: nat)
    returns (prev: Trie, next: seq<Pattern>)
    requires NoRepeat(cands) && (forall z :: z in cands ==> IsCandidate(c.part1, c.part2, k, z))
    requires forall z :: IsMixed(c, k, z) ==> z in cands
    requires from <= k && Written(c, from, k, out)
    ensures Levels(c, k, prev) && Written(c, from, k + 1, next)
  {
    prev, next := [], out;
    ghost var own: seq<Pattern> := [];
    for i := 0 to |cands|
      invariant next == out + own && |own| == |prev|
      invariant forall l :: 0 <= l < |own| ==> own[l] == Pattern(prev[l], Supp(c.db, Elems(prev[l])))
      invariant NoRepeat(prev) && forall z :: z in prev <==> z in cands[..i] && Supp(c.db, Elems(z)) >= c.support
    {
      var frequency := Supp(c.db, Elems(cands[i]));
      assert cands[..i + 1] == cands[..i] + [cands[i]];
      if frequency >= c.support {
        next := next + [Pattern(cands[i], frequency)];
        own := own + [Pattern(cands[i], frequency)];
        FreshSnoc(cands, i, prev);
        prev := prev + [cands[i]];
      }
    }
    assert cands[..|cands|] == cands;
    assert Levels(c, k, prev);
    WrittenMore(c, from, k, out, prev, own);
  }

  lemma FreshSnoc(cands: Trie, i: nat, prev: Trie)
    requires i < |cands| && NoRepeat(cands) && NoRepeat(prev) && forall z :: z in prev ==> z in cands[..i]
    ensures NoRepeat(prev + [cands[i]]) && forall z :: z in prev + [cands[i]] <==> z in prev || z == cands[i]
  {
    forall z | z in cands[..i] ensures z != cands[i] {
      var l :| 0 <= l < i && cands[..i][l] == z;
    }
    var r := prev + [cands[i]];
    forall a | 0 <= a < |prev| ensures r[a] != cands[i] { assert prev[a] in prev; }
    assert r[|prev|] == cands[i];
  }

  lemma WrittenMore(c: Setting, from: nat, k: nat, out: seq<Pattern>, prev: Trie, own: seq<Pattern>)
    requires from <= k && Written(c, from, k, out) && Levels(c, k, prev) && |own| == |prev|
    requires forall l :: 0 <= l < |own| ==> own[l] == Pattern(prev[l], Supp(c.db, Elems(prev[l])))
    ensures Written(c, from, k + 1, out + own)
  {
    var r := out + own;
    forall i | 0 <= i < |out| ensures |out[i].items| < k { assert Pattern(out[i].items, out[i].frequency) in out; }
    forall i | 0 <= i < |own| ensures |own[i].items| == k && IsMixed(c, k, own[i].items) { assert prev[i] in prev; }
    forall z, f ensures Pattern(z, f) in r <==> from <= |z| < k + 1 && IsMixed(c, |z|, z) && f == Supp(c.db, Elems(z)) {
      assert Pattern(z, f) in r <==> Pattern(z, f) in out || Pattern(z, f) in own;
      OwnHolds(c, prev, own, z, f);
    }
  }

  lemma OwnHolds(c: Setting, prev: Trie, own: seq<Pattern>, z: seq<nat>, f: nat)
    requires |own| == |prev| && forall l :: 0 <= l < |own| ==> own[l] == Pattern(prev[l], Supp(c.db, Elems(prev[l])))
    ensures Pattern(z, f) in own <==> z in prev && f == Supp(c.db, Elems(z))
  {
    if z in prev {
      var l :| 0 <= l < |prev| && prev[l] == z;
      assert own[l].items == z;
    }
  }

  /** The previously mined itemsets of k items, reduced to those with items of both parts. */
  method InitialPrevious(c: Setting, k: nat, patterns: Trie) returns (prev: Trie)
    requires c.part1 !! c.part2
    requires forall z :: z in patterns ==> Asc(z) && |z| == k && Supp(c.db, Elems(z)) >= c.support
    requires forall z :: IsMixed(c, k, z) ==> z in patterns
    ensures Levels(c, k, prev)
  {
    prev := [];
    for i := 0 to |patterns|
      invariant NoRepeat(prev) && forall z :: z in prev <==>
                  z in patterns[..i] && Elems(z) <= c.part1 + c.part2 && !OnePart(z, c.part1)
    {
      assert patterns[..i + 1] == patterns[..i] + [patterns[i]];
      if Elems(patterns[i]) <= c.part1 + c.part2 && !OnePart(patterns[i], c.part1) {
        AddHolds(prev, patterns[i]);
        AddNoRepeat(prev, patterns[i]);
        prev := Add(prev, patterns[i]);
      }
    }
    assert patterns[..|patterns|] == patterns;
  }

  lemma AddNoRepeat(t: Trie, z: seq<nat>)
    requires NoRepeat(t)
    ensures NoRepeat(Add(t, z))
  {
    forall i | 0 <= i < |t| ensures t[i] in t {}
  }

  /** Writes exactly the frequent itemsets of at least k items that have items in both parts, given all
      frequent itemsets of k-1 items. */
  method MergeLevels(c: Setting, start: nat, patterns: Trie, items1: seq<nat>, items2: seq<nat>)
    returns (out: seq<Pattern>)
    requires SettingOk(c) && Elems(items1) == c.part1 && Elems(items2) == c.part2 && start >= 2
    requires forall z :: z in patterns ==> Asc(z) && |z| == start - 1 && Supp(c.db, Elems(z)) >= c.support
    requires forall z :: IsMixed(c, start - 1, z) ==> z in patterns
    ensures MergedFrom(c, start, out)
  {
    var k: nat, prev := start, [];
    prev := InitialPrevious(c, start - 1, patterns);
    out := [];
    assert Written(c, start, start, out);
    while prev != [] || k == 2
      invariant start <= k && Levels(c, k - 1, prev) && Written(c, start, k, out)
      decreases |c.part1 + c.part2| + 1 - k
    {
      var cands := Candidates(c, k, prev, items1, items2);
      EveryMixed(c, k, prev, cands);
      if cands == [] {
        NothingLeft(c, k, out, start);
        return;
      }
      CandidateSize(c, k, cands);
      prev, out := CountLevel(c, k, cands, out, start);
      k := k + 1;
    }
    NothingPrevious(c, k, prev);
    NothingLeft(c, k, out, start);
  }

  lemma EveryMixed(c: Setting, k: nat, prev: Trie, cands: Trie)
    requires SettingOk(c) && k >= 2 && Levels(c, k - 1, prev)
    requires forall z :: z in cands <==> Wanted(Known(c, k - 1, prev), z)
    ensures forall z :: z in cands ==> IsCandidate(c.part1, c.part2, k, z)
    ensures forall z :: IsMixed(c, k, z) ==> z in cands
  {
    hide Mixed;
    forall z | IsMixed(c, k, z) ensures z in cands { MixedWanted(c, k - 1, prev, z); }
  }

  ghost predicate MergedFrom(c: Setting, start: nat, out: seq<Pattern>) {
    && (forall i, j :: 0 <= i < j < |out| ==> out[i].items != out[j].items)
    && forall z, f :: Pattern(z, f) in out <==> |z| >= start && IsMixed(c, |z|, z) && f == Supp(c.db, Elems(z))
  }

  /** With no mixed frequent itemset of one size, there is none of a larger size. */
  lemma {:induction false} NoneAbove(c: Setting, k: nat, z: seq<nat>)
    requires SettingOk(c) && k >= 2 && (forall y :: !IsMixed(c, k, y)) && |z| >= k
    ensures !IsMixed(c, |z|, z)
    decreases |z|
  {
    if |z| > k && IsMixed(c, |z|, z) {
      NoLarger(c.db, c.support, c.part1, c.part2, |z| - 1, z);
      var y :| Mixed(c.db, c.support, c.part1, c.part2, |z| - 1, y);
      NoneAbove(c, k, y);
    }
  }

  lemma NothingPrevious(c: Setting, k: nat, prev: Trie)
    requires SettingOk(c) && k >= 3 && Levels(c, k - 1, prev) && prev == []
    ensures forall y :: !IsMixed(c, k, y)
  {
    forall y ensures !IsMixed(c, k, y) {
      assert forall z :: IsMixed(c, k - 1, z) <==> z in prev;
      if |y| == k { NoneAbove(c, k - 1, y); }
    }
  }

  lemma NothingLeft(c: Setting, k: nat, out: seq<Pattern>, start: nat)
    requires SettingOk(c) && k >= 2 && start <= k && Written(c, start, k, out) && forall y :: !IsMixed(c, k, y)
    ensures MergedFrom(c, start, out)
  {
    forall z: seq<nat> | |z| >= k ensures !IsMixed(c, |z|, z) { NoneAbove(c, k, z); }
  }

  lemma CandidateSize(c: Setting, k: nat, cands: Trie)
    requires (forall z :: z in cands ==> IsCandidate(c.part1, c.part2, k, z)) && cands != []
    ensures k <= |c.part1 + c.part2|
  {
    assert IsCandidate(c.part1, c.part2, k, cands[0]);
    AscCard(cands[0]);
    SubsetCard(Elems(cands[0]), c.part1 + c.part2);
  }

}
