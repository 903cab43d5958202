/** Itemsets as ascending sequences, sets of them in walk order, and the frequent itemsets that have
    items in both parts of a partition of the items. */
module MergeSets {
  import opened Basics
  import opened ClosedSets

  /** What a trie holds, in the order in which it is walked. */
  type Trie = seq<seq<nat>>

  function Drop(z: seq<nat>, i: nat): seq<nat>
    requires i < |z|
  {
    z[..i] + z[i + 1..]
  }

  /** merge of an itemset with one further item. */
  function Insert(z: seq<nat>, x: nat): seq<nat> {
    if z == [] || x < z[0] then [x] + z else [z[0]] + Insert(z[1..], x)
  }

  /** set_difference of an itemset and one item. */
  function Remove(z: seq<nat>, x: nat): seq<nat> {
    if z == [] then [] else if z[0] == x then z[1..] else [z[0]] + Remove(z[1..], x)
  }

  lemma ConsAsc(h: nat, r: seq<nat>)
    requires Asc(r) && forall y :: y in Elems(r) ==> h < y
    ensures Asc([h] + r) && Elems([h] + r) == {h} + Elems(r)
  {
    forall j | 0 <= j < |r| ensures h < r[j] { assert r[j] in Elems(r); }
  }

  lemma UnconsAsc(z: seq<nat>)
    requires Asc(z) && z != []
    ensures Asc(z[1..]) && Elems(z) == {z[0]} + Elems(z[1..]) && z[0] !in Elems(z[1..])
    ensures forall y :: y in Elems(z[1..]) ==> z[0] < y
    ensures Elems(z[1..]) == Elems(z) - {z[0]}
  {
    assert z == [z[0]] + z[1..];
  }

  lemma {:induction false} InsertAsc(z: seq<nat>, x: nat)
    requires Asc(z) && x !in Elems(z)
    ensures Asc(Insert(z, x)) && Elems(Insert(z, x)) == Elems(z) + {x} && |Insert(z, x)| == |z| + 1
  {
    if z == [] {
      assert Insert(z, x) == [x];
    } else {
      UnconsAsc(z);
      if x < z[0] {
        ConsAsc(x, z);
      } else {
        InsertAsc(z[1..], x);
        hide Asc, Elems;
        ConsAsc(z[0], Insert(z[1..], x));
      }
    }
  }

  lemma {:induction false} RemoveAsc(z: seq<nat>, x: nat)
    requires Asc(z)
    ensures Asc(Remove(z, x)) && Elems(Remove(z, x)) == Elems(z) - {x}
    ensures |Remove(z, x)| == |z| - if x in Elems(z) then 1 else 0
  {
    if z != [] {
      UnconsAsc(z);
      hide Asc, Elems;
      if z[0] != x {
        RemoveAsc(z[1..], x);
        ConsAsc(z[0], Remove(z[1..], x));
      }
    }
  }

  lemma DropAsc(z: seq<nat>, i: nat)
    requires Asc(z) && i < |z|
    ensures Asc(Drop(z, i)) && Elems(Drop(z, i)) == Elems(z) - {z[i]} && |Drop(z, i)| == |z| - 1
  {
    var d := Drop(z, i);
    forall y | y in z && y != z[i] ensures y in d {
      var k :| 0 <= k < |z| && z[k] == y;
      if k < i { assert d[k] == y; } else { assert d[k - 1] == y; }
    }
  }

  lemma FirstIn(z: seq<nat>)
    ensures z != [] ==> z[0] in Elems(z)
  {
  }

  /** An ascending sequence is known by its elements. */
  lemma {:induction false} AscUnique(a: seq<nat>, b: seq<nat>)
    requires Asc(a) && Asc(b) && Elems(a) == Elems(b)
    ensures a == b
  {
    if a == [] {
      FirstIn(b);
    } else {
      assert a[0] in Elems(a);
      assert b != [] && b[0] in Elems(b);
      UnconsAsc(a);
      UnconsAsc(b);
      hide Asc, Elems;
      assert a[0] == b[0];
      AscUnique(a[1..], b[1..]);
    }
  }

  // ---------------------------------------------------------------------------------------
  // Two parts
  // ---------------------------------------------------------------------------------------

  /** The items of z lie in one part only. */
  predicate OnePart(z: seq<nat>, part1: set<nat>) {
    forall i :: 0 <= i < |z| ==> (z[i] in part1 <==> z[0] in part1)
  }

  /** A frequent itemset of k items with items in both parts. */
  ghost predicate Mixed(db: Database, min: nat, part1: set<nat>, part2: set<nat>, k: nat, z: seq<nat>) {
    && Asc(z) && |z| == k && Elems(z) <= part1 + part2 && !OnePart(z, part1)
    && Supp(db, Elems(z)) >= min
  }

  /** z without its i-th item is frequent, too. */
  lemma MixedDrop(db: Database, min: nat, part1: set<nat>, part2: set<nat>, k: nat, z: seq<nat>, i: nat)
    requires Mixed(db, min, part1, part2, k + 1, z) && i < |z| && !OnePart(Drop(z, i), part1)
    ensures Mixed(db, min, part1, part2, k, Drop(z, i))
  {
    DropAsc(z, i);
    SuppAntitone(db, Elems(Drop(z, i)), Elems(z));
  }

  /** The mixed itemsets of one size, in some walk order. */
  ghost predicate PrevOk(db: Database, min: nat, part1: set<nat>, part2: set<nat>, k: nat, prev: Trie) {
    NoRepeat(prev) && forall z :: z in prev <==> Mixed(db, min, part1, part2, k, z)
  }

  function Add(t: Trie, z: seq<nat>): Trie {
    if z in t then t else t + [z]
  }

  /** An itemset of k items with items in both parts. */
  ghost predicate IsCandidate(part1: set<nat>, part2: set<nat>, k: nat, z: seq<nat>) {
    Asc(z) && |z| == k && Elems(z) <= part1 + part2 && !OnePart(z, part1)
  }

  /** What one level knows: the parts with their frequent itemsets, and the mixed itemsets of k items. */
  datatype Level = Level(part1: set<nat>, part2: set<nat>, freq1: seq<Trie>, freq2: seq<Trie>, k: nat, prev: Trie)

  /** No list of frequent itemsets of a part speaks against s. */
  predicate Stored(freq: seq<Trie>, s: seq<nat>) {
    1 < |s| < |freq| ==> s in freq[|s|]
  }

  /** What is to be counted: the mixed itemsets of k + 1 items whose mixed subsets with one item less are all known,
      and whose items of either part are a known itemset of that part. */
  ghost predicate Wanted(v: Level, z: seq<nat>) {
    && IsCandidate(v.part1, v.part2, v.k + 1, z)
    && (forall i :: 0 <= i < |z| && !OnePart(Drop(z, i), v.part1) ==> Drop(z, i) in v.prev)
    && Stored(v.freq1, Restrict(z, v.part1)) && Stored(v.freq2, Restrict(z, v.part2))
  }

  ghost predicate CandOk(v: Level, cands: Trie) {
    NoRepeat(cands) && forall z :: z in cands ==> Wanted(v, z)
  }

  lemma AddOk(v: Level, cands: Trie, z: seq<nat>)
    requires CandOk(v, cands) && Wanted(v, z)
    ensures CandOk(v, Add(cands, z)) && z in Add(cands, z) && forall y :: y in cands ==> y in Add(cands, z)
  {
    hide Wanted;
    if z !in cands {
      var r := cands + [z];
      assert r[|cands|] == z;
      forall i, j | 0 <= i < j < |r| ensures r[i] != r[j] {
        assert r[i] in cands;
      }
      forall y | y in r ensures Wanted(v, y) {
        assert y in cands || y == z;
      }
    }
  }

  /** Two itemsets that share all but their last items. */
  predicate Siblings(a: seq<nat>, b: seq<nat>) {
    |a| == |b| > 0 && a[..|a| - 1] == b[..|b| - 1] && a[|a| - 1] != b[|b| - 1]
  }

  /** Joining siblings adds the last item of one to the other. */
  lemma JoinSiblings(a: seq<nat>, b: seq<nat>)
    requires Asc(a) && Asc(b) && Siblings(a, b)
    ensures var z := Insert(a, b[|b| - 1]); Asc(z) && Elems(z) == Elems(a) + Elems(b) && |z| == |a| + 1
  {
    var n := |a| - 1;
    assert a == a[..n] + [a[n]] && b == b[..n] + [b[n]];
    forall i | 0 <= i < |a| ensures a[i] != b[n] {
      assert i < n ==> a[i] == a[..n][i] == b[..n][i] == b[i];
    }
    InsertAsc(a, b[n]);
  }

  lemma DropSiblings(z: seq<nat>)
    requires Asc(z) && |z| >= 2
    ensures var a, b := Drop(z, |z| - 1), Drop(z, |z| - 2);
      Siblings(a, b) && Siblings(b, a) && Asc(a) && Asc(b) && Elems(a) + Elems(b) == Elems(z)
  {
    var n := |z| - 1;
    DropAsc(z, n);
    DropAsc(z, n - 1);
    assert Drop(z, n) == z[..n] && Drop(z, n - 1) == z[..n - 1] + [z[n]];
    assert z[..n][..n - 1] == z[..n - 1];
  }

  /** The two itemsets that lack the last and the last but one item of z are siblings, and join to z. */
  lemma Unjoin(z: seq<nat>)
    requires Asc(z) && |z| >= 2
    ensures var a, b := Drop(z, |z| - 1), Drop(z, |z| - 2);
      Siblings(a, b) && Siblings(b, a) && Insert(a, b[|b| - 1]) == z && Insert(b, a[|a| - 1]) == z
  {
    var a, b := Drop(z, |z| - 1), Drop(z, |z| - 2);
    DropSiblings(z);
    JoinSiblings(a, b);
    JoinSiblings(b, a);
    hide Asc, Elems, Siblings, Drop;
    AscUnique(Insert(a, b[|b| - 1]), z);
    AscUnique(Insert(b, a[|a| - 1]), z);
  }

  /** Both parts keep an item whichever item of z is left out. */
  ghost predicate Joint(z: seq<nat>, part1: set<nat>) {
    forall i :: 0 <= i < |z| ==> !OnePart(Drop(z, i), part1)
  }

  /** x is the only item of z in part. */
  ghost predicate OnlyIn(z: seq<nat>, part: set<nat>, x: nat) {
    x in z && x in part && forall y :: y in z && y != x ==> y !in part
  }

  /** The items of z in part. */
  function Restrict(z: seq<nat>, part: set<nat>): seq<nat> {
    if z == [] then [] else (if z[0] in part then [z[0]] else []) + Restrict(z[1..], part)
  }

  lemma RestrictSets(x: nat, e: set<nat>, part: set<nat>)
    ensures ({x} + e) * part == (if x in part then {x} else {}) + e * part
  {
  }

  lemma {:induction false} RestrictAsc(z: seq<nat>, part: set<nat>)
    requires Asc(z)
    ensures Asc(Restrict(z, part)) && Elems(Restrict(z, part)) == Elems(z) * part
  {
    if z != [] {
      UnconsAsc(z);
      RestrictAsc(z[1..], part);
      var r := Restrict(z[1..], part);
      hide Asc, Elems;
      if z[0] in part {
        ConsAsc(z[0], r);
        RestrictSets(z[0], Elems(z[1..]), part);
      } else {
        assert [] + r == r;
        RestrictSets(z[0], Elems(z[1..]), part);
      }
    }
  }

  /** All frequent itemsets of a part up to some size. */
  ghost predicate PartComplete(db: Database, min: nat, part: set<nat>, freq: seq<Trie>) {
    forall l: nat, z: seq<nat> :: 1 <= l < |freq| && IsPartSet(db, min, part, l, z) ==> z in freq[l]
  }

  ghost predicate IsPartSet(db: Database, min: nat, part: set<nat>, l: nat, z: seq<nat>) {
    Asc(z) && |z| == l && Elems(z) <= part && Supp(db, Elems(z)) >= min
  }

  /** The items of a frequent itemset in one part are a frequent itemset of that part. */
  lemma PartOfMixed(db: Database, min: nat, part1: set<nat>, part2: set<nat>, k: nat, z: seq<nat>, part: set<nat>)
    requires Mixed(db, min, part1, part2, k, z)
    ensures IsPartSet(db, min, part, |Restrict(z, part)|, Restrict(z, part))
  {
    RestrictAsc(z, part);
    SuppAntitone(db, Elems(z) * part, Elems(z));
  }

  lemma NotOnePart(z: seq<nat>, part1: set<nat>, part2: set<nat>)
    requires part1 !! part2 && Elems(z) * part1 != {} && Elems(z) * part2 != {}
    ensures !OnePart(z, part1)
  {
    var x :| x in Elems(z) * part1;
    var y :| y in Elems(z) * part2;
    var i :| 0 <= i < |z| && z[i] == x;
    var j :| 0 <= j < |z| && z[j] == y;
    assert z[i] in part1 && z[j] !in part1;
  }

  lemma MixedParts(z: seq<nat>, part1: set<nat>, part2: set<nat>)
    requires Elems(z) <= part1 + part2 && !OnePart(z, part1)
    ensures Elems(z) * part1 != {} && Elems(z) * part2 != {}
  {
    var i :| 0 <= i < |z| && (z[i] in part1) != (z[0] in part1);
    assert z[i] in Elems(z) && z[0] in Elems(z);
    assert z[if z[i] in part1 then i else 0] in Elems(z) * part1;
    assert z[if z[i] in part1 then 0 else i] in Elems(z) * part2;
  }

  // ---------------------------------------------------------------------------------------
  // Completeness of the two ways to candidates
  // ---------------------------------------------------------------------------------------

  function Last(z: seq<nat>): nat {
    if z == [] then 0 else z[|z| - 1]
  }

  /** Of the first i walked itemsets, all joins with later siblings that are to be counted are candidates. */
  ghost predicate Joined(v: Level, i: nat, cands: Trie) {
    forall a, b :: 0 <= a < i && a < b < |v.prev| ==> JoinedPair(v, v.prev[a], v.prev[b], cands)
  }

  ghost predicate JoinedPair(v: Level, a: seq<nat>, b: seq<nat>, cands: Trie) {
    var z := Insert(a, Last(b));
    Siblings(a, b) && Wanted(v, z) && Joint(z, v.part1) ==> z in cands
  }

  lemma JoinComplete(v: Level, cands: Trie, z: seq<nat>)
    requires Joined(v, |v.prev|, cands) && Wanted(v, z) && Joint(z, v.part1) && v.k > 0
    ensures z in cands
  {
    var a, b := Drop(z, v.k), Drop(z, v.k - 1);
    Unjoin(z);
    assert a in v.prev && b in v.prev;
    hide Wanted, Joint, Drop;
    var i :| 0 <= i < |v.prev| && v.prev[i] == a;
    var j :| 0 <= j < |v.prev| && v.prev[j] == b;
    assert i < j ==> JoinedPair(v, v.prev[i], v.prev[j], cands);
    assert j < i ==> JoinedPair(v, v.prev[j], v.prev[i], cands);
  }

  /** The itemsets of the other part that were seen with the single item x of own. */
  ghost predicate CondOk(own: set<nat>, other: set<nat>, k: nat, prev: Trie, i: nat, cond: map<nat, Trie>) {
    && (forall x, s :: x in cond && s in cond[x] ==> IsCond(own, other, k, x, s))
    && (forall a, x :: 0 <= a < i && a < |prev| && OnlyIn(prev[a], own, x) ==>
        x in cond && Remove(prev[a], x) in cond[x])
  }

  ghost predicate IsCond(own: set<nat>, other: set<nat>, k: nat, x: nat, s: seq<nat>) {
    x in own && Asc(s) && |s| + 1 == k && Elems(s) <= other
  }

  /** All joins of the itemsets seen with x that are to be counted with it are candidates. */
  ghost predicate CondJoined(v: Level, own: set<nat>, x: nat, t: Trie, i: nat, cands: Trie) {
    forall a, b :: 0 <= a < i && a < b < |t| ==> CondPair(v, own, x, t[a], t[b], cands)
  }

  ghost predicate CondPair(v: Level, own: set<nat>, x: nat, a: seq<nat>, b: seq<nat>, cands: Trie) {
    var z := Insert(Insert(a, Last(b)), x);
    Siblings(a, b) && Wanted(v, z) && OnlyIn(z, own, x) ==> z in cands
  }

  /** own and other are the two parts, and freq are the itemsets mined in other. */
  ghost predicate TwoSides(v: Level, own: set<nat>, other: set<nat>, freq: seq<Trie>) {
    && own !! other
    && ((own == v.part1 && other == v.part2 && freq == v.freq2)
        || (own == v.part2 && other == v.part1 && freq == v.freq1))
  }

  /** Leaving out an item commutes with leaving out x. */
  lemma RemoveDrop(z: seq<nat>, x: nat, i: nat) returns (l: nat)
    requires Asc(z) && i < |Remove(z, x)|
    ensures l < |z| && z[l] != x && Remove(Drop(z, l), x) == Drop(Remove(z, x), i)
  {
    RemoveAsc(z, x);
    var r := Remove(z, x);
    assert r[i] in Elems(r);
    l :| 0 <= l < |z| && z[l] == r[i];
    DropAsc(z, l);
    DropAsc(r, i);
    RemoveAsc(Drop(z, l), x);
    AscUnique(Remove(Drop(z, l), x), Drop(r, i));
  }

  lemma StillOnly(z: seq<nat>, own: set<nat>, x: nat, l: nat)
    requires Asc(z) && OnlyIn(z, own, x) && l < |z| && z[l] != x
    ensures OnlyIn(Drop(z, l), own, x)
  {
    DropAsc(z, l);
    assert x in Elems(z) - {z[l]};
    forall y | y in Drop(z, l) ensures y in z { assert y in Elems(z); }
  }

  lemma Swapped(z: seq<nat>, own: set<nat>, other: set<nat>)
    requires own !! other && Elems(z) <= own + other
    ensures OnePart(z, own) <==> OnePart(z, other)
  {
    forall i | 0 <= i < |z| ensures z[i] in own <==> z[i] !in other { assert z[i] in Elems(z); }
  }

  /** The other items of z all lie in the other part. */
  lemma RestInOther(z: seq<nat>, own: set<nat>, other: set<nat>, x: nat)
    requires Asc(z) && OnlyIn(z, own, x) && Elems(z) <= own + other
    ensures Elems(Remove(z, x)) <= other
  {
    RemoveAsc(z, x);
    forall y | y in Elems(Remove(z, x)) ensures y in other { assert y in z; }
  }

  /** z has x as its only item of own: leaving out another item leaves a mixed itemset, which was seen with x. */
  lemma CondSeen(v: Level, own: set<nat>, other: set<nat>, freq: seq<Trie>, cond: map<nat, Trie>, z: seq<nat>, x: nat,
                 i: nat)
    requires TwoSides(v, own, other, freq) && CondOk(own, other, v.k, v.prev, |v.prev|, cond)
    requires Wanted(v, z) && OnlyIn(z, own, x) && v.k >= 2 && i < |Remove(z, x)|
    ensures x in cond && Drop(Remove(z, x), i) in cond[x]
  {
    var l := RemoveDrop(z, x, i);
    StillOnly(z, own, x, l);
    var d := Drop(z, l);
    OnlyDropMixed(v, own, other, freq, z, x, l);
    hide Wanted, Asc, Elems, Drop, OnlyIn, IsCond;
    assert d in v.prev;
    var a :| 0 <= a < |v.prev| && v.prev[a] == d;
  }

  lemma OnlyDropMixed(v: Level, own: set<nat>, other: set<nat>, freq: seq<Trie>, z: seq<nat>, x: nat, l: nat)
    requires TwoSides(v, own, other, freq) && Wanted(v, z) && v.k >= 2 && l < |z| && OnlyIn(Drop(z, l), own, x)
    ensures Drop(z, l) in v.prev
  {
    DropAsc(z, l);
    OnlyMixed(Drop(z, l), own, other, x);
    Swapped(Drop(z, l), own, other);
    hide Drop, Elems, Asc, OnlyIn, OnePart;
  }

  lemma OnlyMixed(z: seq<nat>, own: set<nat>, other: set<nat>, x: nat)
    requires Asc(z) && OnlyIn(z, own, x) && |z| >= 2 && Elems(z) <= own + other && own !! other
    ensures !OnePart(z, own)
  {
    var y := if z[0] == x then z[1] else z[0];
    assert y in z && y != x && y in Elems(z);
    assert x in Elems(z) * own && y in Elems(z) * other;
    NotOnePart(z, own, other);
  }

  /** With all joins of the itemsets seen with x made, everything to be counted with x as its only item of own is a
      candidate. */
  lemma CondComplete(v: Level, own: set<nat>, other: set<nat>, freq: seq<Trie>, cond: map<nat, Trie>, cands: Trie,
                     z: seq<nat>, x: nat)
    requires TwoSides(v, own, other, freq) && CondOk(own, other, v.k, v.prev, |v.prev|, cond) && v.k >= 2
    requires x in cond ==> CondJoined(v, own, x, cond[x], |cond[x]|, cands)
    requires Wanted(v, z) && OnlyIn(z, own, x)
    ensures z in cands
  {
    assert Asc(z) && |z| == v.k + 1;
    hide Wanted, OnlyIn, Drop, Asc, Elems, Remove, Insert, CondOk, CondJoined, TwoSides, Siblings, Last;
    var s := Remove(z, x);
    Reinserted(z, own, x);
    UnjoinLast(s);
    var a, b := Drop(s, v.k - 1), Drop(s, v.k - 2);
    CondSeen(v, own, other, freq, cond, z, x, v.k - 1);
    CondSeen(v, own, other, freq, cond, z, x, v.k - 2);
    CondFound(v, own, x, cond[x], cands, a, b, z);
  }

  lemma UnjoinLast(s: seq<nat>)
    requires Asc(s) && |s| >= 2
    ensures var a, b := Drop(s, |s| - 1), Drop(s, |s| - 2);
      Siblings(a, b) && Siblings(b, a) && a != b && Insert(a, Last(b)) == s && Insert(b, Last(a)) == s
  {
    hide Asc, Insert;
    Unjoin(s);
  }

  /** The single item taken out and put back. */
  lemma Reinserted(z: seq<nat>, own: set<nat>, x: nat)
    requires Asc(z) && OnlyIn(z, own, x)
    ensures Asc(Remove(z, x)) && |Remove(z, x)| + 1 == |z| && Insert(Remove(z, x), x) == z
  {
    hide Asc, Elems, Remove, Insert;
    RemoveAsc(z, x);
    OnlyElem(z, own, x);
    InsertAsc(Remove(z, x), x);
    AscUnique(Insert(Remove(z, x), x), z);
  }

  lemma CondFound(v: Level, own: set<nat>, x: nat, t: Trie, cands: Trie, a: seq<nat>, b: seq<nat>, z: seq<nat>)
    requires CondJoined(v, own, x, t, |t|, cands) && a in t && b in t && a != b
    requires Siblings(a, b) && Siblings(b, a) && Insert(Insert(a, Last(b)), x) == z &&
             Insert(Insert(b, Last(a)), x) == z
    requires Wanted(v, z) && OnlyIn(z, own, x)
    ensures z in cands
  {
    hide Wanted, OnlyIn, Siblings, Insert, Last;
    var i :| 0 <= i < |t| && t[i] == a;
    var j :| 0 <= j < |t| && t[j] == b;
    assert i < j ==> CondPair(v, own, x, t[i], t[j], cands);
    assert j < i ==> CondPair(v, own, x, t[j], t[i], cands);
  }

  /** If leaving out item i leaves items of one part only, then item i is the only one of its part. */
  lemma Lonely(z: seq<nat>, part1: set<nat>, part2: set<nat>, i: nat)
    requires Asc(z) && part1 !! part2 && Elems(z) <= part1 + part2 && !OnePart(z, part1)
    requires i < |z| && OnePart(Drop(z, i), part1)
    ensures OnlyIn(z, part1, z[i]) || OnlyIn(z, part2, z[i])
  {
    var d, x := Drop(z, i), z[i];
    DropAsc(z, i);
    MixedParts(z, part1, part2);
    assert x in Elems(z);
    Swapped(d, part1, part2);
    Sides(d, part1, part2);
    if x in part1 {
      assert Elems(z) * part2 == Elems(d) * part2;
      OnlyRest(z, d, part1, x);
    } else {
      assert Elems(z) * part1 == Elems(d) * part1;
      OnlyRest(z, d, part2, x);
    }
  }

  /** The joins that keep a stored subset for every item left out are those of the itemsets without a
      single item of a part: the others are what the plain join prunes. */
  lemma JointIffNoSingle(z: seq<nat>, part1: set<nat>, part2: set<nat>)
    requires Asc(z) && part1 !! part2 && Elems(z) <= part1 + part2 && !OnePart(z, part1)
    ensures Joint(z, part1) <==> forall x :: !OnlyIn(z, part1, x) && !OnlyIn(z, part2, x)
  {
    if !Joint(z, part1) {
      var i :| 0 <= i < |z| && OnePart(Drop(z, i), part1);
      Lonely(z, part1, part2, i);
    }
    forall x | OnlyIn(z, part1, x) || OnlyIn(z, part2, x) ensures !Joint(z, part1) {
      var i :| 0 <= i < |z| && z[i] == x;
      DropAsc(z, i);
      SingleDropped(z, Drop(z, i), part1, part2, x);
      assert OnePart(Drop(z, i), part1);
    }
  }

  /** Without its single item of one part, only items of the other part are left. */
  lemma SingleDropped(z: seq<nat>, d: seq<nat>, part1: set<nat>, part2: set<nat>, x: nat)
    requires part1 !! part2 && Elems(z) <= part1 + part2 && Elems(d) == Elems(z) - {x}
    requires OnlyIn(z, part1, x) || OnlyIn(z, part2, x)
    ensures OnePart(d, part1)
  {
    forall y | y in d ensures y in part1 <==> !OnlyIn(z, part1, x) {
      assert y in Elems(d);
    }
  }

  lemma OnlyRest(z: seq<nat>, d: seq<nat>, own: set<nat>, x: nat)
    requires x in Elems(z) && x in own && Elems(d) == Elems(z) - {x} && Elems(d) * own == {}
    ensures OnlyIn(z, own, x)
  {
    forall y | y in z && y != x ensures y !in own { assert y in Elems(d); }
  }

  lemma Sides(d: seq<nat>, part1: set<nat>, part2: set<nat>)
    requires part1 !! part2 && OnePart(d, part1)
    ensures Elems(d) * part1 == {} || Elems(d) * part2 == {}
  {
    if d != [] && d[0] in part1 {
      assert forall y :: y in Elems(d) ==> y in part1;
    } else {
      assert forall y :: y in Elems(d) ==> y !in part1;
    }
  }

  lemma OnlyElem(z: seq<nat>, own: set<nat>, x: nat)
    requires OnlyIn(z, own, x)
    ensures x in Elems(z) && Elems(z) == Elems(z) - {x} + {x}
  {
  }

  lemma JoinedMore(v: Level, i: nat, cands: Trie, next: Trie)
    requires Joined(v, i, cands) && forall z :: z in cands ==> z in next
    ensures Joined(v, i, next)
  {
    hide Wanted, Joint;
    forall a, b | 0 <= a < i && a < b < |v.prev| ensures JoinedPair(v, v.prev[a], v.prev[b], next) {
      assert JoinedPair(v, v.prev[a], v.prev[b], cands);
    }
  }

  lemma CondJoinedMore(v: Level, own: set<nat>, x: nat, t: Trie, i: nat, cands: Trie, next: Trie)
    requires CondJoined(v, own, x, t, i, cands) && forall z :: z in cands ==> z in next
    ensures CondJoined(v, own, x, t, i, next)
  {
    hide Wanted, OnlyIn;
    forall a, b | 0 <= a < i && a < b < |t| ensures CondPair(v, own, x, t[a], t[b], next) {
      assert CondPair(v, own, x, t[a], t[b], cands);
    }
  }

  /** An itemset whose only item of own is x is stored for x without it. */
  lemma CondAdd(own: set<nat>, other: set<nat>, k: nat, prev: Trie, i: nat, cond: map<nat, Trie>, x: nat)
    requires CondOk(own, other, k, prev, i, cond) && i < |prev|
    requires Asc(prev[i]) && |prev[i]| == k && Elems(prev[i]) <= own + other && own !! other && OnlyIn(prev[i], own, x)
    ensures CondOk(own, other, k, prev, i + 1, cond[x := Add(if x in cond then cond[x] else [], Remove(prev[i], x))])
  {
    var s := Remove(prev[i], x);
    var next := cond[x := Add(if x in cond then cond[x] else [], s)];
    RemoveAsc(prev[i], x);
    OnlyElem(prev[i], own, x);
    RestInOther(prev[i], own, other, x);
    assert IsCond(own, other, k, x, s);
    AddHolds(if x in cond then cond[x] else [], s);
    forall a, y | 0 <= a < i + 1 && OnlyIn(prev[a], own, y) ensures y in next && Remove(prev[a], y) in next[y] {
      assert a == i ==> y == x;
    }
  }

  lemma AddHolds(t: Trie, z: seq<nat>)
    ensures forall y :: y in Add(t, z) <==> y in t || y == z
  {
    assert (t + [z])[|t|] == z;
  }

  lemma CondSkip(own: set<nat>, other: set<nat>, k: nat, prev: Trie, i: nat, cond: map<nat, Trie>)
    requires CondOk(own, other, k, prev, i, cond) && i < |prev| && forall x :: !OnlyIn(prev[i], own, x)
    ensures CondOk(own, other, k, prev, i + 1, cond)
  {
  }

  /** The join of two itemsets seen with x lies in the other part. With x put back it is a mixed itemset whose items
      of the two parts are x and the join. */
  lemma CondShape(v: Level, own: set<nat>, other: set<nat>, freq: seq<Trie>, x: nat, a: seq<nat>, b: seq<nat>)
    requires TwoSides(v, own, other, freq) && v.k >= 2
    requires IsCond(own, other, v.k, x, a) && IsCond(own, other, v.k, x, b) && Siblings(a, b)
    ensures var s := Insert(a, Last(b));
      && |s| == v.k && IsCandidate(v.part1, v.part2, v.k + 1, Insert(s, x))
      && Restrict(Insert(s, x), own) == [x] && Restrict(Insert(s, x), other) == s
  {
    var s := Insert(a, Last(b));
    JoinSiblings(a, b);
    assert x !in Elems(s);
    hide Insert, Siblings, Last;
    PutBack(v, own, other, freq, x, s);
  }

  lemma PutBack(v: Level, own: set<nat>, other: set<nat>, freq: seq<Trie>, x: nat, s: seq<nat>)
    requires TwoSides(v, own, other, freq) && x in own && Asc(s) && |s| == v.k > 0 && Elems(s) <= other
    ensures var z := Insert(s, x);
      IsCandidate(v.part1, v.part2, v.k + 1, z) && Restrict(z, own) == [x] && Restrict(z, other) == s
  {
    hide Insert, Asc, Elems, Restrict, OnePart;
    var z := Insert(s, x);
    SplitBack(Elems(s), own, other, x);
    InsertAsc(s, x);
    FirstIn(s);
    RestrictAsc(z, own);
    RestrictAsc(z, other);
    OneElem(x);
    NotOnePart(z, own, other);
    Swapped(z, own, other);
    AscUnique(Restrict(z, own), [x]);
    AscUnique(Restrict(z, other), s);
  }

  lemma SplitBack(e: set<nat>, own: set<nat>, other: set<nat>, x: nat)
    requires own !! other && x in own && e <= other
    ensures x !in e && (e + {x}) * own == {x} && (e + {x}) * other == e && e + {x} <= own + other
  {
  }

  lemma OneElem(x: nat)
    ensures Asc([x]) && Elems([x]) == {x}
  {
  }

  /** A mixed itemset of more than two items has a mixed subset with one item less. */
  lemma NoLarger(db: Database, min: nat, part1: set<nat>, part2: set<nat>, k: nat, z: seq<nat>)
    requires part1 !! part2 && k >= 2 && Mixed(db, min, part1, part2, k + 1, z)
    ensures exists y :: Mixed(db, min, part1, part2, k, y)
  {
    MixedParts(z, part1, part2);
    var x :| x in Elems(z) * part1;
    var y :| y in Elems(z) * part2;
    var i: nat :| i < |z| && z[i] != x && z[i] != y by {
      ThreeItems(z, x, y);
    }
    DropAsc(z, i);
    assert x in Elems(Drop(z, i)) * part1 && y in Elems(Drop(z, i)) * part2;
    NotOnePart(Drop(z, i), part1, part2);
    MixedDrop(db, min, part1, part2, k, z, i);
  }

  lemma ThreeItems(z: seq<nat>, x: nat, y: nat)
    requires Asc(z) && |z| >= 3
    ensures exists i: nat :: i < |z| && z[i] != x && z[i] != y
  {
    assert z[0] != z[1] && z[1] != z[2] && z[0] != z[2];
    var i := if z[0] != x && z[0] != y then 0 else if z[1] != x && z[1] != y then 1 else 2;
    assert z[i] != x && z[i] != y;
  }
}
