/** The DCI partitioner: ranges of first items with the items and the number of transactions that mining
    them needs. Row lb of the pair table serves as scratch flags for the items seen so far. */
module Partitions {
  import opened Basics
  import opened ClosedSets
  import opened PairTable
  import opened SecondScan

  /** A written partition: first items lb .. ub-1, predicted sizes, and the items it needs. */
  datatype Part = Part(lb: nat, ub: nat, items: nat, trans: nat, ids: seq<nat>)

  predicate Partner(ts: seq<seq<nat>>, n: nat, min: nat, i: nat, j: nat) {
    i < j < n && Pairs(ts, i, j) >= min
  }

  predicate Useful(ts: seq<seq<nat>>, n: nat, min: nat, i: nat) {
    exists j: nat :: j < n && Partner(ts, n, min, i, j)
  }

  /** Mining the first items lb .. i-1 needs x: it has a frequent partner, or is one. */
  predicate Needed(ts: seq<seq<nat>>, n: nat, min: nat, lb: nat, i: nat, x: nat) {
    exists r: nat :: lb <= r < i && NeededFor(ts, n, min, r, x)
  }

  predicate NeededFor(ts: seq<seq<nat>>, n: nat, min: nat, r: nat, x: nat) {
    Partner(ts, n, min, r, x) || (x == r && Useful(ts, n, min, r))
  }

  function NeededSet(ts: seq<seq<nat>>, n: nat, min: nat, lb: nat, i: nat): (s: set<nat>)
    ensures forall x: nat :: x in s <==> x < n && Needed(ts, n, min, lb, i, x)
  {
    set x: nat | x < n && Needed(ts, n, min, lb, i, x)
  }

  lemma NeededStep(ts: seq<seq<nat>>, n: nat, min: nat, lb: nat, i: nat, x: nat)
    requires lb <= i
    ensures Needed(ts, n, min, lb, i + 1, x) <==> Needed(ts, n, min, lb, i, x) || NeededFor(ts, n, min, i, x)
  {
    if Needed(ts, n, min, lb, i + 1, x) && !Needed(ts, n, min, lb, i, x) {
      var r: nat :| lb <= r < i + 1 && NeededFor(ts, n, min, r, x);
      assert r == i;
    }
  }

  /** How many transactions have an item in lb .. ub-1. */
  predicate Touches(t: seq<nat>, lb: nat, ub: nat) {
    exists k :: 0 <= k < |t| && lb <= t[k] < ub
  }

  function Touched(ts: seq<seq<nat>>, lb: nat, ub: nat): nat {
    if ts == [] then 0 else Touched(ts[..|ts| - 1], lb, ub) + if Touches(ts[|ts| - 1], lb, ub) then 1 else 0
  }

  /** The transactions that item i adds are those whose first item from lb on is i. */
  lemma {:induction false} TouchedStep(ts: seq<seq<nat>>, lb: nat, i: nat)
    requires lb <= i
    ensures Touched(ts, lb, i + 1) == Touched(ts, lb, i) + Firsts(ts, lb, i)
  {
    if ts != [] {
      TouchedStep(ts[..|ts| - 1], lb, i);
      var t := ts[|ts| - 1];
      TouchesStep(t, lb, i);
    }
  }

  lemma TouchesStep(t: seq<nat>, lb: nat, i: nat)
    requires lb <= i
    ensures Touches(t, lb, i + 1) <==> Touches(t, lb, i) || IsFirst(t, lb, i)
    ensures !(Touches(t, lb, i) && IsFirst(t, lb, i))
  {
    if Touches(t, lb, i) {
      var k :| 0 <= k < |t| && lb <= t[k] < i;
      assert t[k] in t;
    }
    if i in t {
      var k :| 0 <= k < |t| && t[k] == i;
    }
    if !Touches(t, lb, i) {
      forall y | y in t && lb <= y ensures i <= y {
        var k :| 0 <= k < |t| && t[k] == y;
      }
    }
  }

  lemma {:induction false} TouchedOne(ts: seq<seq<nat>>, lb: nat)
    ensures Touched(ts, lb, lb + 1) == Pairs(ts, lb, lb)
  {
    if ts != [] {
      TouchedOne(ts[..|ts| - 1], lb);
      var t := ts[|ts| - 1];
      if lb in t {
        var k :| 0 <= k < |t| && t[k] == lb;
      }
    }
  }

  // ---------------------------------------------------------------------------------------
  // The table while partitions are being made
  // ---------------------------------------------------------------------------------------

  /** Rows behind lb hold pair supports; row lb does so, too, until the partition has its first item, and
      flags the needed items afterwards. */
  ghost predicate Scratch(c: TriTable, ts: seq<seq<nat>>, min: nat, lb: nat, i: nat)
    requires c.Valid()
    reads c.buf
  {
    && (forall x: nat, y: nat :: c.Cell(x, y) && (x > lb || (x == lb && i == lb)) ==> c.At(x, y) == Pairs(ts, x, y))
    && (lb < i ==> forall y: nat :: c.Cell(lb, y) ==> (c.At(lb, y) != 0 <==> Needed(ts, c.n, min, lb, i, y)))
  }

  /** The partners of i that the items before i have not asked for. */
  function NewPartners(ts: seq<seq<nat>>, n: nat, min: nat, lb: nat, i: nat, upto: nat): (s: set<nat>)
    ensures forall x: nat :: x in s <==> x < upto && Partner(ts, n, min, i, x) && !Needed(ts, n, min, lb, i, x)
  {
    set x: nat | x < upto && Partner(ts, n, min, i, x) && !Needed(ts, n, min, lb, i, x)
  }

  /** The support of a pair, and whether its second item is new to the partition. */
  method ReadPair(c: TriTable, ghost ts: seq<seq<nat>>, min: nat, lb: nat, i: nat, j: nat)
    returns (pair: nat, isNew: bool)
    requires c.Valid() && c.start <= lb <= i < c.end && i < j < c.n && Scratch(c, ts, min, lb, i)
    ensures pair == Pairs(ts, i, j) && (isNew <==> !Needed(ts, c.n, min, lb, i, j))
  {
    pair := c.Get(i, j);
    isNew := i == lb;
    if i != lb {
      var flag := c.Get(lb, j);
      isNew := flag == 0;
    }
  }

  lemma PartnersNext(ts: seq<seq<nat>>, n: nat, min: nat, lb: nat, i: nat, j: nat)
    requires i < j < n
    ensures NewPartners(ts, n, min, lb, i, j + 1) == NewPartners(ts, n, min, lb, i, j)
              + if Pairs(ts, i, j) >= min && !Needed(ts, n, min, lb, i, j) then {j} else {}
    ensures j !in NewPartners(ts, n, min, lb, i, j)
  {
    hide Needed, Pairs;
  }

  method CountNew(c: TriTable, ghost ts: seq<seq<nat>>, min: nat, lb: nat, i: nat) returns (count: nat, isUseful: bool)
    requires c.Valid() && c.start <= lb <= i < c.end && Scratch(c, ts, min, lb, i)
    ensures count == |NewPartners(ts, c.n, min, lb, i, c.n)|
    ensures isUseful <==> Useful(ts, c.n, min, i)
  {
    count, isUseful := 0, false;
    assert NewPartners(ts, c.n, min, lb, i, i + 1) == {};
    for j := i + 1 to c.n
      invariant count == |NewPartners(ts, c.n, min, lb, i, j)|
      invariant isUseful <==> exists x: nat :: x < j && Partner(ts, c.n, min, i, x)
    {
      var pair, isNew := ReadPair(c, ts, min, lb, i, j);
      hide Scratch, Needed, Pairs, Position, Size;
      PartnersNext(ts, c.n, min, lb, i, j);
      if pair >= min {
        isUseful := true;
        assert Partner(ts, c.n, min, i, j);
        if isNew {
          count := count + 1;
        }
      }
    }
  }

  /** The size the partition would get with item i. */
  lemma NeededCard(ts: seq<seq<nat>>, n: nat, min: nat, lb: nat, i: nat)
    requires lb <= i < n
    ensures |NeededSet(ts, n, min, lb, i + 1)| == |NeededSet(ts, n, min, lb, i)| + |NewPartners(ts, n, min, lb, i, n)|
         + if Useful(ts, n, min, i) && !Needed(ts, n, min, lb, i, i) then 1 else 0
  {
    var own := if Useful(ts, n, min, i) && !Needed(ts, n, min, lb, i, i) then {i} else {};
    var before, added := NeededSet(ts, n, min, lb, i), NewPartners(ts, n, min, lb, i, n);
    forall x: nat ensures x in NeededSet(ts, n, min, lb, i + 1) <==> x in before + added + own {
      NeededStep(ts, n, min, lb, i, x);
    }
    assert NeededSet(ts, n, min, lb, i + 1) == before + added + own;
  }

  /** Takes item i into the partition. */
  method AddItem(c: TriTable, ghost ts: seq<seq<nat>>, min: nat, lb: nat, i: nat, isUseful: bool)
    requires c.Valid() && c.start <= lb <= i < c.end && Scratch(c, ts, min, lb, i)
    requires isUseful <==> Useful(ts, c.n, min, i)
    modifies c.buf
    ensures Scratch(c, ts, min, lb, i + 1)
  {
    forall x: nat ensures Needed(ts, c.n, min, lb, i + 1, x) <==>
        Needed(ts, c.n, min, lb, i, x) || NeededFor(ts, c.n, min, i, x) {
      NeededStep(ts, c.n, min, lb, i, x);
    }
    if i != lb && isUseful {
      c.Set(lb, i, 1);
    }
    hide Needed, Useful, Position, Size, Pairs;
    for j := i + 1 to c.n
      invariant forall x: nat, y: nat :: c.Cell(x, y) && x > lb ==> c.At(x, y) == Pairs(ts, x, y)
      invariant i == lb ==> forall y: nat :: c.Cell(lb, y) && y >= j ==> c.At(lb, y) == Pairs(ts, lb, y)
      invariant i == lb ==> forall y: nat :: c.Cell(lb, y) && y < j ==>
                  (c.At(lb, y) != 0 <==> NeededFor(ts, c.n, min, i, y))
      invariant i != lb ==> forall y: nat :: c.Cell(lb, y) ==>
        (c.At(lb, y) != 0 <==> Needed(ts, c.n, min, lb, i, y) || (y < j && NeededFor(ts, c.n, min, i, y)))
    {
      var pair := c.Get(i, j);
      if i == lb {
        c.Set(lb, j, if pair >= min then 1 else 0);
      } else {
        var flag := c.Get(lb, j);
        c.Set(lb, j, if pair >= min then 1 else flag);
      }
    }
  }

  // ---------------------------------------------------------------------------------------
  // Writing partitions
  // ---------------------------------------------------------------------------------------

  /** The partition needs exactly its listed items, which begin with lb, and is touched by trans transactions. */
  ghost predicate PartOk(ts: seq<seq<nat>>, n: nat, min: nat, p: Part) {
    && p.lb < p.ub <= n && Asc(p.ids) && |p.ids| == p.items > 0 && p.ids[0] == p.lb
    && (forall x: nat :: x in p.ids <==> x < n && Needed(ts, n, min, p.lb, p.ub, x))
    && p.trans == Touched(ts, p.lb, p.ub)
  }

  /** Ascending disjoint ranges below upto that cover all useful first items from lo on. */
  ghost predicate PartsOk(ts: seq<seq<nat>>, n: nat, min: nat, lo: nat, upto: nat, parts: seq<Part>) {
    && (forall k :: 0 <= k < |parts| ==> PartOk(ts, n, min, parts[k]) && lo <= parts[k].lb && parts[k].ub <= upto)
    && (forall k, l :: 0 <= k < l < |parts| ==> parts[k].ub <= parts[l].lb)
    && (forall r: nat :: lo <= r < upto && Useful(ts, n, min, r) ==> Covered(parts, r))
  }

  ghost predicate Covered(parts: seq<Part>, r: nat) {
    exists k :: 0 <= k < |parts| && parts[k].lb <= r < parts[k].ub
  }

  lemma PartsSkip(ts: seq<seq<nat>>, n: nat, min: nat, lo: nat, lb: nat, parts: seq<Part>)
    requires PartsOk(ts, n, min, lo, lb, parts) && !Useful(ts, n, min, lb)
    ensures PartsOk(ts, n, min, lo, lb + 1, parts)
  {
  }

  lemma PartsAdd(ts: seq<seq<nat>>, n: nat, min: nat, lo: nat, parts: seq<Part>, p: Part)
    requires PartsOk(ts, n, min, lo, p.lb, parts) && PartOk(ts, n, min, p) && lo <= p.lb
    ensures PartsOk(ts, n, min, lo, p.ub, parts + [p])
  {
    var next := parts + [p];
    assert next[|parts|] == p;
    forall r: nat | lo <= r < p.ub && Useful(ts, n, min, r) ensures Covered(next, r) {
      if r < p.lb {
        assert Covered(parts, r);
        var k :| 0 <= k < |parts| && parts[k].lb <= r < parts[k].ub;
        assert next[k] == parts[k];
      }
    }
  }

  /** The size limit: a partition fits, unless it has one first item only, and where it ends before the chunk does,
      one more first item would not have fitted. */
  ghost predicate Packed(ts: seq<seq<nat>>, n: nat, min: nat, fits: (nat, nat) -> bool, ends: seq<nat>,
                         lb: nat, ub: nat, items: nat, trans: nat) {
    && (ub == lb + 1 || fits(items, trans))
    && (ub in ends || !fits(|NeededSet(ts, n, min, lb, ub + 1)|, Touched(ts, lb, ub + 1)))
  }

  ghost predicate AllPacked(ts: seq<seq<nat>>, n: nat, min: nat, fits: (nat, nat) -> bool, ends: seq<nat>,
                            parts: seq<Part>) {
    forall k :: 0 <= k < |parts| ==>
      Packed(ts, n, min, fits, ends, parts[k].lb, parts[k].ub, parts[k].items, parts[k].trans)
  }

  lemma PackedAdd(ts: seq<seq<nat>>, n: nat, min: nat, fits: (nat, nat) -> bool, ends: seq<nat>, parts: seq<Part>,
                  p: Part)
    requires AllPacked(ts, n, min, fits, ends, parts) && Packed(ts, n, min, fits, ends, p.lb, p.ub, p.items, p.trans)
    ensures AllPacked(ts, n, min, fits, ends, parts + [p])
  {
    hide Packed;
  }

  /** The first item ub does not go into the open partition. */
  lemma PackedFull(ts: seq<seq<nat>>, n: nat, min: nat, fits: (nat, nat) -> bool, ends: seq<nat>, lb: nat, ub: nat,
                   items: nat, trans: nat, newItems: nat, newTrans: nat)
    requires Open(ts, n, min, lb, ub + 1, newItems, newTrans) && !fits(newItems, newTrans)
    requires lb < ub && (lb + 1 < ub ==> fits(items, trans))
    ensures Packed(ts, n, min, fits, ends, lb, ub, items, trans)
  {
    hide Useful, Touched, NeededSet;
  }

  lemma PackedLast(ts: seq<seq<nat>>, n: nat, min: nat, fits: (nat, nat) -> bool, ends: seq<nat>, lb: nat, ub: nat,
                   items: nat, trans: nat)
    requires lb < ub && ub in ends && (lb + 1 < ub ==> fits(items, trans))
    ensures Packed(ts, n, min, fits, ends, lb, ub, items, trans)
  {
  }

  /** A partition under construction: its items and transactions so far. */
  ghost predicate Open(ts: seq<seq<nat>>, n: nat, min: nat, lb: nat, i: nat, items: nat, trans: nat) {
    && lb <= i <= n && items == |NeededSet(ts, n, min, lb, i)|
    && (lb < i ==> Useful(ts, n, min, lb) && trans == Touched(ts, lb, i))
  }

  /** Reads the needed items off the flags. */
  method WritePart(c: TriTable, ghost ts: seq<seq<nat>>, min: nat, lb: nat, i: nat, items: nat, trans: nat)
    returns (p: Part)
    requires c.Valid() && c.start <= lb < i <= c.end && Scratch(c, ts, min, lb, i) &&
             Open(ts, c.n, min, lb, i, items, trans)
    ensures PartOk(ts, c.n, min, p) && p.lb == lb && p.ub == i && p.items == items && p.trans == trans
  {
    var ids: seq<nat> := [lb];
    assert Needed(ts, c.n, min, lb, i, lb) by { assert NeededFor(ts, c.n, min, lb, lb); }
    NothingBelow(ts, c.n, min, lb, i);
    for j := lb + 1 to c.n
      invariant |ids| > 0 && Asc(ids) && ids[0] == lb && (forall x :: x in ids ==> x < j)
      invariant forall x: nat :: x in ids <==> x < j && Needed(ts, c.n, min, lb, i, x)
    {
      var flag := c.Get(lb, j);
      hide Needed, Position, Size;
      if flag != 0 {
        assert forall k :: 0 <= k < |ids| ==> ids[k] in ids;
        ids := ids + [j];
      }
    }
    AscCard(ids);
    assert Elems(ids) == NeededSet(ts, c.n, min, lb, i);
    p := Part(lb, i, items, trans, ids);
  }

  lemma NothingBelow(ts: seq<seq<nat>>, n: nat, min: nat, lb: nat, i: nat)
    ensures forall x: nat :: x < lb ==> !Needed(ts, n, min, lb, i, x)
  {
  }

  /** Partitions of one chunk. fits stands for the comparison with the memory limit. */
  method MakePartitions(c: TriTable, trs: TriTable, ghost ts: seq<seq<nat>>, min: nat, supports: seq<nat>,
                        fits: (nat, nat) -> bool)
    returns (parts: seq<Part>)
    requires c.Valid() && trs.Valid() && c.buf != trs.buf && trs.n == c.n && trs.start == c.start && trs.end == c.end
    requires HoldsPairs(c, ts) && HoldsFirsts(trs, ts)
    requires |supports| == c.n && forall x: nat :: x < c.n ==> supports[x] == Pairs(ts, x, x)
    modifies c.buf
    ensures PartsOk(ts, c.n, min, c.start, c.end, parts)
    ensures AllPacked(ts, c.n, min, fits, [c.end], parts)
  {
    parts := [];
    assert AllPacked(ts, c.n, min, fits, [c.end], parts);
    var lb, i, items, trans := c.start, c.start, 0, 0;
    assert NeededSet(ts, c.n, min, lb, i) == {};
    assert Open(ts, c.n, min, lb, i, items, trans) && Scratch(c, ts, min, lb, i) &&
           PartsOk(ts, c.n, min, c.start, lb, parts);
    hide Open, Scratch, PartsOk, HoldsPairs, HoldsFirsts, Useful, Needed, NewPartners, PartOk, Touched, Size, Position,
      Packed, AllPacked, NeededSet;
    while i < c.end
      invariant c.start <= lb <= i <= c.end && Open(ts, c.n, min, lb, i, items, trans)
      invariant Scratch(c, ts, min, lb, i) && PartsOk(ts, c.n, min, c.start, lb, parts)
      invariant AllPacked(ts, c.n, min, fits, [c.end], parts) && (lb + 1 < i ==> fits(items, trans))
      decreases c.end - i, i - lb
    {
      var newTrans, newItems, isUseful := Sizes(c, trs, ts, min, supports, lb, i, items, trans);
      if newItems == 0 {
        SkipFirst(c, ts, min, lb, i, items, trans, isUseful);
        PartsSkip(ts, c.n, min, c.start, lb, parts);
        lb, i := lb + 1, i + 1;
      } else {
        if isUseful {
          var seen := IsSeen(c, ts, min, lb, i);
          if !seen {
            newItems := newItems + 1;
          }
        }
        OpenMore(ts, c.n, min, lb, i, items, trans, newItems, newTrans);
        if i == lb || fits(newItems, newTrans) {
          AddItem(c, ts, min, lb, i, isUseful);
          items, trans := newItems, newTrans;
          i := i + 1;
        } else {
          PackedFull(ts, c.n, min, fits, [c.end], lb, i, items, trans, newItems, newTrans);
          parts := ClosePart(c, ts, min, lb, i, items, trans, parts, fits);
          Restart(c, ts, min, lb, i);
          lb, items, trans := i, 0, 0;
        }
      }
    }
    if items > 0 {
      Begun(ts, c.n, min, lb, i, items, trans);
      PackedLast(ts, c.n, min, fits, [c.end], lb, i, items, trans);
      parts := ClosePart(c, ts, min, lb, i, items, trans, parts, fits);
    } else {
      NotBegun(ts, c.n, min, lb, i, trans);
    }
  }

  /** A finished partition joins the others. */
  method ClosePart(c: TriTable, ghost ts: seq<seq<nat>>, min: nat, lb: nat, i: nat, items: nat, trans: nat,
                   parts: seq<Part>, ghost fits: (nat, nat) -> bool)
    returns (next: seq<Part>)
    requires c.Valid() && c.start <= lb < i <= c.end && Scratch(c, ts, min, lb, i) &&
             Open(ts, c.n, min, lb, i, items, trans)
    requires PartsOk(ts, c.n, min, c.start, lb, parts)
    requires AllPacked(ts, c.n, min, fits, [c.end], parts)
    requires Packed(ts, c.n, min, fits, [c.end], lb, i, items, trans)
    ensures PartsOk(ts, c.n, min, c.start, i, next) && AllPacked(ts, c.n, min, fits, [c.end], next)
  {
    hide *;
    var p := WritePart(c, ts, min, lb, i, items, trans);
    PartsAdd(ts, c.n, min, c.start, parts, p);
    PackedAdd(ts, c.n, min, fits, [c.end], parts, p);
    next := parts + [p];
  }

  /** The rows behind lb are untouched: the next partition starts from pair supports. */
  lemma Restart(c: TriTable, ts: seq<seq<nat>>, min: nat, lb: nat, i: nat)
    requires c.Valid() && lb < i <= c.n && Scratch(c, ts, min, lb, i)
    ensures Scratch(c, ts, min, i, i) && Open(ts, c.n, min, i, i, 0, 0)
  {
    assert NeededSet(ts, c.n, min, i, i) == {};
  }

  method IsSeen(c: TriTable, ghost ts: seq<seq<nat>>, min: nat, lb: nat, i: nat) returns (seen: bool)
    requires c.Valid() && c.start <= lb <= i < c.end && Scratch(c, ts, min, lb, i)
    ensures seen <==> Needed(ts, c.n, min, lb, i, i)
  {
    seen := false;
    if i != lb {
      var flag := c.Get(lb, i);
      seen := flag != 0;
    }
  }

  /** Predicted transactions with item i, items with the new partners of i. */
  method Sizes(c: TriTable, trs: TriTable, ghost ts: seq<seq<nat>>, min: nat, supports: seq<nat>, lb: nat, i: nat,
               items: nat, trans: nat)
    returns (newTrans: nat, newItems: nat, isUseful: bool)
    requires c.Valid() && trs.Valid() && trs.n == c.n && trs.start == c.start && trs.end == c.end
    requires c.start <= lb <= i < c.end && Scratch(c, ts, min, lb, i) && HoldsFirsts(trs, ts)
    requires |supports| == c.n && forall x: nat :: x < c.n ==> supports[x] == Pairs(ts, x, x)
    requires Open(ts, c.n, min, lb, i, items, trans)
    ensures newTrans == Touched(ts, lb, i + 1)
    ensures newItems == items + |NewPartners(ts, c.n, min, lb, i, c.n)| && (isUseful <==> Useful(ts, c.n, min, i))
  {
    if lb == i {
      newTrans := supports[lb];
      TouchedOne(ts, lb);
    } else {
      var first := trs.Get(lb, i);
      newTrans := trans + first;
      TouchedStep(ts, lb, i);
    }
    var count;
    count, isUseful := CountNew(c, ts, min, lb, i);
    newItems := items + count;
  }

  lemma OpenMore(ts: seq<seq<nat>>, n: nat, min: nat, lb: nat, i: nat, items: nat, trans: nat, newItems: nat,
                 newTrans: nat)
    requires Open(ts, n, min, lb, i, items, trans) && i < n && newTrans == Touched(ts, lb, i + 1)
    requires newItems == items + |NewPartners(ts, n, min, lb, i, n)|
      + if Useful(ts, n, min, i) && !Needed(ts, n, min, lb, i, i) then 1 else 0
    requires newItems > 0
    ensures Open(ts, n, min, lb, i + 1, newItems, newTrans)
  {
    NeededCard(ts, n, min, lb, i);
    if lb == i {
      UsefulFirst(ts, n, min, lb, newItems);
    }
  }

  /** The first item of a partition is useful. */
  lemma UsefulFirst(ts: seq<seq<nat>>, n: nat, min: nat, lb: nat, items: nat)
    requires items == |NeededSet(ts, n, min, lb, lb + 1)| > 0
    ensures Useful(ts, n, min, lb)
  {
    var x :| x in NeededSet(ts, n, min, lb, lb + 1);
    var r: nat :| lb <= r < lb + 1 && NeededFor(ts, n, min, r, x);
    assert Partner(ts, n, min, lb, x) ==> x < n;
  }

  /** No items with item i: i is the first of its partition, and useless. */
  lemma SkipFirst(c: TriTable, ts: seq<seq<nat>>, min: nat, lb: nat, i: nat, items: nat, trans: nat, isUseful: bool)
    requires c.Valid() && c.start <= lb <= i < c.end && Scratch(c, ts, min, lb, i) &&
             Open(ts, c.n, min, lb, i, items, trans)
    requires items + |NewPartners(ts, c.n, min, lb, i, c.n)| == 0
    ensures lb == i && !Useful(ts, c.n, min, lb) && Scratch(c, ts, min, lb + 1, i + 1) &&
            Open(ts, c.n, min, lb + 1, i + 1, items, trans)
  {
    NotBegun(ts, c.n, min, lb, i, trans);
    assert NewPartners(ts, c.n, min, lb, i, c.n) == {};
    assert NeededSet(ts, c.n, min, lb + 1, i + 1) == {};
    forall j: nat | j < c.n ensures !Partner(ts, c.n, min, lb, j) {
      assert j !in NewPartners(ts, c.n, min, lb, lb, c.n);
    }
  }

  lemma NotBegun(ts: seq<seq<nat>>, n: nat, min: nat, lb: nat, i: nat, trans: nat)
    requires Open(ts, n, min, lb, i, 0, trans)
    ensures lb == i
  {
    FirstNeeded(ts, n, min, lb, i);
  }

  lemma FirstNeeded(ts: seq<seq<nat>>, n: nat, min: nat, lb: nat, i: nat)
    requires i <= n
    ensures lb < i && Useful(ts, n, min, lb) ==> lb in NeededSet(ts, n, min, lb, i)
  {
    assert Useful(ts, n, min, lb) ==> NeededFor(ts, n, min, lb, lb);
  }

  lemma Begun(ts: seq<seq<nat>>, n: nat, min: nat, lb: nat, i: nat, items: nat, trans: nat)
    requires Open(ts, n, min, lb, i, items, trans) && items > 0
    ensures lb < i
  {
    assert NeededSet(ts, n, min, lb, lb) == {};
  }

  // ---------------------------------------------------------------------------------------
  // All chunks
  // ---------------------------------------------------------------------------------------

  /** Neighbouring chunks give one list of partitions. */
  lemma PartsConcat(ts: seq<seq<nat>>, n: nat, min: nat, lo: nat, mid: nat, hi: nat, a: seq<Part>, b: seq<Part>)
    requires lo <= mid <= hi && PartsOk(ts, n, min, lo, mid, a) && PartsOk(ts, n, min, mid, hi, b)
    ensures PartsOk(ts, n, min, lo, hi, a + b)
  {
    var r := a + b;
    forall x: nat | lo <= x < hi && Useful(ts, n, min, x) ensures Covered(r, x) {
      if x < mid {
        assert Covered(a, x);
        var k :| 0 <= k < |a| && a[k].lb <= x < a[k].ub;
        assert r[k] == a[k];
      } else {
        assert Covered(b, x);
        var k :| 0 <= k < |b| && b[k].lb <= x < b[k].ub;
        assert r[|a| + k] == b[k];
      }
    }
  }

  lemma PackedConcat(ts: seq<seq<nat>>, n: nat, min: nat, fits: (nat, nat) -> bool, ends: seq<nat>, hi: nat,
                     a: seq<Part>, b: seq<Part>)
    requires AllPacked(ts, n, min, fits, ends, a) && AllPacked(ts, n, min, fits, [hi], b) && hi in ends
    ensures AllPacked(ts, n, min, fits, ends, a + b)
  {
    hide NeededSet, Touched;
  }

  /** The second scan over any chunks of rows: exact partitions, as large as the limit allows, and the closed single
      items. */
  method ScanChunks(ts: seq<seq<nat>>, n: nat, min: nat, supports: seq<nat>, bounds: seq<nat>, fits: (nat, nat) -> bool)
    returns (parts: seq<Part>, toOutput: array<bool>)
    requires AllTrans(ts, n) && |supports| == n && (forall x: nat :: x < n ==> supports[x] == Supp(Db(ts), {x}) >= min)
    requires |bounds| > 0 && bounds[0] == 0 && bounds[|bounds| - 1] == n
    requires forall k :: 0 < k < |bounds| ==> bounds[k - 1] <= bounds[k] <= n
    ensures fresh(toOutput) && toOutput.Length == n
    ensures PartsOk(ts, n, min, 0, n, parts) && AllPacked(ts, n, min, fits, bounds, parts)
    ensures forall z: nat :: z < n ==> (toOutput[z] <==> IsClosed(Db(ts), n, {z}))
  {
    toOutput := new bool[n](_ => true);
    ghost var all := toOutput[..];
    parts := [];
    FlagsStart(all, ts, min, supports, 0);
    forall x: nat | x < n ensures supports[x] == Pairs(ts, x, x) { PairsIsSupp(ts, x, x); assert {x, x} == {x}; }
    for k := 1 to |bounds|
      invariant toOutput.Length == n && bounds[k - 1] <= n
      invariant PartsOk(ts, n, min, 0, bounds[k - 1], parts) && AllPacked(ts, n, min, fits, bounds, parts)
      invariant Flags(all, toOutput[..], ts, min, supports, 0, bounds[k - 1], 0)
    {
      ghost var before := toOutput[..];
      hide PartsOk, AllPacked, Flags, IsClosed, Supp, HoldsPairs, HoldsFirsts, Pairs;
      var c, trs := ScanData(ts, n, bounds[k - 1], bounds[k]);
      MarkClosed(c, ts, min, supports, toOutput);
      FlagsChunks(all, before, toOutput[..], ts, min, supports, 0, bounds[k - 1], bounds[k]);
      var more := MakePartitions(c, trs, ts, min, supports, fits);
      PartsConcat(ts, n, min, 0, bounds[k - 1], bounds[k], parts, more);
      PackedConcat(ts, n, min, fits, bounds, bounds[k], parts, more);
      parts := parts + more;
    }
    forall z: nat | z < n ensures toOutput[z] <==> IsClosed(Db(ts), n, {z}) {
      ClosedLeft(all, toOutput[..], ts, n, min, supports, z);
    }
  }
}
