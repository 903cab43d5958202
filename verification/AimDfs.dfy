/** The recursion of AIM: RecurseMine over the levels of the path, CreateFI writing each path with the
    subsets of its absorbed items, and the per-length counters. */
module AimDfs {
  import opened Basics
  import opened ClosedSets
  import opened AimMasks
  import opened AimExpand
  import opened AimMiner

  // ---------------------------------------------------------------------------------------
  // What one call is responsible for
  // ---------------------------------------------------------------------------------------

  /** The path of a call and the items absorbed along it, which leave its transactions unchanged. */
  ghost predicate PathOk(db: Database, n: nat, level: nat, node: Node, head: Option<CItemset>, ts: seq<Token>) {
    && NodeOk(db, node, head)
    && (head.Some? <==> level > 0) && (level == 1 ==> node.parent == {})
    && Path(ts) == PathOf(node, head) && Distinct(ts)
    && (forall i :: i in All(ts) ==> i < n)
    && Tids(db, All(ts)) == Tids(db, Path(ts))
  }

  ghost predicate FlagsOk(node: Node, useDiffset: bool, firstTimeDiffset: bool, head: Option<CItemset>) {
    && (firstTimeDiffset ==> useDiffset)
    && (head.None? ==> !useDiffset)
    && node.kind == if useDiffset && !firstTimeDiffset then DiffSets else TidSets
  }

  /** The candidates from start on share the node's coordinates, and are distinct items off the path. */
  ghost predicate TailOk(db: Database, n: nat, node: Node, e: Itemset, tail: seq<CItemset>, start: nat) {
    && (forall k :: start <= k < |tail| ==> MaskOk(db, node.space, node.kind, node.parent, tail[k]))
    && (forall k :: start <= k < |tail| ==> tail[k].lastItem < n && tail[k].lastItem !in e)
    && AllDifferent(tail, start)
  }

  ghost predicate AllDifferent(tail: seq<CItemset>, start: nat) {
    forall j, k :: start <= j < k < |tail| ==> tail[j].lastItem != tail[k].lastItem
  }

  ghost function ItemsOf(tail: seq<CItemset>, start: nat): Itemset {
    set k | start <= k < |tail| :: tail[k].lastItem
  }

  ghost predicate Due(db: Database, min: nat, z: Itemset, p: Itemset, done: Itemset, hi: Itemset) {
    p <= z <= hi && !(z <= done) && Supp(db, z) > min
  }

  /** r holds exactly the frequent sets between p and hi that are not within done, once each, with
      their supports. */
  ghost predicate Wrote(db: Database, min: nat, r: seq<Line>, p: Itemset, done: Itemset, hi: Itemset) {
    forall z: Itemset, s: nat :: Count(r, z, s) == if Due(db, min, z, p, done, hi) && s == Supp(db, z) then 1 else 0
  }

  lemma WroteNothing(db: Database, min: nat, p: Itemset, hi: Itemset)
    ensures Wrote(db, min, [], p, hi, hi)
  {
  }

  /** One head: its own sets complete those of the heads before it. */
  lemma WroteHead(db: Database, min: nat, a: seq<Line>, b: seq<Line>, p: Itemset, e: Itemset, h: nat, rest: Itemset,
                  hi: Itemset)
    requires Wrote(db, min, a, p, e + {h} + rest, hi)
    requires Wrote(db, min, b, p + {h}, e, e + {h} + rest)
    requires e + {h} + rest <= hi && h !in e && h !in rest
    ensures Wrote(db, min, a + b, p, e + rest, hi)
  {
    forall z: Itemset, s: nat
      ensures Count(a + b, z, s) == if Due(db, min, z, p, e + rest, hi) && s == Supp(db, z) then 1 else 0
    {
      CountConcat(a, b, z, s);
      hide Supp, Count;
      assert z <= e + rest <==> z <= e + {h} + rest && h !in z;
      assert h in z ==> !(z <= e);
    }
  }

  /** Items that are infrequent with p add nothing to write. */
  lemma WroteBeyond(db: Database, min: nat, r: seq<Line>, p: Itemset, done: Itemset, hi: Itemset, all: Itemset)
    requires Wrote(db, min, r, p, done, hi) && hi <= all
    requires forall x :: x in all - hi ==> Supp(db, p + {x}) <= min
    ensures Wrote(db, min, r, p, done, all)
  {
    forall z: Itemset | p <= z <= all && !(z <= hi) ensures Supp(db, z) <= min {
      var x :| x in z && x !in hi;
      SuppAntitone(db, p + {x}, z);
    }
  }

  /** A child's sets, and the path of the child with every subset of the absorbed items. */
  lemma WroteOwn(db: Database, min: nat, r: seq<Line>, own: seq<Line>, p: Itemset, done: Itemset, hi: Itemset,
                 ts: seq<Token>, e: Itemset)
    requires Wrote(db, min, r, p, done, hi)
    requires p <= done <= hi && Path(ts) == p && All(ts) == done && Distinct(ts)
    requires Tids(db, done) == Tids(db, p) && Supp(db, p) > min
    requires e <= hi && !(p <= e)
    requires own == Expand(ts, Supp(db, p), [])
    ensures Wrote(db, min, r + own, p, e, hi)
  {
    forall z: Itemset, s: nat
      ensures Count(r + own, z, s) == if Due(db, min, z, p, e, hi) && s == Supp(db, z) then 1 else 0
    {
      CountConcat(r, own, z, s);
      ExpandExact(ts, Supp(db, p), [], z, s);
      assert Elems([]) == {};
      if p <= z <= done {
        TidsAntitone(db, p, z);
        TidsAntitone(db, z, done);
        assert Tids(db, z) == Tids(db, p);
        assert Supp(db, z) == Supp(db, p);
      }
      hide Count, Path, All, Tids, Supp;
      assert p <= z ==> !(z <= e);
    }
  }

  // ---------------------------------------------------------------------------------------
  // Tokens
  // ---------------------------------------------------------------------------------------

  lemma {:induction false} TokensConcat(a: seq<Token>, b: seq<Token>)
    ensures All(a + b) == All(a) + All(b) && Path(a + b) == Path(a) + Path(b)
    ensures Distinct(a + b) <==> Distinct(a) && Distinct(b) && All(a) !! All(b)
    ensures Absorbed(a + b) == Absorbed(a) + Absorbed(b)
  {
    if a == [] { assert a + b == b; } else { assert (a + b)[1..] == a[1..] + b; TokensConcat(a[1..], b); }
  }

  lemma {:induction false} OptsSnoc(pep: seq<nat>, i: nat)
    ensures Opts(pep + [i]) == Opts(pep) + [Token(i, true)]
  {
    if pep != [] { assert (pep + [i])[1..] == pep[1..] + [i]; OptsSnoc(pep[1..], i); }
  }

  lemma One(i: nat, absorbed: bool)
    ensures All([Token(i, absorbed)]) == {i} && Path([Token(i, absorbed)]) == if absorbed then {} else {i}
    ensures Distinct([Token(i, absorbed)]) && Absorbed([Token(i, absorbed)]) == if absorbed then 1 else 0
  {
    assert [Token(i, absorbed)][1..] == [];
  }

  /** An item that leaves the support of the path unchanged joins the absorbed ones. */
  lemma PathAbsorbs(db: Database, n: nat, level: nat, node: Node, head: Option<CItemset>, ts: seq<Token>, i: nat)
    requires PathOk(db, n, level, node, head, ts) && i < n && i !in All(ts)
    requires Supp(db, PathOf(node, head) + {i}) == Supp(db, PathOf(node, head))
    ensures PathOk(db, n, level, node, head, ts + [Token(i, true)])
    ensures All(ts + [Token(i, true)]) == All(ts) + {i}
  {
    TokensConcat(ts, [Token(i, true)]);
    One(i, true);
    TidsKept(db, Path(ts), All(ts), i);
    hide Tids, NodeOk, Path, All, Distinct;
  }

  lemma TidsKept(db: Database, p: Itemset, a: Itemset, i: nat)
    requires Tids(db, a) == Tids(db, p) && Supp(db, p + {i}) == Supp(db, p)
    ensures Tids(db, a + {i}) == Tids(db, p)
  {
    SuppAntitone(db, p, p + {i});
    TidsUnion(db, p, {i});
    TidsUnion(db, a, {i});
  }

  /** A frequent extension becomes the head of the next level. */
  lemma PathGrows(db: Database, n: nat, level: nat, node: Node, head: Option<CItemset>, b: Node, h: CItemset,
                  ts: seq<Token>)
    requires PathOk(db, n, level, node, head, ts) && h.lastItem < n && h.lastItem !in All(ts)
    requires IsSpace(b.space) && b.parent == PathOf(node, head) && MaskOk(db, b.space, b.kind, b.parent, h)
    ensures PathOk(db, n, level + 1, b, Some(h), ts + [Token(h.lastItem, false)])
    ensures All(ts + [Token(h.lastItem, false)]) == All(ts) + {h.lastItem}
  {
    TokensConcat(ts, [Token(h.lastItem, false)]);
    One(h.lastItem, false);
    PathInAll(ts);
    TidsUnion(db, Path(ts), {h.lastItem});
    TidsUnion(db, All(ts), {h.lastItem});
  }

  /** Distinct items below n make at most n tokens. */
  lemma {:induction false} TokenBound(ts: seq<Token>, n: nat)
    requires Distinct(ts) && forall i :: i in All(ts) ==> i < n
    ensures |ts| <= n
  {
    TokenCard(ts);
    SubsetCard(All(ts), Upto(n));
  }

  function Upto(n: nat): (r: set<nat>)
    ensures |r| == n && forall i: nat :: i in r <==> i < n
  {
    if n == 0 then {} else Upto(n - 1) + {n - 1}
  }

  lemma {:induction false} TokenCard(ts: seq<Token>)
    requires Distinct(ts)
    ensures |All(ts)| == |ts|
  {
    if ts != [] { TokenCard(ts[1..]); }
  }

  // ---------------------------------------------------------------------------------------
  // Sorting and candidates
  // ---------------------------------------------------------------------------------------

  /** A frequent extension: its support, and where its itemset is kept. */
  datatype Dual = Dual(key: nat, val: nat)

  ghost predicate Sorted(s: seq<Dual>) {
    forall j, k :: 0 <= j < k < |s| ==> s[j].key <= s[k].key
  }

  method Insert(s: seq<Dual>, x: Dual) returns (r: seq<Dual>)
    requires Sorted(s)
    ensures Sorted(r) && multiset(r) == multiset(s) + multiset{x}
  {
    var k := |s|;
    while k > 0 && s[k - 1].key > x.key
      invariant 0 <= k <= |s|
      invariant forall j :: k <= j < |s| ==> s[j].key > x.key
    {
      k := k - 1;
    }
    hide Sorted;
    r := s[..k] + [x] + s[k..];
    InsertBag(s, k, x);
    InsertSorted(s, k, x);
  }

  lemma InsertBag<T>(s: seq<T>, k: nat, x: T)
    requires k <= |s|
    ensures multiset(s[..k] + [x] + s[k..]) == multiset(s) + multiset{x}
  {
    assert s == s[..k] + s[k..];
  }

  lemma InsertSorted(s: seq<Dual>, k: nat, x: Dual)
    requires Sorted(s) && k <= |s|
    requires k > 0 ==> s[k - 1].key <= x.key
    requires k < |s| ==> x.key <= s[k].key
    ensures Sorted(s[..k] + [x] + s[k..])
  {
  }

  /** Some rearrangement in ascending order of support; ties may go either way. */
  method Sort(s: seq<Dual>) returns (r: seq<Dual>)
    ensures Sorted(r) && multiset(r) == multiset(s)
  {
    r := [];
    for i := 0 to |s|
      invariant Sorted(r) && multiset(r) == multiset(s[..i])
    {
      hide Sorted;
      assert s[..i + 1] == s[..i] + [s[i]];
      r := Insert(r, s[i]);
    }
    assert s[..|s|] == s;
  }

  /** d stands for a frequent extension that was not absorbed. */
  ghost predicate Kept(db: Database, min: nat, b: Node, e: Itemset, tail: seq<CItemset>, heads: seq<CItemset>,
                       d: Dual) {
    && d.val < |tail| && d.val < |heads|
    && d.key == heads[d.val].support > min
    && heads[d.val].lastItem == tail[d.val].lastItem && tail[d.val].lastItem !in e
    && MaskOk(db, b.space, b.kind, b.parent, heads[d.val])
  }

  /** The candidates before upto have been told apart: absorbed into e, kept, or infrequent. */
  ghost predicate Scanned(db: Database, min: nat, b: Node, e: Itemset, tail: seq<CItemset>, start: nat, upto: nat,
                          heads: seq<CItemset>, kept: seq<Dual>) {
    && start <= upto <= |tail| <= |heads|
    && (forall d :: d in kept ==> Kept(db, min, b, e, tail, heads, d) && start <= d.val < upto)
    && (forall j, k :: 0 <= j < k < |kept| ==> kept[j].val < kept[k].val)
    && (forall k: nat :: start <= k < upto ==>
          tail[k].lastItem in e || Dual(heads[k].support, k) in kept || Supp(db, b.parent + {tail[k].lastItem}) <= min)
    && (forall k: nat :: upto <= k < |tail| ==> tail[k].lastItem !in e)
  }

  lemma ScanAbsorbs(db: Database, min: nat, b: Node, e: Itemset, tail: seq<CItemset>, start: nat, upto: nat,
                    heads: seq<CItemset>, kept: seq<Dual>)
    requires Scanned(db, min, b, e, tail, start, upto, heads, kept) && upto < |tail|
    requires AllDifferent(tail, start)
    ensures Scanned(db, min, b, e + {tail[upto].lastItem}, tail, start, upto + 1, heads, kept)
  {
    hide MaskOk, Supp;
  }

  lemma ScanDrops(db: Database, min: nat, b: Node, e: Itemset, tail: seq<CItemset>, start: nat, upto: nat,
                  heads: seq<CItemset>, kept: seq<Dual>)
    requires Scanned(db, min, b, e, tail, start, upto, heads, kept) && upto < |tail|
    requires Supp(db, b.parent + {tail[upto].lastItem}) <= min
    ensures Scanned(db, min, b, e, tail, start, upto + 1, heads, kept)
  {
    hide MaskOk, Supp;
  }

  lemma ScanKeeps(db: Database, min: nat, b: Node, e: Itemset, tail: seq<CItemset>, start: nat, upto: nat,
                  heads: seq<CItemset>, kept: seq<Dual>, c: CItemset)
    requires Scanned(db, min, b, e, tail, start, upto, heads, kept) && upto < |tail|
    requires c.lastItem == tail[upto].lastItem && c.support > min && MaskOk(db, b.space, b.kind, b.parent, c)
    ensures Scanned(db, min, b, e, tail, start, upto + 1, heads[upto := c], kept + [Dual(c.support, upto)])
  {
    hide MaskOk, Supp;
    var heads', kept' := heads[upto := c], kept + [Dual(c.support, upto)];
    forall d | d in kept' ensures Kept(db, min, b, e, tail, heads', d) && start <= d.val < upto + 1 {
      assert d in kept || d == Dual(c.support, upto);
    }
    forall k: nat | start <= k < upto + 1
      ensures tail[k].lastItem in e || Dual(heads'[k].support, k) in kept' ||
              Supp(db, b.parent + {tail[k].lastItem}) <= min
    {
      assert kept'[|kept|] == Dual(c.support, upto);
      assert forall d :: d in kept ==> d in kept';
    }
  }

  /** The kept extensions in another order. */
  ghost predicate Newer(heads: seq<CItemset>, order: seq<Dual>, newer: seq<CItemset>) {
    && |newer| == |order|
    && forall k :: 0 <= k < |order| ==> order[k].val < |heads| && newer[k] == heads[order[k].val]
  }

  /** A rearrangement keeps distinct things distinct. */
  lemma OrderDistinct(kept: seq<Dual>, order: seq<Dual>, heads: seq<CItemset>)
    requires multiset(order) == multiset(kept)
    requires forall j, k :: 0 <= j < k < |kept| ==> kept[j].val < kept[k].val
    requires forall d :: d in kept ==> d.val < |heads| && d.key == heads[d.val].support
    ensures forall d :: d in order <==> d in kept
    ensures forall j, k :: 0 <= j < k < |order| ==> order[j].val != order[k].val
  {
    assert forall d :: d in order <==> d in multiset(order);
    assert forall d :: d in kept <==> d in multiset(kept);
    forall j, k | 0 <= j < k < |order| ensures order[j].val != order[k].val {
      if order[j].val == order[k].val {
        assert order[j] in kept && order[k] in kept;
        Twice(order, j, k);
        Once(kept, order[j]);
      }
    }
  }

  lemma Twice(s: seq<Dual>, j: nat, k: nat)
    requires j < k < |s| && s[j] == s[k]
    ensures multiset(s)[s[j]] >= 2
  {
    assert s == s[..k] + [s[k]] + s[k + 1..];
    assert s[j] in s[..k];
  }

  lemma {:induction false} Once(s: seq<Dual>, d: Dual)
    requires forall j, k :: 0 <= j < k < |s| ==> s[j].val < s[k].val
    ensures multiset(s)[d] <= 1
  {
    if s != [] {
      var k := |s| - 1;
      assert s == s[..k] + [s[k]];
      Once(s[..k], d);
      assert d == s[k] ==> d !in s[..k];
    }
  }

  lemma InNewer(heads: seq<CItemset>, order: seq<Dual>, newer: seq<CItemset>, d: Dual)
    requires Newer(heads, order, newer)
    ensures d in order ==> d.val < |heads| && heads[d.val].lastItem in ItemsOf(newer, 0)
  {
    if d in order {
      var j :| 0 <= j < |order| && order[j] == d;
      assert newer[j].lastItem in ItemsOf(newer, 0);
    }
  }

  /** The reordered tail is a proper tail for the next level. */
  lemma NewTail(db: Database, n: nat, min: nat, b: Node, e: Itemset, tail: seq<CItemset>, start: nat,
                heads: seq<CItemset>, kept: seq<Dual>, order: seq<Dual>, newer: seq<CItemset>)
    requires Scanned(db, min, b, e, tail, start, |tail|, heads, kept)
    requires multiset(order) == multiset(kept) && Newer(heads, order, newer)
    requires forall k :: start <= k < |tail| ==> tail[k].lastItem < n
    requires AllDifferent(tail, start)
    ensures TailOk(db, n, b, e, newer, 0)
    ensures forall k :: 0 <= k < |newer| ==> newer[k].support > min
    ensures |newer| <= |tail| - start
  {
    hide MaskOk, Supp;
    OrderDistinct(kept, order, heads);
    assert forall k :: 0 <= k < |order| ==> order[k] in kept;
    KeptBound(kept, start, |tail|);
    assert |multiset(order)| == |multiset(kept)|;
  }

  /** All that is left out of the new tail is absorbed or infrequent. */
  lemma NewItems(db: Database, min: nat, b: Node, e0: Itemset, e: Itemset, tail: seq<CItemset>, start: nat,
                 heads: seq<CItemset>, kept: seq<Dual>, order: seq<Dual>, newer: seq<CItemset>)
    requires Scanned(db, min, b, e, tail, start, |tail|, heads, kept)
    requires multiset(order) == multiset(kept) && Newer(heads, order, newer)
    requires e0 <= e <= e0 + ItemsOf(tail, start)
    ensures e + ItemsOf(newer, 0) <= e0 + ItemsOf(tail, start)
    ensures forall x :: x in e0 + ItemsOf(tail, start) - (e + ItemsOf(newer, 0)) ==> Supp(db, b.parent + {x}) <= min
  {
    hide MaskOk, Supp;
    OrderDistinct(kept, order, heads);
    forall x | x in ItemsOf(newer, 0) ensures x in ItemsOf(tail, start) {
      var k :| 0 <= k < |newer| && newer[k].lastItem == x;
      assert order[k] in kept;
      assert tail[order[k].val].lastItem == x;
    }
    forall x | x in ItemsOf(tail, start) && x !in e + ItemsOf(newer, 0) ensures Supp(db, b.parent + {x}) <= min {
      var k: nat :| start <= k < |tail| && tail[k].lastItem == x;
      var d := Dual(heads[k].support, k);
      InNewer(heads, order, newer, d);
    }
  }

  lemma {:induction false} KeptBound(kept: seq<Dual>, start: nat, upto: nat)
    requires start <= upto
    requires forall d :: d in kept ==> start <= d.val < upto
    requires forall j, k :: 0 <= j < k < |kept| ==> kept[j].val < kept[k].val
    ensures |kept| <= upto - start
  {
    if kept != [] {
      var k := |kept| - 1;
      assert kept[k] in kept;
      forall d | d in kept[..k] ensures start <= d.val < kept[k].val { assert d in kept; }
      KeptBound(kept[..k], start, kept[k].val);
    }
  }
}
