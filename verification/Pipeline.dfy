/** The third scan of the DCI miner from end to end: partitions are loaded, reordered and mined. */
module Pipeline {
  import opened Basics
  import opened ClosedSets
  import opened DciWalk
  import opened SecondScan
  import opened TidWords
  import C = Columns
  import D = DciPolicies
  import P = Partitions
  import T = ThirdScan
  import W = DciWorker

  // ---------------------------------------------------------------------------------------
  // Bitmaps as databases
  // ---------------------------------------------------------------------------------------

  ghost function ColumnOf(vd: array2<bool>, q: nat): (s: Itemset)
    requires q < vd.Length1
    reads vd
    ensures forall i: nat :: i in s <==> i < vd.Length0 && vd[i, q]
  {
    set i: nat | i < vd.Length0 && vd[i, q]
  }

  /** The columns of a bitmap as transactions. */
  ghost function DbOf(vd: array2<bool>): (db: Database)
    reads vd
    ensures |db| == vd.Length1 && forall q: nat :: q < vd.Length1 ==> db[q] == ColumnOf(vd, q)
  {
    seq(vd.Length1, q requires 0 <= q < vd.Length1 reads vd => ColumnOf(vd, q))
  }

  lemma TidsRow(vd: array2<bool>, i: nat)
    requires i < vd.Length0
    ensures Tids(DbOf(vd), {i}) == C.Row(vd, i)
  {
    forall q: nat ensures q in Tids(DbOf(vd), {i}) <==> q in C.Row(vd, i) {
      if q < vd.Length1 { assert {i} <= DbOf(vd)[q] <==> i in ColumnOf(vd, q); }
    }
  }

  // ---------------------------------------------------------------------------------------
  // Column permutations
  // ---------------------------------------------------------------------------------------

  /** The columns of the second database are those of the first in their new places. */
  ghost predicate Permuted(mask: seq<bool>, before: Database, after: Database, n: nat) {
    && |before| == |after| == |mask|
    && forall i: nat :: i < n ==> Tids(after, {i}) == C.Moved(mask, Tids(before, {i}))
  }

  lemma MovedAll(mask: seq<bool>, before: Database, after: Database)
    requires |before| == |after| == |mask|
    ensures Tids(after, {}) == C.Moved(mask, Tids(before, {}))
  {
    forall q: nat ensures q in Tids(after, {}) <==> q in C.Moved(mask, Tids(before, {})) {
      if q < |mask| { var p := C.PlaceOnto(mask, q); }
      if p: nat :| p in Tids(before, {}) && C.Place(mask, p) == q { C.PlaceInjective(mask, p, p); }
    }
  }

  lemma {:induction false} MovedTids(mask: seq<bool>, before: Database, after: Database, n: nat, x: Itemset)
    requires Permuted(mask, before, after, n) && forall i :: i in x ==> i < n
    ensures Tids(after, x) == C.Moved(mask, Tids(before, x))
    decreases x
  {
    hide Tids, C.Moved;
    if x == {} {
      MovedAll(mask, before, after);
    } else {
      var i :| i in x;
      var y := x - {i};
      assert x == y + {i};
      MovedTids(mask, before, after, n, y);
      TidsUnion(before, y, {i});
      TidsUnion(after, y, {i});
      TidsBelow(before, y);
      TidsBelow(before, {i});
      C.MovedPreserves(mask, Tids(before, y), Tids(before, {i}));
    }
  }

  lemma TidsBelow(db: Database, x: Itemset)
    ensures forall t :: t in Tids(db, x) ==> t < |db|
  {
  }

  /** Supports and closures are those of the database before. */
  lemma PermutedSame(mask: seq<bool>, before: Database, after: Database, n: nat, x: Itemset)
    requires Permuted(mask, before, after, n) && forall i :: i in x ==> i < n
    ensures Supp(after, x) == Supp(before, x) && Closure(after, n, x) == Closure(before, n, x)
  {
    hide Tids, C.Moved;
    MovedTids(mask, before, after, n, x);
    TidsBelow(before, x);
    C.MovedPreserves(mask, Tids(before, x), Tids(before, x));
    forall i: nat | i < n ensures i in Closure(after, n, x) <==> i in Closure(before, n, x) {
      TidsBelow(before, {i});
      C.MovedPreserves(mask, Tids(before, x), Tids(before, {i}));
    }
  }

  /** So the reordering leaves the answer of every run unchanged. */
  lemma PermutedTarget(mask: seq<bool>, before: Database, after: Database, n: nat, min: nat, ub: nat, c: Itemset)
    requires Permuted(mask, before, after, n)
    ensures D.Target(after, n, min, ub, c) <==> D.Target(before, n, min, ub, c)
    ensures D.Target(after, n, min, ub, c) ==> Supp(after, c) == Supp(before, c)
  {
    hide Tids, Supp, Permuted;
    if forall i :: i in c ==> i < n {
      PermutedSame(mask, before, after, n, c);
    }
  }

  // ---------------------------------------------------------------------------------------
  // From the bitmap to the worker's dataset
  // ---------------------------------------------------------------------------------------

  lemma BelowBits(s: set<nat>, size: nat, k: nat)
    requires k <= size
    ensures Bits(Words(s, size), 0, k) == |C.Below(s, k * WORD_BITS)|
  {
    BitsIsCard(s, size, k);
    forall e ensures e / WORD_BITS < k <==> e < k * WORD_BITS {}
    assert (set e | e in s && e / WORD_BITS < k) == C.Below(s, k * WORD_BITS);
  }

  /** Rows that agree below the end of the section have the same words there. */
  lemma SharedWords(a: set<nat>, b: set<nat>, size: nat, k: nat, w: nat)
    requires w < k <= size && forall q: nat :: q < k * WORD_BITS ==> (q in a <==> q in b)
    ensures Words(a, size)[w] == Words(b, size)[w]
  {
    forall e: nat ensures e in Words(a, size)[w] <==> e in Words(b, size)[w] {
      if e / WORD_BITS == w { assert e < k * WORD_BITS; }
    }
  }

  /** The dataset that the worker sees: the rows in words, with the section equal. */
  ghost predicate Represents(data: W.Vertical, db: Database) {
    && data.Valid() && (forall t :: 0 <= t < |db| ==> t / WORD_BITS < data.size)
    && forall i: nat :: i < |data.rows| ==> data.rows[i] == Words(Tids(db, {i}), data.size)
  }

  lemma VerticalOk(vd: array2<bool>, size: nat, start: nat, section: nat, bits: nat, data: W.Vertical)
    requires vd.Length1 == size * WORD_BITS && size >= 1 && start <= vd.Length0 && section <= size
    requires forall i: nat, q: nat :: start <= i < vd.Length0 && q < section * WORD_BITS ==>
               vd[i, q] == vd[vd.Length0 - 1, q]
    requires bits == if start < vd.Length0 then |C.Below(C.Row(vd, start), section * WORD_BITS)| else 0
    requires |data.rows| == vd.Length0 && data.size == size && data.head == section && data.startSE == start
    requires data.seBits == bits
    requires forall i: nat :: i < vd.Length0 ==> data.rows[i] == Words(C.Row(vd, i), size)
    ensures Represents(data, DbOf(vd))
  {
    forall i: nat, w: nat | start <= i < vd.Length0 && w < section ensures data.rows[i][w] == data.rows[start][w] {
      var a, b := C.Row(vd, i), C.Row(vd, start);
      forall q: nat | q < section * WORD_BITS ensures q in a <==> q in b {
        assert vd[i, q] == vd[start, q];
      }
      SharedWords(a, b, size, section, w);
    }
    if start < vd.Length0 { BelowBits(C.Row(vd, start), size, section); }
    forall i: nat | i < vd.Length0 ensures data.rows[i] == Words(Tids(DbOf(vd), {i}), size) {
      TidsRow(vd, i);
    }
  }

  /** The database with given rows. */
  ghost function FromRows(rows: seq<set<nat>>, width: nat): (db: Database)
    ensures |db| == width
    ensures forall q: nat, i: nat :: q < width ==> (i in db[q] <==> i < |rows| && q in rows[i])
  {
    seq(width, q requires 0 <= q < width => set i: nat | i < |rows| && q in rows[i])
  }

  lemma RowsGive(vd: array2<bool>, rows: seq<set<nat>>)
    requires |rows| == vd.Length0 && forall i: nat :: i < vd.Length0 ==> rows[i] == C.Row(vd, i)
    ensures DbOf(vd) == FromRows(rows, vd.Length1)
    ensures forall i: nat :: i < vd.Length0 ==> Tids(DbOf(vd), {i}) == rows[i]
  {
    var a, b := DbOf(vd), FromRows(rows, vd.Length1);
    forall q: nat | q < vd.Length1 ensures a[q] == b[q] {
      forall i: nat ensures i in a[q] <==> i in b[q] {}
    }
    forall i: nat | i < vd.Length0 ensures Tids(DbOf(vd), {i}) == rows[i] { TidsRow(vd, i); }
  }

  /** Moving the columns keeps the number of transactions of every item, so the supports counted on loading stay
      those of the rows. */
  lemma RowsKept(vd: array2<bool>, rows: seq<set<nat>>, mask: seq<bool>, moved: bool)
    requires |rows| == vd.Length0 && |mask| == vd.Length1
    requires forall i: nat, q: nat :: i < |rows| && q in rows[i] ==> q < |mask|
    requires forall i: nat :: i < vd.Length0 ==> C.Row(vd, i) == if moved then C.Moved(mask, rows[i]) else rows[i]
    ensures forall i: nat :: i < vd.Length0 ==> |C.Row(vd, i)| == |rows[i]|
  {
    hide C.Row, C.Moved;
    forall i: nat | i < vd.Length0 ensures |C.Row(vd, i)| == |rows[i]| {
      C.MovedPreserves(mask, rows[i], rows[i]);
    }
  }

  /** find_section_equal, and the dataset it leaves: whatever columns move, it is the same mining problem, and the
      worker gets the longest section that the rows accepted by the test share. */
  method Prepare(vd: array2<bool>, size: nat, enough: (nat, nat) -> bool)
    returns (data: W.Vertical, ghost mask: seq<bool>)
    requires vd.Length0 > 0 && vd.Length1 == size * WORD_BITS && size >= 1
    modifies vd
    ensures Represents(data, DbOf(vd)) && |data.rows| == vd.Length0
    ensures DbOf(vd) == old(DbOf(vd)) || Permuted(mask, old(DbOf(vd)), DbOf(vd), vd.Length0)
    ensures C.SectionIs(old(C.RowsOf(vd)), vd.Length1, enough, data.startSE, data.head)
    ensures forall i: nat :: i < vd.Length0 ==> |C.Row(vd, i)| == |old(C.RowsOf(vd))[i]|
    ensures forall i: nat :: i < |data.rows| ==> (data.InSE(i) <==> i >= data.startSE)
  {
    hide C.SectionIs;
    ghost var before := DbOf(vd);
    ghost var rows := C.RowsOf(vd);
    RowsGive(vd, rows);
    var start, section, bits;
    start, section, bits, mask := C.FindSectionEqual(vd, enough);
    RowsKept(vd, rows, mask, start < vd.Length0);
    var words := seq(vd.Length0, i requires 0 <= i < vd.Length0 reads vd => Words(C.Row(vd, i), size));
    data := W.Vertical(words, size, section, start, bits);
    VerticalOk(vd, size, start, section, bits, data);
    RowsGive(vd, C.RowsOf(vd));
    if start == vd.Length0 {
      assert C.RowsOf(vd) == rows;
    }
  }

  // ---------------------------------------------------------------------------------------
  // Items of a partition and items of the whole database
  // ---------------------------------------------------------------------------------------

  /** conditional_unmap on an itemset. */
  function Named(ids: seq<nat>, c: Itemset): (y: Itemset)
    ensures forall x :: x in y <==> exists k: nat :: k in c && k < |ids| && ids[k] == x
  {
    set k: nat | k in c && k < |ids| :: ids[k]
  }

  function Index(ids: seq<nat>, y: Itemset): (c: Itemset)
    ensures forall k: nat :: k in c <==> k < |ids| && ids[k] in y
  {
    set k: nat | k < |ids| && ids[k] in y
  }

  predicate Inside(c: Itemset, n: nat) {
    forall k :: k in c ==> k < n
  }

  lemma NamedIndex(ids: seq<nat>, y: Itemset)
    requires y <= Elems(ids)
    ensures Named(ids, Index(ids, y)) == y
  {
    forall x | x in y ensures x in Named(ids, Index(ids, y)) {
      var k :| 0 <= k < |ids| && ids[k] == x;
      assert k in Index(ids, y);
    }
  }

  lemma IndexNamed(ids: seq<nat>, c: Itemset)
    requires Asc(ids) && Inside(c, |ids|)
    ensures Index(ids, Named(ids, c)) == c
  {
    forall k: nat | k in Index(ids, Named(ids, c)) ensures k in c {
      var l: nat :| l in c && l < |ids| && ids[l] == ids[k];
    }
    forall k | k in c ensures k in Index(ids, Named(ids, c)) {
      assert ids[k] in Named(ids, c);
    }
  }

  lemma {:induction false} NamedCard(ids: seq<nat>, c: Itemset)
    requires Asc(ids) && Inside(c, |ids|)
    ensures |Named(ids, c)| == |c|
    decreases c
  {
    if c == {} {
      assert Named(ids, c) == {};
    } else {
      var k :| k in c;
      var d := c - {k};
      NamedCard(ids, d);
      NamedAdd(ids, d, k);
      assert d + {k} == c;
      NotNamed(ids, d, k);
      hide Named;
    }
  }

  lemma NotNamed(ids: seq<nat>, c: Itemset, k: nat)
    requires Asc(ids) && k < |ids| && k !in c
    ensures ids[k] !in Named(ids, c)
  {
  }

  lemma NamedAdd(ids: seq<nat>, c: Itemset, k: nat)
    requires k < |ids|
    ensures Named(ids, c + {k}) == Named(ids, c) + {ids[k]}
  {
    forall x ensures x in Named(ids, c + {k}) <==> x in Named(ids, c) || x == ids[k] {
      if x in Named(ids, c) {
        var l: nat :| l in c && l < |ids| && ids[l] == x;
        assert l in c + {k};
      }
      assert k in c + {k};
    }
  }

  /** The transactions of a bitmap that holds the given rows. */
  ghost predicate IsLocal(loc: Database, p: P.Part, rows: seq<seq<nat>>) {
    && |rows| <= |loc|
    && forall r: nat, k: nat :: r < |loc| ==> (k in loc[r] <==> k < |p.ids| && r < |rows| && p.ids[k] in rows[r])
  }

  lemma ColumnsLocal(vd: array2<bool>, p: P.Part, rows: seq<seq<nat>>)
    requires T.Columns(vd, p, rows)
    ensures IsLocal(DbOf(vd), p, rows)
  {
  }

  lemma LocalRow(loc: Database, p: P.Part, rows: seq<seq<nat>>, c: Itemset, k: nat, r: nat)
    requires IsLocal(loc, p, rows) && k in c && Inside(c, |p.ids|) && r < |loc|
    ensures c <= loc[r] <==> r < |rows| && Named(p.ids, c) <= Elems(rows[r])
  {
    var y := Named(p.ids, c);
    if c <= loc[r] {
      assert k in loc[r];
      forall x | x in y ensures x in Elems(rows[r]) {
        var l: nat :| l in c && l < |p.ids| && p.ids[l] == x;
        assert l in loc[r];
      }
    }
    if r < |rows| && y <= Elems(rows[r]) {
      forall l | l in c ensures l in loc[r] {
        assert p.ids[l] in y && p.ids[l] in Elems(rows[r]);
      }
    }
  }

  /** The tids of an itemset in the bitmap are those in the loaded transactions. */
  lemma LocalTids(loc: Database, p: P.Part, rows: seq<seq<nat>>, c: Itemset)
    requires IsLocal(loc, p, rows) && c != {} && Inside(c, |p.ids|)
    ensures Tids(loc, c) == Tids(Db(rows), Named(p.ids, c))
  {
    hide Named, Inside, Elems;
    var k :| k in c;
    forall r: nat | r < |loc| ensures c <= loc[r] <==> r < |rows| && Named(p.ids, c) <= Elems(rows[r]) {
      LocalRow(loc, p, rows, c, k, r);
    }
  }

  lemma LocalSupport(loc: Database, p: P.Part, ts: seq<seq<nat>>, c: Itemset, k: nat)
    requires IsLocal(loc, p, T.Loaded(p, ts)) && Inside(c, |p.ids|) && k in c && p.ids[k] < p.ub
    ensures Supp(loc, c) == Supp(Db(ts), Named(p.ids, c))
  {
    hide Tids, T.Loaded, IsLocal;
    LocalTids(loc, p, T.Loaded(p, ts), c);
    assert p.ids[k] in Named(p.ids, c);
    T.LoadedSupport(p, ts, Named(p.ids, c), p.ids[k]);
  }

  lemma InclusionBySupport(db: Database, x: Itemset, i: nat)
    ensures Tids(db, x) <= Tids(db, {i}) <==> Supp(db, x + {i}) == Supp(db, x)
  {
    TidsUnion(db, x, {i});
    SuppAntitone(db, x, x + {i});
    if Tids(db, x) <= Tids(db, {i}) { assert Tids(db, x) * Tids(db, {i}) == Tids(db, x); }
  }

  /** Closed among the items from lo on. */
  ghost predicate ClosedFrom(db: Database, n: nat, lo: nat, y: Itemset) {
    && (forall x :: x in y ==> lo <= x < n)
    && forall q: nat :: lo <= q < n && Tids(db, y) <= Tids(db, {q}) ==> q in y
  }

  /** Two items of a frequent pair are in the partition of the smaller one's range. */
  lemma PairNeeded(ts: seq<seq<nat>>, n: nat, min: nat, p: P.Part, f: nat, q: nat)
    requires P.PartOk(ts, n, min, p) && p.lb <= f < p.ub && p.lb <= q < n && q != f
    requires Supp(Db(ts), {f, q}) >= min
    ensures q in p.ids && f in p.ids
  {
    hide Supp;
    PairsIsSupp(ts, f, q);
    PairsIsSupp(ts, q, f);
    assert {f, q} == {q, f};
    if f < q {
      assert P.Partner(ts, n, min, f, q);
      assert P.NeededFor(ts, n, min, f, q) && P.NeededFor(ts, n, min, f, f);
    } else {
      assert P.Partner(ts, n, min, q, f);
      assert P.NeededFor(ts, n, min, q, f) && P.NeededFor(ts, n, min, q, q);
    }
  }

  /** An item that every transaction of a frequent set has makes a frequent pair with its items. */
  lemma SharedPair(db: Database, y: Itemset, f: nat, q: nat)
    requires f in y && Tids(db, y) <= Tids(db, {q})
    ensures Supp(db, {f, q}) >= Supp(db, y)
  {
    TidsUnion(db, {f}, {q});
    assert {f} + {q} == {f, q};
    TidsAntitone(db, {f}, y);
    SubsetCard(Tids(db, y), Tids(db, {f, q}));
  }

  lemma ItemsFrom(ts: seq<seq<nat>>, n: nat, min: nat, p: P.Part, k: nat)
    requires P.PartOk(ts, n, min, p) && k < |p.ids|
    ensures p.lb <= p.ids[k] < n
  {
    assert p.ids[k] in p.ids;
  }

  /** Closed in the bitmap is closed among the items from lb on. */
  lemma LocalClosed(loc: Database, ts: seq<seq<nat>>, n: nat, min: nat, p: P.Part, c: Itemset, k: nat)
    requires P.PartOk(ts, n, min, p) && IsLocal(loc, p, T.Loaded(p, ts))
    requires Inside(c, |p.ids|) && k in c && p.ids[k] < p.ub && Supp(Db(ts), Named(p.ids, c)) >= min
    ensures IsClosed(loc, |p.ids|, c) <==> ClosedFrom(Db(ts), n, p.lb, Named(p.ids, c))
  {
    var y, db, f := Named(p.ids, c), Db(ts), p.ids[k];
    hide Tids, Supp, IsLocal, T.Loaded;
    ItemsFrom(ts, n, min, p, k);
    forall j: nat | j < |p.ids| ensures j in Closure(loc, |p.ids|, c) <==> Tids(db, y) <= Tids(db, {p.ids[j]}) {
      LocalInclusion(loc, ts, p, c, k, j);
    }
    if IsClosed(loc, |p.ids|, c) {
      forall q: nat | p.lb <= q < n && Tids(db, y) <= Tids(db, {q}) ensures q in y {
        if q != f {
          SharedPair(db, y, f, q);
          PairNeeded(ts, n, min, p, f, q);
        }
        var j :| 0 <= j < |p.ids| && p.ids[j] == q;
      }
      forall x | x in y ensures p.lb <= x < n {
        var j: nat :| j in c && j < |p.ids| && p.ids[j] == x;
        ItemsFrom(ts, n, min, p, j);
      }
    }
    if ClosedFrom(db, n, p.lb, y) {
      forall j: nat ensures j in Closure(loc, |p.ids|, c) <==> j in c {
        if j in c {
          assert p.ids[j] in y;
          TidsAntitone(db, {p.ids[j]}, y);
        } else if j < |p.ids| {
          ItemsFrom(ts, n, min, p, j);
          IndexNamed(p.ids, c);
          assert j in Index(p.ids, y) <==> p.ids[j] in y;
        }
      }
    }
  }

  lemma LocalInclusion(loc: Database, ts: seq<seq<nat>>, p: P.Part, c: Itemset, k: nat, j: nat)
    requires IsLocal(loc, p, T.Loaded(p, ts)) && Inside(c, |p.ids|) && k in c && p.ids[k] < p.ub && j < |p.ids|
    ensures Tids(loc, c) <= Tids(loc, {j}) <==> Tids(Db(ts), Named(p.ids, c)) <= Tids(Db(ts), {p.ids[j]})
  {
    hide Tids, Supp, IsLocal, T.Loaded;
    LocalSupport(loc, p, ts, c, k);
    LocalSupport(loc, p, ts, c + {j}, k);
    NamedAdd(p.ids, c, j);
    InclusionBySupport(loc, c, j);
    InclusionBySupport(Db(ts), Named(p.ids, c), p.ids[j]);
  }

  /** What a partition contributes: the frequent sets of two or more items that have a first item of its range and
      are closed among the items from the start of the range on. */
  ghost predicate Mined(db: Database, n: nat, min: nat, lb: nat, ub: nat, y: Itemset) {
    ClosedFrom(db, n, lb, y) && Supp(db, y) >= min && |y| >= 2 && exists f :: f in y && f < ub
  }

  /** All its items belong to the partition. */
  lemma MinedInside(ts: seq<seq<nat>>, n: nat, min: nat, p: P.Part, y: Itemset)
    requires P.PartOk(ts, n, min, p) && Mined(Db(ts), n, min, p.lb, p.ub, y)
    ensures y <= Elems(p.ids)
  {
    hide Tids, Supp;
    var f :| f in y && f < p.ub;
    var other :| other in y - {f} by { if y - {f} == {} { assert y <= {f}; SubsetCard(y, {f}); } }
    forall x | x in y ensures x in p.ids {
      var q := if x == f then other else x;
      SuppAntitone(Db(ts), {f, q}, y);
      PairNeeded(ts, n, min, p, f, q);
    }
  }

  /** The sets that the worker looks for in the bitmap are, under their names, those that the partition is to
      contribute. */
  lemma LocalTarget(loc: Database, ts: seq<seq<nat>>, n: nat, min: nat, p: P.Part, ub: nat, c: Itemset)
    requires P.PartOk(ts, n, min, p) && IsLocal(loc, p, T.Loaded(p, ts))
    requires ub <= |p.ids| && forall k :: 0 <= k < |p.ids| ==> (p.ids[k] < p.ub <==> k < ub)
    ensures D.Target(loc, |p.ids|, min, ub, c) && |c| >= 2
       <==> Inside(c, |p.ids|) && Mined(Db(ts), n, min, p.lb, p.ub, Named(p.ids, c))
    ensures D.Target(loc, |p.ids|, min, ub, c) ==> Supp(loc, c) == Supp(Db(ts), Named(p.ids, c))
  {
    var y := Named(p.ids, c);
    hide Tids, Supp, IsLocal, T.Loaded, P.PartOk, ClosedFrom, IsClosed;
    if D.Target(loc, |p.ids|, min, ub, c) {
      D.ClosedBelow(loc, |p.ids|, c);
    }
    if Inside(c, |p.ids|) {
      PartAsc(ts, n, min, p);
      NamedCard(p.ids, c);
      if k :| k in c && k < ub {
        assert p.ids[k] in y;
        LocalSupport(loc, p, ts, c, k);
        if Supp(Db(ts), y) >= min { LocalClosed(loc, ts, n, min, p, c, k); }
      }
      if f :| f in y && f < p.ub {
        var k: nat :| k in c && k < |p.ids| && p.ids[k] == f;
        assert k < ub;
      }
    }
  }

  lemma PartAsc(ts: seq<seq<nat>>, n: nat, min: nat, p: P.Part)
    requires P.PartOk(ts, n, min, p)
    ensures Asc(p.ids)
  {
  }

  // ---------------------------------------------------------------------------------------
  // One partition
  // ---------------------------------------------------------------------------------------

  function Rename(ids: seq<nat>, e: Event): Event {
    match e
    case Infrequent(gen) => Infrequent(Named(ids, gen))
    case Duplicate(gen) => Duplicate(Named(ids, gen))
    case Found(items, supp) => Found(Named(ids, items), supp)
  }

  /** The output is written with the items' names. */
  function Renamed(ids: seq<nat>, r: seq<Event>): seq<Event> {
    if r == [] then [] else Renamed(ids, r[..|r| - 1]) + [Rename(ids, r[|r| - 1])]
  }

  lemma {:induction false} RenamedCount(ids: seq<nat>, r: seq<Event>, y: Itemset, s: nat)
    requires Asc(ids) && forall c, v :: Found(c, v) in r ==> Inside(c, |ids|)
    ensures multiset(Renamed(ids, r))[Found(y, s)]
         == if y <= Elems(ids) then multiset(r)[Found(Index(ids, y), s)] else 0
  {
    hide Rename, Index, Inside, Asc;
    if r != [] {
      var k := |r| - 1;
      RenamedCount(ids, r[..k], y, s);
      assert r == r[..k] + [r[k]];
      assert r[k] in r;
      RenameIs(ids, r[k], y, s);
    }
  }

  lemma RenameIs(ids: seq<nat>, e: Event, y: Itemset, s: nat)
    requires Asc(ids) && (e.Found? ==> Inside(e.items, |ids|))
    ensures Rename(ids, e) == Found(y, s) <==> y <= Elems(ids) && e == Found(Index(ids, y), s)
  {
    if e.Found? && Named(ids, e.items) == y {
      IndexNamed(ids, e.items);
      forall x | x in y ensures x in ids {
        var k: nat :| k in e.items && k < |ids| && ids[k] == x;
      }
    }
    if y <= Elems(ids) { NamedIndex(ids, y); }
  }

  /** One entry for every set of the partition, with its support. */
  ghost predicate Lists(out: seq<Event>, db: Database, n: nat, min: nat, lb: nat, ub: nat) {
    forall y, s :: multiset(out)[Found(y, s)] == if Mined(db, n, min, lb, ub, y) && s == Supp(db, y) then 1 else 0
  }

  lemma ListsNamed(loc: Database, ts: seq<seq<nat>>, n: nat, min: nat, p: P.Part, ub: nat, r: seq<Event>)
    requires P.PartOk(ts, n, min, p) && IsLocal(loc, p, T.Loaded(p, ts))
    requires ub <= |p.ids| && forall k :: 0 <= k < |p.ids| ==> (p.ids[k] < p.ub <==> k < ub)
    requires forall c, s :: multiset(r)[Found(c, s)]
               == if D.Target(loc, |p.ids|, min, ub, c) && |c| >= 2 && s == Supp(loc, c) then 1 else 0
    ensures Lists(Renamed(p.ids, r), Db(ts), n, min, p.lb, p.ub)
  {
    hide Supp, D.Target, IsLocal, T.Loaded, P.PartOk, Mined, Renamed, Index, Named;
    PartAsc(ts, n, min, p);
    forall c, v | Found(c, v) in r ensures Inside(c, |p.ids|) {
      assert multiset(r)[Found(c, v)] > 0;
      LocalTarget(loc, ts, n, min, p, ub, c);
    }
    forall y, s ensures multiset(Renamed(p.ids, r))[Found(y, s)]
                     == if Mined(Db(ts), n, min, p.lb, p.ub, y) && s == Supp(Db(ts), y) then 1 else 0
    {
      RenamedCount(p.ids, r, y, s);
      if y <= Elems(p.ids) {
        NamedIndex(p.ids, y);
        LocalTarget(loc, ts, n, min, p, ub, Index(p.ids, y));
      } else if Mined(Db(ts), n, min, p.lb, p.ub, y) {
        MinedInside(ts, n, min, p, y);
        assert false;
      }
    }
  }

  /** A partition has two items and a transaction: the checks for less never fail. */
  lemma PartSize(ts: seq<seq<nat>>, n: nat, min: nat, p: P.Part)
    requires P.PartOk(ts, n, min, p) && min >= 1
    ensures p.items >= 2 && p.trans >= 1
  {
    assert p.lb in p.ids;
    var r: nat :| p.lb <= r < p.ub && P.NeededFor(ts, n, min, r, p.lb);
    assert r == p.lb;
    var j: nat :| j < n && P.Partner(ts, n, min, p.lb, j);
    assert P.NeededFor(ts, n, min, p.lb, j);
    assert j in p.ids;
    PairTouches(ts, p.lb, p.ub, p.lb, j);
  }

  lemma {:induction false} PairTouches(ts: seq<seq<nat>>, lb: nat, ub: nat, f: nat, j: nat)
    requires lb <= f < ub
    ensures Pairs(ts, f, j) <= P.Touched(ts, lb, ub)
  {
    if ts != [] {
      PairTouches(ts[..|ts| - 1], lb, ub, f, j);
    }
  }

  /** One turn of the loop over the partitions: load, reorder, mine, with one job or with one job per item. */
  method MinePartition(ts: seq<seq<nat>>, n: nat, min: nat, p: P.Part, enough: (nat, nat) -> bool, oneJob: bool)
    returns (out: seq<Event>)
    requires AllTrans(ts, n) && P.PartOk(ts, n, min, p) && min >= 1
    ensures Lists(out, Db(ts), n, min, p.lb, p.ub)
  {
    PartSize(ts, n, min, p);
    var vd, supports, ub, rows := T.LoadDB(p, ts, n, min);
    ghost var loaded := DbOf(vd);
    ColumnsLocal(vd, p, T.Loaded(p, ts));
    assert p.ids[0] == p.lb < p.ub && |p.ids| == p.items;
    hide Represents, Permuted, Lists, IsLocal, D.Target, P.PartOk, Supp, T.Loaded, T.Columns;
    var data, mask := Prepare(vd, T.RowWords(p.trans), enough);
    var r := Run(data, min, ub, DbOf(vd), oneJob);
    forall c, s ensures multiset(r)[Found(c, s)]
                     == if D.Target(loaded, |p.ids|, min, ub, c) && |c| >= 2 && s == Supp(loaded, c) then 1 else 0
    {
      if DbOf(vd) != loaded {
        PermutedTarget(mask, loaded, DbOf(vd), |p.ids|, min, ub, c);
      }
    }
    ListsNamed(loaded, ts, n, min, p, ub, r);
    out := Renamed(p.ids, r);
  }

  /** A fresh worker on the dataset. */
  method Run(data: W.Vertical, min: nat, ub: nat, ghost db: Database, oneJob: bool) returns (out: seq<Event>)
    requires Represents(data, db) && |data.rows| >= 1 && ub >= 1
    ensures forall c, s :: multiset(out)[Found(c, s)]
              == if D.Target(db, |data.rows|, min, ub, c) && |c| >= 2 && s == Supp(db, c) then 1 else 0
  {
    var worker := new W.Worker(data, min, db);
    hide D.Target, Supp;
    if oneJob {
      worker.RunWhole(ub);
    } else {
      worker.Run(ub);
    }
    out := worker.out;
  }

  // ---------------------------------------------------------------------------------------
  // All partitions
  // ---------------------------------------------------------------------------------------

  /** y is contributed by one of the first k partitions. */
  ghost predicate MinedBy(db: Database, n: nat, min: nat, parts: seq<P.Part>, k: nat, y: Itemset) {
    exists l :: 0 <= l < k && l < |parts| && Mined(db, n, min, parts[l].lb, parts[l].ub, y)
  }

  /** The local closed sets of the first k partitions, each once and with its support. */
  ghost predicate ListsAll(out: seq<Event>, db: Database, n: nat, min: nat, parts: seq<P.Part>, k: nat) {
    forall y, s :: multiset(out)[Found(y, s)] == if MinedBy(db, n, min, parts, k, y) && s == Supp(db, y) then 1 else 0
  }

  /** No two partitions contribute the same set: its smallest item is in one range only. */
  lemma OnePart(ts: seq<seq<nat>>, n: nat, min: nat, parts: seq<P.Part>, k: nat, y: Itemset)
    requires P.PartsOk(ts, n, min, 0, n, parts) && k < |parts|
    requires Mined(Db(ts), n, min, parts[k].lb, parts[k].ub, y)
    ensures !MinedBy(Db(ts), n, min, parts, k, y)
  {
    hide Tids, Supp, P.PartOk, Mined;
    forall l | 0 <= l < k ensures !Mined(Db(ts), n, min, parts[l].lb, parts[l].ub, y) {
      OneRange(Db(ts), n, min, parts[l].lb, parts[l].ub, parts[k].lb, parts[k].ub, y);
    }
  }

  lemma OneRange(db: Database, n: nat, min: nat, lb: nat, ub: nat, lb2: nat, ub2: nat, y: Itemset)
    requires ub <= lb2 && Mined(db, n, min, lb2, ub2, y)
    ensures !Mined(db, n, min, lb, ub, y)
  {
    hide Tids, Supp;
  }

  lemma ListsMore(ts: seq<seq<nat>>, n: nat, min: nat, parts: seq<P.Part>, k: nat, out: seq<Event>, more: seq<Event>)
    requires P.PartsOk(ts, n, min, 0, n, parts) && k < |parts|
    requires ListsAll(out, Db(ts), n, min, parts, k)
    requires Lists(more, Db(ts), n, min, parts[k].lb, parts[k].ub)
    ensures ListsAll(out + more, Db(ts), n, min, parts, k + 1)
  {
    hide Supp, Mined, P.PartsOk;
    forall y, s ensures multiset(out + more)[Found(y, s)]
                     == if MinedBy(Db(ts), n, min, parts, k + 1, y) && s == Supp(Db(ts), y) then 1 else 0
    {
      if Mined(Db(ts), n, min, parts[k].lb, parts[k].ub, y) { OnePart(ts, n, min, parts, k, y); }
    }
  }

  /** The third scan: every partition is mined. */
  method ThirdScan(ts: seq<seq<nat>>, n: nat, min: nat, parts: seq<P.Part>, enough: (nat, nat) -> bool, oneJob: bool)
    returns (out: seq<Event>)
    requires AllTrans(ts, n) && P.PartsOk(ts, n, min, 0, n, parts) && min >= 1
    ensures ListsAll(out, Db(ts), n, min, parts, |parts|)
  {
    out := [];
    for k := 0 to |parts|
      invariant ListsAll(out, Db(ts), n, min, parts, k)
    {
      hide ListsAll, Lists;
      var more := MinePartition(ts, n, min, parts[k], enough, oneJob);
      ListsMore(ts, n, min, parts, k, out, more);
      out := out + more;
    }
  }

  // ---------------------------------------------------------------------------------------
  // Closed sets among the contributions
  // ---------------------------------------------------------------------------------------

  /** Nothing is missed: a closed frequent set of two or more items is contributed by the partition of its
      smallest item. */
  lemma Complete(ts: seq<seq<nat>>, n: nat, min: nat, parts: seq<P.Part>, y: Itemset)
    requires P.PartsOk(ts, n, min, 0, n, parts) && IsClosed(Db(ts), n, y) && Supp(Db(ts), y) >= min && |y| >= 2
    ensures MinedBy(Db(ts), n, min, parts, |parts|, y)
  {
    hide Tids, Supp, P.PartOk;
    D.ClosedBelow(Db(ts), n, y);
    var f := D.HasSmallest(y);
    var q :| q in y - {f} by { if y - {f} == {} { assert y <= {f}; SubsetCard(y, {f}); } }
    SuppAntitone(Db(ts), {f, q}, y);
    PairsIsSupp(ts, f, q);
    assert P.Partner(ts, n, min, f, q);
    assert P.Useful(ts, n, min, f) && P.Covered(parts, f);
    var k :| 0 <= k < |parts| && parts[k].lb <= f < parts[k].ub;
    assert ClosedFrom(Db(ts), n, parts[k].lb, y) by {
      forall i: nat | i < n && Tids(Db(ts), y) <= Tids(Db(ts),
                                                       {i}) ensures i in y { assert i in Closure(Db(ts), n, y); }
    }
  }

  /** The items by which a contributed set fails to be closed are smaller than all its own: they are those from
      before the range. With them it is closed, has the same support, and is contributed as well. */
  lemma SpuriousClosure(ts: seq<seq<nat>>, n: nat, min: nat, parts: seq<P.Part>, y: Itemset)
    requires P.PartsOk(ts, n, min, 0, n, parts) && MinedBy(Db(ts), n, min, parts, |parts|, y)
    ensures y <= Closure(Db(ts), n, y) && Supp(Db(ts), Closure(Db(ts), n, y)) == Supp(Db(ts), y)
    ensures forall a, b :: a in Closure(Db(ts), n, y) - y && b in y ==> a < b
    ensures MinedBy(Db(ts), n, min, parts, |parts|, Closure(Db(ts), n, y))
  {
    var db := Db(ts);
    var z := Closure(db, n, y);
    var k :| 0 <= k < |parts| && Mined(db, n, min, parts[k].lb, parts[k].ub, y);
    ClosureClosed(db, n, y);
    SubsetCard(y, z);
    Complete(ts, n, min, parts, z);
  }

  lemma ClosureClosed(db: Database, n: nat, y: Itemset)
    requires Inside(y, n)
    ensures y <= Closure(db, n, y) && IsClosed(db, n, Closure(db, n, y))
    ensures Supp(db, Closure(db, n, y)) == Supp(db, y)
  {
    var z := Closure(db, n, y);
    forall i | i in y ensures i in z { TidsAntitone(db, {i}, y); }
    TidsOfMembers(db, y, z);
    TidsAntitone(db, y, z);
    assert Tids(db, z) == Tids(db, y);
  }

  /** A contributed set is closed exactly when no larger one of the same support is contributed. */
  lemma ClosedIff(ts: seq<seq<nat>>, n: nat, min: nat, parts: seq<P.Part>, y: Itemset)
    requires P.PartsOk(ts, n, min, 0, n, parts) && MinedBy(Db(ts), n, min, parts, |parts|, y)
    ensures IsClosed(Db(ts), n, y)
       <==> !exists z :: MinedBy(Db(ts), n, min, parts, |parts|, z) && y < z && Supp(Db(ts), z) == Supp(Db(ts), y)
  {
    var db := Db(ts);
    SpuriousClosure(ts, n, min, parts, y);
    if z :| MinedBy(db, n, min, parts, |parts|, z) && y < z && Supp(db, z) == Supp(db, y) {
      var i :| i in z && i !in y;
      SuppAntitone(db, y, z);
      TidsAntitone(db, {i}, z);
      assert i in Closure(db, n, y);
    }
  }

  /** With a single partition there is nothing to remove. */
  lemma SinglePart(ts: seq<seq<nat>>, n: nat, min: nat, parts: seq<P.Part>, y: Itemset)
    requires P.PartsOk(ts, n, min, 0, n, parts) && |parts| == 1 && MinedBy(Db(ts), n, min, parts, 1, y)
    ensures IsClosed(Db(ts), n, y)
  {
    var db := Db(ts);
    SpuriousClosure(ts, n, min, parts, y);
    var z := Closure(db, n, y);
    assert Mined(db, n, min, parts[0].lb, parts[0].ub, z);
    forall a | a in z ensures a in y {
      assert parts[0].lb <= a < n && Tids(db, y) <= Tids(db, {a});
    }
  }
}
