/** The third scan of the DCI preprocessing: the transactions of one partition are remapped and written,
    column by column, into a bitmap whose width was predicted by the second scan. */
module ThirdScan {
  import opened Basics
  import opened ClosedSets
  import opened SecondScan
  import opened Partitions
  import opened TidWords
  import C = Columns

  /** A transaction is loaded when the first of its needed items is a first item of the partition. */
  predicate Keeps(p: Part, t: seq<nat>) {
    exists k :: 0 <= k < |t| && t[k] in p.ids && t[k] < p.ub
  }

  function Loaded(p: Part, ts: seq<seq<nat>>): seq<seq<nat>> {
    if ts == [] then []
    else Loaded(p, ts[..|ts| - 1]) + if Keeps(p, ts[|ts| - 1]) then [ts[|ts| - 1]] else []
  }

  /** Loaded transactions touch the range of the partition. */
  lemma {:induction false} LoadedBound(n: nat, min: nat, all: seq<seq<nat>>, p: Part, ts: seq<seq<nat>>)
    requires PartOk(all, n, min, p)
    ensures |Loaded(p, ts)| <= Touched(ts, p.lb, p.ub)
  {
    if ts != [] {
      LoadedBound(n, min, all, p, ts[..|ts| - 1]);
      var t := ts[|ts| - 1];
      if Keeps(p, t) {
        var k :| 0 <= k < |t| && t[k] in p.ids && t[k] < p.ub;
        var i :| 0 <= i < |p.ids| && p.ids[i] == t[k];
        assert p.lb <= t[k] < p.ub;
      }
    }
  }

  lemma {:induction false} LoadedMonotone(p: Part, ts: seq<seq<nat>>, k: nat)
    requires k <= |ts|
    ensures |Loaded(p, ts[..k])| <= |Loaded(p, ts)|
    decreases |ts|
  {
    if k < |ts| {
      assert ts[..|ts| - 1][..k] == ts[..k];
      LoadedMonotone(p, ts[..|ts| - 1], k);
    } else {
      assert ts[..k] == ts;
    }
  }

  /** Itemsets with a first item of the partition keep their supports. */
  lemma {:induction false} LoadedSupport(p: Part, ts: seq<seq<nat>>, x: Itemset, f: nat)
    requires f in x && f in p.ids && f < p.ub
    ensures Supp(Db(Loaded(p, ts)), x) == Supp(Db(ts), x)
  {
    if ts != [] {
      var k := |ts| - 1;
      LoadedSupport(p, ts[..k], x, f);
      SuppSnoc(ts[..k], ts[k], x);
      assert ts[..k] + [ts[k]] == ts;
      if Keeps(p, ts[k]) {
        SuppSnoc(Loaded(p, ts[..k]), ts[k], x);
      } else {
        KeepsOf(p, ts[k], f);
        assert Loaded(p, ts[..k]) == Loaded(p, ts);
        assert f !in Elems(ts[k]);
      }
    }
  }

  lemma KeepsOf(p: Part, t: seq<nat>, f: nat)
    ensures f in t && f in p.ids && f < p.ub ==> Keeps(p, t)
  {
    if f in t {
      var i :| 0 <= i < |t| && t[i] == f;
    }
  }

  lemma SuppSnoc(ts: seq<seq<nat>>, t: seq<nat>, x: Itemset)
    ensures Supp(Db(ts + [t]), x) == Supp(Db(ts), x) + if x <= Elems(t) then 1 else 0
  {
    assert Tids(Db(ts + [t]), x) == Tids(Db(ts), x) + if x <= Elems(t) then {|ts|} else {};
  }

  // ---------------------------------------------------------------------------------------
  // Mapping
  // ---------------------------------------------------------------------------------------

  /** map[x] is the place of item x among the needed items, -1 for the others. */
  ghost predicate IsMap(m: seq<int>, ids: seq<nat>) {
    && (forall x :: 0 <= x < |m| ==> -1 <= m[x] < |ids|)
    && (forall x :: 0 <= x < |m| && m[x] >= 0 ==> ids[m[x]] == x)
    && (forall k :: 0 <= k < |ids| ==> ids[k] < |m| && m[ids[k]] == k)
  }

  /** The mapping, and the number of needed items below the end of the range. */
  method ReadMap(n: nat, p: Part) returns (conditionalMap: array<int>, conditionalUb: nat)
    requires Asc(p.ids) && (forall x :: x in p.ids ==> x < n) && |p.ids| == p.items > 0 && p.ids[0] < p.ub
    ensures fresh(conditionalMap) && conditionalMap.Length == n && IsMap(conditionalMap[..], p.ids)
    ensures conditionalUb <= p.items && forall k :: 0 <= k < p.items ==> (p.ids[k] < p.ub <==> k < conditionalUb)
  {
    conditionalMap := new int[n](_ => -1);
    conditionalUb := 0;
    for i := 0 to p.items
      invariant IsMap(conditionalMap[..], p.ids[..i])
      invariant UbSoFar(p, i, conditionalUb)
    {
      var aux := p.ids[i];
      assert aux in p.ids;
      ghost var before := conditionalMap[..];
      MapMore(before, p.ids, i);
      UbMore(p, i, conditionalUb);
      hide IsMap, UbSoFar, Asc;
      conditionalMap[aux] := i;
      assert conditionalMap[..] == before[aux := i];
      if conditionalUb == 0 && aux >= p.ub {
        conditionalUb := i;
      }
    }
    assert p.ids[..p.items] == p.ids;
    if conditionalUb == 0 {
      conditionalUb := p.items;
    }
  }

  /** The first i needed items have been read; a bound of 0 stands for none. */
  ghost predicate UbSoFar(p: Part, i: nat, ub: nat) {
    && i <= |p.ids| && (ub == 0 ==> forall k :: 0 <= k < i ==> p.ids[k] < p.ub)
    && (ub > 0 ==> ub < i && forall k :: 0 <= k < i ==> (p.ids[k] < p.ub <==> k < ub))
  }

  lemma UbMore(p: Part, i: nat, ub: nat)
    requires Asc(p.ids) && p.ids != [] && p.ids[0] < p.ub && i < |p.ids| && UbSoFar(p, i, ub)
    ensures UbSoFar(p, i + 1, if ub == 0 && p.ids[i] >= p.ub then i else ub)
  {
    assert ub > 0 ==> p.ub <= p.ids[ub] < p.ids[i];
  }

  lemma MapMore(m: seq<int>, ids: seq<nat>, i: nat)
    requires i < |ids| && IsMap(m, ids[..i]) && Asc(ids) && ids[i] < |m|
    ensures IsMap(m[ids[i] := i], ids[..i + 1])
  {
    var m2, s := m[ids[i] := i], ids[..i + 1];
    forall x | 0 <= x < |m2| ensures -1 <= m2[x] < |s| && (m2[x] >= 0 ==> s[m2[x]] == x) {
      assert x != ids[i] ==> m2[x] == m[x] && (m[x] >= 0 ==> ids[..i][m[x]] == x);
    }
    forall k | 0 <= k < |s| ensures s[k] < |m2| && m2[s[k]] == k {
      assert k < i ==> ids[..i][k] == s[k] && s[k] < ids[i];
    }
  }

  // ---------------------------------------------------------------------------------------
  // Loading
  // ---------------------------------------------------------------------------------------

  /** Column r of the bitmap has the needed items of the r-th loaded transaction. */
  ghost predicate Columns(vd: array2<bool>, p: Part, rows: seq<seq<nat>>)
    reads vd
  {
    && vd.Length0 == |p.ids| && |rows| <= vd.Length1
    && forall k, r :: 0 <= k < |p.ids| && 0 <= r < vd.Length1 ==> (vd[k, r] <==> r < |rows| && p.ids[k] in rows[r])
  }

  /** The counted supports are those of the single items in the rows. */
  ghost predicate Counted(supports: array<nat>, p: Part, rows: seq<seq<nat>>)
    reads supports
  {
    supports.Length == |p.ids| && forall k :: 0 <= k < |p.ids| ==> supports[k] == Supp(Db(rows), {p.ids[k]})
  }

  /** The one bits of a row are the loaded transactions with its item. */
  lemma OnesAreTids(vd: array2<bool>, p: Part, rows: seq<seq<nat>>, k: nat)
    requires Columns(vd, p, rows) && k < |p.ids|
    ensures C.Row(vd, k) == Tids(Db(rows), {p.ids[k]})
  {
    forall r: nat ensures r in C.Row(vd, k) <==> r in Tids(Db(rows), {p.ids[k]}) {
      if r < |rows| { assert {p.ids[k]} <= Elems(rows[r]) <==> p.ids[k] in rows[r]; }
    }
  }

  /** One transaction: its needed items, unless the first of them lies behind the range. */
  method MapTrans(p: Part, t: seq<nat>, conditionalMap: array<int>, conditionalUb: nat) returns (tOut: seq<nat>)
    requires IsTrans(t, conditionalMap.Length) && IsMap(conditionalMap[..], p.ids) && Asc(p.ids)
    requires conditionalUb <= |p.ids| && forall k :: 0 <= k < |p.ids| ==> (p.ids[k] < p.ub <==> k < conditionalUb)
    ensures tOut != [] <==> Keeps(p, t)
    ensures Asc(tOut) && forall k :: k in tOut ==> k < |p.ids|
    ensures Keeps(p, t) ==> forall k :: 0 <= k < |p.ids| ==> (k in tOut <==> p.ids[k] in t)
  {
    tOut := [];
    var i := 0;
    hide Keeps;
    while i < |t|
      invariant 0 <= i <= |t| && Mapped(p, t, i, tOut) && (tOut != [] ==> Keeps(p, t))
    {
      MapStep(p, t, i, tOut, conditionalMap[..], conditionalUb);
      if conditionalMap[t[i]] != -1 {
        if tOut == [] && conditionalMap[t[i]] >= conditionalUb {
          NotKept(p, t, i, conditionalMap[..], conditionalUb);
          return;
        }
        tOut := tOut + [conditionalMap[t[i]]];
      }
      i := i + 1;
    }
    assert t[..|t|] == t;
    if tOut == [] {
      NoneKept(p, t);
    }
  }

  /** The needed items among the first i have been mapped. */
  ghost predicate Mapped(p: Part, t: seq<nat>, i: nat, tOut: seq<nat>) {
    i <= |t| && Asc(tOut) && forall k: nat :: k in tOut <==> k < |p.ids| && p.ids[k] in t[..i]
  }

  lemma MapStep(p: Part, t: seq<nat>, i: nat, tOut: seq<nat>, m: seq<int>, ub: nat)
    requires IsTrans(t, |m|) && IsMap(m, p.ids) && Asc(p.ids) && i < |t| && Mapped(p, t, i, tOut)
    requires ub <= |p.ids| && forall k :: 0 <= k < |p.ids| ==> (p.ids[k] < p.ub <==> k < ub)
    ensures m[t[i]] == -1 ==> Mapped(p, t, i + 1, tOut)
    ensures m[t[i]] != -1 ==> m[t[i]] >= 0 && Mapped(p, t, i + 1, tOut + [m[t[i]]]) && (m[t[i]] < ub ==> Keeps(p, t))
  {
    assert t[..i + 1] == t[..i] + [t[i]];
    if m[t[i]] != -1 {
      var k: nat := m[t[i]];
      AllBelow(p, t, i, tOut, k);
      assert forall l :: 0 <= l < |tOut| ==> tOut[l] in tOut;
      assert p.ids[k] == t[i] && t[i] in p.ids;
      forall l: nat | l < |p.ids| && p.ids[l] == t[i] ensures l == k {}
    }
  }

  lemma InPrefix(t: seq<nat>, i: nat, l: nat)
    requires i <= |t| && l < |t|
    ensures l < i ==> t[l] in t[..i]
  {
    if l < i { assert t[..i][l] == t[l]; }
  }

  lemma NoneKept(p: Part, t: seq<nat>)
    requires forall k: nat :: k < |p.ids| ==> p.ids[k] !in t
    ensures !Keeps(p, t)
  {
    forall l | 0 <= l < |t| ensures t[l] !in p.ids { assert t[l] in t; }
  }

  /** Mapping keeps the order. */
  lemma AllBelow(p: Part, t: seq<nat>, i: nat, tOut: seq<nat>, k: nat)
    requires Asc(t) && Asc(p.ids) && i < |t| && k < |p.ids| && p.ids[k] == t[i]
    requires forall l: nat :: l in tOut <==> l < |p.ids| && p.ids[l] in t[..i]
    ensures forall l :: l in tOut ==> l < k
  {
    forall l | l in tOut ensures l < k {
      var m :| 0 <= m < i && t[..i][m] == p.ids[l];
      assert t[m] < t[i];
    }
  }

  /** If the first needed item lies behind the range, all of them do. */
  lemma NotKept(p: Part, t: seq<nat>, i: nat, m: seq<int>, ub: nat)
    requires IsTrans(t, |m|) && IsMap(m, p.ids) && i < |t| && m[t[i]] >= ub
    requires forall k :: 0 <= k < |p.ids| ==> (p.ids[k] < p.ub <==> k < ub)
    requires forall k: nat :: k < |p.ids| ==> p.ids[k] !in t[..i]
    ensures !Keeps(p, t)
  {
    forall l | 0 <= l < |t| && t[l] in p.ids ensures i <= l {
      InPrefix(t, i, l);
    }
    assert p.ids[m[t[i]]] == t[i] >= p.ub;
  }

  /** Words of a row with a column for every predicted transaction. */
  function RowWords(trans: nat): (size: nat)
    ensures (size - 1) * WORD_BITS < trans <= size * WORD_BITS || (trans == 0 && size == 0)
  {
    trans / WORD_BITS + if trans % WORD_BITS != 0 then 1 else 0
  }

  /** Writes all loaded transactions. The bitmap has as many columns as were predicted, and those that fill up the
      last word: they are enough. */
  method LoadDB(p: Part, ts: seq<seq<nat>>, n: nat, ghost min: nat)
    returns (vd: array2<bool>, supports: array<nat>, conditionalUb: nat, ghost rows: nat)
    requires AllTrans(ts, n) && PartOk(ts, n, min, p)
    ensures fresh(vd) && vd.Length0 == p.items && vd.Length1 == RowWords(p.trans) * WORD_BITS
    ensures rows == |Loaded(p, ts)| <= p.trans && Columns(vd, p, Loaded(p, ts))
    ensures fresh(supports) && supports.Length == p.items
    ensures forall k :: 0 <= k < p.items ==>
              supports[k] == Supp(Db(Loaded(p, ts)), {p.ids[k]}) == |C.Row(vd, k)|
    ensures forall k :: 0 <= k < conditionalUb && k < p.items ==> supports[k] == Supp(Db(ts), {p.ids[k]})
    ensures conditionalUb <= p.items && forall k :: 0 <= k < p.items ==> (p.ids[k] < p.ub <==> k < conditionalUb)
  {
    var conditionalMap;
    conditionalMap, conditionalUb := ReadMap(n, p);
    vd := new bool[p.items, RowWords(p.trans) * WORD_BITS]((_, _) => false);
    supports := new nat[p.items](_ => 0);
    var nTr := 0;
    hide RowWords, Supp, Tids;
    NoSupport(p);
    for l := 0 to |ts|
      invariant nTr == |Loaded(p, ts[..l])| <= p.trans
      invariant Columns(vd, p, Loaded(p, ts[..l])) && IsMap(conditionalMap[..], p.ids)
      invariant Counted(supports, p, Loaded(p, ts[..l]))
    {
      assert ts[..l + 1][..l] == ts[..l];
      LoadedBound(n, min, ts, p, ts);
      LoadedMonotone(p, ts, l + 1);
      var tOut := MapTrans(p, ts[l], conditionalMap, conditionalUb);
      ghost var before := Loaded(p, ts[..l]);
      if tOut != [] {
        WriteColumn(vd, supports, p, before, ts[l], tOut, nTr);
        nTr := nTr + 1;
        assert Loaded(p, ts[..l + 1]) == before + [ts[l]];
      } else {
        assert Loaded(p, ts[..l + 1]) == before;
      }
    }
    assert ts[..|ts|] == ts;
    rows := nTr;
    forall k | 0 <= k < p.items
      ensures |C.Row(vd, k)| == Supp(Db(Loaded(p, ts)), {p.ids[k]})
      ensures k < conditionalUb ==> Supp(Db(Loaded(p, ts)), {p.ids[k]}) == Supp(Db(ts), {p.ids[k]})
    {
      OnesCount(vd, p, Loaded(p, ts), k);
      if k < conditionalUb { LoadedSupport(p, ts, {p.ids[k]}, p.ids[k]); }
    }
  }

  lemma NoSupport(p: Part)
    ensures forall k :: 0 <= k < |p.ids| ==> Supp(Db([]), {p.ids[k]}) == 0
  {
    forall k | 0 <= k < |p.ids| ensures Supp(Db([]), {p.ids[k]}) == 0 {
      assert Tids(Db([]), {p.ids[k]}) == {};
    }
  }

  lemma OnesCount(vd: array2<bool>, p: Part, rows: seq<seq<nat>>, k: nat)
    requires Columns(vd, p, rows) && k < |p.ids|
    ensures |C.Row(vd, k)| == Supp(Db(rows), {p.ids[k]})
  {
    OnesAreTids(vd, p, rows, k);
  }

  /** Sets the bits of one column, and counts its items. */
  method WriteColumn(vd: array2<bool>, supports: array<nat>, p: Part, ghost before: seq<seq<nat>>, ghost t: seq<nat>,
                     tOut: seq<nat>, rows: nat)
    requires Columns(vd, p, before) && rows == |before| < vd.Length1 && supports.Length == |p.ids|
    requires Asc(tOut) && (forall k :: k in tOut ==> k < |p.ids|) && forall k :: 0 <= k < |p.ids| ==>
               (k in tOut <==> p.ids[k] in t)
    requires Counted(supports, p, before)
    modifies vd, supports
    ensures Columns(vd, p, before + [t]) && Counted(supports, p, before + [t])
  {
    hide Supp;
    for i := 0 to |tOut|
      invariant forall k, r :: 0 <= k < vd.Length0 && 0 <= r < vd.Length1 ==>
        (vd[k, r] <==> old(vd[k, r]) || (r == rows && k in tOut[..i]))
      invariant forall k :: 0 <= k < |p.ids| ==> supports[k] == old(supports[k]) + if k in tOut[..i] then 1 else 0
    {
      assert tOut[i] in tOut && tOut[i] !in tOut[..i];
      assert tOut[..i + 1] == tOut[..i] + [tOut[i]];
      vd[tOut[i], rows] := true;
      supports[tOut[i]] := supports[tOut[i]] + 1;
    }
    assert tOut[..|tOut|] == tOut;
    forall k | 0 <= k < |p.ids| ensures supports[k] == Supp(Db(before + [t]), {p.ids[k]}) {
      SuppSnoc(before, t, {p.ids[k]});
      assert {p.ids[k]} <= Elems(t) <==> p.ids[k] in t;
    }
  }
}
