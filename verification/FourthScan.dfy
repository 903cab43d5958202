/** The fourth scan of the DCI miner: sets that are closed in their partition only are removed. */
module FourthScan {
  import opened Basics
  import opened ClosedSets
  import opened DciWalk
  import opened SecondScan
  import opened Pipeline
  import D = DciPolicies
  import P = Partitions

  /** An itemset as it is sorted: its items in descending order. */
  datatype Rec = Rec(items: seq<nat>, supp: nat)

  predicate Desc(s: seq<nat>) {
    forall i, j :: 0 <= i < j < |s| ==> s[i] > s[j]
  }

  predicate Before(u: seq<nat>, v: seq<nat>) {
    if v == [] then false
    else if u == [] then true
    else u[0] < v[0] || (u[0] == v[0] && Before(u[1..], v[1..]))
  }

  predicate Less(a: Rec, b: Rec) {
    a.supp < b.supp || (a.supp == b.supp && Before(a.items, b.items))
  }

  ghost predicate Sorted(recs: seq<Rec>) {
    forall i, j :: 0 <= i < j < |recs| ==> Less(recs[i], recs[j])
  }

  // ---------------------------------------------------------------------------------------
  // The order
  // ---------------------------------------------------------------------------------------

  lemma {:induction false} BeforeOrder(u: seq<nat>, v: seq<nat>)
    ensures !(Before(u, v) && Before(v, u)) && !Before(u, u)
    ensures Before(u, v) || Before(v, u) || u == v
  {
    if u != [] { BeforeOrder(u[1..], u[1..]); }
    if u != [] && v != [] {
      BeforeOrder(u[1..], v[1..]);
      assert u == [u[0]] + u[1..] && v == [v[0]] + v[1..];
    }
  }

  lemma {:induction false} BeforeTrans(u: seq<nat>, v: seq<nat>, w: seq<nat>)
    requires Before(u, v) && Before(v, w)
    ensures Before(u, w)
  {
    if u != [] && v != [] && w != [] && u[0] == v[0] == w[0] { BeforeTrans(u[1..], v[1..], w[1..]); }
  }

  lemma LessTrans(a: Rec, b: Rec, c: Rec)
    requires Less(a, b) && Less(b, c)
    ensures Less(a, c)
  {
    if a.supp == b.supp == c.supp { BeforeTrans(a.items, b.items, c.items); }
  }

  /** A list comes before every one that it begins. */
  lemma {:induction false} PrefixBefore(u: seq<nat>, v: seq<nat>)
    requires |u| < |v| && u == v[..|u|]
    ensures Before(u, v)
  {
    if u != [] {
      assert u[1..] == v[1..][..|u| - 1];
      PrefixBefore(u[1..], v[1..]);
    }
  }

  /** What lies between a list and one that it begins is begun by it as well. */
  lemma {:induction false} PrefixBetween(u: seq<nat>, w: seq<nat>, v: seq<nat>)
    requires |u| <= |v| && u == v[..|u|] && Before(u, w) && Before(w, v)
    ensures |u| < |w| && u == w[..|u|]
  {
    if u != [] {
      assert u[1..] == v[1..][..|u| - 1];
      PrefixBetween(u[1..], w[1..], v[1..]);
      assert u == [u[0]] + u[1..] && w[..|u|] == [w[0]] + w[1..][..|u| - 1];
    }
  }

  // ---------------------------------------------------------------------------------------
  // Itemsets in descending order
  // ---------------------------------------------------------------------------------------

  /** A set that gets only smaller items begins the larger set. */
  lemma {:induction false} SmallerBehind(u: seq<nat>, v: seq<nat>)
    requires Desc(u) && Desc(v) && Elems(u) <= Elems(v)
    requires forall a, b :: a in Elems(v) && a !in Elems(u) && b in Elems(u) ==> a < b
    ensures |u| <= |v| && u == v[..|u|]
  {
    if u != [] {
      var x := u[0];
      assert x in Elems(u) && x in Elems(v);
      TailElems(u);
      TailElems(v);
      assert v[0] in Elems(v);
      assert v[0] == x;
      SmallerBehind(u[1..], v[1..]);
      assert u == [x] + u[1..] && v[..|u|] == [x] + v[1..][..|u| - 1];
    }
  }

  lemma TailElems(u: seq<nat>)
    requires Desc(u) && u != []
    ensures Desc(u[1..]) && Elems(u[1..]) == Elems(u) - {u[0]}
    ensures forall x :: x in Elems(u) ==> x <= u[0]
  {
    assert u == [u[0]] + u[1..];
    forall x | x in Elems(u) - {u[0]} ensures x in u[1..] {}
    forall x | x in u[1..] ensures x < u[0] {
      var k :| 0 <= k < |u| - 1 && u[1..][k] == x;
      assert u[k + 1] == x;
    }
  }

  lemma PrefixElems(u: seq<nat>, v: seq<nat>)
    requires |u| < |v| && u == v[..|u|] && Desc(v)
    ensures Elems(u) < Elems(v)
  {
    forall x | x in u ensures x in v {
      var k :| 0 <= k < |u| && u[k] == x;
      assert v[k] == x;
    }
    forall k | 0 <= k < |u| ensures u[k] != v[|u|] {
      assert v[k] == u[k];
    }
    assert v[|u|] in Elems(v) && v[|u|] !in u;
  }

  // ---------------------------------------------------------------------------------------
  // Removal
  // ---------------------------------------------------------------------------------------

  /** The records of what the partitions contribute, in order. */
  ghost predicate Records(recs: seq<Rec>, db: Database, n: nat, min: nat, parts: seq<P.Part>) {
    && (forall i :: 0 <= i < |recs| ==> IsRecord(recs[i], db, n, min, parts))
    && (forall y :: MinedBy(db, n, min, parts, |parts|, y) ==> Has(recs, y))
  }

  ghost predicate IsRecord(r: Rec, db: Database, n: nat, min: nat, parts: seq<P.Part>) {
    && Desc(r.items) && r.supp == Supp(db, Elems(r.items))
    && MinedBy(db, n, min, parts, |parts|, Elems(r.items))
  }

  ghost predicate Has(recs: seq<Rec>, y: Itemset) {
    exists i :: 0 <= i < |recs| && Elems(recs[i].items) == y
  }

  /** The record begins the next one, which has the same support. */
  predicate Begins(a: Rec, b: Rec) {
    a.supp == b.supp && |a.items| < |b.items| && a.items == b.items[..|a.items|]
  }

  predicate Removed(recs: seq<Rec>, i: nat)
    requires i < |recs|
  {
    i + 1 < |recs| && Begins(recs[i], recs[i + 1])
  }

  /** Looking at the next record is enough: exactly the sets that are not closed are removed. */
  lemma RemovedIff(ts: seq<seq<nat>>, n: nat, min: nat, parts: seq<P.Part>, recs: seq<Rec>, i: nat)
    requires P.PartsOk(ts, n, min, 0, n, parts) && Records(recs, Db(ts), n, min, parts) && Sorted(recs) && i < |recs|
    ensures Removed(recs, i) <==> !IsClosed(Db(ts), n, Elems(recs[i].items))
  {
    var y := Elems(recs[i].items);
    hide IsClosed, Closure, Supp, MinedBy, P.PartsOk;
    ClosedIff(ts, n, min, parts, y);
    if Removed(recs, i) {
      PrefixElems(recs[i].items, recs[i + 1].items);
    }
    if !IsClosed(Db(ts), n, y) {
      LargerFollows(ts, n, min, parts, recs, i);
    }
  }

  lemma LargerFollows(ts: seq<seq<nat>>, n: nat, min: nat, parts: seq<P.Part>, recs: seq<Rec>, i: nat)
    requires P.PartsOk(ts, n, min, 0, n, parts) && Records(recs, Db(ts), n, min, parts) && Sorted(recs) && i < |recs|
    requires !IsClosed(Db(ts), n, Elems(recs[i].items))
    ensures Removed(recs, i)
  {
    var u := recs[i].items;
    var y, z := Elems(u), Closure(Db(ts), n, Elems(u));
    hide Closure, Supp, MinedBy, P.PartsOk, Less;
    SpuriousClosure(ts, n, min, parts, y);
    assert Has(recs, z);
    var j :| 0 <= j < |recs| && Elems(recs[j].items) == z;
    var v := recs[j].items;
    forall a, b | a in Elems(v) && a !in Elems(u) && b in Elems(u) ensures a < b {
      assert a in z - y;
    }
    SmallerBehind(u, v);
    assert |u| < |v|;
    PrefixBefore(u, v);
    NextBegins(recs, i, j);
  }

  lemma NextBegins(recs: seq<Rec>, i: nat, j: nat)
    requires Sorted(recs) && i < |recs| && j < |recs| && Begins(recs[i], recs[j])
    ensures Removed(recs, i)
  {
    PrefixBefore(recs[i].items, recs[j].items);
    BeforeOrder(recs[i].items, recs[j].items);
    assert !Less(recs[j], recs[i]) && i != j;
    assert i < j;
    if i + 1 < j {
      assert Less(recs[i], recs[i + 1]) && Less(recs[i + 1], recs[j]);
      PrefixBetween(recs[i].items, recs[i + 1].items, recs[j].items);
    }
  }

  // ---------------------------------------------------------------------------------------
  // The scan
  // ---------------------------------------------------------------------------------------

  /** Sorts the items of one set. */
  method Descending(y: Itemset) returns (s: seq<nat>)
    ensures Desc(s) && Elems(s) == y
  {
    s := [];
    var rest := y;
    while rest != {}
      invariant Desc(s) && Elems(s) == y - rest && rest <= y
      invariant forall a, b :: a in rest && b in s ==> a < b
      decreases |rest|
    {
      var x := Largest(rest);
      ElemsSnoc(s, x);
      DescSnoc(s, x);
      hide Desc, Elems;
      s, rest := s + [x], rest - {x};
    }
  }

  lemma DescSnoc(s: seq<nat>, x: nat)
    requires Desc(s) && forall b :: b in s ==> x < b
    ensures Desc(s + [x])
  {
    assert forall i :: 0 <= i < |s| ==> s[i] in s;
  }

  method Largest(y: Itemset) returns (x: nat)
    requires y != {}
    ensures x in y && forall z :: z in y ==> z <= x
    decreases |y|
  {
    x :| x in y;
    var rest := y - {x};
    while rest != {}
      invariant x in y && rest <= y && forall z :: z in y && z !in rest ==> z <= x
      decreases |rest|
    {
      var z :| z in rest;
      if x < z { x := z; }
      rest := rest - {z};
    }
  }

  /** The place of a new record in the sorted list. */
  method Insert(recs: seq<Rec>, r: Rec) returns (next: seq<Rec>)
    requires Sorted(recs) && r !in recs
    ensures Sorted(next) && multiset(next) == multiset(recs) + multiset{r}
  {
    hide Sorted;
    var k := 0;
    while k < |recs| && Less(recs[k], r)
      invariant 0 <= k <= |recs| && forall i :: 0 <= i < k ==> Less(recs[i], r)
    {
      k := k + 1;
    }
    next := recs[..k] + [r] + recs[k..];
    InsertSorted(recs, k, r);
    assert recs == recs[..k] + recs[k..];
  }

  lemma InsertSorted(recs: seq<Rec>, k: nat, r: Rec)
    requires Sorted(recs) && r !in recs && k <= |recs|
    requires (forall i :: 0 <= i < k ==> Less(recs[i], r)) && (k < |recs| ==> !Less(recs[k], r))
    ensures Sorted(recs[..k] + [r] + recs[k..])
  {
    forall i | k <= i < |recs| ensures Less(r, recs[i]) {
      BeforeOrder(recs[k].items, r.items);
      assert recs[k] in recs;
      if k < i { LessTrans(r, recs[k], recs[i]); }
    }
    hide Less;
  }

  /** One pass over the sorted records: a record is written unless it begins the next one. */
  method Merge(recs: seq<Rec>) returns (kept: seq<Rec>)
    requires NoRepeat(recs)
    ensures NoRepeat(kept)
    ensures forall r :: r in kept <==> exists i :: 0 <= i < |recs| && recs[i] == r && !Removed(recs, i)
  {
    kept := [];
    for i := 0 to |recs|
      invariant NoRepeat(kept)
      invariant forall r :: r in kept <==> exists j :: 0 <= j < i && recs[j] == r && !Removed(recs, j)
    {
      if !(i + 1 < |recs| && Begins(recs[i], recs[i + 1])) {
        assert forall k :: 0 <= k < |kept| ==> kept[k] in kept;
        assert recs[i] !in kept;
        kept := kept + [recs[i]];
      }
    }
  }

  lemma SortedDistinct(recs: seq<Rec>)
    requires Sorted(recs)
    ensures NoRepeat(recs)
  {
    forall i, j | 0 <= i < j < |recs| ensures recs[i] != recs[j] {
      BeforeOrder(recs[i].items, recs[i].items);
      assert Less(recs[i], recs[j]);
    }
  }

  method SortAll(recs: seq<Rec>) returns (sorted: seq<Rec>)
    requires NoRepeat(recs)
    ensures Sorted(sorted) && forall r :: r in sorted <==> r in recs
  {
    sorted := [];
    for k := 0 to |recs|
      invariant Sorted(sorted) && forall r :: r in sorted <==> r in recs[..k]
    {
      assert recs[..k + 1] == recs[..k] + [recs[k]];
      hide Sorted;
      ghost var before := sorted;
      sorted := Insert(sorted, recs[k]);
      assert forall r :: r in sorted <==> r in multiset(sorted);
      assert forall r :: r in before <==> r in multiset(before);
    }
    assert recs[..|recs|] == recs;
  }

  /** The records of the third scan's output. */
  method ToRecords(out: seq<Event>) returns (recs: seq<Rec>)
    requires forall y, s :: multiset(out)[Found(y, s)] <= 1
    ensures NoRepeat(recs)
    ensures forall r :: r in recs <==> Desc(r.items) && Found(Elems(r.items), r.supp) in out
  {
    recs := [];
    for k := 0 to |out|
      invariant NoRepeat(recs)
      invariant forall r :: r in recs <==> Desc(r.items) && Found(Elems(r.items), r.supp) in out[..k]
    {
      assert out[..k + 1] == out[..k] + [out[k]];
      if out[k].Found? {
        var s := Descending(out[k].items);
        NotTwice(out, k);
        DescUnique(s, out[k].items);
        hide Desc, Elems;
        assert forall i :: 0 <= i < |recs| ==> recs[i] in recs;
        recs := recs + [Rec(s, out[k].supp)];
      }
    }
    assert out[..|out|] == out;
  }

  lemma NotTwice(out: seq<Event>, k: nat)
    requires k < |out| && multiset(out)[out[k]] <= 1
    ensures out[k] !in out[..k]
  {
    assert out == out[..k] + [out[k]] + out[k + 1..];
    assert multiset(out) == multiset(out[..k]) + multiset{out[k]} + multiset(out[k + 1..]);
    assert out[k] in out[..k] <==> out[k] in multiset(out[..k]);
  }

  /** There is one way to list a set in descending order. */
  lemma DescUnique(s: seq<nat>, y: Itemset)
    requires Desc(s) && Elems(s) == y
    ensures forall t :: Desc(t) && Elems(t) == y ==> t == s
  {
    forall t | Desc(t) && Elems(t) == y ensures t == s {
      SmallerBehind(s, t);
      SmallerBehind(t, s);
    }
  }

  /** Each closed frequent set of two or more items once, with its support, and nothing else. */
  ghost predicate Exactly(recs: seq<Rec>, db: Database, n: nat, min: nat) {
    && NoRepeat(recs)
    && forall r :: r in recs <==> IsAnswer(r, db, n, min)
  }

  ghost predicate IsAnswer(r: Rec, db: Database, n: nat, min: nat) {
    && Desc(r.items) && |r.items| >= 2 && IsClosed(db, n, Elems(r.items))
    && r.supp == Supp(db, Elems(r.items)) && r.supp >= min
  }

  lemma {:induction false} DescCard(s: seq<nat>)
    requires Desc(s)
    ensures |Elems(s)| == |s|
  {
    if s != [] {
      TailElems(s);
      DescCard(s[1..]);
      assert Elems(s) == Elems(s[1..]) + {s[0]};
    }
  }

  /** The records are those of the contributions. */
  lemma AreRecords(db: Database, n: nat, min: nat, parts: seq<P.Part>, out: seq<Event>, recs: seq<Rec>)
    requires ListsAll(out, db, n, min, parts, |parts|)
    requires forall r :: r in recs <==> Desc(r.items) && Found(Elems(r.items), r.supp) in out
    ensures forall r :: r in recs <==> IsRecord(r, db, n, min, parts)
  {
    hide Supp, MinedBy, Desc, Elems;
    forall r ensures r in recs <==> IsRecord(r, db, n, min, parts) {
      assert Found(Elems(r.items), r.supp) in out <==> multiset(out)[Found(Elems(r.items), r.supp)] > 0;
    }
  }

  lemma AllRecords(db: Database, n: nat, min: nat, parts: seq<P.Part>, out: seq<Event>, recs: seq<Rec>)
    requires ListsAll(out, db, n, min, parts, |parts|) && forall r :: r in recs <==> IsRecord(r, db, n, min, parts)
    requires forall y :: MinedBy(db, n, min, parts, |parts|, y) ==> Listable(y)
    ensures Records(recs, db, n, min, parts)
  {
    hide Supp, MinedBy, Desc, Elems;
    forall y | MinedBy(db, n, min, parts, |parts|, y) ensures Has(recs, y) {
      assert Listable(y);
      var s :| Desc(s) && Elems(s) == y;
      assert IsRecord(Rec(s, Supp(db, y)), db, n, min, parts);
      assert Rec(s, Supp(db, y)) in recs;
    }
    forall i | 0 <= i < |recs| ensures IsRecord(recs[i], db, n, min, parts) {
      assert recs[i] in recs;
    }
  }

  ghost predicate Listable(y: Itemset) {
    exists s :: Desc(s) && Elems(s) == y
  }

  lemma {:induction false} CanList(y: Itemset)
    ensures Listable(y)
    decreases y
  {
    if y == {} {
      assert Desc([]) && Elems([]) == y;
    } else {
      var x := D.HasSmallest(y);
      CanList(y - {x});
      var s :| Desc(s) && Elems(s) == y - {x};
      forall b | b in s ensures x < b { assert b in Elems(s); }
      DescSnoc(s, x);
      ElemsSnoc(s, x);
      assert Elems(s + [x]) == y;
    }
  }

  /** A record is part of the answer exactly when its set is closed. */
  lemma AnswerIff(ts: seq<seq<nat>>, n: nat, min: nat, parts: seq<P.Part>, r: Rec)
    requires P.PartsOk(ts, n, min, 0, n, parts)
    ensures IsAnswer(r, Db(ts), n, min)
       <==> IsRecord(r, Db(ts), n, min, parts) && IsClosed(Db(ts), n, Elems(r.items))
  {
    hide Supp, IsClosed, P.PartsOk;
    var y := Elems(r.items);
    if Desc(r.items) { DescCard(r.items); }
    if IsAnswer(r, Db(ts), n, min) { Complete(ts, n, min, parts, y); }
  }

  /** Removes what is closed in its partition only. With one partition there is nothing to remove. */
  method Remove(ts: seq<seq<nat>>, n: nat, min: nat, parts: seq<P.Part>, out: seq<Event>) returns (recs: seq<Rec>)
    requires P.PartsOk(ts, n, min, 0, n, parts) && ListsAll(out, Db(ts), n, min, parts, |parts|)
    ensures Exactly(recs, Db(ts), n, min)
  {
    recs := ToRecords(out);
    AreRecords(Db(ts), n, min, parts, out, recs);
    hide ListsAll, IsRecord, IsAnswer, P.PartsOk, NoRepeat;
    if |parts| == 1 {
      forall r ensures r in recs <==> IsAnswer(r, Db(ts), n, min) {
        AnswerIff(ts, n, min, parts, r);
        if IsRecord(r, Db(ts), n, min, parts) { RecordClosed(ts, n, min, parts, r); }
      }
    } else {
      var sorted := SortAll(recs);
      forall y | MinedBy(Db(ts), n, min, parts, |parts|, y) ensures Listable(y) { CanList(y); }
      AllRecords(Db(ts), n, min, parts, out, sorted);
      SortedDistinct(sorted);
      recs := Merge(sorted);
      forall r ensures r in recs <==> IsAnswer(r, Db(ts), n, min) {
        AnswerIff(ts, n, min, parts, r);
        forall i | 0 <= i < |sorted| && sorted[i] == r
          ensures Removed(sorted, i) <==> !IsClosed(Db(ts), n, Elems(r.items))
        {
          RemovedIff(ts, n, min, parts, sorted, i);
        }
      }
    }
  }

  lemma RecordClosed(ts: seq<seq<nat>>, n: nat, min: nat, parts: seq<P.Part>, r: Rec)
    requires P.PartsOk(ts, n, min, 0, n, parts) && |parts| == 1 && IsRecord(r, Db(ts), n, min, parts)
    ensures IsClosed(Db(ts), n, Elems(r.items))
  {
    hide P.PartsOk, IsClosed, Supp, MinedBy;
    SinglePart(ts, n, min, parts, Elems(r.items));
  }

  /** Scans two, three and four: the closed frequent sets, for any memory limits, chunks, reordering, and with one
      job or one job per item. The first scan has left the frequent items, numbered below n. */
  method Mine(ts: seq<seq<nat>>, n: nat, min: nat, supports: seq<nat>, bounds: seq<nat>, fits: (nat, nat) -> bool,
              enough: (nat, nat) -> bool, oneJob: bool)
    returns (single: array<bool>, recs: seq<Rec>)
    requires AllTrans(ts, n) && min >= 1
    requires |supports| == n && (forall x: nat :: x < n ==> supports[x] == Supp(Db(ts), {x}) >= min)
    requires |bounds| > 0 && bounds[0] == 0 && bounds[|bounds| - 1] == n
    requires forall k :: 0 < k < |bounds| ==> bounds[k - 1] <= bounds[k] <= n
    ensures single.Length == n && forall z: nat :: z < n ==> (single[z] <==> IsClosed(Db(ts), n, {z}))
    ensures Exactly(recs, Db(ts), n, min)
  {
    hide Exactly, ListsAll, P.PartsOk, IsClosed;
    var parts;
    parts, single := P.ScanChunks(ts, n, min, supports, bounds, fits);
    var out := ThirdScan(ts, n, min, parts, enough, oneJob);
    recs := Remove(ts, n, min, parts, out);
  }
}
