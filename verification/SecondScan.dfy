/** The second scan of the DCI preprocessing: pair supports and first-item counts of one chunk of rows,
    and the single items that turn out not to be closed. */
module SecondScan {
  import opened Basics
  import opened ClosedSets
  import opened PairTable

  /** Transactions are ascending lists of items below n. */
  predicate IsTrans(t: seq<nat>, n: nat) {
    Asc(t) && forall i :: 0 <= i < |t| ==> t[i] < n
  }

  predicate AllTrans(ts: seq<seq<nat>>, n: nat) {
    forall k :: 0 <= k < |ts| ==> IsTrans(ts[k], n)
  }

  predicate HasPair(t: seq<nat>, x: nat, y: nat) {
    x in t && y in t
  }

  /** x is the first item of t from i on. */
  predicate IsFirst(t: seq<nat>, i: nat, x: nat) {
    x in t && i <= x && forall y :: y in t && i <= y ==> x <= y
  }

  function Pairs(ts: seq<seq<nat>>, x: nat, y: nat): nat {
    if ts == [] then 0 else Pairs(ts[..|ts| - 1], x, y) + if HasPair(ts[|ts| - 1], x, y) then 1 else 0
  }

  function Firsts(ts: seq<seq<nat>>, i: nat, x: nat): nat {
    if ts == [] then 0 else Firsts(ts[..|ts| - 1], i, x) + if IsFirst(ts[|ts| - 1], i, x) then 1 else 0
  }

  class TriTable {
    const n: nat
    const start: nat
    const end: nat
    const buf: array<nat>

    ghost predicate Valid() {
      start <= end <= n && buf.Length == Size(n, start, end)
    }

    ghost predicate Cell(x: nat, y: nat) {
      IsCell(n, start, end, x, y)
    }

    ghost function At(x: nat, y: nat): nat
      requires Valid() && Cell(x, y)
      reads buf
    {
      LoopOrder(n, start, end, x, y);
      buf[Position(n, start, x, y)]
    }

    constructor (n: nat, start: nat, end: nat)
      requires start <= end <= n
      ensures Valid() && fresh(buf) && this.n == n && this.start == start && this.end == end
      ensures forall x: nat, y: nat :: Cell(x, y) ==> At(x, y) == 0
    {
      this.n, this.start, this.end := n, start, end;
      SizeIs(n, start, end);
      buf := new nat[Size(n, start, end)](_ => 0);
      new;
      hide Size;
      forall x: nat, y: nat | Cell(x, y) ensures At(x, y) == 0 {
        LoopOrder(n, start, end, x, y);
        hide Position;
      }
    }

    method Get(x: nat, y: nat) returns (v: nat)
      requires Valid() && Cell(x, y)
      ensures v == At(x, y)
    {
      LoopOrder(n, start, end, x, y);
      v := buf[Position(n, start, x, y)];
    }

    method Set(x: nat, y: nat, v: nat)
      requires Valid() && Cell(x, y)
      modifies buf
      ensures At(x, y) == v
      ensures forall a: nat, b: nat :: Cell(a, b) && (a != x || b != y) ==> At(a, b) == old(At(a, b))
    {
      LoopOrder(n, start, end, x, y);
      forall a: nat, b: nat | Cell(a, b) && (a != x || b != y) ensures Position(n, start, a, b) != Position(n, start,
          x, y) {
        Injective(n, start, end, x, y, a, b);
      }
      buf[Position(n, start, x, y)] := v;
    }

    /** Increments the cell through the start of its row. */
    method CountAt(init: int, x: nat, y: nat)
      requires Valid() && Cell(x, y) && init == PositionInit(n, start, x)
      modifies buf
      ensures At(x, y) == old(At(x, y)) + 1
      ensures forall a: nat, b: nat :: Cell(a, b) && (a != x || b != y) ==> At(a, b) == old(At(a, b))
    {
      PositionIs(n, start, x, y);
      LoopOrder(n, start, end, x, y);
      forall a: nat, b: nat | Cell(a, b) && (a != x || b != y) ensures Position(n, start, a, b) != Position(n, start,
          x, y) {
        Injective(n, start, end, x, y, a, b);
      }
      buf[init + y] := buf[init + y] + 1;
    }

    /** All pairs of one transaction whose first item has a row. */
    method CountPairs(t: seq<nat>)
      requires Valid() && IsTrans(t, n)
      modifies buf
      ensures forall x: nat, y: nat :: Cell(x, y) ==> At(x, y) == old(At(x, y)) + if HasPair(t, x, y) then 1 else 0
    {
      for t0 := 0 to |t|
        invariant forall x: nat, y: nat :: Cell(x, y) ==>
          At(x, y) == old(At(x, y)) + if x in t[..t0] && y in t then 1 else 0
      {
        assert forall x :: x in t[..t0 + 1] <==> x in t[..t0] || x == t[t0];
        if start <= t[t0] < end {
          CountRow(t, t0);
        }
      }
      assert t[..|t|] == t;
    }

    method CountRow(t: seq<nat>, t0: nat)
      requires Valid() && IsTrans(t, n) && t0 < |t| && start <= t[t0] < end
      modifies buf
      ensures forall x: nat, y: nat :: Cell(x, y) ==> At(x, y) == old(At(x, y)) + if x == t[t0] && y in t then 1 else 0
    {
      var x0 := t[t0];
      var init := PositionInit(n, start, x0);
      for t1 := t0 + 1 to |t|
        invariant forall x: nat, y: nat :: Cell(x, y) ==>
          At(x, y) == old(At(x, y)) + if x == x0 && y in t[t0 + 1..t1] then 1 else 0
      {
        assert t[t0 + 1..t1 + 1] == t[t0 + 1..t1] + [t[t1]];
        CountAt(init, x0, t[t1]);
      }
      forall y: nat | x0 < y ensures y in t <==> y in t[t0 + 1..|t|] {
        if y in t {
          var k :| 0 <= k < |t| && t[k] == y;
          assert k > t0 ==> t[t0 + 1..|t|][k - t0 - 1] == y;
        }
      }
    }

    /** For each row that the transaction lacks, the item that comes next in it. */
    method CountFirsts(t: seq<nat>)
      requires Valid() && IsTrans(t, n) && |t| > 0
      modifies buf
      ensures forall i: nat, x: nat :: Cell(i, x) ==> At(i, x) == old(At(i, x)) + if IsFirst(t, i, x) then 1 else 0
    {
      var ti: nat, i: nat := 0, 0;
      while i + 1 < n && ti < |t|
        invariant ti <= |t| && i <= n && Cursor(t, i, ti)
        invariant forall a: nat, x: nat :: Cell(a, x) ==>
          At(a, x) == old(At(a, x)) + if a < i && IsFirst(t, a, x) then 1 else 0
      {
        CursorStep(t, i, ti);
        hide Cursor, IsFirst, Position, Size, IsTrans;
        if i == t[ti] {
          ti := ti + 1;
        } else if start <= i < end {
          var v := Get(i, t[ti]);
          Set(i, t[ti], v + 1);
        }
        i := i + 1;
      }
    }
  }

  /** ti is the place of the first item of t from i on. */
  ghost predicate Cursor(t: seq<nat>, i: nat, ti: nat) {
    ti <= |t| && (forall k :: 0 <= k < ti ==> t[k] < i) && forall k :: ti <= k < |t| ==> i <= t[k]
  }

  lemma CursorStep(t: seq<nat>, i: nat, ti: nat)
    requires Asc(t) && ti < |t| && Cursor(t, i, ti)
    ensures i == t[ti] ==> Cursor(t, i + 1, ti + 1) && forall x: nat :: i < x ==> !IsFirst(t, i, x)
    ensures i != t[ti] ==> Cursor(t, i + 1, ti) && i < t[ti] && forall x: nat :: IsFirst(t, i, x) <==> x == t[ti]
  {
    if i != t[ti] {
      FirstIs(t, i, ti);
    } else {
      assert t[ti] in t;
    }
  }

  lemma FirstIs(t: seq<nat>, i: nat, ti: nat)
    requires Asc(t) && ti < |t| && i < t[ti] && forall k :: 0 <= k < ti ==> t[k] < i
    ensures forall x: nat :: IsFirst(t, i, x) <==> x == t[ti]
  {
    forall y | y in t && i <= y ensures t[ti] <= y {
      var k :| 0 <= k < |t| && t[k] == y;
    }
    assert IsFirst(t, i, t[ti]);
  }

  // ---------------------------------------------------------------------------------------
  // One chunk
  // ---------------------------------------------------------------------------------------

  ghost predicate HoldsPairs(c: TriTable, ts: seq<seq<nat>>)
    requires c.Valid()
    reads c.buf
  {
    forall x: nat, y: nat :: c.Cell(x, y) ==> c.At(x, y) == Pairs(ts, x, y)
  }

  ghost predicate HoldsFirsts(trs: TriTable, ts: seq<seq<nat>>)
    requires trs.Valid()
    reads trs.buf
  {
    forall i: nat, x: nat :: trs.Cell(i, x) ==> trs.At(i, x) == Firsts(ts, i, x)
  }

  /** The database scan: both tables of the chunk are exact. */
  method ScanData(ts: seq<seq<nat>>, n: nat, lb: nat, ub: nat) returns (c: TriTable, trs: TriTable)
    requires lb <= ub <= n && AllTrans(ts, n)
    ensures c.Valid() && trs.Valid() && fresh(c.buf) && fresh(trs.buf) && c.buf != trs.buf
    ensures c.n == n && c.start == lb && c.end == ub && trs.n == n && trs.start == lb && trs.end == ub
    ensures HoldsPairs(c, ts) && HoldsFirsts(trs, ts)
  {
    c := new TriTable(n, lb, ub);
    trs := new TriTable(n, lb, ub);
    for k := 0 to |ts|
      invariant HoldsPairs(c, ts[..k]) && HoldsFirsts(trs, ts[..k])
    {
      assert ts[..k + 1][..k] == ts[..k];
      hide IsCell, Position, Size, IsFirst;
      if |ts[k]| > 0 {
        c.CountPairs(ts[k]);
        trs.CountFirsts(ts[k]);
      } else {
        NoFirst(ts[k]);
      }
    }
    assert ts[..|ts|] == ts;
  }

  lemma NoFirst(t: seq<nat>)
    requires t == []
    ensures forall i: nat, x: nat :: !IsFirst(t, i, x)
  {
  }

  /** A pair that shows that z is not closed: together as frequent as z alone. */
  ghost predicate Absorbs(ts: seq<seq<nat>>, min: nat, supports: seq<nat>, z: nat, y: nat) {
    z < |supports| && Pairs(ts, z, y) >= min && Pairs(ts, z, y) == supports[z]
  }

  lemma {:induction false} PairsSymmetric(ts: seq<seq<nat>>, x: nat, y: nat)
    ensures Pairs(ts, x, y) == Pairs(ts, y, x)
  {
    if ts != [] { PairsSymmetric(ts[..|ts| - 1], x, y); }
  }

  /** The pairs of z with rows below the cursor (i, j) have been looked at. */
  ghost predicate Unmarked(ts: seq<seq<nat>>, min: nat, supports: seq<nat>, z: nat, lb: nat, i: nat, j: nat) {
    forall y: nat :: y < |supports| && y != z && Seen(z, y, lb, i, j) ==> !Absorbs(ts, min, supports, z, y)
  }

  /** The pair of z and y has a row of the chunk, and lies below the cursor. */
  predicate Seen(z: nat, y: nat, lb: nat, i: nat, j: nat) {
    var x, w := if y < z then y else z, if y < z then z else y;
    lb <= x && (x < i || (x == i && w < j))
  }

  /** The flags after the pairs below the cursor. */
  ghost predicate Flags(before: seq<bool>, now: seq<bool>, ts: seq<seq<nat>>, min: nat, supports: seq<nat>, lb: nat,
                        i: nat, j: nat) {
    && |before| == |now| == |supports|
    && forall z: nat :: z < |now| ==> (now[z] <==> before[z] && Unmarked(ts, min, supports, z, lb, i, j))
  }

  lemma FlagsStart(f: seq<bool>, ts: seq<seq<nat>>, min: nat, supports: seq<nat>, lb: nat)
    requires |f| == |supports|
    ensures Flags(f, f, ts, min, supports, lb, lb, 0)
  {
  }

  /** Looking at the pair (i, j) affects the flags of i and j. */
  lemma FlagsStep(before: seq<bool>, now: seq<bool>, next: seq<bool>, ts: seq<seq<nat>>, min: nat,
                  supports: seq<nat>, lb: nat, i: nat, j: nat)
    requires Flags(before, now, ts, min, supports, lb, i, j) && lb <= i < j < |supports| && |next| == |now|
    requires next[i] <==> now[i] && !Absorbs(ts, min, supports, i, j)
    requires next[j] <==> now[j] && !Absorbs(ts, min, supports, j, i)
    requires forall z :: 0 <= z < |now| && z != i && z != j ==> next[z] == now[z]
    ensures Flags(before, next, ts, min, supports, lb, i, j + 1)
  {
    forall z: nat | z < |next| ensures next[z] <==> before[z] && Unmarked(ts, min, supports, z, lb, i, j + 1) {
      UnmarkedStep(ts, min, supports, z, lb, i, j);
    }
  }

  lemma UnmarkedStep(ts: seq<seq<nat>>, min: nat, supports: seq<nat>, z: nat, lb: nat, i: nat, j: nat)
    requires lb <= i < j < |supports| && z < |supports|
    ensures Unmarked(ts, min, supports, z, lb, i, j + 1)
       <==> (Unmarked(ts, min, supports, z, lb, i, j)
             && (z == i ==> !Absorbs(ts, min, supports, i, j)) && (z == j ==> !Absorbs(ts, min, supports, j, i)))
  {
    var j1 := j + 1;
    forall y: nat | y != z
      ensures Seen(z, y, lb, i, j1) <==> Seen(z, y, lb, i, j) || (z == i && y == j) || (z == j && y == i)
    {
    }
    assert Seen(i, j, lb, i, j1) && Seen(j, i, lb, i, j1);
    hide Absorbs, Seen;
  }

  lemma FlagsRow(before: seq<bool>, now: seq<bool>, ts: seq<seq<nat>>, min: nat, supports: seq<nat>, lb: nat, i: nat)
    requires lb <= i < |supports|
    ensures Flags(before, now, ts, min, supports, lb, i, i + 1) <==> Flags(before, now, ts, min, supports, lb, i, 0)
    ensures Flags(before, now, ts, min, supports, lb, i, |supports|) <==>
              Flags(before, now, ts, min, supports, lb, i + 1, 0)
  {
    forall z: nat | z < |supports|
      ensures Unmarked(ts, min, supports, z, lb, i, i + 1) <==> Unmarked(ts, min, supports, z, lb, i, 0)
      ensures Unmarked(ts, min, supports, z, lb, i, |supports|) <==> Unmarked(ts, min, supports, z, lb, i + 1, 0)
    {
    }
  }

  /** Clears the flags of the items whose support equals that of one of their pairs, in loop order. */
  method MarkClosed(c: TriTable, ghost ts: seq<seq<nat>>, min: nat, supports: seq<nat>, toOutput: array<bool>)
    requires c.Valid() && HoldsPairs(c, ts) && |supports| == c.n == toOutput.Length
    modifies toOutput
    ensures Flags(old(toOutput[..]), toOutput[..], ts, min, supports, c.start, c.end, 0)
  {
    var k := 0;
    ghost var before := toOutput[..];
    FlagsStart(before, ts, min, supports, c.start);
    if c.start < c.end && c.start + 1 < c.n { LoopOrder(c.n, c.start, c.end, c.start, c.start + 1); }
    hide Flags, Position, Size;
    for i := c.start to c.end
      invariant i + 1 < c.n && i < c.end ==> k == Position(c.n, c.start, i, i + 1)
      invariant Flags(before, toOutput[..], ts, min, supports, c.start, i, 0) && HoldsPairs(c, ts)
    {
      FlagsRow(before, toOutput[..], ts, min, supports, c.start, i);
      for j := i + 1 to c.n
        invariant j < c.n ==> k == Position(c.n, c.start, i, j)
        invariant j == c.n && i + 2 < c.n && i + 1 < c.end ==> k == Position(c.n, c.start, i + 1, i + 2)
        invariant Flags(before, toOutput[..], ts, min, supports, c.start, i, j) && HoldsPairs(c, ts)
      {
        MarkPair(c, ts, min, supports, toOutput, before, i, j, k);
        LoopOrder(c.n, c.start, c.end, i, j);
        k := k + 1;
      }
      FlagsRow(before, toOutput[..], ts, min, supports, c.start, i);
    }
  }

  method MarkPair(c: TriTable, ghost ts: seq<seq<nat>>, min: nat, supports: seq<nat>, toOutput: array<bool>,
                  ghost before: seq<bool>, i: nat, j: nat, k: int)
    requires c.Valid() && HoldsPairs(c, ts) && |supports| == c.n == toOutput.Length
    requires c.Cell(i, j) && k == Position(c.n, c.start, i, j)
    requires Flags(before, toOutput[..], ts, min, supports, c.start, i, j)
    modifies toOutput
    ensures Flags(before, toOutput[..], ts, min, supports, c.start, i, j + 1)
  {
    LoopOrder(c.n, c.start, c.end, i, j);
    ghost var now := toOutput[..];
    var count := c.buf[k];
    assert count == c.At(i, j) == Pairs(ts, i, j);
    PairsSymmetric(ts, i, j);
    if count >= min {
      if count == supports[i] {
        toOutput[i] := false;
      }
      if count == supports[j] {
        toOutput[j] := false;
      }
    }
    hide Flags, Pairs;
    FlagsStep(before, now, toOutput[..], ts, min, supports, c.start, i, j);
  }

  // ---------------------------------------------------------------------------------------
  // All chunks
  // ---------------------------------------------------------------------------------------

  /** The flags after two neighbouring chunks. */
  lemma FlagsChunks(f0: seq<bool>, f1: seq<bool>, f2: seq<bool>, ts: seq<seq<nat>>, min: nat, supports: seq<nat>,
                    lb: nat, mid: nat, ub: nat)
    requires lb <= mid <= ub && Flags(f0, f1, ts, min, supports, lb, mid, 0) &&
             Flags(f1, f2, ts, min, supports, mid, ub, 0)
    ensures Flags(f0, f2, ts, min, supports, lb, ub, 0)
  {
    forall z: nat, y: nat ensures Seen(z, y, lb, ub, 0) <==> Seen(z, y, lb, mid, 0) || Seen(z, y, mid, ub, 0) {}
    forall z: nat | z < |f2| ensures f2[z] <==> f0[z] && Unmarked(ts, min, supports, z, lb, ub, 0) {
      hide Seen, Absorbs;
      assert Unmarked(ts, min, supports, z, lb, ub, 0)
        <==> Unmarked(ts, min, supports, z, lb, mid, 0) && Unmarked(ts, min, supports, z, mid, ub, 0);
    }
  }

  /** The transactions as a database. */
  function Db(ts: seq<seq<nat>>): (db: Database)
    ensures |db| == |ts| && forall k :: 0 <= k < |ts| ==> db[k] == Elems(ts[k])
  {
    seq(|ts|, k requires 0 <= k < |ts| => Elems(ts[k]))
  }

  /** Counting pairs is counting the support of two items. */
  lemma {:induction false} PairsIsSupp(ts: seq<seq<nat>>, x: nat, y: nat)
    ensures Pairs(ts, x, y) == Supp(Db(ts), {x, y})
  {
    if ts != [] {
      var k := |ts| - 1;
      PairsIsSupp(ts[..k], x, y);
      assert Tids(Db(ts), {x, y}) == Tids(Db(ts[..k]), {x, y}) + if HasPair(ts[k], x, y) then {k} else {};
    }
  }

  /** With exact supports of frequent items, a single item is closed just when none of its pairs is as
      frequent as it is alone. */
  lemma ClosedSingle(ts: seq<seq<nat>>, n: nat, min: nat, supports: seq<nat>, z: nat)
    requires z < n == |supports| && supports[z] == Supp(Db(ts), {z}) >= min
    ensures IsClosed(Db(ts), n, {z}) <==> forall y: nat :: y < n && y != z ==> !Absorbs(ts, min, supports, z, y)
  {
    var db := Db(ts);
    forall y: nat | y < n && y != z ensures Absorbs(ts, min, supports, z, y) <==> y in Closure(db, n, {z}) {
      PairsIsSupp(ts, z, y);
      SuppAntitone(db, {z}, {z, y});
      TidsUnion(db, {z}, {y});
      assert {z} + {y} == {z, y};
      if Tids(db, {z}) <= Tids(db, {y}) { assert Tids(db, {z, y}) == Tids(db, {z}); }
    }
    assert z in Closure(db, n, {z});
  }

  /** After the chunks of all rows exactly the closed single items are left for output. */
  lemma ClosedLeft(f0: seq<bool>, now: seq<bool>, ts: seq<seq<nat>>, n: nat, min: nat, supports: seq<nat>, z: nat)
    requires Flags(f0, now, ts, min, supports, 0, n, 0) && z < n == |supports| && f0[z]
    requires supports[z] == Supp(Db(ts), {z}) >= min
    ensures now[z] <==> IsClosed(Db(ts), n, {z})
  {
    ClosedSingle(ts, n, min, supports, z);
    assert forall y: nat :: y < n && y != z ==> Seen(z, y, 0, n, 0);
  }
}
