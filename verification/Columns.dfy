/** The DCI bitmap's column operations: the columns on which the most frequent items agree are moved to
    the front, and a projection keeps only the columns of one item. */
module Columns {
  import opened AimMasks
  import opened TidWords

  /** The columns that are set in row i. */
  function Row(vd: array2<bool>, i: nat): (s: set<nat>)
    requires i < vd.Length0
    reads vd
    ensures forall p: nat :: p in s <==> p < vd.Length1 && vd[i, p]
  {
    set p: nat | p < vd.Length1 && vd[i, p]
  }

  function Ones(mask: seq<bool>): (s: set<nat>)
    ensures forall p: nat :: p in s <==> p < |mask| && mask[p]
  {
    set p: nat | p < |mask| && mask[p]
  }

  function Zeros(mask: seq<bool>): (s: set<nat>)
    ensures forall p: nat :: p in s <==> p < |mask| && !mask[p]
  {
    set p: nat | p < |mask| && !mask[p]
  }

  /** Where column p goes: the columns of the mask first, the others behind them, both in order. */
  function Place(mask: seq<bool>, p: nat): nat
    requires p < |mask|
  {
    if mask[p] then Rank(Ones(mask), p) else Rank(Ones(mask), |mask|) + Rank(Zeros(mask), p)
  }

  lemma {:induction false} RankBoth(mask: seq<bool>, p: nat)
    requires p <= |mask|
    ensures Rank(Ones(mask), p) + Rank(Zeros(mask), p) == p
  {
    if p == 0 {
      assert (set q | q in Ones(mask) && q < 0) == {} == (set q | q in Zeros(mask) && q < 0);
    } else {
      RankBoth(mask, p - 1);
      RankStep(Ones(mask), p - 1);
      RankStep(Zeros(mask), p - 1);
    }
  }

  /** The places of the columns are a permutation. */
  lemma PlaceInjective(mask: seq<bool>, p: nat, q: nat)
    requires p < |mask| && q < |mask|
    ensures Place(mask, p) < |mask| && (Place(mask, p) == Place(mask, q) <==> p == q)
  {
    var ones, zeros := Ones(mask), Zeros(mask);
    RankBoth(mask, |mask|);
    PlaceBound(mask, p);
    PlaceBound(mask, q);
    if mask[p] && mask[q] { RankInjective(ones, p, q); }
    if !mask[p] && !mask[q] { RankInjective(zeros, p, q); }
  }

  lemma PlaceBound(mask: seq<bool>, p: nat)
    requires p < |mask|
    ensures mask[p] ==> Place(mask, p) < Rank(Ones(mask), |mask|)
    ensures !mask[p] ==> Rank(Ones(mask), |mask|) <= Place(mask, p) < Rank(Ones(mask), |mask|) + Rank(Zeros(mask),
              |mask|)
  {
    if mask[p] { RankMonotone(Ones(mask), p, |mask|); } else { RankMonotone(Zeros(mask), p, |mask|); }
  }

  /** Every place is taken. */
  lemma PlaceOnto(mask: seq<bool>, r: nat) returns (p: nat)
    requires r < |mask|
    ensures p < |mask| && Place(mask, p) == r
  {
    var n := Rank(Ones(mask), |mask|);
    RankBoth(mask, |mask|);
    if r < n {
      p := BitWithRank(Ones(mask), |mask|, r);
    } else {
      p := BitWithRank(Zeros(mask), |mask|, r - n);
    }
  }

  lemma {:induction false} BitWithRank(h: Mask, n: nat, r: nat) returns (p: nat)
    requires r < Rank(h, n)
    ensures p < n && p in h && Rank(h, p) == r
    decreases n
  {
    RankZero(h);
    assert n > 0;
    RankStep(h, n - 1);
    if r < Rank(h, n - 1) {
      p := BitWithRank(h, n - 1, r);
    } else {
      p := n - 1;
    }
  }

  lemma RankZero(h: Mask)
    ensures Rank(h, 0) == 0
  {
    assert (set q | q in h && q < 0) == {};
  }

  /** The row after all columns have moved. */
  function Moved(mask: seq<bool>, x: set<nat>): set<nat>
    requires forall p :: p in x ==> p < |mask|
  {
    set p | p in x :: Place(mask, p)
  }

  /** Mining sees no difference: intersections, inclusions and cardinalities are those of before. */
  lemma MovedPreserves(mask: seq<bool>, x: set<nat>, y: set<nat>)
    requires (forall p :: p in x ==> p < |mask|) && (forall p :: p in y ==> p < |mask|)
    ensures Moved(mask, x * y) == Moved(mask, x) * Moved(mask, y)
    ensures Moved(mask, x) <= Moved(mask, y) <==> x <= y
    ensures |Moved(mask, x)| == |x|
  {
    forall r | r in Moved(mask, x) * Moved(mask, y) ensures r in Moved(mask, x * y) {
      var p :| p in x && Place(mask, p) == r;
      var q :| q in y && Place(mask, q) == r;
      PlaceInjective(mask, p, q);
    }
    if Moved(mask, x) <= Moved(mask, y) {
      forall p | p in x ensures p in y {
        assert Place(mask, p) in Moved(mask, y);
        var q :| q in y && Place(mask, q) == Place(mask, p);
        PlaceInjective(mask, p, q);
      }
    }
    MovedCard(mask, x);
  }

  lemma {:induction false} MovedCard(mask: seq<bool>, x: set<nat>)
    requires forall p :: p in x ==> p < |mask|
    ensures |Moved(mask, x)| == |x|
    decreases |x|
  {
    if x != {} {
      var p :| p in x;
      MovedCard(mask, x - {p});
      forall q | q in x - {p} ensures Place(mask, q) != Place(mask, p) { PlaceInjective(mask, p, q); }
      assert Moved(mask, x) == Moved(mask, x - {p}) + {Place(mask, p)};
    }
  }

  // ---------------------------------------------------------------------------------------
  // Reordering
  // ---------------------------------------------------------------------------------------

  /** The columns below p with the given mask bit have been copied to their places in n. */
  ghost predicate Copied(mask: seq<bool>, o: seq<bool>, n: seq<bool>, done: set<nat>) {
    && |o| == |n| == |mask|
    && forall r: nat :: r < |n| ==> (n[r] <==> exists p: nat :: p in done && p < |mask| && o[p] && Place(mask, p) == r)
  }

  /** Copies the columns on one side of the mask, in order. */
  method CopySide(mask: seq<bool>, o: seq<bool>, n: array<bool>, side: bool, first: nat, ghost done: set<nat>)
    returns (tid: nat)
    requires Copied(mask, o, n[..], done) && first == if side then 0 else Rank(Ones(mask), |mask|)
    modifies n
    ensures tid == first + Rank(if side then Ones(mask) else Zeros(mask), |mask|)
    ensures Copied(mask, o, n[..], done + if side then Ones(mask) else Zeros(mask))
  {
    tid := first;
    ghost var h := if side then Ones(mask) else Zeros(mask);
    RankZero(h);
    assert done + Below(h, 0) == done;
    for p := 0 to |mask|
      invariant tid == first + Rank(h, p) && Copied(mask, o, n[..], done + Below(h, p))
    {
      RankStep(h, p);
      BelowStep(h, p);
      ghost var before := n[..];
      if mask[p] == side {
        assert tid == Place(mask, p);
        PlaceInjective(mask, p, p);
        hide Place, Rank, Copied, Ones, Zeros, Below;
        if o[p] {
          n[tid] := true;
        }
        CopyOne(mask, o, before, n[..], done + Below(h, p), p);
        assert done + Below(h, p + 1) == done + Below(h, p) + {p};
        tid := tid + 1;
      }
    }
    assert Below(h, |mask|) == h;
  }

  function Below(h: set<nat>, p: nat): set<nat> {
    set q | q in h && q < p
  }

  lemma BelowStep(h: set<nat>, p: nat)
    ensures Below(h, p + 1) == Below(h, p) + if p in h then {p} else {}
  {
  }

  lemma CopyOne(mask: seq<bool>, o: seq<bool>, before: seq<bool>, n: seq<bool>, done: set<nat>, p: nat)
    requires Copied(mask, o, before, done) && p < |mask| && Place(mask, p) < |mask|
    requires n == if o[p] then before[Place(mask, p) := true] else before
    ensures Copied(mask, o, n, done + {p})
  {
    forall r: nat | r < |n|
      ensures n[r] <==> exists q: nat :: q in done + {p} && q < |mask| && o[q] && Place(mask, q) == r
    {
      if r == Place(mask, p) && o[p] {
        assert p in done + {p};
      }
      if q: nat :| q in done && q < |mask| && o[q] && Place(mask, q) == r {
        assert q in done + {p};
      }
    }
  }

  /** Moves the columns of the mask to the front in every row. */
  method ReorderBitsCompact(vd: array2<bool>, equal: seq<bool>)
    requires |equal| == vd.Length1
    modifies vd
    ensures forall i: nat, p: nat :: i < vd.Length0 && p < vd.Length1 ==>
      Place(equal, p) < vd.Length1 && vd[i, Place(equal, p)] == old(vd[i, p])
  {
    forall p: nat | p < |equal| ensures Place(equal, p) < |equal| { PlaceInjective(equal, p, p); }
    for i := 0 to vd.Length0
      invariant forall k: nat, p: nat :: i <= k < vd.Length0 && p < vd.Length1 ==> vd[k, p] == old(vd[k, p])
      invariant forall k: nat, p: nat :: k < i && p < vd.Length1 ==> vd[k, Place(equal, p)] == old(vd[k, p])
    {
      ReorderRow(vd, equal, i);
      hide Place;
    }
  }

  method ReorderRow(vd: array2<bool>, equal: seq<bool>, i: nat)
    requires |equal| == vd.Length1 && i < vd.Length0
    requires forall p: nat :: p < |equal| ==> Place(equal, p) < |equal|
    modifies vd
    ensures forall k: nat, p: nat :: k < vd.Length0 && k != i && p < vd.Length1 ==> vd[k, p] == old(vd[k, p])
    ensures forall p: nat :: p < vd.Length1 ==> vd[i, Place(equal, p)] == old(vd[i, p])
  {
    var o := seq(vd.Length1, p requires 0 <= p < vd.Length1 reads vd => vd[i, p]);
    var n := MovedRow(equal, o);
    ghost var row := n[..];
    hide Place;
    for r := 0 to vd.Length1
      invariant forall k: nat, p: nat :: k < vd.Length0 && k != i && p < vd.Length1 ==> vd[k, p] == old(vd[k, p])
      invariant n[..] == row && forall p: nat :: p < r ==> vd[i, p] == row[p]
    {
      vd[i, r] := n[r];
    }
    forall p: nat | p < vd.Length1 ensures vd[i, Place(equal, p)] == old(vd[i, p]) {
      assert row[Place(equal, p)] == o[p];
    }
  }

  /** A row with its columns in their new places. */
  method MovedRow(equal: seq<bool>, o: seq<bool>) returns (n: array<bool>)
    requires |o| == |equal| && forall p: nat :: p < |equal| ==> Place(equal, p) < |equal|
    ensures fresh(n) && n.Length == |equal| && forall p: nat :: p < |equal| ==> n[Place(equal, p)] == o[p]
  {
    n := new bool[|equal|](_ => false);
    var tid := CopySide(equal, o, n, true, 0, {});
    tid := CopySide(equal, o, n, false, tid, {} + Ones(equal));
    AllCopied(equal, o, n[..], {} + Ones(equal) + Zeros(equal));
  }

  lemma AllCopied(equal: seq<bool>, o: seq<bool>, n: seq<bool>, all: set<nat>)
    requires Copied(equal, o, n, all) && forall p: nat :: p < |equal| ==> Place(equal, p) < |equal| && p in all
    ensures forall p: nat :: p < |equal| ==> n[Place(equal, p)] == o[p]
  {
    forall p: nat | p < |equal| ensures n[Place(equal, p)] == o[p] {
      if n[Place(equal, p)] {
        var q: nat :| q in all && q < |equal| && o[q] && Place(equal, q) == Place(equal, p);
        PlaceInjective(equal, p, q);
      }
    }
  }

  // ---------------------------------------------------------------------------------------
  // The section equal
  // ---------------------------------------------------------------------------------------

  ghost function RowsOf(vd: array2<bool>): (rows: seq<set<nat>>)
    reads vd
    ensures |rows| == vd.Length0 && forall i: nat :: i < vd.Length0 ==> rows[i] == Row(vd, i)
  {
    seq(vd.Length0, i requires 0 <= i < vd.Length0 reads vd => Row(vd, i))
  }

  ghost predicate AgreeAt(rows: seq<set<nat>>, start: nat, p: nat) {
    forall i: nat :: start <= i < |rows| ==> (p in rows[i] <==> p in rows[|rows| - 1])
  }

  /** The columns on which all rows from start on agree. */
  ghost function Common(rows: seq<set<nat>>, width: nat, start: nat): (s: set<nat>)
    ensures forall p: nat :: p in s <==> p < width && AgreeAt(rows, start, p)
  {
    set p: nat | p < width && AgreeAt(rows, start, p)
  }

  /** Rows are taken in from the last one down to start, and no further, by the answers of the test. */
  ghost predicate Accepted(rows: seq<set<nat>>, width: nat, enough: (nat, nat) -> bool, start: nat) {
    && (forall k: nat :: start <= k < |rows| - 1 ==> enough(|Common(rows, width, k)|, k))
    && (start > 0 ==> !enough(|Common(rows, width, start - 1)|, start - 1))
  }

  /** The section equal: at least two rows, as many as the test accepts, and as many whole words as the columns
      fill on which they agree. Without two such rows there is no section. */
  ghost predicate SectionIs(rows: seq<set<nat>>, width: nat, enough: (nat, nat) -> bool, start: nat, size: nat) {
    if start == |rows| then
      size == 0 && start > 0 && Accepted(rows, width, enough, start - 1)
    else
      && start + 1 < |rows| && Accepted(rows, width, enough, start)
      && size * WORD_BITS <= |Common(rows, width, start)| < (size + 1) * WORD_BITS
  }

  lemma CommonLast(rows: seq<set<nat>>, width: nat, p: nat)
    requires |rows| > 0
    ensures p in Common(rows, width, |rows| - 1) <==> p < width
  {
  }

  lemma CommonNext(rows: seq<set<nat>>, width: nat, k: nat, p: nat)
    requires k + 1 < |rows|
    ensures p in Common(rows, width, k)
       <==> p in Common(rows, width, k + 1) && (p in rows[k] <==> p in rows[|rows| - 1])
  {
    if AgreeAt(rows, k + 1, p) && (p in rows[k] <==> p in rows[|rows| - 1]) {
      assert AgreeAt(rows, k, p);
    }
  }

  /** Takes in rows from the most frequent one down as long as enough columns agree; enough stands for the
      comparison with the percentage limits. */
  method FindEqual(vd: array2<bool>, enough: (nat, nat) -> bool) returns (start: nat, mask: seq<bool>, count: nat)
    requires vd.Length0 > 0
    ensures start < vd.Length0 && |mask| == vd.Length1 && Ones(mask) == Common(RowsOf(vd), vd.Length1, start)
    ensures Accepted(RowsOf(vd), vd.Length1, enough, start)
    ensures count == if start < vd.Length0 - 1 then |Common(RowsOf(vd), vd.Length1, start)| else 0
  {
    var end := vd.Length0;
    ghost var rows := RowsOf(vd);
    mask := seq(vd.Length1, _ => true);
    start, count := end - 1, 0;
    forall p: nat ensures p in Ones(mask) <==> p in Common(rows, vd.Length1, start) {
      CommonLast(rows, vd.Length1, p);
    }
    var next := end - 2;
    hide Common, Accepted;
    while next >= 0
      invariant -1 <= next < start + 1 <= end && next == start - 1
      invariant |mask| == vd.Length1 && Ones(mask) == Common(rows, vd.Length1, start)
      invariant forall k: nat :: start <= k < end - 1 ==> enough(|Common(rows, vd.Length1, k)|, k)
      invariant count == if start < end - 1 then |Common(rows, vd.Length1, start)| else 0
    {
      var result := seq(vd.Length1,
                        p requires 0 <= p < vd.Length1 reads vd => mask[p] && vd[next, p] == vd[end - 1, p]);
      MaskNext(vd, rows, next, mask, result);
      var ones := |Ones(result)|;
      if !enough(ones, next) {
        AcceptedIs(rows, vd.Length1, enough, start);
        return;
      }
      mask, count, start := result, ones, next;
      next := next - 1;
    }
    AcceptedIs(rows, vd.Length1, enough, start);
  }

  lemma AcceptedIs(rows: seq<set<nat>>, width: nat, enough: (nat, nat) -> bool, start: nat)
    requires forall k: nat :: start <= k < |rows| - 1 ==> enough(|Common(rows, width, k)|, k)
    requires start > 0 ==> !enough(|Common(rows, width, start - 1)|, start - 1)
    ensures Accepted(rows, width, enough, start)
  {
  }

  lemma MaskNext(vd: array2<bool>, rows: seq<set<nat>>, k: nat, mask: seq<bool>, result: seq<bool>)
    requires rows == RowsOf(vd) && k + 1 < vd.Length0 && |mask| == |result| == vd.Length1
    requires Ones(mask) == Common(rows, vd.Length1, k + 1)
    requires forall p: nat :: p < vd.Length1 ==> result[p] == (mask[p] && vd[k, p] == vd[vd.Length0 - 1, p])
    ensures Ones(result) == Common(rows, vd.Length1, k)
  {
    hide Common, RowsOf;
    forall p: nat ensures p in Ones(result) <==> p in Common(rows, vd.Length1, k) {
      CommonNext(rows, vd.Length1, k, p);
      assert p in Ones(mask) <==> p in Common(rows, vd.Length1, k + 1);
    }
  }

  /** After the reordering, the first words of the rows from start on are the same: as many words as the
      agreeing columns fill. */
  lemma SectionEqual(mask: seq<bool>, a: set<nat>, b: set<nat>, q: nat)
    requires (forall p :: p in a ==> p < |mask|) && (forall p :: p in b ==> p < |mask|)
    requires forall p: nat :: p < |mask| && mask[p] ==> (p in a <==> p in b)
    requires q / WORD_BITS < |Ones(mask)| / WORD_BITS
    ensures q in Moved(mask, a) <==> q in Moved(mask, b)
  {
    RankOnes(mask);
    assert q < |Ones(mask)|;
    SectionSide(mask, a, b, q);
    SectionSide(mask, b, a, q);
  }

  lemma SectionSide(mask: seq<bool>, a: set<nat>, b: set<nat>, q: nat)
    requires (forall p :: p in a ==> p < |mask|) && (forall p :: p in b ==> p < |mask|)
    requires forall p: nat :: p < |mask| && mask[p] ==> (p in a <==> p in b)
    requires q < Rank(Ones(mask), |mask|)
    ensures q in Moved(mask, a) ==> q in Moved(mask, b)
  {
    if q in Moved(mask, a) {
      var p :| p in a && Place(mask, p) == q;
      PlaceBound(mask, p);
    }
  }

  lemma RankOnes(mask: seq<bool>)
    ensures Rank(Ones(mask), |mask|) == |Ones(mask)|
  {
    assert (set q | q in Ones(mask) && q < |mask|) == Ones(mask);
  }

  lemma RankBelow(h: set<nat>, p: nat)
    ensures Rank(h, p) == |Below(h, p)|
  {
    assert (set q | q in h && q < p) == Below(h, p);
  }

  lemma RowMoved(before: set<nat>, row: set<nat>, mask: seq<bool>)
    requires (forall p :: p in before ==> p < |mask|) && (forall p :: p in row ==> p < |mask|)
    requires forall p: nat :: p < |mask| ==> Place(mask, p) < |mask| && (Place(mask, p) in row <==> p in before)
    ensures row == Moved(mask, before)
  {
    forall r | r in row ensures r in Moved(mask, before) {
      var p := PlaceOnto(mask, r);
    }
  }

  /** Finds the rows that agree on many columns, moves these columns to the front of all rows, and keeps the
      number of whole words that they fill, with their number of one bits. */
  method FindSectionEqual(vd: array2<bool>, enough: (nat, nat) -> bool)
    returns (start: nat, size: nat, bits: nat, ghost mask: seq<bool>)
    requires vd.Length0 > 0
    modifies vd
    ensures |mask| == vd.Length1 && start <= vd.Length0 && size * WORD_BITS <= vd.Length1
    ensures SectionIs(old(RowsOf(vd)), vd.Length1, enough, start, size)
    ensures forall i: nat :: i < vd.Length0 ==>
      Row(vd, i) == if start < vd.Length0 then Moved(mask, old(Row(vd, i))) else old(Row(vd, i))
    ensures forall i: nat, q: nat :: start <= i < vd.Length0 && q < size * WORD_BITS ==>
              vd[i, q] == vd[vd.Length0 - 1, q]
    ensures bits == if start < vd.Length0 then |Below(Row(vd, start), size * WORD_BITS)| else 0
  {
    ghost var rows := RowsOf(vd);
    var equal, count;
    start, equal, count := FindEqual(vd, enough);
    mask := equal;
    size := count / WORD_BITS;
    if vd.Length0 - start > 1 {
      RankOnes(equal);
      RankBoth(equal, |equal|);
      RowsAgree(vd, rows, start, equal);
      ReorderRows(vd, rows, equal);
      hide Common, Accepted, Place, Moved, Ones, Row, RowsOf;
      AllMoved(vd, rows, equal);
      SectionSame(vd, rows, equal, start, size);
      bits := CountSection(vd, start, size * WORD_BITS);
    } else {
      bits, size, start := 0, 0, vd.Length0;
    }
  }

  /** The reordering, with the rows before as sets. */
  method ReorderRows(vd: array2<bool>, ghost rows: seq<set<nat>>, equal: seq<bool>)
    requires |equal| == vd.Length1 && |rows| == vd.Length0
    requires forall i: nat, p: nat :: i < |rows| ==> (p in rows[i] <==> p < vd.Length1 && vd[i, p])
    modifies vd
    ensures forall i: nat, p: nat :: i < vd.Length0 && p < vd.Length1 ==> MovedTo(vd, rows, equal, i, p)
  {
    ReorderBitsCompact(vd, equal);
    forall i: nat, p: nat | i < vd.Length0 && p < vd.Length1 ensures MovedTo(vd, rows, equal, i, p) {
      assert old(vd[i, p]) == (p in rows[i]);
    }
  }

  /** Column p of row i is at its new place. */
  ghost predicate MovedTo(vd: array2<bool>, rows: seq<set<nat>>, equal: seq<bool>, i: nat, p: nat)
    requires i < vd.Length0 && i < |rows| && p < |equal|
    reads vd
  {
    Place(equal, p) < vd.Length1 && vd[i, Place(equal, p)] == (p in rows[i])
  }

  /** What the mask says about the rows as sets. */
  lemma RowsAgree(vd: array2<bool>, rows: seq<set<nat>>, start: nat, mask: seq<bool>)
    requires vd.Length0 > 0 && rows == RowsOf(vd) && Ones(mask) == Common(rows, vd.Length1, start)
    ensures forall i: nat, p: nat :: start <= i < |rows| && p < |mask| && mask[p] ==>
              (p in rows[i] <==> p in rows[|rows| - 1])
    ensures forall i: nat, p: nat :: i < |rows| ==> (p in rows[i] <==> p < vd.Length1 && vd[i, p])
  {
    forall i: nat, p: nat | start <= i < |rows| && p < |mask| && mask[p]
      ensures p in rows[i] <==> p in rows[|rows| - 1]
    {
      assert p in Ones(mask) && p in Common(rows, vd.Length1, start);
      assert AgreeAt(rows, start, p);
    }
  }

  lemma AllMoved(vd: array2<bool>, rows: seq<set<nat>>, equal: seq<bool>)
    requires |rows| == vd.Length0 && |equal| == vd.Length1
    requires forall i: nat, p: nat :: i < |rows| && p in rows[i] ==> p < |equal|
    requires forall i: nat, p: nat :: i < vd.Length0 && p < vd.Length1 ==> MovedTo(vd, rows, equal, i, p)
    ensures forall i: nat :: i < vd.Length0 ==> Row(vd, i) == Moved(equal, rows[i])
  {
    hide Place, Moved;
    forall i: nat | i < vd.Length0 ensures Row(vd, i) == Moved(equal, rows[i]) {
      forall p: nat | p < |equal|
        ensures Place(equal, p) < |equal| && (Place(equal, p) in Row(vd, i) <==> p in rows[i])
      {
        assert MovedTo(vd, rows, equal, i, p);
      }
      RowMoved(rows[i], Row(vd, i), equal);
    }
  }

  lemma SectionSame(vd: array2<bool>, rows: seq<set<nat>>, equal: seq<bool>, start: nat, size: nat)
    requires |rows| == vd.Length0 > 0 && |equal| == vd.Length1 && size == |Ones(equal)| / WORD_BITS
    requires size * WORD_BITS <= vd.Length1
    requires forall i: nat, p: nat :: i < |rows| && p in rows[i] ==> p < |equal|
    requires forall i: nat, p: nat :: start <= i < |rows| && p < |equal| && equal[p] ==>
               (p in rows[i] <==> p in rows[|rows| - 1])
    requires forall i: nat :: i < vd.Length0 ==> Row(vd, i) == Moved(equal, rows[i])
    ensures forall i: nat, q: nat :: start <= i < vd.Length0 && q < size * WORD_BITS ==>
              vd[i, q] == vd[vd.Length0 - 1, q]
  {
    hide Place, Moved;
    forall i: nat, q: nat | start <= i < vd.Length0 && q < size * WORD_BITS ensures vd[i, q] == vd[vd.Length0 - 1, q] {
      SectionEqual(equal, rows[i], rows[vd.Length0 - 1], q);
      assert vd[i, q] == (q in Row(vd, i)) && vd[vd.Length0 - 1, q] == (q in Row(vd, vd.Length0 - 1));
    }
  }

  method CountSection(vd: array2<bool>, i: nat, width: nat) returns (count: nat)
    requires i < vd.Length0 && width <= vd.Length1
    ensures count == |Below(Row(vd, i), width)|
  {
    count := 0;
    assert Below(Row(vd, i), 0) == {};
    for q := 0 to width
      invariant count == |Below(Row(vd, i), q)|
    {
      if vd[i, q] {
        assert Below(Row(vd, i), q + 1) == Below(Row(vd, i), q) + {q};
        count := count + 1;
      } else {
        assert Below(Row(vd, i), q + 1) == Below(Row(vd, i), q);
      }
    }
  }

  // ---------------------------------------------------------------------------------------
  // Projection
  // ---------------------------------------------------------------------------------------

  /** The new places of the columns of the mask, -1 for the others. */
  method BuildShifts(mask: seq<bool>) returns (shifted: array<int>)
    ensures fresh(shifted) && shifted.Length == |mask|
    ensures forall p :: 0 <= p < |mask| ==> shifted[p] == if mask[p] then Rank(Ones(mask), p) else -1
  {
    shifted := new int[|mask|];
    var value := 0;
    RankZero(Ones(mask));
    for p := 0 to |mask|
      invariant value == Rank(Ones(mask), p)
      invariant forall q :: 0 <= q < p ==> shifted[q] == if mask[q] then Rank(Ones(mask), q) else -1
    {
      RankStep(Ones(mask), p);
      if mask[p] {
        shifted[p] := value;
        value := value + 1;
      } else {
        shifted[p] := -1;
      }
    }
  }

  /** One row of the projected dataset: its columns under the mask, pushed together. */
  method MaskedShrink(dest: array2<bool>, i: nat, src: seq<bool>, mask: seq<bool>, shifted: array<int>)
    returns (support: nat)
    requires i < dest.Length0 && |src| == |mask| == shifted.Length && |Ones(mask)| <= dest.Length1
    requires forall p :: 0 <= p < |mask| ==> shifted[p] == if mask[p] then Rank(Ones(mask), p) else -1
    modifies dest
    ensures forall k: nat, r: nat :: k < dest.Length0 && k != i && r < dest.Length1 ==> dest[k, r] == old(dest[k, r])
    ensures forall r: nat :: r < dest.Length1 ==> (dest[i, r] <==> r in Project(Ones(src), Ones(mask)))
    ensures support == |Ones(src) * Ones(mask)|
  {
    for r := 0 to dest.Length1
      invariant forall k: nat, q: nat :: k < dest.Length0 && k != i && q < dest.Length1 ==>
                  dest[k, q] == old(dest[k, q])
      invariant forall q: nat :: q < r ==> !dest[i, q]
    {
      dest[i, r] := false;
    }
    support := 0;
    assert Below(Ones(src) * Ones(mask), 0) == {};
    for p := 0 to |mask|
      invariant forall k: nat, q: nat :: k < dest.Length0 && k != i && q < dest.Length1 ==>
                  dest[k, q] == old(dest[k, q])
      invariant forall r: nat :: r < dest.Length1 ==> (dest[i, r] <==> InProject(src, mask, p, r))
      invariant support == |Below(Ones(src) * Ones(mask), p)|
    {
      InProjectStep(src, mask, p);
      hide InProject, Rank, Project;
      if mask[p] && src[p] {
        support := support + 1;
        assert Below(Ones(src) * Ones(mask), p + 1) == Below(Ones(src) * Ones(mask), p) + {p};
        dest[i, shifted[p]] := true;
      } else {
        assert Below(Ones(src) * Ones(mask), p + 1) == Below(Ones(src) * Ones(mask), p);
      }
    }
    assert Below(Ones(src) * Ones(mask), |mask|) == Ones(src) * Ones(mask);
    forall r: nat ensures InProject(src, mask, |mask|, r) <==> r in Project(Ones(src), Ones(mask)) {}
  }

  /** r is the new place of a common column below bound. */
  ghost predicate InProject(src: seq<bool>, mask: seq<bool>, bound: nat, r: nat) {
    exists p :: p in Ones(src) && p in Ones(mask) && p < bound && Rank(Ones(mask), p) == r
  }

  lemma InProjectStep(src: seq<bool>, mask: seq<bool>, p: nat)
    requires p < |mask| == |src|
    ensures forall r: nat :: InProject(src, mask, p + 1, r) <==>
      InProject(src, mask, p, r) || (mask[p] && src[p] && r == Rank(Ones(mask), p))
    ensures mask[p] ==> Rank(Ones(mask), p) < |Ones(mask)|
  {
    RankBound(Ones(mask), p);
    var p1 := p + 1;
    forall r: nat ensures InProject(src, mask, p1, r) <==>
      InProject(src, mask, p, r) || (mask[p] && src[p] && r == Rank(Ones(mask), p))
    {
      if mask[p] && src[p] && r == Rank(Ones(mask), p) { assert p in Ones(src) && p in Ones(mask); }
    }
  }

  /** Under the item, mining the projection sees no difference. */
  lemma ProjectPreserves(x: set<nat>, y: set<nat>, h: set<nat>)
    ensures Project(x * y, h) == Project(x, h) * Project(y, h)
    ensures |Project(x, h)| == |x * h|
    ensures Project(x, h) <= Project(y, h) <==> x * h <= y
  {
    forall r | r in Project(x, h) * Project(y, h) ensures r in Project(x * y, h) {
      var p :| p in x && p in h && Rank(h, p) == r;
      var q :| q in y && q in h && Rank(h, q) == r;
      RankInjective(h, p, q);
    }
    if Project(x, h) <= Project(y, h) {
      forall p | p in x * h ensures p in y {
        assert Rank(h, p) in Project(y, h);
        var q :| q in y && q in h && Rank(h, q) == Rank(h, p);
        RankInjective(h, p, q);
      }
    }
    ProjectCard(x, h);
  }

  lemma {:induction false} ProjectCard(x: set<nat>, h: set<nat>)
    ensures |Project(x, h)| == |x * h|
    decreases |x * h|
  {
    if x * h == {} {
      assert Project(x, h) == {};
    } else {
      var p :| p in x * h;
      assert (x - {p}) * h == x * h - {p};
      ProjectCard(x - {p}, h);
      forall q | q in (x - {p}) * h ensures Rank(h, q) != Rank(h, p) { RankInjective(h, p, q); }
      assert Project(x, h) == Project(x - {p}, h) + {Rank(h, p)};
    }
  }

  /** The dataset under one item: every row projected onto the item's columns, in rows of as many words as
      its support needs, and the number of words that the rows of the section equal still share. */
  method CreateNewDataset(vd: array2<bool>, item: nat, support: nat, start: nat, section: nat)
    returns (next: array2<bool>, nextSection: nat, nextBits: nat)
    requires item < vd.Length0 && support == |Row(vd, item)|
    requires start <= vd.Length0 && section * WORD_BITS <= vd.Length1
    ensures fresh(next) && next.Length0 == vd.Length0 && next.Length1 == (support / WORD_BITS + 1) * WORD_BITS
    ensures forall i: nat :: i < vd.Length0 ==> Row(next, i) == Project(Row(vd, i), Row(vd, item))
    ensures nextSection * WORD_BITS <= next.Length1
    ensures section * WORD_BITS == vd.Length1 ==> nextSection * WORD_BITS == next.Length1
    ensures section * WORD_BITS < vd.Length1 ==>
              nextSection * WORD_BITS <= |Below(Row(vd, item), section * WORD_BITS)| < (nextSection + 1) * WORD_BITS
    ensures nextBits == if start < vd.Length0 then |Below(Row(next, start), nextSection * WORD_BITS)| else 0
    ensures SectionShared(vd, start, section) ==> SectionShared(next, start, nextSection)
  {
    var mask := RowOf(vd, item);
    var size := support / WORD_BITS + 1;
    var shifted := BuildShifts(mask);
    next := new bool[vd.Length0, size * WORD_BITS];
    nextSection := size;
    if section * WORD_BITS != vd.Length1 {
      var before := CountBelow(mask, section * WORD_BITS);
      nextSection := before / WORD_BITS;
      RankBound(Row(vd, item), section * WORD_BITS);
      RankBelow(Row(vd, item), section * WORD_BITS);
    }
    ProjectRows(vd, next, mask, shifted);
    nextBits := 0;
    if start < vd.Length0 {
      nextBits := CountSection(next, start, nextSection * WORD_BITS);
    }
    if SectionShared(vd, start, section) { SharedShrunk(vd, next, item, start, section, nextSection); }
  }

  /** The rows from start on share their first words. */
  ghost predicate SectionShared(vd: array2<bool>, start: nat, words: nat)
    reads vd
  {
    && words * WORD_BITS <= vd.Length1
    && forall i: nat, q: nat :: start <= i < vd.Length0 && q < words * WORD_BITS ==> vd[i, q] == vd[vd.Length0 - 1, q]
  }

  lemma SharedShrunk(vd: array2<bool>, next: array2<bool>, item: nat, start: nat, section: nat, nextSection: nat)
    requires item < vd.Length0 == next.Length0 && SectionShared(vd, start, section)
    requires forall i: nat :: i < vd.Length0 ==> Row(next, i) == Project(Row(vd, i), Row(vd, item))
    requires nextSection * WORD_BITS <= next.Length1
    requires section * WORD_BITS < vd.Length1 ==> nextSection * WORD_BITS <= Rank(Row(vd, item), section * WORD_BITS)
    ensures SectionShared(next, start, nextSection)
  {
    hide Project, Rank;
    var h, last := Row(vd, item), vd.Length0 - 1;
    forall i: nat, q: nat | start <= i < vd.Length0 && q < nextSection * WORD_BITS ensures next[i, q] == next[last, q] {
      var a, b := Row(vd, i), Row(vd, last);
      assert next[i, q] == (q in Row(next, i)) && next[last, q] == (q in Row(next, last));
      assert forall p: nat :: p < section * WORD_BITS ==> (p in a <==> p in b);
      if section * WORD_BITS == vd.Length1 {
        assert a == b;
      } else {
        ShrunkSection(a, b, h, section * WORD_BITS, q);
      }
    }
  }

  method ProjectRows(vd: array2<bool>, next: array2<bool>, mask: seq<bool>, shifted: array<int>)
    requires vd != next && |mask| == vd.Length1 == shifted.Length && next.Length0 == vd.Length0
    requires |Ones(mask)| <= next.Length1
    requires forall p :: 0 <= p < |mask| ==> shifted[p] == if mask[p] then Rank(Ones(mask), p) else -1
    modifies next
    ensures forall i: nat :: i < vd.Length0 ==> Row(next, i) == Project(Row(vd, i), Ones(mask))
  {
    for i := 0 to vd.Length0
      invariant forall k: nat :: k < i ==> Row(next, k) == Project(Row(vd, k), Ones(mask))
      invariant forall p :: 0 <= p < |mask| ==> shifted[p] == if mask[p] then Rank(Ones(mask), p) else -1
    {
      var src := RowOf(vd, i);
      hide Project;
      ghost var rows := seq(i, k requires 0 <= k < i reads next => Row(next, k));
      var _ := MaskedShrink(next, i, src, mask, shifted);
      ProjectFits(Ones(src), Ones(mask), next.Length1);
      assert Row(next, i) == Project(Ones(src), Ones(mask));
      forall k: nat | k < i ensures Row(next, k) == Project(Row(vd, k), Ones(mask)) {
        assert rows[k] == Project(Row(vd, k), Ones(mask));
        assert Row(next, k) == rows[k];
      }
    }
  }

  /** All places of the projection lie within the new rows. */
  lemma ProjectFits(x: set<nat>, h: set<nat>, width: nat)
    requires |h| <= width
    ensures forall r :: r in Project(x, h) ==> r < width
  {
    forall p | p in x && p in h ensures Rank(h, p) < width { RankBound(h, p); }
  }

  method RowOf(vd: array2<bool>, i: nat) returns (row: seq<bool>)
    requires i < vd.Length0
    ensures |row| == vd.Length1 && Ones(row) == Row(vd, i)
  {
    row := seq(vd.Length1, p requires 0 <= p < vd.Length1 reads vd => vd[i, p]);
  }

  method CountBelow(mask: seq<bool>, bound: nat) returns (count: nat)
    requires bound <= |mask|
    ensures count == Rank(Ones(mask), bound)
  {
    count := 0;
    RankZero(Ones(mask));
    for p := 0 to bound
      invariant count == Rank(Ones(mask), p)
    {
      RankStep(Ones(mask), p);
      if mask[p] {
        count := count + 1;
      }
    }
  }

  /** Rows that agree on the columns below bound agree, after projection, below the rank of bound. */
  lemma ShrunkSection(a: set<nat>, b: set<nat>, h: set<nat>, bound: nat, q: nat)
    requires forall p :: p < bound ==> (p in a <==> p in b)
    requires q < Rank(h, bound)
    ensures q in Project(a, h) <==> q in Project(b, h)
  {
    ShrunkSide(a, b, h, bound, q);
    ShrunkSide(b, a, h, bound, q);
  }

  lemma ShrunkSide(a: set<nat>, b: set<nat>, h: set<nat>, bound: nat, q: nat)
    requires forall p :: p < bound ==> (p in a <==> p in b)
    requires q < Rank(h, bound)
    ensures q in Project(a, h) ==> q in Project(b, h)
  {
    if q in Project(a, h) {
      var p :| p in a && p in h && Rank(h, p) == q;
      if p >= bound { RankMonotone(h, bound, p); }
    }
  }
}
