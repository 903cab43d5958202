/** The triangular table of the DCI partitioner: one cell per pair (x, y) with x in the rows of the chunk
    and x < y, in a flat buffer. */
module PairTable {
  import opened Basics

  /** Cells skipped before row start, in a table of all pairs of n items. */
  function Skipped(n: nat, start: nat): int
    requires start <= n
  {
    n * (n - 1) / 2 - (n - start) * (n - start - 1) / 2
  }

  function Size(n: nat, start: nat, end: nat): int
    requires start <= end <= n
  {
    (n - start) * (n - start - 1) / 2 - (n - end) * (n - end - 1) / 2
  }

  /** The place of the pair (x, y). */
  function Position(n: nat, start: nat, x: nat, y: nat): int
    requires start <= n
  {
    x * (n - 1) - x * (x + 1) / 2 + y - 1 - Skipped(n, start)
  }

  /** The place before the row of x, to which the second item is added. */
  function PositionInit(n: nat, start: nat, x: nat): int
    requires start <= n
  {
    x * (n - 1) - x * (x + 1) / 2 - 1 - Skipped(n, start)
  }

  /** Row x begins behind the pairs of all smaller rows. */
  lemma {:induction false} RowBegin(n: nat, x: nat)
    requires x < n
    ensures x * (n - 1) - x * (x + 1) / 2 == Tri(n) - Tri(n - x) - x
  {
    if x > 0 {
      RowBegin(n, x - 1);
      HalfStep(x + 1);
      Distribute(x, n - 1);
      Swap(x, x + 1);
      Swap(x - 1, x);
      TriStep(n - x + 1);
    }
  }

  lemma Swap(a: int, b: int)
    ensures a * b == b * a
  {
  }

  lemma TriStep(k: nat)
    requires k > 0
    ensures Tri(k) == Tri(k - 1) + k - 1
  {
  }

  lemma Distribute(x: int, m: int)
    ensures x * m == (x - 1) * m + m
  {
  }

  /** In terms of pairs: those of the rows from start to x - 1, and those before y in row x. */
  lemma PositionIs(n: nat, start: nat, x: nat, y: nat)
    requires start <= x < y < n
    ensures Position(n, start, x, y) == Tri(n - start) - Tri(n - x) + (y - x - 1)
    ensures PositionInit(n, start, x) + y == Position(n, start, x, y)
  {
    RowBegin(n, x);
    TriIs(n);
    TriIs(n - start);
  }

  lemma SizeIs(n: nat, start: nat, end: nat)
    requires start <= end <= n
    ensures Size(n, start, end) == Tri(n - start) - Tri(n - end) >= 0
  {
    TriIs(n - start);
    TriIs(n - end);
    TriMonotone(n - end, n - start);
    if end == n { assert (n - end) * (n - end - 1) == 0; }
    if start == n { assert (n - start) * (n - start - 1) == 0; }
  }

  predicate IsCell(n: nat, start: nat, end: nat, x: nat, y: nat) {
    start <= x < end <= n && x < y < n
  }

  /** The cells fill the buffer from 0 on, row after row: the order of the loops over all pairs. */
  lemma LoopOrder(n: nat, start: nat, end: nat, x: nat, y: nat)
    requires IsCell(n, start, end, x, y)
    ensures Position(n, start, start, start + 1) == 0
    ensures y + 1 < n ==> Position(n, start, x, y + 1) == Position(n, start, x, y) + 1
    ensures y + 1 == n && x + 2 < n ==> Position(n, start, x + 1, x + 2) == Position(n, start, x, y) + 1
    ensures y + 1 == n && (x + 1 == end || x + 2 == n) ==> Position(n, start, x, y) + 1 == Size(n, start, end)
    ensures 0 <= Position(n, start, x, y) < Size(n, start, end)
  {
    PositionIs(n, start, x, y);
    PositionIs(n, start, start, start + 1);
    SizeIs(n, start, end);
    TriMonotone(n - x, n - start);
    TriMonotone(n - end, n - x - 1);
    if y + 1 < n { PositionIs(n, start, x, y + 1); }
    if x + 2 < n { PositionIs(n, start, x + 1, x + 2); }
  }

  /** Different pairs have different places. */
  lemma Injective(n: nat, start: nat, end: nat, x: nat, y: nat, a: nat, b: nat)
    requires IsCell(n, start, end, x, y) && IsCell(n, start, end, a, b)
    ensures Position(n, start, x, y) == Position(n, start, a, b) <==> x == a && y == b
  {
    PositionIs(n, start, x, y);
    PositionIs(n, start, a, b);
    if x < a { TriMonotone(n - a, n - x - 1); }
    if a < x { TriMonotone(n - x, n - a - 1); }
  }

  /** Every place belongs to a pair. */
  lemma {:induction false} Onto(n: nat, start: nat, end: nat, k: nat) returns (x: nat, y: nat)
    requires start <= end <= n && k < Size(n, start, end)
    ensures IsCell(n, start, end, x, y) && Position(n, start, x, y) == k
    decreases end - start
  {
    SizeIs(n, start, end);
    assert start < end;
    SizeIs(n, start + 1, end);
    if k < n - start - 1 {
      x, y := start, start + 1 + k;
      PositionIs(n, start, x, y);
    } else {
      x, y := Onto(n, start + 1, end, k - (n - start - 1));
      PositionIs(n, start, x, y);
      PositionIs(n, start + 1, x, y);
    }
  }
}
