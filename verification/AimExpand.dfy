/** Expansion of absorbed items: AIM writes one path of items together with every subset of the items
    that were absorbed along it because they left the support unchanged. */
module AimExpand {
  import opened Basics
  import opened Powers

  /** An item of the path, or an absorbed one. */
  datatype Token = Token(item: nat, absorbed: bool)

  /** A written itemset: its items in output order, and the support printed with them. */
  datatype Line = Line(items: seq<nat>, supp: nat)

  function All(ts: seq<Token>): set<nat> {
    if ts == [] then {} else {ts[0].item} + All(ts[1..])
  }

  function Path(ts: seq<Token>): set<nat> {
    if ts == [] then {} else (if ts[0].absorbed then {} else {ts[0].item}) + Path(ts[1..])
  }

  predicate Distinct(ts: seq<Token>) {
    if ts == [] then true else ts[0].item !in All(ts[1..]) && Distinct(ts[1..])
  }

  /** RecurseBuildFI on a flattened path: with and without each absorbed item. */
  function Expand(ts: seq<Token>, supp: nat, buf: seq<nat>): seq<Line> {
    if ts == [] then [Line(buf, supp)]
    else if ts[0].absorbed then Expand(ts[1..], supp, buf + [ts[0].item]) + Expand(ts[1..], supp, buf)
    else Expand(ts[1..], supp, buf + [ts[0].item])
  }

  lemma ExpandStep(t: Token, ts: seq<Token>, supp: nat, buf: seq<nat>)
    ensures Expand([t] + ts, supp, buf)
         == Expand(ts, supp, buf + [t.item]) + if t.absorbed then Expand(ts, supp, buf) else []
  {
    assert ([t] + ts)[1..] == ts;
  }

  lemma ExpandEnd(supp: nat, buf: seq<nat>)
    ensures Expand([], supp, buf) == [Line(buf, supp)]
  {
  }

  /** How often the itemset z has been written with support s. */
  function Count(out: seq<Line>, z: set<nat>, s: nat): nat {
    if out == [] then 0
    else (if Elems(out[0].items) == z && out[0].supp == s then 1 else 0) + Count(out[1..], z, s)
  }

  /** How many itemsets of length k have been written. */
  function OfLength(out: seq<Line>, k: nat): nat {
    if out == [] then 0 else (if |out[0].items| == k then 1 else 0) + OfLength(out[1..], k)
  }

  lemma {:induction false} CountConcat(a: seq<Line>, b: seq<Line>, z: set<nat>, s: nat)
    ensures Count(a + b, z, s) == Count(a, z, s) + Count(b, z, s)
  {
    if a == [] { assert a + b == b; } else { assert (a + b)[1..] == a[1..] + b; CountConcat(a[1..], b, z, s); }
  }

  lemma {:induction false} OfLengthConcat(a: seq<Line>, b: seq<Line>, k: nat)
    ensures OfLength(a + b, k) == OfLength(a, k) + OfLength(b, k)
  {
    if a == [] { assert a + b == b; } else { assert (a + b)[1..] == a[1..] + b; OfLengthConcat(a[1..], b, k); }
  }

  lemma {:induction false} PathInAll(ts: seq<Token>)
    ensures Path(ts) <= All(ts)
  {
    if ts != [] { PathInAll(ts[1..]); }
  }

  /** Expansion writes every set between the path and the path with all absorbed items, once each. */
  lemma {:induction false} ExpandExact(ts: seq<Token>, supp: nat, buf: seq<nat>, z: set<nat>, s: nat)
    requires Distinct(ts) && All(ts) !! Elems(buf)
    ensures Count(Expand(ts, supp, buf), z, s)
         == if Elems(buf) + Path(ts) <= z <= Elems(buf) + All(ts) && s == supp then 1 else 0
  {
    if ts == [] {
      assert Expand(ts, supp, buf)[1..] == [];
    } else {
      var q, rest := ts[0].item, ts[1..];
      assert Elems(buf + [q]) == Elems(buf) + {q};
      PathInAll(rest);
      ExpandExact(rest, supp, buf + [q], z, s);
      if ts[0].absorbed {
        ExpandExact(rest, supp, buf, z, s);
        CountConcat(Expand(rest, supp, buf + [q]), Expand(rest, supp, buf), z, s);
      }
    }
  }

  // ---------------------------------------------------------------------------------------
  // Arithmetic counting
  // ---------------------------------------------------------------------------------------

  function Absorbed(ts: seq<Token>): nat {
    if ts == [] then 0 else (if ts[0].absorbed then 1 else 0) + Absorbed(ts[1..])
  }

  /** Binomial coefficient, by Pascal's rule. */
  function Choose(m: nat, k: nat): nat {
    if k == 0 then 1 else if m == 0 then 0 else Choose(m - 1, k - 1) + Choose(m - 1, k)
  }

  lemma {:induction false} ChooseBeyond(m: nat, k: nat)
    requires k > m
    ensures Choose(m, k) == 0
    decreases m
  {
    if m > 0 { ChooseBeyond(m - 1, k - 1); ChooseBeyond(m - 1, k); }
  }

  /** The step of the running product: C(m, k+1) * (k+1) == C(m, k) * (m-k). */
  lemma {:induction false} ChooseStep(m: nat, k: nat)
    requires k <= m
    ensures Choose(m, k + 1) * (k + 1) == Choose(m, k) * (m - k)
    decreases m
  {
    if m == 0 {
      assert Choose(0, 1) == 0;
    } else if k == 0 {
      ChooseStep(m - 1, 0);
      assert Choose(m, 1) == Choose(m - 1, 0) + Choose(m - 1, 1);
    } else {
      var a, b, c := Choose(m - 1, k - 1), Choose(m - 1, k), Choose(m - 1, k + 1);
      ChooseStep(m - 1, k - 1);
      if k < m {
        ChooseStep(m - 1, k);
      } else {
        ChooseBeyond(m - 1, k);
        ChooseBeyond(m - 1, k + 1);
      }
      assert Choose(m, k + 1) == b + c && Choose(m, k) == a + b;
      hide Choose;
      CrossMultiply(a, b, c, m, k);
    }
  }

  lemma CrossMultiply(a: nat, b: nat, c: nat, m: nat, k: nat)
    requires k <= m && b * k == a * (m - k)
    requires if k < m then c * (k + 1) == b * (m - 1 - k) else b == 0 && c == 0
    ensures (b + c) * (k + 1) == (a + b) * (m - k)
  {
    if k < m {
      calc {
        (b + c) * (k + 1);
        b * k + b + c * (k + 1);
        a * (m - k) + b + b * (m - 1 - k);
        (a + b) * (m - k);
      }
    }
  }

  /** Expansion writes Choose(absorbed, j) sets of length path + j. */
  lemma {:induction false} ExpandLengths(ts: seq<Token>, supp: nat, buf: seq<nat>, k: nat)
    ensures OfLength(Expand(ts, supp, buf), k)
         == if k < |buf| + |ts| - Absorbed(ts) then 0 else Choose(Absorbed(ts), k - (|buf| + |ts| - Absorbed(ts)))
  {
    AbsorbedBound(ts);
    if ts == [] {
      assert Expand(ts, supp, buf)[1..] == [];
    } else {
      var q, rest := ts[0].item, ts[1..];
      AbsorbedBound(rest);
      ExpandLengths(rest, supp, buf + [q], k);
      if ts[0].absorbed {
        ExpandLengths(rest, supp, buf, k);
        OfLengthConcat(Expand(rest, supp, buf + [q]), Expand(rest, supp, buf), k);
      }
    }
  }

  lemma {:induction false} AbsorbedBound(ts: seq<Token>)
    ensures Absorbed(ts) <= |ts|
  {
    if ts != [] { AbsorbedBound(ts[1..]); }
  }

  /** Expansion writes 2^absorbed sets. */
  lemma {:induction false} ExpandSize(ts: seq<Token>, supp: nat, buf: seq<nat>)
    ensures |Expand(ts, supp, buf)| == Pow2(Absorbed(ts))
  {
    if ts != [] {
      ExpandSize(ts[1..], supp, buf + [ts[0].item]);
      if ts[0].absorbed { ExpandSize(ts[1..], supp, buf); }
    }
  }
}
