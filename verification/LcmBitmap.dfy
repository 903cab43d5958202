/** LCM's bitmap occurrence delivery: patterns of the most frequent items as numbers, a weight per
    pattern, and a list of the patterns with each highest bit. */
module LcmBitmap {
  import opened Basics
  import opened Powers

  /** A transaction: its pattern of bitmap items, and its multiplicity. */
  datatype Trsact = Trsact(s: nat, mult: nat)

  /** Bit i of a pattern. */
  predicate HasBit(s: nat, i: nat) {
    s % Pow2(i + 1) >= Pow2(i)
  }

  // ---------------------------------------------------------------------------------------
  // Patterns and masks
  // ---------------------------------------------------------------------------------------

  /** The items of a pattern that are in the mask and below k. */
  function Masked(s: nat, mask: set<nat>, k: nat): (r: nat)
    ensures r < Pow2(k)
  {
    if k == 0 then 0
    else Masked(s, mask, k - 1) + if k - 1 in mask && HasBit(s, k - 1) then Pow2(k - 1) else 0
  }

  /** Where a transaction is counted once the lists above item i have been handed on: a pattern that lost its
      highest bit is masked. */
  function Landed(s: nat, mask: set<nat>, i: nat): (r: nat)
    ensures r < Pow2(i + 1)
  {
    if s < Pow2(i + 1) then s else Masked(s, mask, i + 1)
  }

  /** A higher power does not matter for a lower bit. */
  lemma LowerBit(r: nat, j: nat, k: nat)
    requires j < k
    ensures HasBit(r + Pow2(k), j) == HasBit(r, j)
  {
    var m, n := Pow2(j + 1), Pow2(k - j - 1);
    Pow2Add(k - j - 1, j + 1);
    var q, rest := Divide(r, m);
    Distribute(q, n, m);
    ModIs(r + Pow2(k), m, q + n, rest);
  }

  lemma Distribute(q: nat, n: nat, m: nat)
    ensures (q + n) * m == q * m + n * m
  {
  }

  lemma {:induction false} MaskedBit(s: nat, mask: set<nat>, k: nat, j: nat)
    requires j < k
    ensures HasBit(Masked(s, mask, k), j) <==> HasBit(s, j) && j in mask
  {
    hide HasBit;
    var r := Masked(s, mask, k - 1);
    if j == k - 1 {
      TopBit(r, j);
    } else {
      MaskedBit(s, mask, k - 1, j);
      LowerBit(r, j, k - 1);
    }
  }

  lemma TopBit(r: nat, j: nat)
    requires r < Pow2(j)
    ensures !HasBit(r, j) && HasBit(r + Pow2(j), j)
  {
    var n := Pow2(j + 1);
    SmallMod(r, n);
    SmallMod(r + Pow2(j), n);
  }

  lemma {:induction false} MaskedSame(s: nat, t: nat, mask: set<nat>, k: nat)
    requires forall j :: 0 <= j < k && j in mask ==> HasBit(s, j) == HasBit(t, j)
    ensures Masked(s, mask, k) == Masked(t, mask, k)
  {
    hide HasBit;
    if k > 0 { MaskedSame(s, t, mask, k - 1); }
  }

  /** Handing on the list of item i moves every transaction where it belongs on the next level. */
  lemma LandedStep(s: nat, mask: set<nat>, i: nat)
    requires i > 0
    ensures Landed(s, mask, i - 1) == Landed(Landed(s, mask, i), mask, i - 1)
  {
    hide HasBit;
    if s >= Pow2(i + 1) {
      var p := Masked(s, mask, i + 1);
      if p >= Pow2(i) {
        forall j | 0 <= j < i && j in mask ensures HasBit(s, j) == HasBit(p, j) {
          MaskedBit(s, mask, i + 1, j);
        }
        MaskedSame(s, p, mask, i);
      }
    }
  }

  /** A transaction counts for item i: it has the item, and the mask does not take it away before. */
  predicate Reaches(s: nat, mask: set<nat>, i: nat) {
    HasBit(s, i) && (i in mask || s < Pow2(Max(1, i) + 1))
  }

  lemma LandedHigh(s: nat, mask: set<nat>, i: nat)
    requires i > 0
    ensures Landed(s, mask, i) >= Pow2(i) <==> Reaches(s, mask, i)
  {
    var p := Landed(s, mask, i);
    if s < Pow2(i + 1) {
      SmallMod(s, Pow2(i + 1));
    } else {
      hide HasBit;
      MaskedBit(s, mask, i + 1, i);
      if p >= Pow2(i) { TopBit(p - Pow2(i), i); } else { TopBit(p, i); }
    }
  }

  /** The four patterns of the lowest two items. */
  lemma LandedLow(s: nat, mask: set<nat>)
    ensures Landed(s, mask, 1) in {1, 3} <==> Reaches(s, mask, 0)
    ensures Landed(s, mask, 1) in {2, 3} <==> Reaches(s, mask, 1)
  {
    assert Pow2(0) == 1 && Pow2(1) == 2 && Pow2(2) == 4;
    LandedHigh(s, mask, 1);
    if s >= 4 {
      MaskedBit(s, mask, 2, 0);
    }
  }

  // ---------------------------------------------------------------------------------------
  // Totals
  // ---------------------------------------------------------------------------------------

  /** Total multiplicity of the transactions that are counted at a pattern of ps. */
  function Total(ts: seq<Trsact>, mask: set<nat>, i: nat, ps: set<nat>): nat {
    if ts == [] then 0
    else Total(ts[..|ts| - 1], mask, i, ps) + if Landed(ts[|ts| - 1].s, mask, i) in ps then ts[|ts| - 1].mult else 0
  }

  /** Total multiplicity of the transactions that count for item i. */
  function Reached(ts: seq<Trsact>, mask: set<nat>, i: nat): nat {
    if ts == [] then 0
    else Reached(ts[..|ts| - 1], mask, i) + if Reaches(ts[|ts| - 1].s, mask, i) then ts[|ts| - 1].mult else 0
  }

  /** Total multiplicity of the transactions with item i: its frequency. */
  function BitWeight(ts: seq<Trsact>, i: nat): nat {
    if ts == [] then 0
    else BitWeight(ts[..|ts| - 1], i) + if HasBit(ts[|ts| - 1].s, i) then ts[|ts| - 1].mult else 0
  }

  /** Total multiplicity of the transactions whose pattern is p modulo m. */
  function Weight(ts: seq<Trsact>, m: nat, p: nat): nat
    requires m > 0
  {
    if ts == [] then 0
    else Weight(ts[..|ts| - 1], m, p) + if ts[|ts| - 1].s % m == p then ts[|ts| - 1].mult else 0
  }

  /** The single occurrences of the transactions that f selects, one for each unit of multiplicity. */
  ghost function Occurrences(ts: seq<Trsact>, f: nat -> bool): (s: set<(nat, nat)>)
    ensures forall p :: p in s <==> p.0 < |ts| && f(ts[p.0].s) && p.1 < ts[p.0].mult
  {
    if ts == [] then {}
    else Occurrences(ts[..|ts| - 1], f) + if f(ts[|ts| - 1].s) then Copies(|ts| - 1, ts[|ts| - 1].mult) else {}
  }

  lemma OccurrencesStep(ts: seq<Trsact>, f: nat -> bool)
    requires ts != []
    ensures |Occurrences(ts, f)|
         == |Occurrences(ts[..|ts| - 1], f)| + if f(ts[|ts| - 1].s) then ts[|ts| - 1].mult else 0
  {
    assert Occurrences(ts[..|ts| - 1], f) !! Copies(|ts| - 1, ts[|ts| - 1].mult);
  }

  /** The frequency of an item is the number of occurrences of transactions with it. */
  lemma {:induction false} FrequencyCounts(ts: seq<Trsact>, i: nat, f: nat -> bool)
    requires forall s: nat :: f(s) == HasBit(s, i)
    ensures BitWeight(ts, i) == |Occurrences(ts, f)|
  {
    hide HasBit, Occurrences;
    if ts == [] {
      NoOccurrences(f);
    } else {
      FrequencyCounts(ts[..|ts| - 1], i, f);
      OccurrencesStep(ts, f);
    }
  }

  /** Its frequency under a mask is the number of those that still count for it. */
  lemma {:induction false} ReachedCounts(ts: seq<Trsact>, mask: set<nat>, i: nat, f: nat -> bool)
    requires forall s: nat :: f(s) == Reaches(s, mask, i)
    ensures Reached(ts, mask, i) == |Occurrences(ts, f)|
  {
    hide Reaches, Occurrences;
    if ts == [] {
      NoOccurrences(f);
    } else {
      ReachedCounts(ts[..|ts| - 1], mask, i, f);
      OccurrencesStep(ts, f);
    }
  }

  /** The weight of a pattern is the number of occurrences of transactions that agree with it. */
  lemma {:induction false} WeightCounts(ts: seq<Trsact>, m: nat, p: nat, f: nat -> bool)
    requires m > 0 && forall s: nat :: f(s) == (s % m == p)
    ensures Weight(ts, m, p) == |Occurrences(ts, f)|
  {
    hide Occurrences;
    if ts == [] {
      NoOccurrences(f);
    } else {
      WeightCounts(ts[..|ts| - 1], m, p, f);
      OccurrencesStep(ts, f);
    }
  }

  lemma NoOccurrences(f: nat -> bool)
    ensures Occurrences([], f) == {}
  {
  }

  lemma {:induction false} TotalAdd(ts: seq<Trsact>, mask: set<nat>, i: nat, ps: set<nat>, p: nat)
    requires p !in ps
    ensures Total(ts, mask, i, ps + {p}) == Total(ts, mask, i, ps) + Total(ts, mask, i, {p})
  {
    hide Landed;
    if ts != [] { TotalAdd(ts[..|ts| - 1], mask, i, ps, p); }
  }

  lemma {:induction false} TotalNone(ts: seq<Trsact>, mask: set<nat>, i: nat)
    ensures Total(ts, mask, i, {}) == 0
  {
    hide Landed;
    if ts != [] { TotalNone(ts[..|ts| - 1], mask, i); }
  }

  lemma {:induction false} TotalPositive(ts: seq<Trsact>, mask: set<nat>, i: nat, t: nat)
    requires t < |ts| && ts[t].mult > 0
    ensures Total(ts, mask, i, {Landed(ts[t].s, mask, i)}) > 0
  {
    hide Landed;
    if t < |ts| - 1 { TotalPositive(ts[..|ts| - 1], mask, i, t); }
  }

  /** The patterns of l that are handed on to q. */
  function From(l: seq<nat>, mask: set<nat>, i: nat, q: nat): (ps: set<nat>)
    ensures forall p :: p in ps <==> p in l && Masked(p, mask, i) == q
  {
    set p | p in l && Masked(p, mask, i) == q
  }

  /** Every transaction that counts is at a pattern of the list or below Pow2(i). */
  ghost predicate Covers(l: seq<nat>, ts: seq<Trsact>, mask: set<nat>, i: nat) {
    && (forall p :: p in l ==> p >= Pow2(i))
    && (forall t :: 0 <= t < |ts| && ts[t].mult > 0 && Landed(ts[t].s, mask, i) >= Pow2(i) ==>
          Landed(ts[t].s, mask, i) in l)
  }

  /** Handing on a list adds the weights of the patterns that lead to the same one. */
  lemma {:induction false} FoldTotal(ts: seq<Trsact>, mask: set<nat>, i: nat, l: seq<nat>, q: nat)
    requires i > 0 && q < Pow2(i) && Covers(l, ts, mask, i)
    ensures Total(ts, mask, i, {q} + From(l, mask, i, q)) == Total(ts, mask, i - 1, {q})
  {
    hide Masked;
    if ts != [] {
      var k := |ts| - 1;
      FoldTotal(ts[..k], mask, i, l, q);
      LandedStep(ts[k].s, mask, i);
    }
  }

  lemma {:induction false} ListGivesFrequency(ts: seq<Trsact>, mask: set<nat>, i: nat, l: seq<nat>)
    requires i > 0 && Covers(l, ts, mask, i)
    ensures Total(ts, mask, i, Elems(l)) == Reached(ts, mask, i)
  {
    hide Landed, Reaches;
    if ts != [] {
      var k := |ts| - 1;
      ListGivesFrequency(ts[..k], mask, i, l);
      LandedHigh(ts[k].s, mask, i);
    }
  }

  lemma {:induction false} LowGiveFrequency(ts: seq<Trsact>, mask: set<nat>)
    ensures Total(ts, mask, 1, {1}) + Total(ts, mask, 1, {3}) == Reached(ts, mask, 0)
    ensures Total(ts, mask, 1, {2}) + Total(ts, mask, 1, {3}) == Reached(ts, mask, 1)
  {
    hide Landed, Reaches;
    if ts != [] {
      LowGiveFrequency(ts[..|ts| - 1], mask);
      LandedLow(ts[|ts| - 1].s, mask);
    }
  }

  // ---------------------------------------------------------------------------------------
  // The mask of all items
  // ---------------------------------------------------------------------------------------

  ghost predicate AllItems(mask: set<nat>, n: nat) {
    forall i :: 0 <= i < n ==> i in mask
  }

  function Items(n: nat): (mask: set<nat>)
    ensures AllItems(mask, n)
  {
    if n == 0 then {} else Items(n - 1) + {n - 1}
  }

  /** The lowest k items of a pattern are a remainder. */
  lemma {:induction false} MaskedAll(s: nat, mask: set<nat>, k: nat)
    requires AllItems(mask, k)
    ensures Masked(s, mask, k) == s % Pow2(k)
  {
    if k > 0 {
      MaskedAll(s, mask, k - 1);
      Halves(s, Pow2(k - 1), Pow2(k));
    }
  }

  /** Only the items below n are kept. */
  function Cut(ts: seq<Trsact>, n: nat): (r: seq<Trsact>)
    ensures |r| == |ts|
    ensures forall t :: 0 <= t < |ts| ==> r[t] == Trsact(ts[t].s % Pow2(n), ts[t].mult)
  {
    seq(|ts|, t requires 0 <= t < |ts| => Trsact(ts[t].s % Pow2(n), ts[t].mult))
  }

  lemma {:induction false} CutMod(s: nat, n: nat, k: nat)
    requires k <= n
    ensures (s % Pow2(n)) % Pow2(k) == s % Pow2(k)
    decreases n - k
  {
    var m := Pow2(k);
    if k < n {
      CutMod(s, n, k + 1);
      Halves(s % Pow2(n), m, Pow2(k + 1));
      Halves(s, m, Pow2(k + 1));
    } else {
      SmallMod(s % m, m);
    }
  }

  lemma LandedAll(s: nat, mask: set<nat>, n: nat, i: nat)
    requires AllItems(mask, n)
    ensures Landed(s % Pow2(n), mask, i) == s % Pow2(Min(i + 1, n))
  {
    var cut, m := s % Pow2(n), Pow2(i + 1);
    if i < n {
      CutMod(s, n, i + 1);
      MaskedAll(cut, mask, i + 1);
      if cut < m { SmallMod(cut, m); }
    } else {
      Pow2Monotone(n, i + 1);
    }
  }

  /** With all items in the mask a pattern has the weight of the transactions that agree with it up to item i. */
  lemma {:induction false} TotalAll(ts: seq<Trsact>, mask: set<nat>, n: nat, i: nat, p: nat)
    requires AllItems(mask, n)
    ensures Total(Cut(ts, n), mask, i, {p}) == Weight(ts, Pow2(Min(i + 1, n)), p)
  {
    hide Landed;
    if ts != [] {
      var k := |ts| - 1;
      assert Cut(ts, n)[..k] == Cut(ts[..k], n);
      TotalAll(ts[..k], mask, n, i, p);
      LandedAll(ts[k].s, mask, n, i);
    }
  }

  lemma {:induction false} ReachedAll(ts: seq<Trsact>, mask: set<nat>, n: nat, i: nat)
    requires i < n && AllItems(mask, n)
    ensures Reached(Cut(ts, n), mask, i) == BitWeight(ts, i)
  {
    if ts != [] {
      var k := |ts| - 1;
      assert Cut(ts, n)[..k] == Cut(ts[..k], n);
      ReachedAll(ts[..k], mask, n, i);
      CutMod(ts[k].s, n, i + 1);
    }
  }

  /** Some transaction with pattern p modulo m has a multiplicity. */
  ghost predicate Present(ts: seq<Trsact>, m: nat, p: nat)
    requires m > 0
  {
    exists t :: 0 <= t < |ts| && ts[t].s % m == p && ts[t].mult > 0
  }

  /** Every transaction without a multiplicity comes after one with the same pattern that has a multiplicity. */
  ghost predicate Settled(ts: seq<Trsact>, m: nat)
    requires m > 0
  {
    forall t :: 0 <= t < |ts| && ts[t].mult == 0 ==> Present(ts[..t], m, ts[t].s % m)
  }

  lemma SettledSnoc(ts: seq<Trsact>, m: nat, t: nat)
    requires m > 0 && t < |ts|
    ensures Settled(ts[..t + 1], m)
       <==> Settled(ts[..t], m) && (ts[t].mult > 0 || Weight(ts[..t], m, ts[t].s % m) > 0)
  {
    hide Weight, Present;
    WeightPositive(ts[..t], m, ts[t].s % m);
    var next := ts[..t + 1];
    assert forall u :: 0 <= u <= t ==> next[..u] == ts[..u] && next[u] == ts[u];
    assert forall u :: 0 <= u < t ==> ts[..t][..u] == ts[..u] && ts[..t][u] == ts[u];
  }

  lemma {:induction false} WeightPositive(ts: seq<Trsact>, m: nat, p: nat)
    requires m > 0
    ensures Weight(ts, m, p) > 0 <==> Present(ts, m, p)
  {
    if ts != [] {
      var k := |ts| - 1;
      WeightPositive(ts[..k], m, p);
      if t :| 0 <= t < |ts| && ts[t].s % m == p && ts[t].mult > 0 {
        assert t < k ==> ts[..k][t] == ts[t];
      }
    }
  }

  lemma {:induction false} OneBit(ts: seq<Trsact>)
    ensures Weight(ts, 2, 1) == BitWeight(ts, 0)
  {
    assert Pow2(0) == 1 && Pow2(1) == 2;
    if ts != [] { OneBit(ts[..|ts| - 1]); }
  }

  // ---------------------------------------------------------------------------------------
  // Highest bits and levels
  // ---------------------------------------------------------------------------------------

  /** h is the highest bit of p; the patterns 0 and 1 both count as having bit 0. */
  predicate IsHigh(p: nat, h: nat) {
    p < Pow2(h + 1) && (h == 0 || Pow2(h) <= p)
  }

  lemma HighAbove(p: nat, h: nat, i: nat)
    requires IsHigh(p, h)
    ensures i > 0 ==> (p < Pow2(i) <==> h < i)
  {
    if h < i { Pow2Monotone(h + 1, i); } else { Pow2Monotone(i, h); }
  }

  ghost predicate Highs(hs: seq<nat>) {
    forall p :: 0 <= p < |hs| ==> IsHigh(p, hs[p])
  }

  /** Items above i have been folded away: every pattern up to the top item has the weight of the transactions
      that are counted at it by now. */
  ghost predicate Level(ws: seq<nat>, hs: seq<nat>, ts: seq<Trsact>, mask: set<nat>, i: nat, top: nat) {
    && |ws| == |hs|
    && forall p :: 0 <= p < |ws| && hs[p] <= top ==> ws[p] == Total(ts, mask, Max(i, hs[p]), {p})
  }

  /** The first t patterns of the list of item i have been handed on. */
  ghost predicate Folding(ws: seq<nat>, hs: seq<nat>, ts: seq<Trsact>, mask: set<nat>, i: nat, top: nat,
                          list: seq<nat>, t: nat) {
    && |ws| == |hs| && t <= |list|
    && (forall p :: 0 <= p < |ws| && hs[p] < i ==>
          ws[p] == Total(ts, mask, i, {p} + From(list[..t], mask, i, p)))
    && (forall p :: 0 <= p < |ws| && i <= hs[p] <= top ==> ws[p] == Total(ts, mask, hs[p], {p}))
  }

  /** The list of item i has every pattern with highest bit i and a weight, once. */
  ghost predicate ListOf(list: seq<nat>, ws: seq<nat>, hs: seq<nat>, i: nat) {
    && |ws| == |hs| && NoRepeat(list)
    && forall p: nat :: p in list <==> p < |ws| && hs[p] == i && ws[p] > 0
  }

  lemma FoldBegin(ws: seq<nat>, hs: seq<nat>, ts: seq<Trsact>, mask: set<nat>, i: nat, top: nat, list: seq<nat>)
    requires Level(ws, hs, ts, mask, i, top) && i <= top
    ensures Folding(ws, hs, ts, mask, i, top, list, 0)
  {
    forall p | 0 <= p < |ws| && hs[p] < i ensures ws[p] == Total(ts, mask, i, {p} + From(list[..0], mask, i, p)) {
      assert {p} + From(list[..0], mask, i, p) == {p};
    }
  }

  lemma FoldStep(ws: seq<nat>, next: seq<nat>, hs: seq<nat>, ts: seq<Trsact>, mask: set<nat>, i: nat, top: nat,
                 list: seq<nat>, t: nat)
    requires Folding(ws, hs, ts, mask, i, top, list, t) && i <= top && NoRepeat(list)
    requires t < |list| && list[t] < |ws| && hs[list[t]] == i
    requires Masked(list[t], mask, i) < |ws| && hs[Masked(list[t], mask, i)] < i
    requires next == ws[Masked(list[t], mask, i) := ws[Masked(list[t], mask, i)] + ws[list[t]]]
    ensures Folding(next, hs, ts, mask, i, top, list, t + 1)
  {
    hide Total, Masked, From, NoRepeat;
    forall r | 0 <= r < |next| && hs[r] < i
      ensures next[r] == Total(ts, mask, i, {r} + From(list[..t + 1], mask, i, r))
    {
      FoldAt(ts, mask, i, list, r, t);
    }
  }

  lemma FoldAt(ts: seq<Trsact>, mask: set<nat>, i: nat, list: seq<nat>, r: nat, t: nat)
    requires t < |list| && NoRepeat(list) && list[t] != r
    ensures Total(ts, mask, i, {r} + From(list[..t + 1], mask, i, r))
         == Total(ts, mask, i, {r} + From(list[..t], mask, i, r))
          + if Masked(list[t], mask, i) == r then Total(ts, mask, i, {list[t]}) else 0
  {
    hide Total, Masked, NoRepeat;
    FromSnoc(list, mask, i, r, t);
    var ps := {r} + From(list[..t], mask, i, r);
    if Masked(list[t], mask, i) == r {
      assert {r} + From(list[..t + 1], mask, i, r) == ps + {list[t]};
      TotalAdd(ts, mask, i, ps, list[t]);
    } else {
      assert {r} + From(list[..t + 1], mask, i, r) == ps;
    }
  }

  lemma FromSnoc(list: seq<nat>, mask: set<nat>, i: nat, r: nat, t: nat)
    requires t < |list| && NoRepeat(list)
    ensures list[t] !in From(list[..t], mask, i, r)
    ensures From(list[..t + 1], mask, i, r)
         == From(list[..t], mask, i, r) + if Masked(list[t], mask, i) == r then {list[t]} else {}
  {
    hide Masked;
    assert list[..t + 1] == list[..t] + [list[t]];
  }

  lemma TakeElems(list: seq<nat>, t: nat)
    requires t < |list| && NoRepeat(list)
    ensures list[t] !in Elems(list[..t]) && Elems(list[..t + 1]) == Elems(list[..t]) + {list[t]}
  {
    assert list[..t + 1] == list[..t] + [list[t]];
  }

  /** The list of item i covers the transactions that have it as their highest bit. */
  lemma ListCovers(ws: seq<nat>, hs: seq<nat>, ts: seq<Trsact>, mask: set<nat>, i: nat, top: nat, list: seq<nat>)
    requires Level(ws, hs, ts, mask, i, top) && Highs(hs) && 0 < i <= top && Pow2(i + 1) <= |ws|
    requires ListOf(list, ws, hs, i)
    ensures Covers(list, ts, mask, i)
  {
    hide Total, Landed;
    forall t | 0 <= t < |ts| && ts[t].mult > 0 && Landed(ts[t].s, mask, i) >= Pow2(i)
      ensures Landed(ts[t].s, mask, i) in list
    {
      var p := Landed(ts[t].s, mask, i);
      TotalPositive(ts, mask, i, t);
      HighAbove(p, hs[p], i);
      HighAbove(p, hs[p], i + 1);
    }
    forall p | p in list ensures p >= Pow2(i) {
      HighAbove(p, hs[p], i);
    }
  }

  /** When the list of item i is through, the next level is reached. */
  lemma FoldEnd(ws: seq<nat>, hs: seq<nat>, ts: seq<Trsact>, mask: set<nat>, i: nat, top: nat, list: seq<nat>)
    requires Folding(ws, hs, ts, mask, i, top, list, |list|) && Highs(hs) && i > 0 && Covers(list, ts, mask, i)
    ensures Level(ws, hs, ts, mask, i - 1, top)
  {
    hide Total, Covers, From;
    assert list[..|list|] == list;
    forall p | 0 <= p < |ws| && hs[p] <= top ensures ws[p] == Total(ts, mask, Max(i - 1, hs[p]), {p}) {
      if hs[p] < i {
        HighAbove(p, hs[p], i);
        FoldTotal(ts, mask, i, list, p);
      }
    }
  }

  lemma LowLevel(ws: seq<nat>, hs: seq<nat>, ts: seq<Trsact>, mask: set<nat>, top: nat)
    requires Level(ws, hs, ts, mask, 1, top) && Highs(hs) && |ws| >= 4 && top > 0
    ensures ws[1] + ws[3] == Reached(ts, mask, 0) && ws[2] + ws[3] == Reached(ts, mask, 1)
  {
    hide Total, Reached;
    assert Pow2(2) == 4;
    HighAbove(1, hs[1], 2);
    HighAbove(2, hs[2], 2);
    HighAbove(3, hs[3], 2);
    LowGiveFrequency(ts, mask);
  }

  // ---------------------------------------------------------------------------------------
  // Any weights at the start
  // ---------------------------------------------------------------------------------------

  /** The weights of the first n patterns as transactions. */
  function Entries(ws: seq<nat>, n: nat): (ts: seq<Trsact>)
    requires n <= |ws|
    ensures |ts| == n
  {
    if n == 0 then [] else Entries(ws, n - 1) + [Trsact(n - 1, ws[n - 1])]
  }

  lemma {:induction false} EntriesTotal(ws: seq<nat>, n: nat, mask: set<nat>, i: nat, p: nat)
    requires n <= |ws| && n <= Pow2(i + 1)
    ensures Total(Entries(ws, n), mask, i, {p}) == if p < n then ws[p] else 0
  {
    if n > 0 {
      assert Entries(ws, n)[..n - 1] == Entries(ws, n - 1);
      EntriesTotal(ws, n - 1, mask, i, p);
    }
  }

  /** Whatever the weights are, they are those of some transactions. */
  lemma AnyWeights(ws: seq<nat>, hs: seq<nat>, mask: set<nat>, top: nat)
    requires |ws| == |hs| && Highs(hs)
    ensures Level(ws, hs, Entries(ws, Min(Pow2(top + 1), |ws|)), mask, top, top)
  {
    hide Total, Entries;
    var n := Min(Pow2(top + 1), |ws|);
    forall p | 0 <= p < |ws| && hs[p] <= top
      ensures ws[p] == Total(Entries(ws, n), mask, Max(top, hs[p]), {p})
    {
      HighAbove(p, hs[p], top + 1);
      EntriesTotal(ws, n, mask, top, p);
    }
  }

  // ---------------------------------------------------------------------------------------
  // The last two lines
  // ---------------------------------------------------------------------------------------

  /** Places of the weights that the last two lines read, and of the frequencies that they write. */
  const LAST_READS: seq<nat> := [1, 3, 2, 3]
  const LAST_WRITES: seq<nat> := [0, 1]

  predicate AllInside(at: seq<nat>, length: nat) {
    forall k :: 0 <= k < |at| ==> at[k] < length
  }

  /** The last two lines stay inside their arrays exactly when there are two bitmap items. */
  lemma LastLinesInside(maxItem: nat)
    ensures AllInside(LAST_READS, Pow2(maxItem)) && AllInside(LAST_WRITES, maxItem) <==> maxItem >= 2
  {
    if maxItem >= 2 {
      Pow2Monotone(2, maxItem);
    } else {
      assert LAST_WRITES[1] == 1;
    }
  }

  // ---------------------------------------------------------------------------------------
  // Lists
  // ---------------------------------------------------------------------------------------

  ghost predicate Twice(l: seq<nat>, q: nat) {
    exists j, k :: 0 <= j < k < |l| && l[j] == q && l[k] == q
  }

  /** A pattern is listed without a weight, or more than once. */
  ghost predicate Misplaced(list: seq<nat>, w: nat, q: nat) {
    q in list && (w == 0 || Twice(list, q))
  }

  lemma MisplacedStays(list: seq<nat>, w: nat, q: nat, p: nat, frq: nat)
    requires Misplaced(list, w, q)
    ensures Misplaced(list + [p], w, q)
    ensures Misplaced(list + if w == 0 then [q] else [], w + frq, q)
  {
    var k :| 0 <= k < |list| && list[k] == q;
    if w == 0 {
      var next := list + [q];
      assert next[k] == q && next[|list|] == q;
    } else {
      var i, j :| 0 <= i < j < |list| && list[i] == q && list[j] == q;
      assert (list + [p])[i] == q && (list + [p])[j] == q;
      assert list + [] == list;
    }
  }

  lemma ProcLists(ws: seq<nat>, next: seq<nat>, hs: seq<nat>, list: seq<nat>, p: nat, frq: nat, h: nat)
    requires ListOf(list, ws, hs, h) && p < |ws| && next == ws[p := ws[p] + frq]
    requires frq > 0 || ws[p] > 0
    ensures ListOf(list + if h == hs[p] && ws[p] == 0 then [p] else [], next, hs, h)
  {
  }

  /** The arrays: occ[h] lists the patterns with highest bit h whose weight is not zero. */
  class Delivery {
    const maxItem: nat
    const weight: array<nat>
    const highbit: array<nat>
    const occ: array<seq<nat>>
    const freq: array<nat>

    ghost predicate Valid()
      reads highbit
    {
      && maxItem >= 1 && weight.Length == highbit.Length == Pow2(maxItem) && occ.Length == freq.Length == maxItem
      && weight != highbit && weight != freq && highbit != freq
      && forall p :: 0 <= p < highbit.Length ==> highbit[p] < maxItem && IsHigh(p, highbit[p])
    }

    /** Every pattern with a weight is in the list of its highest bit, once. */
    ghost predicate Listed()
      requires Valid()
      reads weight, highbit, occ
    {
      forall h :: 0 <= h < maxItem ==> ListOf(occ[h], weight[..], highbit[..], h)
    }

    constructor (maxItem: nat)
      requires maxItem >= 1
      ensures Valid() && this.maxItem == maxItem && Listed()
      ensures forall p :: 0 <= p < weight.Length ==> weight[p] == 0
      ensures forall h :: 0 <= h < maxItem ==> occ[h] == []
      ensures fresh(weight) && fresh(highbit) && fresh(occ) && fresh(freq)
    {
      this.maxItem := maxItem;
      var space := 1;
      for ii := 0 to maxItem
        invariant space == Pow2(ii)
      {
        space := space * 2;
      }
      weight, highbit := new nat[space](_ => 0), new nat[space](_ => 0);
      occ := new seq<nat>[maxItem](_ => []);
      freq := new nat[maxItem](_ => 0);
      new;
      hide Filled, IsHigh, ListOf;
      NoneFilled();
      var m, mm := 0, 2;
      for ii := 0 to maxItem
        invariant mm == Pow2(ii + 1) && m == if ii == 0 then 0 else Pow2(ii)
        invariant Filled(m, ii)
        modifies weight, highbit
      {
        Pow2Monotone(ii + 1, maxItem);
        Fill(ii, m, mm);
        m := mm;
        mm := mm * 2;
      }
      AllFilled();
    }

    lemma NoneFilled()
      ensures Filled(0, 0)
    {
    }

    lemma AllFilled()
      requires maxItem >= 1 && weight.Length == highbit.Length == Pow2(maxItem) && occ.Length == freq.Length == maxItem
      requires weight != highbit && weight != freq && highbit != freq && Filled(weight.Length, maxItem)
      requires forall h :: 0 <= h < maxItem ==> occ[h] == []
      ensures Valid() && Listed() && forall p :: 0 <= p < weight.Length ==> weight[p] == 0
    {
    }

    /** The first m entries have no weight, and their highest bits, which are below ii. */
    ghost predicate Filled(m: nat, ii: nat)
      reads weight, highbit
    {
      && m <= weight.Length && m <= highbit.Length
      && forall p :: 0 <= p < m ==> weight[p] == 0 && highbit[p] < ii && IsHigh(p, highbit[p])
    }

    /** The inner loop: the patterns with highest bit ii. */
    method Fill(ii: nat, start: nat, mm: nat)
      requires start <= mm == Pow2(ii + 1) <= weight.Length && mm <= highbit.Length && weight != highbit
      requires start == (if ii == 0 then 0 else Pow2(ii)) && Filled(start, ii)
      modifies weight, highbit
      ensures Filled(mm, ii + 1)
    {
      var m := start;
      while m < mm
        invariant start <= m <= mm && Filled(m, ii + 1)
      {
        weight[m] := 0;
        highbit[m] := ii;
        m := m + 1;
      }
    }

    /** A list is within its allocated room: no pattern is listed twice. */
    lemma ListFits(h: nat)
      requires Valid() && Listed() && h < maxItem
      ensures |occ[h]| <= Pow2(h + 1)
    {
      assert ListOf(occ[h], weight[..], highbit[..], h);
      forall k | 0 <= k < |occ[h]| ensures occ[h][k] < Pow2(h + 1) {
        assert occ[h][k] in occ[h];
      }
      Pigeons(occ[h], Pow2(h + 1));
    }

    lemma Once(h: nat, q: nat)
      requires Valid() && Listed() && h < maxItem && q in occ[h]
      ensures q < weight.Length && highbit[q] == h && weight[q] > 0 && !Twice(occ[h], q)
    {
      assert ListOf(occ[h], weight[..], highbit[..], h);
    }

    /** A pattern is listed although it has no weight, or more than once. */
    ghost predicate Spoiled(q: nat)
      requires Valid()
      reads weight, highbit, occ
    {
      q < weight.Length && Misplaced(occ[highbit[q]], weight[q], q)
    }

    lemma SpoiledList(q: nat)
      requires Valid() && Spoiled(q)
      ensures !Listed()
    {
      var h := highbit[q];
      if Listed() {
        Once(h, q);
        assert false;
      }
    }

    /** Adds to the weight of a pattern, and lists it when it had none: the lists stay right exactly when the
        pattern has a weight in the end. */
    method Proc(p: nat, frq: nat)
      requires Valid() && p < weight.Length
      modifies weight, occ
      ensures weight[..] == old(weight[..])[p := old(weight[p]) + frq]
      ensures forall h :: 0 <= h < maxItem ==>
                occ[h] == old(occ[h]) + if h == highbit[p] && old(weight[p]) == 0 then [p] else []
      ensures old(Listed()) ==> (Listed() <==> frq > 0 || old(weight[p]) > 0)
      ensures forall q: nat :: old(Spoiled(q)) ==> Spoiled(q)
      ensures old(weight[p]) == 0 && frq == 0 ==> Spoiled(p)
    {
      ghost var ws, hs, lists := weight[..], highbit[..], occ[..];
      var h := highbit[p];
      if weight[p] == 0 {
        occ[h] := occ[h] + [p];
      }
      weight[p] := weight[p] + frq;
      forall q: nat | old(Spoiled(q)) ensures Spoiled(q) {
        MisplacedStays(lists[hs[q]], ws[q], q, p, frq);
      }
      if old(Listed()) && (frq > 0 || ws[p] > 0) {
        forall h | 0 <= h < maxItem ensures ListOf(occ[h], weight[..], hs, h) {
          assert ListOf(lists[h], ws, hs, h);
          ProcLists(ws, weight[..], hs, lists[h], p, frq, h);
        }
      }
    }

    lemma TargetIs(p: nat, mask: set<nat>, item: nat)
      requires Valid() && 0 < item < maxItem
      ensures Masked(p, mask, item) < weight.Length && highbit[Masked(p, mask, item)] < item
    {
      var q := Masked(p, mask, item);
      Pow2Monotone(item, maxItem);
      HighAbove(q, highbit[q], item);
    }

    /** One pattern of the list. */
    method HandOn(item: nat, mask: set<nat>, p: nat, ghost list: seq<nat>, ghost t: nat, ghost ts: seq<Trsact>,
                  ghost top: nat)
      returns (ww: nat)
      requires Valid() && 0 < item <= top < maxItem && Listed() && t < |list| && p == list[t] && NoRepeat(list)
      requires p < weight.Length && highbit[p] == item && weight[p] > 0
      requires Folding(weight[..], highbit[..], ts, mask, item, top, list, t)
      modifies weight, occ
      ensures Listed() && occ[item] == old(occ[item]) && Above(item)
      ensures Folding(weight[..], highbit[..], ts, mask, item, top, list, t + 1)
      ensures ww == Total(ts, mask, item, {p})
    {
      ghost var ws, hs := weight[..], highbit[..];
      ww := weight[p];
      assert ww == ws[p] == Total(ts, mask, hs[p], {p});
      TargetIs(p, mask, item);
      hide Listed, Folding, NoRepeat, Total, IsHigh, Masked;
      Proc(Masked(p, mask, item), ww);
      FoldStep(ws, weight[..], hs, ts, mask, item, top, list, t);
    }

    /** Patterns with a bit above the item, and their lists, are as before. */
    twostate predicate Above(item: nat)
      requires old(Valid()) && Valid()
      reads weight, occ, highbit
    {
      && (forall h :: item <= h < maxItem ==> occ[h] == old(occ[h]))
      && (forall p :: 0 <= p < weight.Length && highbit[p] >= item ==> weight[p] == old(weight[p]))
    }

    method HandOnAll(item: nat, mask: set<nat>, ghost ts: seq<Trsact>, ghost top: nat) returns (w: nat)
      requires Valid() && 0 < item <= top < maxItem && Listed()
      requires Folding(weight[..], highbit[..], ts, mask, item, top, occ[item], 0)
      modifies weight, occ
      ensures Listed() && Above(item)
      ensures Folding(weight[..], highbit[..], ts, mask, item, top, occ[item], |occ[item]|)
      ensures w == Total(ts, mask, item, Elems(occ[item]))
    {
      var list := occ[item];
      w := 0;
      ListIs(item);
      TotalNone(ts, mask, item);
      assert Elems(list[..0]) == {};
      hide Listed, Folding, NoRepeat, Total;
      for t := 0 to |list|
        invariant Listed() && occ[item] == list && Above(item)
        invariant Folding(weight[..], highbit[..], ts, mask, item, top, list, t)
        invariant w == Total(ts, mask, item, Elems(list[..t]))
      {
        Member(list[t], item);
        var ww := HandOn(item, mask, list[t], list, t, ts, top);
        TakeElems(list, t);
        TotalAdd(ts, mask, item, Elems(list[..t]), list[t]);
        w := w + ww;
      }
      assert list[..|list|] == list;
    }

    lemma ListIs(item: nat)
      requires Valid() && Listed() && item < maxItem
      ensures ListOf(occ[item], weight[..], highbit[..], item) && NoRepeat(occ[item]) && Highs(highbit[..])
    {
      assert ListOf(occ[item], weight[..], highbit[..], item);
    }

    lemma Member(p: nat, h: nat)
      requires Valid() && Listed() && h < maxItem && p in occ[h]
      ensures p < weight.Length && highbit[p] == h && weight[p] > 0
    {
      Once(h, p);
    }

    /** The list of one item: its weights are summed up, and handed on to the patterns that the mask leaves. */
    method Iter(item: nat, mask: set<nat>, ghost ts: seq<Trsact>, ghost top: nat)
      requires Valid() && 1 < item <= top < maxItem && Listed()
      requires Level(weight[..], highbit[..], ts, mask, item, top)
      modifies weight, occ, freq
      ensures Listed() && Level(weight[..], highbit[..], ts, mask, item - 1, top) && Above(item)
      ensures freq[item] == Reached(ts, mask, item)
      ensures forall i :: 0 <= i < maxItem && i != item ==> freq[i] == old(freq[i])
    {
      ghost var hs, list := highbit[..], occ[item];
      Pow2Monotone(item + 1, maxItem);
      FoldBegin(weight[..], hs, ts, mask, item, top, list);
      ListIs(item);
      hide Listed, Folding, Level, Reached, Total, Covers, ListOf, Highs, NoRepeat;
      ListCovers(weight[..], hs, ts, mask, item, top, list);
      var w := HandOnAll(item, mask, ts, top);
      freq[item] := w;
      FoldEnd(weight[..], hs, ts, mask, item, top, list);
      ListGivesFrequency(ts, mask, item, list);
    }

    /** Items from the given one on; the frequencies of the last two are read off the weights. Without a second
        item the last two lines would leave their arrays; the program has no test for this. */
    method Deliver(item: nat, mask: set<nat>, ghost ts: seq<Trsact>) returns (inside: bool)
      requires Valid() && item < maxItem && Listed()
      requires Level(weight[..], highbit[..], ts, mask, Max(1, item), Max(1, item))
      modifies weight, occ, freq
      ensures Listed() && Level(weight[..], highbit[..], ts, mask, 1, Max(1, item)) && Above(Max(1, item))
      ensures inside <==> maxItem >= 2
      ensures forall i :: 2 <= i <= item ==> freq[i] == Reached(ts, mask, i)
      ensures inside ==> freq[0] == Reached(ts, mask, 0) && freq[1] == Reached(ts, mask, 1)
      ensures forall i :: Max(1, item) < i < maxItem ==> freq[i] == old(freq[i])
    {
      ghost var top := Max(1, item);
      var i := item;
      while i > 1
        invariant 0 <= i <= item && (i >= 1 || item == 0) && Listed() && Above(top)
        invariant Level(weight[..], highbit[..], ts, mask, Max(1, i), top)
        invariant forall l :: i < l <= item && l >= 2 ==> freq[l] == Reached(ts, mask, l)
        invariant forall l :: top < l < maxItem ==> freq[l] == old(freq[l])
      {
        Iter(i, mask, ts, top);
        i := i - 1;
      }
      LastLinesInside(maxItem);
      inside := AllInside(LAST_READS, weight.Length) && AllInside(LAST_WRITES, freq.Length);
      if inside {
        LowLevel(weight[..], highbit[..], ts, mask, top);
        freq[0] := weight[1] + weight[3];
        freq[1] := weight[2] + weight[3];
      }
    }

    /** Enters all transactions: the lists are right exactly when no multiplicity of zero comes first. */
    method ProcAll(ts: seq<Trsact>)
      requires Valid() && Listed() && forall p :: 0 <= p < weight.Length ==> weight[p] == 0
      modifies weight, occ
      ensures Listed() <==> Settled(ts, weight.Length)
      ensures forall p :: 0 <= p < weight.Length ==> weight[p] == Weight(ts, weight.Length, p)
    {
      ghost var m, bad: nat, right := weight.Length, 0, true;
      for t := 0 to |ts|
        invariant right == Settled(ts[..t], m)
        invariant if right then Listed() else Spoiled(bad)
        invariant forall p :: 0 <= p < m ==> weight[p] == Weight(ts[..t], m, p)
      {
        hide Listed, Spoiled, Settled;
        var p := ts[t].s % weight.Length;
        SettledSnoc(ts, m, t);
        assert ts[..t + 1][..t] == ts[..t];
        if right && ts[t].mult == 0 && weight[p] == 0 { bad := p; }
        right := right && (ts[t].mult > 0 || weight[p] > 0);
        Proc(p, ts[t].mult);
      }
      assert ts[..|ts|] == ts;
      if !right { SpoiledList(bad); }
    }

    lemma FirstLevel(ts: seq<Trsact>, mask: set<nat>)
      requires Valid() && AllItems(mask, maxItem)
      requires forall p :: 0 <= p < weight.Length ==> weight[p] == Weight(ts, weight.Length, p)
      ensures Level(weight[..], highbit[..], Cut(ts, maxItem), mask, Max(1, maxItem - 1), Max(1, maxItem - 1))
    {
      hide Total, Weight, Cut;
      var top := Max(1, maxItem - 1);
      forall p | 0 <= p < weight.Length ensures weight[p] == Total(Cut(ts, maxItem), mask, Max(top, highbit[p]), {p}) {
        TotalAll(ts, mask, maxItem, top, p);
      }
    }

    lemma LastLevel(ts: seq<Trsact>, mask: set<nat>)
      requires Valid() && AllItems(mask, maxItem)
      requires Level(weight[..], highbit[..], Cut(ts, maxItem), mask, 1, Max(1, maxItem - 1))
      ensures forall p :: 0 <= p < weight.Length ==>
                weight[p] == Weight(ts, Pow2(Min(Max(1, highbit[p]) + 1, maxItem)), p)
    {
      hide Total, Weight, Cut;
      forall p | 0 <= p < weight.Length
        ensures weight[p] == Weight(ts, Pow2(Min(Max(1, highbit[p]) + 1, maxItem)), p)
      {
        assert weight[..][p] == weight[p] && highbit[..][p] == highbit[p];
        TotalAll(ts, mask, maxItem, Max(1, highbit[p]), p);
      }
    }

    /** All transactions: every item gets its frequency, and every list the patterns with its highest bit. */
    method DeliverFirst(ts: seq<Trsact>) returns (inside: bool)
      requires Valid() && Listed() && Settled(ts, weight.Length)
      requires forall p :: 0 <= p < weight.Length ==> weight[p] == 0
      modifies weight, occ, freq
      ensures Listed()
      ensures inside <==> maxItem >= 2
      ensures inside ==> forall i :: 0 <= i < maxItem ==> freq[i] == BitWeight(ts, i)
      ensures forall p :: 0 <= p < weight.Length ==>
                weight[p] == Weight(ts, Pow2(Min(Max(1, highbit[p]) + 1, maxItem)), p)
    {
      var all := Items(maxItem);
      ghost var cut := Cut(ts, maxItem);
      hide Listed, Settled, Level, Weight, Cut, BitWeight, Reached;
      ProcAll(ts);
      FirstLevel(ts, all);
      inside := Deliver(maxItem - 1, all, cut);
      LastLevel(ts, all);
      if inside {
        forall i | 0 <= i < maxItem ensures freq[i] == BitWeight(ts, i) {
          ReachedAll(ts, all, maxItem, i);
        }
      }
    }
  }

  /** One frequent item: the last two lines read behind the two weights, and write behind the one frequency. The
      frequency that was wanted is the weight of the pattern 1. */
  method OneItem(ts: seq<Trsact>) returns (d: Delivery, inside: bool)
    requires Settled(ts, 2)
    ensures !inside && d.weight.Length == 2 && d.freq.Length == 1 && d.weight[1] == BitWeight(ts, 0)
  {
    d := new Delivery(1);
    inside := d.DeliverFirst(ts);
    OneBit(ts);
    assert d.weight[1] == Weight(ts, Pow2(1), 1);
  }

  /** A multiplicity of zero that comes first lists its pattern twice: the list sums up to 10, not 5. */
  method ZeroFirst() returns (d: Delivery)
    ensures d.maxItem == 3 && d.occ.Length == 3 && d.weight.Length == 8
    ensures d.occ[2] == [4, 4] && d.weight[4] == 5 == BitWeight([Trsact(4, 0), Trsact(4, 5)], 2)
  {
    d := new Delivery(3);
    assert Pow2(2) == 4 && Pow2(3) == 8;
    HighAbove(4, d.highbit[4], 2);
    d.Proc(4, 0);
    d.Proc(4, 5);
  }
}
