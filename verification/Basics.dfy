/** Notions shared by the miners: optional values, sequences as sets and ascending sequences, lists without
    repetition and how long they can be, minimum and maximum, and the number of pairs of k things, with which
    the triangular tables and the post lists are measured. */
module Basics {
  datatype Option<T> = None | Some(value: T)

  function Elems(s: seq<nat>): set<nat> {
    set x | x in s
  }

  lemma ElemsSnoc(s: seq<nat>, q: nat)
    ensures Elems(s + [q]) == Elems(s) + {q}
  {
  }

  predicate Asc(s: seq<nat>) {
    forall i, j :: 0 <= i < j < |s| ==> s[i] < s[j]
  }

  lemma {:induction false} AscCard(s: seq<nat>)
    requires Asc(s)
    ensures |Elems(s)| == |s|
  {
    if s != [] {
      var k := |s| - 1;
      AscCard(s[..k]);
      assert Elems(s) == Elems(s[..k]) + {s[k]};
      assert s[k] !in s[..k];
    }
  }

  ghost predicate NoRepeat<T>(s: seq<T>) {
    forall i, j :: 0 <= i < j < |s| ==> s[i] != s[j]
  }

  /** Distinct numbers below n: at most n of them. */
  lemma {:induction false} Pigeons(s: seq<nat>, n: nat)
    requires NoRepeat(s) && forall k :: 0 <= k < |s| ==> s[k] < n
    ensures |s| <= n
  {
    if |s| > 0 {
      assert s[0] < n;
      if n - 1 in s {
        var k :| 0 <= k < |s| && s[k] == n - 1;
        Pigeons(s[..k] + s[k + 1..], n - 1);
      } else {
        Pigeons(s, n - 1);
      }
    }
  }

  /** m numbered copies of k. */
  function Copies(k: nat, m: nat): (s: set<(nat, nat)>)
    ensures |s| == m && forall p :: p in s <==> p.0 == k && p.1 < m
  {
    if m == 0 then {} else Copies(k, m - 1) + {(k, m - 1)}
  }

  function Min(a: nat, b: nat): nat {
    if a < b then a else b
  }

  function Max(a: nat, b: nat): nat {
    if a < b then b else a
  }

  lemma MulGrows(a: nat, b: nat, d: nat)
    requires a <= b
    ensures a * d <= b * d
  {
  }

  /** 0 + 1 + .. + (k-1), the number of pairs of k things. */
  function Tri(k: nat): nat {
    if k == 0 then 0 else Tri(k - 1) + k - 1
  }

  lemma {:induction false} TriIs(k: nat)
    ensures k > 0 ==> k * (k - 1) / 2 == Tri(k)
  {
    if k > 1 {
      TriIs(k - 1);
      HalfStep(k);
    }
  }

  lemma HalfStep(k: nat)
    requires k > 1
    ensures k * (k - 1) / 2 == (k - 1) * (k - 2) / 2 + k - 1
  {
    assert k * (k - 1) == (k - 1) * (k - 2) + 2 * (k - 1);
  }

  lemma {:induction false} TriMonotone(a: nat, b: nat)
    requires a <= b
    ensures Tri(a) <= Tri(b)
  {
    if a < b { TriMonotone(a, b - 1); }
  }
}
