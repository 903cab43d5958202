/** The 32-bit form of the tid-list operations, and that it does what TidWords says. A word of a list has
    four parts; part j of a list holds the transactions t with t / 32 == j. */
module TidParts {
  import opened BitCounts
  import opened TidBits
  import opened TidCounts
  import opened TidWords

  /** The transactions of one part. */
  function PartTids(b: bv32, j: nat): (s: set<nat>)
    ensures forall e: nat :: e in s <==> e / 32 == j && Bit(b, e % 32)
  {
    set e: nat | 32 * j <= e < 32 * (j + 1) && Bit(b, e % 32)
  }

  /** Word w of a list, as a set of transactions. */
  function WordOf(p: seq<bv32>, w: nat): (s: Word)
    requires 4 * w + 4 <= |p|
    ensures forall e: nat :: e in s <==> e / WORD_BITS == w && Bit(p[e / 32], e % 32)
  {
    Quarters(w);
    PartTids(p[4 * w], 4 * w) + PartTids(p[4 * w + 1], 4 * w + 1)
    + PartTids(p[4 * w + 2], 4 * w + 2) + PartTids(p[4 * w + 3], 4 * w + 3)
  }

  lemma Quarters(w: nat)
    ensures forall e: nat :: e / WORD_BITS == w
              <==> e / 32 == 4 * w || e / 32 == 4 * w + 1 || e / 32 == 4 * w + 2 || e / 32 == 4 * w + 3
  {
  }

  /** A list of parts as a list of words. */
  function ListOf(p: seq<bv32>): (t: seq<Word>)
    requires |p| % 4 == 0
    ensures |t| == |p| / 4 && forall w: nat :: w < |t| ==> t[w] == WordOf(p, w)
  {
    seq(|p| / 4, w requires 0 <= w < |p| / 4 => WordOf(p, w))
  }

  // ---------------------------------------------------------------------------------------
  // Counting
  // ---------------------------------------------------------------------------------------

  function OnesIn(b: bv32): nat {
    BitCount(b) as nat
  }

  lemma {:induction false} ShiftCard(s: set<nat>, t: set<nat>, d: nat)
    requires forall e: nat :: e in t <==> e >= d && e - d in s
    ensures |t| == |s|
    decreases s
  {
    if s == {} {
      assert t == {};
    } else {
      var x :| x in s;
      assert x + d in t;
      ShiftCard(s - {x}, t - {x + d}, d);
    }
  }

  lemma PartCard(b: bv32, j: nat)
    ensures |PartTids(b, j)| == OnesIn(b)
  {
    hide Bit, BitCount;
    CountExact(b);
    forall e: nat ensures e in PartTids(b, j) <==> e >= 32 * j && e - 32 * j in BitsOf(b) {
      if e / 32 == j { assert e - 32 * j == e % 32; }
    }
    ShiftCard(BitsOf(b), PartTids(b, j), 32 * j);
  }

  lemma WordCard(p: seq<bv32>, w: nat)
    requires 4 * w + 4 <= |p|
    ensures |WordOf(p, w)| == OnesIn(p[4 * w]) + OnesIn(p[4 * w + 1])
                            + OnesIn(p[4 * w + 2]) + OnesIn(p[4 * w + 3])
  {
    hide Bit, OnesIn;
    var a, b, c, d := PartTids(p[4 * w], 4 * w), PartTids(p[4 * w + 1], 4 * w + 1),
                      PartTids(p[4 * w + 2], 4 * w + 2), PartTids(p[4 * w + 3], 4 * w + 3);
    assert a !! b && a + b !! c && a + b + c !! d;
    PartCard(p[4 * w], 4 * w);
    PartCard(p[4 * w + 1], 4 * w + 1);
    PartCard(p[4 * w + 2], 4 * w + 2);
    PartCard(p[4 * w + 3], 4 * w + 3);
  }

  /** The loops add up the parts. */
  function PartsCount(p: seq<bv32>, k: nat): nat
    requires k <= |p|
  {
    if k == 0 then 0 else PartsCount(p, k - 1) + OnesIn(p[k - 1])
  }

  lemma NoParts(p: seq<bv32>)
    ensures PartsCount(p, 0) == 0
  {
  }

  lemma FourParts(p: seq<bv32>, k: nat)
    requires k + 4 <= |p|
    ensures PartsCount(p, k + 4)
         == PartsCount(p, k) + OnesIn(p[k]) + OnesIn(p[k + 1]) + OnesIn(p[k + 2]) + OnesIn(p[k + 3])
  {
    hide OnesIn;
    assert PartsCount(p, k + 2) == PartsCount(p, k) + OnesIn(p[k]) + OnesIn(p[k + 1]);
  }

  lemma {:induction false} PartsAreBits(p: seq<bv32>, k: nat)
    requires |p| % 4 == 0 && k <= |p| / 4
    ensures PartsCount(p, 4 * k) == Bits(ListOf(p), 0, k)
  {
    hide OnesIn, WordOf, PartsCount;
    NoParts(p);
    if k > 0 {
      PartsAreBits(p, k - 1);
      WordCard(p, k - 1);
      FourParts(p, 4 * (k - 1));
    }
  }

  /** count_1_bits. */
  method CountBits(p: seq<bv32>) returns (cc: nat)
    requires |p| % 4 == 0
    ensures cc == Bits(ListOf(p), 0, |p| / 4)
  {
    hide OnesIn, ListOf, Bits;
    NoParts(p);
    cc := 0;
    for i := 0 to |p|
      invariant cc == PartsCount(p, i)
    {
      cc := cc + OnesIn(p[i]);
    }
    assert 4 * (|p| / 4) == |p|;
    PartsAreBits(p, |p| / 4);
  }

  // ---------------------------------------------------------------------------------------
  // Intersection
  // ---------------------------------------------------------------------------------------

  lemma PartsAnd(p: seq<bv32>, q: seq<bv32>, r: seq<bv32>)
    requires |p| == |q| == |r| && |p| % 4 == 0
    requires forall i :: 0 <= i < |p| ==> r[i] == BitAnd(p[i], q[i])
    ensures ListOf(r) == And(ListOf(p), ListOf(q))
  {
    hide Bit, BitAnd;
    var a, b, c := ListOf(p), ListOf(q), ListOf(r);
    forall w: nat | w < |c| ensures c[w] == a[w] * b[w] {
      forall e: nat ensures e in c[w] <==> e in a[w] && e in b[w] {
        if e / WORD_BITS == w {
          AndAt(p[e / 32], q[e / 32], e % 32);
        }
      }
    }
  }

  /** and_tid_list_count_1: the output may be one of the inputs. */
  method AndCount(o: array<bv32>, p: array<bv32>, q: array<bv32>) returns (cc: nat)
    requires o.Length == p.Length == q.Length && o.Length % 4 == 0
    modifies o
    ensures ListOf(o[..]) == And(old(ListOf(p[..])), old(ListOf(q[..])))
    ensures cc == Bits(ListOf(o[..]), 0, o.Length / 4)
  {
    hide OnesIn, BitAnd, ListOf, Bits, And, WordOf;
    ghost var a, b := p[..], q[..];
    NoParts(o[..0]);
    cc := 0;
    for i := 0 to o.Length
      invariant forall k :: 0 <= k < i ==> o[k] == BitAnd(a[k], b[k])
      invariant forall k :: i <= k < o.Length ==> p[k] == a[k] && q[k] == b[k]
      invariant cc == PartsCount(o[..i], i)
    {
      o[i] := BitAnd(p[i], q[i]);
      cc := cc + OnesIn(o[i]);
      PartsSnoc(o[..i + 1], i);
      assert o[..i + 1][..i] == o[..i];
    }
    assert o[..o.Length] == o[..];
    PartsAnd(a, b, o[..]);
    PartsAreBits(o[..], o.Length / 4);
  }

  lemma {:induction false} PartsSnoc(p: seq<bv32>, k: nat)
    requires k < |p|
    ensures PartsCount(p, k + 1) == PartsCount(p[..k], k) + OnesIn(p[k])
  {
    hide OnesIn;
    PartsPrefix(p, k, k);
  }

  lemma {:induction false} PartsPrefix(p: seq<bv32>, n: nat, k: nat)
    requires k <= n <= |p|
    ensures PartsCount(p[..n], k) == PartsCount(p, k)
  {
    hide OnesIn;
    if k > 0 { PartsPrefix(p, n, k - 1); }
  }

  // ---------------------------------------------------------------------------------------
  // Inclusion
  // ---------------------------------------------------------------------------------------

  lemma PartWithin(a: bv32, b: bv32, j: nat)
    ensures BitAnd(b, a) == a <==> PartTids(a, j) <= PartTids(b, j)
  {
    hide Bit, BitAnd;
    BitsWithin(a, b);
    if PartTids(a, j) <= PartTids(b, j) {
      forall i | i in BitsOf(a) ensures i in BitsOf(b) {
        var e := 32 * j + i;
        assert e / 32 == j && e % 32 == i;
        assert e in PartTids(a, j);
      }
    } else {
      var e :| e in PartTids(a, j) && e !in PartTids(b, j);
      assert e % 32 in BitsOf(a) && e % 32 !in BitsOf(b);
    }
  }

  lemma WordWithin(p: seq<bv32>, q: seq<bv32>, w: nat)
    requires |p| == |q| && 4 * w + 4 <= |p|
    ensures WordOf(p, w) <= WordOf(q, w)
       <==> forall j :: 4 * w <= j < 4 * w + 4 ==> BitAnd(q[j], p[j]) == p[j]
  {
    hide Bit, BitAnd;
    forall j: nat | 4 * w <= j < 4 * w + 4
      ensures BitAnd(q[j], p[j]) == p[j] <==> PartTids(p[j], j) <= PartTids(q[j], j)
    {
      PartWithin(p[j], q[j], j);
    }
    if WordOf(p, w) <= WordOf(q, w) {
      forall j: nat | 4 * w <= j < 4 * w + 4 ensures PartTids(p[j], j) <= PartTids(q[j], j) {
        forall e | e in PartTids(p[j], j) ensures e in PartTids(q[j], j) {
          assert e in WordOf(p, w);
        }
      }
    }
  }

  /** tid_list_inclusion: compares the four parts of every word from kk0 on, up to the first word that differs. */
  method PartsInclusion(p: seq<bv32>, q: seq<bv32>, kk0: nat, end: nat) returns (match_: bool, kk: nat)
    requires |p| == |q| && |p| % 4 == 0 && end <= |p| / 4
    ensures match_ <==> forall w: nat :: kk0 <= w < end ==> ListOf(p)[w] <= ListOf(q)[w]
    ensures kk0 >= end ==> match_ && kk == kk0
    ensures kk0 < end ==> kk0 < kk <= end && (match_ ==> kk == end)
    ensures !match_ ==> forall w: nat :: kk0 <= w < kk - 1 ==> ListOf(p)[w] <= ListOf(q)[w]
    ensures !match_ ==> !(ListOf(p)[kk - 1] <= ListOf(q)[kk - 1])
  {
    hide BitAnd, WordOf;
    match_ := true;
    kk := kk0;
    while match_ && kk < end
      invariant kk0 <= kk && (kk0 < end ==> kk <= end) && (kk0 >= end ==> kk == kk0)
      invariant forall w: nat :: kk0 <= w < kk - 1 && w < end ==> ListOf(p)[w] <= ListOf(q)[w]
      invariant match_ ==> forall w: nat :: kk0 <= w < kk && w < end ==> ListOf(p)[w] <= ListOf(q)[w]
      invariant !match_ ==> kk > kk0 && !(ListOf(p)[kk - 1] <= ListOf(q)[kk - 1])
      decreases end - kk, match_
    {
      for i := 0 to 4
        invariant match_ <==> forall j :: 4 * kk <= j < 4 * kk + i ==> BitAnd(q[j], p[j]) == p[j]
      {
        match_ := match_ && BitAnd(q[4 * kk + i], p[4 * kk + i]) == p[4 * kk + i];
      }
      WordWithin(p, q, kk);
      kk := kk + 1;
    }
  }
}
