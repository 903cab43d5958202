/** The jobs the scheduling policies give to Mine, and why every policy reports the same sets. */
module DciPolicies {
  import opened Basics
  import opened ClosedSets
  import opened DciWalk
  import opened DciExact

  /** The items lo, lo+1, ..., hi-1. */
  function Items(lo: nat, hi: nat): (s: seq<nat>)
    requires lo <= hi
    ensures |s| == hi - lo
    ensures forall k :: 0 <= k < |s| ==> s[k] == lo + k
    ensures NoRepeat(s)
    ensures forall q: nat :: q in s <==> lo <= q < hi
  {
    if lo == hi then [] else Items(lo, hi - 1) + [hi - 1]
  }

  function Clip(ub: nat, hi: nat): (r: nat)
    ensures r <= ub && r <= hi && (r == ub || r == hi)
  {
    if ub > hi then hi else ub
  }

  /** Mine looks at its bound only after the first generator: with no generator asked for, it takes one. */
  function AtLeastOne(ub: nat): (r: nat)
    ensures r == Max(ub, 1)
  {
    if ub == 0 then 1 else ub
  }

  /** Simplest and DP_DA_2: one job, the generators being all items below ub. */
  function WholeJob(db: Database, n: nat, min: nat, ub: nat): seq<Event> {
    Walk(db, min, {}, {}, Items(0, n), 0, Clip(AtLeastOne(ub), n))
  }

  /** One_Thread: extend item f by later items; earlier ones form the pre-set. */
  function SingleJob(db: Database, n: nat, min: nat, f: nat): seq<Event>
    requires f < n
  {
    Walk(db, min, {f}, Elems(Items(0, f)), Items(f + 1, n), 0, n - f - 1)
  }

  /** SP_DA_2 and SP_SA_2: extend item f by the single generator s; every other item below s is
      in the pre-set, whether or not it would have succeeded. */
  function PairJob(db: Database, n: nat, min: nat, f: nat, s: nat): seq<Event>
    requires f < s < n
  {
    Walk(db, min, {f}, Elems(Items(0, s)) - {f}, Items(s, n), 0, 1)
  }

  /** What a run of the miner has to write: frequent closed sets of two or more items whose
      smallest item is below ub. */
  ghost predicate Target(db: Database, n: nat, min: nat, ub: nat, c: Itemset) {
    && IsClosed(db, n, c)
    && Supp(db, c) >= min
    && exists k :: k in c && k < ub
  }

  /** f is the smallest item of c. */
  predicate Smallest(c: Itemset, f: nat) {
    f in c && forall q :: q in c ==> f <= q
  }

  /** f and s are the two smallest items of c. */
  predicate SmallestTwo(c: Itemset, f: nat, s: nat) {
    f < s && f in c && s in c && forall q :: q in c && q != f ==> s <= q
  }

  /** The smallest item of c is below m, and c has others. */
  ghost predicate SmallestBelow(c: Itemset, m: nat) {
    exists f: nat :: f < m && Smallest(c, f) && c != {f}
  }

  /** Some job names the two smallest items of c. */
  ghost predicate SmallestAmong(c: Itemset, jobs: seq<(nat, nat)>) {
    exists j: (nat, nat) :: j in jobs && SmallestTwo(c, j.0, j.1)
  }

  lemma ClosedBelow(db: Database, n: nat, c: Itemset)
    requires IsClosed(db, n, c)
    ensures forall q :: q in c ==> q < n
  {
    hide Tids;
  }

  lemma WholeJobFrame(db: Database, n: nat, min: nat)
    ensures FrameOk(db, n, min, {}, {}, Items(0, n), 0)
  {
    hide Tids, Supp, Covered;
    var post := Items(0, n);
    assert post[0..] == post;
  }

  lemma WholeJobScope(db: Database, n: nat, min: nat, ub: nat, c: Itemset)
    ensures InScope(db, n, min, {}, {}, Items(0, n), 0, Clip(ub, n), c) <==> Target(db, n, min, ub, c)
  {
    hide Tids, Supp, Closure, IsClosed;
    var post := Items(0, n);
    assert post[0..] == post;
    if Target(db, n, min, ub, c) {
      ClosedBelow(db, n, c);
      assert forall q :: q in c ==> q < n && q in post;
      var k :| k in c && k < ub;
      assert post[k] in c;
    }
  }

  lemma SingleJobIn(db: Database, n: nat, min: nat, f: nat, c: Itemset)
    requires f < n && InScope(db, n, min, {f}, Elems(Items(0, f)), Items(f + 1, n), 0, n - f - 1, c)
    ensures Smallest(c, f) && c != {f}
  {
    hide Tids, Supp, IsClosed;
    var post := Items(f + 1, n);
    assert post[0..] == post && f in c;
    forall q | q in c ensures f <= q {
      assert q == f || q in post;
    }
    var k :| 0 <= k < n - f - 1 && post[k] in c;
    assert post[k] != f;
  }

  lemma SingleJobOut(db: Database, n: nat, min: nat, f: nat, c: Itemset)
    requires f < n && IsClosed(db, n, c) && Supp(db, c) >= min && Smallest(c, f) && c != {f}
    ensures InScope(db, n, min, {f}, Elems(Items(0, f)), Items(f + 1, n), 0, n - f - 1, c)
  {
    ClosedBelow(db, n, c);
    hide Tids, Supp, IsClosed;
    var post := Items(f + 1, n);
    assert post[0..] == post;
    forall q | q in c ensures q in {f} + Elems(post) && q !in Elems(Items(0, f)) {
      assert q == f || q in post;
    }
    var q :| q in c && q != f;
    assert post[q - f - 1] == q;
  }

  lemma SingleJobScope(db: Database, n: nat, min: nat, f: nat, c: Itemset)
    requires f < n
    ensures InScope(db, n, min, {f}, Elems(Items(0, f)), Items(f + 1, n), 0, n - f - 1, c)
       <==> IsClosed(db, n, c) && Supp(db, c) >= min && Smallest(c, f) && c != {f}
  {
    if InScope(db, n, min, {f}, Elems(Items(0, f)), Items(f + 1, n), 0, n - f - 1, c) {
      SingleJobIn(db, n, min, f, c);
    }
    hide InScope, Tids, Supp, IsClosed, Smallest;
    if IsClosed(db, n, c) && Supp(db, c) >= min && Smallest(c, f) && c != {f} {
      SingleJobOut(db, n, min, f, c);
    }
  }

  lemma SingleJobFrame(db: Database, n: nat, min: nat, f: nat)
    requires f < n
    ensures FrameOk(db, n, min, {f}, Elems(Items(0, f)), Items(f + 1, n), 0)
  {
    hide Tids, Supp;
    var post := Items(f + 1, n);
    assert post[0..] == post;
  }

  lemma PairJobFrame(db: Database, n: nat, min: nat, f: nat, s: nat)
    requires f < s < n
    ensures FrameOk(db, n, min, {f}, Elems(Items(0, s)) - {f}, Items(s, n), 0)
  {
    hide Tids, Supp;
    var post := Items(s, n);
    assert post[0..] == post;
  }

  lemma PairJobScope(db: Database, n: nat, min: nat, f: nat, s: nat, c: Itemset)
    requires f < s < n
    ensures InScope(db, n, min, {f}, Elems(Items(0, s)) - {f}, Items(s, n), 0, 1, c)
       <==> IsClosed(db, n, c) && Supp(db, c) >= min && SmallestTwo(c, f, s)
  {
    hide Tids, Supp, Closure, IsClosed;
    var post := Items(s, n);
    assert post[0..] == post;
    assert post[0] == s;
    if IsClosed(db, n, c) && SmallestTwo(c, f, s) {
      assert forall q :: q in c ==> q < n by { ClosedBelow(db, n, c); }
      assert forall q :: q in c ==> q == f || q in post;
    }
  }

  lemma WholeJobExact(db: Database, n: nat, min: nat, ub: nat, c: Itemset, s: nat)
    ensures multiset(WholeJob(db, n, min, ub))[Found(c, s)]
         == if Target(db, n, min, AtLeastOne(ub), c) && s == Supp(db, c) then 1 else 0
  {
    hide Walk, InScope, Target, AtLeastOne, FrameOk, Supp;
    WholeJobFrame(db, n, min);
    WholeJobScope(db, n, min, AtLeastOne(ub), c);
    WalkExact(db, n, min, {}, {}, Items(0, n), 0, Clip(AtLeastOne(ub), n));
    FoundOnceCount(WholeJob(db, n, min, ub), Found(c, s));
  }

  lemma SingleJobExact(db: Database, n: nat, min: nat, f: nat, c: Itemset, s: nat)
    requires f < n
    ensures multiset(SingleJob(db, n, min, f))[Found(c, s)]
         == if IsClosed(db, n, c) && Supp(db, c) >= min && Smallest(c, f) && c != {f} && s == Supp(db, c) then 1 else 0
  {
    hide Walk, InScope, IsClosed, Smallest, FrameOk, Supp;
    SingleJobFrame(db, n, min, f);
    SingleJobScope(db, n, min, f, c);
    WalkExact(db, n, min, {f}, Elems(Items(0, f)), Items(f + 1, n), 0, n - f - 1);
    FoundOnceCount(SingleJob(db, n, min, f), Found(c, s));
  }

  lemma PairJobExact(db: Database, n: nat, min: nat, f: nat, g: nat, c: Itemset, s: nat)
    requires f < g < n
    ensures multiset(PairJob(db, n, min, f, g))[Found(c, s)]
         == if IsClosed(db, n, c) && Supp(db, c) >= min && SmallestTwo(c, f, g) && s == Supp(db, c) then 1 else 0
  {
    hide Walk, InScope, IsClosed, SmallestTwo, FrameOk, Supp;
    PairJobFrame(db, n, min, f, g);
    PairJobScope(db, n, min, f, g, c);
    WalkExact(db, n, min, {f}, Elems(Items(0, g)) - {f}, Items(g, n), 0, 1);
    FoundOnceCount(PairJob(db, n, min, f, g), Found(c, s));
  }

  lemma {:induction false} FoundOnceCount(r: seq<Event>, e: Event)
    requires FoundOnce(r) && e.Found?
    ensures multiset(r)[e] == if e in r then 1 else 0
  {
    if r != [] {
      assert r == [r[0]] + r[1..];
      FoundOnceCount(r[1..], e);
      assert forall b :: 0 <= b < |r[1..]| ==> r[1..][b] == r[b + 1];
      assert r[0] == e ==> e !in r[1..];
    }
  }

  // ---------------------------------------------------------------------------------------
  // Whole runs: any list of jobs that names each one once
  // ---------------------------------------------------------------------------------------

  /** One_Thread takes the items 0, 1, ... below maxItem in order. */
  function SingleRun(db: Database, n: nat, min: nat, maxItem: nat): multiset<Event>
    requires maxItem <= n
  {
    if maxItem == 0 then multiset{}
    else SingleRun(db, n, min, maxItem - 1) + multiset(SingleJob(db, n, min, maxItem - 1))
  }

  /** All threads of a pair policy together, for the jobs they were given. */
  function PairRun(db: Database, n: nat, min: nat, jobs: seq<(nat, nat)>): multiset<Event>
    requires forall j :: j in jobs ==> j.0 < j.1 < n
  {
    if jobs == [] then multiset{}
    else multiset(PairJob(db, n, min, jobs[0].0, jobs[0].1)) + PairRun(db, n, min, jobs[1..])
  }

  /** The jobs the pair policies must hand out, in any order. */
  ghost predicate PairJobs(jobs: seq<(nat, nat)>, maxItem: nat, n: nat) {
    && (forall j :: j in jobs <==> j.0 < maxItem && j.0 < j.1 < n)
    && NoRepeat(jobs)
  }

  lemma {:induction false} SingleRunCount(db: Database, n: nat, min: nat, maxItem: nat, c: Itemset, s: nat)
    requires maxItem <= n
    ensures SingleRun(db, n, min, maxItem)[Found(c, s)]
         == if IsClosed(db, n, c) && Supp(db, c) >= min && s == Supp(db, c)
               && SmallestBelow(c, maxItem) then 1 else 0
  {
    if maxItem > 0 {
      hide IsClosed, Supp, SingleJob, SingleRun, SmallestBelow, Smallest;
      SmallestStep(c, maxItem - 1);
      SingleRunCount(db, n, min, maxItem - 1, c, s);
      SingleJobExact(db, n, min, maxItem - 1, c, s);
      SingleRunStep(db, n, min, maxItem);
      assert SingleRun(db, n, min, maxItem)[Found(c, s)]
          == SingleRun(db, n, min, maxItem - 1)[Found(c, s)] + multiset(SingleJob(db, n, min, maxItem - 1))[Found(c,
              s)];
    }
  }

  lemma SingleRunStep(db: Database, n: nat, min: nat, maxItem: nat)
    requires 0 < maxItem <= n
    ensures SingleRun(db, n, min, maxItem) == SingleRun(db, n, min,
                                                        maxItem - 1) + multiset(SingleJob(db, n, min, maxItem - 1))
  {
  }

  lemma SmallestStep(c: Itemset, m: nat)
    ensures SmallestBelow(c, m + 1) <==> SmallestBelow(c, m) || (Smallest(c, m) && c != {m})
    ensures !(SmallestBelow(c, m) && Smallest(c, m))
  {
    if SmallestBelow(c, m) {
      var f: nat :| f < m && Smallest(c, f) && c != {f};
      assert f < m + 1;
    }
    if SmallestBelow(c, m + 1) {
      var f: nat :| f < m + 1 && Smallest(c, f) && c != {f};
      assert f == m || f < m;
    }
  }

  lemma {:induction false} PairRunCount(db: Database, n: nat, min: nat, jobs: seq<(nat, nat)>, c: Itemset, s: nat)
    requires forall j :: j in jobs ==> j.0 < j.1 < n
    requires NoRepeat(jobs)
    ensures PairRun(db, n, min, jobs)[Found(c, s)]
         == if IsClosed(db, n, c) && Supp(db, c) >= min && s == Supp(db, c)
               && SmallestAmong(c, jobs) then 1 else 0
  {
    if jobs != [] {
      hide IsClosed, Supp, PairJob, PairRun, SmallestAmong, SmallestTwo;
      var rest := jobs[1..];
      PairRunCount(db, n, min, rest, c, s);
      PairJobExact(db, n, min, jobs[0].0, jobs[0].1, c, s);
      PairRunStep(db, n, min, jobs);
      AmongStep(c, jobs);
      assert PairRun(db, n, min, jobs)[Found(c, s)]
          == multiset(PairJob(db, n, min, jobs[0].0, jobs[0].1))[Found(c, s)] + PairRun(db, n, min, rest)[Found(c, s)];
    }
  }

  lemma PairRunStep(db: Database, n: nat, min: nat, jobs: seq<(nat, nat)>)
    requires jobs != [] && forall j :: j in jobs ==> j.0 < j.1 < n
    ensures PairRun(db, n, min, jobs)
         == multiset(PairJob(db, n, min, jobs[0].0, jobs[0].1)) + PairRun(db, n, min, jobs[1..])
    ensures PairRun(db, n, min, []) == multiset{}
  {
  }

  lemma {:induction false} PairRunSnoc(db: Database, n: nat, min: nat, jobs: seq<(nat, nat)>, j: (nat, nat))
    requires forall j :: j in jobs ==> j.0 < j.1 < n
    requires j.0 < j.1 < n
    ensures PairRun(db, n, min, jobs + [j]) == PairRun(db, n, min, jobs) + multiset(PairJob(db, n, min, j.0, j.1))
  {
    hide PairJob, PairRun;
    PairRunStep(db, n, min, jobs + [j]);
    if jobs == [] {
      assert ([] + [j])[1..] == [];
    } else {
      assert (jobs + [j])[1..] == jobs[1..] + [j];
      PairRunSnoc(db, n, min, jobs[1..], j);
      PairRunStep(db, n, min, jobs);
    }
  }

  lemma AmongSize(c: Itemset, jobs: seq<(nat, nat)>)
    requires SmallestAmong(c, jobs)
    ensures |c| >= 2
  {
    var j: (nat, nat) :| j in jobs && SmallestTwo(c, j.0, j.1);
    SubsetCard({j.0, j.1}, c);
  }

  lemma AmongStep(c: Itemset, jobs: seq<(nat, nat)>)
    requires jobs != [] && NoRepeat(jobs)
    ensures SmallestAmong(c, jobs) <==> SmallestTwo(c, jobs[0].0, jobs[0].1) || SmallestAmong(c, jobs[1..])
    ensures !(SmallestTwo(c, jobs[0].0, jobs[0].1) && SmallestAmong(c, jobs[1..]))
  {
    var rest := jobs[1..];
    assert forall j :: j in jobs <==> j == jobs[0] || j in rest;
    assert jobs[0] !in rest;
    assert forall j: (nat, nat) :: SmallestTwo(c, j.0, j.1) && SmallestTwo(c, jobs[0].0, jobs[0].1) ==> j == jobs[0];
  }

  lemma HasSmallest(c: set<nat>) returns (f: nat)
    requires c != {}
    ensures Smallest(c, f)
    decreases |c|
  {
    f :| f in c;
    if c != {f} {
      var g := HasSmallest(c - {f});
      assert forall q :: q in c ==> q == f || q in c - {f};
      if g < f { f := g; }
    }
  }

  /** Every policy reports exactly the same closed sets, each of them once, with its support:
      One_Thread, SP_DA_2 / SP_SA_2 whatever the order of their jobs, and Simplest (or the one job of
      DP_DA_2) after the size test of the output. The last two count a bound of 0 as 1. */
  lemma PoliciesAgree(db: Database, n: nat, min: nat, ub: nat, jobs: seq<(nat, nat)>, c: Itemset, s: nat)
    requires n >= 1
    requires PairJobs(jobs, Clip(ub, n - 1), n)
    ensures var answer := if Target(db, n, min, ub, c) && |c| >= 2 && s == Supp(db, c) then 1 else 0;
            && SingleRun(db, n, min, Clip(ub, n - 1))[Found(c, s)] == answer
            && PairRun(db, n, min, jobs)[Found(c, s)] == answer
            && (|c| >= 2 ==>
                 multiset(WholeJob(db, n, min, ub))[Found(c, s)]
                 == if Target(db, n, min, AtLeastOne(ub), c) && s == Supp(db, c) then 1 else 0)
  {
    hide SingleRun, PairRun, WholeJob, Supp;
    SingleRunExact(db, n, min, ub, c, s);
    PairRunCount(db, n, min, jobs, c, s);
    WholeJobExact(db, n, min, ub, c, s);
    if IsClosed(db, n, c) {
      SmallestPair(n, ub, jobs, c) by { hide Tids; assert forall q :: q in c ==> q < n; }
    }
  }

  lemma SingleRunExact(db: Database, n: nat, min: nat, ub: nat, c: Itemset, s: nat)
    requires n >= 1
    ensures SingleRun(db, n, min, Clip(ub, n - 1))[Found(c, s)]
         == if Target(db, n, min, ub, c) && |c| >= 2 && s == Supp(db, c) then 1 else 0
  {
    hide SingleRun, Supp;
    SingleRunCount(db, n, min, Clip(ub, n - 1), c, s);
    if IsClosed(db, n, c) {
      SmallestItem(n, ub, c) by { hide Tids; assert forall q :: q in c ==> q < n; }
    }
  }

  lemma SmallestItem(n: nat, ub: nat, c: Itemset)
    requires n >= 1 && forall q :: q in c ==> q < n
    ensures SmallestBelow(c, Clip(ub, n - 1)) <==> (exists k :: k in c && k < ub) && |c| >= 2
  {
    if c != {} {
      var f := HasSmallest(c);
      if c != {f} {
        assert |c - {f}| == |c| - 1 && c - {f} != {};
      }
    }
  }

  lemma SmallestPair(n: nat, ub: nat, jobs: seq<(nat, nat)>, c: Itemset)
    requires n >= 1 && PairJobs(jobs, Clip(ub, n - 1), n)
    requires forall q :: q in c ==> q < n
    ensures SmallestAmong(c, jobs) <==> (exists k :: k in c && k < ub) && |c| >= 2
  {
    if c != {} {
      var f := HasSmallest(c);
      if c != {f} {
        assert |c - {f}| == |c| - 1 && c - {f} != {};
        var g := HasSmallest(c - {f});
        assert forall q :: q in c && q != f ==> q in c - {f};
        assert SmallestTwo(c, f, g);
        if f < ub {
          assert (f, g) in jobs && SmallestTwo(c, (f, g).0, (f, g).1);
        }
      }
    }
  }
}
