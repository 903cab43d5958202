/** The pair policies: SP_DA_2 with one shared cursor, SP_SA_2 with one cursor and one residue class
    modulo the number of threads per thread. */
module StaticJobs {
  import opened Basics
  import opened DciPolicies

  /** Pair (a, b) comes before the cursor (f, s). */
  predicate Before(a: nat, b: nat, f: nat, s: nat) {
    a < f || (a == f && b < s)
  }

  lemma NoRepeatSnoc<T>(log: seq<T>, x: T)
    requires NoRepeat(log) && x !in log
    ensures NoRepeat(log + [x]) && forall y :: y in log + [x] <==> y in log || y == x
  {
    assert (log + [x])[|log|] == x;
  }

  // ---------------------------------------------------------------------------------------
  // SP_DA_2
  // ---------------------------------------------------------------------------------------

  class SharedJobs {
    const maxItem: nat
    const end: nat
    var currentFirstItem: nat
    var currentSecondItem: nat
    /** The jobs handed out so far, to whichever thread. */
    ghost var log: seq<(nat, nat)>

    /** Exactly the pairs before the cursor have been handed out, once each. */
    ghost predicate Valid()
      reads this
    {
      && maxItem < end && currentFirstItem < currentSecondItem && NoRepeat(log)
      && forall j :: j in log <==>
           j.0 < maxItem && j.0 < j.1 < end && Before(j.0, j.1, currentFirstItem, currentSecondItem)
    }

    constructor (ub: nat, end: nat)
      requires end >= 1
      ensures Valid() && log == [] && this.end == end && maxItem == Clip(ub, end - 1)
    {
      this.end := end;
      maxItem := if ub > end - 1 then end - 1 else ub;
      currentFirstItem, currentSecondItem, log := 0, 1, [];
    }

    method GetJob() returns (job: Option<(nat, nat)>)
      requires Valid()
      modifies this
      ensures Valid()
      ensures job.Some? ==> job.value !in old(log) && log == old(log) + [job.value]
      ensures job.None? ==> log == old(log) && PairJobs(log, maxItem, end)
    {
      if currentSecondItem >= end {
        currentFirstItem := currentFirstItem + 1;
        currentSecondItem := currentFirstItem + 1;
      }
      if currentFirstItem >= maxItem {
        return None;
      }
      ghost var pair := (currentFirstItem, currentSecondItem);
      NoRepeatSnoc(log, pair);
      job := Some((currentFirstItem, currentSecondItem));
      log := log + [pair];
      currentSecondItem := currentSecondItem + 1;
    }
  }

  // ---------------------------------------------------------------------------------------
  // SP_SA_2
  // ---------------------------------------------------------------------------------------

  /** Where thread th starts behind first item f: its second items are f + 1 + Offset, and so on in steps
      of the number of threads. */
  function Offset(th: nat, f: nat, threads: nat): (d: nat)
    requires th < threads
    ensures d < threads
  {
    if f == 0 then th else (f + Offset(th, f - 1, threads)) % threads
  }

  /** Thread th mines the pair (f, s). */
  predicate Owns(th: nat, f: nat, s: nat, threads: nat)
    requires th < threads
  {
    f < s && (s - f - 1) % threads == Offset(th, f, threads)
  }

  /** The thread with a given offset behind f. */
  function Owner(f: nat, d: nat, threads: nat): (th: nat)
    requires d < threads
    ensures th < threads
    decreases f
  {
    if f == 0 then d else Owner(f - 1, (d - f) % threads, threads)
  }

  lemma ShiftBack(d: nat, f: nat, threads: nat)
    requires d < threads
    ensures (f + (d - f) % threads) % threads == d
    ensures ((f + d) % threads - f) % threads == d
  {
    var q := (d - f) / threads;
    assert f + (d - f) % threads == d + threads * -q;
    ModOffset(d, -q, threads);
    var p := (f + d) / threads;
    assert (f + d) % threads - f == d + threads * -p;
    ModOffset(d, -p, threads);
  }

  lemma ModOffset(d: nat, q: int, n: nat)
    requires d < n
    ensures (d + n * q) % n == d
  {
    var p, r := (d + n * q) / n, (d + n * q) % n;
    assert n * (q - p) == r - d;
    if q > p { Multiple(n, q - p); }
    if q < p { Multiple(n, p - q); }
  }

  lemma Multiple(n: int, k: int)
    requires n >= 0 && k >= 1
    ensures n * k >= n && n * -k <= -n
  {
  }

  /** Behind each first item the offsets of the threads are a permutation of all offsets. */
  lemma {:induction false} OwnerIs(th: nat, f: nat, d: nat, threads: nat)
    requires th < threads && d < threads
    ensures Offset(th, f, threads) == d <==> Owner(f, d, threads) == th
    decreases f
  {
    if f > 0 {
      var e := Offset(th, f - 1, threads);
      ShiftBack(e, f, threads);
      ShiftBack(d, f, threads);
      OwnerIs(th, f - 1, (d - f) % threads, threads);
    }
  }

  /** Every pair has exactly one owner. */
  lemma OneOwner(f: nat, s: nat, threads: nat)
    requires f < s && threads > 0
    ensures exists th: nat :: th < threads && Owns(th, f, s, threads)
    ensures forall t: nat, u: nat ::
              t < threads && u < threads && Owns(t, f, s, threads) && Owns(u, f, s, threads) ==> t == u
  {
    var d := (s - f - 1) % threads;
    var th := Owner(f, d, threads);
    OwnerIs(th, f, d, threads);
    assert Owns(th, f, s, threads);
    forall t: nat | t < threads && Owns(t, f, s, threads) ensures t == th {
      OwnerIs(t, f, d, threads);
    }
  }

  datatype Handed = Handed(thread: nat, pair: (nat, nat))

  /** What thread th has received when its cursor is at (f, s): the pairs it owns before the cursor. Once
      the cursor is through all first items, these are all the pairs it owns. */
  ghost predicate Received(log: seq<Handed>, th: nat, f: nat, s: nat, threads: nat, firsts: nat, end: nat)
    requires th < threads
  {
    && (f < firsts ==> f < s && (s - f - 1) % threads == Offset(th, f, threads))
    && (f >= firsts ==> s >= end)
    && forall a: nat, b: nat :: Handed(th, (a, b)) in log <==>
         b < end && Owns(th, a, b, threads) && if f < firsts then Before(a, b, f, s) else a < firsts
  }

  /** Behind the end, the cursor goes on with the next first item. */
  lemma NextFirst(log: seq<Handed>, th: nat, f: nat, s: nat, threads: nat, firsts: nat, end: nat)
    requires th < threads && Received(log, th, f, s, threads, firsts, end) && s >= end && f + 1 < firsts
    ensures Received(log, th, f + 1, f + 2 + s % threads, threads, firsts, end)
  {
    NextStart(th, f, s, threads);
    var e, d := s % threads, Offset(th, f + 1, threads);
    hide Offset;
    SmallMod(d, threads);
    forall a: nat, b: nat ensures Handed(th, (a, b)) in log <==>
      b < end && Owns(th, a, b, threads) && Before(a, b, f + 1, f + 2 + d)
    {
      if a == f + 1 && Owns(th, a, b, threads) { assert b >= f + 2; BeforeStart(b - f - 2, d, threads); }
    }
  }

  /** A number below d has another remainder. */
  lemma BeforeStart(x: nat, d: nat, n: nat)
    requires d < n
    ensures x % n == d ==> x >= d
  {
    if x < d { SmallMod(x, n); }
  }

  lemma NextStart(th: nat, f: nat, s: nat, threads: nat)
    requires th < threads && f < s && (s - f - 1) % threads == Offset(th, f, threads)
    ensures s % threads == Offset(th, f + 1, threads) < threads
  {
    var a, b, d := s - f - 1, f + 1, Offset(th, f, threads);
    OffsetNext(th, f, threads);
    hide Offset;
    SumMod(a, b, threads);
    assert a + b == s;
  }

  lemma OffsetNext(th: nat, f: nat, threads: nat)
    requires th < threads
    ensures Offset(th, f + 1, threads) == (Offset(th, f, threads) + (f + 1)) % threads
  {
  }

  lemma SmallMod(d: nat, n: nat)
    requires d < n
    ensures d % n == d
  {
  }

  /** At the start the cursor of thread th is at (0, th + 1). */
  lemma FirstCursor(th: nat, threads: nat, firsts: nat, end: nat)
    requires th < threads && firsts > 0
    ensures Received([], th, 0, th + 1, threads, firsts, end)
  {
    SmallMod(th, threads);
    forall b: nat | 0 < b < th + 1 ensures !Owns(th, 0, b, threads) {
      SmallMod(b - 1, threads);
    }
  }

  lemma LastFirst(log: seq<Handed>, th: nat, f: nat, s: nat, threads: nat, firsts: nat, end: nat)
    requires th < threads && Received(log, th, f, s, threads, firsts, end) && s >= end && f + 1 >= firsts
    ensures Received(log, th, f + 1, s, threads, firsts, end)
  {
  }

  lemma SumMod(a: nat, b: nat, n: nat)
    requires n > 0
    ensures (a + b) % n == (a % n + b) % n
  {
    var q := a / n;
    assert a + b == a % n + b + n * q;
    var p, r := (a % n + b) / n, (a % n + b) % n;
    assert a + b == r + n * (p + q);
    ModOffset(r, p + q, n);
  }

  /** The pair at the cursor, and the cursor moved on by the number of threads. */
  lemma HandOut(log: seq<Handed>, th: nat, f: nat, s: nat, threads: nat, firsts: nat, end: nat)
    requires th < threads && Received(log, th, f, s, threads, firsts, end) && s < end && f < firsts
    ensures Handed(th, (f, s)) !in log
    ensures Received(log + [Handed(th, (f, s))], th, f, s + threads, threads, firsts, end)
  {
    var h, d := Handed(th, (f, s)), Offset(th, f, threads);
    SumMod(s - f - 1, threads, threads);
    StepMod(s - f - 1, 1, threads, d);
    forall a: nat, b: nat ensures Handed(th, (a, b)) in log + [h] <==>
      b < end && Owns(th, a, b, threads) && Before(a, b, f, s + threads)
    {
      assert Handed(th, (a, b)) in log + [h] <==> Handed(th, (a, b)) in log || (a == f && b == s);
      if a == f && s < b < s + threads {
        Between(s - f - 1, b - f - 1, threads);
      }
    }
  }

  lemma StepMod(a: nat, k: nat, n: nat, d: nat)
    requires n > 0 && d < n && a % n == d
    ensures (a + n * k) % n == d
  {
    var q := a / n;
    assert a + n * k == d + n * (q + k);
    ModOffset(d, q + k, n);
  }

  /** Between two numbers that differ by n no number has the same remainder. */
  lemma Between(a: nat, b: nat, n: nat)
    requires a < b < a + n
    ensures a % n != b % n
  {
    if a % n == b % n {
      var p, q := a / n, b / n;
      assert b - a == n * (q - p);
      if q > p { Multiple(n, q - p); }
      if q < p { Multiple(n, p - q); }
    }
  }

  lemma OthersReceived(log: seq<Handed>, h: Handed, th: nat, f: nat, s: nat, threads: nat, firsts: nat, end: nat)
    requires th < threads && h.thread != th && Received(log, th, f, s, threads, firsts, end)
    ensures Received(log + [h], th, f, s, threads, firsts, end)
  {
    forall a: nat, b: nat ensures Handed(th, (a, b)) in log + [h] <==> Handed(th, (a, b)) in log {}
  }

  class PerThreadJobs {
    const maxItem: nat
    const end: nat
    const threads: nat
    const currentFirstItem: array<nat>
    const currentSecondItem: array<nat>
    ghost var log: seq<Handed>

    /** The first items whose pairs are handed out: the first one always is. */
    function Firsts(): nat {
      if maxItem == 0 then 1 else maxItem
    }

    ghost predicate Valid()
      reads this, currentFirstItem, currentSecondItem
    {
      && maxItem < end && currentFirstItem != currentSecondItem
      && currentFirstItem.Length == currentSecondItem.Length == threads
      && NoRepeat(log) && (forall h :: h in log ==> h.thread < threads)
      && forall th: nat :: th < threads ==>
           Received(log, th, currentFirstItem[th], currentSecondItem[th], threads, Firsts(), end)
    }

    constructor (ub: nat, end: nat, threads: nat)
      requires end >= 1
      ensures Valid() && log == [] && this.end == end && this.threads == threads && maxItem == Clip(ub, end - 1)
      ensures fresh(currentFirstItem) && fresh(currentSecondItem)
    {
      this.end, this.threads := end, threads;
      maxItem := if ub > end - 1 then end - 1 else ub;
      currentFirstItem := new nat[threads](_ => 0);
      currentSecondItem := new nat[threads](i => i + 1);
      log := [];
      new;
      hide Received;
      forall th: nat | th < threads
        ensures Received(log, th, currentFirstItem[th], currentSecondItem[th], threads, Firsts(), end)
      {
        FirstCursor(th, threads, Firsts(), end);
      }
    }

    method GetJob(th: nat) returns (job: Option<(nat, nat)>)
      requires Valid() && th < threads
      modifies this, currentFirstItem, currentSecondItem
      ensures Valid()
      ensures job.Some? ==> Handed(th, job.value) !in old(log) && log == old(log) + [Handed(th, job.value)]
      ensures job.None? ==> log == old(log) && currentFirstItem[th] >= Firsts()
      ensures forall t :: 0 <= t < threads && t != th ==> currentFirstItem[t] == old(currentFirstItem[t])
    {
      while currentSecondItem[th] >= end
        invariant Valid() && log == old(log)
        invariant forall t :: 0 <= t < threads && t != th ==> currentFirstItem[t] == old(currentFirstItem[t])
        decreases maxItem - currentFirstItem[th]
      {
        ghost var f, s := currentFirstItem[th], currentSecondItem[th];
        currentFirstItem[th] := currentFirstItem[th] + 1;
        if currentFirstItem[th] >= maxItem {
          LastFirst(log, th, f, s, threads, Firsts(), end);
          return None;
        }
        NextFirst(log, th, f, s, threads, Firsts(), end);
        currentSecondItem[th] := currentFirstItem[th] + 1 + currentSecondItem[th] % threads;
      }
      ghost var f, s := currentFirstItem[th], currentSecondItem[th];
      job := Some((currentFirstItem[th], currentSecondItem[th]));
      HandOut(log, th, f, s, threads, Firsts(), end);
      ghost var h := Handed(th, (f, s));
      NoRepeatSnoc(log, h);
      forall t: nat | t < threads && t != th
        ensures Received(log + [h], t, currentFirstItem[t], currentSecondItem[t], threads, Firsts(), end)
      {
        OthersReceived(log, h, t, currentFirstItem[t], currentSecondItem[t], threads, Firsts(), end);
      }
      log := log + [h];
      currentSecondItem[th] := currentSecondItem[th] + threads;
    }
  }

  function Pairs(log: seq<Handed>): (r: seq<(nat, nat)>)
    ensures |r| == |log| && forall i :: 0 <= i < |log| ==> r[i] == log[i].pair
  {
    seq(|log|, i requires 0 <= i < |log| => log[i].pair)
  }

  /** When every thread has been told that there is no more work, the pairs handed out are exactly those
      with one of the first items, each to one thread once. */
  lemma AllHandedOut(jobs: PerThreadJobs)
    requires jobs.Valid() && jobs.threads > 0
    requires forall th :: 0 <= th < jobs.threads ==> jobs.currentFirstItem[th] >= jobs.Firsts()
    ensures PairJobs(Pairs(jobs.log), jobs.Firsts(), jobs.end)
  {
    var log, n := jobs.log, jobs.threads;
    forall i, j | 0 <= i < j < |log| ensures log[i].pair != log[j].pair {
      assert log[i] in log && log[j] in log;
      LogOwned(jobs, log[i]);
      LogOwned(jobs, log[j]);
      OneOwner(log[i].pair.0, log[i].pair.1, n);
    }
    forall p: (nat, nat) ensures p in Pairs(log) <==> p.0 < jobs.Firsts() && p.0 < p.1 < jobs.end {
      if p in Pairs(log) {
        var i :| 0 <= i < |log| && Pairs(log)[i] == p;
        LogOwned(jobs, log[i]);
      }
      if p.0 < jobs.Firsts() && p.0 < p.1 < jobs.end {
        OneOwner(p.0, p.1, n);
        var th: nat :| th < n && Owns(th, p.0, p.1, n);
        assert Received(log, th, jobs.currentFirstItem[th], jobs.currentSecondItem[th], n, jobs.Firsts(), jobs.end);
        assert Handed(th, (p.0, p.1)) in log;
        var i :| 0 <= i < |log| && log[i] == Handed(th, (p.0, p.1));
        assert Pairs(log)[i] == p;
      }
    }
  }

  lemma LogOwned(jobs: PerThreadJobs, h: Handed)
    requires jobs.Valid() && h in jobs.log
    requires forall th :: 0 <= th < jobs.threads ==> jobs.currentFirstItem[th] >= jobs.Firsts()
    ensures h.thread < jobs.threads && h.pair.0 < jobs.Firsts() && h.pair.0 < h.pair.1 < jobs.end
    ensures Owns(h.thread, h.pair.0, h.pair.1, jobs.threads)
  {
    assert Received(jobs.log, h.thread, jobs.currentFirstItem[h.thread], jobs.currentSecondItem[h.thread],
                    jobs.threads, jobs.Firsts(), jobs.end);
    assert Handed(h.thread, (h.pair.0, h.pair.1)) == h;
  }

  /** These are the jobs the policy is meant to hand out just when there is a first item to mine, or no pair
      at all: with no first item, SP_SA_2 still hands out the pairs of item 0. */
  lemma MeantJobs(log: seq<(nat, nat)>, maxItem: nat, end: nat)
    requires PairJobs(log, if maxItem == 0 then 1 else maxItem, end)
    ensures PairJobs(log, maxItem, end) <==> maxItem > 0 || end <= 1
  {
    if maxItem == 0 && end > 1 {
      assert (0, 1) in log;
    }
  }

  /** Two threads and two items, the upper bound being 0: there is no first item to mine, but the first
      call already hands out the pair (0, 1), which is not among the jobs the policy is meant to hand out. */
  method FirstJobWithoutFirstItem() returns (job: Option<(nat, nat)>)
    ensures job == Some((0, 1)) && Clip(0, 1) == 0 && !PairJobs([(0, 1)], 0, 2)
  {
    var jobs := new PerThreadJobs(0, 2, 2);
    job := jobs.GetJob(0);
    assert Received(jobs.log, 0, jobs.currentFirstItem[0], jobs.currentSecondItem[0], 2, jobs.Firsts(), 2);
    assert job.Some? ==> Handed(0, (job.value.0, job.value.1)) in jobs.log;
    assert Owns(0, 0, 1, 2);
    assert Handed(0, (0, 1)) in jobs.log;
    assert (0, 1) in [(0, 1)];
  }
}
