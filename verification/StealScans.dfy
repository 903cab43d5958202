/** Which threads a thief probes, and why a thread finishes: the scans of the work-stealing policy over whole runs. */
module StealScans {
  import opened WorkStealing

  /** The victim number k of a scan that begins in s. */
  function Probed(s: State, thief: nat, k: nat): nat
    requires |s.threads| > 0
  {
    s.(scan := Scanning(thief, k)).Victim()
  }

  /** A scan goes round the threads, beginning with the one behind the thread robbed last. */
  lemma RoundRobin(s: State, thief: nat, k: nat)
    requires s.lastStolen < |s.threads|
    ensures Probed(s, thief, 0) == if s.lastStolen + 1 == |s.threads| then 0 else s.lastStolen + 1
    ensures var v := Probed(s, thief, k);
            v < |s.threads| && Probed(s, thief, k + 1) == if v + 1 == |s.threads| then 0 else v + 1
  {
    var n := |s.threads|;
    var a := s.lastStolen + k + 1;
    assert (a + 1) % n == if a % n + 1 == n then 0 else a % n + 1 by { NextResidue(a, n); }
    NextResidue(s.lastStolen, n);
  }

  lemma NextResidue(a: nat, n: nat)
    requires n > 0
    ensures (a + 1) % n == if a % n + 1 == n then 0 else a % n + 1
    ensures a < n ==> a % n == a
  {
    var q, r := a / n, a % n;
    Parted(a, n);
    if r + 1 == n {
      MultipleOf(n, q + 1, 0, a + 1) by { assert n * (q + 1) == n * q + n; }
    } else {
      MultipleOf(n, q, r + 1, a + 1);
    }
    if a < n { MultipleOf(n, 0, a, a); }
  }

  lemma Parted(a: nat, n: nat)
    requires n > 0
    ensures a == n * (a / n) + a % n && a % n < n
  {
  }

  lemma MultipleOf(n: nat, q: nat, r: nat, a: nat)
    requires r < n && a == n * q + r
    ensures a % n == r
  {
    var x := a / n - q;
    assert n * x == r - a % n by { assert n * x == n * (a / n) - n * q; }
    NoMultiple(n, x);
  }

  lemma NoMultiple(n: int, x: int)
    requires 0 < n && -n < n * x < n
    ensures x == 0
  {
    assert x >= 1 ==> n * x >= n;
    assert x <= -1 ==> n * x <= -n;
  }

  /** The probes of a scan meet every thread, and none of them twice. */
  lemma EveryVictimOnce(s: State, thief: nat, v: nat) returns (k: nat)
    requires s.lastStolen < |s.threads| && v < |s.threads|
    ensures k < |s.threads| && Probed(s, thief, k) == v
    ensures forall j: nat :: j < |s.threads| && Probed(s, thief, j) == v ==> j == k
  {
    var n, a := |s.threads|, s.lastStolen + 1;
    k := if v >= a then v - a else v + n - a;
    forall j: nat | j < n ensures Probed(s, thief, j) == if a + j < n then a + j else a + j - n {
      MultipleOf(n, if a + j < n then 0 else 1, if a + j < n then a + j else a + j - n, a + j);
    }
  }

  // ---------------------------------------------------------------------------------------
  // Scans within runs
  // ---------------------------------------------------------------------------------------

  /** Others go on working while a scan is under way; the scan itself goes on with the next probe only. */
  lemma ScanStep(d: Data, s: State, a: Action)
    requires AllValid(s.threads) && Enabled(s, a)
    ensures var s' := Apply(d, s, a);
            && |s'.threads| == |s.threads|
            && (s.scan.Scanning? && s'.scan.Scanning? ==> a.Pass? || a.Visit? || a.Resume? || a.Leave?)
            && s'.lastStolen == (if a.Steal? then s.Victim() else s.lastStolen)
            && (s'.scan.Scanning? ==>
                  if s.scan.Scanning? then
                    !a.BeginScan? && !a.GiveUp? && !a.Steal?
                    && s'.scan == Scanning(s.scan.thief, s.scan.tried + if a.Pass? then 1 else 0)
                  else a == BeginScan(s'.scan.thief) && s'.scan.tried == 0)
  {
    hide VisitThread, ResumeThread, StealLevel, Thread.Valid;
  }

  /** Action j is the last steal before state k. */
  ghost predicate LastSteal(acts: seq<Action>, j: nat, k: nat)
    requires k <= |acts|
  {
    j < k && acts[j].Steal? && NoSteal(acts, j + 1, k)
  }

  ghost predicate NoSteal(acts: seq<Action>, from: nat, k: nat)
    requires k <= |acts|
  {
    forall i :: from <= i < k ==> !acts[i].Steal?
  }

  lemma LastStealStep(acts: seq<Action>, k: nat)
    requires 0 < k <= |acts|
    ensures NoSteal(acts, 0, k) ==> NoSteal(acts, 0, k - 1) && !acts[k - 1].Steal?
    ensures forall j: nat :: LastSteal(acts, j, k) ==>
              if acts[k - 1].Steal? then j == k - 1 else LastSteal(acts, j, k - 1)
  {
  }

  /** In every state of a run, the thread robbed last is a thread, that of the most recent steal; before the first
      steal it is thread 0. */
  lemma {:induction false} LastStolen(d: Data, ss: seq<State>, acts: seq<Action>, k: nat)
    requires Run(d, ss, acts) && k < |ss|
    ensures |ss| == |acts| + 1 && |ss[k].threads| == |ss[0].threads| > ss[k].lastStolen
    ensures NoSteal(acts, 0, k) ==> ss[k].lastStolen == 0
    ensures forall j: nat :: LastSteal(acts, j, k) ==> Enabled(ss[j], Steal) && ss[k].lastStolen == ss[j].Victim()
  {
    hide *;
    RunBegins(d, ss, acts);
    if k == 0 {
      InitialScan(d, ss[0], acts);
    } else {
      RunGoesOn(d, ss, acts, k - 1);
      LastStolen(d, ss, acts, k - 1);
      ScanStep(d, ss[k - 1], acts[k - 1]);
      LastStealStep(acts, k);
      if acts[k - 1].Steal? { VictimThread(ss[k - 1]); }
    }
  }

  lemma InitialScan(d: Data, s: State, acts: seq<Action>)
    requires Initial(d, s)
    ensures |s.threads| > 0 && s.lastStolen == 0 && forall j: nat :: !LastSteal(acts, j, 0)
  {
  }

  lemma VictimThread(s: State)
    requires Enabled(s, Steal)
    ensures s.scan.Scanning? && |s.threads| > 0 && s.Victim() < |s.threads|
  {
  }

  /** From state b + 1 to state k one thread is scanning, for the same round of victims. */
  ghost predicate OneScan(ss: seq<State>, acts: seq<Action>, b: nat, k: nat)
    requires k < |ss| && |ss| == |acts| + 1
  {
    && b < k && ss[k].scan.Scanning?
    && acts[b] == BeginScan(ss[k].scan.thief)
    && (forall i :: b < i < k ==> acts[i].Pass? || acts[i].Visit? || acts[i].Resume? || acts[i].Leave?)
    && (forall i :: b < i <= k ==>
          ss[i].scan.Scanning? && ss[i].scan.thief == ss[k].scan.thief && ss[i].lastStolen == ss[k].lastStolen)
    && ss[b + 1].scan.tried == 0
  }

  lemma ShorterScan(ss: seq<State>, acts: seq<Action>, b: nat, k: nat)
    requires k < |ss| && |ss| == |acts| + 1 && OneScan(ss, acts, b, k) && ss[k].scan.tried > 0
    ensures b < k - 1 && OneScan(ss, acts, b, k - 1) && !acts[k - 1].BeginScan?
    ensures ss[k].scan.Scanning? && ss[k - 1].scan.Scanning? && ss[k - 1].scan.thief == ss[k].scan.thief
    ensures ss[k - 1].lastStolen == ss[k].lastStolen
  {
  }

  lemma ScanStarts(ss: seq<State>, acts: seq<Action>, k: nat)
    requires 0 < k < |ss| && |ss| == |acts| + 1 && ss[k].scan.Scanning? && ss[k].scan.tried == 0
    requires acts[k - 1] == BeginScan(ss[k].scan.thief)
    ensures OneScan(ss, acts, k - 1, k)
  {
  }

  lemma ScanContinues(ss: seq<State>, acts: seq<Action>, b: nat, k: nat)
    requires k + 1 < |ss| && |ss| == |acts| + 1 && OneScan(ss, acts, b, k)
    requires ss[k + 1].scan.Scanning? && ss[k + 1].scan.thief == ss[k].scan.thief
    requires ss[k + 1].lastStolen == ss[k].lastStolen
    requires acts[k].Pass? || acts[k].Visit? || acts[k].Resume? || acts[k].Leave?
    ensures OneScan(ss, acts, b, k + 1)
  {
  }

  lemma {:induction false} ScanBegins(d: Data, ss: seq<State>, acts: seq<Action>, k: nat) returns (b: nat)
    requires Run(d, ss, acts) && k < |ss| && ss[k].scan.Scanning?
    ensures OneScan(ss, acts, b, k)
  {
    hide *;
    RunBegins(d, ss, acts);
    if k == 0 { NoScanYet(d, ss[0]); }
    RunGoesOn(d, ss, acts, k - 1);
    ScanStep(d, ss[k - 1], acts[k - 1]);
    if ss[k - 1].scan.Scanning? {
      b := ScanBegins(d, ss, acts, k - 1);
      ScanContinues(ss, acts, b, k - 1);
    } else {
      b := k - 1;
      ScanStarts(ss, acts, k);
    }
  }

  lemma NoScanYet(d: Data, s: State)
    requires Initial(d, s)
    ensures s.scan == NoScan
  {
  }

  /** The probe number m of a scan that has come further: nothing was found. */
  lemma {:induction false} ProbeAt(d: Data, ss: seq<State>, acts: seq<Action>, b: nat, k: nat, m: nat)
    returns (j: nat)
    requires Run(d, ss, acts) && k < |ss| && OneScan(ss, acts, b, k) && m < ss[k].scan.tried
    ensures b < j < k && acts[j] == Pass && ss[j].scan == Scanning(ss[k].scan.thief, m)
    ensures ss[j].lastStolen == ss[k].lastStolen
  {
    hide *;
    RunBegins(d, ss, acts);
    ShorterScan(ss, acts, b, k);
    RunGoesOn(d, ss, acts, k - 1);
    ScanStep(d, ss[k - 1], acts[k - 1]);
    if ss[k - 1].scan.tried == m {
      j := k - 1;
    } else {
      j := ProbeAt(d, ss, acts, b, k - 1, m);
    }
  }

  /** There is nothing to take from this thread. */
  ghost predicate NothingToRob(th: Thread) {
    th.status == Running ==> forall l :: 0 <= l < |th.frames| ==> th.frames[l].ub - th.frames[l].i <= 2
  }

  lemma PassMeans(s: State)
    requires Enabled(s, Pass)
    ensures |s.threads| > 0 && s.scan.Scanning? && s.Victim() < |s.threads|
    ensures s.Victim() == s.scan.thief || NothingToRob(s.threads[s.Victim()])
  {
  }

  lemma GiveUpMeans(s: State)
    requires Enabled(s, GiveUp)
    ensures s.scan.Scanning? && s.scan.tried == |s.threads|
  {
  }

  /** A thread gives up only after it has probed every other thread since it began to scan, and each of them had
      nothing to take when it was probed. */
  lemma GivesUp(d: Data, ss: seq<State>, acts: seq<Action>, k: nat, v: nat) returns (b: nat, j: nat)
    requires Run(d, ss, acts) && k < |acts| && acts[k] == GiveUp
    requires v < |ss[k].threads| && ss[k].scan.Scanning? && v != ss[k].scan.thief
    ensures OneScan(ss, acts, b, k) && b < j < k && acts[j] == Pass
    ensures v < |ss[j].threads| && ss[j].Victim() == v && NothingToRob(ss[j].threads[v])
  {
    hide Run, Enabled, Apply, OneScan, NothingToRob;
    RunGoesOn(d, ss, acts, k);
    GiveUpMeans(ss[k]);
    LastStolen(d, ss, acts, k);
    b := ScanBegins(d, ss, acts, k);
    var m := EveryVictimOnce(ss[k], ss[k].scan.thief, v);
    j := ProbeAt(d, ss, acts, b, k, m);
    RunGoesOn(d, ss, acts, j);
    LastStolen(d, ss, acts, j);
    PassMeans(ss[j]);
  }

  /** Only giving up finishes a thread. */
  lemma {:induction false} FinishedBy(d: Data, ss: seq<State>, acts: seq<Action>, k: nat, t: nat) returns (g: nat)
    requires Run(d, ss, acts) && k < |ss| && t < |ss[k].threads| && ss[k].threads[t].status == Finished
    ensures g < k && acts[g] == GiveUp && ss[g].scan.Scanning? && ss[g].scan.thief == t
  {
    hide *;
    RunBegins(d, ss, acts);
    if k == 0 { NoneFinished(d, ss[0]); }
    RunGoesOn(d, ss, acts, k - 1);
    FinishStep(d, ss[k - 1], acts[k - 1], t);
    if t < |ss[k - 1].threads| && ss[k - 1].threads[t].status == Finished {
      g := FinishedBy(d, ss, acts, k - 1, t);
    } else {
      g := k - 1;
    }
  }

  lemma NoneFinished(d: Data, s: State)
    requires Initial(d, s)
    ensures forall t :: 0 <= t < |s.threads| ==> s.threads[t].status != Finished
  {
  }

  lemma FinishStep(d: Data, s: State, a: Action, t: nat)
    requires AllValid(s.threads) && Enabled(s, a) && t < |Apply(d, s, a).threads|
    requires Apply(d, s, a).threads[t].status == Finished
    ensures t < |s.threads|
    ensures s.threads[t].status == Finished || (a == GiveUp && s.scan.Scanning? && s.scan.thief == t)
  {
    hide StealLevel, Thread.Valid, VisitFrame;
  }

  /** Whatever the interleaving: a finished thread has, in one scan of its own, met every other thread with nothing
      to take. */
  lemma FinishedAfterScan(d: Data, ss: seq<State>, acts: seq<Action>, k: nat, t: nat, v: nat)
    returns (b: nat, j: nat, g: nat)
    requires Run(d, ss, acts) && k < |ss| && t < |ss[k].threads| && ss[k].threads[t].status == Finished
    requires v < |ss[k].threads| && v != t
    ensures b < j < g < k && acts[b] == BeginScan(t) && acts[g] == GiveUp && OneScan(ss, acts, b, g)
    ensures acts[j] == Pass && v < |ss[j].threads| && ss[j].Victim() == v && NothingToRob(ss[j].threads[v])
  {
    hide Run;
    g := FinishedBy(d, ss, acts, k, t);
    LastStolen(d, ss, acts, k);
    LastStolen(d, ss, acts, g);
    RunBegins(d, ss, acts);
    b, j := GivesUp(d, ss, acts, g, v);
  }
}
