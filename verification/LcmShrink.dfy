/** LCM's TRSACT_shrink: identical transactions are found by bucket sort over linked chains in reusable
    work arrays, their multiplicities are added up in place, and the array is compacted. */
module LcmShrink {
  import opened Basics
  import opened LcmBuckets
  import opened LcmLinks

  /** The work arrays, allocated once and handed from call to call with all bucket heads at -1. */
  class Workspace {
    const end: nat
    const capacity: nat
    const p: array<int>
    const pp: array<int>
    const q: array<int>
    const qq: array<int>
    const jq: array<nat>
    const jqq: array<nat>

    ghost predicate Sized() {
      && p.Length == pp.Length == jq.Length == jqq.Length == end + 1
      && q.Length == qq.Length == 2 * capacity
      && p != pp && p != q && p != qq && pp != q && pp != qq && q != qq && jq != jqq
    }

    /** No bucket has a chain. */
    ghost predicate Clean()
      reads p, pp
    {
      Sized() && NoHeads(p[..]) && NoHeads(pp[..])
    }

    constructor (end: nat, capacity: nat)
      ensures Clean() && this.end == end && this.capacity == capacity
      ensures fresh(p) && fresh(pp) && fresh(q) && fresh(qq) && fresh(jq) && fresh(jqq)
    {
      this.end, this.capacity := end, capacity;
      p := new int[end + 1](_ => -1);
      pp := new int[end + 1](_ => -1);
      q := new int[2 * capacity];
      qq := new int[2 * capacity];
      jq := new nat[end + 1];
      jqq := new nat[end + 1];
    }
  }

  predicate NoHeads(p: seq<int>) {
    forall i :: 0 <= i < |p| ==> p[i] == -1
  }

  /** Puts t at the head of bucket i, and the bucket on the stack if it was empty. */
  method PushTo(p: array<int>, q: array<int>, jq: array<nat>, jt: nat, i: nat, t: nat, vv: nat, ghost next: Chains)
    returns (top: nat)
    requires p != q && jt <= jq.Length == |next.b| && i < |next.b| && t < |next.g|
    requires Linked(p[..], q[..], next, {}) && Queued(jq[..jt], next, {})
    requires forall i' :: 0 <= i' < |next.b| ==> t !in next.b[i']
    modifies p, q, jq
    ensures Linked(p[..], q[..], Push(next, i, t, vv), {})
    ensures top <= jq.Length && Queued(jq[..top], Push(next, i, t, vv), {})
  {
    ghost var p0, q0, s := p[..], q[..], jq[..jt];
    QueuePush(s, next, i, t, vv);
    LinkPush(p0, q0, next, i, t, vv);
    assert p[i] == HeadOf(next.b[i]) && |p0| == |next.b| && 2 * t + 1 < q.Length;
    hide *;
    top := jt;
    if p[i] == -1 {
      jq[top] := i;
      top := top + 1;
      assert jq[..top] == s + [i];
    }
    q[t * 2] := p[i];
    p[i] := t;
    q[t * 2 + 1] := vv;
    assert p[..] == p0[i := t];
    assert q[..] == Write(q0, t, p0[i], vv);
  }

  /** Reads the entry of a member, and opens a new run where the group changes. */
  method Inspect(qq: array<int>, t: nat, v0: int, vv0: nat, ghost g: seq<nat>, ghost c: seq<nat>, ghost k: nat)
    returns (tt: int, v: int, vv: nat, alone: bool)
    requires Threaded(qq[..], g, c) && k < |c| && t == c[k]
    ensures tt == At(c, k + 1) && t < |g| && v == g[t] && vv == if v0 != g[t] then t else vv0
    ensures alone <==> v0 != g[t] && (k + 1 < |c| ==> c[k + 1] < |g| && g[c[k + 1]] != g[t])
  {
    ReadEntry(qq[..], g, c, k);
    tt, v, vv, alone := qq[t * 2], v0, vv0, false;
    if v != qq[t * 2 + 1] {
      v := qq[t * 2 + 1];
      vv := t;
      alone := tt < 0 || qq[tt * 2 + 1] != v;
    }
  }

  /** One member of a chain: pushed to the bucket of its next item unless it is alone in its run. */
  method DealMember(h: array<Queue>, p: array<int>, q: array<int>, qq: array<int>, jq: array<nat>, jt: nat, j: nat,
                    t: nat,
                    v0: int, vv0: nat, ghost lists: seq<seq<nat>>, ghost end: nat, ghost ch: Chains,
                        ghost done: set<nat>,
                    ghost cur: nat, ghost k: nat, ghost next0: Chains)
    returns (tt: int, v: int, vv: nat, top: nat, ghost next: Chains)
    requires p != q && qq != p && qq != q && jt <= jq.Length == |next0.b| == end + 1 == |ch.b| && cur < end
    requires Holding(h, lists) && k < |ch.b[cur]| && t == ch.b[cur][k]
    requires DealOk(lists, end, j, ch, done, cur, k, next0) && RunState(lists, j, ch, ch.b[cur], k, v0, vv0, next0)
    requires Threaded(qq[..], ch.g, ch.b[cur])
    requires Linked(p[..], q[..], next0, {}) && Queued(jq[..jt], next0, {})
    modifies p, q, jq
    ensures tt == At(ch.b[cur], k + 1) && |next.b| == end + 1
    ensures DealOk(lists, end, j, ch, done, cur, k + 1, next) && RunState(lists, j, ch, ch.b[cur], k + 1, v, vv, next)
    ensures Linked(p[..], q[..], next, {}) && top <= jq.Length && Queued(jq[..top], next, {})
  {
    hide *;
    var alone;
    tt, v, vv, alone := Inspect(qq, t, v0, vv0, ch.g, ch.b[cur], k);
    EnterMember(lists, end, j, ch, done, cur, k, next0, v0, vv0);
    top, next := jt, next0;
    if alone {
      DropMember(lists, end, j, ch, done, cur, k, next0, v0, vv0);
    } else {
      KeepMember(lists, end, j, ch, done, cur, k, next0, t, vv);
      HeldItem(h, lists, t);
      var i := h[t].q[j];
      PushSize(next0, i, t, vv);
      top := PushTo(p, q, jq, jt, i, t, vv, next0);
      next := Push(next0, i, t, vv);
    }
  }

  /** Deals the chain of bucket cur to the buckets of the next round, leaving out members that are alone
      in their run. */
  method DealChain(h: array<Queue>, p: array<int>, q: array<int>, qq: array<int>, jq: array<nat>, jt: nat, j: nat,
                   first: int,
                   ghost lists: seq<seq<nat>>, ghost end: nat, ghost ch: Chains, ghost done: set<nat>,
                       ghost cur: nat, ghost next0: Chains)
    returns (top: nat, ghost next: Chains)
    requires p != q && qq != p && qq != q && jt <= jq.Length == |next0.b| == end + 1 == |ch.b| && cur < end
    requires Holding(h, lists) && DealOk(lists, end, j, ch, done, cur, 0, next0)
    requires Threaded(qq[..], ch.g, ch.b[cur]) && first == At(ch.b[cur], 0)
    requires Linked(p[..], q[..], next0, {}) && Queued(jq[..jt], next0, {})
    modifies p, q, jq
    ensures DealOk(lists, end, j, ch, done, cur, |ch.b[cur]|, next) && |next.b| == end + 1
    ensures Linked(p[..], q[..], next, {}) && top <= jq.Length && Queued(jq[..top], next, {})
  {
    hide DealOk, RunState, Linked, Queued, Threaded, Holding;
    var t, v := first, -1;
    var vv: nat := 0;
    top, next := jt, next0;
    ghost var c := ch.b[cur];
    ghost var k: nat := 0;
    RunFirst(lists, j, ch, c, next);
    while t >= 0
      invariant k <= |c| && t == At(c, k) && |next.b| == end + 1 && top <= jq.Length
      invariant DealOk(lists, end, j, ch, done, cur, k, next) && RunState(lists, j, ch, c, k, v, vv, next)
      invariant Linked(p[..], q[..], next, {}) && Queued(jq[..top], next, {})
      invariant Threaded(qq[..], ch.g, c)
      decreases |c| - k
    {
      var tt;
      tt, v, vv, top, next := DealMember(h, p, q, qq, jq, top, j, t, v, vv, lists, end, ch, done, cur, k, next);
      t := tt;
      k := k + 1;
    }
  }

  lemma PushSize(next: Chains, i: nat, t: nat, vv: nat)
    requires i < |next.b| && t < |next.g|
    ensures |Push(next, i, t, vv).b| == |next.b|
  {
  }

  lemma HeldItem(h: array<Queue>, lists: seq<seq<nat>>, t: nat)
    requires Holding(h, lists) && t < |lists|
    ensures t < h.Length && h[t].q == lists[t]
  {
  }

  /** One round: all chains but that of the end mark are dealt, in stack order. */
  method DealRound(h: array<Queue>, p: array<int>, pp: array<int>, q: array<int>, qq: array<int>,
                   jq: array<nat>, jqq: array<nat>, top0: nat, j: nat, end: nat, ghost lists: seq<seq<nat>>,
                       ghost ch: Chains)
    returns (jt: nat, ghost next: Chains)
    requires p != pp && p != q && p != qq && pp != q && pp != qq && q != qq && jq != jqq
    requires p.Length == jq.Length == end + 1 == |ch.b| && top0 <= jqq.Length && q.Length >= 2 * |lists|
    requires Holding(h, lists) && Marked(lists, end) && RoundOk(lists, end, j, ch) && NoHeads(p[..])
    requires Linked(pp[..], qq[..], ch, {}) && Queued(jqq[..top0], ch, {})
    modifies p, q, pp, jq
    ensures RoundOk(lists, end, j + 1, next) && |next.b| == end + 1
    ensures Linked(p[..], q[..], next, {}) && jt <= jq.Length && Queued(jq[..jt], next, {})
    ensures OnlyEnd(pp[..], end, ch)
  {
    hide *;
    var jtt: nat := top0;
    jt, next := 0, Empty(end, |lists|);
    ghost var done: set<nat>, popped: set<nat> := {}, {};
    RoundBegins(p[..], q[..], lists, end, j, ch);
    while jtt > 0
      invariant jtt <= jqq.Length && jt <= jq.Length && |next.b| == end + 1 && done == popped - {end}
      invariant DealOk(lists, end, j, ch, done, end, 0, next)
      invariant Linked(pp[..], qq[..], ch, done) && Queued(jqq[..jtt], ch, popped)
      invariant Linked(p[..], q[..], next, {}) && Queued(jq[..jt], next, {})
    {
      ghost var s := jqq[..jtt];
      QueuePop(s, ch, popped);
      jtt := jtt - 1;
      assert jqq[..jtt] == s[..|s| - 1];
      var item := jqq[jtt];
      if item != end {
        StillWaiting(ch, popped, done, end, item);
        var t := TakeChain(pp, qq, item, ch, done);
        DealPick(lists, end, j, ch, done, item, next);
        jt, next := DealChain(h, p, q, qq, jq, jt, j, t, lists, end, ch, done, item, next);
        DealBucket(lists, end, j, ch, done, item, next);
        done := done + {item};
      }
      popped := popped + {item};
    }
    RoundEnds(pp[..], qq[..], lists, end, j, ch, done, popped, next);
  }

  /** Unhooks the chain of a bucket. */
  method TakeChain(pp: array<int>, qq: array<int>, item: nat, ghost ch: Chains, ghost done: set<nat>) returns (t: int)
    requires pp != qq && Linked(pp[..], qq[..], ch, done) && Waiting(ch, done, item)
    modifies pp
    ensures Linked(pp[..], qq[..], ch, done + {item})
    ensures t == At(ch.b[item], 0) && Threaded(qq[..], ch.g, ch.b[item])
  {
    t := pp[item];
    pp[item] := -1;
  }

  /** Only the end mark's bucket may still have a chain. */
  ghost predicate OnlyEnd(pp: seq<int>, end: nat, ch: Chains) {
    |pp| == end + 1 == |ch.b| && pp[end] == HeadOf(ch.b[end]) && forall i :: 0 <= i < end ==> pp[i] == -1
  }

  lemma StillWaiting(ch: Chains, popped: set<nat>, done: set<nat>, end: nat, i: nat)
    requires Waiting(ch, popped, i) && done == popped - {end} && i != end && |ch.b| == end + 1
    ensures Waiting(ch, done, i) && i < end && i !in done
  {
  }

  lemma RoundBegins(p: seq<int>, q: seq<int>, lists: seq<seq<nat>>, end: nat, j: nat, ch: Chains)
    requires RoundOk(lists, end, j, ch) && Marked(lists, end)
    requires |p| == end + 1 && |q| >= 2 * |lists| && NoHeads(p)
    ensures DealOk(lists, end, j, ch, {}, end, 0, Empty(end, |lists|))
    ensures Linked(p, q, Empty(end, |lists|), {}) && Queued([], Empty(end, |lists|), {}) &&
            |Empty(end, |lists|).b| == end + 1
  {
    DealStart(lists, end, j, ch, Empty(end, |lists|));
    LinkEmpty(p, q, end, |lists|);
  }

  lemma RoundEnds(pp: seq<int>, qq: seq<int>, lists: seq<seq<nat>>, end: nat, j: nat, ch: Chains, done: set<nat>,
                  popped: set<nat>, next: Chains)
    requires DealOk(lists, end, j, ch, done, end, 0, next) && done == popped - {end} && |ch.b| == end + 1
    requires Linked(pp, qq, ch, done) && Queued([], ch, popped)
    ensures RoundOk(lists, end, j + 1, next) && OnlyEnd(pp, end, ch)
  {
    forall i: nat | i <= end && ch.b[i] != [] ensures i in popped {
      assert !Waiting(ch, popped, i);
    }
    LcmBuckets.DealRound(lists, end, j, ch, done, next);
  }

  // ---------------------------------------------------------------------------------------
  // Merging
  // ---------------------------------------------------------------------------------------

  /** Adds up the multiplicities along the end mark's chain: all of a run goes to its first member. */
  method MergeEnds(h: array<Queue>, pp: array<int>, qq: array<int>, j: nat, end: nat,
                   ghost h0: seq<Queue>, ghost lists: seq<seq<nat>>, ghost ch: Chains)
    requires pp != qq && |lists| <= h.Length && Lists(h0) == lists && SameTotals(h0, h[..|lists|], j)
    requires RoundOk(lists, end, j, ch) && Marked(lists, end) && OnlyEnd(pp[..], end, ch)
    requires Threaded(qq[..], ch.g, ch.b[end])
    modifies h, pp
    ensures SameTotals(h0, h[..|lists|], j + 1) && NoHeads(pp[..])
  {
    hide Lists, SameTotals, RoundOk, Marked, OnlyEnd, Threaded, NoHeads, RunsMerged, RunEnded;
    var tt := TakeEnd(pp, end, ch);
    ghost var c := ch.b[end];
    ghost var k: nat := 0;
    EndChain(lists, end, j, ch, h[..|lists|]);
    while tt >= 0
      invariant tt == At(c, k) && k <= |c| && Threaded(qq[..], ch.g, c) && NoHeads(pp[..])
      invariant SameTotals(h0, h[..|lists|], j) && RunsMerged(h[..|lists|], ch.g, c, k) && RunEnded(ch.g, c, k)
      decreases |c| - k
    {
      tt, k := MergeRun(h, qq, tt, j, end, h0, lists, ch, k);
    }
    AllTotals(h0, h[..|lists|], lists, end, j, ch);
  }

  method TakeEnd(pp: array<int>, end: nat, ghost ch: Chains) returns (tt: int)
    requires OnlyEnd(pp[..], end, ch)
    modifies pp
    ensures |ch.b| == end + 1 && tt == At(ch.b[end], 0) && NoHeads(pp[..])
  {
    tt := pp[end];
    pp[end] := -1;
  }

  /** One run of the chain. */
  method MergeRun(h: array<Queue>, qq: array<int>, t: nat, j: nat, end: nat,
                  ghost h0: seq<Queue>, ghost lists: seq<seq<nat>>, ghost ch: Chains, ghost k0: nat)
    returns (tt: int, ghost k: nat)
    requires |lists| <= h.Length && Lists(h0) == lists && SameTotals(h0, h[..|lists|], j) && |ch.b| == end + 1
    requires RoundOk(lists, end, j, ch) && Marked(lists, end) && Threaded(qq[..], ch.g, ch.b[end])
    requires k0 < |ch.b[end]| && t == ch.b[end][k0]
    requires RunsMerged(h[..|lists|], ch.g, ch.b[end], k0) && RunEnded(ch.g, ch.b[end], k0)
    modifies h
    ensures k0 < k <= |ch.b[end]| && tt == At(ch.b[end], k) && SameTotals(h0, h[..|lists|], j)
    ensures RunsMerged(h[..|lists|], ch.g, ch.b[end], k) && RunEnded(ch.g, ch.b[end], k)
  {
    hide Lists, SameTotals, RoundOk, Marked, Threaded, RunsMerged, NoRepeat;
    ghost var c, g := ch.b[end], ch.g;
    ReadEntry(qq[..], g, c, k0);
    var v := qq[t * 2 + 1];
    tt := qq[t * 2];
    k := k0 + 1;
    RunFirstOpen(h[..|lists|], g, c, k0);
    while tt >= 0 && qq[tt * 2 + 1] == v
      invariant k0 < k <= |c| && tt == At(c, k) && SameTotals(h0, h[..|lists|], j)
      invariant RunsMerged(h[..|lists|], g, c, k) && c[k - 1] < |g| && v == g[c[k - 1]] == g[c[k0]]
      invariant k < |c| ==> c[k] < |g| && 2 * c[k] + 1 < qq.Length && qq[2 * c[k] + 1] == g[c[k]]
      invariant Threaded(qq[..], g, c)
      decreases |c| - k
    {
      ReadEntry(qq[..], g, c, k);
      MergePair(h, t, tt, j, end, h0, lists, ch, k0, k);
      tt := qq[tt * 2];
      k := k + 1;
    }
  }

  /** Moves the multiplicity of a later member of a run to the first. */
  method MergePair(h: array<Queue>, t: nat, tt: nat, j: nat, end: nat,
                   ghost h0: seq<Queue>, ghost lists: seq<seq<nat>>, ghost ch: Chains, ghost r: nat, ghost k: nat)
    requires |lists| <= h.Length && Lists(h0) == lists && SameTotals(h0, h[..|lists|], j) && |ch.b| == end + 1
    requires RoundOk(lists, end, j, ch) && Marked(lists, end) && r < k < |ch.b[end]| && t == ch.b[end][r] &&
             tt == ch.b[end][k]
    requires RunsMerged(h[..|lists|], ch.g, ch.b[end], k) && RunEnded(ch.g, ch.b[end], r)
    requires t < |ch.g| && tt < |ch.g| && ch.g[t] == ch.g[tt]
    modifies h
    ensures SameTotals(h0, h[..|lists|], j) && RunsMerged(h[..|lists|], ch.g, ch.b[end], k + 1)
  {
    hide *;
    ghost var hs := h[..|lists|];
    EndRun(lists, end, j, ch, r, k);
    MergeStep(h0, hs, lists, end, j, ch, r, k);
    h[t] := Queue(h[t].q, h[t].end + h[tt].end);
    h[tt] := Queue(h[tt].q, 0);
    MergeIs(hs, h[..|lists|], t, tt);
  }

  lemma MergeIs(h: seq<Queue>, h2: seq<Queue>, t: nat, u: nat)
    requires t < |h| == |h2| && u < |h| && t != u
    requires h2[t] == Queue(h[t].q, h[t].end + h[u].end) && h2[u] == Queue(h[u].q, 0)
    requires forall k :: 0 <= k < |h| && k != t && k != u ==> h2[k] == h[k]
    ensures h2 == Merge(h, t, u)
  {
  }

  lemma RunFirstOpen(h: seq<Queue>, g: seq<nat>, c: seq<nat>, k: nat)
    requires RunsMerged(h, g, c, k) && k < |c| && RunEnded(g, c, k)
    ensures RunsMerged(h, g, c, k + 1)
  {
    RunOpen(h, g, c, k);
  }

  lemma MergeStep(h0: seq<Queue>, h: seq<Queue>, lists: seq<seq<nat>>, end: nat, j: nat, ch: Chains, r: nat, k: nat)
    requires Lists(h0) == lists && |h| == |lists| && SameTotals(h0, h, j) && |ch.b| == end + 1
    requires RoundOk(lists, end, j, ch) && Marked(lists, end) && RunsMerged(h, ch.g, ch.b[end], k) &&
             r < k < |ch.b[end]|
    requires RunEnded(ch.g, ch.b[end], r) && ch.b[end][r] < |ch.g| && ch.b[end][k] < |ch.g|
    requires ch.g[ch.b[end][r]] == ch.g[ch.b[end][k]]
    ensures ch.b[end][r] < |h| && ch.b[end][k] < |h|
    ensures SameTotals(h0, Merge(h, ch.b[end][r], ch.b[end][k]), j)
    ensures RunsMerged(Merge(h, ch.b[end][r], ch.b[end][k]), ch.g, ch.b[end], k + 1)
  {
    var c := ch.b[end];
    EndRun(lists, end, j, ch, r, k);
    assert Lists(h) == lists && h[c[r]].q == lists[c[r]] && h[c[k]].q == lists[c[k]] && NoRepeat(c);
    hide RoundOk, Marked, Lists, SameTotals;
    RunMerge(h, ch.g, c, r, k);
    SameTotalsMerge(h0, h, j, c[r], c[k]);
  }

  ghost predicate RunEnded(g: seq<nat>, c: seq<nat>, k: nat) {
    k <= |c| && (0 < k < |c| ==> c[k - 1] < |g| && c[k] < |g| && g[c[k - 1]] != g[c[k]])
  }

  lemma EndChain(lists: seq<seq<nat>>, end: nat, j: nat, ch: Chains, h: seq<Queue>)
    requires RoundOk(lists, end, j, ch) && |h| == |lists|
    ensures RunsMerged(h, ch.g, ch.b[end], 0) && RunEnded(ch.g, ch.b[end], 0) && NoRepeat(ch.b[end])
  {
    assert InRuns(ch.b[end], ch.g);
  }

  lemma AllTotals(h0: seq<Queue>, h: seq<Queue>, lists: seq<seq<nat>>, end: nat, j: nat, ch: Chains)
    requires RoundOk(lists, end, j, ch) && Marked(lists, end) && Lists(h0) == lists
    requires SameTotals(h0, h, j) && RunsMerged(h, ch.g, ch.b[end], |ch.b[end]|)
    ensures SameTotals(h0, h, j + 1)
  {
    AllMerged(h, lists, end, j, ch);
  }

  /** Puts all transactions into the buckets of their first items. */
  method FirstDeal(h: array<Queue>, num: nat, pp: array<int>, qq: array<int>, jqq: array<nat>, end: nat,
                   ghost lists: seq<seq<nat>>)
    returns (jtt: nat, ghost ch: Chains)
    requires pp != qq && num == |lists| && Holding(h, lists) && Marked(lists, end)
    requires pp.Length == jqq.Length == end + 1 && qq.Length >= 2 * num && NoHeads(pp[..])
    modifies pp, qq, jqq
    ensures RoundOk(lists, end, 1, ch) && |ch.b| == end + 1
    ensures Linked(pp[..], qq[..], ch, {}) && jtt <= jqq.Length && Queued(jqq[..jtt], ch, {})
  {
    jtt, ch := 0, Empty(end, num);
    FirstNone(lists, end);
    LinkEmpty(pp[..], qq[..], end, num);
    assert jqq[..0] == [] && |ch.b| == end + 1;
    hide *;
    for t := 0 to num
      invariant FirstOk(lists, end, ch, t) && |ch.b| == end + 1 && jtt <= jqq.Length
      invariant Linked(pp[..], qq[..], ch, {}) && Queued(jqq[..jtt], ch, {})
    {
      FirstPush(lists, end, ch, t);
      HeldItem(h, lists, t);
      var ii := h[t].q[0];
      PushSize(ch, ii, t, 0);
      jtt := PushTo(pp, qq, jqq, jtt, ii, t, 0, ch);
      ch := Push(ch, ii, t, 0);
    }
    FirstAll(lists, end, ch);
  }

  /** Moves the transactions that kept a multiplicity to the front. */
  method Compact(h: array<Queue>, num: nat) returns (j: nat)
    requires num <= h.Length
    modifies h
    ensures j <= num && h[..j] == Survivors(old(h[..num]))
  {
    ghost var h0 := h[..num];
    j := 0;
    assert h0[..0] == [];
    for t := 0 to num
      invariant j <= t && h[..j] == Survivors(h0[..t])
      invariant forall k :: t <= k < num ==> h[k] == h0[k]
    {
      SurvivorsSnoc(h0, t);
      hide Survivors;
      if h[t].end > 0 {
        if t != j { h[j] := h[t]; }
        j := j + 1;
        assert h[..j] == h[..j - 1] + [h0[t]];
      }
    }
    assert h0[..num] == h0;
  }

  lemma SurvivorsSnoc(h: seq<Queue>, t: nat)
    requires t < |h|
    ensures Survivors(h[..t + 1]) == Survivors(h[..t]) + if h[t].end > 0 then [h[t]] else []
  {
    assert h[..t + 1][..t] == h[..t];
  }

  /** Merges identical transactions: for every list the total multiplicity stays the same, no two of the
      remaining transactions have the same list, and the work arrays are as clean as before. */
  method Shrink(h: array<Queue>, num: nat, w: Workspace) returns (left: nat)
    requires num <= h.Length && num <= w.capacity && w.Clean() && Marked(Lists(h[..num]), w.end)
    modifies h, w.p, w.pp, w.q, w.qq, w.jq, w.jqq
    ensures w.Clean() && left <= num
    ensures forall x :: Sum(h[..left], x) == Sum(old(h[..num]), x)
    ensures forall t :: 0 <= t < left ==> h[t].end > 0
    ensures forall t, u :: 0 <= t < u < left ==> h[t].q != h[u].q
  {
    ghost var h0, lists := h[..num], Lists(h[..num]);
    MergeAll(h, num, w, h0, lists);
    ghost var h1 := h[..num];
    left := Compact(h, num);
    Compacted(h0, h1, h[..left]);
  }

  lemma Compacted(h0: seq<Queue>, h1: seq<Queue>, r: seq<Queue>)
    requires (forall x :: Sum(h1, x) == Sum(h0, x)) && r == Survivors(h1)
    requires Merged(h1)
    ensures forall x :: Sum(r, x) == Sum(h0, x)
    ensures forall t :: 0 <= t < |r| ==> r[t].end > 0
    ensures forall t, u :: 0 <= t < u < |r| ==> r[t].q != r[u].q
  {
    forall x ensures Sum(r, x) == Sum(h0, x) { SurvivorsSum(h1, x); }
    forall t | 0 <= t < |r| ensures r[t].end > 0 { var _ := SurvivorsOf(h1, t); }
    forall t, u | 0 <= t < u < |r| ensures r[t].q != r[u].q { SurvivorsDistinct(h1, t, u); }
  }

  /** All rounds: the two halves of the work space change roles after each of them. */
  method MergeAll(h: array<Queue>, num: nat, w: Workspace, ghost h0: seq<Queue>, ghost lists: seq<seq<nat>>)
    requires num <= h.Length && num <= w.capacity && w.Clean()
    requires h0 == h[..num] && lists == Lists(h0) && Marked(lists, w.end)
    modifies h, w.p, w.pp, w.q, w.qq, w.jq, w.jqq
    ensures w.Clean() && Lists(h[..num]) == lists && forall x :: Sum(h[..num], x) == Sum(h0, x)
    ensures Merged(h[..num])
  {
    hide Lists, Sum, Marked, RoundOk, Linked, Queued, OnlyEnd, SameTotals, MergedUpTo, MaxLen, Equal, NoHeads;
    var p, pp, q, qq, jq, jqq := w.p, w.pp, w.q, w.qq, w.jq, w.jqq;
    var j: nat, jtt: nat := 1, 0;
    ghost var ch;
    jtt, ch := FirstDeal(h, num, pp, qq, jqq, w.end, lists);
    TotalsBegin(h[..num], w.end);
    while jtt > 0
      invariant p != pp && p != q && p != qq && pp != q && pp != qq && q != qq && jq != jqq
      invariant {p, pp} == {w.p, w.pp} && {q, qq} == {w.q, w.qq} && {jq, jqq} == {w.jq, w.jqq}
      invariant SameTotals(h0, h[..num], j) && RoundOk(lists, w.end, j, ch) && NoHeads(p[..]) && |ch.b| == w.end + 1
      invariant Linked(pp[..], qq[..], ch, {}) && jtt <= jqq.Length && Queued(jqq[..jtt], ch, {})
      decreases MaxLen(lists) + 1 - j
    {
      RoundBound(jqq[..jtt], lists, w.end, j, ch);
      jtt, ch := Round(h, p, pp, q, qq, jq, jqq, jtt, j, w.end, h0, lists, ch);
      p, pp, q, qq, jq, jqq := pp, p, qq, q, jqq, jq;
      j := j + 1;
    }
    AllClean(pp[..], qq[..], h0, h[..num], lists, w.end, j, ch);
  }

  method Round(h: array<Queue>, p: array<int>, pp: array<int>, q: array<int>, qq: array<int>,
               jq: array<nat>, jqq: array<nat>, jtt: nat, j: nat, end: nat,
               ghost h0: seq<Queue>, ghost lists: seq<seq<nat>>, ghost ch: Chains)
    returns (jt: nat, ghost next: Chains)
    requires p != pp && p != q && p != qq && pp != q && pp != qq && q != qq && jq != jqq
    requires p.Length == jq.Length == end + 1 == |ch.b| && jtt <= jqq.Length && q.Length >= 2 * |lists|
    requires |lists| <= h.Length && Lists(h0) == lists && SameTotals(h0, h[..|lists|], j) && Marked(lists, end)
    requires RoundOk(lists, end, j, ch) && NoHeads(p[..])
    requires Linked(pp[..], qq[..], ch, {}) && Queued(jqq[..jtt], ch, {})
    modifies h, p, pp, q, jq
    ensures SameTotals(h0, h[..|lists|], j + 1) && RoundOk(lists, end, j + 1, next) && NoHeads(pp[..]) &&
            |next.b| == end + 1
    ensures Linked(p[..], q[..], next, {}) && jt <= jq.Length && Queued(jq[..jt], next, {})
  {
    TotalsHold(h, h0, lists, j);
    ThreadOfEnd(pp[..], qq[..], ch, end);
    hide *;
    jt, next := DealRound(h, p, pp, q, qq, jq, jqq, jtt, j, end, lists, ch);
    MergeEnds(h, pp, qq, j, end, h0, lists, ch);
  }

  lemma TotalsBegin(h: seq<Queue>, end: nat)
    requires Marked(Lists(h), end)
    ensures SameTotals(h, h, 1)
  {
    forall t: nat, u: nat | Equal(Lists(h), t, u) ensures |h[t].q| >= 1 { assert MarkedList(Lists(h)[t], end); }
  }

  lemma TotalsHold(h: array<Queue>, h0: seq<Queue>, lists: seq<seq<nat>>, j: nat)
    requires |lists| <= h.Length && Lists(h0) == lists && SameTotals(h0, h[..|lists|], j)
    ensures Holding(h, lists)
  {
    assert Lists(h[..|lists|]) == lists;
  }

  lemma ThreadOfEnd(pp: seq<int>, qq: seq<int>, ch: Chains, end: nat)
    requires Linked(pp, qq, ch, {}) && |ch.b| == end + 1
    ensures Threaded(qq, ch.g, ch.b[end])
  {
  }

  lemma AllClean(pp: seq<int>, qq: seq<int>, h0: seq<Queue>, h: seq<Queue>, lists: seq<seq<nat>>, end: nat, j: nat,
                 ch: Chains)
    requires RoundOk(lists, end, j, ch) && |ch.b| == end + 1 && Linked(pp, qq, ch, {}) && Queued([], ch, {})
    requires Lists(h0) == lists && SameTotals(h0, h, j)
    ensures NoHeads(pp) && Lists(h) == lists && forall x :: Sum(h, x) == Sum(h0, x)
    ensures Merged(h)
  {
    AllDone(h, lists, end, j, ch);
    forall i: nat | i <= end ensures ch.b[i] == [] { assert !Waiting(ch, {}, i); }
  }

  /** Of two equal transactions at most one has a multiplicity. */
  ghost predicate Merged(h: seq<Queue>) {
    forall t: nat, u: nat :: Equal(Lists(h), t, u) ==> h[t].end == 0 || h[u].end == 0
  }
}
