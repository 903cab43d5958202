/** The work arrays of LCM's merge: chains threaded through arrays of next pointers and group numbers,
    stacks of bucket numbers, and the multiplicities of lists. */
module LcmLinks {
  import opened Basics
  import opened LcmBuckets

  function HeadOf(c: seq<nat>): int {
    if c == [] then -1 else c[0]
  }

  function NextOf(c: seq<nat>, k: nat): int {
    if k + 1 < |c| then c[k + 1] else -1
  }

  /** The chain c runs through qq: next pointers at even places, group numbers at odd ones. */
  ghost predicate Threaded(qq: seq<int>, g: seq<nat>, c: seq<nat>) {
    forall k :: 0 <= k < |c| ==> Entry(qq, g, c[k], NextOf(c, k))
  }

  ghost predicate Entry(qq: seq<int>, g: seq<nat>, t: nat, next: int) {
    t < |g| && 2 * t + 1 < |qq| && qq[2 * t] == next && qq[2 * t + 1] == g[t]
  }

  function Write(qq: seq<int>, t: nat, next: int, group: int): seq<int>
    requires 2 * t + 1 < |qq|
  {
    qq[2 * t := next][2 * t + 1 := group]
  }

  /** pp holds the heads of the chains, and -1 for the buckets in done. */
  ghost predicate Linked(pp: seq<int>, qq: seq<int>, ch: Chains, done: set<nat>) {
    && |pp| == |ch.b| && |qq| >= 2 * |ch.g|
    && (forall i :: 0 <= i < |pp| ==> pp[i] == if i in done then -1 else HeadOf(ch.b[i]))
    && (forall i :: 0 <= i < |ch.b| ==> Threaded(qq, ch.g, ch.b[i]))
  }

  /** The stack s holds each nonempty bucket that has not been popped, once. */
  ghost predicate Queued(s: seq<nat>, ch: Chains, popped: set<nat>) {
    && NoRepeat(s)
    && forall i: nat :: i in s <==> Waiting(ch, popped, i)
  }

  ghost predicate Waiting(ch: Chains, popped: set<nat>, i: nat) {
    i < |ch.b| && ch.b[i] != [] && i !in popped
  }

  function Empty(end: nat, num: nat): Chains {
    Chains(seq(end + 1, _ => []), seq(num, _ => 0))
  }

  lemma LinkEmpty(p: seq<int>, q: seq<int>, end: nat, num: nat)
    requires |p| == end + 1 && |q| >= 2 * num && forall i :: 0 <= i <= end ==> p[i] == -1
    ensures Linked(p, q, Empty(end, num), {}) && Queued([], Empty(end, num), {})
  {
  }

  /** Writing t's entry and making it the head of bucket i. */
  lemma LinkPush(p: seq<int>, q: seq<int>, next: Chains, i: nat, t: nat, vv: nat)
    requires Linked(p, q, next, {}) && i < |next.b| && t < |next.g|
    requires forall i' :: 0 <= i' < |next.b| ==> t !in next.b[i']
    ensures Linked(p[i := t], Write(q, t, p[i], vv), Push(next, i, t, vv), {})
  {
    var q2, n2 := Write(q, t, p[i], vv), Push(next, i, t, vv);
    forall i' | 0 <= i' < |n2.b| ensures Threaded(q2, n2.g, n2.b[i']) {
      ThreadKeeps(q, next.g, next.b[i'], t, p[i], vv);
      if i' == i {
        ThreadPush(q, next.g, next.b[i], t, vv);
      }
    }
    hide Threaded, Write;
  }

  /** Writing the entry of t leaves the chains without t alone. */
  lemma ThreadKeeps(q: seq<int>, g: seq<nat>, c: seq<nat>, t: nat, next: int, vv: nat)
    requires Threaded(q, g, c) && t !in c && t < |g| && 2 * t + 1 < |q|
    ensures Threaded(Write(q, t, next, vv), g[t := vv], c)
  {
    forall k | 0 <= k < |c| ensures Entry(Write(q, t, next, vv), g[t := vv], c[k], NextOf(c, k)) {
      OtherEntry(q, g, t, next, vv, c[k], NextOf(c, k));
    }
  }

  lemma OtherEntry(q: seq<int>, g: seq<nat>, t: nat, next: int, vv: nat, x: nat, n: int)
    requires Entry(q, g, x, n) && x != t && t < |g| && 2 * t + 1 < |q|
    ensures Entry(Write(q, t, next, vv), g[t := vv], x, n)
  {
  }

  lemma ThreadPush(q: seq<int>, g: seq<nat>, c: seq<nat>, t: nat, vv: nat)
    requires Threaded(q, g, c) && t !in c && t < |g| && 2 * t + 1 < |q|
    ensures Threaded(Write(q, t, HeadOf(c), vv), g[t := vv], [t] + c)
  {
    var q2, g2, d := Write(q, t, HeadOf(c), vv), g[t := vv], [t] + c;
    ThreadKeeps(q, g, c, t, HeadOf(c), vv);
    assert Entry(q2, g2, t, NextOf(d, 0));
    forall k | 0 <= k < |d| ensures Entry(q2, g2, d[k], NextOf(d, k)) {
      hide Entry, Write;
      if k > 0 {
        assert d[k] == c[k - 1] && NextOf(d, k) == NextOf(c, k - 1);
      }
    }
  }

  /** The stack after bucket i got a new head. */
  lemma QueuePush(s: seq<nat>, next: Chains, i: nat, t: nat, vv: nat)
    requires Queued(s, next, {}) && i < |next.b| && t < |next.g|
    ensures next.b[i] == [] ==> Queued(s + [i], Push(next, i, t, vv), {}) && |s| < |next.b|
    ensures next.b[i] != [] ==> Queued(s, Push(next, i, t, vv), {})
  {
    var n2 := Push(next, i, t, vv);
    assert forall x: nat :: Waiting(n2, {}, x) <==> x == i || Waiting(next, {}, x);
    if next.b[i] == [] {
      assert !Waiting(next, {}, i);
      assert forall x :: x in s + [i] <==> x in s || x == i;
      assert forall k :: 0 <= k < |s + [i]| ==> (s + [i])[k] in s + [i];
      Pigeons(s + [i], |next.b|);
    } else {
      assert Waiting(next, {}, i);
    }
  }

  lemma QueuePop(s: seq<nat>, ch: Chains, popped: set<nat>)
    requires Queued(s, ch, popped) && |s| > 0
    ensures Waiting(ch, popped, s[|s| - 1])
    ensures Queued(s[..|s| - 1], ch, popped + {s[|s| - 1]})
  {
    var k := |s| - 1;
    assert s[k] in s;
    forall i: nat ensures i in s[..k] <==> Waiting(ch, popped + {s[k]}, i) {
      if i in s && i != s[k] {
        var l :| 0 <= l < |s| && s[l] == i;
        assert s[..k][l] == i;
      }
    }
  }

  // ---------------------------------------------------------------------------------------
  // Multiplicities
  // ---------------------------------------------------------------------------------------

  /** A transaction: its item list with the end mark, and its multiplicity. */
  datatype Queue = Queue(q: seq<nat>, end: nat)

  function Lists(h: seq<Queue>): (r: seq<seq<nat>>)
    ensures |r| == |h| && forall t :: 0 <= t < |h| ==> r[t] == h[t].q
  {
    seq(|h|, t requires 0 <= t < |h| => h[t].q)
  }

  /** How often the list x occurs. */
  function Sum(h: seq<Queue>, x: seq<nat>): nat {
    if h == [] then 0 else Sum(h[..|h| - 1], x) + if h[|h| - 1].q == x then h[|h| - 1].end else 0
  }

  /** The single occurrences of list x, one for each unit of multiplicity. */
  ghost function Occurrences(h: seq<Queue>, x: seq<nat>): (s: set<(nat, nat)>)
    ensures forall p :: p in s <==> p.0 < |h| && h[p.0].q == x && p.1 < h[p.0].end
  {
    if h == [] then {}
    else Occurrences(h[..|h| - 1], x) + if h[|h| - 1].q == x then Copies(|h| - 1, h[|h| - 1].end) else {}
  }

  /** The sum for a list is the number of its occurrences. */
  lemma {:induction false} SumCard(h: seq<Queue>, x: seq<nat>)
    ensures Sum(h, x) == |Occurrences(h, x)|
  {
    if h != [] {
      var k := |h| - 1;
      SumCard(h[..k], x);
      assert Occurrences(h[..k], x) !! Copies(k, h[k].end);
    }
  }

  lemma {:induction false} SumUpdate(h: seq<Queue>, t: nat, m: nat, x: seq<nat>)
    requires t < |h|
    ensures Sum(h[t := Queue(h[t].q, m)], x) == Sum(h, x) + if h[t].q == x then m - h[t].end else 0
  {
    var k, h2 := |h| - 1, h[t := Queue(h[t].q, m)];
    if t < k {
      assert h2[..k] == h[..k][t := Queue(h[t].q, m)];
      SumUpdate(h[..k], t, m, x);
    } else {
      assert h2[..k] == h[..k];
    }
  }

  /** Of two equal transactions at most one has a multiplicity. */
  ghost predicate MergedUpTo(h: seq<Queue>, j: nat) {
    forall t: nat, u: nat :: Equal(Lists(h), t, u) && |h[t].q| < j ==> h[t].end == 0 || h[u].end == 0
  }

  function Survivors(h: seq<Queue>): seq<Queue> {
    if h == [] then [] else Survivors(h[..|h| - 1]) + if h[|h| - 1].end > 0 then [h[|h| - 1]] else []
  }

  lemma {:induction false} SurvivorsSum(h: seq<Queue>, x: seq<nat>)
    ensures Sum(Survivors(h), x) == Sum(h, x)
  {
    if h != [] {
      var k := |h| - 1;
      SurvivorsSum(h[..k], x);
      if h[k].end > 0 {
        assert Survivors(h)[..|Survivors(h[..k])|] == Survivors(h[..k]);
      } else {
        assert Survivors(h) == Survivors(h[..k]);
      }
    }
  }

  lemma {:induction false} SurvivorsOf(h: seq<Queue>, i: nat) returns (t: nat)
    requires i < |Survivors(h)|
    ensures t < |h| && i <= t && Survivors(h)[i] == h[t] && h[t].end > 0
  {
    var k := |h| - 1;
    if i < |Survivors(h[..k])| {
      t := SurvivorsOf(h[..k], i);
    } else {
      t := k;
      SurvivorsLength(h[..k]);
    }
  }

  lemma {:induction false} SurvivorsLength(h: seq<Queue>)
    ensures |Survivors(h)| <= |h|
  {
    if h != [] { SurvivorsLength(h[..|h| - 1]); }
  }

  /** No two survivors have the same list. */
  lemma {:induction false} SurvivorsDistinct(h: seq<Queue>, a: nat, b: nat)
    requires a < b < |Survivors(h)|
    requires forall t: nat, u: nat :: Equal(Lists(h), t, u) ==> h[t].end == 0 || h[u].end == 0
    ensures Survivors(h)[a].q != Survivors(h)[b].q
  {
    var k := |h| - 1;
    if b < |Survivors(h[..k])| {
      forall t: nat, u: nat | Equal(Lists(h[..k]), t, u) ensures h[t].end == 0 || h[u].end == 0 {
        assert Equal(Lists(h), t, u);
      }
      SurvivorsDistinct(h[..k], a, b);
    } else {
      var t := SurvivorsOf(h[..k], a);
      assert !Equal(Lists(h), t, k);
    }
  }

  // ---------------------------------------------------------------------------------------
  // Walking a chain
  // ---------------------------------------------------------------------------------------

  /** v is the group of the member before place k, and vv stands for its run. */
  ghost predicate RunState(lists: seq<seq<nat>>, j: nat, ch: Chains, c: seq<nat>, k: nat, v: int, vv: nat,
                           next: Chains) {
    && k <= |c|
    && if k == 0 then v == -1
       else v >= 0 && GroupIs(ch, c[k - 1], v) && RunOk(lists, j, next, vv, c[k - 1])
  }

  function At(c: seq<nat>, k: nat): int {
    if k < |c| then c[k] else -1
  }

  /** What the entry of the k-th member says. */
  lemma ReadEntry(qq: seq<int>, g: seq<nat>, c: seq<nat>, k: nat)
    requires Threaded(qq, g, c) && k < |c|
    ensures c[k] < |g| && 2 * c[k] + 1 < |qq| && qq[2 * c[k]] == At(c, k + 1) && qq[2 * c[k] + 1] == g[c[k]]
    ensures k + 1 < |c| ==> c[k + 1] < |g| && 2 * c[k + 1] + 1 < |qq| && qq[2 * c[k + 1] + 1] == g[c[k + 1]]
  {
    assert Entry(qq, g, c[k], NextOf(c, k));
    if k + 1 < |c| { assert Entry(qq, g, c[k + 1], NextOf(c, k + 1)); }
  }

  /** The member at place k starts a run, or continues the run of the member before it. */
  lemma EnterMember(lists: seq<seq<nat>>, end: nat, j: nat, ch: Chains, done: set<nat>, cur: nat, k: nat,
                    next: Chains, v: int, vv: nat)
    requires cur < end < |ch.b| && DealOk(lists, end, j, ch, done, cur, k, next) && k < |ch.b[cur]|
    requires RunState(lists, j, ch, ch.b[cur], k, v, vv, next)
    ensures ch.b[cur][k] < |ch.g|
    ensures v != ch.g[ch.b[cur][k]] ==> RunOk(lists, j, next, ch.b[cur][k], ch.b[cur][k])
    ensures v == ch.g[ch.b[cur][k]] ==> RunOk(lists, j, next, vv, ch.b[cur][k])
  {
    var c := ch.b[cur];
    assert PlacedAt(lists, j, cur, c[k]);
    if v != ch.g[c[k]] {
      RunStart(lists, end, j, ch, done, cur, k, next);
    } else {
      GroupIsPrefix(lists, end, j, ch, cur, k - 1, k);
      RunMove(lists, j, next, vv, c[k - 1], c[k]);
    }
  }

  lemma RunMove(lists: seq<seq<nat>>, j: nat, next: Chains, vv: nat, t: nat, u: nat)
    requires RunOk(lists, j, next, vv, t) && SamePrefix(lists, j, t, u)
    ensures RunOk(lists, j, next, vv, u)
  {
    forall w: nat | Dealt(lists, j, next, w) && SamePrefix(lists, j, w, u) ensures GroupIs(next, w, vv) {
      assert SamePrefix(lists, j, w, t);
    }
  }

  lemma RunFirst(lists: seq<seq<nat>>, j: nat, ch: Chains, c: seq<nat>, next: Chains)
    ensures RunState(lists, j, ch, c, 0, -1, 0, next)
  {
  }

  /** The k-th member is left out: it opens a run that ends with it. */
  lemma DropMember(lists: seq<seq<nat>>, end: nat, j: nat, ch: Chains, done: set<nat>, cur: nat, k: nat,
                   next: Chains, v: int, vv: nat)
    requires cur < end < |ch.b| && DealOk(lists, end, j, ch, done, cur, k, next) && k < |ch.b[cur]|
    requires RunState(lists, j, ch, ch.b[cur], k, v, vv, next) && ch.b[cur][k] < |ch.g| && v != ch.g[ch.b[cur][k]]
    requires k + 1 < |ch.b[cur]| ==> ch.b[cur][k + 1] < |ch.g| && ch.g[ch.b[cur][k + 1]] != ch.g[ch.b[cur][k]]
    ensures DealOk(lists, end, j, ch, done, cur, k + 1, next)
    ensures RunState(lists, j, ch, ch.b[cur], k + 1, ch.g[ch.b[cur][k]], ch.b[cur][k], next)
  {
    EnterMember(lists, end, j, ch, done, cur, k, next, v, vv);
    DealDrop(lists, end, j, ch, done, cur, k, next);
  }

  /** The k-th member is pushed with the number vv of its run. */
  lemma KeepMember(lists: seq<seq<nat>>, end: nat, j: nat, ch: Chains, done: set<nat>, cur: nat, k: nat,
                   next: Chains, t: nat, vv: nat)
    requires cur < end < |ch.b| && DealOk(lists, end, j, ch, done, cur, k, next) && k < |ch.b[cur]|
    requires t == ch.b[cur][k] < |ch.g| && RunOk(lists, j, next, vv, t)
    ensures |next.b| == end + 1 && |next.g| == |lists| && t < |lists| && |lists[t]| > j && lists[t][j] <= end
    ensures forall i :: 0 <= i < |next.b| ==> t !in next.b[i]
    ensures DealOk(lists, end, j, ch, done, cur, k + 1, Push(next, lists[t][j], t, vv))
    ensures RunState(lists, j, ch, ch.b[cur], k + 1, ch.g[t], vv, Push(next, lists[t][j], t, vv))
  {
    DealReady(lists, end, j, ch, done, cur, k, next);
    DealPush(lists, end, j, ch, done, cur, k, next, t, vv);
    InNoBucket(lists, end, j, next, t);
  }

  lemma InNoBucket(lists: seq<seq<nat>>, end: nat, j: nat, next: Chains, t: nat)
    requires Placed(lists, end, j + 1, next) && !Dealt(lists, j, next, t)
    ensures forall i :: 0 <= i < |next.b| ==> t !in next.b[i]
  {
    forall i | 0 <= i < |next.b| ensures t !in next.b[i] {
      forall k | 0 <= k < |next.b[i]| ensures next.b[i][k] != t {
        assert PlacedAt(lists, j + 1, i, next.b[i][k]);
      }
    }
  }

  /** The array holds the lists. */
  ghost predicate Holding(h: array<Queue>, lists: seq<seq<nat>>)
    reads h
  {
    |lists| <= h.Length && forall t :: 0 <= t < |lists| ==> h[t].q == lists[t]
  }

  // ---------------------------------------------------------------------------------------
  // Merging the chain of the end mark
  // ---------------------------------------------------------------------------------------

  function Merge(h: seq<Queue>, t: nat, u: nat): seq<Queue>
    requires t < |h| && u < |h|
  {
    h[t := Queue(h[t].q, h[t].end + h[u].end)][u := Queue(h[u].q, 0)]
  }

  /** Moving the multiplicity of one transaction to an equal one changes no total. */
  lemma MergeSum(h: seq<Queue>, t: nat, u: nat)
    requires t < |h| && u < |h| && t != u && h[t].q == h[u].q
    ensures forall x :: Sum(Merge(h, t, u), x) == Sum(h, x)
    ensures Lists(Merge(h, t, u)) == Lists(h)
  {
    forall x ensures Sum(Merge(h, t, u), x) == Sum(h, x) {
      MergeSumOf(h, t, u, x);
    }
  }

  lemma MergeSumOf(h: seq<Queue>, t: nat, u: nat, x: seq<nat>)
    requires t < |h| && u < |h| && t != u && h[t].q == h[u].q
    ensures Sum(Merge(h, t, u), x) == Sum(h, x)
  {
    var h1 := h[t := Queue(h[t].q, h[t].end + h[u].end)];
    SumUpdate(h, t, h[t].end + h[u].end, x);
    SumUpdate(h1, u, 0, x);
    assert Merge(h, t, u) == h1[u := Queue(h1[u].q, 0)];
    hide Sum;
  }

  /** Of the members before place k only the first of each run has a multiplicity. */
  ghost predicate RunsMerged(h: seq<Queue>, g: seq<nat>, c: seq<nat>, k: nat) {
    && k <= |c| && (forall a :: 0 <= a < |c| ==> c[a] < |g| == |h|)
    && forall a :: 1 <= a < k && g[c[a - 1]] == g[c[a]] ==> h[c[a]].end == 0
  }

  lemma RunOpen(h: seq<Queue>, g: seq<nat>, c: seq<nat>, k: nat)
    requires RunsMerged(h, g, c, k) && k < |c| && (k > 0 ==> g[c[k - 1]] != g[c[k]])
    ensures RunsMerged(h, g, c, k + 1)
  {
  }

  /** The k-th member gives its multiplicity to the first of its run. */
  lemma RunMerge(h: seq<Queue>, g: seq<nat>, c: seq<nat>, r: nat, k: nat)
    requires RunsMerged(h, g, c, k) && r < k < |c| && (r > 0 ==> g[c[r - 1]] != g[c[r]]) && NoRepeat(c)
    ensures RunsMerged(Merge(h, c[r], c[k]), g, c, k + 1)
  {
  }

  /** The database is the same up to the split of multiplicities, and short lists are merged. */
  ghost predicate SameTotals(h0: seq<Queue>, h: seq<Queue>, j: nat) {
    Lists(h) == Lists(h0) && (forall x :: Sum(h, x) == Sum(h0, x)) && MergedUpTo(h, j)
  }

  lemma SameTotalsMerge(h0: seq<Queue>, h: seq<Queue>, j: nat, t: nat, u: nat)
    requires SameTotals(h0, h, j) && t < |h| && u < |h| && t != u && h[t].q == h[u].q && |h[t].q| >= j
    ensures SameTotals(h0, Merge(h, t, u), j)
  {
    MergeSum(h, t, u);
    forall a: nat, b: nat | Equal(Lists(Merge(h, t, u)), a, b) && |Merge(h, t, u)[a].q| < j
      ensures Merge(h, t, u)[a].end == 0 || Merge(h, t, u)[b].end == 0
    {
      assert Equal(Lists(h), a, b);
    }
  }

  /** Transactions in one run of the end bucket are equal, and all of them have j entries. */
  lemma EndRun(lists: seq<seq<nat>>, end: nat, j: nat, ch: Chains, a: nat, b: nat)
    requires RoundOk(lists, end, j, ch) && Marked(lists, end) && a < |ch.b[end]| && b < |ch.b[end]|
    ensures ch.b[end][a] < |lists| && ch.b[end][b] < |lists| && |lists[ch.b[end][a]]| == j
    ensures ch.b[end][a] < |ch.g| && ch.b[end][b] < |ch.g|
    ensures ch.g[ch.b[end][a]] == ch.g[ch.b[end][b]] ==> lists[ch.b[end][a]] == lists[ch.b[end][b]]
    ensures a != b ==> ch.b[end][a] != ch.b[end][b]
  {
    var t, u := ch.b[end][a], ch.b[end][b];
    assert PlacedAt(lists, j, end, t) && PlacedAt(lists, j, end, u);
    assert MarkedList(lists[t], end) && MarkedList(lists[u], end);
    GroupIsPrefix(lists, end, j, ch, end, a, b);
    assert lists[t][..j] == lists[t] && lists[u][..j] == lists[u];
    assert NoRepeat(ch.b[end]);
  }

  /** Once the end bucket is through, equal transactions of up to j entries are merged. */
  lemma AllMerged(h: seq<Queue>, lists: seq<seq<nat>>, end: nat, j: nat, ch: Chains)
    requires RoundOk(lists, end, j, ch) && Marked(lists, end) && Lists(h) == lists
    requires MergedUpTo(h, j) && RunsMerged(h, ch.g, ch.b[end], |ch.b[end]|)
    ensures MergedUpTo(h, j + 1)
  {
    var c := ch.b[end];
    forall t: nat, u: nat | Equal(Lists(h), t, u) && |h[t].q| == j ensures h[t].end == 0 || h[u].end == 0 {
      assert Equal(lists, t, u) && Equal(lists, u, t);
      assert Live(lists, j, ch, t) && Live(lists, j, ch, u) && MarkedList(lists[t], end);
      var a :| 0 <= a < |c| && c[a] == t;
      var b :| 0 <= b < |c| && c[b] == u;
      assert SamePrefix(lists, j, t, u);
      GroupIsPrefix(lists, end, j, ch, end, a, b);
      assert InRuns(c, ch.g);
      LaterInRun(h, ch.g, c, a, b);
    }
  }

  lemma LaterInRun(h: seq<Queue>, g: seq<nat>, c: seq<nat>, a: nat, b: nat)
    requires RunsMerged(h, g, c, |c|) && InRuns(c, g) && a < |c| && b < |c| && a != b && g[c[a]] == g[c[b]]
    ensures h[c[a]].end == 0 || h[c[b]].end == 0
  {
    if a < b { assert g[c[b - 1]] == g[c[b]]; } else { assert g[c[a - 1]] == g[c[a]]; }
  }

  // ---------------------------------------------------------------------------------------
  // The first buckets
  // ---------------------------------------------------------------------------------------

  /** The first t transactions wait in the buckets of their first items, in one group. */
  ghost predicate FirstOk(lists: seq<seq<nat>>, end: nat, ch: Chains, t: nat) {
    && Placed(lists, end, 1, ch) && (forall u :: 0 <= u < |ch.g| ==> ch.g[u] == 0)
    && forall u: nat :: Dealt(lists, 0, ch, u) <==> u < t && u < |lists|
  }

  lemma FirstNone(lists: seq<seq<nat>>, end: nat)
    ensures FirstOk(lists, end, Empty(end, |lists|), 0)
  {
  }

  lemma FirstPush(lists: seq<seq<nat>>, end: nat, ch: Chains, t: nat)
    requires Marked(lists, end) && FirstOk(lists, end, ch, t) && t < |lists|
    ensures |ch.b| == end + 1 && |ch.g| == |lists| && |lists[t]| > 0 && lists[t][0] <= end
    ensures forall i :: 0 <= i < |ch.b| ==> t !in ch.b[i]
    ensures FirstOk(lists, end, Push(ch, lists[t][0], t, 0), t + 1)
  {
    assert MarkedList(lists[t], end);
    InNoBucket(lists, end, 0, ch, t);
    PushDealt(lists, 0, ch, t, 0);
    assert AtHeads(ch, 0);
    PushPlaced(lists, end, 0, ch, t, 0);
  }

  lemma FirstAll(lists: seq<seq<nat>>, end: nat, ch: Chains)
    requires Marked(lists, end) && FirstOk(lists, end, ch, |lists|)
    ensures RoundOk(lists, end, 1, ch)
  {
    forall t: nat, u: nat | Live(lists, 1, ch, t) && Live(lists, 1, ch, u)
      ensures ch.g[t] == ch.g[u] && SamePrefix(lists, 0, t, u)
    {
      assert Dealt(lists, 0, ch, t) && Dealt(lists, 0, ch, u);
    }
    forall t: nat, u: nat | Equal(lists, t, u) && |lists[t]| >= 1 ensures Live(lists, 1, ch, t) {
      assert Dealt(lists, 0, ch, t);
    }
  }

  // ---------------------------------------------------------------------------------------
  // Termination
  // ---------------------------------------------------------------------------------------

  function MaxLen(lists: seq<seq<nat>>): nat {
    if lists == [] then 0
    else Max(MaxLen(lists[..|lists| - 1]), |lists[|lists| - 1]|)
  }

  lemma {:induction false} MaxLenBound(lists: seq<seq<nat>>, t: nat)
    requires t < |lists|
    ensures |lists[t]| <= MaxLen(lists)
  {
    if t < |lists| - 1 { MaxLenBound(lists[..|lists| - 1], t); }
  }

  /** A bucket in use bounds the round by the longest list. */
  lemma RoundBound(s: seq<nat>, lists: seq<seq<nat>>, end: nat, j: nat, ch: Chains)
    requires RoundOk(lists, end, j, ch) && Queued(s, ch, {}) && |s| > 0
    ensures j <= MaxLen(lists)
  {
    assert s[0] in s;
    assert Waiting(ch, {}, s[0]);
    var t := ch.b[s[0]][0];
    assert PlacedAt(lists, j, s[0], t);
    MaxLenBound(lists, t);
  }

  /** With no bucket in use, no two transactions of j or more entries are equal. */
  lemma AllDone(h: seq<Queue>, lists: seq<seq<nat>>, end: nat, j: nat, ch: Chains)
    requires RoundOk(lists, end, j, ch) && Queued([], ch, {}) && Lists(h) == lists && MergedUpTo(h, j)
    ensures forall t: nat, u: nat :: Equal(Lists(h), t, u) ==> h[t].end == 0 || h[u].end == 0
  {
    forall t: nat, u: nat | Equal(Lists(h), t, u) ensures h[t].end == 0 || h[u].end == 0 {
      if |lists[t]| >= j {
        assert Live(lists, j, ch, t);
        assert Waiting(ch, {}, lists[t][j - 1]);
        assert false;
      }
    }
  }
}
