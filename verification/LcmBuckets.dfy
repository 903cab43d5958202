/** The bucket structure behind LCM's merge of identical transactions, as sequences: in round j bucket i
    holds the transactions whose item number j-1 is i, in runs of equal prefixes. Dealing the chains of
    a round gives the buckets of the next one. */
module LcmBuckets {
  import opened Basics

  /** b[i] is the chain of bucket i from its head on; g[t] is the group number stored with t. */
  datatype Chains = Chains(b: seq<seq<nat>>, g: seq<nat>)

  /** Every list ends with the end mark, and has it nowhere else. */
  predicate Marked(lists: seq<seq<nat>>, end: nat) {
    forall t :: 0 <= t < |lists| ==> MarkedList(lists[t], end)
  }

  predicate MarkedList(x: seq<nat>, end: nat) {
    |x| > 0 && x[|x| - 1] == end && forall k :: 0 <= k < |x| - 1 ==> x[k] < end
  }

  /** t waits in the bucket of its item number j-1. */
  ghost predicate Live(lists: seq<seq<nat>>, j: nat, ch: Chains, t: nat) {
    t < |lists| && 0 < j <= |lists[t]| && lists[t][j - 1] < |ch.b| && t in ch.b[lists[t][j - 1]]
  }

  /** t waits in a bucket for the round after j. */
  ghost predicate Dealt(lists: seq<seq<nat>>, j: nat, next: Chains, t: nat) {
    Live(lists, j + 1, next, t)
  }

  ghost predicate PlacedAt(lists: seq<seq<nat>>, j: nat, i: nat, t: nat) {
    t < |lists| && 0 < j <= |lists[t]| && lists[t][j - 1] == i
  }

  /** Equal groups lie side by side. */
  ghost predicate InRuns(c: seq<nat>, g: seq<nat>) {
    && (forall k :: 0 <= k < |c| ==> c[k] < |g|)
    && forall k, l, m :: 0 <= k < l < m < |c| && g[c[k]] == g[c[m]] ==> g[c[l]] == g[c[k]]
  }

  /** Chains hold transactions of their bucket only, each once, in runs. */
  ghost predicate Placed(lists: seq<seq<nat>>, end: nat, j: nat, ch: Chains) {
    && |ch.b| == end + 1 && |ch.g| == |lists| && j > 0
    && (forall i, k :: 0 <= i <= end && 0 <= k < |ch.b[i]| ==> PlacedAt(lists, j, i, ch.b[i][k]))
    && (forall i :: 0 <= i <= end ==> NoRepeat(ch.b[i]) && InRuns(ch.b[i], ch.g))
  }

  ghost predicate Equal(lists: seq<seq<nat>>, t: nat, u: nat) {
    t < |lists| && u < |lists| && t != u && lists[t] == lists[u]
  }

  ghost predicate SamePrefix(lists: seq<seq<nat>>, j: nat, t: nat, u: nat) {
    t < |lists| && u < |lists| && j <= |lists[t]| && j <= |lists[u]| && lists[t][..j] == lists[u][..j]
  }

  /** The state before round j: groups are the classes of equal prefixes, and every transaction that has
      an equal one still waits if its list reaches this far. */
  ghost predicate RoundOk(lists: seq<seq<nat>>, end: nat, j: nat, ch: Chains) {
    && Placed(lists, end, j, ch)
    && (forall t: nat, u: nat :: Live(lists, j, ch, t) && Live(lists, j, ch, u) ==>
          (ch.g[t] == ch.g[u] <==> SamePrefix(lists, j - 1, t, u)))
    && (forall t: nat, u: nat :: Equal(lists, t, u) && |lists[t]| >= j ==> Live(lists, j, ch, t))
  }

  /** t has been looked at: its bucket is done, or it is among the first k of bucket cur. */
  ghost predicate Reached(lists: seq<seq<nat>>, j: nat, ch: Chains, done: set<nat>, cur: nat, k: nat, t: nat) {
    && Live(lists, j, ch, t) && cur < |ch.b| && k <= |ch.b[cur]|
    && (lists[t][j - 1] in done || t in ch.b[cur][..k])
  }

  /** What has been dealt was reached, and carries a transaction of its own prefix as its group. */
  ghost predicate DealtOnly(lists: seq<seq<nat>>, j: nat, ch: Chains, done: set<nat>, cur: nat, k: nat, next: Chains) {
    |next.g| == |lists| && forall t: nat :: Dealt(lists, j, next, t) ==>
      Reached(lists, j, ch, done, cur, k, t) && SamePrefix(lists, j, next.g[t], t)
  }

  ghost predicate DealtSame(lists: seq<seq<nat>>, j: nat, next: Chains) {
    |next.g| == |lists| && forall t: nat, u: nat ::
      Dealt(lists, j, next, t) && Dealt(lists, j, next, u) && SamePrefix(lists, j, t, u) ==> next.g[t] == next.g[u]
  }

  /** Whatever was reached and has an equal transaction has been dealt. */
  ghost predicate DealtAll(lists: seq<seq<nat>>, j: nat, ch: Chains, done: set<nat>, cur: nat, k: nat, next: Chains) {
    forall t: nat, u: nat :: Equal(lists, t, u) && Reached(lists, j, ch, done, cur, k, t) && |lists[t]| >= j + 1 ==>
      Dealt(lists, j, next, t)
  }

  /** Part of the live transactions of round j have been dealt to the buckets of round j+1. */
  ghost predicate DealOk(lists: seq<seq<nat>>, end: nat, j: nat, ch: Chains, done: set<nat>, cur: nat, k: nat,
                         next: Chains) {
    && RoundOk(lists, end, j, ch) && Marked(lists, end) && Placed(lists, end, j + 1, next)
    && cur <= end && cur !in done && end !in done && k <= |ch.b[cur]| && (cur == end ==> k == 0)
    && DealtOnly(lists, j, ch, done, cur, k, next)
    && DealtSame(lists, j, next)
    && DealtAll(lists, j, ch, done, cur, k, next)
  }

  /** Members of group vv come before the others in all chains. */
  ghost predicate AtHeads(ch: Chains, vv: nat) {
    forall i, k, l :: 0 <= i < |ch.b| && 0 <= k < l < |ch.b[i]| && GroupIs(ch, ch.b[i][l], vv) ==>
        GroupIs(ch, ch.b[i][k], vv)
  }

  ghost predicate GroupIs(ch: Chains, t: nat, v: nat) {
    t < |ch.g| && ch.g[t] == v
  }

  /** vv stands for the run that t belongs to; its members dealt so far are at the heads of their buckets. */
  ghost predicate RunOk(lists: seq<seq<nat>>, j: nat, next: Chains, vv: nat, t: nat) {
    && SamePrefix(lists, j, vv, t) && AtHeads(next, vv)
    && (forall u: nat :: Dealt(lists, j, next, u) && SamePrefix(lists, j, u, t) ==> GroupIs(next, u, vv))
  }

  /** Transactions of one bucket with equal shorter prefixes have equal prefixes. */
  lemma SameNext(lists: seq<seq<nat>>, j: nat, t: nat, u: nat)
    requires 0 < j && t < |lists| && u < |lists| && j <= |lists[t]| && j <= |lists[u]|
    ensures SamePrefix(lists, j, t, u) <==> SamePrefix(lists, j - 1, t, u) && lists[t][j - 1] == lists[u][j - 1]
  {
    assert lists[t][..j] == lists[t][..j - 1] + [lists[t][j - 1]];
    assert lists[u][..j] == lists[u][..j - 1] + [lists[u][j - 1]];
    if SamePrefix(lists, j, t, u) {
      assert lists[t][..j][..j - 1] == lists[t][..j - 1] && lists[u][..j][..j - 1] == lists[u][..j - 1];
    }
  }

  /** Two members of a chain have the same group just when their prefixes agree. */
  lemma GroupIsPrefix(lists: seq<seq<nat>>, end: nat, j: nat, ch: Chains, i: nat, k: nat, l: nat)
    requires RoundOk(lists, end, j, ch) && i <= end && k < |ch.b[i]| && l < |ch.b[i]|
    ensures ch.b[i][k] < |lists| && ch.b[i][l] < |lists|
    ensures Live(lists, j, ch, ch.b[i][k])
    ensures ch.g[ch.b[i][k]] == ch.g[ch.b[i][l]] <==> SamePrefix(lists, j, ch.b[i][k], ch.b[i][l])
  {
    var t, u := ch.b[i][k], ch.b[i][l];
    assert PlacedAt(lists, j, i, t) && PlacedAt(lists, j, i, u);
    assert t in ch.b[i] && u in ch.b[i];
    assert Live(lists, j, ch, t) && Live(lists, j, ch, u);
    SameNext(lists, j, t, u);
  }

  /** A member of the chain that was not in the first k is not reached. */
  lemma NotReached(lists: seq<seq<nat>>, end: nat, j: nat, ch: Chains, done: set<nat>, cur: nat, k: nat)
    requires RoundOk(lists, end, j, ch) && cur < end && cur !in done && k < |ch.b[cur]|
    ensures !Reached(lists, j, ch, done, cur, k, ch.b[cur][k])
  {
    assert PlacedAt(lists, j, cur, ch.b[cur][k]);
  }

  /** At the start of a run none of it has been dealt. */
  lemma NotYet(lists: seq<seq<nat>>, end: nat, j: nat, ch: Chains, done: set<nat>, cur: nat, k: nat, u: nat)
    requires RoundOk(lists, end, j, ch) && cur < end && cur !in done && k < |ch.b[cur]|
    requires k > 0 ==> ch.g[ch.b[cur][k - 1]] != ch.g[ch.b[cur][k]]
    requires Reached(lists, j, ch, done, cur, k, u)
    ensures !SamePrefix(lists, j, u, ch.b[cur][k])
  {
    var c, t := ch.b[cur], ch.b[cur][k];
    assert PlacedAt(lists, j, cur, t);
    if SamePrefix(lists, j, u, t) {
      assert lists[u][..j][j - 1] == lists[t][..j][j - 1];
      var l :| 0 <= l < k && c[..k][l] == u;
      assert InRuns(c, ch.g);
      hide Placed, Live, Reached, InRuns, NoRepeat;
      GroupIsPrefix(lists, end, j, ch, cur, l, k);
      RunBreak(c, ch.g, l, k);
      assert false;
    }
  }

  lemma RunBreak(c: seq<nat>, g: seq<nat>, l: nat, k: nat)
    requires InRuns(c, g) && l < k < |c| && g[c[l]] == g[c[k]]
    ensures g[c[k - 1]] == g[c[k]]
  {
  }

  lemma RunStart(lists: seq<seq<nat>>, end: nat, j: nat, ch: Chains, done: set<nat>, cur: nat, k: nat, next: Chains)
    requires cur < end < |ch.b| && DealOk(lists, end, j, ch, done, cur, k, next) && k < |ch.b[cur]|
    requires k > 0 ==> ch.g[ch.b[cur][k - 1]] != ch.g[ch.b[cur][k]]
    ensures RunOk(lists, j, next, ch.b[cur][k], ch.b[cur][k])
  {
    var t := ch.b[cur][k];
    assert PlacedAt(lists, j, cur, t);
    forall u: nat | Dealt(lists, j, next, u) ensures !SamePrefix(lists, j, u, t) && !GroupIs(next, u, t) {
      NotYet(lists, end, j, ch, done, cur, k, u);
    }
    forall i, l | 0 <= i < |next.b| && 0 <= l < |next.b[i]| ensures !GroupIs(next, next.b[i][l], t) {
      assert PlacedAt(lists, j + 1, i, next.b[i][l]);
      assert Dealt(lists, j, next, next.b[i][l]);
    }
  }

  function Push(next: Chains, i: nat, t: nat, vv: nat): Chains
    requires i < |next.b| && t < |next.g|
  {
    Chains(next.b[i := [t] + next.b[i]], next.g[t := vv])
  }

  /** The new head of a bucket continues the run at its head, if that is of its group. */
  lemma PushRuns(c: seq<nat>, g: seq<nat>, t: nat, vv: nat)
    requires InRuns(c, g) && NoRepeat(c) && t !in c && t < |g|
    requires forall k, l :: 0 <= k < l < |c| && g[c[l]] == vv ==> g[c[k]] == vv
    ensures InRuns([t] + c, g[t := vv]) && NoRepeat([t] + c)
  {
  }

  lemma OtherRuns(c: seq<nat>, g: seq<nat>, t: nat, vv: nat)
    requires InRuns(c, g) && t !in c && t < |g|
    ensures InRuns(c, g[t := vv])
  {
  }

  lemma PushHeads(ch: Chains, i: nat, t: nat, vv: nat)
    requires AtHeads(ch, vv) && i < |ch.b| && t < |ch.g| && forall i' :: 0 <= i' < |ch.b| ==> t !in ch.b[i']
    ensures AtHeads(Push(ch, i, t, vv), vv)
  {
  }

  /** Dealing t to its next bucket. */
  lemma PushPlaced(lists: seq<seq<nat>>, end: nat, j: nat, next: Chains, t: nat, vv: nat)
    requires t < |lists| && j < |lists[t]| && lists[t][j] <= end && Placed(lists, end, j + 1, next)
    requires !Dealt(lists, j, next, t) && AtHeads(next, vv)
    ensures Placed(lists, end, j + 1, Push(next, lists[t][j], t, vv)) && AtHeads(Push(next, lists[t][j], t, vv), vv)
  {
    var i := lists[t][j];
    forall i' | 0 <= i' <= end ensures t !in next.b[i'] {
      assert forall k :: 0 <= k < |next.b[i']| ==> PlacedAt(lists, j + 1, i', next.b[i'][k]);
    }
    PushHeads(next, i, t, vv);
    forall k, l | 0 <= k < l < |next.b[i]| && next.g[next.b[i][l]] == vv ensures next.g[next.b[i][k]] == vv {
      assert GroupIs(next, next.b[i][l], vv);
      assert GroupIs(next, next.b[i][k], vv);
    }
    PushRuns(next.b[i], next.g, t, vv);
    forall i' | 0 <= i' <= end && i' != i ensures InRuns(next.b[i'], next.g[t := vv]) {
      OtherRuns(next.b[i'], next.g, t, vv);
    }
    hide InRuns, NoRepeat, AtHeads, Live;
  }

  lemma PushDealt(lists: seq<seq<nat>>, j: nat, next: Chains, t: nat, vv: nat)
    requires t < |lists| && j < |lists[t]| && lists[t][j] < |next.b| && t < |next.g|
    ensures forall u: nat :: Dealt(lists, j, Push(next, lists[t][j], t, vv), u) <==> u == t || Dealt(lists, j, next, u)
  {
    var i, n2 := lists[t][j], Push(next, lists[t][j], t, vv);
    assert n2.b[i][0] == t;
    forall u: nat ensures Dealt(lists, j, n2, u) <==> u == t || Dealt(lists, j, next, u) {
      assert u in n2.b[i] <==> u == t || u in next.b[i];
    }
  }

  ghost predicate ReachesOne(lists: seq<seq<nat>>, j: nat, ch: Chains, done: set<nat>, cur: nat, k: nat, k1: nat,
                             t: nat) {
    && k1 == k + 1 && Reached(lists, j, ch, done, cur, k1, t)
    && forall u: nat :: u != t ==> (Reached(lists, j, ch, done, cur, k1, u) <==> Reached(lists, j, ch, done, cur, k, u))
  }

  /** Reaching one member more. */
  lemma ReachNext(lists: seq<seq<nat>>, end: nat, j: nat, ch: Chains, done: set<nat>, cur: nat, k: nat)
    requires Placed(lists, end, j, ch) && cur < end && k < |ch.b[cur]|
    ensures ReachesOne(lists, j, ch, done, cur, k, k + 1, ch.b[cur][k])
  {
    var c := ch.b[cur];
    assert c[..k + 1] == c[..k] + [c[k]];
    assert PlacedAt(lists, j, cur, c[k]);
    var k1 := k + 1;
    forall t: nat ensures Reached(lists, j, ch, done, cur, k1, t) <==>
        Reached(lists, j, ch, done, cur, k, t) || t == c[k] {
      assert c[k] in c && (t in c[..k + 1] <==> t in c[..k] || t == c[k]);
    }
  }

  /** The k-th member has not been dealt, and has a next bucket. */
  lemma DealReady(lists: seq<seq<nat>>, end: nat, j: nat, ch: Chains, done: set<nat>, cur: nat, k: nat, next: Chains)
    requires cur < end < |ch.b| && DealOk(lists, end, j, ch, done, cur, k, next) && k < |ch.b[cur]|
    ensures |next.b| == end + 1 && |next.g| == |lists|
    ensures ch.b[cur][k] < |lists| && |lists[ch.b[cur][k]]| > j && lists[ch.b[cur][k]][j] <= end
    ensures !Dealt(lists, j, next, ch.b[cur][k])
    ensures ReachesOne(lists, j, ch, done, cur, k, k + 1, ch.b[cur][k])
  {
    var t := ch.b[cur][k];
    assert PlacedAt(lists, j, cur, t) && MarkedList(lists[t], end);
    NotReached(lists, end, j, ch, done, cur, k);
    ReachNext(lists, end, j, ch, done, cur, k);
  }

  /** A member with an equal neighbour goes on to the next round. */
  lemma DealPush(lists: seq<seq<nat>>, end: nat, j: nat, ch: Chains, done: set<nat>, cur: nat, k: nat, next: Chains,
                 t: nat, vv: nat)
    requires cur < end < |ch.b| && DealOk(lists, end, j, ch, done, cur, k, next) && k < |ch.b[cur]| &&
             RunOk(lists, j, next, vv, t)
    requires t == ch.b[cur][k] < |lists| && |next.b| == end + 1 && |next.g| == |lists|
    requires |lists[t]| > j && lists[t][j] <= end && !Dealt(lists, j, next, t)
    requires ReachesOne(lists, j, ch, done, cur, k, k + 1, t)
    ensures DealOk(lists, end, j, ch, done, cur, k + 1, Push(next, lists[t][j], t, vv))
    ensures RunOk(lists, j, Push(next, lists[t][j], t, vv), vv, t)
  {
    hide Live, Dealt, Placed, PlacedAt, Reached, RoundOk, Marked, MarkedList, AtHeads, DealtOnly, DealtSame,
        DealtAll, SamePrefix, Equal, GroupIs, Push;
    PushPlaced(lists, end, j, next, t, vv);
    PushedOnly(lists, j, ch, done, cur, k, next, t, vv);
    PushedSame(lists, j, next, t, vv);
    PushedAll(lists, j, ch, done, cur, k, next, t, vv);
  }

  lemma PushedOnly(lists: seq<seq<nat>>, j: nat, ch: Chains, done: set<nat>, cur: nat, k: nat, next: Chains, t: nat,
                   vv: nat)
    requires DealtOnly(lists, j, ch, done, cur, k, next) && t < |lists| && SamePrefix(lists, j, vv, t)
    requires |lists[t]| > j && lists[t][j] < |next.b|
    requires ReachesOne(lists, j, ch, done, cur, k, k + 1, t)
    ensures DealtOnly(lists, j, ch, done, cur, k + 1, Push(next, lists[t][j], t, vv))
  {
    PushDealt(lists, j, next, t, vv);
    var n2 := Push(next, lists[t][j], t, vv);
    forall u: nat | Dealt(lists, j, n2, u)
      ensures Reached(lists, j, ch, done, cur, k + 1, u) && SamePrefix(lists, j, n2.g[u], u)
    {
      assert u == t || Dealt(lists, j, next, u);
    }
  }

  lemma PushedAll(lists: seq<seq<nat>>, j: nat, ch: Chains, done: set<nat>, cur: nat, k: nat, next: Chains, t: nat,
                  vv: nat)
    requires DealtAll(lists, j, ch, done, cur, k, next) && t < |lists| && t < |next.g|
    requires |lists[t]| > j && lists[t][j] < |next.b|
    requires ReachesOne(lists, j, ch, done, cur, k, k + 1, t)
    ensures DealtAll(lists, j, ch, done, cur, k + 1, Push(next, lists[t][j], t, vv))
  {
    PushDealt(lists, j, next, t, vv);
    hide Live, Reached;
  }

  lemma PushedSame(lists: seq<seq<nat>>, j: nat, next: Chains, t: nat, vv: nat)
    requires DealtSame(lists, j, next) && t < |lists| && RunOk(lists, j, next, vv, t)
    requires |lists[t]| > j && lists[t][j] < |next.b|
    ensures DealtSame(lists, j, Push(next, lists[t][j], t, vv))
    ensures forall u: nat :: Dealt(lists, j, Push(next, lists[t][j], t, vv), u) && SamePrefix(lists, j, u, t) ==>
      GroupIs(Push(next, lists[t][j], t, vv), u, vv)
  {
    PushDealt(lists, j, next, t, vv);
    var n2 := Push(next, lists[t][j], t, vv);
    forall u: nat | Dealt(lists, j, n2, u) && SamePrefix(lists, j, u, t) ensures GroupIs(n2, u, vv) {
      assert u == t || GroupIs(next, u, vv);
    }
    forall u: nat, w: nat | Dealt(lists, j, n2, u) && Dealt(lists, j, n2, w) && SamePrefix(lists, j, u, w)
      ensures n2.g[u] == n2.g[w]
    {
      assert SamePrefix(lists, j, w, u);
      assert u == t || w == t || (Dealt(lists, j, next, u) && Dealt(lists, j, next, w));
    }
  }

  /** A member whose group has no other member in the chain has no equal transaction left. */
  lemma DealDrop(lists: seq<seq<nat>>, end: nat, j: nat, ch: Chains, done: set<nat>, cur: nat, k: nat, next: Chains)
    requires cur < end < |ch.b| && DealOk(lists, end, j, ch, done, cur, k, next) && k < |ch.b[cur]|
    requires k > 0 ==> ch.g[ch.b[cur][k - 1]] != ch.g[ch.b[cur][k]]
    requires k + 1 < |ch.b[cur]| ==> ch.g[ch.b[cur][k + 1]] != ch.g[ch.b[cur][k]]
    ensures DealOk(lists, end, j, ch, done, cur, k + 1, next)
  {
    var t := ch.b[cur][k];
    DealReady(lists, end, j, ch, done, cur, k, next);
    forall u: nat | Equal(lists, t, u) ensures false {
      EqualNeighbour(lists, end, j, ch, cur, k, u);
    }
    DealtOnlyMore(lists, j, ch, done, cur, k, k + 1, next, t);
    DealtAllMore(lists, j, ch, done, cur, k, k + 1, next, t);
  }

  lemma DealtOnlyMore(lists: seq<seq<nat>>, j: nat, ch: Chains, done: set<nat>, cur: nat, k: nat, k1: nat,
                      next: Chains, t: nat)
    requires DealtOnly(lists, j, ch, done, cur, k, next) && ReachesOne(lists, j, ch, done, cur, k, k1, t)
    ensures DealtOnly(lists, j, ch, done, cur, k1, next)
  {
    forall u: nat | Dealt(lists, j, next, u) ensures Reached(lists, j, ch, done, cur, k1, u) {
      assert Reached(lists, j, ch, done, cur, k, u);
    }
  }

  lemma DealtAllMore(lists: seq<seq<nat>>, j: nat, ch: Chains, done: set<nat>, cur: nat, k: nat, k1: nat,
                     next: Chains, t: nat)
    requires DealtAll(lists, j, ch, done, cur, k, next) && ReachesOne(lists, j, ch, done, cur, k, k1, t)
    requires forall u: nat :: !Equal(lists, t, u)
    ensures DealtAll(lists, j, ch, done, cur, k1, next)
  {
  }

  /** A transaction with an equal one has a neighbour of its group in the chain. */
  lemma EqualNeighbour(lists: seq<seq<nat>>, end: nat, j: nat, ch: Chains, cur: nat, k: nat, u: nat)
    requires RoundOk(lists, end, j, ch) && cur <= end && k < |ch.b[cur]| && Equal(lists, ch.b[cur][k], u)
    ensures (k > 0 && ch.g[ch.b[cur][k - 1]] == ch.g[ch.b[cur][k]])
         || (k + 1 < |ch.b[cur]| && ch.g[ch.b[cur][k + 1]] == ch.g[ch.b[cur][k]])
  {
    var c, t := ch.b[cur], ch.b[cur][k];
    assert PlacedAt(lists, j, cur, t);
    assert Equal(lists, u, t);
    assert Live(lists, j, ch, u);
    var l :| 0 <= l < |c| && c[l] == u;
    assert InRuns(c, ch.g) && SamePrefix(lists, j, u, t) && SamePrefix(lists, j, t, u);
    GroupIsPrefix(lists, end, j, ch, cur, l, k);
    hide *;
    Neighbour(c, ch.g, k, l);
  }

  lemma Neighbour(c: seq<nat>, g: seq<nat>, k: nat, l: nat)
    requires InRuns(c, g) && k < |c| && l < |c| && k != l && g[c[l]] == g[c[k]]
    ensures (k > 0 && g[c[k - 1]] == g[c[k]]) || (k + 1 < |c| && g[c[k + 1]] == g[c[k]])
  {
    if l < k { assert g[c[k - 1]] == g[c[k]]; } else { assert g[c[k + 1]] == g[c[k]]; }
  }

  // ---------------------------------------------------------------------------------------
  // A bucket, a round
  // ---------------------------------------------------------------------------------------

  /** Nothing has been dealt yet. */
  lemma DealStart(lists: seq<seq<nat>>, end: nat, j: nat, ch: Chains, next: Chains)
    requires RoundOk(lists, end, j, ch) && Marked(lists, end)
    requires |next.b| == end + 1 && |next.g| == |lists| && forall i :: 0 <= i <= end ==> next.b[i] == []
    ensures DealOk(lists, end, j, ch, {}, end, 0, next)
  {
  }

  /** Between two buckets the cursor rests at the end mark. */
  lemma DealPick(lists: seq<seq<nat>>, end: nat, j: nat, ch: Chains, done: set<nat>, cur: nat, next: Chains)
    requires DealOk(lists, end, j, ch, done, end, 0, next) && cur < end && cur !in done
    ensures DealOk(lists, end, j, ch, done, cur, 0, next)
  {
    assert forall t: nat :: Reached(lists, j, ch, done, end, 0, t) <==> Reached(lists, j, ch, done, cur, 0, t);
    hide Live, Placed, RoundOk, SamePrefix;
  }

  lemma DealBucket(lists: seq<seq<nat>>, end: nat, j: nat, ch: Chains, done: set<nat>, cur: nat, next: Chains)
    requires cur < end < |ch.b| && DealOk(lists, end, j, ch, done, cur, |ch.b[cur]|, next)
    ensures DealOk(lists, end, j, ch, done + {cur}, end, 0, next)
  {
    ReachedSame(lists, end, j, ch, done, cur);
    hide Live, Placed, RoundOk, SamePrefix;
  }

  lemma ReachedSame(lists: seq<seq<nat>>, end: nat, j: nat, ch: Chains, done: set<nat>, cur: nat)
    requires RoundOk(lists, end, j, ch) && cur < end
    ensures forall t: nat :: Reached(lists, j, ch, done, cur, |ch.b[cur]|, t) <==>
              Reached(lists, j, ch, done + {cur}, end, 0, t)
  {
    assert ch.b[cur][..|ch.b[cur]|] == ch.b[cur];
    forall t: nat | t in ch.b[cur] ensures PlacedAt(lists, j, cur, t) {
      var k :| 0 <= k < |ch.b[cur]| && ch.b[cur][k] == t;
    }
  }

  /** When all buckets below the end mark are done, the next round may start. */
  lemma DealRound(lists: seq<seq<nat>>, end: nat, j: nat, ch: Chains, done: set<nat>, next: Chains)
    requires DealOk(lists, end, j, ch, done, end, 0, next)
    requires forall i :: 0 <= i < end && ch.b[i] != [] ==> i in done
    ensures RoundOk(lists, end, j + 1, next)
  {
    forall t: nat, u: nat | Live(lists, j + 1, next, t) && Live(lists, j + 1, next, u)
      ensures next.g[t] == next.g[u] <==> SamePrefix(lists, j, t, u)
    {
      assert Dealt(lists, j, next, t) && Dealt(lists, j, next, u);
      assert SamePrefix(lists, j, next.g[t], t) && SamePrefix(lists, j, next.g[u], u);
    }
    forall t: nat, u: nat | Equal(lists, t, u) && |lists[t]| >= j + 1 ensures Live(lists, j + 1, next, t) {
      assert Live(lists, j, ch, t) && MarkedList(lists[t], end);
      assert Reached(lists, j, ch, done, end, 0, t);
      assert Dealt(lists, j, next, t);
    }
  }
}
