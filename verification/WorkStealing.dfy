/** Dynamic partitioning with work stealing (policy DP_DA_2), as a step system. */
module WorkStealing {
  import opened Basics
  import opened ClosedSets
  import opened DciWalk
  import opened DciPolicies

  const LEAST_STEALING: nat := 2

  datatype Data = Data(db: Database, n: nat, min: nat, ub: nat) {
    predicate Valid() {
      n >= 1 && ub >= 1
    }

    /** The one job all others are cut from. */
    function Root(): Frame {
      Frame({}, {}, Items(0, n), 0, Clip(ub, n), false)
    }

    function Answer(): seq<Event> {
      WholeJob(db, n, min, ub)
    }
  }

  /** One level of a worker's stack. mined: generator i has been emitted and its recursive call,
      if any, is running on the frame above. */
  datatype Frame = Frame(x: Itemset, pre: set<nat>, post: seq<nat>, i: nat, ub: nat, mined: bool) {
    predicate Valid() {
      i <= ub <= |post| && (mined ==> i < ub)
    }

    /** Everything this frame still has to report, its children excluded. */
    function Owed(d: Data): seq<Event> {
      if !Valid() then []
      else if mined then Walk(d.db, d.min, x, pre + {post[i]}, post, i + 1, ub)
      else Walk(d.db, d.min, x, pre, post, i, ub)
    }

    predicate Stealable() {
      i + LEAST_STEALING < ub
    }

    function Skip(): nat
      requires Stealable()
    {
      (ub - i - 1) / 2
    }

    function Cut(): nat
      requires Stealable()
    {
      i + 1 + Skip()
    }

    function Kept(): Frame
      requires Stealable()
    {
      this.(ub := Cut())
    }

    function Stolen(): Frame
      requires Stealable() && Valid()
    {
      Frame(x, pre + Elems(post[i..Cut()]), post[Cut()..], 0, ub - Cut(), false)
    }
  }

  datatype Status = NotStarted | Running | Finished

  datatype Thread = Thread(status: Status, frames: seq<Frame>, out: seq<Event>) {
    predicate Valid() {
      && (forall k :: 0 <= k < |frames| ==> frames[k].Valid())
      && (forall k :: 0 <= k < |frames| - 1 ==> frames[k].mined)
      && (frames != [] ==> status == Running)
    }

    predicate Idle() {
      frames == [] && status != Finished
    }

    /** Reported plus owed. */
    function Account(d: Data): multiset<Event> {
      multiset(out) + FramesOwed(d, frames)
    }
  }

  datatype Scan = NoScan | Scanning(thief: nat, tried: nat)

  datatype State = State(first: bool, lastStolen: nat, scan: Scan, threads: seq<Thread>) {
    function Victim(): nat
      requires scan.Scanning? && |threads| > 0
    {
      (lastStolen + scan.tried + 1) % |threads|
    }

    function Put(t: nat, th: Thread): State
      requires t < |threads|
    {
      this.(threads := threads[t := th])
    }
  }

  function FramesOwed(d: Data, frames: seq<Frame>): multiset<Event> {
    if frames == [] then multiset{} else multiset(frames[0].Owed(d)) + FramesOwed(d, frames[1..])
  }

  function Accounts(d: Data, threads: seq<Thread>): multiset<Event> {
    if threads == [] then multiset{} else threads[0].Account(d) + Accounts(d, threads[1..])
  }

  /** Reported and owed by all threads together, with the first job while it is not handed out. */
  function Total(d: Data, s: State): multiset<Event> {
    Accounts(d, s.threads) + if s.first then multiset(d.Answer()) else multiset{}
  }

  /** The first level, from the bottom of the victim's stack, worth stealing from: more than two generators are left
      there, the current one included. */
  function StealLevel(frames: seq<Frame>): (l: nat)
    ensures l <= |frames|
    ensures l < |frames| ==> frames[l].ub - frames[l].i > 2
    ensures forall k :: 0 <= k < l ==> frames[k].ub - frames[k].i <= 2
  {
    if frames == [] then 0
    else if frames[0].Stealable() then 0
    else
      var l := StealLevel(frames[1..]);
      assert forall k :: 1 <= k < l + 1 ==> frames[k] == frames[1..][k - 1];
      l + 1
  }

  // ---------------------------------------------------------------------------------------
  // Actions
  // ---------------------------------------------------------------------------------------

  /** One action is one critical section of a thread. The work between two critical sections reads the
      thread's own frame and the immutable dataset only. */
  datatype Action =
    | TakeFirst(t: nat)    // get_job, first call: the whole problem
    | BeginScan(t: nat)    // get_job, later calls: lock the policy, start looking for a victim
    | Pass                 // the probed victim has nothing to give
    | Steal                // the probed victim's frame is cut in two
    | GiveUp               // every victim was probed in vain: the thread is finished
    | Visit(t: nat)        // process generator i of the top frame
    | Resume(t: nat)       // generator i and its recursion are done: it joins the pre-list
    | Leave(t: nat)        // the top frame is exhausted: return from Mine

  ghost predicate Enabled(s: State, a: Action) {
    match a
    case TakeFirst(t) => t < |s.threads| && s.first && s.scan.NoScan? && s.threads[t].Idle()
    case BeginScan(t) => t < |s.threads| && !s.first && s.scan.NoScan? && s.threads[t].Idle()
    case Pass => CanProbe(s) && !CanRob(s)
    case Steal => CanProbe(s) && CanRob(s)
    case GiveUp => s.scan.Scanning? && s.scan.thief < |s.threads| && s.scan.tried == |s.threads|
    case Visit(t) =>
      t < |s.threads| && HasTop(s.threads[t]) && !Top(s.threads[t]).mined && Top(s.threads[t]).i < Top(s.threads[t]).ub
    case Resume(t) => t < |s.threads| && HasTop(s.threads[t]) && Top(s.threads[t]).mined
    case Leave(t) =>
      t < |s.threads| && HasTop(s.threads[t]) && !Top(s.threads[t]).mined && Top(s.threads[t]).i >= Top(s.threads[t]).ub
  }

  ghost predicate CanProbe(s: State) {
    s.scan.Scanning? && s.scan.thief < |s.threads| && s.scan.tried < |s.threads|
  }

  ghost predicate CanRob(s: State)
    requires CanProbe(s)
  {
    var v := s.threads[s.Victim()];
    s.Victim() != s.scan.thief && v.status == Running && StealLevel(v.frames) < |v.frames|
  }

  predicate HasTop(th: Thread) {
    th.frames != []
  }

  function Top(th: Thread): Frame
    requires HasTop(th)
  {
    th.frames[|th.frames| - 1]
  }

  function Below(th: Thread): seq<Frame>
    requires HasTop(th)
  {
    th.frames[..|th.frames| - 1]
  }

  /** What one generator does: the event it reports, its frame afterwards, and the frame of the
      recursive call, if any. */
  datatype Visited = Visited(event: Event, after: Frame, child: seq<Frame>)

  function VisitFrame(d: Data, f: Frame): Visited
    requires f.Valid() && f.i < f.ub
  {
    if Covered(d.db, d.min, f.x, f.pre, f.post[f.i]) then
      Visited(Rejected(d.db, d.min, f.x, f.post[f.i]), f.(i := f.i + 1), [])
    else
      var c, rest := Produced(d.db, f.x, f.post, f.i), Left(d.db, f.x, f.post, f.i);
      Visited(Found(c, Supp(d.db, f.x + {f.post[f.i]})), f.(mined := true),
              if rest == [] then [] else [Frame(c, f.pre, rest, 0, |rest|, false)])
  }

  function VisitThread(d: Data, th: Thread): Thread
    requires HasTop(th) && Top(th).Valid() && Top(th).i < Top(th).ub
  {
    var v := VisitFrame(d, Top(th));
    Thread(th.status, Below(th) + [v.after] + v.child, th.out + [v.event])
  }

  function ResumeThread(th: Thread): Thread
    requires HasTop(th) && Top(th).Valid() && Top(th).mined
  {
    var f := Top(th);
    th.(frames := Below(th) + [Frame(f.x, f.pre + {f.post[f.i]}, f.post, f.i + 1, f.ub, false)])
  }

  /** The state after an enabled action. */
  ghost function Apply(d: Data, s: State, a: Action): State
    requires AllValid(s.threads) && Enabled(s, a)
  {
    match a
    case TakeFirst(t) => s.Put(t, Thread(Running, [d.Root()], s.threads[t].out)).(first := false)
    case BeginScan(t) => s.(scan := Scanning(t, 0))
    case Pass => s.(scan := s.scan.(tried := s.scan.tried + 1))
    case Steal =>
      var v := s.threads[s.Victim()];
      var l := StealLevel(v.frames);
      var f := v.frames[l];
      s.Put(s.Victim(), v.(frames := v.frames[l := f.Kept()]))
       .Put(s.scan.thief, Thread(Running, [f.Stolen()], s.threads[s.scan.thief].out))
       .(scan := NoScan, lastStolen := s.Victim())
    case GiveUp => s.Put(s.scan.thief, s.threads[s.scan.thief].(status := Finished)).(scan := NoScan)
    case Visit(t) => s.Put(t, VisitThread(d, s.threads[t]))
    case Resume(t) => s.Put(t, ResumeThread(s.threads[t]))
    case Leave(t) => s.Put(t, s.threads[t].(frames := Below(s.threads[t])))
  }

  ghost predicate AllValid(threads: seq<Thread>) {
    forall t :: 0 <= t < |threads| ==> threads[t].Valid()
  }

  predicate Initial(d: Data, s: State) {
    && |s.threads| > 0 && s.first && s.lastStolen == 0 && s.scan == NoScan
    && forall t :: 0 <= t < |s.threads| ==> s.threads[t] == Thread(NotStarted, [], [])
  }

  /** Kept by every step: well-formed stacks, one idle thief at most, and the conservation law. */
  ghost predicate Inv(d: Data, s: State) {
    && d.Valid()
    && |s.threads| > 0
    && AllValid(s.threads)
    && (s.scan.Scanning? ==>
        !s.first && s.scan.thief < |s.threads| && s.scan.tried <= |s.threads| && s.threads[s.scan.thief].Idle())
    && (s.first ==> forall t :: 0 <= t < |s.threads| ==> s.threads[t].Idle())
    && Total(d, s) == multiset(d.Answer())
  }

  // ---------------------------------------------------------------------------------------
  // Conservation
  // ---------------------------------------------------------------------------------------

  lemma Exchange(a: multiset<Event>, x: multiset<Event>, b: multiset<Event>, y: multiset<Event>, c: multiset<Event>)
    requires x + b == y + c
    ensures a + x + b == a + y + c
  {
    assert a + x + b == a + (x + b);
  }

  lemma {:induction false} AccountsPut(d: Data, threads: seq<Thread>, t: nat, th: Thread)
    requires t < |threads|
    ensures Accounts(d, threads[t := th]) + threads[t].Account(d) == Accounts(d, threads) + th.Account(d)
  {
    if t == 0 {
      assert threads[t := th][1..] == threads[1..];
    } else {
      hide Thread.Account;
      assert threads[t := th][1..] == threads[1..][t - 1 := th] && threads[1..][t - 1] == threads[t];
      AccountsPut(d, threads[1..], t - 1, th);
      Exchange(threads[0].Account(d), Accounts(d, threads[1..][t - 1 := th]), threads[t].Account(d),
               Accounts(d, threads[1..]), th.Account(d));
    }
  }

  lemma {:induction false} FramesOwedConcat(d: Data, a: seq<Frame>, b: seq<Frame>)
    ensures FramesOwed(d, a + b) == FramesOwed(d, a) + FramesOwed(d, b)
  {
    if a == [] {
      assert a + b == b;
    } else {
      assert (a + b)[1..] == a[1..] + b;
      FramesOwedConcat(d, a[1..], b);
    }
  }

  lemma FramesOwedPut(d: Data, frames: seq<Frame>, l: nat, f: Frame)
    requires l < |frames|
    ensures FramesOwed(d, frames[l := f]) + multiset(frames[l].Owed(d)) == FramesOwed(d, frames) + multiset(f.Owed(d))
  {
    var a, b := frames[..l], frames[l + 1..];
    assert frames[l := f] == a + ([f] + b);
    assert frames == a + ([frames[l]] + b);
    FramesOwedConcat(d, a, [f] + b);
    FramesOwedConcat(d, a, [frames[l]] + b);
    assert ([f] + b)[1..] == b && ([frames[l]] + b)[1..] == b;
  }

  lemma FramesOwedTop(d: Data, th: Thread)
    requires HasTop(th)
    ensures FramesOwed(d, th.frames) == FramesOwed(d, Below(th)) + multiset(Top(th).Owed(d))
  {
    assert th.frames == Below(th) + [Top(th)];
    FramesOwedConcat(d, Below(th), [Top(th)]);
    assert FramesOwed(d, [Top(th)]) == multiset(Top(th).Owed(d)) by { assert [Top(th)][1..] == []; }
  }

  /** Cutting a frame loses nothing and doubles nothing, and what is left behind the current generator is cut in
      half; an odd one goes to the thief. */
  lemma CutConserves(d: Data, f: Frame)
    requires f.Valid() && f.Stealable()
    ensures f.Kept().Valid() && f.Stolen().Valid()
    ensures f.Owed(d) == f.Kept().Owed(d) + f.Stolen().Owed(d)
    ensures f.Stolen().ub >= 1 && f.Kept().ub > f.i + 1
    ensures 0 <= f.Stolen().ub - (f.Kept().ub - f.i - 1) <= 1
  {
    hide Walk;
    var cut := f.Cut();
    if f.mined {
      assert f.post[f.i..cut] == [f.post[f.i]] + f.post[f.i + 1..cut];
      assert f.pre + {f.post[f.i]} + Elems(f.post[f.i + 1..cut]) == f.pre + Elems(f.post[f.i..cut]);
      CutFrame(d.db, d.min, f.x, f.pre + {f.post[f.i]}, f.post, f.i + 1, cut, f.ub);
    } else {
      CutFrame(d.db, d.min, f.x, f.pre, f.post, f.i, cut, f.ub);
    }
  }

  /** Moving the first of the owed events to the reported ones. */
  lemma MoveEvent(out: seq<Event>, ev: Event, below: multiset<Event>, before: seq<Event>, child: seq<Event>,
                  after: seq<Event>)
    requires before == [ev] + child + after
    ensures multiset(out + [ev]) + (below + multiset(after) + multiset(child))
         == multiset(out) + (below + multiset(before))
    ensures |below + multiset(after) + multiset(child)| + 1 == |below + multiset(before)|
  {
  }

  lemma VisitOwed(d: Data, f: Frame)
    requires f.Valid() && !f.mined && f.i < f.ub
    ensures var v := VisitFrame(d, f);
            && v.after.Valid() && (v.child != [] ==> v.child == [v.child[0]] && v.child[0].Valid() && v.after.mined)
            && f.Owed(d) == [v.event] + (if v.child == [] then [] else v.child[0].Owed(d)) + v.after.Owed(d)
  {
    hide Covered, Rejected, Produced, Left, Supp;
    var v := VisitFrame(d, f);
    if !Covered(d.db, d.min, f.x, f.pre, f.post[f.i]) {
      var c, rest := Produced(d.db, f.x, f.post, f.i), Left(d.db, f.x, f.post, f.i);
      var below := Walk(d.db, d.min, c, f.pre, rest, 0, |rest|);
      assert f.Owed(d) == [v.event] + below + v.after.Owed(d);
      assert below == if v.child == [] then [] else v.child[0].Owed(d);
    }
  }

  /** Visiting a generator moves one event from owed to reported. */
  lemma VisitConserves(d: Data, th: Thread)
    requires th.Valid() && HasTop(th) && !Top(th).mined && Top(th).i < Top(th).ub
    ensures VisitThread(d, th).Account(d) == th.Account(d)
    ensures |FramesOwed(d, VisitThread(d, th).frames)| + 1 == |FramesOwed(d, th.frames)|
  {
    hide Frame.Owed, VisitFrame, FramesOwed, Walk, Below, Thread.Valid;
    TopValid(th);
    var v := VisitFrame(d, Top(th));
    var child := if v.child == [] then [] else v.child[0].Owed(d);
    assert Top(th).Owed(d) == [v.event] + child + v.after.Owed(d) by { VisitOwed(d, Top(th)); }
    assert FramesOwed(d, Below(th) + [v.after] + v.child)
        == FramesOwed(d, Below(th)) + multiset(v.after.Owed(d)) + multiset(child) by {
      VisitOwed(d, Top(th));
      FramesOwedConcat(d, Below(th) + [v.after], v.child);
      FramesOwedConcat(d, Below(th), [v.after]);
      FramesOwedOne(d, [v.after]);
      FramesOwedOne(d, v.child);
    }
    FramesOwedTop(d, th);
    MoveEvent(th.out, v.event, FramesOwed(d, Below(th)), Top(th).Owed(d), child, v.after.Owed(d));
  }

  lemma TopValid(th: Thread)
    requires th.Valid() && HasTop(th)
    ensures Top(th).Valid() && forall k :: 0 <= k < |Below(th)| ==> Below(th)[k].Valid() && Below(th)[k].mined
  {
  }

  lemma VisitValid(d: Data, th: Thread)
    requires th.Valid() && HasTop(th) && !Top(th).mined && Top(th).i < Top(th).ub
    ensures VisitThread(d, th).Valid()
  {
    hide Frame.Owed, VisitFrame, FramesOwed, Walk;
    VisitOwed(d, Top(th));
  }

  lemma FramesOwedOne(d: Data, f: seq<Frame>)
    requires |f| <= 1
    ensures FramesOwed(d, f) == multiset(if f == [] then [] else f[0].Owed(d))
  {
    if f != [] { assert f[1..] == []; }
  }

  lemma ResumeConserves(d: Data, th: Thread)
    requires th.Valid() && HasTop(th) && Top(th).mined
    ensures ResumeThread(th).Valid()
    ensures FramesOwed(d, ResumeThread(th).frames) == FramesOwed(d, th.frames)
    ensures ResumeThread(th).out == th.out
  {
    hide Walk, FramesOwed;
    var th' := ResumeThread(th);
    FramesOwedTop(d, th);
    FramesOwedTop(d, th');
    assert Below(th') == Below(th);
  }

  lemma LeaveConserves(d: Data, th: Thread)
    requires th.Valid() && HasTop(th) && !Top(th).mined && Top(th).i >= Top(th).ub
    ensures th.(frames := Below(th)).Valid()
    ensures FramesOwed(d, Below(th)) == FramesOwed(d, th.frames)
  {
    FramesOwedTop(d, th);
  }

  /** The victim's new owed events and the thief's are the victim's old ones. */
  lemma StealOwed(d: Data, v: Thread)
    requires v.Valid() && StealLevel(v.frames) < |v.frames|
    ensures var l := StealLevel(v.frames);
            var f := v.frames[l];
            && f.Kept().Valid() && f.Stolen().Valid()
            && FramesOwed(d, v.frames[l := f.Kept()]) + FramesOwed(d, [f.Stolen()]) == FramesOwed(d, v.frames)
  {
    hide Walk, Frame.Owed, FramesOwed, StealLevel;
    var l := StealLevel(v.frames);
    var f := v.frames[l];
    CutConserves(d, f);
    FramesOwedPut(d, v.frames, l, f.Kept());
    FramesOwedOne(d, [f.Stolen()]);
    Cancel(FramesOwed(d, v.frames[l := f.Kept()]), FramesOwed(d, v.frames), f.Kept().Owed(d), f.Stolen().Owed(d));
  }

  lemma Cancel(after: multiset<Event>, before: multiset<Event>, kept: seq<Event>, stolen: seq<Event>)
    requires after + multiset(kept + stolen) == before + multiset(kept)
    ensures after + multiset(stolen) == before
  {
    assert multiset(kept + stolen) == multiset(kept) + multiset(stolen);
    forall e ensures (after + multiset(stolen))[e] == before[e] {
      assert (after + multiset(kept + stolen))[e] == (before + multiset(kept))[e];
    }
  }

  lemma StealConserves(d: Data, v: Thread, thief: Thread)
    requires v.Valid() && thief.Idle() && StealLevel(v.frames) < |v.frames| && v.status == Running
    ensures var l := StealLevel(v.frames);
            var f := v.frames[l];
            var v' := v.(frames := v.frames[l := f.Kept()]);
            var thief' := Thread(Running, [f.Stolen()], thief.out);
            && v'.Valid() && thief'.Valid()
            && v'.Account(d) + thief'.Account(d) == v.Account(d) + thief.Account(d)
  {
    hide Walk, Frame.Owed, FramesOwed, StealLevel;
    StealOwed(d, v);
    FramesOwedOne(d, []);
    StealValid(v);
    var f := v.frames[StealLevel(v.frames)];
    var rest := FramesOwed(d, v.frames[StealLevel(v.frames) := f.Kept()]);
    assert multiset(v.out) + rest + (multiset(thief.out) + FramesOwed(d, [f.Stolen()]))
        == multiset(v.out) + (rest + FramesOwed(d, [f.Stolen()])) + multiset(thief.out);
  }

  lemma StealValid(v: Thread)
    requires v.Valid() && StealLevel(v.frames) < |v.frames|
    ensures var l := StealLevel(v.frames);
            var f := v.frames[l];
            && v.(frames := v.frames[l := f.Kept()]).Valid()
            && forall out :: Thread(Running, [f.Stolen()], out).Valid()
  {
    hide StealLevel;
  }

  // ---------------------------------------------------------------------------------------
  // A measure that every action lowers
  // ---------------------------------------------------------------------------------------

  predicate Pending(f: Frame) {
    if f.mined then f.i + 1 < f.ub else f.i < f.ub
  }

  function FrameWeight(f: Frame): nat {
    (if f.mined then 1 else 0) + (if Pending(f) then 0 else 1)
  }

  function FramesWeight(frames: seq<Frame>): nat {
    if frames == [] then 0 else FrameWeight(frames[0]) + FramesWeight(frames[1..])
  }

  ghost predicate Drained(th: Thread) {
    th.status != Finished && forall k :: 0 <= k < |th.frames| ==> !Pending(th.frames[k])
  }

  /** Owed events weigh most; a thread that will ask for a job again carries the price of one scan. */
  ghost function Potential(d: Data, n: nat, th: Thread): nat {
    |FramesOwed(d, th.frames)| * (n + 6) + FramesWeight(th.frames) + if Drained(th) then n + 3 else 0
  }

  ghost function Potentials(d: Data, n: nat, threads: seq<Thread>): nat {
    if threads == [] then 0 else Potential(d, n, threads[0]) + Potentials(d, n, threads[1..])
  }

  ghost function Measure(d: Data, s: State): int {
    var n := |s.threads|;
    Potentials(d, n, s.threads)
    + (if s.scan.Scanning? then n + 1 - s.scan.tried else n + 2)
    + (if s.first then |d.Answer()| * (n + 6) else 0)
  }

  lemma {:induction false} PotentialsPut(d: Data, n: nat, threads: seq<Thread>, t: nat, th: Thread)
    requires t < |threads|
    ensures Potentials(d, n, threads[t := th]) + Potential(d, n, threads[t]) == Potentials(d, n,
              threads) + Potential(d, n, th)
  {
    if t == 0 {
      assert threads[t := th][1..] == threads[1..];
    } else {
      hide Potential;
      assert threads[t := th][1..] == threads[1..][t - 1 := th] && threads[1..][t - 1] == threads[t];
      PotentialsPut(d, n, threads[1..], t - 1, th);
    }
  }

  lemma {:induction false} FramesWeightConcat(a: seq<Frame>, b: seq<Frame>)
    ensures FramesWeight(a + b) == FramesWeight(a) + FramesWeight(b)
  {
    if a == [] {
      assert a + b == b;
    } else {
      assert (a + b)[1..] == a[1..] + b;
      FramesWeightConcat(a[1..], b);
    }
  }

  lemma FramesWeightTop(th: Thread)
    requires HasTop(th)
    ensures FramesWeight(th.frames) == FramesWeight(Below(th)) + FrameWeight(Top(th))
  {
    assert th.frames == Below(th) + [Top(th)];
    FramesWeightConcat(Below(th), [Top(th)]);
    assert [Top(th)][1..] == [];
  }

  lemma FramesWeightPut(frames: seq<Frame>, l: nat, f: Frame)
    requires l < |frames| && FrameWeight(f) == FrameWeight(frames[l])
    ensures FramesWeight(frames[l := f]) == FramesWeight(frames)
  {
    var a, b := frames[..l], frames[l + 1..];
    assert frames[l := f] == a + ([f] + b);
    assert frames == a + ([frames[l]] + b);
    FramesWeightConcat(a, [f] + b);
    FramesWeightConcat(a, [frames[l]] + b);
    assert ([f] + b)[1..] == b && ([frames[l]] + b)[1..] == b;
  }

  lemma VisitWeight(d: Data, th: Thread)
    requires th.Valid() && HasTop(th) && !Top(th).mined && Top(th).i < Top(th).ub
    ensures FramesWeight(VisitThread(d, th).frames) <= FramesWeight(th.frames) + 2
    ensures !Drained(th)
  {
    var v := VisitFrame(d, Top(th));
    FramesWeightTop(th);
    FramesWeightConcat(Below(th) + [v.after], v.child);
    FramesWeightConcat(Below(th), [v.after]);
    assert [v.after][1..] == [];
    assert |v.child| <= 1 && (v.child != [] ==> v.child[1..] == [] && FrameWeight(v.child[0]) == 0);
    assert Pending(th.frames[|th.frames| - 1]);
  }

  lemma VisitLowers(d: Data, n: nat, th: Thread)
    requires th.Valid() && HasTop(th) && !Top(th).mined && Top(th).i < Top(th).ub
    ensures Potential(d, n, VisitThread(d, th)) < Potential(d, n, th)
  {
    hide FramesOwed, VisitThread, FramesWeight, Drained;
    VisitConserves(d, th);
    VisitWeight(d, th);
    var k := |FramesOwed(d, VisitThread(d, th).frames)|;
    assert |FramesOwed(d, th.frames)| * (n + 6) == k * (n + 6) + (n + 6);
  }

  lemma ResumeLowers(d: Data, n: nat, th: Thread)
    requires th.Valid() && HasTop(th) && Top(th).mined
    ensures Potential(d, n, ResumeThread(th)) < Potential(d, n, th)
  {
    hide FramesOwed, FramesWeight;
    var th' := ResumeThread(th);
    ResumeConserves(d, th);
    FramesWeightTop(th);
    FramesWeightTop(th');
    assert Below(th') == Below(th);
    assert Drained(th') ==> Drained(th) by {
      assert Pending(Top(th')) <==> Pending(Top(th));
      assert forall k :: 0 <= k < |th.frames| - 1 ==> th.frames[k] == th'.frames[k];
    }
  }

  lemma LeaveLowers(d: Data, n: nat, th: Thread)
    requires th.Valid() && HasTop(th) && !Top(th).mined && Top(th).i >= Top(th).ub
    ensures Potential(d, n, th.(frames := Below(th))) < Potential(d, n, th)
  {
    hide FramesOwed, FramesWeight;
    var th' := th.(frames := Below(th));
    LeaveConserves(d, th);
    FramesWeightTop(th);
    assert Drained(th') ==> Drained(th) by {
      assert !Pending(Top(th));
      assert forall k :: 0 <= k < |th.frames| - 1 ==> th.frames[k] == th'.frames[k];
    }
  }

  /** A steal moves owed events to an idle thread, which thereby stops being idle. */
  lemma StealLowers(d: Data, n: nat, v: Thread, thief: Thread)
    requires v.Valid() && thief.Idle() && StealLevel(v.frames) < |v.frames| && v.status == Running
    ensures var l := StealLevel(v.frames);
            var f := v.frames[l];
            var v' := v.(frames := v.frames[l := f.Kept()]);
            var thief' := Thread(Running, [f.Stolen()], thief.out);
            && Potential(d, n, v') + Potential(d, n, thief') + (n + 3) <= Potential(d, n, v) + Potential(d, n, thief)
  {
    hide FramesOwed, FramesWeight, StealLevel, Frame.Owed;
    var l := StealLevel(v.frames);
    var f := v.frames[l];
    var v' := v.(frames := v.frames[l := f.Kept()]);
    var thief' := Thread(Running, [f.Stolen()], thief.out);
    StealOwed(d, v);
    StealWeight(v);
    StolenWeight(v, thief.out);
    FramesOwedOne(d, []);
    assert Drained(thief);
    var a, b, c := |FramesOwed(d, v'.frames)|, |FramesOwed(d, thief'.frames)|, |FramesOwed(d, v.frames)|;
    assert a + b == c;
    assert a * (n + 6) + b * (n + 6) == c * (n + 6);
  }

  lemma StealWeight(v: Thread)
    requires v.Valid() && StealLevel(v.frames) < |v.frames|
    ensures var l := StealLevel(v.frames);
            var f := v.frames[l];
            var v' := v.(frames := v.frames[l := f.Kept()]);
            && FramesWeight(v'.frames) == FramesWeight(v.frames) && !Drained(v) && !Drained(v')
  {
    hide StealLevel;
    var l := StealLevel(v.frames);
    var f := v.frames[l];
    var v' := v.(frames := v.frames[l := f.Kept()]);
    FramesWeightPut(v.frames, l, f.Kept());
    assert Pending(v.frames[l]) && Pending(v'.frames[l]);
  }

  lemma StolenWeight(v: Thread, out: seq<Event>)
    requires v.Valid() && StealLevel(v.frames) < |v.frames|
    ensures var f := v.frames[StealLevel(v.frames)];
            FramesWeight([f.Stolen()]) == 0 && !Drained(Thread(Running, [f.Stolen()], out))
  {
    hide StealLevel;
    var th := Thread(Running, [v.frames[StealLevel(v.frames)].Stolen()], out);
    assert th.frames[1..] == [] && Pending(th.frames[0]);
  }

  // ---------------------------------------------------------------------------------------
  // Every step, every run
  // ---------------------------------------------------------------------------------------

  /** Replacing one thread by one with the same account and a lower potential. */
  lemma PutKeeps(d: Data, s: State, t: nat, th: Thread)
    requires Inv(d, s) && t < |s.threads| && !s.threads[t].Idle() && th.Valid()
    requires th.Account(d) == s.threads[t].Account(d)
    requires Potential(d, |s.threads|, th) < Potential(d, |s.threads|, s.threads[t])
    ensures Inv(d, s.Put(t, th)) && Measure(d, s.Put(t, th)) < Measure(d, s)
  {
    hide Thread.Account, Potential, Data.Answer, Thread.Valid;
    AccountsPut(d, s.threads, t, th);
    PotentialsPut(d, |s.threads|, s.threads, t, th);
    Cancelled(Accounts(d, s.threads[t := th]), Accounts(d, s.threads), th.Account(d));
  }

  lemma Cancelled(a: multiset<Event>, b: multiset<Event>, c: multiset<Event>)
    requires a + c == b + c
    ensures a == b
  {
    forall e ensures a[e] == b[e] {
      assert (a + c)[e] == (b + c)[e];
    }
  }

  lemma TakeFirstKeeps(d: Data, s: State, t: nat)
    requires Inv(d, s) && Enabled(s, TakeFirst(t))
    ensures Inv(d, Apply(d, s, TakeFirst(t))) && Measure(d, Apply(d, s, TakeFirst(t))) < Measure(d, s)
  {
    hide Walk, FramesOwed, Accounts, Potentials, FramesWeight, Frame.Owed, Data.Root;
    var th := s.threads[t];
    var th' := Thread(Running, [d.Root()], th.out);
    AccountsPut(d, s.threads, t, th');
    PotentialsPut(d, |s.threads|, s.threads, t, th');
    RootFrame(d);
    FramesOwedOne(d, th.frames);
    assert th'.Account(d) == th.Account(d) + multiset(d.Answer());
    assert Accounts(d, s.threads[t := th']) + th.Account(d) == (Accounts(d,
             s.threads) + multiset(d.Answer())) + th.Account(d);
    Cancelled(Accounts(d, s.threads[t := th']), Accounts(d, s.threads) + multiset(d.Answer()), th.Account(d));
    assert !Drained(th') by { assert Pending(th'.frames[0]); }
    assert Drained(th);
  }

  lemma RootFrame(d: Data)
    requires d.Valid()
    ensures d.Root().Valid() && Pending(d.Root())
    ensures FramesOwed(d, [d.Root()]) == multiset(d.Answer()) && FramesWeight([d.Root()]) == 0
  {
    hide Walk;
    FramesOwedOne(d, [d.Root()]);
    assert [d.Root()][1..] == [];
  }

  lemma StealKeeps(d: Data, s: State)
    requires Inv(d, s) && Enabled(s, Steal)
    ensures Inv(d, Apply(d, s, Steal)) && Measure(d, Apply(d, s, Steal)) < Measure(d, s)
  {
    hide Walk, FramesOwed, Thread.Account, Potential, Data.Answer, StealLevel, Accounts, Potentials;
    var n := |s.threads|;
    var vi, ti := s.Victim(), s.scan.thief;
    var v, thief := s.threads[vi], s.threads[ti];
    var f := v.frames[StealLevel(v.frames)];
    StealConserves(d, v, thief);
    StealLowers(d, n, v, thief);
    var v' := v.(frames := v.frames[StealLevel(v.frames) := f.Kept()]);
    var thief' := Thread(Running, [f.Stolen()], thief.out);
    var mid := s.threads[vi := v'];
    AccountsPut(d, s.threads, vi, v');
    AccountsPut(d, mid, ti, thief');
    PotentialsPut(d, n, s.threads, vi, v');
    PotentialsPut(d, n, mid, ti, thief');
    TwoPuts(Accounts(d, s.threads), Accounts(d, mid), Accounts(d, mid[ti := thief']),
            v.Account(d), v'.Account(d), thief.Account(d), thief'.Account(d));
  }

  lemma TwoPuts(a: multiset<Event>, b: multiset<Event>, c: multiset<Event>,
                v: multiset<Event>, v': multiset<Event>, t: multiset<Event>, t': multiset<Event>)
    requires b + v == a + v' && c + t == b + t' && v' + t' == v + t
    ensures c == a
  {
    forall e ensures c[e] == a[e] {
      assert (b + v)[e] == (a + v')[e] && (c + t)[e] == (b + t')[e] && (v' + t')[e] == (v + t)[e];
    }
  }

  lemma GiveUpKeeps(d: Data, s: State)
    requires Inv(d, s) && Enabled(s, GiveUp)
    ensures Inv(d, Apply(d, s, GiveUp)) && Measure(d, Apply(d, s, GiveUp)) < Measure(d, s)
  {
    hide FramesOwed, Data.Answer, FramesWeight, Accounts, Potentials;
    var t := s.scan.thief;
    var th' := s.threads[t].(status := Finished);
    AccountsPut(d, s.threads, t, th');
    PotentialsPut(d, |s.threads|, s.threads, t, th');
    assert th'.Account(d) == s.threads[t].Account(d);
    Cancelled(Accounts(d, s.threads[t := th']), Accounts(d, s.threads), th'.Account(d));
    assert Drained(s.threads[t]) && !Drained(th');
  }

  lemma RunningKeeps(d: Data, s: State, a: Action)
    requires Inv(d, s) && Enabled(s, a) && (a.Visit? || a.Resume? || a.Leave?)
    ensures Inv(d, Apply(d, s, a)) && Measure(d, Apply(d, s, a)) < Measure(d, s)
  {
    hide FramesOwed, Potential, Data.Answer, Accounts, Potentials, Measure, Inv, VisitThread, ResumeThread;
    assert AllValid(s.threads) by { InvValid(d, s); }
    var th := s.threads[a.t];
    var n := |s.threads|;
    match a
    case Visit(t) =>
      VisitConserves(d, th);
      VisitValid(d, th);
      VisitLowers(d, n, th);
      PutKeeps(d, s, t, VisitThread(d, th));
    case Resume(t) =>
      ResumeConserves(d, th);
      ResumeLowers(d, n, th);
      PutKeeps(d, s, t, ResumeThread(th));
    case Leave(t) =>
      LeaveConserves(d, th);
      LeaveLowers(d, n, th);
      PutKeeps(d, s, t, th.(frames := Below(th)));
    case _ =>
  }

  lemma InvValid(d: Data, s: State)
    requires Inv(d, s)
    ensures AllValid(s.threads)
  {
  }

  /** Every action keeps the invariant and lowers the measure. */
  lemma StepKeeps(d: Data, s: State, a: Action)
    requires Inv(d, s) && Enabled(s, a)
    ensures Inv(d, Apply(d, s, a)) && Measure(d, Apply(d, s, a)) < Measure(d, s)
  {
    hide FramesOwed, Potential, Data.Answer, Accounts, Potentials, StealLevel;
    match a
    case TakeFirst(t) => TakeFirstKeeps(d, s, t);
    case Steal => StealKeeps(d, s);
    case GiveUp => GiveUpKeeps(d, s);
    case BeginScan(t) =>
    case Pass =>
    case _ => RunningKeeps(d, s, a);
  }

  lemma ScanGoesOn(s: State)
    requires s.scan.Scanning? && s.scan.thief < |s.threads| && s.scan.tried <= |s.threads|
    ensures exists a :: Enabled(s, a)
  {
    hide StealLevel, CanRob;
    if s.scan.tried == |s.threads| {
      assert Enabled(s, GiveUp);
    } else if CanRob(s) {
      assert Enabled(s, Steal);
    } else {
      assert Enabled(s, Pass);
    }
  }

  lemma IdleGoesOn(s: State, t: nat)
    requires s.scan.NoScan? && t < |s.threads| && s.threads[t].Idle()
    ensures exists a :: Enabled(s, a)
  {
    hide Thread.Idle, CanProbe, CanRob, Top;
    if s.first {
      assert Enabled(s, TakeFirst(t));
    } else {
      assert Enabled(s, BeginScan(t));
    }
  }

  lemma BusyGoesOn(s: State, t: nat)
    requires t < |s.threads| && HasTop(s.threads[t])
    ensures exists a :: Enabled(s, a)
  {
    hide Thread.Idle, CanProbe, CanRob, Top, HasTop;
    if Top(s.threads[t]).mined {
      assert Enabled(s, Resume(t));
    } else if Top(s.threads[t]).i < Top(s.threads[t]).ub {
      assert Enabled(s, Visit(t));
    } else {
      assert Enabled(s, Leave(t));
    }
  }

  /** A state where no action is possible has only finished threads. */
  lemma Progress(d: Data, s: State, t: nat)
    requires Inv(d, s) && t < |s.threads| && s.threads[t].status != Finished
    ensures exists a :: Enabled(s, a)
  {
    hide Total, Enabled, Data.Valid, Data.Answer;
    if s.scan.Scanning? {
      ScanGoesOn(s);
    } else if s.threads[t].frames == [] {
      IdleGoesOn(s, t);
    } else {
      BusyGoesOn(s, t);
    }
  }

  /** Each steal hands over at least one generator, and leaves the victim at least one more than the one it is
      working on; the two get the same number, up to one. */
  lemma StealFeeds(d: Data, s: State)
    requires Inv(d, s) && Enabled(s, Steal)
    ensures var s' := Apply(d, s, Steal);
            var v, t := s.Victim(), s.scan.thief;
            var l := StealLevel(s.threads[v].frames);
            var f, f' := s.threads[v].frames[l], s'.threads[v].frames[l];
            var stolen := s'.threads[t].frames[0];
            && |s'.threads[t].frames| == 1
            && stolen.i == 0 < stolen.ub <= |stolen.post|
            && f'.i == f.i && f'.ub >= f.i + 2
            && stolen.ub + f'.ub == f.ub
            && 0 <= stolen.ub - (f'.ub - f'.i - 1) <= 1
            && stolen.post == f.post[f'.ub..]
  {
    hide Total;
    var v := s.threads[s.Victim()];
    StealValid(v);
    CutConserves(d, v.frames[StealLevel(v.frames)]);
  }

  /** A run: states linked by enabled actions, from an initial one. */
  ghost predicate Run(d: Data, ss: seq<State>, acts: seq<Action>) {
    && d.Valid()
    && |ss| == |acts| + 1
    && Initial(d, ss[0])
    && forall k :: 0 <= k < |acts| ==>
         AllValid(ss[k].threads) && Enabled(ss[k], acts[k]) && ss[k + 1] == Apply(d, ss[k], acts[k])
  }

  lemma {:induction false} InitialAccounts(d: Data, threads: seq<Thread>)
    requires forall t :: 0 <= t < |threads| ==> threads[t] == Thread(NotStarted, [], [])
    ensures Accounts(d, threads) == multiset{}
  {
    if threads != [] {
      InitialAccounts(d, threads[1..]);
    }
  }

  lemma InitialInv(d: Data, s: State)
    requires d.Valid() && Initial(d, s)
    ensures Inv(d, s)
  {
    InitialAccounts(d, s.threads);
    hide Accounts, Data.Answer, Data.Valid;
  }

  lemma {:induction false} RunInv(d: Data, ss: seq<State>, acts: seq<Action>, k: nat)
    requires Run(d, ss, acts) && k < |ss|
    ensures Inv(d, ss[k])
    ensures Measure(d, ss[k]) + k <= Measure(d, ss[0])
  {
    hide *;
    RunBegins(d, ss, acts);
    if k == 0 {
      InitialInv(d, ss[0]);
    } else {
      RunInv(d, ss, acts, k - 1);
      RunGoesOn(d, ss, acts, k - 1);
      StepKeeps(d, ss[k - 1], acts[k - 1]);
    }
  }

  lemma RunBegins(d: Data, ss: seq<State>, acts: seq<Action>)
    requires Run(d, ss, acts)
    ensures |ss| == |acts| + 1 && d.Valid() && Initial(d, ss[0])
  {
    hide Data.Valid, Initial, Enabled, Apply, AllValid;
  }

  lemma RunGoesOn(d: Data, ss: seq<State>, acts: seq<Action>, k: nat)
    requires Run(d, ss, acts) && k < |acts|
    ensures |ss| == |acts| + 1 && AllValid(ss[k].threads)
    ensures Enabled(ss[k], acts[k]) && ss[k + 1] == Apply(d, ss[k], acts[k])
  {
    hide Data.Valid, Initial, Enabled, Apply, AllValid;
  }

  lemma MeasureNat(d: Data, s: State)
    requires Inv(d, s)
    ensures Measure(d, s) >= 0
  {
    hide Total, Potentials, Data.Answer, AllValid, Thread.Idle;
  }

  /** Every run is finite: its length is bounded by the measure of its initial state. */
  lemma RunsEnd(d: Data, ss: seq<State>, acts: seq<Action>)
    requires Run(d, ss, acts)
    ensures |acts| <= Measure(d, ss[0])
  {
    RunInv(d, ss, acts, |acts|);
    MeasureNat(d, ss[|acts|]);
  }

  // ---------------------------------------------------------------------------------------
  // What the threads report
  // ---------------------------------------------------------------------------------------

  function Reported(threads: seq<Thread>): multiset<Event> {
    if threads == [] then multiset{} else multiset(threads[0].out) + Reported(threads[1..])
  }

  lemma {:induction false} ReportedWithin(d: Data, threads: seq<Thread>)
    ensures Reported(threads) <= Accounts(d, threads)
    ensures (forall t :: 0 <= t < |threads| ==> threads[t].frames == []) ==> Reported(threads) == Accounts(d, threads)
  {
    if threads != [] {
      ReportedWithin(d, threads[1..]);
      FramesOwedOne(d, []);
    }
  }

  lemma AnswerExact(d: Data, c: Itemset, s: nat)
    requires d.Valid()
    ensures multiset(d.Answer())[Found(c, s)] == if Target(d.db, d.n, d.min, d.ub, c) &&
            s == Supp(d.db, c) then 1 else 0
  {
    hide Walk;
    WholeJobExact(d.db, d.n, d.min, d.ub, c, s);
  }

  /** Safety over all interleavings: in every state of every run, a closed set has been reported at
      most once, by all threads together, and only if it belongs to the answer, with its support. */
  lemma ReportedOnce(d: Data, ss: seq<State>, acts: seq<Action>, k: nat, c: Itemset, s: nat)
    requires Run(d, ss, acts) && k < |ss|
    ensures Reported(ss[k].threads)[Found(c, s)] <= if Target(d.db, d.n, d.min, d.ub, c) &&
            s == Supp(d.db, c) then 1 else 0
  {
    hide Apply, Enabled;
    RunInv(d, ss, acts, k);
    ReportedWithin(d, ss[k].threads);
    AnswerExact(d, c, s);
    hide Reported, Accounts, Data.Answer, Target;
    assert Total(d, ss[k])[Found(c, s)] >= Reported(ss[k].threads)[Found(c, s)];
  }

  /** A run that can go no further has reported the whole answer, every closed set exactly once. */
  lemma CompleteAtEnd(d: Data, ss: seq<State>, acts: seq<Action>, c: Itemset, s: nat)
    requires Run(d, ss, acts)
    requires forall a :: !Enabled(ss[|acts|], a)
    ensures forall t :: 0 <= t < |ss[|acts|].threads| ==> ss[|acts|].threads[t].status == Finished
    ensures Reported(ss[|acts|].threads)[Found(c, s)] == if Target(d.db, d.n, d.min, d.ub, c) &&
            s == Supp(d.db, c) then 1 else 0
  {
    hide Apply, Enabled, Reported, Accounts, Data.Answer, Target;
    var last := ss[|acts|];
    RunInv(d, ss, acts, |acts|);
    forall t | 0 <= t < |last.threads| ensures last.threads[t].status == Finished {
      if last.threads[t].status != Finished { Progress(d, last, t); }
    }
    ReportedWithin(d, last.threads);
    AnswerExact(d, c, s);
    assert !last.first by { assert !last.threads[0].Idle(); }
  }
}
