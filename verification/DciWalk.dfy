/** The depth-first walk of DCI-Closed at the level of sets: which generators one call of
    Worker::Mine visits, in which order, and what becomes of each of them. */
module DciWalk {
  import opened Basics
  import opened ClosedSets

  /** One visited generator: too rare, a duplicate, or the closed set it produced. */
  datatype Event =
    | Infrequent(gen: Itemset)
    | Duplicate(gen: Itemset)
    | Found(items: Itemset, supp: nat)

  /** Duplicate test: some item of the pre-set occurs in every transaction of tids. */
  predicate Subsumed(db: Database, tids: set<nat>, pre: set<nat>) {
    exists q :: q in pre && tids <= Tids(db, {q})
  }

  /** The post items that the closure takes in, and those left for the recursion. */
  function Absorbed(db: Database, tids: set<nat>, post: seq<nat>): set<nat> {
    set q | q in post && tids <= Tids(db, {q})
  }

  function Remaining(db: Database, tids: set<nat>, post: seq<nat>): (r: seq<nat>)
    ensures |r| <= |post|
    ensures forall q :: q in r <==> q in post && !(tids <= Tids(db, {q}))
    ensures NoRepeat(post) ==> NoRepeat(r)
  {
    if post == [] then []
    else
      var r := Remaining(db, tids, post[1..]);
      if tids <= Tids(db, {post[0]}) then r else [post[0]] + r
  }

  lemma {:induction false} RemainingSnoc(db: Database, tids: set<nat>, s: seq<nat>, q: nat)
    ensures Remaining(db, tids, s + [q])
         == if tids <= Tids(db, {q}) then Remaining(db, tids, s) else Remaining(db, tids, s) + [q]
  {
    if s == [] {
      assert ([] + [q])[1..] == [];
    } else {
      assert (s + [q])[1..] == s[1..] + [q];
      RemainingSnoc(db, tids, s[1..], q);
    }
  }

  lemma AbsorbedSnoc(db: Database, tids: set<nat>, s: seq<nat>, q: nat)
    ensures Absorbed(db, tids, s + [q]) == Absorbed(db, tids, s) + if tids <= Tids(db, {q}) then {q} else {}
  {
    hide Tids;
  }

  /** The closure loop for gen before post item j: xs are the items of the closed set so far, r those
      left for the next level. */
  ghost predicate ClosingSets(db: Database, gen: Itemset, ids: seq<nat>, i: nat, j: nat, xs: seq<nat>, r: seq<nat>) {
    && i < j <= |ids|
    && Elems(xs) == gen + Absorbed(db, Tids(db, gen), ids[i + 1..j])
    && r == Remaining(db, Tids(db, gen), ids[i + 1..j])
  }

  lemma ClosingSetsStart(db: Database, gen: Itemset, ids: seq<nat>, i: nat, xs: seq<nat>)
    requires i < |ids| && Elems(xs) == gen
    ensures ClosingSets(db, gen, ids, i, i + 1, xs, [])
  {
    assert ids[i + 1..i + 1] == [];
  }

  lemma ClosingSetsStep(db: Database, gen: Itemset, ids: seq<nat>, i: nat, j: nat, xs: seq<nat>, r: seq<nat>)
    requires ClosingSets(db, gen, ids, i, j, xs, r) && j < |ids|
    ensures if Tids(db, gen) <= Tids(db, {ids[j]})
            then ClosingSets(db, gen, ids, i, j + 1, xs + [ids[j]], r)
            else ClosingSets(db, gen, ids, i, j + 1, xs, r + [ids[j]])
  {
    hide Tids, Absorbed, Elems, Remaining;
    assert ids[i + 1..j + 1] == ids[i + 1..j] + [ids[j]];
    AbsorbedSnoc(db, Tids(db, gen), ids[i + 1..j], ids[j]);
    ElemsSnoc(xs, ids[j]);
    RemainingSnoc(db, Tids(db, gen), ids[i + 1..j], ids[j]);
  }

  /** q fails as a generator of x: with x it is too rare, or a pre item subsumes it. */
  predicate Covered(db: Database, min: nat, x: Itemset, pre: set<nat>, q: nat) {
    var tids := Tids(db, x + {q});
    |tids| < min || Subsumed(db, tids, pre)
  }

  function Rejected(db: Database, min: nat, x: Itemset, q: nat): Event {
    if Supp(db, x + {q}) < min then Infrequent(x + {q}) else Duplicate(x + {q})
  }

  /** The closed set a good generator produces. */
  function Produced(db: Database, x: Itemset, post: seq<nat>, i: nat): Itemset
    requires i < |post|
  {
    x + {post[i]} + Absorbed(db, Tids(db, x + {post[i]}), post[i + 1..])
  }

  /** The post list left to its recursive call. */
  function Left(db: Database, x: Itemset, post: seq<nat>, i: nat): (r: seq<nat>)
    requires i < |post|
    ensures |r| + i < |post|
  {
    Remaining(db, Tids(db, x + {post[i]}), post[i + 1..])
  }

  /** The run of Mine over generators post[i..ub) of the frame (x, pre, post). */
  function Walk(db: Database, min: nat, x: Itemset, pre: set<nat>, post: seq<nat>, i: nat, ub: nat): seq<Event>
    requires i <= ub <= |post|
    decreases |post|, ub - i
  {
    if i == ub then []
    else if Covered(db, min, x, pre, post[i]) then
      [Rejected(db, min, x, post[i])] + Walk(db, min, x, pre, post, i + 1, ub)
    else
      var c, rest := Produced(db, x, post, i), Left(db, x, post, i);
      [Found(c, Supp(db, x + {post[i]}))] + Walk(db, min, c, pre, rest, 0, |rest|)
      + Walk(db, min, x, pre + {post[i]}, post, i + 1, ub)
  }

  /** Why a run rejects a generator: too few transactions, or none of its own. */
  lemma {:induction false} WalkRejects(db: Database, min: nat, x: Itemset, pre: set<nat>, post: seq<nat>, i: nat,
                                       ub: nat, e: Event)
    requires i <= ub <= |post| && e in Walk(db, min, x, pre, post, i, ub)
    ensures e.Infrequent? ==> Supp(db, e.gen) < min
    ensures e.Duplicate? ==> Supp(db, e.gen) >= min
    decreases |post|, ub - i
  {
    hide Supp, Covered, Produced, Left, Walk;
    WalkEnd(db, min, x, pre, post, ub);
    if i < ub {
      WalkStep(db, min, x, pre, post, i, ub);
      if Covered(db, min, x, pre, post[i]) {
        if e != Rejected(db, min, x, post[i]) { WalkRejects(db, min, x, pre, post, i + 1, ub, e); }
      } else if e in Walk(db, min, Produced(db, x, post, i), pre, Left(db, x, post, i), 0, |Left(db, x, post, i)|) {
        WalkRejects(db, min, Produced(db, x, post, i), pre, Left(db, x, post, i), 0, |Left(db, x, post, i)|, e);
      } else if e in Walk(db, min, x, pre + {post[i]}, post, i + 1, ub) {
        WalkRejects(db, min, x, pre + {post[i]}, post, i + 1, ub, e);
      }
    }
  }

  /** The next generator of a run. */
  lemma WalkStep(db: Database, min: nat, x: Itemset, pre: set<nat>, post: seq<nat>, i: nat, ub: nat)
    requires i < ub <= |post|
    ensures Covered(db, min, x, pre, post[i]) ==>
      Walk(db, min, x, pre, post, i, ub)
        == [Rejected(db, min, x, post[i])] + Walk(db, min, x, pre, post, i + 1, ub)
    ensures !Covered(db, min, x, pre, post[i]) ==>
      Walk(db, min, x, pre, post, i, ub)
        == [Found(Produced(db, x, post, i), Supp(db, x + {post[i]}))]
           + Walk(db, min, Produced(db, x, post, i), pre, Left(db, x, post, i), 0, |Left(db, x, post, i)|)
           + Walk(db, min, x, pre + {post[i]}, post, i + 1, ub)
  {
    hide Covered, Rejected, Produced, Left, Supp;
  }

  lemma WalkEnd(db: Database, min: nat, x: Itemset, pre: set<nat>, post: seq<nat>, i: nat)
    requires i <= |post|
    ensures Walk(db, min, x, pre, post, i, i) == []
  {
  }

  // ---------------------------------------------------------------------------------------
  // The pre-set may be enlarged by generators that failed.
  // ---------------------------------------------------------------------------------------

  lemma CoveredMonotone(db: Database, min: nat, x: Itemset, pre: set<nat>, x': Itemset, pre': set<nat>, q: nat)
    requires Covered(db, min, x, pre, q) && x <= x' && pre <= pre'
    ensures Covered(db, min, x', pre', q)
  {
    SuppAntitone(db, x + {q}, x' + {q});
    TidsAntitone(db, x + {q}, x' + {q});
  }

  /** Adding covered items to the pre-set changes no duplicate decision on a frequent generator. */
  lemma SameDecision(db: Database, min: nat, x: Itemset, pre: set<nat>, pre': set<nat>, gen: Itemset)
    requires pre <= pre' && x <= gen
    requires forall q :: q in pre' - pre ==> Covered(db, min, x, pre, q)
    requires |Tids(db, gen)| >= min
    ensures Subsumed(db, Tids(db, gen), pre) <==> Subsumed(db, Tids(db, gen), pre')
  {
    var tids := Tids(db, gen);
    if Subsumed(db, tids, pre') {
      var q :| q in pre' && tids <= Tids(db, {q});
      if q !in pre {
        TidsUnion(db, x, {q});
        TidsAntitone(db, x, gen);
        assert tids <= Tids(db, x + {q});
        SubsetCard(tids, Tids(db, x + {q}));
        assert Covered(db, min, x, pre, q);
      }
    }
  }

  /** Adding covered items to the pre-set decides no generator differently. */
  lemma SameVerdict(db: Database, min: nat, x: Itemset, pre: set<nat>, pre': set<nat>, p: nat)
    requires pre <= pre'
    requires forall q :: q in pre' - pre ==> Covered(db, min, x, pre, q)
    ensures Covered(db, min, x, pre, p) <==> Covered(db, min, x, pre', p)
  {
    if |Tids(db, x + {p})| >= min {
      SameDecision(db, min, x, pre, pre', x + {p});
    }
  }

  lemma {:induction false} PreIrrelevant(db: Database, min: nat, x: Itemset, pre: set<nat>, pre': set<nat>,
                                         post: seq<nat>, i: nat, ub: nat)
    requires i <= ub <= |post|
    requires pre <= pre'
    requires forall q :: q in pre' - pre ==> Covered(db, min, x, pre, q)
    ensures Walk(db, min, x, pre, post, i, ub) == Walk(db, min, x, pre', post, i, ub)
    decreases |post|, ub - i
  {
    hide Covered, Rejected, Produced, Left, Supp, Walk;
    if i == ub {
      WalkEnd(db, min, x, pre, post, i);
      WalkEnd(db, min, x, pre', post, i);
    } else {
      var p := post[i];
      SameVerdict(db, min, x, pre, pre', p);
      WalkStep(db, min, x, pre, post, i, ub);
      WalkStep(db, min, x, pre', post, i, ub);
      if Covered(db, min, x, pre, p) {
        PreIrrelevant(db, min, x, pre, pre', post, i + 1, ub);
      } else {
        var c, rest := Produced(db, x, post, i), Left(db, x, post, i);
        forall q | q in pre' - pre ensures Covered(db, min, c, pre, q) {
          ProducedExtends(db, x, post, i);
          CoveredMonotone(db, min, x, pre, c, pre, q);
        }
        PreIrrelevant(db, min, c, pre, pre', rest, 0, |rest|);
        forall q | q in (pre' + {p}) - (pre + {p}) ensures Covered(db, min, x, pre + {p}, q) {
          CoveredMonotone(db, min, x, pre, x, pre + {p}, q);
        }
        PreIrrelevant(db, min, x, pre + {p}, pre' + {p}, post, i + 1, ub);
      }
    }
  }

  lemma ProducedExtends(db: Database, x: Itemset, post: seq<nat>, i: nat)
    requires i < |post|
    ensures x + {post[i]} <= Produced(db, x, post, i) <= x + Elems(post[i..])
  {
    hide Tids;
    assert post[i..] == [post[i]] + post[i + 1..];
  }

  lemma ProducedShift(db: Database, x: Itemset, post: seq<nat>, k: nat, i: nat)
    requires k <= i < |post|
    ensures Produced(db, x, post[k..], i - k) == Produced(db, x, post, i)
    ensures Left(db, x, post[k..], i - k) == Left(db, x, post, i)
  {
    assert post[k..][i - k + 1..] == post[i + 1..];
  }

  /** Only the generators still to come and the post items behind them matter. */
  lemma {:induction false} DropVisited(db: Database, min: nat, x: Itemset, pre: set<nat>, post: seq<nat>, k: nat,
                                       i: nat, ub: nat)
    requires k <= i <= ub <= |post|
    ensures Walk(db, min, x, pre, post, i, ub) == Walk(db, min, x, pre, post[k..], i - k, ub - k)
    decreases ub - i
  {
    hide Covered, Rejected, Produced, Left, Supp, Walk;
    if i == ub {
      WalkEnd(db, min, x, pre, post, i);
      WalkEnd(db, min, x, pre, post[k..], i - k);
    } else {
      ProducedShift(db, x, post, k, i);
      WalkStep(db, min, x, pre, post, i, ub);
      WalkStep(db, min, x, pre, post[k..], i - k, ub - k);
      DropVisited(db, min, x, pre, post, k, i + 1, ub);
      DropVisited(db, min, x, pre + {post[i]}, post, k, i + 1, ub);
    }
  }

  /** Cutting a frame at mid: the second half may be walked elsewhere, with all generators of
      the first half, successful or not, in its pre-set. */
  lemma {:induction false} CutFrame(db: Database, min: nat, x: Itemset, pre: set<nat>, post: seq<nat>,
                                    i: nat, mid: nat, ub: nat)
    requires i <= mid <= ub <= |post|
    ensures Walk(db, min, x, pre, post, i, ub)
         == Walk(db, min, x, pre, post, i, mid) + Walk(db, min, x, pre + Elems(post[i..mid]), post[mid..], 0, ub - mid)
    decreases mid - i
  {
    hide Covered, Rejected, Produced, Left, Supp, Walk;
    if i == mid {
      assert pre + Elems(post[i..mid]) == pre;
      DropVisited(db, min, x, pre, post, mid, mid, ub);
      WalkEnd(db, min, x, pre, post, i);
    } else {
      var p := post[i];
      var later := Elems(post[i + 1..mid]);
      assert pre + Elems(post[i..mid]) == pre + {p} + later by {
        assert post[i..mid] == [p] + post[i + 1..mid];
      }
      WalkStep(db, min, x, pre, post, i, ub);
      WalkStep(db, min, x, pre, post, i, mid);
      if Covered(db, min, x, pre, p) {
        CoveredMonotone(db, min, x, pre, x, pre + later, p);
        PreIrrelevant(db, min, x, pre + later, pre + {p} + later, post[mid..], 0, ub - mid);
        CutFrame(db, min, x, pre, post, i + 1, mid, ub);
      } else {
        CutFrame(db, min, x, pre + {p}, post, i + 1, mid, ub);
      }
    }
  }
}
