/** The walk finds every closed frequent itemset of its frame exactly once. */
module DciExact {
  import opened Basics
  import opened ClosedSets
  import opened DciWalk

  /** What a frame (x, pre, post) is responsible for, from generator i on: the frequent closed
      proper supersets of x that use post items only, avoid the pre-set, and whose first post
      item lies before ub. */
  ghost predicate InScope(db: Database, n: nat, min: nat, x: Itemset, pre: set<nat>, post: seq<nat>, i: nat, ub: nat,
                          c: Itemset)
    requires i <= ub <= |post|
  {
    && IsClosed(db, n, c)
    && Supp(db, c) >= min
    && x <= c <= x + Elems(post[i..])
    && c !! pre
    && (exists k :: i <= k < ub && post[k] in c)
  }

  /** The frame is complete: an item outside x and the post-set is in the pre-set, or covered. */
  ghost predicate FrameOk(db: Database, n: nat, min: nat, x: Itemset, pre: set<nat>, post: seq<nat>, i: nat)
    requires i <= |post|
  {
    && (forall q :: q in x || q in pre || q in post ==> q < n)
    && NoRepeat(post)
    && x !! Elems(post)
    && (forall q: nat :: q < n && q !in x && q !in pre && q !in post[i..] ==> Covered(db, min, x, pre, q))
  }

  ghost predicate Exactly(db: Database, n: nat, min: nat, x: Itemset, pre: set<nat>, post: seq<nat>, i: nat, ub: nat,
                          r: seq<Event>)
    requires i <= ub <= |post|
  {
    forall c, s :: Found(c, s) in r <==> InScope(db, n, min, x, pre, post, i, ub, c) && s == Supp(db, c)
  }

  ghost predicate FoundOnce(r: seq<Event>) {
    forall a, b :: 0 <= a < b < |r| && r[a].Found? && r[b].Found? ==> r[a].items != r[b].items
  }

  /** A closed frequent set that contains x and a covered item meets the pre-set. */
  lemma CoveredMeetsPre(db: Database, n: nat, min: nat, x: Itemset, pre: set<nat>, p: nat, c: Itemset)
    requires Covered(db, min, x, pre, p) && x <= c && p in c
    requires IsClosed(db, n, c) && Supp(db, c) >= min && forall q :: q in pre ==> q < n
    ensures !(c !! pre)
  {
    var gen := x + {p};
    SuppAntitone(db, gen, c);
    var q :| q in pre && Tids(db, gen) <= Tids(db, {q});
    ClosedAbsorbs(db, n, gen, c, q);
  }

  /** A failed generator is in no closed set of the frame. */
  lemma FailedGenerator(db: Database, n: nat, min: nat, x: Itemset, pre: set<nat>, post: seq<nat>, i: nat, ub: nat,
                        c: Itemset)
    requires i < ub <= |post| && FrameOk(db, n, min, x, pre, post, i)
    requires Covered(db, min, x, pre, post[i])
    ensures InScope(db, n, min, x, pre, post, i, ub, c) <==> InScope(db, n, min, x, pre, post, i + 1, ub, c)
  {
    assert post[i..] == [post[i]] + post[i + 1..];
    if IsClosed(db, n, c) && Supp(db, c) >= min && x <= c && post[i] in c {
      CoveredMeetsPre(db, n, min, x, pre, post[i], c);
    }
  }

  lemma FailedFrame(db: Database, n: nat, min: nat, x: Itemset, pre: set<nat>, post: seq<nat>, i: nat)
    requires i < |post| && FrameOk(db, n, min, x, pre, post, i)
    requires Covered(db, min, x, pre, post[i])
    ensures FrameOk(db, n, min, x, pre, post, i + 1)
  {
    assert post[i..] == [post[i]] + post[i + 1..];
  }

  /** The set built from a good generator is its closure. */
  lemma BuildsClosure(db: Database, n: nat, min: nat, x: Itemset, pre: set<nat>, post: seq<nat>, i: nat)
    requires i < |post| && FrameOk(db, n, min, x, pre, post, i)
    requires !Covered(db, min, x, pre, post[i])
    ensures var gen := x + {post[i]};
            var c := Produced(db, x, post, i);
            c == Closure(db, n, gen) && IsClosed(db, n, c) && Tids(db, c) == Tids(db, gen) && c !! pre
  {
    var p := post[i];
    var gen := x + {p};
    var tids := Tids(db, gen);
    var c := Produced(db, x, post, i);
    assert post[i..] == [p] + post[i + 1..];
    forall q: nat | q < n && tids <= Tids(db, {q}) ensures q in c {
      if q !in c {
        assert q !in pre;
        assert q !in post[i..];
        assert Covered(db, min, x, pre, q);
        TidsUnion(db, x, {q});
        TidsAntitone(db, x, gen);
        assert tids <= Tids(db, x + {q});
        SubsetCard(tids, Tids(db, x + {q}));
        assert false;
      }
    }
    TidsOfMembers(db, gen, gen);
    TidsOfMembers(db, gen, c);
    TidsAntitone(db, gen, c);
    assert Tids(db, c) == tids;
    assert forall q :: q in c ==> q < n;
    assert c == Closure(db, n, gen);
  }

  /** The frame of the recursive call is complete again. */
  lemma ChildFrame(db: Database, n: nat, min: nat, x: Itemset, pre: set<nat>, post: seq<nat>, i: nat)
    requires i < |post| && FrameOk(db, n, min, x, pre, post, i)
    ensures FrameOk(db, n, min, Produced(db, x, post, i), pre, Left(db, x, post, i), 0)
  {
    var c, rest := Produced(db, x, post, i), Left(db, x, post, i);
    assert post[i..] == [post[i]] + post[i + 1..];
    assert rest[0..] == rest;
    forall q: nat | q < n && q !in c && q !in pre && q !in rest ensures Covered(db, min, c, pre, q) {
      assert q !in post[i..];
      CoveredMonotone(db, min, x, pre, c, pre, q);
    }
  }

  lemma NextFrame(db: Database, n: nat, min: nat, x: Itemset, pre: set<nat>, post: seq<nat>, i: nat)
    requires i < |post| && FrameOk(db, n, min, x, pre, post, i)
    ensures FrameOk(db, n, min, x, pre + {post[i]}, post, i + 1)
  {
    var pre' := pre + {post[i]};
    assert post[i..] == [post[i]] + post[i + 1..];
    forall q: nat | q < n && q !in x && q !in pre' && q !in post[i + 1..] ensures Covered(db, min, x, pre', q) {
      CoveredMonotone(db, min, x, pre, x, pre', q);
    }
  }

  lemma ProducedInScope(db: Database, n: nat, min: nat, x: Itemset, pre: set<nat>, post: seq<nat>, i: nat, ub: nat,
                        c: Itemset)
    requires i < ub <= |post|
    requires IsClosed(db, n, c) && Supp(db, c) >= min && c !! pre
    requires var c0, rest := Produced(db, x, post, i), Left(db, x, post, i);
             c == c0 || (c0 <= c <= c0 + Elems(rest))
    ensures InScope(db, n, min, x, pre, post, i, ub, c)
  {
    assert post[i..] == [post[i]] + post[i + 1..];
    assert post[i] in c;
  }

  lemma ScopeInProduced(db: Database, n: nat, min: nat, x: Itemset, pre: set<nat>, post: seq<nat>, i: nat, ub: nat,
                        c: Itemset)
    requires i < ub <= |post|
    requires InScope(db, n, min, x, pre, post, i, ub, c) && post[i] in c
    requires forall q :: q in Produced(db, x, post, i) ==> q < n && Tids(db, x + {post[i]}) <= Tids(db, {q})
    ensures var c0, rest := Produced(db, x, post, i), Left(db, x, post, i);
            c == c0 || InScope(db, n, min, c0, pre, rest, 0, |rest|, c)
  {
    hide Supp, Closure, IsClosed, Tids;
    var gen := x + {post[i]};
    var c0, rest := Produced(db, x, post, i), Left(db, x, post, i);
    forall q | q in c0 ensures q in c { ClosedAbsorbs(db, n, gen, c, q); }
    forall q | q in c && q !in c0 ensures q in rest {
      assert post[i..] == [post[i]] + post[i + 1..];
      assert q in post[i + 1..];
    }
    if c != c0 {
      var q :| q in c && q !in c0;
      var k :| 0 <= k < |rest| && rest[k] == q;
      assert rest[0..] == rest;
    }
  }

  lemma ScopeWithGenerator(db: Database, n: nat, min: nat, x: Itemset, pre: set<nat>, post: seq<nat>, i: nat,
                           ub: nat, c: Itemset)
    requires i < ub <= |post| && FrameOk(db, n, min, x, pre, post, i)
    requires !Covered(db, min, x, pre, post[i])
    requires post[i] in c
    ensures var c0, rest := Produced(db, x, post, i), Left(db, x, post, i);
            InScope(db, n, min, x, pre, post, i, ub, c) <==> c == c0 || InScope(db, n, min, c0, pre, rest, 0, |rest|, c)
  {
    var c0, rest := Produced(db, x, post, i), Left(db, x, post, i);
    BuildsClosure(db, n, min, x, pre, post, i);
    assert rest[0..] == rest;
    if InScope(db, n, min, x, pre, post, i, ub, c) {
      ScopeInProduced(db, n, min, x, pre, post, i, ub, c);
    }
    if c == c0 || InScope(db, n, min, c0, pre, rest, 0, |rest|, c) {
      ProducedInScope(db, n, min, x, pre, post, i, ub, c);
    }
  }

  lemma ScopeWithoutGenerator(db: Database, n: nat, min: nat, x: Itemset, pre: set<nat>, post: seq<nat>, i: nat,
                              ub: nat, c: Itemset)
    requires i < ub <= |post| && FrameOk(db, n, min, x, pre, post, i)
    requires post[i] !in c
    ensures InScope(db, n, min, x, pre, post, i, ub, c) <==> InScope(db, n, min, x, pre + {post[i]}, post, i + 1, ub, c)
  {
    assert post[i..] == [post[i]] + post[i + 1..];
  }

  /** A good generator splits the scope in three disjoint parts: its closure, the closure's proper
      supersets (the recursion), and the sets without the generator (the rest of the loop). */
  lemma SplitScope(db: Database, n: nat, min: nat, x: Itemset, pre: set<nat>, post: seq<nat>, i: nat, ub: nat,
                   c: Itemset)
    requires i < ub <= |post| && FrameOk(db, n, min, x, pre, post, i)
    requires !Covered(db, min, x, pre, post[i])
    ensures var c0, rest := Produced(db, x, post, i), Left(db, x, post, i);
            var inChild := InScope(db, n, min, c0, pre, rest, 0, |rest|, c);
            var inNext := InScope(db, n, min, x, pre + {post[i]}, post, i + 1, ub, c);
            && (InScope(db, n, min, x, pre, post, i, ub, c) <==> c == c0 || inChild || inNext)
            && !(c == c0 && inChild) && !(c == c0 && inNext) && !(inChild && inNext)
  {
    var c0, rest := Produced(db, x, post, i), Left(db, x, post, i);
    assert forall k :: 0 <= k < |rest| ==> rest[k] in rest;
    assert c0 !! Elems(rest) by {
      assert post[i..] == [post[i]] + post[i + 1..];
    }
    if post[i] in c {
      ScopeWithGenerator(db, n, min, x, pre, post, i, ub, c);
    } else {
      ScopeWithoutGenerator(db, n, min, x, pre, post, i, ub, c);
    }
  }

  /** Nothing missed, nothing twice, every support exact. */
  lemma {:induction false} WalkExact(db: Database, n: nat, min: nat, x: Itemset, pre: set<nat>, post: seq<nat>,
                                     i: nat, ub: nat)
    requires i <= ub <= |post| && FrameOk(db, n, min, x, pre, post, i)
    ensures Exactly(db, n, min, x, pre, post, i, ub, Walk(db, min, x, pre, post, i, ub))
    ensures FoundOnce(Walk(db, min, x, pre, post, i, ub))
    decreases |post|, ub - i
  {
    hide Covered, Rejected, Produced, Left, InScope, FrameOk;
    var r := Walk(db, min, x, pre, post, i, ub);
    if i == ub {
      NothingInScope(db, n, min, x, pre, post, i);
    } else if Covered(db, min, x, pre, post[i]) {
      FailedFrame(db, n, min, x, pre, post, i);
      WalkExact(db, n, min, x, pre, post, i + 1, ub);
      var r' := Walk(db, min, x, pre, post, i + 1, ub);
      RejectedIsNotFound(db, min, x, post[i]);
      assert r[1..] == r' && !r[0].Found?;
      forall c, s ensures Found(c, s) in r <==> InScope(db, n, min, x, pre, post, i, ub, c) && s == Supp(db, c) {
        FailedGenerator(db, n, min, x, pre, post, i, ub, c);
        assert Found(c, s) in r <==> Found(c, s) in r';
      }
    } else {
      GoodGenerator(db, n, min, x, pre, post, i, ub);
    }
  }

  lemma NothingInScope(db: Database, n: nat, min: nat, x: Itemset, pre: set<nat>, post: seq<nat>, i: nat)
    requires i <= |post|
    ensures forall c :: !InScope(db, n, min, x, pre, post, i, i, c)
  {
  }

  lemma RejectedIsNotFound(db: Database, min: nat, x: Itemset, q: nat)
    ensures !Rejected(db, min, x, q).Found?
  {
  }

  lemma {:induction false} GoodGenerator(db: Database, n: nat, min: nat, x: Itemset, pre: set<nat>, post: seq<nat>,
                                         i: nat, ub: nat)
    requires i < ub <= |post| && FrameOk(db, n, min, x, pre, post, i)
    requires !Covered(db, min, x, pre, post[i])
    ensures Exactly(db, n, min, x, pre, post, i, ub, Walk(db, min, x, pre, post, i, ub))
    ensures FoundOnce(Walk(db, min, x, pre, post, i, ub))
    decreases |post|, ub - i, 0
  {
    hide Covered, Rejected, Produced, Left, InScope, FrameOk, FoundOnce;
    var c0, rest := Produced(db, x, post, i), Left(db, x, post, i);
    ChildFrame(db, n, min, x, pre, post, i);
    NextFrame(db, n, min, x, pre, post, i);
    BuildsClosure(db, n, min, x, pre, post, i);
    WalkExact(db, n, min, c0, pre, rest, 0, |rest|);
    WalkExact(db, n, min, x, pre + {post[i]}, post, i + 1, ub);
    var head := Found(c0, Supp(db, c0));
    var child := Walk(db, min, c0, pre, rest, 0, |rest|);
    var next := Walk(db, min, x, pre + {post[i]}, post, i + 1, ub);
    forall c, s
      ensures Found(c, s) in [head] + child + next <==> InScope(db, n, min, x, pre, post, i, ub, c) && s == Supp(db, c)
      ensures !(Found(c, s) in child && c == c0) && !(Found(c, s) in next && c == c0)
      ensures forall s' :: !(Found(c, s) in child && Found(c, s') in next)
    {
      SplitScope(db, n, min, x, pre, post, i, ub, c);
    }
    FoundOnceConcat(head, child, next);
  }

  lemma FoundOnceConcat(head: Event, child: seq<Event>, next: seq<Event>)
    requires head.Found? && FoundOnce(child) && FoundOnce(next)
    requires forall c, s :: !(Found(c, s) in child && c == head.items) && !(Found(c, s) in next && c == head.items)
    requires forall c, s, s' :: !(Found(c, s) in child && Found(c, s') in next)
    ensures FoundOnce([head] + child + next)
  {
    var r := [head] + child + next;
    forall a, b | 0 <= a < b < |r| && r[a].Found? && r[b].Found? ensures r[a].items != r[b].items {
      var d := 1 + |child|;
      assert a == 0 || (a < d && r[a] == child[a - 1]) || (a >= d && r[a] == next[a - d]);
      assert (b < d && r[b] == child[b - 1]) || (b >= d && r[b] == next[b - d]);
      assert Found(r[a].items, r[a].supp) == r[a] && Found(r[b].items, r[b].supp) == r[b];
    }
  }
}
