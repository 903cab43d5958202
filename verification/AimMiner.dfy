/** AIM's miner: the path with its absorbed items, and a mask or diffset per extension. */
module AimMiner {
  import opened Basics
  import opened ClosedSets
  import opened AimMasks
  import opened AimExpand

  /** An extension of the current path by one item. counted is the bit count stored with the mask, which
      CountElements has set. */
  datatype CItemset = CItemset(support: nat, mask: Mask, counted: nat, lastItem: nat)

  /** One level of the path: its item, and the items absorbed at it. */
  datatype LevelInfo = LevelInfo(item: nat, pep: seq<nat>)

  function Opts(pep: seq<nat>): seq<Token> {
    if pep == [] then [] else [Token(pep[0], true)] + Opts(pep[1..])
  }

  /** The path above a level, flattened: the items of the lower levels and all they have absorbed. */
  function TokensOf(info: seq<LevelInfo>, level: nat): seq<Token>
    requires level < |info|
  {
    if level == 0 then []
    else TokensOf(info, level - 1) + [Token(info[level - 1].item, false)] + Opts(info[level].pep)
  }

  /** What RecurseBuildFI still has to go through, from PEP item pep of level cur (-1: its own item). */
  function TokensFrom(info: seq<LevelInfo>, cur: nat, pep: int, max: nat): seq<Token>
    requires max + 1 < |info| && cur <= max + 1 && -1 <= pep && (pep > 0 ==> cur <= max && pep <= |info[cur + 1].pep|)
    decreases max + 1 - cur, if pep == -1 then 1 else 0, if cur <= max then |info[cur + 1].pep| - pep else 0
  {
    if cur > max then []
    else if pep == -1 then [Token(info[cur].item, false)] + TokensFrom(info, cur, 0, max)
    else if pep < |info[cur + 1].pep| then [Token(info[cur + 1].pep[pep], true)] + TokensFrom(info, cur, pep + 1, max)
    else TokensFrom(info, cur + 1, -1, max)
  }

  /** One step of it. */
  lemma FromStep(info: seq<LevelInfo>, cur: nat, pep: int, max: nat)
    requires max + 1 < |info| && cur <= max && -1 <= pep && (pep > 0 ==> pep <= |info[cur + 1].pep|)
    ensures pep == -1 ==>
              TokensFrom(info, cur, pep, max) == [Token(info[cur].item, false)] + TokensFrom(info, cur, 0, max)
    ensures 0 <= pep < |info[cur + 1].pep| ==>
              TokensFrom(info, cur, pep, max)
              == [Token(info[cur + 1].pep[pep], true)] + TokensFrom(info, cur, pep + 1, max)
    ensures pep >= |info[cur + 1].pep| ==> TokensFrom(info, cur, pep, max) == TokensFrom(info, cur + 1, -1, max)
  {
  }

  lemma {:induction false} FromPep(info: seq<LevelInfo>, cur: nat, pep: nat, max: nat)
    requires max + 1 < |info| && cur <= max && pep <= |info[cur + 1].pep|
    ensures TokensFrom(info, cur, pep, max) == Opts(info[cur + 1].pep[pep..]) + TokensFrom(info, cur + 1, -1, max)
    decreases |info[cur + 1].pep| - pep
  {
    hide TokensFrom, Opts;
    FromStep(info, cur, pep, max);
    OptsStep(info[cur + 1].pep, pep);
    if pep < |info[cur + 1].pep| {
      FromPep(info, cur, pep + 1, max);
    }
  }

  lemma OptsStep(s: seq<nat>, i: nat)
    requires i <= |s|
    ensures Opts(s[i..]) == if i < |s| then [Token(s[i], true)] + Opts(s[i + 1..]) else []
  {
    if i < |s| { assert s[i..][1..] == s[i + 1..]; }
  }

  lemma {:induction false} FromIsOf(info: seq<LevelInfo>, cur: nat, max: nat)
    requires max + 1 < |info| && cur <= max + 1
    ensures TokensOf(info, cur) + TokensFrom(info, cur, -1, max) == TokensOf(info, max + 1)
    decreases max + 1 - cur
  {
    if cur <= max {
      FromIsOf(info, cur + 1, max);
      FromPep(info, cur, 0, max);
      assert info[cur + 1].pep[0..] == info[cur + 1].pep;
    }
  }

  /** TokensOf looks at the items below the level, and the PEP lists up to it. */
  lemma {:induction false} TokensSame(a: seq<LevelInfo>, b: seq<LevelInfo>, level: nat)
    requires level < |a| && level < |b|
    requires forall k :: 0 <= k < level ==> a[k] == b[k]
    requires a[level].pep == b[level].pep
    ensures TokensOf(a, level) == TokensOf(b, level)
  {
    if level > 0 { TokensSame(a, b, level - 1); }
  }

  // ---------------------------------------------------------------------------------------
  // Supports and representation
  // ---------------------------------------------------------------------------------------

  datatype Kind = TidSets | DiffSets

  /** c extends the path p by one item, in the coordinates of space: its mask holds the transactions
      of the extended path, or those the extension loses, and its support is exact. */
  ghost predicate MaskOk(db: Database, space: seq<nat>, kind: Kind, p: Itemset, c: CItemset) {
    var with := Tids(db, p + {c.lastItem});
    && c.support == |with| && c.counted == |c.mask|
    && Repr(space, c.mask, if kind.TidSets? then with else Tids(db, p) - with)
  }

  /** The whole node: the masks of a call share one space and one kind. */
  datatype Node = Node(space: seq<nat>, kind: Kind, parent: Itemset)

  ghost predicate NodeOk(db: Database, node: Node, head: Option<CItemset>) {
    && IsSpace(node.space)
    && match head
       case None => node.kind.TidSets? && node.parent == {}
       case Some(h) => MaskOk(db, node.space, node.kind, node.parent, h) && h.lastItem !in node.parent
  }

  /** The path of a call: its parent's, and the head. */
  ghost function PathOf(node: Node, head: Option<CItemset>): Itemset {
    match head case None => {} case Some(h) => node.parent + {h.lastItem}
  }

  predicate Projects(transactions: nat, head: CItemset): (p: bool)
    ensures p <==> 10 * head.support >= transactions
  {
    !(transactions as real * 0.10 > head.support as real)
  }

  /** The node of the recursive calls: one space and kind for all items of the tail. */
  ghost function Below(db: Database, node: Node, head: Option<CItemset>, useDiffset: bool): Node {
    match head
    case None => node
    case Some(h) =>
      Node(if !useDiffset && Projects(|db|, h) then Compress(node.space, h.mask) else node.space,
           if useDiffset then DiffSets else TidSets,
           node.parent + {h.lastItem})
  }

  /** Project, which relies on the bit count stored with the mask that is projected on. */
  function ProjectOn(from: Mask, on: Mask, counted: nat): (m: Mask)
    requires counted == |on|
    ensures m == Project(from, on) && forall r :: r in m ==> r < counted
  {
    assert forall p :: p in on ==> Rank(on, p) < |on| by {
      forall p | p in on ensures Rank(on, p) < |on| { RankBound(on, p); }
    }
    Project(from, on)
  }

  /** The four ways of computing an extension all give the exact support, in the same coordinates. */
  method Combine(db: Database, head: CItemset, i: CItemset, useDiffset: bool, firstTimeDiffset: bool, ghost node: Node)
    returns (c: CItemset)
    requires NodeOk(db, node, Some(head)) && MaskOk(db, node.space, node.kind, node.parent, i)
    requires firstTimeDiffset ==> useDiffset
    requires node.kind == if useDiffset && !firstTimeDiffset then DiffSets else TidSets
    ensures c.lastItem == i.lastItem
    ensures var b := Below(db, node, Some(head), useDiffset);
            MaskOk(db, b.space, b.kind, b.parent, c) && IsSpace(b.space)
  {
    ghost var p := node.parent;
    ghost var th, ti := Tids(db, p + {head.lastItem}), Tids(db, p + {i.lastItem});
    ghost var both := Tids(db, p + {head.lastItem} + {i.lastItem});
    PairTids(db, p, head.lastItem, i.lastItem);
    hide Tids, Repr, IsSpace, Project, Compress;
    var mask, counted, support;
    if !useDiffset {
      if |db| as real * 0.10 > head.support as real {
        mask := i.mask * head.mask;
        ReprAnd(node.space, i.mask, ti, head.mask, th);
        ReprCard(node.space, mask, both);
      } else {
        mask := ProjectOn(i.mask, head.mask, head.counted);
        ReprProject(node.space, i.mask, ti, head.mask, th);
        CompressIsSpace(node.space, head.mask);
        ReprCard(Compress(node.space, head.mask), mask, both);
      }
      counted := |mask|;
      support := counted;
    } else {
      if firstTimeDiffset {
        mask := head.mask - i.mask;
        ReprAndNot(node.space, head.mask, th, i.mask, ti);
      } else {
        mask := i.mask - head.mask;
        ReprAndNot(node.space, i.mask, Tids(db, p) - ti, head.mask, Tids(db, p) - th);
      }
      ReprCard(node.space, mask, th - both);
      DiffCard(th, both);
      counted := |mask|;
      support := head.support - counted;
    }
    c := CItemset(support, mask, counted, i.lastItem);
  }

  lemma PairTids(db: Database, p: Itemset, h: nat, i: nat)
    ensures Tids(db, p + {i}) * Tids(db, p + {h}) == Tids(db, p + {h} + {i})
    ensures Tids(db, p + {h}) - Tids(db, p + {i}) == Tids(db, p + {h}) - Tids(db, p + {h} + {i})
    ensures (Tids(db, p) - Tids(db, p + {i})) - (Tids(db, p) - Tids(db, p + {h})) == Tids(db, p + {h}) - Tids(db,
              p + {h} + {i})
    ensures Tids(db, p + {h} + {i}) <= Tids(db, p + {h})
  {
    assert forall t :: t in Tids(db, p + {h}) ==> t in Tids(db, p);
  }

  lemma DiffCard(a: set<nat>, b: set<nat>)
    requires b <= a
    ensures |a - b| == |a| - |b|
  {
    assert a == b + (a - b);
  }
}
