/** AIM's CDFSMiner: the level table, the output buffer and the counters, updated in place around the
    recursion. */
module AimSearch {
  import opened Basics
  import opened ClosedSets
  import opened AimMasks
  import opened AimExpand
  import opened AimMiner
  import opened AimDfs
  import opened Powers

  /** Row i holds the supports of the pairs (i, j) with j < i. */
  ghost predicate PairTable(db: Database, n: nat, m: seq<seq<nat>>) {
    && |m| == n && (forall i :: 0 <= i < n ==> |m[i]| == i)
    && forall i: nat, j: nat :: j < i < n ==> m[i][j] == Supp(db, {i, j})
  }

  class DfsMiner {
    const db: Database
    const n: nat
    /** p2ItemsMatrix, when it is kept. */
    const pairSupports: Option<seq<seq<nat>>>
    const levelInfo: array<LevelInfo>
    const buf: array<nat>
    const counts: array<nat>
    var patternCount: nat
    var out: seq<Line>

    ghost predicate Valid() {
      && levelInfo.Length == n + 2 && buf.Length == n && counts.Length == n + 1 && buf != counts
      && (pairSupports.Some? ==> PairTable(db, n, pairSupports.value))
    }

    /** The counters tell how many sets of each length have been written. */
    ghost predicate Tally()
      requires Valid()
      reads this, counts
    {
      && (forall k: nat :: k <= n ==> counts[k] == OfLength(out, k))
      && patternCount + OfLength(out, 0) == |out|
    }

    ghost function Tokens(level: nat): seq<Token>
      requires Valid() && level <= n + 1
      reads levelInfo
    {
      TokensOf(levelInfo[..], level)
    }

    // -------------------------------------------------------------------------------------
    // CreateFI
    // -------------------------------------------------------------------------------------

    method RecurseBuildFI(currLevel: nat, currPEPItem: int, maxLevel: nat, support: nat, bufPos: nat)
      returns (count: nat)
      requires Valid() && maxLevel <= n && currLevel <= maxLevel + 1 && -1 <= currPEPItem
      requires currPEPItem > 0 ==> currLevel <= maxLevel && currPEPItem <= |levelInfo[currLevel + 1].pep|
      requires bufPos + |TokensFrom(levelInfo[..], currLevel, currPEPItem, maxLevel)| <= n
      modifies this`out, buf
      ensures buf[..bufPos] == old(buf[..bufPos])
      ensures var sets := Expand(TokensFrom(levelInfo[..], currLevel, currPEPItem, maxLevel), support,
                                 old(buf[..bufPos]));
              out == old(out) + sets && count == |sets|
      decreases |TokensFrom(levelInfo[..], currLevel, currPEPItem, maxLevel)|, maxLevel + 1 - currLevel, 1
    {
      ghost var info, prefix := levelInfo[..], buf[..bufPos];
      if currLevel > maxLevel {
        ExpandEnd(support, prefix);
        out := out + [Line(buf[..bufPos], support)];
        return 1;
      }
      FromStep(info, currLevel, currPEPItem, maxLevel);
      hide TokensFrom, Expand, PairTable;
      if currPEPItem == -1 {
        ExpandStep(Token(info[currLevel].item, false), TokensFrom(info, currLevel, 0, maxLevel), support, prefix);
        buf[bufPos] := levelInfo[currLevel].item;
        assert buf[..bufPos + 1] == prefix + [info[currLevel].item];
        count := RecurseBuildFI(currLevel, 0, maxLevel, support, bufPos + 1);
        assert buf[..bufPos] == buf[..bufPos + 1][..bufPos];
      } else if |levelInfo[currLevel + 1].pep| > currPEPItem {
        ExpandStep(Token(info[currLevel + 1].pep[currPEPItem], true),
                   TokensFrom(info, currLevel, currPEPItem + 1, maxLevel), support, prefix);
        count := WithAndWithout(currLevel, currPEPItem, maxLevel, support, bufPos);
      } else {
        count := RecurseBuildFI(currLevel + 1, -1, maxLevel, support, bufPos);
      }
    }

    /** An item of the path that may be left out. */
    method WithAndWithout(currLevel: nat, currPEPItem: nat, maxLevel: nat, support: nat, bufPos: nat)
      returns (count: nat)
      requires Valid() && maxLevel <= n && currLevel <= maxLevel && currPEPItem < |levelInfo[currLevel + 1].pep|
      requires bufPos + 1 + |TokensFrom(levelInfo[..], currLevel, currPEPItem + 1, maxLevel)| <= n
      modifies this`out, buf
      ensures buf[..bufPos] == old(buf[..bufPos])
      ensures var rest := TokensFrom(levelInfo[..], currLevel, currPEPItem + 1, maxLevel);
              var prefix, item := old(buf[..bufPos]), levelInfo[currLevel + 1].pep[currPEPItem];
              var sets := Expand(rest, support, prefix + [item]) + Expand(rest, support, prefix);
              out == old(out) + sets && count == |sets|
      decreases 1 + |TokensFrom(levelInfo[..], currLevel, currPEPItem + 1, maxLevel)|, maxLevel + 1 - currLevel, 0
    {
      hide TokensFrom, Expand, PairTable;
      ghost var out0, prefix, rest := out, buf[..bufPos],
          TokensFrom(levelInfo[..], currLevel, currPEPItem + 1, maxLevel);
      var item := levelInfo[currLevel + 1].pep[currPEPItem];
      // With
      buf[bufPos] := item;
      assert buf[..bufPos + 1] == prefix + [item];
      var c1 := RecurseBuildFI(currLevel, currPEPItem + 1, maxLevel, support, bufPos + 1);
      assert buf[..bufPos] == buf[..bufPos + 1][..bufPos] == prefix;
      // Without
      var c2 := RecurseBuildFI(currLevel, currPEPItem + 1, maxLevel, support, bufPos);
      count := c1 + c2;
      AppendTwice(out0, Expand(rest, support, prefix + [item]), Expand(rest, support, prefix));
    }

    method CreateFI(level: nat, support: nat) returns (count: nat)
      requires Valid() && level <= n && |Tokens(level + 1)| <= n
      modifies this`out, buf
      ensures out == old(out) + Expand(old(Tokens(level + 1)), support, [])
      ensures count == |Expand(old(Tokens(level + 1)), support, [])|
    {
      FromIsOf(levelInfo[..], 0, level);
      assert Tokens(level + 1) == TokensFrom(levelInfo[..], 0, -1, level);
      count := RecurseBuildFI(0, -1, level, support, 0);
      assert old(buf[..0]) == [];
    }

    // -------------------------------------------------------------------------------------
    // Counting without enumerating
    // -------------------------------------------------------------------------------------

    method CountFI(level: nat)
      requires Valid() && level <= n && |Tokens(level + 1)| <= n
      modifies this`patternCount, counts
      ensures patternCount == old(patternCount) + Pow2(Absorbed(old(Tokens(level + 1))))
      ensures forall k: nat :: k <= n ==>
        counts[k] == old(counts[k]) + if k < level + 1 then 0 else Choose(Absorbed(old(Tokens(level + 1))),
            k - (level + 1))
    {
      var count, countPEP := 1, 0;
      ghost var info := levelInfo[..];
      for loop := 1 to level + 2
        invariant countPEP == Absorbed(TokensOf(info, loop - 1)) && count == Pow2(countPEP)
        invariant |TokensOf(info, loop - 1)| == loop - 1 + countPEP
        modifies {}
      {
        TokensStep(info, loop);
        Pow2Add(countPEP, |levelInfo[loop].pep|);
        count := count * Pow2(|levelInfo[loop].pep|);
        countPEP := countPEP + |levelInfo[loop].pep|;
      }
      assert TokensOf(info, level + 1) == Tokens(level + 1) == old(Tokens(level + 1));
      patternCount := patternCount + count;
      CountLengths(level + 1, countPEP);
    }

    /** The running product is a binomial at every step: no division loses anything. */
    method CountLengths(baseLength: nat, countPEP: nat)
      requires Valid() && baseLength + countPEP <= n
      modifies counts
      ensures forall k: nat :: k <= n ==>
        counts[k] == old(counts[k]) + if k < baseLength then 0 else Choose(countPEP, k - baseLength)
    {
      var baseLengthInc := 1;
      counts[baseLength] := counts[baseLength] + 1;
      assert Choose(countPEP, 0) == 1;
      hide Choose;
      for loop := 0 to countPEP
        invariant baseLengthInc == Choose(countPEP, loop)
        invariant forall k: nat :: k <= n ==>
          counts[k] == old(counts[k]) + if k < baseLength ||
              k > baseLength + loop then 0 else Choose(countPEP, k - baseLength)
      {
        ChooseStep(countPEP, loop);
        DivideExactly(Choose(countPEP, loop + 1), loop + 1);
        baseLengthInc := baseLengthInc * (countPEP - loop) / (loop + 1);
        counts[baseLength + 1 + loop] := counts[baseLength + 1 + loop] + baseLengthInc;
      }
      forall k: nat | countPEP < k ensures Choose(countPEP, k) == 0 { ChooseBeyond(countPEP, k); }
    }

    // -------------------------------------------------------------------------------------
    // RecurseMine
    // -------------------------------------------------------------------------------------

    /** The support of a pair, from the row of its larger item. */
    method PairSupport(m: seq<seq<nat>>, h: nat, i: nat) returns (sup: nat)
      requires PairTable(db, n, m) && h < n && i < n && h != i
      ensures sup == Supp(db, {h} + {i})
    {
      sup := if h > i then m[h][i] else m[i][h];
      assert {h, i} == {i, h} == {h} + {i};
    }

    /** One candidate, joined with the head; the pair supports may rule it out first. */
    method Candidate(level: nat, head: Option<CItemset>, i: CItemset, minSupport: nat, useDiffset: bool,
                     firstTimeDiffset: bool,
                     ghost node: Node, ghost ts: seq<Token>)
      returns (skip: bool, c: CItemset)
      requires Valid() && PathOk(db, n, level, node, head, ts) && FlagsOk(node, useDiffset, firstTimeDiffset, head)
      requires MaskOk(db, node.space, node.kind, node.parent, i) && i.lastItem < n && i.lastItem !in All(ts)
      ensures skip <==> head.Some? && level == 1 && pairSupports.Some? &&
                        Supp(db, PathOf(node, head) + {i.lastItem}) < minSupport
      ensures !skip ==> Extends(db, Below(db, node, head, useDiffset), i.lastItem, c)
    {
      skip, c := false, i;
      if head.None? {
        ReprCard(node.space, i.mask, Tids(db, node.parent + {i.lastItem}));
        c := CItemset(|i.mask|, i.mask, |i.mask|, i.lastItem);
      } else {
        if level == 1 && pairSupports.Some? {
          HeadIsItem(db, n, level, node, head, ts);
          var sup := PairSupport(pairSupports.value, head.value.lastItem, i.lastItem);
          if minSupport > sup {
            return true, i;
          }
        }
        hide PathOk, All, Repr, IsSpace;
        c := Combine(db, head.value, i, useDiffset, firstTimeDiffset, node);
      }
    }

    /** Splits the tail into absorbed, kept and infrequent candidates. */
    method ScanTail(level: nat, head: Option<CItemset>, tail: array<CItemset>, tailCount: nat, tailStartPos: nat,
                    minSupport: nat, useDiffset: bool, firstTimeDiffset: bool, ghost node: Node)
      returns (newHeads: array<CItemset>, sortedSupport: seq<Dual>)
      requires Valid() && levelInfo.Length == n + 2 && level <= n && tailStartPos <= tailCount <= tail.Length == n
      requires FlagsOk(node, useDiffset, firstTimeDiffset, head)
      requires Ready(db, n, level, node, head, minSupport, TokensOf(levelInfo[..], level), tail[..tailCount],
                     tailStartPos)
      modifies levelInfo
      ensures fresh(newHeads) && newHeads.Length == n
      ensures Split(db, n, level, node, head, useDiffset, minSupport, tail[..tailCount], tailStartPos, tailCount,
                    old(levelInfo[..]), levelInfo[..], newHeads[..], sortedSupport)
      ensures ToldApart(db, minSupport, PathOf(node, head), head.Some?, All(TokensOf(levelInfo[..], level)),
                        tail[..tailCount], tailStartPos, tailCount, sortedSupport)
    {
      hide *;
      newHeads := new CItemset[n];
      sortedSupport := [];
      ghost var t, info0 := tail[..tailCount], levelInfo[..];
      ToldNothing(db, minSupport, PathOf(node, head), head.Some?, All(TokensOf(info0, level)), t, tailStartPos);
      ReadyHead(db, n, level, node, head, minSupport, TokensOf(info0, level), t, tailStartPos);
      SplitNothing(db, n, level, node, head, useDiffset, minSupport, t, tailStartPos, info0, newHeads[..]);
      for loopTail := tailStartPos to tailCount
        invariant tail[..tailCount] == t
        invariant Split(db, n, level, node, head, useDiffset, minSupport, t, tailStartPos, loopTail,
                        info0, levelInfo[..], newHeads[..], sortedSupport)
        invariant ToldApart(db, minSupport, PathOf(node, head), head.Some?, All(TokensOf(levelInfo[..], level)),
                            t, tailStartPos, loopTail, sortedSupport)
      {
        sortedSupport := TakeCandidate(level, head, tail[loopTail], loopTail, minSupport, useDiffset, firstTimeDiffset,
                                       newHeads, sortedSupport, node, t, tailStartPos, info0);
      }
    }

    method TakeCandidate(level: nat, head: Option<CItemset>, i: CItemset, loopTail: nat, minSupport: nat,
                         useDiffset: bool, firstTimeDiffset: bool, newHeads: array<CItemset>, sortedSupport: seq<Dual>,
                         ghost node: Node, ghost t: seq<CItemset>, ghost start: nat, ghost info0: seq<LevelInfo>)
      returns (sorted: seq<Dual>)
      requires Valid() && level <= n && loopTail < |t| && t[loopTail] == i && newHeads.Length == n
      requires FlagsOk(node, useDiffset, firstTimeDiffset, head)
      requires Split(db, n, level, node, head, useDiffset, minSupport, t, start, loopTail,
                     info0, levelInfo[..], newHeads[..], sortedSupport)
      requires head.Some? ==> head.value.support > minSupport
      requires ToldApart(db, minSupport, PathOf(node, head), head.Some?, All(TokensOf(levelInfo[..], level)),
                         t, start, loopTail, sortedSupport)
      modifies levelInfo, newHeads
      ensures Split(db, n, level, node, head, useDiffset, minSupport, t, start, loopTail + 1,
                    info0, levelInfo[..], newHeads[..], sorted)
      ensures ToldApart(db, minSupport, PathOf(node, head), head.Some?, All(TokensOf(levelInfo[..], level)),
                        t, start, loopTail + 1, sorted)
    {
      ghost var info, heads := levelInfo[..], newHeads[..];
      SplitNext(db, n, level, node, head, useDiffset, minSupport, t, start, loopTail, info0, info, heads,
                sortedSupport);
      hide *;
      var skip, c := Candidate(level, head, i, minSupport, useDiffset, firstTimeDiffset, node, TokensOf(info, level));
      sorted := sortedSupport;
      ghost var s := Supp(db, PathOf(node, head) + {i.lastItem});
      HeadSupport(db, n, level, node, head, TokensOf(info, level));
      if !skip { ExtendsSupport(db, node, head, useDiffset, i.lastItem, c); }
      if skip {
        ToldNext(db, minSupport, PathOf(node, head), head.Some?, All(TokensOf(info, level)),
                 All(TokensOf(info, level)), t, start, loopTail, sortedSupport, sorted);
        SplitDrops(db, n, level, node, head, useDiffset, minSupport, t, start, loopTail, info0, info, heads, sorted);
      } else if head.Some? && c.support == head.value.support {
        ExtendsItem(db, node, head, useDiffset, i.lastItem, c);
        SplitAbsorbs(db, n, level, node, head, useDiffset, minSupport, t, start, loopTail, info0, info, heads,
                     sorted, c);
        AllPush(info, level, c.lastItem);
        ToldNext(db, minSupport, PathOf(node, head), head.Some?, All(TokensOf(info, level)),
                 All(TokensOf(info, level)) + {c.lastItem}, t, start, loopTail, sortedSupport, sorted);
        levelInfo[level] := LevelInfo(levelInfo[level].item, levelInfo[level].pep + [c.lastItem]);
        assert levelInfo[..] == info[level := LevelInfo(info[level].item, info[level].pep + [c.lastItem])];
      } else if c.support > minSupport {
        SplitKeeps(db, n, level, node, head, useDiffset, minSupport, t, start, loopTail, info0, info, heads, sorted, c);
        newHeads[loopTail] := c;
        assert newHeads[..] == heads[loopTail := c];
        sorted := sorted + [Dual(c.support, loopTail)];
        ToldNext(db, minSupport, PathOf(node, head), head.Some?, All(TokensOf(info, level)),
                 All(TokensOf(info, level)), t, start, loopTail, sortedSupport, sorted);
      } else {
        ToldNext(db, minSupport, PathOf(node, head), head.Some?, All(TokensOf(info, level)),
                 All(TokensOf(info, level)), t, start, loopTail, sortedSupport, sorted);
        SplitDrops(db, n, level, node, head, useDiffset, minSupport, t, start, loopTail, info0, info, heads, sorted);
      }
    }

    /** Writes one path with the subsets of its absorbed items, and counts them. */
    method WriteFI(level: nat, support: nat) returns (ghost own: seq<Line>)
      requires Valid() && level <= n && |TokensOf(levelInfo[..], level + 1)| <= n && Tally()
      modifies this`out, this`patternCount, buf, counts
      ensures Tally() && out == old(out) + own && own == Expand(old(TokensOf(levelInfo[..], level + 1)), support, [])
    {
      ghost var ts, out0 := TokensOf(levelInfo[..], level + 1), out;
      own := Expand(ts, support, []);
      var _ := CreateFI(level, support);
      CountFI(level);
      TokensLength(levelInfo[..], level + 1);
      forall k: nat ensures OfLength(out0 + own, k)
        == OfLength(out0, k) + if k < level + 1 then 0 else Choose(Absorbed(ts), k - (level + 1))
      {
        OfLengthConcat(out0, own, k);
        ExpandLengths(ts, support, [], k);
      }
      ExpandSize(ts, support, []);
    }

    /** Mines everything below a path: each frequent set of the path and tail items is written once, except
        for the path itself with what has been absorbed, which the caller writes. */
    method RecurseMine(level: nat, head: Option<CItemset>, tail: array<CItemset>, tailCount: nat, tailStartPos: nat,
                       minSupport: nat, useDiffset: bool, firstTimeDiffset: bool, ghost node: Node)
      returns (ghost r: seq<Line>)
      requires Valid() && tailStartPos <= tailCount <= tail.Length == n && level + tailCount - tailStartPos <= n
      requires levelInfo.Length == n + 2
      requires FlagsOk(node, useDiffset, firstTimeDiffset, head) && Switched(db, node, head, useDiffset) && Tally()
      requires Ready(db, n, level, node, head, minSupport, TokensOf(levelInfo[..], level), tail[..tailCount],
                     tailStartPos)
      modifies this`out, this`patternCount, levelInfo, buf, counts
      ensures Tally() && out == old(out) + r
      ensures Mined(db, n, level, node, head, minSupport, old(tail[..tailCount]), tailStartPos, old(levelInfo[..]),
                    levelInfo[..], r)
      decreases tailCount - tailStartPos, 5
    {
      hide *;
      ghost var t, info0 := tail[..tailCount], levelInfo[..];
      SameLevelsSelf(info0, level);
      levelInfo[level + 1] := LevelInfo(levelInfo[level + 1].item, []);
      ghost var cleared := levelInfo[..];
      ReadyHead(db, n, level, node, head, minSupport, TokensOf(info0, level), t, tailStartPos);
      SameLevelsAbove(info0, info0, cleared, level);
      TokensSameLevels(info0, cleared, level);
      var newHeads, sortedSupport := ScanTail(level, head, tail, tailCount, tailStartPos, minSupport,
                                              useDiffset, firstTimeDiffset, node);
      var order := Sort(sortedSupport);
      ghost var info, heads := levelInfo[..], newHeads[..];
      SplitReorders(db, n, level, node, head, useDiffset, minSupport, t, tailStartPos, cleared, info, heads,
                    sortedSupport, order);
      var newerTail := Reorder(newHeads, order);
      ghost var newer := newerTail[..|order|];
      SplitResorted(db, n, level, node, head, useDiffset, minSupport, t, tailStartPos, cleared, info, heads,
                    sortedSupport, order, newer);
      r := MineHeads(level, head, newerTail, |order|, minSupport, useDiffset, firstTimeDiffset, node);
      MinedAll(db, n, level, node, head, useDiffset, minSupport, t, tailStartPos, info0, cleared, info, levelInfo[..],
               heads, sortedSupport, order, newer, r);
    }

    method Reorder(newHeads: array<CItemset>, order: seq<Dual>) returns (newerTail: array<CItemset>)
      requires newHeads.Length == n && |order| <= n && forall k :: 0 <= k < |order| ==> order[k].val < n
      ensures fresh(newerTail) && newerTail.Length == n
      ensures Newer(newHeads[..], order, newerTail[..|order|])
    {
      newerTail := new CItemset[n];
      for loop := 0 to |order|
        invariant forall k :: 0 <= k < loop ==> newerTail[k] == newHeads[order[k].val]
      {
        newerTail[loop] := newHeads[order[loop].val];
      }
    }

    method MineHeads(level: nat, head: Option<CItemset>, newerTail: array<CItemset>, count: nat, minSupport: nat,
                     useDiffset: bool, firstTimeDiffset: bool, ghost node: Node)
      returns (ghost r: seq<Line>)
      requires Valid() && count <= newerTail.Length == n && level <= n && Tally()
      requires FlagsOk(node, useDiffset, firstTimeDiffset, head)
      requires Resorted(db, n, level, node, head, useDiffset, minSupport, levelInfo[..], newerTail[..count])
      requires levelInfo[level + 1].pep == []
      modifies this`out, this`patternCount, levelInfo, buf, counts
      ensures Tally() && out == old(out) + r
      ensures SameLevels(old(levelInfo[..]), levelInfo[..], level)
      ensures HeadsDone(db, minSupport, level, node, head, old(levelInfo[..]), old(newerTail[..count]), 0, count, r)
      decreases count, 4
    {
      ghost var info, newer := levelInfo[..], newerTail[..count];
      r := [];
      assert levelInfo.Length == n + 2 && |newer| == count;
      hide *;
      HeadsStart(db, n, level, node, head, useDiffset, minSupport, info, newer);
      var baseSupport := BaseOf(db, head);
      for loopHeads := 0 to count
        invariant SameLevels(info, levelInfo[..], level) && levelInfo[level + 1].pep == []
        invariant Tally() && out == old(out) + r && newerTail[..count] == newer
        invariant HeadsDone(db, minSupport, level, node, head, info, newer, 0, loopHeads, r)
      {
        ghost var own := NextHead(level, head, newerTail, count, loopHeads, minSupport, useDiffset, firstTimeDiffset,
                                  baseSupport,
                                  node, newer, info, r);
        AppendTwice(old(out), r, own);
        r := r + own;
      }
    }

    /** The loop body of the heads, seen from the state before the first of them. */
    method NextHead(level: nat, head: Option<CItemset>, newerTail: array<CItemset>, count: nat, loopHeads: nat,
                    minSupport: nat, useDiffset: bool, firstTimeDiffset: bool, baseSupport: real,
                   ghost node: Node, ghost newer: seq<CItemset>, ghost info: seq<LevelInfo>, ghost before: seq<Line>)
      returns (ghost r: seq<Line>)
      requires Valid() && loopHeads < count == |newer| <= newerTail.Length == n && level < n && Tally() &&
               IsBase(db, node, head, baseSupport)
      requires newerTail[..count] == newer && FlagsOk(node, useDiffset, firstTimeDiffset, head)
      requires Resorted(db, n, level, node, head, useDiffset, minSupport, info, newer)
      requires SameLevels(info, levelInfo[..], level) && levelInfo[level + 1].pep == []
      requires HeadsDone(db, minSupport, level, node, head, info, newer, 0, loopHeads, before)
      modifies this`out, this`patternCount, levelInfo, buf, counts
      ensures Tally() && out == old(out) + r
      ensures SameLevels(info, levelInfo[..], level) && levelInfo[level + 1].pep == []
      ensures HeadsDone(db, minSupport, level, node, head, info, newer, 0, loopHeads + 1, before + r)
      decreases count - loopHeads, 3
    {
      ghost var mid := levelInfo[..];
      assert levelInfo.Length == n + 2;
      hide *;
      ResortedSame(db, n, level, node, head, useDiffset, minSupport, info, mid, newer);
      r := MineHead(level, head, newerTail, count, loopHeads, minSupport, useDiffset, firstTimeDiffset, baseSupport,
                    node, newer);
      HeadDoneSame(db, minSupport, level, node, head, info, mid, newer, loopHeads, r);
      HeadsNext(db, n, minSupport, level, node, head, useDiffset, info, newer, loopHeads, before, r);
      SameLevelsTrans(info, mid, levelInfo[..], level);
    }

    /** The level takes the head's item; the next level is ready for the head's call. */
    method NameHead(level: nat, head: Option<CItemset>, newHead: CItemset, minSupport: nat, useDiffset: bool,
                    ghost node: Node, ghost newer: seq<CItemset>, ghost j: nat)
      requires Valid() && level < n && levelInfo[level + 1].pep == [] && j < |newer| && newHead == newer[j]
      requires Resorted(db, n, level, node, head, useDiffset, minSupport, levelInfo[..], newer)
      modifies levelInfo
      ensures Named(old(levelInfo[..]), levelInfo[..], level, newHead.lastItem)
      ensures Ready(db, n, level + 1, Below(db, node, head, useDiffset), Some(newHead), minSupport,
                    TokensOf(levelInfo[..], level + 1), newer, j + 1)
    {
      ghost var info0 := levelInfo[..];
      levelInfo[level] := LevelInfo(newHead.lastItem, levelInfo[level].pep);
      assert Named(info0, levelInfo[..], level, newHead.lastItem);
      hide *;
      HeadReady(db, n, level, node, head, useDiffset, minSupport, info0, levelInfo[..], newer, j);
    }

    /** Chooses between masks and diffsets, and goes one level down if the head has items after it. */
    method Descend(level: nat, head: Option<CItemset>, newerTail: array<CItemset>, count: nat, loopHeads: nat,
                   minSupport: nat, useDiffset: bool, firstTimeDiffset: bool, baseSupport: real,
                   ghost node: Node, ghost newer: seq<CItemset>)
      returns (ghost r: seq<Line>)
      requires Valid() && loopHeads < count == |newer| <= newerTail.Length == n && level + count <= n &&
               Tally() && IsBase(db, node, head, baseSupport) && NodeOk(db, node, head)
      requires newerTail[..count] == newer && FlagsOk(node, useDiffset, firstTimeDiffset, head)
      requires Ready(db, n, level + 1, Below(db, node, head, useDiffset), Some(newer[loopHeads]), minSupport,
                     TokensOf(levelInfo[..], level + 1), newer, loopHeads + 1)
      modifies this`out, this`patternCount, levelInfo, buf, counts
      ensures Tally() && out == old(out) + r
      ensures Mined(db, n, level + 1, Below(db, node, head, useDiffset), Some(newer[loopHeads]), minSupport,
                    newer, loopHeads + 1, old(levelInfo[..]), levelInfo[..], r)
      decreases count - loopHeads, 1
    {
      assert levelInfo.Length == n + 2;
      hide *;
      var newHead := newerTail[loopHeads];
      assert newHead == newer[loopHeads];
      var nextUseDiffset, nextFirstTimeDiffset := NextFlags(useDiffset, newHead.support, baseSupport);
      FlagsNext(db, node, head, useDiffset, firstTimeDiffset, baseSupport, nextUseDiffset, nextFirstTimeDiffset,
                newHead);
      r := MineBelow(level, newHead, newerTail, count, loopHeads, minSupport, nextUseDiffset, nextFirstTimeDiffset,
                     Below(db, node, head, useDiffset), newer);
    }

    /** The recursive call, which is skipped for the last head. */
    method MineBelow(level: nat, newHead: CItemset, newerTail: array<CItemset>, count: nat, loopHeads: nat,
                     minSupport: nat, nextUseDiffset: bool, nextFirstTimeDiffset: bool, ghost b: Node,
                         ghost newer: seq<CItemset>)
      returns (ghost r: seq<Line>)
      requires Valid() && loopHeads < count == |newer| <= newerTail.Length == n && level + count <= n && Tally()
      requires levelInfo.Length == n + 2 && newerTail[..count] == newer
      requires FlagsOk(b, nextUseDiffset, nextFirstTimeDiffset, Some(newHead))
      requires Switched(db, b, Some(newHead), nextUseDiffset)
      requires Ready(db, n, level + 1, b, Some(newHead), minSupport, TokensOf(levelInfo[..], level + 1), newer,
                     loopHeads + 1)
      modifies this`out, this`patternCount, levelInfo, buf, counts
      ensures Tally() && out == old(out) + r
      ensures Mined(db, n, level + 1, b, Some(newHead), minSupport, newer, loopHeads + 1, old(levelInfo[..]),
                    levelInfo[..], r)
      decreases count - loopHeads, 0
    {
      hide *;
      r := [];
      if loopHeads < count - 1 {
        r := RecurseMine(level + 1, Some(newHead), newerTail, count, loopHeads + 1, minSupport,
                         nextUseDiffset, nextFirstTimeDiffset, b);
      } else {
        MinedNothing(db, n, level + 1, b, Some(newHead), minSupport, newer, loopHeads + 1, levelInfo[..]);
      }
    }

    method MineHead(level: nat, head: Option<CItemset>, newerTail: array<CItemset>, count: nat, loopHeads: nat,
                    minSupport: nat, useDiffset: bool, firstTimeDiffset: bool, baseSupport: real,
                   ghost node: Node, ghost newer: seq<CItemset>)
      returns (ghost r: seq<Line>)
      requires Valid() && levelInfo.Length == n + 2 && loopHeads < count == |newer| <= newerTail.Length == n &&
               level < n && Tally() && IsBase(db, node, head, baseSupport)
      requires newerTail[..count] == newer && FlagsOk(node, useDiffset, firstTimeDiffset, head)
      requires Resorted(db, n, level, node, head, useDiffset, minSupport, levelInfo[..], newer)
      requires levelInfo[level + 1].pep == []
      modifies this`out, this`patternCount, levelInfo, buf, counts
      ensures Tally() && out == old(out) + r
      ensures SameLevels(old(levelInfo[..]), levelInfo[..], level) && levelInfo[level + 1].pep == []
      ensures HeadDone(db, minSupport, level, node, head, old(levelInfo[..]), newer, loopHeads, r)
      decreases count - loopHeads, 2
    {
      hide *;
      ghost var info0, out0 := levelInfo[..], out;
      var newHead := newerTail[loopHeads];
      ResortedBound(db, n, level, node, head, useDiffset, minSupport, info0, newer);
      NameHead(level, head, newHead, minSupport, useDiffset, node, newer, loopHeads);
      ghost var info1 := levelInfo[..];
      r := Descend(level, head, newerTail, count, loopHeads, minSupport, useDiffset, firstTimeDiffset, baseSupport,
                   node, newer);
      ghost var own := WriteHead(level, head, newHead, minSupport, useDiffset, node, info0, info1, newer, loopHeads, r);
      AppendTwice(out0, r, own);
      r := r + own;
    }

    /** After the sets below a head come the head's own, and its absorbed items are forgotten. */
    method WriteHead(level: nat, head: Option<CItemset>, newHead: CItemset, minSupport: nat, useDiffset: bool,
                     ghost node: Node, ghost info0: seq<LevelInfo>, ghost info1: seq<LevelInfo>,
                     ghost newer: seq<CItemset>, ghost j: nat, ghost r: seq<Line>)
      returns (ghost own: seq<Line>)
      requires Valid() && level < n && j < |newer| && newHead == newer[j] && Tally()
      requires Resorted(db, n, level, node, head, useDiffset, minSupport, info0, newer)
      requires Named(info0, info1, level, newHead.lastItem)
      requires Mined(db, n, level + 1, Below(db, node, head, useDiffset), Some(newHead), minSupport, newer, j + 1,
                     info1, levelInfo[..], r)
      modifies this`out, this`patternCount, levelInfo, buf, counts
      ensures Tally() && out == old(out) + own
      ensures SameLevels(info0, levelInfo[..], level) && levelInfo[level + 1].pep == []
      ensures HeadDone(db, minSupport, level, node, head, info0, newer, j, r + own)
    {
      ghost var info2 := levelInfo[..];
      assert levelInfo.Length == n + 2;
      hide *;
      MinedBound(db, n, level + 1, Below(db, node, head, useDiffset), newHead, minSupport, newer, j + 1, info1,
                 info2, r);
      own := WriteFI(level, newHead.support);
      HeadWrote(db, n, minSupport, level, node, head, useDiffset, info0, info1, info2, newer, j, r, own);
      levelInfo[level + 1] := LevelInfo(levelInfo[level + 1].item, []);
      SameLevelsAbove(info0, info2, levelInfo[..], level);
    }

    // -------------------------------------------------------------------------------------
    // FindFrequentPatterns
    // -------------------------------------------------------------------------------------

    /** No output yet, and all counters zero. */
    ghost predicate Fresh()
      reads this, counts
    {
      out == [] && patternCount == 0 && forall k :: 0 <= k < counts.Length ==> counts[k] == 0
    }

    constructor (db: Database, n: nat, pairSupports: Option<seq<seq<nat>>>)
      requires pairSupports.Some? ==> PairTable(db, n, pairSupports.value)
      ensures Valid() && Fresh()
      ensures this.db == db && this.n == n && this.pairSupports == pairSupports
      ensures fresh(levelInfo) && fresh(buf) && fresh(counts)
    {
      this.db, this.n, this.pairSupports := db, n, pairSupports;
      levelInfo := new LevelInfo[n + 2](_ => LevelInfo(0, []));
      buf := new nat[n](_ => 0);
      counts := new nat[n + 1](_ => 0);
      patternCount, out := 0, [];
    }

    /** The items that may be frequent, in item order. */
    method InitialTail(items: seq<Mask>, minSupport: nat) returns (tails: array<CItemset>, tailCount: nat)
      requires |items| == n && forall i: nat :: i < n ==> items[i] == Tids(db, {i})
      ensures fresh(tails) && tails.Length == n && tailCount <= n
      ensures Singles(db, minSupport, tails[..tailCount], n)
    {
      tails := new CItemset[n];
      tailCount := 0;
      for loop := 0 to n
        invariant tailCount <= loop && Singles(db, minSupport, tails[..tailCount], loop)
      {
        var support := |items[loop]|;
        ghost var before := tails[..tailCount];
        if minSupport <= support {
          SinglesTakes(db, minSupport, before, loop);
          tails[tailCount] := CItemset(support, items[loop], support, loop);
          tailCount := tailCount + 1;
          assert tails[..tailCount] == before + [CItemset(support, items[loop], support, loop)];
        } else {
          SinglesSkips(db, minSupport, before, loop);
        }
      }
    }

    method PrintEmptyTransaction(minSupport: nat)
      requires Valid() && Fresh()
      modifies this`out, counts
      ensures Tally() && out == if |db| > minSupport then [Line([], |db|)] else []
    {
      if |db| > minSupport {
        counts[0] := counts[0] + 1;
        out := out + [Line([], |db|)];
        assert out[1..] == [];
      }
    }

    /** Writes every frequent itemset exactly once with its exact support; the counters agree. */
    method FindFrequentPatterns(items: seq<Mask>, minSupport: nat) returns (count: nat)
      requires Valid() && Fresh()
      requires |items| == n && forall i: nat :: i < n ==> items[i] == Tids(db, {i})
      modifies this`out, this`patternCount, levelInfo, buf, counts
      ensures Complete(db, n, minSupport, out)
      ensures Tally() && count == patternCount
    {
      var tails, tailCount := InitialTail(items, minSupport);
      PrintEmptyTransaction(minSupport);
      ghost var first, info0 := out, levelInfo[..];
      ghost var node, tail := Node(Identity(|db|), TidSets, {}), tails[..tailCount];
      SinglesReady(db, n, node, minSupport, tail, info0);
      hide *;
      ghost var r := RecurseMine(0, None, tails, tailCount, 0, minSupport, false, false, node);
      AllWritten(db, n, node, minSupport, tail, info0, levelInfo[..], first, r);
      count := patternCount;
    }
  }

  // ---------------------------------------------------------------------------------------
  // The scan, step by step
  // ---------------------------------------------------------------------------------------

  /** The candidates before upto are told apart, and the absorbed ones have joined the path at its level. */
  ghost predicate Split(db: Database, n: nat, level: nat, node: Node, head: Option<CItemset>, useDiffset: bool,
                        min: nat,
                        tail: seq<CItemset>, start: nat, upto: nat,
                        info0: seq<LevelInfo>, info: seq<LevelInfo>, heads: seq<CItemset>, kept: seq<Dual>) {
    && level < |info0| == |info| && |tail| <= |heads|
    && (forall k :: 0 <= k < |info| && k != level ==> info[k] == info0[k])
    && PathOk(db, n, level, node, head, TokensOf(info, level))
    && All(TokensOf(info0, level)) <= All(TokensOf(info, level)) <= All(TokensOf(info0, level)) + ItemsOf(tail, start)
    && (forall k :: start <= k < |tail| ==>
          tail[k].lastItem < n && MaskOk(db, node.space, node.kind, node.parent, tail[k]))
    && AllDifferent(tail, start)
    && Scanned(db, min, Below(db, node, head, useDiffset), All(TokensOf(info, level)), tail, start, upto, heads, kept)
  }

  /** Of the candidates before upto, those whose join with the path has the support of the path itself are absorbed,
      and those with a smaller one above the threshold are kept; the others are dropped. */
  ghost predicate ToldApart(db: Database, min: nat, p: Itemset, hasHead: bool, e: Itemset, tail: seq<CItemset>,
                            start: nat, upto: nat, kept: seq<Dual>)
    requires upto <= |tail|
  {
    forall k: nat :: start <= k < upto ==> ToldOne(db, min, p, hasHead, e, tail[k].lastItem, k, kept)
  }

  ghost predicate ToldOne(db: Database, min: nat, p: Itemset, hasHead: bool, e: Itemset, i: nat, k: nat,
                          kept: seq<Dual>) {
    var s := Supp(db, p + {i});
    && (i in e <==> hasHead && s == Supp(db, p))
    && (Dual(s, k) in kept <==> s > min && !(hasHead && s == Supp(db, p)))
  }

  lemma ToldNothing(db: Database, min: nat, p: Itemset, hasHead: bool, e: Itemset, tail: seq<CItemset>, start: nat)
    requires start <= |tail|
    ensures ToldApart(db, min, p, hasHead, e, tail, start, start, [])
  {
  }

  lemma ToldNext(db: Database, min: nat, p: Itemset, hasHead: bool, e: Itemset, e': Itemset, tail: seq<CItemset>,
                 start: nat, upto: nat, kept: seq<Dual>, kept': seq<Dual>)
    requires upto < |tail| && AllDifferent(tail, start) && start <= upto && tail[upto].lastItem !in e
    requires ToldApart(db, min, p, hasHead, e, tail, start, upto, kept) && forall d :: d in kept ==> d.val < upto
    requires var s := Supp(db, p + {tail[upto].lastItem});
      && e' == (if hasHead && s == Supp(db, p) then e + {tail[upto].lastItem} else e)
      && kept' == if s > min && !(hasHead && s == Supp(db, p)) then kept + [Dual(s, upto)] else kept
    ensures ToldApart(db, min, p, hasHead, e', tail, start, upto + 1, kept')
  {
    var s := Supp(db, p + {tail[upto].lastItem});
    hide Supp;
    assert forall d :: d in kept' <==> d in kept || (kept' != kept && d == Dual(s, upto));
    forall k: nat | start <= k < upto + 1 ensures ToldOne(db, min, p, hasHead, e', tail[k].lastItem, k, kept') {
      if k < upto { assert ToldOne(db, min, p, hasHead, e, tail[k].lastItem, k, kept); }
    }
  }

  lemma ExtendsItem(db: Database, node: Node, head: Option<CItemset>, useDiffset: bool, i: nat, c: CItemset)
    requires Extends(db, Below(db, node, head, useDiffset), i, c)
    ensures c.lastItem == i
  {
  }

  lemma AllPush(info: seq<LevelInfo>, level: nat, i: nat)
    requires 0 < level < |info|
    ensures All(TokensOf(info[level := LevelInfo(info[level].item, info[level].pep + [i])], level))
         == All(TokensOf(info, level)) + {i}
  {
    TokensPush(info, level, i);
    TokensConcat(TokensOf(info, level), [Token(i, true)]);
    One(i, true);
  }

  /** What a call finds: a sound path and a sound tail. */
  ghost predicate Ready(db: Database, n: nat, level: nat, node: Node, head: Option<CItemset>, min: nat, ts: seq<Token>,
                        tail: seq<CItemset>, start: nat) {
    && PathOk(db, n, level, node, head, ts)
    && TailOk(db, n, node, All(ts), tail, start)
    && (head.Some? ==> head.value.support > min)
  }

  /** The support that the heads are compared with: that of the path. */
  ghost predicate IsBase(db: Database, node: Node, head: Option<CItemset>, base: real) {
    base > 0.0 && base == Supp(db, PathOf(node, head)) as real
  }

  function BaseOf(db: Database, head: Option<CItemset>): real {
    if head.None? then |db| as real else head.value.support as real
  }

  /** Diffsets are in use below a path of this kind, or from a head on that has more than half of its transactions. */
  ghost predicate Switched(db: Database, node: Node, head: Option<CItemset>, useDiffset: bool) {
    useDiffset <==> node.kind.DiffSets? || (head.Some? && 2 * head.value.support > Supp(db, node.parent))
  }

  ghost predicate Extends(db: Database, b: Node, i: nat, c: CItemset) {
    c.lastItem == i && MaskOk(db, b.space, b.kind, b.parent, c)
  }

  lemma ExtendsSupport(db: Database, node: Node, head: Option<CItemset>, useDiffset: bool, i: nat, c: CItemset)
    requires NodeOk(db, node, head) && Extends(db, Below(db, node, head, useDiffset), i, c)
    ensures c.support == Supp(db, PathOf(node, head) + {i})
  {
    ParentIsPath(db, node, head, useDiffset);
  }

  lemma HeadIsItem(db: Database, n: nat, level: nat, node: Node, head: Option<CItemset>, ts: seq<Token>)
    requires PathOk(db, n, level, node, head, ts) && level > 0
    ensures head.Some? && head.value.lastItem in All(ts) && head.value.lastItem < n
    ensures level == 1 ==> PathOf(node, head) == {head.value.lastItem}
  {
    PathInAll(ts);
  }

  lemma SplitNothing(db: Database, n: nat, level: nat, node: Node, head: Option<CItemset>, useDiffset: bool, min: nat,
                     tail: seq<CItemset>, start: nat, info: seq<LevelInfo>, heads: seq<CItemset>)
    requires level < |info| && start <= |tail| <= |heads|
    requires Ready(db, n, level, node, head, min, TokensOf(info, level), tail, start)
    ensures Split(db, n, level, node, head, useDiffset, min, tail, start, start, info, info, heads, [])
  {
  }

  /** The next candidate is not on the path. */
  lemma SplitNext(db: Database, n: nat, level: nat, node: Node, head: Option<CItemset>, useDiffset: bool, min: nat,
                  tail: seq<CItemset>, start: nat, upto: nat,
                  info0: seq<LevelInfo>, info: seq<LevelInfo>, heads: seq<CItemset>, kept: seq<Dual>)
    requires Split(db, n, level, node, head, useDiffset, min, tail, start, upto, info0, info, heads, kept) &&
             upto < |tail|
    ensures AllDifferent(tail, start) && start <= upto && (level > 0 <==> head.Some?)
    ensures forall d :: d in kept ==> d.val < upto
    ensures level < |info| && PathOk(db, n, level, node, head, TokensOf(info, level)) && NodeOk(db, node, head)
    ensures MaskOk(db, node.space, node.kind, node.parent, tail[upto])
    ensures tail[upto].lastItem < n && tail[upto].lastItem !in All(TokensOf(info, level))
  {
  }

  lemma SplitDrops(db: Database, n: nat, level: nat, node: Node, head: Option<CItemset>, useDiffset: bool, min: nat,
                   tail: seq<CItemset>, start: nat, upto: nat,
                   info0: seq<LevelInfo>, info: seq<LevelInfo>, heads: seq<CItemset>, kept: seq<Dual>)
    requires Split(db, n, level, node, head, useDiffset, min, tail, start, upto, info0, info, heads, kept) &&
             upto < |tail|
    requires Supp(db, PathOf(node, head) + {tail[upto].lastItem}) <= min
    ensures Split(db, n, level, node, head, useDiffset, min, tail, start, upto + 1, info0, info, heads, kept)
  {
    ParentIsPath(db, node, head, useDiffset);
    ScanDrops(db, min, Below(db, node, head, useDiffset), All(TokensOf(info, level)), tail, start, upto, heads, kept);
    hide Scanned, MaskOk, TokensOf, All, Below, PathOf, Supp;
  }

  lemma AbsorbFacts(db: Database, n: nat, level: nat, node: Node, head: Option<CItemset>, useDiffset: bool, min: nat,
                    tail: seq<CItemset>, start: nat, upto: nat,
                    info0: seq<LevelInfo>, info: seq<LevelInfo>, heads: seq<CItemset>, kept: seq<Dual>, c: CItemset)
    requires Split(db, n, level, node, head, useDiffset, min, tail, start, upto, info0, info, heads, kept) &&
             upto < |tail|
    requires head.Some? && c.support == head.value.support
    requires Extends(db, Below(db, node, head, useDiffset), tail[upto].lastItem, c)
    ensures c.lastItem < n && c.lastItem == tail[upto].lastItem && c.lastItem !in All(TokensOf(info, level))
    ensures Supp(db, PathOf(node, head) + {c.lastItem}) == Supp(db, PathOf(node, head))
  {
    HeadSupport(db, n, level, node, head, TokensOf(info, level));
    ParentIsPath(db, node, head, useDiffset);
    hide TokensOf, All, Tids, Scanned, Compress;
  }

  lemma SplitAbsorbs(db: Database, n: nat, level: nat, node: Node, head: Option<CItemset>, useDiffset: bool, min: nat,
                     tail: seq<CItemset>, start: nat, upto: nat,
                     info0: seq<LevelInfo>, info: seq<LevelInfo>, heads: seq<CItemset>, kept: seq<Dual>, c: CItemset)
    requires Split(db, n, level, node, head, useDiffset, min, tail, start, upto, info0, info, heads, kept) &&
             upto < |tail|
    requires head.Some? && c.support == head.value.support
    requires Extends(db, Below(db, node, head, useDiffset), tail[upto].lastItem, c)
    ensures Split(db, n, level, node, head, useDiffset, min, tail, start, upto + 1, info0,
                  info[level := LevelInfo(info[level].item, info[level].pep + [c.lastItem])], heads, kept)
  {
    var b, ts := Below(db, node, head, useDiffset), TokensOf(info, level);
    AbsorbFacts(db, n, level, node, head, useDiffset, min, tail, start, upto, info0, info, heads, kept, c);
    hide Scanned, MaskOk, TokensOf, All, Below, PathOf, PathOk, Extends, TailOk, Supp;
    PathAbsorbs(db, n, level, node, head, ts, c.lastItem);
    ScanAbsorbs(db, min, b, All(ts), tail, start, upto, heads, kept);
    TokensPush(info, level, c.lastItem);
    assert c.lastItem in ItemsOf(tail, start);
  }

  lemma SplitKeeps(db: Database, n: nat, level: nat, node: Node, head: Option<CItemset>, useDiffset: bool, min: nat,
                   tail: seq<CItemset>, start: nat, upto: nat,
                   info0: seq<LevelInfo>, info: seq<LevelInfo>, heads: seq<CItemset>, kept: seq<Dual>, c: CItemset)
    requires Split(db, n, level, node, head, useDiffset, min, tail, start, upto, info0, info, heads, kept) &&
             upto < |tail|
    requires Extends(db, Below(db, node, head, useDiffset), tail[upto].lastItem, c) && c.support > min
    ensures Split(db, n, level, node, head, useDiffset, min, tail, start, upto + 1,
                  info0, info, heads[upto := c], kept + [Dual(c.support, upto)])
  {
    ScanKeeps(db, min, Below(db, node, head, useDiffset), All(TokensOf(info, level)), tail, start, upto, heads, kept,
              c);
    hide Scanned, MaskOk, TokensOf, All, Below, PathOf, PathOk;
  }

  lemma TokensStep(info: seq<LevelInfo>, k: nat)
    requires 0 < k < |info|
    ensures |TokensOf(info, k)| == |TokensOf(info, k - 1)| + 1 + |info[k].pep|
    ensures Absorbed(TokensOf(info, k)) == Absorbed(TokensOf(info, k - 1)) + |info[k].pep|
  {
    TokensConcat(TokensOf(info, k - 1) + [Token(info[k - 1].item, false)], Opts(info[k].pep));
    TokensConcat(TokensOf(info, k - 1), [Token(info[k - 1].item, false)]);
    One(info[k - 1].item, false);
    OptsAbsorbed(info[k].pep);
  }

  lemma {:induction false} OptsAbsorbed(pep: seq<nat>)
    ensures |Opts(pep)| == |pep| == Absorbed(Opts(pep))
  {
    if pep != [] { OptsAbsorbed(pep[1..]); }
  }

  lemma DivideExactly(x: nat, d: nat)
    requires d > 0
    ensures x * d / d == x
  {
    var q, r := x * d / d, x * d % d;
    assert q * d + r == x * d;
    if q < x { MulGrows(q + 1, x, d); }
    if x < q { MulGrows(x + 1, q, d); }
  }

  lemma ParentIsPath(db: Database, node: Node, head: Option<CItemset>, useDiffset: bool)
    requires NodeOk(db, node, head)
    ensures Below(db, node, head, useDiffset).parent == PathOf(node, head)
    ensures IsSpace(Below(db, node, head, useDiffset).space)
  {
    if head.Some? { CompressIsSpace(node.space, head.value.mask); }
  }

  lemma HeadSupport(db: Database, n: nat, level: nat, node: Node, head: Option<CItemset>, ts: seq<Token>)
    requires PathOk(db, n, level, node, head, ts)
    ensures level > 0 <==> head.Some?
    ensures head.Some? ==> head.value.support == Supp(db, PathOf(node, head))
  {
  }

  /** Appending to the absorbed items of a level appends to its path. */
  lemma TokensPush(info: seq<LevelInfo>, level: nat, i: nat)
    requires 0 < level < |info|
    ensures TokensOf(info[level := LevelInfo(info[level].item, info[level].pep + [i])], level)
         == TokensOf(info, level) + [Token(i, true)]
  {
    var info' := info[level := LevelInfo(info[level].item, info[level].pep + [i])];
    TokensSame(info, info', level - 1);
    OptsSnoc(info[level].pep, i);
  }

  // ---------------------------------------------------------------------------------------
  // One call
  // ---------------------------------------------------------------------------------------

  ghost predicate SameLevels(a: seq<LevelInfo>, b: seq<LevelInfo>, level: nat) {
    && level < |a| == |b| && a[level].pep == b[level].pep
    && forall k :: 0 <= k < level ==> a[k] == b[k]
  }

  lemma TokensSameLevels(a: seq<LevelInfo>, b: seq<LevelInfo>, level: nat)
    requires SameLevels(a, b, level)
    ensures TokensOf(a, level) == TokensOf(b, level)
  {
    TokensSame(a, b, level);
  }

  lemma SameLevelsSelf(a: seq<LevelInfo>, level: nat)
    requires level < |a|
    ensures SameLevels(a, a, level)
  {
  }

  lemma SameLevelsTrans(a: seq<LevelInfo>, b: seq<LevelInfo>, c: seq<LevelInfo>, level: nat)
    requires SameLevels(a, b, level) && SameLevels(b, c, level)
    ensures SameLevels(a, c, level)
  {
  }

  lemma SameLevelsAbove(a: seq<LevelInfo>, b: seq<LevelInfo>, c: seq<LevelInfo>, level: nat)
    requires SameLevels(a, b, level) && level + 1 < |b| == |c|
    requires forall k :: 0 <= k < |b| && k != level + 1 ==> c[k] == b[k]
    ensures SameLevels(a, c, level)
  {
  }

  lemma ReadyHead(db: Database, n: nat, level: nat, node: Node, head: Option<CItemset>, min: nat, ts: seq<Token>,
                  tail: seq<CItemset>, start: nat)
    requires Ready(db, n, level, node, head, min, ts, tail, start)
    ensures head.Some? ==> head.value.support > min
  {
  }

  /** What one call leaves behind: the path extended by absorbed items, and its part of the output. */
  ghost predicate Mined(db: Database, n: nat, level: nat, node: Node, head: Option<CItemset>, min: nat,
                        tail: seq<CItemset>, start: nat, info0: seq<LevelInfo>, info: seq<LevelInfo>, r: seq<Line>) {
    && level < |info0| == |info|
    && (forall k :: 0 <= k < level ==> info[k] == info0[k])
    && PathOk(db, n, level, node, head, TokensOf(info, level))
    && All(TokensOf(info0, level)) <= All(TokensOf(info, level)) <= All(TokensOf(info0, level)) + ItemsOf(tail, start)
    && Wrote(db, min, r, PathOf(node, head), All(TokensOf(info, level)),
             All(TokensOf(info0, level)) + ItemsOf(tail, start))
  }

  /** The heads of a call, in their new order. */
  ghost predicate Resorted(db: Database, n: nat, level: nat, node: Node, head: Option<CItemset>, useDiffset: bool,
                           min: nat,
                           info: seq<LevelInfo>, newer: seq<CItemset>) {
    && level < |info| && level + |newer| <= n
    && PathOk(db, n, level, node, head, TokensOf(info, level))
    && TailOk(db, n, Below(db, node, head, useDiffset), All(TokensOf(info, level)), newer, 0)
    && (forall k :: 0 <= k < |newer| ==> newer[k].support > min)
    && (head.Some? ==> head.value.support > min)
  }

  /** The sets whose first head is number j. */
  ghost predicate HeadDone(db: Database, min: nat, level: nat, node: Node, head: Option<CItemset>,
                           info: seq<LevelInfo>, newer: seq<CItemset>, j: nat, r: seq<Line>) {
    && level < |info| && j < |newer|
    && var e := All(TokensOf(info, level));
       Wrote(db, min, r, PathOf(node, head) + {newer[j].lastItem}, e, e + ItemsOf(newer, j))
  }

  /** The sets that contain one of the heads before j. */
  ghost predicate HeadsDone(db: Database, min: nat, level: nat, node: Node, head: Option<CItemset>,
                            info: seq<LevelInfo>, newer: seq<CItemset>, from: nat, j: nat, r: seq<Line>) {
    && level < |info|
    && var e := All(TokensOf(info, level));
       Wrote(db, min, r, PathOf(node, head), e + ItemsOf(newer, j), e + ItemsOf(newer, from))
  }

  lemma {:induction false} TokensLength(info: seq<LevelInfo>, level: nat)
    requires level < |info|
    ensures |TokensOf(info, level)| == level + Absorbed(TokensOf(info, level))
  {
    if level > 0 {
      TokensLength(info, level - 1);
      TokensStep(info, level);
    }
  }

  lemma SplitReorders(db: Database, n: nat, level: nat, node: Node, head: Option<CItemset>, useDiffset: bool, min: nat,
                      tail: seq<CItemset>, start: nat, info0: seq<LevelInfo>, info: seq<LevelInfo>,
                      heads: seq<CItemset>, kept: seq<Dual>, order: seq<Dual>)
    requires Split(db, n, level, node, head, useDiffset, min, tail, start, |tail|, info0, info, heads, kept)
    requires multiset(order) == multiset(kept)
    ensures |order| <= |tail| - start && forall k :: 0 <= k < |order| ==> order[k].val < |tail|
  {
    KeptBound(kept, start, |tail|);
    assert |multiset(order)| == |multiset(kept)|;
    OrderDistinct(kept, order, heads);
    assert forall k :: 0 <= k < |order| ==> order[k] in kept;
  }

  lemma SplitResorted(db: Database, n: nat, level: nat, node: Node, head: Option<CItemset>, useDiffset: bool, min: nat,
                      tail: seq<CItemset>, start: nat, info0: seq<LevelInfo>, info: seq<LevelInfo>,
                      heads: seq<CItemset>, kept: seq<Dual>, order: seq<Dual>, newer: seq<CItemset>)
    requires Split(db, n, level, node, head, useDiffset, min, tail, start, |tail|, info0, info, heads, kept)
    requires multiset(order) == multiset(kept) && Newer(heads, order, newer)
    requires level + |tail| - start <= n && (head.Some? ==> head.value.support > min)
    ensures Resorted(db, n, level, node, head, useDiffset, min, info, newer)
    ensures |info| == |info0| && (level + 1 < |info| ==> info[level + 1] == info0[level + 1])
  {
    NewTail(db, n, min, Below(db, node, head, useDiffset), All(TokensOf(info, level)), tail, start, heads, kept,
            order, newer);
  }

  lemma MinedAll(db: Database, n: nat, level: nat, node: Node, head: Option<CItemset>, useDiffset: bool, min: nat,
                 tail: seq<CItemset>, start: nat, info0: seq<LevelInfo>, cleared: seq<LevelInfo>, info: seq<LevelInfo>,
                 info2: seq<LevelInfo>, heads: seq<CItemset>, kept: seq<Dual>, order: seq<Dual>, newer: seq<CItemset>,
                 r: seq<Line>)
    requires SameLevels(info0, cleared, level) && SameLevels(info, info2, level)
    requires Split(db, n, level, node, head, useDiffset, min, tail, start, |tail|, cleared, info, heads, kept)
    requires multiset(order) == multiset(kept) && Newer(heads, order, newer)
    requires HeadsDone(db, min, level, node, head, info, newer, 0, |newer|, r)
    ensures Mined(db, n, level, node, head, min, tail, start, info0, info2, r)
  {
    var b, e0, e := Below(db, node, head, useDiffset), All(TokensOf(cleared, level)), All(TokensOf(info, level));
    TokensSame(info0, cleared, level);
    TokensSame(info, info2, level);
    NewItems(db, min, b, e0, e, tail, start, heads, kept, order, newer);
    ParentIsPath(db, node, head, useDiffset);
    assert e + ItemsOf(newer, |newer|) == e;
    WroteBeyond(db, min, r, PathOf(node, head), e, e + ItemsOf(newer, 0), e0 + ItemsOf(tail, start));
    hide Wrote, Below, TokensOf, All, PathOk, Scanned, MaskOk;
  }

  lemma ResortedSame(db: Database, n: nat, level: nat, node: Node, head: Option<CItemset>, useDiffset: bool, min: nat,
                     info: seq<LevelInfo>, info2: seq<LevelInfo>, newer: seq<CItemset>)
    requires Resorted(db, n, level, node, head, useDiffset, min, info, newer) && SameLevels(info, info2, level)
    ensures Resorted(db, n, level, node, head, useDiffset, min, info2, newer)
  {
    TokensSame(info, info2, level);
  }

  lemma ResortedBound(db: Database, n: nat, level: nat, node: Node, head: Option<CItemset>, useDiffset: bool, min: nat,
                      info: seq<LevelInfo>, newer: seq<CItemset>)
    requires Resorted(db, n, level, node, head, useDiffset, min, info, newer)
    ensures level + |newer| <= n && NodeOk(db, node, head)
  {
  }

  /** With a head to mine, the support the heads are compared with is positive. */
  lemma HeadsStart(db: Database, n: nat, level: nat, node: Node, head: Option<CItemset>, useDiffset: bool, min: nat,
                   info: seq<LevelInfo>, newer: seq<CItemset>)
    requires Resorted(db, n, level, node, head, useDiffset, min, info, newer)
    ensures |newer| > 0 ==> level < n && IsBase(db, node, head, BaseOf(db, head))
    ensures HeadsDone(db, min, level, node, head, info, newer, 0, 0, []) && SameLevels(info, info, level)
  {
    WroteNothing(db, min, PathOf(node, head), All(TokensOf(info, level)) + ItemsOf(newer, 0));
    if |newer| > 0 {
      var b := Below(db, node, head, useDiffset);
      assert MaskOk(db, b.space, b.kind, b.parent, newer[0]);
      var t :| t in Tids(db, b.parent + {newer[0].lastItem});
      HeadSupport(db, n, level, node, head, TokensOf(info, level));
      AllContainEmpty(db);
    }
  }

  lemma MoreThanHalf(s: real, b: real)
    requires b > 0.0
    ensures s / b > 0.5 <==> s + s > b
  {
    var x := s / b - 0.5;
    assert x * b == s - 0.5 * b by { assert s / b * b == s; }
    SameSign(x, b);
  }

  lemma SameSign(x: real, b: real)
    requires b > 0.0
    ensures x * b > 0.0 <==> x > 0.0
  {
  }

  /** Changes to diffsets below a head with more than half of the transactions. */
  method NextFlags(useDiffset: bool, support: nat, baseSupport: real) returns (nextUse: bool, nextFirst: bool)
    requires baseSupport > 0.0
    ensures if useDiffset then nextUse && !nextFirst else nextUse == nextFirst
    ensures nextUse <==> useDiffset || support as real + support as real > baseSupport
  {
    MoreThanHalf(support as real, baseSupport);
    nextUse, nextFirst := useDiffset, false;
    if !useDiffset && support as real / baseSupport > 0.5 {
      nextUse, nextFirst := true, true;
    }
  }

  lemma FlagsNext(db: Database, node: Node, head: Option<CItemset>, useDiffset: bool, firstTimeDiffset: bool,
                  base: real, nextUse: bool, nextFirst: bool, newHead: CItemset)
    requires FlagsOk(node, useDiffset, firstTimeDiffset, head) && NodeOk(db, node, head)
    requires IsBase(db, node, head, base)
    requires if useDiffset then nextUse && !nextFirst else nextUse == nextFirst
    requires nextUse <==> useDiffset || newHead.support as real + newHead.support as real > base
    ensures FlagsOk(Below(db, node, head, useDiffset), nextUse, nextFirst, Some(newHead))
    ensures Switched(db, Below(db, node, head, useDiffset), Some(newHead), nextUse)
  {
    ParentIsPath(db, node, head, useDiffset);
    hide Supp, MaskOk, Compress, Projects;
  }

  /** Naming head j at its level makes a sound call at the next one. */
  lemma HeadReady(db: Database, n: nat, level: nat, node: Node, head: Option<CItemset>, useDiffset: bool, min: nat,
                  info0: seq<LevelInfo>, info1: seq<LevelInfo>, newer: seq<CItemset>, j: nat)
    requires Resorted(db, n, level, node, head, useDiffset, min, info0, newer) && j < |newer|
    requires Named(info0, info1, level, newer[j].lastItem)
    ensures Ready(db, n, level + 1, Below(db, node, head, useDiffset), Some(newer[j]), min,
                  TokensOf(info1, level + 1), newer, j + 1)
  {
    ParentIsPath(db, node, head, useDiffset);
    PathGrows(db, n, level, node, head, Below(db, node, head, useDiffset), newer[j], TokensOf(info0, level));
    TokensNamed(info0, info1, level, newer[j].lastItem);
    hide PathOk, All, MaskOk, Below, TokensOf;
  }

  /** Level takes item i; nothing has been absorbed at the next level yet. */
  ghost predicate Named(info0: seq<LevelInfo>, info1: seq<LevelInfo>, level: nat, i: nat) {
    && level + 1 < |info0| && info0[level + 1].pep == []
    && info1 == info0[level := LevelInfo(i, info0[level].pep)]
  }

  lemma TokensNamed(info0: seq<LevelInfo>, info1: seq<LevelInfo>, level: nat, i: nat)
    requires Named(info0, info1, level, i)
    ensures TokensOf(info1, level + 1) == TokensOf(info0, level) + [Token(i, false)]
    ensures All(TokensOf(info1, level + 1)) == All(TokensOf(info0, level)) + {i}
  {
    TokensSame(info0, info1, level);
    TokensConcat(TokensOf(info0, level), [Token(i, false)]);
    One(i, false);
    assert TokensOf(info1, level + 1) == TokensOf(info1, level) + [Token(i, false)] + [];
  }

  lemma MinedNothing(db: Database, n: nat, level: nat, node: Node, head: Option<CItemset>, min: nat,
                     tail: seq<CItemset>, start: nat, info: seq<LevelInfo>)
    requires level < |info| && Ready(db, n, level, node, head, min, TokensOf(info, level), tail, start) &&
             start == |tail|
    ensures Mined(db, n, level, node, head, min, tail, start, info, info, [])
  {
    assert ItemsOf(tail, start) == {};
  }

  lemma MinedBound(db: Database, n: nat, level: nat, node: Node, head: CItemset, min: nat,
                   tail: seq<CItemset>, start: nat, info0: seq<LevelInfo>, info: seq<LevelInfo>, r: seq<Line>)
    requires Mined(db, n, level, node, Some(head), min, tail, start, info0, info, r)
    ensures level < |info| && |TokensOf(info, level)| <= n
  {
    TokenBound(TokensOf(info, level), n);
  }

  /** The sets below head j, and head j's own. */
  lemma HeadWrote(db: Database, n: nat, min: nat, level: nat, node: Node, head: Option<CItemset>, useDiffset: bool,
                  info0: seq<LevelInfo>, info1: seq<LevelInfo>, info2: seq<LevelInfo>, newer: seq<CItemset>, j: nat,
                  r: seq<Line>, own: seq<Line>)
    requires Resorted(db, n, level, node, head, useDiffset, min, info0, newer) && j < |newer|
    requires Named(info0, info1, level, newer[j].lastItem)
    requires Mined(db, n, level + 1, Below(db, node, head, useDiffset), Some(newer[j]), min, newer, j + 1, info1,
                   info2, r)
    requires own == Expand(TokensOf(info2, level + 1), newer[j].support, [])
    ensures HeadDone(db, min, level, node, head, info0, newer, j, r + own)
    ensures SameLevels(info0, info2, level)
  {
    var e, ts := All(TokensOf(info0, level)), TokensOf(info2, level + 1);
    var h, p := newer[j].lastItem, PathOf(node, head) + {newer[j].lastItem};
    HeadFacts(db, n, level, node, head, useDiffset, min, info0, newer, j);
    MinedFacts(db, n, level + 1, Below(db, node, head, useDiffset), newer[j], min, newer, j + 1, info1, info2, r);
    hide Resorted, Mined, NodeOk, MaskOk, Below, TokensOf, Wrote, ItemsOf, Tids, Expand, All, Path, Distinct;
    TokensNamed(info0, info1, level, h);
    PathInAll(ts);
    assert All(TokensOf(info1, level + 1)) + ItemsOf(newer, j + 1) == e + ItemsOf(newer, j);
    TokensSameBelow(info0, info1, info2, level);
    WroteOwn(db, min, r, own, p, All(ts), e + ItemsOf(newer, j), ts, e);
  }

  lemma MinedFacts(db: Database, n: nat, level: nat, node: Node, head: CItemset, min: nat, tail: seq<CItemset>,
                   start: nat, info0: seq<LevelInfo>, info: seq<LevelInfo>, r: seq<Line>)
    requires Mined(db, n, level, node, Some(head), min, tail, start, info0, info, r)
    ensures level < |info0| == |info| && forall k :: 0 <= k < level ==> info[k] == info0[k]
    ensures var ts, a := TokensOf(info, level), All(TokensOf(info0, level));
            && Path(ts) == node.parent + {head.lastItem} && Distinct(ts) && Tids(db, All(ts)) == Tids(db, Path(ts))
            && a <= All(ts) <= a + ItemsOf(tail, start)
            && Wrote(db, min, r, node.parent + {head.lastItem}, All(ts), a + ItemsOf(tail, start))
  {
    hide NodeOk, TokensOf, All, Path, Distinct, Tids, Wrote, ItemsOf;
  }

  lemma HeadFacts(db: Database, n: nat, level: nat, node: Node, head: Option<CItemset>, useDiffset: bool, min: nat,
                  info: seq<LevelInfo>, newer: seq<CItemset>, j: nat)
    requires Resorted(db, n, level, node, head, useDiffset, min, info, newer) && j < |newer|
    ensures NodeOk(db, node, head) && Below(db, node, head, useDiffset).parent == PathOf(node, head)
    ensures newer[j].support == Supp(db, PathOf(node, head) + {newer[j].lastItem}) > min
    ensures newer[j].lastItem !in All(TokensOf(info, level)) && level + |newer| <= n
    ensures ItemsOf(newer, j) == {newer[j].lastItem} + ItemsOf(newer, j + 1)
  {
    ParentIsPath(db, node, head, useDiffset);
    HeadItems(db, n, Below(db, node, head, useDiffset), All(TokensOf(info, level)), newer, j);
    hide Tids, TokensOf, ItemsOf;
  }

  lemma TokensSameBelow(info0: seq<LevelInfo>, info1: seq<LevelInfo>, info2: seq<LevelInfo>, level: nat)
    requires level + 1 < |info0| == |info1| == |info2|
    requires info0[level].pep == info1[level].pep
    requires forall k :: 0 <= k < level ==> info0[k] == info1[k]
    requires forall k :: 0 <= k < level + 1 ==> info2[k] == info1[k]
    ensures SameLevels(info0, info2, level)
  {
  }

  lemma HeadDoneSame(db: Database, min: nat, level: nat, node: Node, head: Option<CItemset>,
                     info: seq<LevelInfo>, info2: seq<LevelInfo>, newer: seq<CItemset>, j: nat, r: seq<Line>)
    requires HeadDone(db, min, level, node, head, info2, newer, j, r) && SameLevels(info, info2, level)
    ensures HeadDone(db, min, level, node, head, info, newer, j, r)
  {
    TokensSame(info, info2, level);
  }

  lemma HeadItems(db: Database, n: nat, node: Node, e: Itemset, newer: seq<CItemset>, j: nat)
    requires TailOk(db, n, node, e, newer, 0) && j < |newer|
    ensures ItemsOf(newer, j) == {newer[j].lastItem} + ItemsOf(newer, j + 1) && ItemsOf(newer, j) <= ItemsOf(newer, 0)
    ensures newer[j].lastItem !in e && newer[j].lastItem !in ItemsOf(newer, j + 1)
  {
    hide MaskOk, Tids;
  }

  lemma ResortedTail(db: Database, n: nat, level: nat, node: Node, head: Option<CItemset>, useDiffset: bool, min: nat,
                     info: seq<LevelInfo>, newer: seq<CItemset>)
    requires Resorted(db, n, level, node, head, useDiffset, min, info, newer)
    ensures level < |info| && TailOk(db, n, Below(db, node, head, useDiffset), All(TokensOf(info, level)), newer, 0)
  {
    hide TailOk, Below, TokensOf, All, PathOk;
  }

  lemma HeadsNext(db: Database, n: nat, min: nat, level: nat, node: Node, head: Option<CItemset>, useDiffset: bool,
                  info: seq<LevelInfo>, newer: seq<CItemset>, j: nat, r: seq<Line>, own: seq<Line>)
    requires Resorted(db, n, level, node, head, useDiffset, min, info, newer)
    requires HeadsDone(db, min, level, node, head, info, newer, 0, j, r) &&
             HeadDone(db, min, level, node, head, info, newer, j, own)
    ensures HeadsDone(db, min, level, node, head, info, newer, 0, j + 1, r + own)
  {
    hide Resorted, TailOk, Below, PathOf, TokensOf, Wrote, ItemsOf, Tids, All;
    var e, h := All(TokensOf(info, level)), newer[j].lastItem;
    ResortedTail(db, n, level, node, head, useDiffset, min, info, newer);
    HeadItems(db, n, Below(db, node, head, useDiffset), e, newer, j);
    assert e + ItemsOf(newer, j) == e + {h} + ItemsOf(newer, j + 1);
    WroteHead(db, min, r, own, PathOf(node, head), e, h, ItemsOf(newer, j + 1), e + ItemsOf(newer, 0));
  }

  lemma AppendTwice(a: seq<Line>, b: seq<Line>, c: seq<Line>)
    ensures (a + b) + c == a + (b + c)
  {
  }

  // ---------------------------------------------------------------------------------------
  // The whole run
  // ---------------------------------------------------------------------------------------

  /** One candidate for each item below upto that reaches the support, in item order. */
  ghost predicate Singles(db: Database, min: nat, tail: seq<CItemset>, upto: nat) {
    && (forall k :: 0 <= k < |tail| ==> IsSingle(db, upto, tail[k]) && tail[k].support >= min)
    && (forall j, k :: 0 <= j < k < |tail| ==> tail[j].lastItem < tail[k].lastItem)
    && (forall i: nat :: i < upto ==> i in ItemsOf(tail, 0) || Supp(db, {i}) < min)
  }

  ghost predicate IsSingle(db: Database, n: nat, c: CItemset) {
    c.lastItem < n && c.mask == Tids(db, {c.lastItem}) && c.support == c.counted == |c.mask|
  }

  lemma SinglesTakes(db: Database, min: nat, tail: seq<CItemset>, upto: nat)
    requires Singles(db, min, tail, upto) && Supp(db, {upto}) >= min
    ensures Singles(db, min, tail + [CItemset(Supp(db, {upto}), Tids(db, {upto}), Supp(db, {upto}), upto)], upto + 1)
  {
    ItemsSnoc(tail, CItemset(Supp(db, {upto}), Tids(db, {upto}), Supp(db, {upto}), upto));
  }

  lemma SinglesSkips(db: Database, min: nat, tail: seq<CItemset>, upto: nat)
    requires Singles(db, min, tail, upto) && Supp(db, {upto}) < min
    ensures Singles(db, min, tail, upto + 1)
  {
  }

  /** At the start bit t stands for transaction t. */
  ghost function Identity(count: nat): seq<nat> {
    seq(count, t requires 0 <= t < count => t)
  }

  lemma ItemsSnoc(tail: seq<CItemset>, c: CItemset)
    ensures ItemsOf(tail + [c], 0) == ItemsOf(tail, 0) + {c.lastItem}
  {
    forall x | x in ItemsOf(tail, 0) ensures x in ItemsOf(tail + [c], 0) {
      var k :| 0 <= k < |tail| && tail[k].lastItem == x;
      assert (tail + [c])[k].lastItem == x;
    }
    assert (tail + [c])[|tail|].lastItem == c.lastItem;
  }

  lemma SinglesReady(db: Database, n: nat, node: Node, min: nat, tail: seq<CItemset>, info: seq<LevelInfo>)
    requires node == Node(Identity(|db|), TidSets, {})
    requires Singles(db, min, tail, n) && |info| > 0
    ensures Ready(db, n, 0, node, None, min, TokensOf(info, 0), tail, 0) && FlagsOk(node, false, false, None)
  {
    forall k | 0 <= k < |tail| ensures MaskOk(db, node.space, node.kind, {}, tail[k]) {
      IdentityRepr(|db|, tail[k].mask);
      assert {} + {tail[k].lastItem} == {tail[k].lastItem};
    }
  }

  lemma IdentityRepr(count: nat, s: set<nat>)
    requires forall t :: t in s ==> t < count
    ensures Repr(Identity(count), s, s)
  {
    forall t | t in s ensures t in Identity(count) {
      assert Identity(count)[t] == t;
    }
  }

  /** out holds every frequent set of the items below n exactly once, with its support, and nothing else. */
  ghost predicate Complete(db: Database, n: nat, min: nat, out: seq<Line>) {
    forall z: Itemset, s: nat ::
      Count(out, z, s) == if z <= Upto(n) && Supp(db, z) > min && s == Supp(db, z) then 1 else 0
  }

  /** What the top call leaves out of all items is infrequent, so it has written all nonempty sets. */
  lemma AllWritten(db: Database, n: nat, node: Node, min: nat, tail: seq<CItemset>,
                   info0: seq<LevelInfo>, info: seq<LevelInfo>, first: seq<Line>, r: seq<Line>)
    requires Mined(db, n, 0, node, None, min, tail, 0, info0, info, r)
    requires Singles(db, min, tail, n)
    requires first == if |db| > min then [Line([], |db|)] else []
    ensures Complete(db, n, min, first + r)
  {
    assert All([]) == {};
    forall x | x in Upto(n) - ItemsOf(tail, 0) ensures Supp(db, {} + {x}) <= min {
      assert {} + {x} == {x};
    }
    WroteBeyond(db, min, r, {}, {}, {} + ItemsOf(tail, 0), Upto(n));
    CompleteFrom(db, n, min, first, r);
  }

  lemma CompleteFrom(db: Database, n: nat, min: nat, first: seq<Line>, r: seq<Line>)
    requires Wrote(db, min, r, {}, {}, Upto(n))
    requires first == if |db| > min then [Line([], |db|)] else []
    ensures Complete(db, n, min, first + r)
  {
    OneLine(db, min, first);
    hide Count, Supp, Upto;
    forall z: Itemset, s: nat ensures
      Count(first + r, z, s) == if z <= Upto(n) && Supp(db, z) > min && s == Supp(db, z) then 1 else 0
    {
      CountConcat(first, r, z, s);
    }
  }

  lemma OneLine(db: Database, min: nat, first: seq<Line>)
    requires first == if |db| > min then [Line([], |db|)] else []
    ensures forall z: Itemset, s: nat ::
      Count(first, z, s) == if z == {} && Supp(db, z) > min && s == Supp(db, z) then 1 else 0
  {
    AllContainEmpty(db);
    if |db| > min { assert first[1..] == []; }
  }

  lemma {:induction false} AllContainEmpty(db: Database)
    ensures Supp(db, {}) == |db|
  {
    assert Tids(db, {}) == Upto(|db|);
  }
}
