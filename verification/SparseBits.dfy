/** AIM's sparse bit array: the words that are not all zero, with their places. */
module SparseBits {
  import opened AimMasks
  import opened Basics
  import opened BitWords

  /** The number of one bits of a byte: one entry of the oneCount table. */
  method OneCount(byte: Word) returns (count: nat)
    requires forall b :: b in byte ==> b < 8
    ensures count == |byte|
  {
    var diff, pos := byte, 0;
    count := 0;
    SliceShift(byte, 0, 0);
    while diff != {}
      invariant pos <= 8 && diff == Slice(byte, pos, BITS) && count == Rank(byte, pos)
      decreases 8 - pos
    {
      SliceShift(byte, pos, 1);
      RankStep(byte, pos);
      hide Rank, Slice;
      if 0 in diff {
        count := count + 1;
      }
      diff := ShiftRight(diff, 1);
      pos := pos + 1;
    }
    SliceShift(byte, pos, 0);
    RankAll(byte, pos);
  }

  /** One step through a byte and the bits of another word under it. */
  lemma ByteStep(on: Word, from: Word, k: nat)
    requires (forall b :: b in on ==> b < 8) && Slice(on * from, k, BITS) != {}
    ensures k < 8 && Rank(on, k + 1) == Rank(on, k) + if k in on then 1 else 0
    ensures ShiftRight(Slice(on * from, k, BITS), 1) == Slice(on * from, k + 1, BITS)
    ensures ShiftRight(Slice(on, k, BITS), 1) == Slice(on, k + 1, BITS)
    ensures (0 in Slice(on * from, k, BITS) <==> k in from && k in on) && (0 in Slice(on, k, BITS) <==> k in on)
    ensures ProjectBelow(from, on, k + 1)
         == ProjectBelow(from, on, k) + if k in from && k in on then {Rank(on, k)} else {}
  {
    SliceShift(on * from, k, 1);
    SliceShift(on, k, 1);
    RankStep(on, k);
    ProjectBelowStep(from, on, k);
    hide Rank, ProjectBelow, Slice, ShiftRight;
  }

  /** The bits of from at the one bits of on, pushed together: one entry of the projectionValues table. */
  method ProjectionValue(on: Word, from: Word) returns (res: Word)
    requires forall b :: b in on ==> b < 8
    ensures res == Project(from, on)
  {
    hide Rank, ProjectBelow, Project, Slice, ShiftRight;
    var val, bitMask, bitPos := on * from, on, 0;
    res := {};
    ProjectStart(on, from);
    ghost var k := 0;
    while val != {}
      invariant k <= 8 && val == Slice(on * from, k, BITS) && bitMask == Slice(on, k, BITS)
      invariant bitPos == Rank(on, k) && res == ProjectBelow(from, on, k)
      decreases 8 - k
    {
      ByteStep(on, from, k);
      if 0 in bitMask {
        if 0 in val {
          res := res + {bitPos};
        }
        bitPos := bitPos + 1;
      }
      val, bitMask := ShiftRight(val, 1), ShiftRight(bitMask, 1);
      k := k + 1;
    }
    ProjectEnd(on, from, k);
  }

  const ARRAY_INIT_SIZE: nat := 35

  class SparseBitArray {
    var keys: array<nat>
    var values: array<Word>
    var maxUsedPos: nat
    var support: nat
    /** The bits that the array stands for. */
    ghost var bits: Mask

    ghost predicate Valid()
      reads this, keys, values
    {
      && keys.Length == values.Length >= 1 && maxUsedPos <= keys.Length
      && Denotes(keys[..maxUsedPos], values[..maxUsedPos], bits)
    }

    constructor ()
      ensures Valid() && bits == {} && maxUsedPos == 0 && fresh(keys) && fresh(values)
    {
      keys := new nat[ARRAY_INIT_SIZE](_ => 0);
      values := new Word[ARRAY_INIT_SIZE](_ => {});
      maxUsedPos, support, bits := 0, 0, {};
    }

    /** Makes room for a word at pos, in new arrays of twice the length when the old ones are full. */
    method Insert(pos: nat, key: nat)
      requires keys.Length == values.Length >= 1 && maxUsedPos <= keys.Length && pos <= maxUsedPos
      modifies this`keys, this`values, this`maxUsedPos, keys, values
      ensures keys.Length == values.Length >= maxUsedPos && maxUsedPos == old(maxUsedPos) + 1
      ensures (keys == old(keys) && values == old(values)) || (fresh(keys) && fresh(values))
      ensures keys[pos] == key && values[pos] == {}
      ensures forall k :: 0 <= k < pos ==> keys[k] == old(keys[k]) && values[k] == old(values[k])
      ensures forall k :: pos < k < maxUsedPos ==> keys[k] == old(keys[k - 1]) && values[k] == old(values[k - 1])
    {
      if keys.Length <= maxUsedPos + 1 {
        Grow();
      }
      ShiftUp(keys, values, pos, maxUsedPos);
      keys[pos] := key;
      values[pos] := {};
      maxUsedPos := maxUsedPos + 1;
    }

    static method ShiftUp(ks: array<nat>, vs: array<Word>, pos: nat, count: nat)
      requires pos <= count < ks.Length == vs.Length
      modifies ks, vs
      ensures forall k :: 0 <= k < pos ==> ks[k] == old(ks[k]) && vs[k] == old(vs[k])
      ensures forall k :: pos < k <= count ==> ks[k] == old(ks[k - 1]) && vs[k] == old(vs[k - 1])
    {
      var loop := count;
      while loop > pos
        invariant pos <= loop <= count
        invariant forall k :: 0 <= k < loop ==> ks[k] == old(ks[k]) && vs[k] == old(vs[k])
        invariant forall k :: loop < k <= count ==> ks[k] == old(ks[k - 1]) && vs[k] == old(vs[k - 1])
      {
        ks[loop] := ks[loop - 1];
        vs[loop] := vs[loop - 1];
        loop := loop - 1;
      }
    }

    method Grow()
      requires keys.Length == values.Length >= 1 && maxUsedPos <= keys.Length
      modifies this`keys, this`values
      ensures keys.Length == values.Length == 2 * old(keys.Length) && fresh(keys) && fresh(values)
      ensures forall k :: 0 <= k < old(keys.Length) ==> keys[k] == old(keys[k]) && values[k] == old(values[k])
    {
      var ks, vs := keys, values;
      var newKeys, newValues := new nat[ks.Length * 2](_ => 0), new Word[ks.Length * 2](_ => {});
      for k := 0 to ks.Length
        invariant forall j :: 0 <= j < k ==> newKeys[j] == ks[j] && newValues[j] == vs[j]
        modifies newKeys, newValues
      {
        newKeys[k], newValues[k] := ks[k], vs[k];
      }
      keys, values := newKeys, newValues;
    }

    /** Insert at the end, and fill the new word. */
    method AppendWord(key: nat, word: Word)
      requires keys.Length == values.Length >= 1 && maxUsedPos <= keys.Length
      modifies this`keys, this`values, this`maxUsedPos, keys, values
      ensures keys.Length == values.Length >= maxUsedPos && maxUsedPos == old(maxUsedPos) + 1
      ensures (keys == old(keys) && values == old(values)) || (fresh(keys) && fresh(values))
      ensures keys[..maxUsedPos] == old(keys[..maxUsedPos]) + [key]
      ensures values[..maxUsedPos] == old(values[..maxUsedPos]) + [word]
    {
      Insert(maxUsedPos, key);
      values[maxUsedPos - 1] := word;
    }

    ghost predicate Shape()
      reads this, keys, values
    {
      keys.Length == values.Length >= 1 && maxUsedPos <= keys.Length
    }

    /** The words of t with keys among the first pos have been appended. */
    ghost predicate Holds(t: Mask, from: seq<nat>, pos: nat)
      reads this, keys, values
    {
      Shape() && Collected(t, from, pos, keys[..maxUsedPos], values[..maxUsedPos])
    }

    method Take(word: Word, ghost t: Mask, ghost from: seq<nat>, ghost pos: nat, key: nat)
      requires pos < |from| && from[pos] == key && Holds(t, from, pos) && word == Slice(t, key * BITS, BITS)
      requires Asc(from)
      modifies this`keys, this`values, this`maxUsedPos, keys, values
      ensures Holds(t, from, pos + 1)
      ensures (keys == old(keys) && values == old(values)) || (fresh(keys) && fresh(values))
    {
      CollectWord(t, from, pos, keys[..maxUsedPos], values[..maxUsedPos], word);
      hide Collected, Slice;
      AppendWord(key, word);
    }

    /** t has no word at the key that was passed. */
    lemma Passed(t: Mask, from: seq<nat>, pos: nat)
      requires pos < |from| && Holds(t, from, pos) && Slice(t, from[pos] * BITS, BITS) == {}
      ensures Holds(t, from, pos + 1)
    {
      CollectNothing(t, from, pos, keys[..maxUsedPos], values[..maxUsedPos]);
    }

    /** Words without bits are not stored. */
    method Put(word: Word, ghost t: Mask, ghost from: seq<nat>, ghost pos: nat, key: nat)
      requires pos < |from| && from[pos] == key && Holds(t, from, pos) && word == Slice(t, key * BITS, BITS)
      requires Asc(from)
      modifies this`keys, this`values, this`maxUsedPos, keys, values
      ensures Holds(t, from, pos + 1)
      ensures (keys == old(keys) && values == old(values)) || (fresh(keys) && fresh(values))
    {
      if word != {} {
        Take(word, t, from, pos, key);
      } else {
        Passed(t, from, pos);
      }
    }

    method And(other: SparseBitArray) returns (res: SparseBitArray)
      requires Valid() && other.Valid()
      ensures fresh(res) && res.Valid() && res.bits == bits * other.bits
    {
      res := new SparseBitArray();
      var pos, otherPos := 0, 0;
      ghost var m, o, ks, vs := bits, other.bits, keys[..maxUsedPos], values[..maxUsedPos];
      ghost var os, ovs := other.keys[..other.maxUsedPos], other.values[..other.maxUsedPos];
      MergeStart(m, ks, vs, o, os, ovs, m * o);
      assert res.Holds(m * o, ks, 0) && Shape() && other.Shape();
      hide Denotes, Collected, Slice, Merging, Holds, Asc;
      while pos < maxUsedPos && otherPos < other.maxUsedPos
        invariant pos <= |ks| && otherPos <= |os|
        invariant Merging(m, ks, vs, pos, o, os, ovs, otherPos) && res.Holds(m * o, ks, pos)
        invariant fresh(res.keys) && fresh(res.values)
      {
        if keys[pos] < other.keys[otherPos] {
          MergeFirst(m, ks, vs, pos, o, os, ovs, otherPos);
          res.Passed(m * o, ks, pos);
          pos := pos + 1;
        } else if keys[pos] > other.keys[otherPos] {
          MergeSecond(m, ks, vs, pos, o, os, ovs, otherPos);
          otherPos := otherPos + 1;
        } else {
          MergeBoth(m, ks, vs, pos, o, os, ovs, otherPos);
          res.Put(values[pos] * other.values[otherPos], m * o, ks, pos, keys[pos]);
          pos, otherPos := pos + 1, otherPos + 1;
        }
      }
      res.FinishAnd(m, ks, vs, pos, o, os, ovs, otherPos);
    }

    method FinishAnd(ghost m: Mask, ghost ks: seq<nat>, ghost vs: seq<Word>, ghost pos: nat,
                     ghost o: Mask, ghost os: seq<nat>, ghost ovs: seq<Word>, ghost otherPos: nat)
      requires Merging(m, ks, vs, pos, o, os, ovs, otherPos) && (pos == |ks| || otherPos == |os|)
      requires Holds(m * o, ks, pos)
      modifies this`bits
      ensures Valid() && bits == m * o
    {
      MergedAnd(m, ks, vs, pos, o, os, ovs, otherPos, keys[..maxUsedPos], values[..maxUsedPos]);
      bits := m * o;
    }

    method AndNot(other: SparseBitArray) returns (res: SparseBitArray)
      requires Valid() && other.Valid()
      ensures fresh(res) && res.Valid() && res.bits == bits - other.bits
    {
      res := new SparseBitArray();
      var pos, otherPos := 0, 0;
      ghost var m, o, ks, vs := bits, other.bits, keys[..maxUsedPos], values[..maxUsedPos];
      ghost var os, ovs := other.keys[..other.maxUsedPos], other.values[..other.maxUsedPos];
      MergeStart(m, ks, vs, o, os, ovs, m - o);
      assert res.Holds(m - o, ks, 0) && Shape() && other.Shape();
      hide Denotes, Collected, Slice, Merging, Holds, Asc;
      while pos < maxUsedPos && otherPos < other.maxUsedPos
        invariant pos <= |ks| && otherPos <= |os|
        invariant Merging(m, ks, vs, pos, o, os, ovs, otherPos) && res.Holds(m - o, ks, pos)
        invariant fresh(res.keys) && fresh(res.values)
      {
        if keys[pos] < other.keys[otherPos] {
          MergeFirst(m, ks, vs, pos, o, os, ovs, otherPos);
          res.Take(values[pos], m - o, ks, pos, keys[pos]);
          pos := pos + 1;
        } else if keys[pos] > other.keys[otherPos] {
          MergeSecond(m, ks, vs, pos, o, os, ovs, otherPos);
          otherPos := otherPos + 1;
        } else {
          MergeBoth(m, ks, vs, pos, o, os, ovs, otherPos);
          res.Put(values[pos] - other.values[otherPos], m - o, ks, pos, keys[pos]);
          pos, otherPos := pos + 1, otherPos + 1;
        }
      }
      TakeRest(res, pos, m, ks, vs, o, os, ovs, otherPos);
    }

    /** The words behind the last one of the other mask are taken over. */
    method TakeRest(res: SparseBitArray, start: nat, ghost m: Mask, ghost ks: seq<nat>, ghost vs: seq<Word>,
                    ghost o: Mask, ghost os: seq<nat>, ghost ovs: seq<Word>, ghost otherPos: nat)
      requires res != this && res.keys != keys && res.values != values && Shape()
      requires ks == keys[..maxUsedPos] && vs == values[..maxUsedPos] && Asc(ks) && start <= |ks|
      requires Merging(m, ks, vs, start, o, os, ovs, otherPos) && (start == |ks| || otherPos == |os|)
      requires res.Holds(m - o, ks, start)
      modifies res, res.keys, res.values
      ensures res.Valid() && res.bits == m - o
    {
      var pos := start;
      hide Denotes, Collected, Slice, Merging, Asc;
      while pos < maxUsedPos
        invariant start <= pos <= |ks| && res.Holds(m - o, ks, pos)
        invariant Merging(m, ks, vs, pos, o, os, ovs, otherPos) && (pos == |ks| || otherPos == |os|)
        invariant (res.keys == old(res.keys) && res.values == old(res.values)) || (fresh(res.keys) && fresh(res.values))
      {
        MergeFirst(m, ks, vs, pos, o, os, ovs, otherPos);
        res.Take(values[pos], m - o, ks, pos, keys[pos]);
        pos := pos + 1;
      }
      res.FinishAndNot(m, ks, vs, o, os, ovs, otherPos);
    }

    method FinishAndNot(ghost m: Mask, ghost ks: seq<nat>, ghost vs: seq<Word>,
                        ghost o: Mask, ghost os: seq<nat>, ghost ovs: seq<Word>, ghost otherPos: nat)
      requires Merging(m, ks, vs, |ks|, o, os, ovs, otherPos) && Holds(m - o, ks, |ks|)
      modifies this`bits
      ensures Valid() && bits == m - o
    {
      MergedAndNot(m, ks, vs, o, keys[..maxUsedPos], values[..maxUsedPos]);
      bits := m - o;
    }

    /** Sets support to the number of one bits, counted byte by byte. */
    method CountElements() returns (count: nat)
      requires Valid()
      modifies this`support
      ensures Valid() && count == support == |bits|
    {
      support := 0;
      ghost var ks, vs := keys[..maxUsedPos], values[..maxUsedPos];
      ghost var bound: nat := 0;
      CountStart(bits, ks, vs);
      hide Counted, Denotes, Rank;
      for loop := 0 to maxUsedPos
        invariant Counted(bits, ks, vs, loop, bound) && support == Rank(bits, bound)
      {
        CountWord(bits, ks, vs, loop, bound);
        var ones := CountWordBits(values[loop]);
        support := support + ones;
        bound := ks[loop] * BITS + BITS;
      }
      CountEnd(bits, ks, vs, bound);
      count := support;
    }

    /** The bits of this mask at the one bits of on, pushed together; on.support must be up to date. */
    method Project(on: SparseBitArray) returns (res: SparseBitArray)
      requires Valid() && on.Valid() && on.support == |on.bits|
      ensures fresh(res) && res.Valid() && res.bits == AimMasks.Project(bits, on.bits)
    {
      var len := on.support / BITS + 1;
      res := Cleared(len);
      ghost var ks, vs, os, ovs := keys[..maxUsedPos], values[..maxUsedPos], on.keys[..on.maxUsedPos],
          on.values[..on.maxUsedPos];
      ProjectingStart(bits, ks, vs, on.bits, os, ovs, res.values[..len]);
      ghost var zeros := res.values[..len];
      ghost var pos, onPos, bound, bitPos := ProjectWords(on, res.values, len, bits, ks, vs, on.bits, os, ovs, zeros);
      res.Number(len, bits, ks, vs, pos, on.bits, os, ovs, onPos, bound, bitPos, zeros);
    }

    method ProjectWords(on: SparseBitArray, words: array<Word>, len: nat, ghost m: Mask, ghost ks: seq<nat>,
                        ghost vs: seq<Word>,
                        ghost h: Mask, ghost os: seq<nat>, ghost ovs: seq<Word>, ghost zeros: seq<Word>)
      returns (ghost lastPos: nat, ghost lastOnPos: nat, ghost bound: nat, ghost lastBitPos: nat)
      requires words != values && words != on.values && len == |zeros| <= words.Length
      requires maxUsedPos <= keys.Length && maxUsedPos <= values.Length
      requires on.maxUsedPos <= on.keys.Length && on.maxUsedPos <= on.values.Length
      requires ks == keys[..maxUsedPos] && vs == values[..maxUsedPos]
      requires os == on.keys[..on.maxUsedPos] && ovs == on.values[..on.maxUsedPos]
      requires Projecting(m, ks, vs, 0, h, os, ovs, 0, 0, 0, zeros, words[..len])
      modifies words
      ensures Projecting(m, ks, vs, lastPos, h, os, ovs, lastOnPos, bound, lastBitPos, zeros, words[..len])
      ensures lastPos == |ks| || lastOnPos == |os|
    {
      hide *;
      var pos, onPos, bitPos := 0, 0, 0;
      bound := 0;
      while pos < maxUsedPos && onPos < on.maxUsedPos
        invariant pos <= |ks| && onPos <= |os|
        invariant Projecting(m, ks, vs, pos, h, os, ovs, onPos, bound, bitPos, zeros, words[..len])
      {
        ghost var now := words[..len];
        if keys[pos] < on.keys[onPos] {
          ProjectingSkips(m, ks, vs, pos, h, os, ovs, onPos, bound, bitPos, zeros, now);
          pos := pos + 1;
        } else if keys[pos] > on.keys[onPos] {
          ProjectingCounts(m, ks, vs, pos, h, os, ovs, onPos, bound, bitPos, zeros, now);
          var ones := CountWordBits(on.values[onPos]);
          bitPos := bitPos + ones;
          bound := os[onPos] * BITS + BITS;
          onPos := onPos + 1;
        } else {
          ProjectingReady(m, ks, vs, pos, h, os, ovs, onPos, bound, bitPos, zeros, now);
          var next := ProjectWord(words, len, values[pos], on.values[onPos], bitPos);
          ProjectingWrites(m, ks, vs, pos, h, os, ovs, onPos, bound, bitPos, zeros, now, words[..len]);
          bitPos := next;
          bound := os[onPos] * BITS + BITS;
          pos, onPos := pos + 1, onPos + 1;
        }
      }
      lastPos, lastOnPos, lastBitPos := pos, onPos, bitPos;
    }

    /** A new array with at least len words, the first len of them zero. */
    static method Cleared(len: nat) returns (res: SparseBitArray)
      requires len > 0
      ensures fresh(res) && fresh(res.keys) && fresh(res.values) && res.keys.Length == res.values.Length >= len
      ensures forall i :: 0 <= i < len ==> res.values[i] == {}
    {
      res := new SparseBitArray();
      if res.keys.Length < len {
        res.keys := new nat[len];
        res.values := new Word[len];
      }
      var words := res.values;
      for i := 0 to len
        invariant forall j :: 0 <= j < i ==> words[j] == {}
        modifies words
      {
        words[i] := {};
      }
    }

    /** Gives the words their places 0, 1, .., and ends the projection. */
    method Number(len: nat, ghost m: Mask, ghost ks: seq<nat>, ghost vs: seq<Word>, ghost pos: nat,
                  ghost h: Mask, ghost os: seq<nat>, ghost ovs: seq<Word>, ghost onPos: nat,
                  ghost bound: nat, ghost bitPos: nat, ghost zeros: seq<Word>)
      requires keys.Length == values.Length >= len == |h| / BITS + 1
      requires Projecting(m, ks, vs, pos, h, os, ovs, onPos, bound, bitPos, zeros, values[..len])
      requires pos == |ks| || onPos == |os|
      modifies this`maxUsedPos, this`bits, keys
      ensures Valid() && bits == AimMasks.Project(m, h)
    {
      var ps := keys;
      for loopKeys := 0 to len
        invariant forall j :: 0 <= j < loopKeys ==> ps[j] == j
        modifies ps
      {
        ps[loopKeys] := loopKeys;
      }
      maxUsedPos := len;
      bits := AimMasks.Project(m, h);
      ProjectingEnd(m, ks, vs, pos, h, os, ovs, onPos, bound, bitPos, zeros, keys[..len], values[..len]);
    }
  }

  /** The one bits of a word, a byte at a time. */
  method CountWordBits(word: Word) returns (count: nat)
    requires IsWord(word)
    ensures count == |word|
  {
    var diff := word;
    ghost var k := 0;
    count := 0;
    ProjectStart(word, word);
    while diff != {}
      invariant k % 8 == 0 && k <= BITS && diff == Slice(word, k, BITS) && count == Rank(word, k)
      decreases BITS - k
    {
      WordByte(word, k);
      var ones := OneCount(Slice(diff, 0, 8));
      count := count + ones;
      diff := ShiftRight(diff, 8);
      k := k + 8;
    }
    WordEnd(word, k);
  }

  /** Or-s the projection of one byte into the result, the overflow into the next word. */
  method WriteByte(values: array<Word>, len: nat, from: Word, on: Word, bitPos: nat) returns (newPos: nat)
    requires len <= values.Length && AllWords(values[..len]) && (bitPos + |Slice(on, 0, 8)|) / BITS < len
    modifies values
    ensures Added(old(values[..len]), values[..len], Project(Slice(from, 0, 8), Slice(on, 0, 8)), bitPos)
    ensures newPos == bitPos + |Slice(on, 0, 8)|
  {
    ghost var before := values[..len];
    var count := OneCount(Slice(on, 0, 8));
    var val := ProjectionValue(Slice(on, 0, 8), Slice(from, 0, 8));
    ghost var whole := val;
    ProjectBound(Slice(from, 0, 8), Slice(on, 0, 8));
    ByteCard(on);
    hide Project, Slice, ShiftLeft, ShiftRight, Added;
    if bitPos % BITS + count > BITS {
      var overflowSize := bitPos % BITS + count - BITS;
      var overflow := ShiftRight(val, count - overflowSize);
      values[bitPos / BITS + 1] := values[bitPos / BITS + 1] + overflow;
    }
    val := ShiftLeft(val, bitPos % BITS);
    values[bitPos / BITS] := values[bitPos / BITS] + val;
    newPos := bitPos + count;
    OrWord(before, values[..len], whole, bitPos, count);
  }

  /** Projects one word onto another, a byte at a time. */
  method ProjectWord(values: array<Word>, len: nat, from: Word, on: Word, bitPos: nat) returns (newPos: nat)
    requires IsWord(from) && IsWord(on)
    requires len <= values.Length && AllWords(values[..len]) && (bitPos + |on|) / BITS < len
    modifies values
    ensures Added(old(values[..len]), values[..len], Project(from, on), bitPos)
    ensures newPos == bitPos + |on|
  {
    var projectFromValue, projectOnValue := from, on;
    ghost var first, k := values[..len], 0;
    newPos := bitPos;
    ProjectStart(on, from);
    ProjectStart(from, on);
    assert Added(first, values[..len], ProjectBelow(from, on, 0), bitPos);
    while projectFromValue != {} || projectOnValue != {}
      invariant k % 8 == 0 && k <= BITS && newPos == bitPos + Rank(on, k)
      invariant projectFromValue == Slice(from, k, BITS) && projectOnValue == Slice(on, k, BITS)
      invariant Added(first, values[..len], ProjectBelow(from, on, k), bitPos)
      decreases BITS - k
    {
      ghost var before := values[..len];
      WordByte(from, k);
      WordByte(on, k);
      ByteFits(on, k);
      newPos := WriteByte(values, len, projectFromValue, projectOnValue, newPos);
      ProjectByte(first, before, values[..len], from, on, k, bitPos);
      projectOnValue, projectFromValue := ShiftRight(projectOnValue, 8), ShiftRight(projectFromValue, 8);
      k := k + 8;
    }
    WordEnd(on, k);
    ProjectEnd(on, from, k);
  }

  lemma ByteCard(on: Word)
    ensures |Slice(on, 0, 8)| <= 8
  {
    RankAll(Slice(on, 0, 8), 8);
    RankUpTo(Slice(on, 0, 8), 8);
  }

  lemma {:induction false} RankUpTo(m: Mask, k: nat)
    ensures Rank(m, k) <= k
  {
    if k == 0 {
      assert (set q | q in m && q < 0) == {};
    } else {
      RankUpTo(m, k - 1);
      RankStep(m, k - 1);
    }
  }
}
