/** The two-level iterator (table/two_level_iterator.cc): an index of blocks read as one run. */
module TwoLevel {
  import opened Bytes
  import opened Keys

  /** An index entry: a separator key and the handle of the block it covers. */
  datatype IndexEntry<K> = IndexEntry(separator: K, handle: nat)

  /** How many entries come before block `i`. */
  ghost function Offset(blocks: seq<seq<Entry>>, i: nat): nat
    requires i <= |blocks|
  {
    |Concat(blocks[..i])|
  }

  lemma OffsetStep(blocks: seq<seq<Entry>>, i: nat)
    requires i < |blocks|
    ensures Offset(blocks, i + 1) == Offset(blocks, i) + |blocks[i]|
  {
    assert blocks[..i + 1][..i] == blocks[..i];
  }

  lemma {:induction false} FlatAt(blocks: seq<seq<Entry>>, i: nat, j: nat)
    requires i < |blocks| && j < |blocks[i]|
    ensures Offset(blocks, i) + j < |Concat(blocks)|
    ensures Concat(blocks)[Offset(blocks, i) + j] == blocks[i][j]
  {
    var init := blocks[..|blocks| - 1];
    if i < |init| {
      FlatAt(init, i, j);
      assert blocks[..i] == init[..i];
    } else {
      assert blocks[..i] == init;
    }
  }

  lemma {:induction false} OffsetsAscend(blocks: seq<seq<Entry>>, i: nat, n: nat)
    requires i <= n <= |blocks|
    ensures Offset(blocks, i) <= Offset(blocks, n)
  {
    if i < n {
      OffsetsAscend(blocks, i, n - 1);
      OffsetStep(blocks, n - 1);
    }
  }

  lemma {:induction false} OffsetEnds(blocks: seq<seq<Entry>>)
    ensures Offset(blocks, 0) == 0 && Offset(blocks, |blocks|) == |Concat(blocks)|
  {
    assert blocks[..|blocks|] == blocks && blocks[..0] == [];
  }

  /** Which block an entry of the flat run is in. */
  lemma {:induction false} BlockOf(blocks: seq<seq<Entry>>, k: nat) returns (i: nat, j: nat)
    requires k < |Concat(blocks)|
    ensures i < |blocks| && j < |blocks[i]| && k == Offset(blocks, i) + j
  {
    var init := blocks[..|blocks| - 1];
    if k < |Concat(init)| {
      i, j := BlockOf(init, k);
      assert init[..i] == blocks[..i];
    } else {
      i, j := |init|, k - |Concat(init)|;
    }
  }

  class TwoLevelIterator {
    const index: seq<IndexEntry<IKey>>
    /** block_function: what a handle opens; a block that cannot be read is empty. */
    const open: map<nat, seq<Entry>>
    var indexPos: nat
    var data: Option<seq<Entry>>
    var dataPos: nat
    var dataHandle: nat

    ghost function Blocks(): seq<seq<Entry>>
      requires Readable()
    {
      seq(|index|, i requires 0 <= i < |index| => open[index[i].handle])
    }

    ghost function Contents(): seq<Entry>
      requires Readable()
    {
      Concat(Blocks())
    }

    ghost predicate Readable() {
      forall i :: 0 <= i < |index| ==> index[i].handle in open
    }

    /** Each separator is at or after its block and before the next one. */
    ghost predicate Separated()
      requires Readable()
    {
      && Sorted(Contents())
      && (forall i :: 0 <= i < |index| ==> Sorted(Blocks()[i]))
      && (forall i, e :: 0 <= i < |index| && e in Blocks()[i] ==> !Less(index[i].separator, e.key))
      && (forall i, j, e :: 0 <= i < j < |index| && e in Blocks()[j] ==> Less(index[i].separator, e.key))
      && (forall i, j :: 0 <= i < j < |index| ==> Less(index[i].separator, index[j].separator))
    }

    /** An open data block is the one the index stands at. */
    ghost predicate Aligned()
      reads this
    {
      && Readable()
      && indexPos <= |index|
      && (data.Some? ==>
            && indexPos < |index|
            && data.value == open[index[indexPos].handle]
            && dataPos <= |data.value|
            && dataHandle == index[indexPos].handle)
    }

    predicate IsValid()
      reads this
    {
      data.Some? && dataPos < |data.value|
    }

    ghost predicate Valid()
      reads this
    {
      Aligned() && (data.Some? ==> dataPos < |data.value|)
    }

    /** The position in the concatenation of all blocks; its size when not valid. */
    ghost function Pos(): nat
      requires Aligned()
      reads this
    {
      if data.Some? then Offset(Blocks(), indexPos) + dataPos else |Contents()|
    }

    constructor (ix: seq<IndexEntry<IKey>>, blocks: map<nat, seq<Entry>>)
      requires forall i :: 0 <= i < |ix| ==> ix[i].handle in blocks
      ensures Valid() && index == ix && open == blocks && data.None?
    {
      index, open, indexPos, data, dataPos, dataHandle := ix, blocks, |ix|, None, 0, 0;
    }

    /** A valid iterator stands at an entry of the concatenation. */
    lemma StandsAtEntry()
      requires Valid()
      ensures IsValid() <==> Pos() < |Contents()|
      ensures IsValid() ==> Contents()[Pos()] == data.value[dataPos]
    {
      if data.Some? {
        FlatAt(Blocks(), indexPos, dataPos);
      }
    }

    /** InitDataBlock: reuses the open block when the handle is the same. */
    method InitDataBlock()
      requires Readable() && indexPos <= |index|
      requires data.Some? ==> dataHandle in open && data.value == open[dataHandle] && dataPos <= |data.value|
      modifies this`data, this`dataPos, this`dataHandle
      ensures Aligned() && (data.Some? <==> indexPos < |index|)
    {
      if indexPos >= |index| {
        data := None;
      } else {
        var handle := index[indexPos].handle;
        if data.Some? && handle == dataHandle {
        } else {
          data, dataPos, dataHandle := Some(open[handle]), |open[handle]|, handle;
        }
      }
    }

    method SkipEmptyDataBlocksForward()
      requires Aligned() && (data.None? ==> indexPos == |index|)
      modifies this
      ensures Valid() && Pos() == old(Pos())
    {
      ghost var pos := Pos();
      while !IsValid()
        invariant Aligned() && (data.None? ==> indexPos == |index|) && Pos() == pos
        decreases |index| - indexPos
      {
        if indexPos >= |index| {
          data := None;
          return;
        }
        OffsetStep(Blocks(), indexPos);
        OffsetEnds(Blocks());
        indexPos := indexPos + 1;
        InitDataBlock();
        if data.Some? {
          dataPos := 0;
        }
      }
    }

    /** Backward: the end of one block stands for the last entry of an earlier one. */
    method SkipEmptyDataBlocksBackward(ghost pos: int)
      requires Aligned() && pos < |Contents()|
      requires if IsValid() then Pos() == pos
               else if indexPos < |index| then pos == Offset(Blocks(), indexPos) - 1 else pos == -1 && data.None?
      modifies this
      ensures Valid() && Pos() == if pos == -1 then |Contents()| else pos
    {
      while !IsValid()
        invariant Aligned() && -1 <= pos < |Contents()|
        invariant if IsValid() then Pos() == pos
                  else if indexPos < |index| then pos == Offset(Blocks(), indexPos) - 1 else pos == -1 && data.None?
        decreases if IsValid() then 0 else if indexPos < |index| then indexPos + 1 else 0
      {
        if indexPos >= |index| {
          data := None;
          return;
        }
        OffsetEnds(Blocks());
        ghost var before := indexPos;
        indexPos := if indexPos == 0 then |index| else indexPos - 1;
        InitDataBlock();
        if data.Some? {
          OffsetStep(Blocks(), indexPos);
          dataPos := if |data.value| == 0 then 0 else |data.value| - 1;
        }
      }
    }

    method SeekToFirst()
      requires Valid()
      modifies this
      ensures Valid() && Pos() == 0
    {
      indexPos := 0;
      InitDataBlock();
      if data.Some? {
        dataPos := 0;
      }
      OffsetEnds(Blocks());
      SkipEmptyDataBlocksForward();
    }

    method SeekToLast()
      requires Valid()
      modifies this
      ensures Valid() && Pos() == if Contents() == [] then 0 else |Contents()| - 1
    {
      indexPos := if |index| == 0 then 0 else |index| - 1;
      InitDataBlock();
      OffsetEnds(Blocks());
      if data.Some? {
        OffsetStep(Blocks(), indexPos);
        dataPos := if |data.value| == 0 then 0 else |data.value| - 1;
      }
      SkipEmptyDataBlocksBackward(|Contents()| - 1);
    }

    method Next()
      requires Valid() && IsValid()
      modifies this
      ensures Valid() && Pos() == old(Pos()) + 1
    {
      dataPos := dataPos + 1;
      SkipEmptyDataBlocksForward();
    }

    method Prev()
      requires Valid() && IsValid()
      modifies this
      ensures Valid() && Pos() == if old(Pos()) == 0 then |Contents()| else old(Pos()) - 1
    {
      StandsAtEntry();
      ghost var pos: int := Pos();
      dataPos := if dataPos == 0 then |data.value| else dataPos - 1;
      SkipEmptyDataBlocksBackward(pos - 1);
    }

    method Seek(target: IKey)
      requires Valid() && Separated()
      modifies this
      ensures Valid() && Pos() == SeekIndex(Contents(), target)
    {
      indexPos := SeekSeparator(index, target);
      InitDataBlock();
      if data.Some? {
        dataPos := SeekIndex(data.value, target);
        SeekLands(target, indexPos, dataPos);
      } else {
        SeekPastEnd(target);
      }
      SkipEmptyDataBlocksForward();
    }

    /** Entry `k` of the concatenation is before the target exactly when it is before
        position `j` of block `i`. */
    lemma {:induction false} BeforeTarget(target: IKey, i: nat, j: nat, k: nat)
      requires Readable() && Separated() && i < |index|
      requires forall k :: 0 <= k < i ==> Less(index[k].separator, target)
      requires !Less(index[i].separator, target) && j == SeekIndex(Blocks()[i], target)
      requires k < |Contents()|
      ensures Less(Contents()[k].key, target) <==> k < Offset(Blocks(), i) + j
    {
      var a, b := BlockOf(Blocks(), k);
      FlatAt(Blocks(), a, b);
      assert Blocks()[a][b] in Blocks()[a];
      if a < i {
        OffsetStep(Blocks(), a);
        OffsetsAscend(Blocks(), a + 1, i);
        assert Less(index[a].separator, target);
      } else if a > i {
        OffsetStep(Blocks(), i);
        OffsetsAscend(Blocks(), i + 1, a);
      }
    }

    lemma {:induction false} SeekLands(target: IKey, i: nat, j: nat)
      requires Readable() && Separated() && i < |index|
      requires forall k :: 0 <= k < i ==> Less(index[k].separator, target)
      requires !Less(index[i].separator, target) && j == SeekIndex(Blocks()[i], target)
      ensures Offset(Blocks(), i) + j == SeekIndex(Contents(), target)
    {
      var pos := Offset(Blocks(), i) + j;
      OffsetStep(Blocks(), i);
      OffsetsAscend(Blocks(), i + 1, |index|);
      OffsetEnds(Blocks());
      var s := SeekIndex(Contents(), target);
      if s < |Contents()| {
        BeforeTarget(target, i, j, s);
      }
      if pos < |Contents()| {
        BeforeTarget(target, i, j, pos);
      }
    }

    lemma {:induction false} SeekPastEnd(target: IKey)
      requires Readable() && Separated()
      requires forall k :: 0 <= k < |index| ==> Less(index[k].separator, target)
      ensures SeekIndex(Contents(), target) == |Contents()|
    {
      var s := SeekIndex(Contents(), target);
      if s < |Contents()| {
        var a, b := BlockOf(Blocks(), s);
        FlatAt(Blocks(), a, b);
      }
    }
  }

  /** The index iterator's Seek: the first separator at or after `target`. */
  function SeekSeparator(index: seq<IndexEntry<IKey>>, target: IKey): (i: nat)
    ensures i <= |index|
    ensures forall j :: 0 <= j < i ==> Less(index[j].separator, target)
    ensures i < |index| ==> !Less(index[i].separator, target)
  {
    if index == [] || !Less(index[0].separator, target) then 0 else 1 + SeekSeparator(index[1..], target)
  }
}
