/** Iterating over a table (Table::NewIterator in table/table.cc): a finished table is what
    the two-level iterator needs, and iterates as its entries. */
module TableScans {
  import opened Bytes
  import opened Bytewise
  import opened Keys
  import FilterBlocks
  import opened Tables
  import TwoLevel

  /** The iterator reads the table's index and opens its blocks. */
  ghost predicate Scans(it: TwoLevel.TwoLevelIterator, table: Table) {
    && |it.index| == |table.index|
    && (forall b ::
         0 <= b < |it.index| ==>
         it.index[b] == TwoLevel.IndexEntry(Ranked(table.index[b].separator), table.index[b].handle))
    && (forall at :: at in table.file ==> at in it.open && it.open[at] == RankedEntries(table.file[at]))
  }

  lemma RankedSlices(es: seq<Stored>, lo: nat, hi: nat)
    requires lo <= hi <= |es|
    ensures RankedEntries(es[lo..hi]) == RankedEntries(es)[lo..hi]
  {
  }

  lemma BlockIs(it: TwoLevel.TwoLevelIterator, table: Table, es: seq<Stored>, cuts: seq<nat>, offsets: seq<nat>, b: nat)
    requires Scans(it, table) && Filed(es, cuts, offsets, table.file) && Indexed(es, cuts, offsets, table.index)
             && b < |table.index|
    ensures cuts[b] <= cuts[b + 1] <= |es| && it.index[b].handle in it.open
    ensures it.open[it.index[b].handle] == RankedEntries(es)[cuts[b]..cuts[b + 1]]
  {
    assert IndexedAt(es, cuts, offsets, table.index, b);
    assert FiledAt(es, cuts, offsets, table.file, b);
    RankedSlices(es, cuts[b], cuts[b + 1]);
  }

  ghost predicate IsSlice(block: seq<Entry>, all: seq<Entry>, lo: nat, hi: nat) {
    lo <= hi <= |all| && block == all[lo..hi]
  }

  lemma {:induction false} BlocksJoin(blocks: seq<seq<Entry>>, all: seq<Entry>, cuts: seq<nat>, n: nat)
    requires n <= |blocks| < |cuts| && cuts[0] == 0
    requires forall b :: 0 <= b < |blocks| ==> IsSlice(blocks[b], all, cuts[b], cuts[b + 1])
    ensures cuts[n] <= |all| && Concat(blocks[..n]) == all[..cuts[n]]
  {
    if n > 0 {
      BlocksJoin(blocks, all, cuts, n - 1);
      assert blocks[..n][..n - 1] == blocks[..n - 1];
      assert IsSlice(blocks[n - 1], all, cuts[n - 1], cuts[n]);
      assert all[..cuts[n]] == all[..cuts[n - 1]] + all[cuts[n - 1]..cuts[n]];
    }
  }

  lemma RankedAscend(es: seq<Stored>)
    requires Ascending(es)
    ensures Sorted(RankedEntries(es))
  {
    forall i, j | 0 <= i < j < |es|
      ensures Less(RankedEntries(es)[i].key, RankedEntries(es)[j].key)
    {
      assert Before(es[i].key, es[j].key);
    }
  }

  /** A separator divides the entries: up to the end of its block, and from there on. */
  lemma Divides(es: seq<Stored>, cuts: seq<nat>, offsets: seq<nat>, index: seq<TwoLevel.IndexEntry<StoredKey>>, b: nat,
                k: nat)
    requires Ascending(es) && Indexed(es, cuts, offsets, index) && b < |index| && k < |es|
    ensures Before(index[b].separator, es[k].key) <==> k >= cuts[b + 1]
  {
    assert IndexedAt(es, cuts, offsets, index, b);
    var hi := cuts[b + 1];
    if k < hi - 1 {
      assert Before(es[k].key, es[hi - 1].key);
    } else if k > hi {
      assert Before(es[hi].key, es[k].key);
    }
  }

  lemma SeparatorsAscend(es: seq<Stored>, cuts: seq<nat>, offsets: seq<nat>, index: seq<TwoLevel.IndexEntry<StoredKey>>,
                         a: nat, b: nat)
    requires Ascending(es) && Cut(es, cuts, offsets) && Indexed(es, cuts, offsets, index) && a < b < |index|
    ensures Before(index[a].separator, index[b].separator)
  {
    assert IndexedAt(es, cuts, offsets, index, b);
    Divides(es, cuts, offsets, index, a, cuts[b + 1] - 1);
  }

  /** Every entry of a block is an entry of the table, at a place within its cuts. */
  lemma PlaceOf(block: seq<Entry>, es: seq<Stored>, lo: nat, hi: nat, e: Entry) returns (k: nat)
    requires IsSlice(block, RankedEntries(es), lo, hi) && e in block
    ensures lo <= k < hi <= |es| && e == RankedEntry(es[k])
  {
    var i :| 0 <= i < |block| && block[i] == e;
    k := lo + i;
  }

  lemma SliceIsSorted(all: seq<Entry>, block: seq<Entry>, lo: nat, hi: nat)
    requires Sorted(all) && IsSlice(block, all, lo, hi)
    ensures Sorted(block)
  {
  }

  /** A finished table meets the two-level iterator's conditions, and the concatenation of
      its blocks is its entries. */
  lemma TableIsSeparated(it: TwoLevel.TwoLevelIterator, policy: FilterBlocks.Policy, table: Table, es: seq<Stored>,
                         cuts: seq<nat>, offsets: seq<nat>)
    requires Scans(it, table) && Readable(policy, table, es, cuts, offsets)
    ensures it.Readable() && it.Contents() == RankedEntries(es) && it.Separated()
  {
    OpensAll(it, table, es, cuts, offsets);
    RankedAscend(es);
    var blocks := it.Blocks();
    forall b | 0 <= b < |blocks|
      ensures Sorted(blocks[b])
    {
      assert IsSlice(blocks[b], RankedEntries(es), cuts[b], cuts[b + 1]);
      SliceIsSorted(RankedEntries(es), blocks[b], cuts[b], cuts[b + 1]);
    }
    forall a, b, e: Entry | 0 <= a < |blocks| && 0 <= b < |blocks| && e in blocks[b]
      ensures Less(it.index[a].separator, e.key) <==> a < b
    {
      assert IsSlice(blocks[b], RankedEntries(es), cuts[b], cuts[b + 1]);
      var k := PlaceOf(blocks[b], es, cuts[b], cuts[b + 1], e);
      Divides(es, cuts, offsets, table.index, a, k);
    }
    forall a, b | 0 <= a < b < |blocks|
      ensures Less(it.index[a].separator, it.index[b].separator)
    {
      SeparatorsAscend(es, cuts, offsets, table.index, a, b);
    }
  }

  lemma OpensAll(it: TwoLevel.TwoLevelIterator, table: Table, es: seq<Stored>, cuts: seq<nat>, offsets: seq<nat>)
    requires Scans(it, table) && Cut(es, cuts, offsets) && cuts[|offsets|] == |es|
             && Filed(es, cuts, offsets, table.file)
    requires Indexed(es, cuts, offsets, table.index) && |table.index| == |offsets|
    ensures it.Readable() && it.Contents() == RankedEntries(es)
    ensures forall b :: 0 <= b < |it.index| ==> IsSlice(it.Blocks()[b], RankedEntries(es), cuts[b], cuts[b + 1])
  {
    var all := RankedEntries(es);
    forall b | 0 <= b < |it.index|
      ensures it.index[b].handle in it.open && IsSlice(it.open[it.index[b].handle], all, cuts[b], cuts[b + 1])
    {
      BlockIs(it, table, es, cuts, offsets, b);
    }
    var blocks := it.Blocks();
    BlocksJoin(blocks, all, cuts, |blocks|);
    assert blocks[..|blocks|] == blocks && all[..|all|] == all;
  }
}
