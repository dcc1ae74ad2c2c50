/** Building a table and looking a key up in it (table/table_builder.cc, table/table.cc). */
module Tables {
  import opened Bytes
  import opened Keys
  import opened Bytewise
  import opened Coding
  import opened FilterBlocks
  import opened TwoLevel

  datatype Stored = Stored(key: StoredKey, value: Bytes)

  /** InternalKeyComparator::Compare(a, b) < 0. */
  predicate Before(a: StoredKey, b: StoredKey) {
    Less(Ranked(a), Ranked(b))
  }

  ghost predicate Ascending(es: seq<Stored>) {
    forall i, j {:trigger Before(es[i].key, es[j].key)} :: 0 <= i < j < |es| ==> Before(es[i].key, es[j].key)
  }

  /** A finished table: `file` holds the data blocks by offset. */
  datatype Table = Table(index: seq<IndexEntry<StoredKey>>, file: map<nat, seq<Stored>>, filter: Option<Bytes>)

  // What the builder keeps.  Block `b` holds the entries from cuts[b] up to cuts[b + 1]
  // and lies at offsets[b] of the file.

  ghost predicate Cut(es: seq<Stored>, cuts: seq<nat>, offsets: seq<nat>) {
    && |cuts| == |offsets| + 1 && cuts[0] == 0 && cuts[|offsets|] <= |es|
    && (forall i, j :: 0 <= i < j < |cuts| ==> cuts[i] < cuts[j])
    && (forall i, j :: 0 <= i < j < |offsets| ==> offsets[i] < offsets[j])
  }

  ghost predicate Blocked(es: seq<Stored>, cuts: seq<nat>, offsets: seq<nat>, end: nat) {
    Cut(es, cuts, offsets) && forall i :: 0 <= i < |offsets| ==> offsets[i] < end
  }

  ghost predicate OpensTo(es: seq<Stored>, file: map<nat, seq<Stored>>, at: nat, lo: nat, hi: nat) {
    lo <= hi <= |es| && at in file && file[at] == es[lo..hi]
  }

  ghost predicate Filed(es: seq<Stored>, cuts: seq<nat>, offsets: seq<nat>, file: map<nat, seq<Stored>>) {
    && |cuts| == |offsets| + 1
    && forall b {:trigger FiledAt(es, cuts, offsets, file, b)} ::
         0 <= b < |offsets| ==> FiledAt(es, cuts, offsets, file, b)
  }

  ghost predicate FiledAt(es: seq<Stored>, cuts: seq<nat>, offsets: seq<nat>, file: map<nat, seq<Stored>>, b: nat)
    requires b < |offsets| < |cuts|
  {
    OpensTo(es, file, offsets[b], cuts[b], cuts[b + 1])
  }

  /** A separator is at or after the last key of its block; it is before the next key, and
      not of the same user key unless it is the last key itself. */
  ghost predicate Separates(es: seq<Stored>, hi: nat, s: StoredKey) {
    && 0 < hi <= |es|
    && !Before(s, es[hi - 1].key)
    && (hi < |es| ==> Before(s, es[hi].key) && (s == es[hi - 1].key || Position(s.user) < Position(es[hi].key.user)))
  }

  ghost predicate PointsTo(es: seq<Stored>, hi: nat, at: nat, e: IndexEntry<StoredKey>) {
    e.handle == at && Separates(es, hi, e.separator)
  }

  ghost predicate Indexed(es: seq<Stored>, cuts: seq<nat>, offsets: seq<nat>, index: seq<IndexEntry<StoredKey>>) {
    && |index| <= |offsets| < |cuts|
    && forall b {:trigger IndexedAt(es, cuts, offsets, index, b)} ::
         0 <= b < |index| ==> IndexedAt(es, cuts, offsets, index, b)
  }

  ghost predicate IndexedAt(es: seq<Stored>, cuts: seq<nat>, offsets: seq<nat>, index: seq<IndexEntry<StoredKey>>,
                            b: nat)
    requires b < |index| <= |offsets| < |cuts|
  {
    PointsTo(es, cuts[b + 1], offsets[b], index[b])
  }

  /** The filter of stretch `at`, made or still pending, matches the entries from lo to hi. */
  ghost predicate Covered(policy: Policy, filters: seq<Bytes>, pending: seq<Bytes>, es: seq<Stored>, lo: nat, hi: nat,
                          at: nat)
  {
    && lo <= hi <= |es| && at <= |filters|
    && forall j :: lo <= j < hi ==>
         if at < |filters| then policy.mayMatch(es[j].key.user, filters[at]) else es[j].key.user in pending
  }

  ghost predicate AllCovered(policy: Policy, filters: seq<Bytes>, pending: seq<Bytes>, es: seq<Stored>, cuts: seq<nat>,
                             offsets: seq<nat>)
  {
    && |cuts| == |offsets| + 1
    && forall b {:trigger CoveredAt(policy, filters, pending, es, cuts, offsets, b)} ::
         0 <= b < |offsets| ==> CoveredAt(policy, filters, pending, es, cuts, offsets, b)
  }

  ghost predicate CoveredAt(policy: Policy, filters: seq<Bytes>, pending: seq<Bytes>, es: seq<Stored>, cuts: seq<nat>,
                            offsets: seq<nat>, b: nat)
    requires b < |offsets| < |cuts|
  {
    Covered(policy, filters, pending, es, cuts[b], cuts[b + 1], offsets[b] / Base)
  }

  // Appending an entry

  lemma AppendKeepsIndex(es: seq<Stored>, cuts: seq<nat>, offsets: seq<nat>, index: seq<IndexEntry<StoredKey>>,
                         e: Stored, end: nat)
    requires Blocked(es, cuts, offsets, end) && Indexed(es, cuts, offsets, index)
    requires index != [] ==> cuts[|index|] < |es|
    ensures Indexed(es + [e], cuts, offsets, index)
  {
    forall b | 0 <= b < |index|
      ensures IndexedAt(es + [e], cuts, offsets, index, b)
    {
      assert IndexedAt(es, cuts, offsets, index, b);
    }
  }

  /** A key after the last one of a block lets the block have its separator. */
  lemma AppendIndexes(es: seq<Stored>, cuts: seq<nat>, offsets: seq<nat>, index: seq<IndexEntry<StoredKey>>, e: Stored,
                      end: nat, s: StoredKey)
    requires Blocked(es, cuts, offsets, end) && Indexed(es, cuts, offsets, index)
    requires |index| + 1 == |offsets| && cuts[|offsets|] == |es|
    requires !Before(s, es[|es| - 1].key) && Before(s, e.key)
    requires s == es[|es| - 1].key || Position(s.user) < Position(e.key.user)
    ensures Indexed(es + [e], cuts, offsets, index + [IndexEntry(s, offsets[|index|])])
  {
    AppendKeepsIndex(es, cuts, offsets, index, e, end);
    var index' := index + [IndexEntry(s, offsets[|index|])];
    forall b | 0 <= b < |index'|
      ensures IndexedAt(es + [e], cuts, offsets, index', b)
    {
      if b < |index| {
        assert IndexedAt(es + [e], cuts, offsets, index, b);
      }
    }
  }

  lemma AppendAscends(es: seq<Stored>, e: Stored)
    requires Ascending(es) && (es != [] ==> Before(es[|es| - 1].key, e.key))
    ensures Ascending(es + [e])
  {
    forall i, j | 0 <= i < j < |es| + 1
      ensures Before((es + [e])[i].key, (es + [e])[j].key)
    {
      assert j == |es| && i < j - 1 ==> Before(es[i].key, es[j - 1].key);
    }
  }

  lemma AppendKeepsFile(es: seq<Stored>, cuts: seq<nat>, offsets: seq<nat>, file: map<nat, seq<Stored>>, e: Stored)
    requires Filed(es, cuts, offsets, file)
    ensures Filed(es + [e], cuts, offsets, file)
  {
    forall b | 0 <= b < |offsets|
      ensures FiledAt(es + [e], cuts, offsets, file, b)
    {
      assert FiledAt(es, cuts, offsets, file, b);
      assert (es + [e])[cuts[b]..cuts[b + 1]] == es[cuts[b]..cuts[b + 1]];
    }
  }

  lemma AppendKeepsCover(policy: Policy, filters: seq<Bytes>, pending: seq<Bytes>, es: seq<Stored>,
                         cuts: seq<nat>, offsets: seq<nat>, e: Stored)
    requires AllCovered(policy, filters, pending, es, cuts, offsets)
    ensures AllCovered(policy, filters, pending + [e.key.user], es + [e], cuts, offsets)
  {
    forall b | 0 <= b < |offsets|
      ensures CoveredAt(policy, filters, pending + [e.key.user], es + [e], cuts, offsets, b)
    {
      assert CoveredAt(policy, filters, pending, es, cuts, offsets, b);
    }
  }

  lemma AppendKeepsCovered(policy: Policy, filters: seq<Bytes>, pending: seq<Bytes>, es: seq<Stored>, lo: nat,
                           e: Stored)
    requires Covered(policy, filters, pending, es, lo, |es|, |filters|)
    ensures Covered(policy, filters, pending + [e.key.user], es + [e], lo, |es| + 1, |filters|)
  {
    var user := e.key.user;
    assert (pending + [user])[|pending|] == user;
  }

  /** The entries behind the last block that was written. */
  function OpenBlock(es: seq<Stored>, cuts: seq<nat>, offsets: seq<nat>): seq<Stored>
    requires |offsets| < |cuts| && cuts[|offsets|] <= |es|
  {
    es[cuts[|offsets|]..]
  }

  /** What the builder keeps of the entries: their order, blocks and filters. */
  ghost predicate Laid(policy: Policy, filters: seq<Bytes>, pending: seq<Bytes>, es: seq<Stored>, cuts: seq<nat>,
                       offsets: seq<nat>, file: map<nat, seq<Stored>>, end: nat)
  {
    && Ascending(es) && Blocked(es, cuts, offsets, end) && Filed(es, cuts, offsets, file)
    && AllCovered(policy, filters, pending, es, cuts, offsets)
    && Covered(policy, filters, pending, es, cuts[|offsets|], |es|, end / Base)
  }

  lemma AppendAll(policy: Policy, filters: seq<Bytes>, pending: seq<Bytes>, es: seq<Stored>, cuts: seq<nat>,
                  offsets: seq<nat>, file: map<nat, seq<Stored>>, end: nat, e: Stored,
                  pending': seq<Bytes>, es': seq<Stored>)
    requires Laid(policy, filters, pending, es, cuts, offsets, file, end) && |filters| == end / Base
    requires es != [] ==> Before(es[|es| - 1].key, e.key)
    requires pending' == pending + [e.key.user] && es' == es + [e]
    ensures Laid(policy, filters, pending', es', cuts, offsets, file, end)
    ensures OpenBlock(es, cuts, offsets) + [e] == OpenBlock(es', cuts, offsets)
  {
    AppendAscends(es, e);
    AppendKeepsFile(es, cuts, offsets, file, e);
    AppendKeepsCover(policy, filters, pending, es, cuts, offsets, e);
    AppendKeepsCovered(policy, filters, pending, es, cuts[|offsets|], e);
  }

  // Writing a block

  lemma WriteKeepsFile(es: seq<Stored>, cuts: seq<nat>, offsets: seq<nat>, file: map<nat, seq<Stored>>, end: nat)
    requires Blocked(es, cuts, offsets, end) && Filed(es, cuts, offsets, file)
    ensures Filed(es, cuts + [|es|], offsets + [end], file[end := es[cuts[|offsets|]..]])
  {
    var n, file' := |offsets|, file[end := es[cuts[|offsets|]..]];
    forall b | 0 <= b < n + 1
      ensures FiledAt(es, cuts + [|es|], offsets + [end], file', b)
    {
      if b < n {
        assert FiledAt(es, cuts, offsets, file, b);
      } else {
        assert es[cuts[n]..] == es[cuts[n]..|es|];
      }
    }
  }

  lemma WriteKeepsIndex(es: seq<Stored>, cuts: seq<nat>, offsets: seq<nat>, index: seq<IndexEntry<StoredKey>>, cut: nat,
                        end: nat)
    requires Indexed(es, cuts, offsets, index) && |cuts| == |offsets| + 1
    ensures Indexed(es, cuts + [cut], offsets + [end], index)
  {
    forall b | 0 <= b < |index|
      ensures IndexedAt(es, cuts + [cut], offsets + [end], index, b)
    {
      assert IndexedAt(es, cuts, offsets, index, b);
    }
  }

  lemma WriteKeepsCover(policy: Policy, filters: seq<Bytes>, pending: seq<Bytes>, es: seq<Stored>,
                        cuts: seq<nat>, offsets: seq<nat>, end: nat)
    requires AllCovered(policy, filters, pending, es, cuts, offsets)
    requires Covered(policy, filters, pending, es, cuts[|offsets|], |es|, end / Base)
    ensures AllCovered(policy, filters, pending, es, cuts + [|es|], offsets + [end])
  {
    forall b | 0 <= b < |offsets| + 1
      ensures CoveredAt(policy, filters, pending, es, cuts + [|es|], offsets + [end], b)
    {
      if b < |offsets| {
        assert CoveredAt(policy, filters, pending, es, cuts, offsets, b);
      }
    }
  }

  // Starting a filter

  /** More filters: the first new one is made of the pending keys. */
  ghost predicate MoreFilters(policy: Policy, filters: seq<Bytes>, pending: seq<Bytes>, filters': seq<Bytes>,
                              pending': seq<Bytes>)
  {
    && filters <= filters'
    && (|filters'| == |filters| ==> pending' == pending)
    && (|filters'| > |filters| ==> filters'[|filters|] == FilterOf(policy, pending))
  }

  lemma FiltersKeepCovered(policy: Policy, filters: seq<Bytes>, pending: seq<Bytes>, filters': seq<Bytes>,
                           pending': seq<Bytes>, es: seq<Stored>, lo: nat, hi: nat, at: nat)
    requires Admits(policy) && MoreFilters(policy, filters, pending, filters', pending')
    requires Covered(policy, filters, pending, es, lo, hi, at)
    ensures Covered(policy, filters', pending', es, lo, hi, at)
  {
    forall j | lo <= j < hi
      ensures if at < |filters'| then policy.mayMatch(es[j].key.user, filters'[at]) else es[j].key.user in pending'
    {
      if at == |filters| < |filters'| {
        var i :| 0 <= i < |pending| && pending[i] == es[j].key.user;
        assert policy.mayMatch(pending[i], policy.create(pending));
      }
    }
  }

  lemma FiltersKeepCover(policy: Policy, filters: seq<Bytes>, pending: seq<Bytes>, filters': seq<Bytes>,
                         pending': seq<Bytes>, es: seq<Stored>, cuts: seq<nat>, offsets: seq<nat>)
    requires Admits(policy) && MoreFilters(policy, filters, pending, filters', pending')
    requires AllCovered(policy, filters, pending, es, cuts, offsets)
    ensures AllCovered(policy, filters', pending', es, cuts, offsets)
  {
    forall b | 0 <= b < |offsets|
      ensures CoveredAt(policy, filters', pending', es, cuts, offsets, b)
    {
      assert CoveredAt(policy, filters, pending, es, cuts, offsets, b);
      FiltersKeepCovered(policy, filters, pending, filters', pending', es, cuts[b], cuts[b + 1], offsets[b] / Base);
    }
  }

  /** Once its filter is started, a written block leaves everything laid out. */
  lemma WrittenIsLaid(policy: Policy, filters: seq<Bytes>, pending: seq<Bytes>, filters': seq<Bytes>,
                      pending': seq<Bytes>,
                      es: seq<Stored>, cuts: seq<nat>, offsets: seq<nat>, file: map<nat, seq<Stored>>, end: nat)
    requires Admits(policy) && MoreFilters(policy, filters, pending, filters', pending') && |filters'| == end / Base
    requires Ascending(es) && Blocked(es, cuts, offsets, end) && Filed(es, cuts, offsets, file)
    requires AllCovered(policy, filters, pending, es, cuts, offsets) && cuts[|offsets|] == |es|
    ensures Laid(policy, filters', pending', es, cuts, offsets, file, end) && OpenBlock(es, cuts, offsets) == []
  {
    FiltersKeepCover(policy, filters, pending, filters', pending', es, cuts, offsets);
  }

  // The builder

  class TableBuilder {
    const filter: FilterBlockBuilder
    var offset: nat
    var dataBlock: seq<Stored>
    var index: seq<IndexEntry<StoredKey>>
    var pendingIndexEntry: bool
    var pendingHandle: nat
    var lastKey: StoredKey
    var numEntries: nat
    var closed: bool
    /** The data blocks written to the file, by their offset. */
    var file: map<nat, seq<Stored>>
    ghost var entries: seq<Stored>
    ghost var cuts: seq<nat>
    ghost var offsets: seq<nat>

    ghost predicate Valid()
      reads this, filter
    {
      && filter.Valid() && Admits(filter.policy) && |filter.filters| == offset / Base
      && Laid(filter.policy, filter.filters, filter.pending, entries, cuts, offsets, file, offset)
      && Indexed(entries, cuts, offsets, index)
      && dataBlock == OpenBlock(entries, cuts, offsets)
      && numEntries == |entries|
      && (numEntries > 0 ==> lastKey == entries[numEntries - 1].key)
      && (if pendingIndexEntry then |index| + 1 == |offsets| && pendingHandle == offsets[|index|] && dataBlock == []
          else |index| == |offsets| && (dataBlock == [] ==> offsets == []))
    }

    constructor (policy: Policy)
      requires Admits(policy)
      ensures Valid() && entries == [] && !closed && fresh(filter) && filter.policy == policy
    {
      filter := new FilterBlockBuilder(policy);
      offset, dataBlock, index, pendingIndexEntry, pendingHandle := 0, [], [], false, 0;
      lastKey, numEntries, closed, file := StoredKey([], 0, Deletion), 0, false, map[];
      entries, cuts, offsets := [], [0], [];
      new;
      filter.StartBlock(0);
    }

    method PutIndex(separator: StoredKey)
      modifies `lastKey, `index, `pendingIndexEntry
      ensures lastKey == separator && !pendingIndexEntry && index == old(index) + [IndexEntry(separator, pendingHandle)]
    {
      lastKey := separator;
      index := index + [IndexEntry(lastKey, pendingHandle)];
      pendingIndexEntry := false;
    }

    /** A block waits for the next key, or the end, to get its separator. */
    method IndexPending(e: Stored)
      requires Valid() && (numEntries > 0 ==> Before(lastKey, e.key))
      modifies `lastKey, `index, `pendingIndexEntry
      ensures !pendingIndexEntry
      ensures Indexed(entries + [e], cuts, offsets, index) && |index| == |offsets|
    {
      if pendingIndexEntry {
        var s := FindInternalSeparator(lastKey, e.key);
        AppendIndexes(entries, cuts, offsets, index, e, offset, s);
        PutIndex(s);
      } else {
        AppendKeepsIndex(entries, cuts, offsets, index, e, offset);
      }
    }

    method AddEntry(e: Stored)
      requires Valid() && (numEntries > 0 ==> Before(lastKey, e.key))
      modifies `lastKey, `index, `pendingIndexEntry, `numEntries, `dataBlock, `entries
      modifies filter`keys, filter`start, filter`pending
      ensures Valid() && entries == old(entries) + [e] && dataBlock == old(dataBlock) + [e]
    {
      ghost var es, filters, pending := entries, filter.filters, filter.pending;
      IndexPending(e);
      filter.AddKey(e.key.user);
      PutEntry(e);
      AppendAll(filter.policy, filters, pending, es, cuts, offsets, file, offset, e, filter.pending, entries);
    }

    method PutEntry(e: Stored)
      modifies `lastKey, `numEntries, `dataBlock, `entries
      ensures lastKey == e.key && numEntries == old(numEntries) + 1
      ensures dataBlock == old(dataBlock) + [e] && entries == old(entries) + [e]
    {
      lastKey, numEntries, dataBlock, entries := e.key, numEntries + 1, dataBlock + [e], entries + [e];
    }

    /** `full` says that the block has reached its size; `size` is the size it is written in. */
    method Add(key: StoredKey, value: Bytes, full: bool, size: nat)
      requires Valid() && !closed && (numEntries > 0 ==> Before(lastKey, key))
      modifies `lastKey, `index, `pendingIndexEntry, `numEntries, `dataBlock, `entries
      modifies `pendingHandle, `file, `offset, `cuts, `offsets, filter
      ensures Valid() && entries == old(entries) + [Stored(key, value)]
      ensures if full then IsWritten(old(offset), old(dataBlock) + [Stored(key, value)], size, old(offsets), old(file))
              else dataBlock == old(dataBlock) + [Stored(key, value)]
                   && (offset, offsets, file) == old((offset, offsets, file))
    {
      AddEntry(Stored(key, value));
      if full {
        Flush(size);
      }
    }

    /** WriteRawBlock adds a trailer of five bytes. */
    method WriteBlock(size: nat)
      requires Valid() && dataBlock != []
      modifies `pendingHandle, `file, `offset, `dataBlock, `cuts, `offsets
      ensures dataBlock == [] && pendingHandle == old(offset) && offset == old(offset) + size + 5
      ensures cuts == old(cuts) + [|entries|] && offsets == old(offsets) + [old(offset)]
      ensures file == old(file)[old(offset) := old(dataBlock)]
      ensures Blocked(entries, cuts, offsets, offset) && Filed(entries, cuts, offsets, file)
      ensures AllCovered(filter.policy, filter.filters, filter.pending, entries, cuts, offsets)
      ensures Indexed(entries, cuts, offsets, index)
    {
      WriteKeepsIndex(entries, cuts, offsets, index, |entries|, offset);
      WriteKeepsFile(entries, cuts, offsets, file, offset);
      WriteKeepsCover(filter.policy, filter.filters, filter.pending, entries, cuts, offsets, offset);
      pendingHandle := offset;
      file := file[offset := dataBlock];
      cuts, offsets := cuts + [|entries|], offsets + [offset];
      offset := offset + size + 5;
      dataBlock := [];
    }

    /** A block of the given size went into the file where it ended, and waits for its index
        entry. */
    ghost predicate IsWritten(at: nat, block: seq<Stored>, size: nat, before: seq<nat>, was: map<nat, seq<Stored>>)
      reads this
    {
      && dataBlock == [] && pendingIndexEntry && pendingHandle == at && offset == at + size + 5
      && offsets == before + [at] && file == was[at := block]
    }

    method Flush(size: nat)
      requires Valid()
      modifies `pendingHandle, `file, `offset, `dataBlock, `cuts, `offsets, `pendingIndexEntry, filter
      ensures Valid() && dataBlock == []
      ensures if old(dataBlock) == [] then (offset, offsets, file) == old((offset, offsets, file))
              else IsWritten(old(offset), old(dataBlock), size, old(offsets), old(file))
    {
      if dataBlock == [] {
        return;
      }
      WriteBlock(size);
      ghost var filters, pending := filter.filters, filter.pending;
      pendingIndexEntry := true;
      filter.StartBlock(offset);
      WrittenIsLaid(filter.policy, filters, pending, filter.filters, filter.pending, entries, cuts, offsets, file,
                    offset);
    }

    /** Finish; the filter block can be read if its filters take less than 2^32 bytes. */
    method Finish(size: nat) returns (table: Table)
      requires Valid() && !closed
      modifies `pendingHandle, `file, `offset, `dataBlock, `cuts, `offsets, `pendingIndexEntry
      modifies `closed, `lastKey, `index, filter
      ensures closed
      ensures |Concat(filter.filters)| < Two32 ==> Readable(filter.policy, table, entries, cuts, offsets)
    {
      Flush(size);
      table := Close();
    }

    /** Finish, once the last block is written. */
    method Close() returns (table: Table)
      requires Valid() && dataBlock == []
      modifies `closed, `lastKey, `index, `pendingIndexEntry, filter
      ensures closed
      ensures |Concat(filter.filters)| < Two32 ==> Readable(filter.policy, table, entries, cuts, offsets)
    {
      LastIsWritten();
      IndexLast();
      var block := SealFilter();
      table := Table(index, file, Some(block));
      closed := true;
    }

    /** With no open block the last block ends with the last entry. */
    lemma LastIsWritten()
      requires Valid() && dataBlock == []
      ensures cuts[|offsets|] == |entries| && (pendingIndexEntry ==> 0 < |entries|)
    {
      assert pendingIndexEntry ==> cuts[0] < cuts[|offsets|];
    }

    method SealFilter() returns (block: Bytes)
      requires filter.Valid() && Admits(filter.policy)
      requires AllCovered(filter.policy, filter.filters, filter.pending, entries, cuts, offsets)
      modifies filter
      ensures |Concat(filter.filters)| < Two32 ==> AllMatched(filter.policy, block, entries, cuts, offsets)
    {
      ghost var filters, pending := filter.filters, filter.pending;
      block := filter.Finish();
      FiltersKeepCover(filter.policy, filters, pending, filter.filters, [], entries, cuts, offsets);
      if |Concat(filter.filters)| < Two32 {
        CoverIsRead(filter.policy, filter.filters, entries, cuts, offsets);
      }
    }

    method IndexLast()
      requires Indexed(entries, cuts, offsets, index) && |cuts| == |offsets| + 1
      requires if pendingIndexEntry then |index| + 1 == |offsets| && pendingHandle == offsets[|index|]
               else |index| == |offsets|
      requires pendingIndexEntry ==> 0 < cuts[|offsets|] == |entries| && lastKey == entries[|entries| - 1].key
      modifies `lastKey, `index, `pendingIndexEntry
      ensures Indexed(entries, cuts, offsets, index) && |index| == |offsets|
    {
      if pendingIndexEntry {
        var s := FindInternalSuccessor(lastKey);
        IndexLastBlock(entries, cuts, offsets, index, s);
        PutIndex(s);
      }
    }
  }

  lemma IndexLastBlock(es: seq<Stored>, cuts: seq<nat>, offsets: seq<nat>, index: seq<IndexEntry<StoredKey>>,
                       s: StoredKey)
    requires Indexed(es, cuts, offsets, index) && |cuts| == |offsets| + 1
    requires |index| + 1 == |offsets| && 0 < cuts[|offsets|] == |es| && !Before(s, es[|es| - 1].key)
    ensures Indexed(es, cuts, offsets, index + [IndexEntry(s, offsets[|index|])])
  {
    var index' := index + [IndexEntry(s, offsets[|index|])];
    forall b | 0 <= b < |index'|
      ensures IndexedAt(es, cuts, offsets, index', b)
    {
      if b < |index| {
        assert IndexedAt(es, cuts, offsets, index, b);
      }
    }
  }

  // A finished table

  ghost predicate Matched(policy: Policy, filter: Bytes, es: seq<Stored>, lo: nat, hi: nat, at: nat) {
    lo <= hi <= |es| && forall j :: lo <= j < hi ==> KeyMayMatch(policy, Open(filter), at, es[j].key.user)
  }

  ghost predicate AllMatched(policy: Policy, filter: Bytes, es: seq<Stored>, cuts: seq<nat>, offsets: seq<nat>) {
    && |cuts| == |offsets| + 1
    && forall b {:trigger MatchedAt(policy, filter, es, cuts, offsets, b)} ::
         0 <= b < |offsets| ==> MatchedAt(policy, filter, es, cuts, offsets, b)
  }

  ghost predicate MatchedAt(policy: Policy, filter: Bytes, es: seq<Stored>, cuts: seq<nat>, offsets: seq<nat>, b: nat)
    requires b < |offsets| < |cuts|
  {
    Matched(policy, filter, es, cuts[b], cuts[b + 1], offsets[b])
  }

  /** The table holds `es`: every entry is in a block, and index and filter lead to it. */
  ghost predicate Readable(policy: Policy, table: Table, es: seq<Stored>, cuts: seq<nat>, offsets: seq<nat>) {
    && Ascending(es) && Cut(es, cuts, offsets)
    && cuts[|offsets|] == |es|
    && Filed(es, cuts, offsets, table.file)
    && Indexed(es, cuts, offsets, table.index) && |table.index| == |offsets|
    && (table.filter.Some? ==> AllMatched(policy, table.filter.value, es, cuts, offsets))
  }

  lemma {:induction false} CoverIsRead(policy: Policy, filters: seq<Bytes>, es: seq<Stored>, cuts: seq<nat>,
                                       offsets: seq<nat>)
    requires |Concat(filters)| < Two32 && AllCovered(policy, filters, [], es, cuts, offsets)
    ensures AllMatched(policy, FilterBlock(filters), es, cuts, offsets)
  {
    forall b | 0 <= b < |offsets|
      ensures MatchedAt(policy, FilterBlock(filters), es, cuts, offsets, b)
    {
      assert CoveredAt(policy, filters, [], es, cuts, offsets, b);
      forall j | cuts[b] <= j < cuts[b + 1]
        ensures KeyMayMatch(policy, Open(FilterBlock(filters)), offsets[b], es[j].key.user)
      {
        ReadsFilter(policy, filters, offsets[b], es[j].key.user);
      }
    }
  }

  // Looking up

  /** A block iterator's Seek: the first entry at or after `k`. */
  function SeekStored(es: seq<Stored>, k: StoredKey): (i: nat)
    ensures i <= |es|
    ensures forall j {:trigger es[j]} :: 0 <= j < i ==> Before(es[j].key, k)
    ensures i < |es| ==> !Before(es[i].key, k)
  {
    if es == [] || !Before(es[0].key, k) then 0 else 1 + SeekStored(es[1..], k)
  }

  /** The index as the engine's order sees it. */
  function RankedIndex(index: seq<IndexEntry<StoredKey>>): (r: seq<IndexEntry<IKey>>)
    ensures |r| == |index|
    ensures forall i :: 0 <= i < |index| ==> r[i] == IndexEntry(Ranked(index[i].separator), index[i].handle)
  {
    seq(|index|, i requires 0 <= i < |index| => IndexEntry(Ranked(index[i].separator), index[i].handle))
  }

  /** The index iterator's Seek: the first separator at or after `k`. */
  function SeekBlock(index: seq<IndexEntry<StoredKey>>, k: StoredKey): (i: nat)
    ensures i <= |index|
    ensures forall j {:trigger index[j]} :: 0 <= j < i ==> Before(index[j].separator, k)
    ensures i < |index| ==> !Before(index[i].separator, k)
  {
    SeekSeparator(RankedIndex(index), Ranked(k))
  }

  /** Everything up to an entry before `k` is before `k`. */
  lemma {:induction false} AllBefore(es: seq<Stored>, k: StoredKey, i: nat)
    requires Ascending(es) && i < |es| && Before(es[i].key, k)
    ensures SeekStored(es, k) > i
  {
    var s := SeekStored(es, k);
    assert s < i ==> Before(es[s].key, es[i].key);
  }

  lemma {:induction false} SeekIs(es: seq<Stored>, k: StoredKey, i: nat)
    requires Ascending(es) && i <= |es|
    requires i > 0 ==> Before(es[i - 1].key, k)
    requires i < |es| ==> !Before(es[i].key, k)
    ensures SeekStored(es, k) == i
  {
    if i > 0 {
      AllBefore(es, k, i - 1);
    }
  }

  /** Nothing before block `b` is at or after `k` when the separator before it is not. */
  lemma {:induction false} StartsAfter(es: seq<Stored>, cuts: seq<nat>, offsets: seq<nat>,
                                       index: seq<IndexEntry<StoredKey>>, k: StoredKey, b: nat)
    requires Ascending(es) && Cut(es, cuts, offsets) && Indexed(es, cuts, offsets, index)
    requires b <= |index| && (b > 0 ==> Before(index[b - 1].separator, k))
    ensures SeekStored(es, k) >= cuts[b]
  {
    if b > 0 {
      assert IndexedAt(es, cuts, offsets, index, b - 1);
      AllBefore(es, k, cuts[b] - 1);
    }
  }

  /** If `k` is in the gap after its block, the next entry is of another user key. */
  lemma {:induction false} GapHasNoKey(es: seq<Stored>, hi: nat, sep: StoredKey, k: StoredKey)
    requires Ascending(es) && Separates(es, hi, sep) && !Before(sep, k) && Before(es[hi - 1].key, k)
    ensures SeekStored(es, k) == hi && (hi < |es| ==> es[hi].key.user != k.user)
  {
    AllBefore(es, k, hi - 1);
    var s := SeekStored(es, k);
    if hi < |es| {
      assert !Before(es[hi].key, k);
    }
  }

  lemma {:induction false} SeekInBlock(es: seq<Stored>, lo: nat, hi: nat, k: StoredKey)
    requires Ascending(es) && lo < hi <= |es| && SeekStored(es, k) >= lo
    ensures var j := SeekStored(es[lo..hi], k);
            if j < hi - lo then SeekStored(es, k) == lo + j else Before(es[hi - 1].key, k)
  {
    var block := es[lo..hi];
    var j, s := SeekStored(block, k), SeekStored(es, k);
    assert j < hi - lo ==> block[j] == es[lo + j];
    assert j > 0 ==> block[j - 1] == es[lo + j - 1];
    if j < hi - lo {
      SeekIs(es, k, lo + j);
    }
  }

  /** The block the index leads to has the first entry at or after `k`, unless that entry
      is of another user key. */
  lemma {:induction false} OneBlock(es: seq<Stored>, cuts: seq<nat>, offsets: seq<nat>,
                                    index: seq<IndexEntry<StoredKey>>, k: StoredKey, b: nat)
    requires Ascending(es) && Cut(es, cuts, offsets) && Indexed(es, cuts, offsets, index)
    requires b == SeekBlock(index, k) < |index|
    ensures cuts[b] < cuts[b + 1] <= |es| && index[b].handle == offsets[b]
    ensures var s, j := SeekStored(es, k), SeekStored(es[cuts[b]..cuts[b + 1]], k);
            if j < cuts[b + 1] - cuts[b] then s == cuts[b] + j
            else s == cuts[b + 1] && (s < |es| ==> es[s].key.user != k.user)
  {
    var lo, hi := cuts[b], cuts[b + 1];
    StartsAfter(es, cuts, offsets, index, k, b);
    assert IndexedAt(es, cuts, offsets, index, b);
    SeekInBlock(es, lo, hi, k);
    if SeekStored(es[lo..hi], k) == hi - lo {
      GapHasNoKey(es, hi, index[b].separator, k);
    }
  }

  /** What the filter refuses is not in the table. */
  lemma {:induction false} RefusedIsAbsent(policy: Policy, table: Table, k: StoredKey, es: seq<Stored>, cuts: seq<nat>,
                                           offsets: seq<nat>, b: nat)
    requires Readable(policy, table, es, cuts, offsets) && b == SeekBlock(table.index, k) < |table.index|
    requires table.filter.Some? && !KeyMayMatch(policy, Open(table.filter.value), table.index[b].handle, k.user)
    ensures SeekStored(es, k) < |es| ==> es[SeekStored(es, k)].key.user != k.user
  {
    OneBlock(es, cuts, offsets, table.index, k, b);
    assert MatchedAt(policy, table.filter.value, es, cuts, offsets, b);
  }

  /** Whether the filter lets the lookup go on to a block. */
  predicate Admitted(policy: Policy, table: Table, at: nat, user: Bytes) {
    table.filter.None? || KeyMayMatch(policy, Open(table.filter.value), at, user)
  }

  /** InternalGet looks in one block at most, and in none that the filter refuses.  What it
      hands on is the first entry at or after the key, and if that is of the user key looked
      up, it is handed on. */
  method InternalGet(policy: Policy, table: Table, k: StoredKey, ghost es: seq<Stored>, ghost cuts: seq<nat>,
                     ghost offsets: seq<nat>)
    returns (r: Option<Stored>, read: seq<nat>)
    requires Readable(policy, table, es, cuts, offsets)
    ensures var b := SeekBlock(table.index, k);
            read == if b < |table.index| && Admitted(policy, table, table.index[b].handle, k.user)
                    then [table.index[b].handle] else []
    ensures r.Some? ==> var s := SeekStored(es, k); s < |es| && r.value == es[s]
    ensures var s := SeekStored(es, k); s < |es| && es[s].key.user == k.user ==> r == Some(es[s])
  {
    var b := SeekBlock(table.index, k);
    r, read := None, [];
    if b < |table.index| {
      var at := table.index[b].handle;
      if table.filter.Some? && !KeyMayMatch(policy, Open(table.filter.value), at, k.user) {
        RefusedIsAbsent(policy, table, k, es, cuts, offsets, b);
      } else {
        OneBlock(es, cuts, offsets, table.index, k, b);
        assert FiledAt(es, cuts, offsets, table.file, b);
        var block := table.file[at];
        read := [at];
        var j := SeekStored(block, k);
        if j < |block| {
          r := Some(block[j]);
        }
      }
    } else {
      StartsAfter(es, cuts, offsets, table.index, k, b);
    }
  }

  // The lookup of Version::Get

  function RankedEntry(s: Stored): Entry {
    Entry(Ranked(s.key), s.value)
  }

  function RankedEntries(es: seq<Stored>): (r: seq<Entry>)
    ensures |r| == |es| && forall i :: 0 <= i < |es| ==> r[i] == RankedEntry(es[i])
  {
    seq(|es|, i requires 0 <= i < |es| => RankedEntry(es[i]))
  }

  /** SaveValue keeps what InternalGet hands on only if it is of the user key. */
  function Saved(r: Option<Stored>, user: Bytes): Option<Entry> {
    if r.Some? && r.value.key.user == user then Some(RankedEntry(r.value)) else None
  }

  /** Through separators and filter, the table answers as its sorted entries do. */
  lemma {:induction false} TableAnswersAsEntries(es: seq<Stored>, user: Bytes, snapshot: SequenceNumber,
                                                 r: Option<Stored>)
    requires Ascending(es)
    requires var s := SeekStored(es, StoredKey(user, snapshot, Put));
             && (r.Some? ==> s < |es| && r.value == es[s])
             && (s < |es| && es[s].key.user == user ==> r == Some(es[s]))
    ensures Sorted(RankedEntries(es))
    ensures Saved(r, user) == PointLookup(RankedEntries(es), Position(user), snapshot)
  {
    var ranked, k := RankedEntries(es), StoredKey(user, snapshot, Put);
    forall i, j | 0 <= i < j < |ranked|
      ensures Less(ranked[i].key, ranked[j].key)
    {
      assert Before(es[i].key, es[j].key);
    }
    var s, t := SeekStored(es, k), SeekIndex(ranked, Ranked(k));
    assert t > 0 ==> Less(ranked[t - 1].key, Ranked(k));
    SeekIs(es, k, t);
    if s < |es| {
      PositionIsOrder(es[s].key.user, user);
    }
  }
}
