/** Iterating over the whole store (DBImpl::NewIterator in db/db_impl.cc, Version::AddIterators
    in db/version_set.cc): the database iterator over the merge of all sources shows the map
    that the history of writes describes. */
module StoreScans {
  import opened Keys
  import opened Versions
  import opened CompactionTheorems
  import opened Merging
  import opened DbIteration
  import opened StoreRuns = Store

  /** The children of the merging iterator: the memtables, each file of level 0, and the
      other levels, each as one run.  An empty run is as good as none. */
  ghost function Source(s: Store, i: nat): seq<Entry>
    requires |s.version.files| == NumLevels && i < 1 + |s.version.files[0]| + NumLevels
  {
    var files := s.version.files[0];
    if i == 0 then s.mem
    else if i == 1 then (if s.imm.Some? then s.imm.value else [])
    else if i < 2 + |files| then files[i - 2].entries
    else Contents(s.version.files[i - 1 - |files|])
  }

  ghost function Sources(s: Store): (r: seq<seq<Entry>>)
    requires |s.version.files| == NumLevels
    ensures |r| == 1 + |s.version.files[0]| + NumLevels && forall i :: 0 <= i < |r| ==> r[i] == Source(s, i)
  {
    seq(1 + |s.version.files[0]| + NumLevels,
        i requires 0 <= i < 1 + |s.version.files[0]| + NumLevels => Source(s, i))
  }

  lemma {:induction false} LastOfContents(files: seq<FileMeta>, e: Entry)
    requires ValidFiles(files) && KeyDisjoint(files) && e in Contents(files)
    ensures files != [] && (e.key == files[|files| - 1].largest || Less(e.key, files[|files| - 1].largest))
  {
    var n := |files| - 1;
    if e in files[n].entries {
      SmallestToLargest(files[n], e);
    } else {
      LastOfContents(files[..n], e);
      SmallestToLargest(files[n], files[n].entries[0]);
    }
  }

  /** A sorted level, read file by file, is a sorted run. */
  lemma {:induction false} ContentsSorted(files: seq<FileMeta>)
    requires ValidFiles(files) && KeyDisjoint(files)
    ensures Sorted(Contents(files))
  {
    if files != [] {
      var n := |files| - 1;
      var before, last := Contents(files[..n]), files[n].entries;
      ContentsSorted(files[..n]);
      forall i, j | 0 <= i < |before| && 0 <= j < |last|
        ensures Less(before[i].key, last[j].key)
      {
        assert before[i] in before && last[j] in last;
        LastOfContents(files[..n], before[i]);
        SmallestToLargest(files[n], last[j]);
        assert Less(files[n - 1].largest, files[n].smallest);
      }
    }
  }

  lemma SourceSorted(s: Store, i: nat)
    requires Inv(s) && i < |Sources(s)|
    ensures Sorted(Source(s, i))
  {
    var files := s.version.files[0];
    if 2 <= i < 2 + |files| {
      assert ValidFile(files[i - 2]);
    } else if i >= 2 {
      ContentsSorted(s.version.files[i - 1 - |files|]);
    }
  }

  /** The level and the file in which a source past the memtables has an entry. */
  lemma SourceFile(s: Store, i: nat, e: Entry) returns (l: nat, f: FileMeta)
    requires |s.version.files| == NumLevels && 2 <= i < |Sources(s)| && e in Source(s, i)
    ensures l < NumLevels && f in s.version.files[l] && e in f.entries
    ensures if i < 2 + |s.version.files[0]| then l == 0 && f == s.version.files[0][i - 2]
            else l == i - 1 - |s.version.files[0]| && l > 0
  {
    var files := s.version.files[0];
    if i < 2 + |files| {
      l, f := 0, files[i - 2];
    } else {
      l := i - 1 - |files|;
      InContents(s.version.files[l]);
      f :| f in s.version.files[l] && e in f.entries;
    }
  }

  lemma SourcesApart(s: Store, i: nat, j: nat, x: Entry, y: Entry)
    requires Inv(s) && i < j < |Sources(s)| && x in Source(s, i) && y in Source(s, j)
    ensures x.key != y.key
  {
    if j >= 2 {
      var m, g := SourceFile(s, j, y);
      assert y in VersionEntries(s.version);
      if i < 2 {
        assert x in Memory(s);
      } else {
        var l, f := SourceFile(s, i, x);
        assert l == m == 0 ==> f.number != g.number;
        assert Newer(f, g) || Newer(g, f);
      }
    }
  }

  lemma EntryHasSource(s: Store, e: Entry) returns (i: nat)
    requires |s.version.files| == NumLevels && e in VersionEntries(s.version)
    ensures i < |Sources(s)| && e in Source(s, i)
  {
    var l, f :| 0 <= l < NumLevels && f in s.version.files[l] && e in f.entries;
    if l == 0 {
      var k :| 0 <= k < |s.version.files[0]| && s.version.files[0][k] == f;
      i := k + 2;
    } else {
      InContents(s.version.files[l]);
      i := l + 1 + |s.version.files[0]|;
    }
  }

  lemma SourcesCover(s: Store, e: Entry)
    requires |s.version.files| == NumLevels
    ensures e in All(s) <==> exists i :: 0 <= i < |Sources(s)| && e in Sources(s)[i]
  {
    if e in s.mem {
      assert e in Sources(s)[0];
    } else if e in Imm(s) {
      assert e in Sources(s)[1];
    } else if e in VersionEntries(s.version) {
      var i := EntryHasSource(s, e);
      assert e in Sources(s)[i];
    }
    if i :| 0 <= i < |Sources(s)| && e in Sources(s)[i] {
      if i >= 2 {
        var l, f := SourceFile(s, i, e);
      }
    }
  }

  /** The sources of a store can be merged. */
  lemma SourcesMerge(s: Store) returns (merged: seq<Entry>)
    requires Inv(s)
    ensures IsMerge(merged, Sources(s))
  {
    var runs := Sources(s);
    forall i | 0 <= i < |runs|
      ensures Sorted(runs[i])
    {
      SourceSorted(s, i);
    }
    forall i, j, a, b | 0 <= i < j < |runs| && 0 <= a < |runs[i]| && 0 <= b < |runs[j]|
      ensures runs[i][a].key != runs[j][b].key
    {
      SourcesApart(s, i, j, runs[i][a], runs[j][b]);
    }
    merged := MergeExists(runs);
  }

  /** Their merge holds all entries of the store. */
  lemma MergeHoldsAll(s: Store, merged: seq<Entry>)
    requires |s.version.files| == NumLevels && IsMerge(merged, Sources(s))
    ensures EntriesOf(merged) == All(s)
  {
    forall e
      ensures e in merged <==> e in All(s)
    {
      SourcesCover(s, e);
    }
  }

  /** The view at `snapshot` is the map that the history describes. */
  ghost predicate ShowsHistory(es: seq<Entry>, snapshot: SequenceNumber, history: seq<Entry>) {
    forall user, value :: InView(es, snapshot, user, value) <==> Meaning(Latest(history, user, snapshot)) == Some(value)
  }

  ghost predicate InView(es: seq<Entry>, snapshot: SequenceNumber, user: UserKey, value: Value) {
    exists e :: e in View(es, snapshot, |es|) && e.key.user == user && e.value == value
  }

  lemma MergeShowsHistory(s: Store, snapshot: SequenceNumber, merged: seq<Entry>)
    requires Inv(s) && Floor(s) <= snapshot && IsMerge(merged, Sources(s))
    ensures ShowsHistory(merged, snapshot, s.history)
  {
    MergeHoldsAll(s, merged);
    forall user, value
      ensures InView(merged, snapshot, user, value) <==> Meaning(Latest(s.history, user, snapshot)) == Some(value)
    {
      ViewAgreesWithLookup(merged, snapshot, user, value);
      PointLookupFinds(merged, user, snapshot);
      LatestFinds(s.history, user, snapshot);
    }
  }

  // Writes that come later

  /** The entries that are shown are the newest visible ones that are values. */
  lemma {:induction false} ViewHas(es: seq<Entry>, snapshot: SequenceNumber, e: Entry)
    requires Sorted(es)
    ensures e in View(es, snapshot, |es|) <==> e.key.kind.Put? && IsNewest(EntriesOf(es), e.key.user, snapshot, e)
  {
    ViewIsTheMap(es, snapshot, |es|);
    if e in View(es, snapshot, |es|) {
      var i :| 0 <= i < |es| && es[i] == e && Shown(es, snapshot, i);
      forall x | x in es && Visible(x, e.key.user, snapshot)
        ensures Tag(x.key) <= Tag(e.key)
      {
        var j :| 0 <= j < |es| && es[j] == x;
        assert j >= i;
      }
    }
    if e.key.kind.Put? && IsNewest(EntriesOf(es), e.key.user, snapshot, e) {
      var i :| 0 <= i < |es| && es[i] == e;
      forall j | 0 <= j < i && es[j].key.user == e.key.user
        ensures es[j].key.sequence > snapshot
      {
        assert es[j] in EntriesOf(es) && Less(es[j].key, es[i].key);
      }
      assert Shown(es, snapshot, i);
    }
  }

  ghost predicate ByUser(view: seq<Entry>) {
    forall a, b :: 0 <= a < b < |view| ==> view[a].key.user < view[b].key.user
  }

  /** An ordered view is determined by its members. */
  lemma {:induction false} ByUserIsUnique(a: seq<Entry>, b: seq<Entry>)
    requires ByUser(a) && ByUser(b) && (forall e :: e in a <==> e in b)
    ensures a == b
    decreases |a|
  {
    SomeMember(a, b);
    if a != [] {
      assert a[0] in b && b[0] in a;
      FirstIsLeast(a, b[0]);
      FirstIsLeast(b, a[0]);
      forall e
        ensures e in a[1..] <==> e in b[1..]
      {
        InRest(a, e);
        InRest(b, e);
      }
      ByUserIsUnique(a[1..], b[1..]);
      assert a == [a[0]] + a[1..] && b == [b[0]] + b[1..];
    }
  }

  lemma SomeMember(a: seq<Entry>, b: seq<Entry>)
    requires forall e :: e in a <==> e in b
    ensures a == [] <==> b == []
  {
    if a != [] {
      assert a[0] in b;
    }
    if b != [] {
      assert b[0] in a;
    }
  }

  lemma FirstIsLeast(a: seq<Entry>, e: Entry)
    requires ByUser(a) && e in a
    ensures a[0] == e || a[0].key.user < e.key.user
  {
  }

  lemma InRest(a: seq<Entry>, e: Entry)
    requires ByUser(a) && a != []
    ensures e in a[1..] <==> e in a && e != a[0]
  {
    if e in a && e != a[0] {
      var i :| 0 <= i < |a| && a[i] == e;
      assert a[1..][i - 1] == e;
    }
  }

  /** Writes after an iterator's snapshot do not show: over the grown sources it goes over
      the same view, so a position in it means the same before and after. */
  lemma {:induction false} LaterWritesDoNotShow(es: seq<Entry>, more: seq<Entry>, snapshot: SequenceNumber)
    requires Sorted(es) && Sorted(more) && EntriesOf(es) <= EntriesOf(more)
    requires forall e :: e in more && e !in es ==> e.key.sequence > snapshot
    ensures View(more, snapshot, |more|) == View(es, snapshot, |es|)
  {
    ViewIsTheMap(es, snapshot, |es|);
    ViewIsTheMap(more, snapshot, |more|);
    forall e
      ensures e in View(more, snapshot, |more|) <==> e in View(es, snapshot, |es|)
    {
      ViewHas(es, snapshot, e);
      ViewHas(more, snapshot, e);
    }
    ByUserIsUnique(View(more, snapshot, |more|), View(es, snapshot, |es|));
  }

  /** While a store is written to, its iterators keep their view. */
  lemma {:induction false} WriteKeepsView(s: Store, batch: seq<Entry>, s': Store, snapshot: SequenceNumber,
                       merged: seq<Entry>, merged': seq<Entry>)
    requires Inv(s) && Next(s, Write(batch), s') && snapshot <= s.lastSequence
    requires |s'.version.files| == NumLevels && IsMerge(merged, Sources(s)) && IsMerge(merged', Sources(s'))
    ensures View(merged', snapshot, |merged'|) == View(merged, snapshot, |merged|)
  {
    MergeHoldsAll(s, merged);
    MergeHoldsAll(s', merged');
    assert All(s') == All(s) + EntriesOf(batch);
    forall e | e in merged' && e !in merged
      ensures e.key.sequence > snapshot
    {
      assert e in EntriesOf(merged') && e !in EntriesOf(merged);
      assert e in batch;
    }
    LaterWritesDoNotShow(merged, merged', snapshot);
  }

  /** DBImpl::NewIterator: what it goes over is the map of the history at its snapshot. */
  method NewIterator(s: Store, snapshot: SequenceNumber, cursors: seq<Cursor>, ghost merged: seq<Entry>)
    returns (it: DBIter)
    requires Inv(s) && Floor(s) <= snapshot
    requires (forall i, j :: 0 <= i < j < |cursors| ==> cursors[i] != cursors[j]) && Runs(cursors) == Sources(s)
    requires IsMerge(merged, Sources(s))
    ensures fresh(it) && it.Valid() && it.sequence == snapshot && ShowsHistory(it.Entries(), snapshot, s.history)
  {
    MergeShowsHistory(s, snapshot, merged);
    var children := new MergingIterator(cursors, merged);
    it := new DBIter(children, snapshot);
  }

  /** In every state of every safe run, an iterator over all sources at a live snapshot, or at
      the present, shows exactly the map of the last writes. */
  lemma EveryRunScansTheHistory(states: seq<Store>, steps: seq<Step>, n: nat, snapshot: SequenceNumber,
                                merged: seq<Entry>)
    requires Run(states, steps) && n < |states| && |states[n].version.files| == NumLevels
    requires snapshot == states[n].lastSequence || snapshot in states[n].snapshots
    requires IsMerge(merged, Sources(states[n]))
    ensures ShowsHistory(merged, snapshot, states[n].history)
  {
    RunKeepsInv(states, steps, n);
    MergeShowsHistory(states[n], snapshot, merged);
  }
}
