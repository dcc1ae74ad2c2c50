/** How a store reopens after a crash, told by its logs: the past of the writer queue, the
    bytes of the log files, and the state machine of the store joined together. */
module RecoveredStores {
  import opened Bytes
  import opened Keys
  import opened Versions
  import opened StoreRuns = Store
  import opened Reopening
  import Bytewise
  import LogFormat
  import W = WriteBatches
  import G = GroupCommit
  import C = CrashRecovery

  /** The entry that MemTableInserter adds for a numbered update. */
  function EntryOf(n: W.Numbered<W.Op>): Entry
    requires n.sequence <= MaxSequence
  {
    match n.op
    case Put(key, value) => Entry(IKey(Bytewise.Position(key), n.sequence, Kind.Put), value)
    case Delete(key) => Entry(IKey(Bytewise.Position(key), n.sequence, Deletion), [])
  }

  ghost predicate Small(ns: seq<W.Numbered<W.Op>>) {
    forall i :: 0 <= i < |ns| ==> ns[i].sequence <= MaxSequence
  }

  function EntriesAt(ns: seq<W.Numbered<W.Op>>): (r: seq<Entry>)
    requires Small(ns)
    ensures |r| == |ns| && forall i :: 0 <= i < |ns| ==> r[i] == EntryOf(ns[i])
  {
    seq(|ns|, i requires 0 <= i < |ns| => EntryOf(ns[i]))
  }

  /** The store holds what it held when it was opened, `base`, which is in tables, and since
      then what the writer queue inserted. */
  ghost predicate Tells(base: seq<Entry>, p: G.Past<W.Op>, s: Store) {
    G.Regular(p) && G.Last(p) < MaxSequence && IsHistory(base, p, s.history) && EntriesOf(base) !! Memory(s)
  }

  ghost predicate IsHistory(base: seq<Entry>, p: G.Past<W.Op>, history: seq<Entry>) {
    Small(G.MemoryOf(p)) && history == base + EntriesAt(G.MemoryOf(p))
  }

  /** What was written since opening and is in tables is among the entries: the log of a
      flushed memtable counts as whole. */
  ghost predicate HoldsFlushed(base: seq<Entry>, s: Store, entries: set<Entry>) {
    Flushed(s) <= EntriesOf(base) + entries
  }

  lemma {:induction false} Smallness(p: G.Past<W.Op>, ks: seq<nat>, least: nat)
    requires G.Regular(p) && G.OpenedAt(p) <= least && G.Last(p) < MaxSequence
    ensures Small(G.MemoryOf(p)) && Small(C.Surviving(p, ks, least).entries)
  {
    G.MemoryAscends(p);
    C.SurvivingWithin(p, ks, least);
  }

  lemma {:induction false} IncreasingIsUnique(a: seq<Entry>, b: seq<Entry>)
    requires Increasing(a) && Increasing(b) && EntriesOf(a) == EntriesOf(b)
    ensures a == b
    decreases |a|
  {
    EmptyOrNot(a);
    EmptyOrNot(b);
    if a != [] {
      LastIsGreatest(a, b);
      LastIsGreatest(b, a);
      InitEntries(a);
      InitEntries(b);
      IncreasingIsUnique(a[..|a| - 1], b[..|b| - 1]);
      OneLonger(a);
      OneLonger(b);
    }
  }

  lemma EmptyOrNot(a: seq<Entry>)
    ensures a == [] <==> EntriesOf(a) == {}
  {
    if a != [] {
      assert a[0] in EntriesOf(a);
    }
  }

  lemma OneLonger(a: seq<Entry>)
    requires a != []
    ensures a == a[..|a| - 1] + [a[|a| - 1]]
  {
  }

  lemma LastIsGreatest(a: seq<Entry>, b: seq<Entry>)
    requires Increasing(a) && EntriesOf(a) == EntriesOf(b) && a != [] && b != []
    ensures b[|b| - 1].key.sequence < a[|a| - 1].key.sequence || b[|b| - 1] == a[|a| - 1]
  {
    var y := b[|b| - 1];
    assert y in EntriesOf(b);
    var i :| 0 <= i < |a| && a[i] == y;
  }

  lemma InitEntries(a: seq<Entry>)
    requires Increasing(a) && a != []
    ensures EntriesOf(a[..|a| - 1]) == EntriesOf(a) - {a[|a| - 1]}
  {
    var n := |a| - 1;
    forall e | e in EntriesOf(a) - {a[n]}
      ensures e in a[..n]
    {
      var i :| 0 <= i < |a| && a[i] == e;
      assert a[..n][i] == e;
    }
    forall e | e in a[..n]
      ensures e != a[n]
    {
      var i :| 0 <= i < n && a[..n][i] == e;
      assert a[i].key.sequence < a[n].key.sequence;
    }
  }

  lemma AscendingIsIncreasing(ns: seq<W.Numbered<W.Op>>)
    requires G.Ascending(ns) && Small(ns)
    ensures Increasing(EntriesAt(ns))
  {
    forall i, j | 0 <= i < j < |ns|
      ensures ns[i].sequence < ns[j].sequence
    {
      assert G.Earlier(ns, i, j);
    }
  }

  lemma ContainedEntries(all: seq<W.Numbered<W.Op>>, some: seq<W.Numbered<W.Op>>)
    requires Small(all) && Small(some) && C.Contains(all, some)
    ensures EntriesOf(EntriesAt(some)) <= EntriesOf(EntriesAt(all))
  {
    forall e | e in EntriesAt(some)
      ensures e in EntriesAt(all)
    {
      var i :| 0 <= i < |some| && EntriesAt(some)[i] == e;
      assert some[i] in some;
      var j :| 0 <= j < |all| && all[j] == some[i];
      assert EntriesAt(all)[j] == e;
    }
  }

  lemma BasePlusIncreasing(base: seq<Entry>, all: seq<Entry>, some: seq<Entry>)
    requires Increasing(base + all) && Increasing(some) && EntriesOf(some) <= EntriesOf(all)
    ensures Increasing(base + some)
  {
    forall i, j | 0 <= i < j < |base + some|
      ensures (base + some)[i].key.sequence < (base + some)[j].key.sequence
    {
      if j >= |base| {
        var y := some[j - |base|];
        assert y in EntriesOf(all);
        var k :| 0 <= k < |all| && all[k] == y;
        if i < |base| {
          assert (base + all)[i] == base[i] && (base + all)[|base| + k] == y;
        } else {
          assert some[i - |base|].key.sequence < some[j - |base|].key.sequence;
        }
      } else {
        assert (base + all)[i] == base[i] && (base + all)[j] == base[j];
      }
    }
  }

  lemma EntriesOfConcat(a: seq<Entry>, b: seq<Entry>)
    ensures EntriesOf(a + b) == EntriesOf(a) + EntriesOf(b)
  {
  }

  /** The history that survives is what was there at opening and the entries that the logs
      give back. */
  lemma {:induction false} SurvivingHistory(base: seq<Entry>, s: Store, all: seq<Entry>, back: seq<Entry>,
                                            kept: set<Entry>)
    requires Inv(s) && s.history == base + all && EntriesOf(base) !! Memory(s)
    requires Increasing(back) && EntriesOf(back) <= EntriesOf(all)
    requires HoldsFlushed(base, s, EntriesOf(back)) && kept == Memory(s) * EntriesOf(back)
    ensures Without(s.history, Memory(s) - kept) == base + back
  {
    WithoutIs(s.history, Memory(s) - kept);
    BasePlusIncreasing(base, all, back);
    EntriesOfConcat(base, all);
    EntriesOfConcat(base, back);
    assert EntriesOf(s.history) - (Memory(s) - kept) == EntriesOf(base) + EntriesOf(back);
    IncreasingIsUnique(Without(s.history, Memory(s) - kept), base + back);
  }

  lemma EntriesTell(a: W.Numbered<W.Op>, b: W.Numbered<W.Op>, all: seq<W.Numbered<W.Op>>)
    requires Small(all) && G.Ascending(all) && a in all && b in all && EntryOf(a) == EntryOf(b)
    ensures a == b
  {
    var i :| 0 <= i < |all| && all[i] == a;
    var j :| 0 <= j < |all| && all[j] == b;
    assert i < j ==> G.Earlier(all, i, j);
    assert j < i ==> G.Earlier(all, j, i);
  }

  /** One list of entries is a front of another as their updates are. */
  lemma FrontOfEntries(some: seq<W.Numbered<W.Op>>, all: seq<W.Numbered<W.Op>>)
    requires Small(some) && Small(all) && G.Ascending(all) && C.Contains(all, some)
    ensures EntriesAt(some) <= EntriesAt(all) <==> some <= all
  {
    if EntriesAt(some) <= EntriesAt(all) {
      forall i | 0 <= i < |some|
        ensures some[i] == all[i]
      {
        assert EntriesAt(some)[i] == EntriesAt(all)[i];
        EntriesTell(some[i], all[i], all);
      }
    }
  }

  lemma WriteGrows(s: Store, batch: seq<Entry>, s': Store)
    requires Next(s, Write(batch), s')
    ensures s'.history == s.history + batch && Memory(s') == Memory(s) + EntriesOf(batch)
    ensures s'.lastSequence == s.lastSequence + |batch|
  {
  }

  lemma MoreEntries(a: seq<W.Numbered<W.Op>>, b: seq<W.Numbered<W.Op>>)
    requires Small(a) && Small(b)
    ensures Small(a + b) && EntriesAt(a + b) == EntriesAt(a) + EntriesAt(b)
  {
  }

  lemma WrittenIsNew(s: Store, base: seq<Entry>, batch: seq<Entry>)
    requires Inv(s) && (forall e :: e in base ==> e in s.history)
    requires forall e :: e in batch ==> e.key.sequence > s.lastSequence
    ensures EntriesOf(base) !! EntriesOf(batch)
  {
  }

  /** A write of the store is a group that commits. */
  lemma {:induction false} WriteTells(base: seq<Entry>, p: G.Past<W.Op>, g: G.Group<W.Op>,
                                      s: Store, batch: seq<Entry>, s': Store)
    requires Inv(s) && Tells(base, p, s) && G.Last(p) == s.lastSequence
    requires G.Regular(G.After(p, g)) && g.outcome.Committed?
    requires s.lastSequence + |g.updates| < MaxSequence && batch == EntriesAt(W.Number(G.Last(p) + 1, g.updates))
    requires Next(s, Write(batch), s')
    ensures Tells(base, G.After(p, g), s') && G.Last(G.After(p, g)) == s'.lastSequence
  {
    WriteGrows(s, batch, s');
    OneMoreWritten(base, p, g, s.history, batch);
    WrittenIsNew(s, base, batch);
    assert EntriesOf(base) !! Memory(s) + EntriesOf(batch);
  }

  lemma {:induction false} OneMoreWritten(base: seq<Entry>, p: G.Past<W.Op>, g: G.Group<W.Op>,
                                          history: seq<Entry>, batch: seq<Entry>)
    requires IsHistory(base, p, history) && g.outcome.Committed? && G.Last(p) + |g.updates| < MaxSequence
    requires batch == EntriesAt(W.Number(G.Last(p) + 1, g.updates))
    ensures IsHistory(base, G.After(p, g), history + batch)
  {
    MoreEntries(G.MemoryOf(p), W.Number(G.Last(p) + 1, g.updates));
    Regroup(base, EntriesAt(G.MemoryOf(p)), batch);
  }

  lemma Regroup(a: seq<Entry>, b: seq<Entry>, c: seq<Entry>)
    ensures a + b + c == a + (b + c)
  {
  }

  /** A crash leaves some first part of each log.  The store that is opened again holds what
      it held at the last opening and exactly the whole records of the logs; it answers that
      history.  That history is an earlier one, without a gap, if and only if no inserted
      update is overtaken. */
  lemma {:induction false} CrashReopens(sum: LogFormat.Checksum, base: seq<Entry>, p: G.Past<W.Op>, s: Store,
                                        files: seq<Bytes>, ks: seq<nat>, least: nat,
                                        kept: set<Entry>, tables: seq<FileMeta>, s': Store)
    requires Lasting(s) && Tells(base, p, s) && G.OpenedAt(p) <= least && !C.LostReturns(p, ks)
    requires C.AllFit(C.LogsOf(p)) && C.IsCut(sum, C.LogsOf(p), files)
    requires ks == C.KeptCounts(sum, C.LogsOf(p), files)
    requires Small(C.Surviving(p, ks, least).entries)
    requires HoldsFlushed(base, s, EntriesOf(EntriesAt(C.Surviving(p, ks, least).entries)))
    requires kept == Memory(s) * EntriesOf(EntriesAt(C.Surviving(p, ks, least).entries))
    requires Reopen(s, kept, tables, s')
    ensures Lasting(s') && C.RecoveredLogs(sum, files, least) == C.Surviving(p, ks, least)
    ensures s'.history == base + EntriesAt(C.RecoveredLogs(sum, files, least).entries)
    ensures s'.history <= s.history <==> !C.Overtaken(p, ks, false)
  {
    var ns := C.Surviving(p, ks, least).entries;
    var all, back := EntriesAt(G.MemoryOf(p)), EntriesAt(ns);
    ReopenLasts(s, kept, tables, s');
    C.CrashRecovers(sum, p, files, ks, least);
    C.SurvivorsWereThere(p, ks, least);
    C.SurvivorsAscend(p, ks, least);
    AscendingIsIncreasing(ns);
    ContainedEntries(G.MemoryOf(p), ns);
    SurvivingHistory(base, s, all, back, kept);
    G.MemoryAscends(p);
    FrontOfEntries(ns, G.MemoryOf(p));
    C.SurvivorsAreFrontIff(p, ks, least);
    BaseInFront(base, back, all);
  }

  lemma BaseInFront(base: seq<Entry>, back: seq<Entry>, all: seq<Entry>)
    ensures base + back <= base + all <==> back <= all
  {
    if base + back <= base + all {
      forall i | 0 <= i < |back|
        ensures back[i] == all[i]
      {
        assert (base + back)[|base| + i] == (base + all)[|base| + i];
      }
    }
  }
}
