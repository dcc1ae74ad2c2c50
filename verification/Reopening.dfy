/** The store across crashes (DBImpl::Recover in db/db_impl.cc): what is left of the
    memtables' logs comes back as tables of level 0, the snapshots are gone, and the history
    is what survives of it.  A step that is safe as long as the memtables live need not be
    safe when they can be lost: a deletion that only they hide must not uncover a value. */
module Reopening {
  import opened Keys
  import opened Versions
  import opened Picking
  import opened Compactions
  import opened CompactionTheorems
  import opened Boundary
  import opened StoreRuns = Store

  /** Everything written that is in no memtable any more. */
  ghost function Flushed(s: Store): set<Entry> {
    EntriesOf(s.history) - Memory(s)
  }

  /** The tables alone mean what the flushed part of the history means. */
  ghost predicate Lasting(s: Store) {
    && Inv(s)
    && AllNewer(Memory(s), Flushed(s))
    && SameMeaning(VersionEntries(s.version), Flushed(s), Floor(s))
  }

  /** What a step must keep to, if the memtables may be lost: moves as before, and no
      deletion that a compaction drops uncovers a value in the tables. */
  ghost predicate SafeForGood(s: Store, step: Step) {
    && |s.version.files| == NumLevels
    && (step.TrivialMove? && ChosenInputs(s.version, step.moved) ==> ClearBoundary(s.version, step.moved))
    && (step.Compact? && ChosenInputs(s.version, step.inputs) ==>
          && NothingPasses(s.version, step.inputs, Floor(s))
          && NothingResurfaces(s.version, step.inputs, Floor(s), {}))
  }

  lemma CleanIsSafeForGood(s: Store, step: Step)
    requires WellFormed(s.version) && CutsCleanly(s, step)
    ensures SafeForGood(s, step)
  {
    if step.Compact? && ChosenInputs(s.version, step.inputs) {
      ClearPassesNothing(s.version, step.inputs, Floor(s));
      ClearUncoversNothing(s.version, step.inputs, Floor(s), {});
    }
  }

  lemma InitLasts(s: Store)
    requires Init(s)
    ensures Lasting(s)
  {
    InitKeepsInv(s);
  }

  lemma TablesAreFlushed(s: Store)
    requires Inv(s)
    ensures VersionEntries(s.version) <= Flushed(s) && EntriesOf(s.history) == Flushed(s) + Memory(s)
  {
    forall e | e in VersionEntries(s.version)
      ensures e in Flushed(s)
    {
      assert e in All(s);
      assert e !in Memory(s);
    }
  }

  lemma LaterFloor(a: set<Entry>, h: set<Entry>, floor: SequenceNumber, floor': SequenceNumber)
    requires SameMeaning(a, h, floor) && floor <= floor'
    ensures SameMeaning(a, h, floor')
  {
  }

  lemma WriteLasts(s: Store, batch: seq<Entry>, s': Store)
    requires Lasting(s) && Next(s, Write(batch), s')
    ensures Lasting(s')
  {
    WriteKeepsInv(s, batch, s');
    assert Memory(s') == Memory(s) + EntriesOf(batch);
    assert EntriesOf(s'.history) == EntriesOf(s.history) + EntriesOf(batch);
    assert forall e :: e in batch ==> e.key.sequence > s.lastSequence;
    assert Flushed(s') == Flushed(s);
    LaterFloor(VersionEntries(s.version), Flushed(s), Floor(s), Floor(s'));
  }

  /** A step that leaves memtables, tables and history as they are, and drops no snapshot
      that is needed. */
  lemma SameContentsLast(s: Store, s': Store)
    requires Lasting(s) && Inv(s') && Memory(s') == Memory(s) && s'.version == s.version && s'.history == s.history
    requires Floor(s) <= Floor(s')
    ensures Lasting(s')
  {
    LaterFloor(VersionEntries(s.version), Flushed(s), Floor(s), Floor(s'));
  }

  lemma FlushLasts(s: Store, level: nat, table: Option<FileMeta>, s': Store)
    requires Lasting(s) && Next(s, Flush(level, table), s')
    ensures Lasting(s')
  {
    FlushKeepsInv(s, level, table, s');
    TablesAreFlushed(s);
    if table.Some? {
      FlushAddsEntries(s.version, level, table.value, s'.version);
    }
    assert VersionEntries(s'.version) == VersionEntries(s.version) + Imm(s);
    forall e | e in Imm(s)
      ensures e !in EntriesOf(s.mem)
    {
    }
    assert Flushed(s') == Flushed(s) + Imm(s);
    DistinctInHistory(s, Imm(s));
    NewerOnTopKeepsMeaning(VersionEntries(s.version), Flushed(s), Imm(s), Floor(s), Floor(s'));
  }

  /** What the tables mean decides what the whole store means. */
  lemma TablesDecide(s: Store)
    requires Shape(s) && SnapshotsInOrder(s) && Ordered(s) && AllNewer(Memory(s), Flushed(s))
    requires SameMeaning(VersionEntries(s.version), Flushed(s), Floor(s))
    ensures Lasting(s)
  {
    DistinctInHistory(s, Memory(s));
    NewerOnTopKeepsMeaning(VersionEntries(s.version), Flushed(s), Memory(s), Floor(s), Floor(s));
    assert VersionEntries(s.version) + Memory(s) == All(s);
    assert Flushed(s) + Memory(s) == EntriesOf(s.history);
  }

  /** With a new version of fewer entries, the age order and the tables' meaning are what
      there is to keep. */
  lemma NewVersionLastsIff(s: Store, s': Store)
    requires Lasting(s) && s' == s.(version := s'.version) && WellFormed(s'.version)
    requires VersionEntries(s'.version) <= VersionEntries(s.version)
    ensures Lasting(s') <==>
              ByAge(s'.version) && SameMeaning(VersionEntries(s'.version), VersionEntries(s.version), Floor(s))
  {
    SameMeaningThrough(VersionEntries(s'.version), VersionEntries(s.version), Flushed(s), Floor(s));
    if ByAge(s'.version) && SameMeaning(VersionEntries(s'.version), Flushed(s), Floor(s)) {
      assert All(s') <= All(s);
      TablesDecide(s');
    }
  }

  lemma TrivialMoveLasts(s: Store, c: CompactionInputs, s': Store)
    requires Lasting(s) && Next(s, TrivialMove(c), s')
    ensures Lasting(s') <==> ClearBoundary(s.version, c)
  {
    var v, v' := s.version, s'.version;
    MovedFileIsDrawn(v, c);
    InstallKeepsShape(v, c, c.inputs0, v');
    MoveKeepsAgeIff(v, c, v');
    assert c.(inputs1 := []) == c;
    EntriesBefore(v, c, c.inputs0[0].entries);
    EntriesAfter(v, c, c.inputs0, v');
    SameAsItself(s);
    NewVersionLastsIff(s, s');
  }

  lemma SameAsItself(s: Store)
    requires Inv(s)
    ensures SameMeaning(VersionEntries(s.version), VersionEntries(s.version), Floor(s))
  {
    var es := VersionEntries(s.version);
    DistinctInHistory(s, es);
    forall user, snapshot, x, y | Finds(es, user, snapshot, x) && Finds(es, user, snapshot, y)
      ensures x == y
    {
      FindsIsFunctional(es, user, snapshot, x, y);
    }
  }

  lemma CompactLasts(s: Store, c: CompactionInputs, outputs: seq<FileMeta>, s': Store)
    requires Lasting(s) && Next(s, Compact(c, outputs), s')
    ensures Lasting(s') <==> SafeForGood(s, Compact(c, outputs))
  {
    var v, v' := s.version, s'.version;
    WrittenIsDrawn(v, c, Floor(s), outputs);
    InstallKeepsShape(v, c, outputs, v');
    CompactShrinks(s, c, outputs, s');
    DistinctInHistory(s, VersionEntries(v));
    CompactionKeepsAgeIff(v, c, Floor(s), outputs, v');
    TablesKeepMeaningIff(v, c, Floor(s), outputs, v');
    NewVersionLastsIff(s, s');
  }

  /** A compaction keeps what the tables alone tell if and only if nothing resurfaces in
      them. */
  lemma TablesKeepMeaningIff(v: Version, c: CompactionInputs, smallest: SequenceNumber, outputs: seq<FileMeta>,
                             v': Version)
    requires WellFormed(v) && ByAge(v) && ChosenInputs(v, c) && DistinctKeys(VersionEntries(v))
    requires Written(v, c, smallest, outputs) && Installed(v, c, outputs, v')
    ensures SameMeaning(VersionEntries(v'), VersionEntries(v), smallest) <==> NothingResurfaces(v, c, smallest, {})
  {
    var none: set<Entry> := {};
    assert none + VersionEntries(v) == VersionEntries(v) && none + VersionEntries(v') == VersionEntries(v');
    CompactionKeepsMeaningIff(v, c, smallest, outputs, v', none);
  }

  /** A step leaves a store that can lose its memtables if and only if it is safe for good. */
  lemma NextLasts(s: Store, step: Step, s': Store)
    requires Lasting(s) && Next(s, step, s')
    ensures Lasting(s') <==> SafeForGood(s, step)
  {
    match step
    case Write(batch) => WriteLasts(s, batch, s');
    case SwitchMemTable =>
      SwitchKeepsInv(s, s');
      SameContentsLast(s, s');
    case Flush(level, table) => FlushLasts(s, level, table, s');
    case TrivialMove(c) => TrivialMoveLasts(s, c, s');
    case Compact(c, outputs) => CompactLasts(s, c, outputs, s');
    case TakeSnapshot =>
      SnapshotKeepsInv(s, s');
      SameContentsLast(s, s');
    case ReleaseSnapshot(i) =>
      ReleaseKeepsInv(s, i, s');
      SameContentsLast(s, s');
  }

  // A crash

  /** The history without what is lost. */
  ghost function Without(history: seq<Entry>, lost: set<Entry>): seq<Entry> {
    if history == [] then []
    else
      var rest, last := Without(history[..|history| - 1], lost), history[|history| - 1];
      if last in lost then rest else rest + [last]
  }

  lemma {:induction false} WithoutIs(history: seq<Entry>, lost: set<Entry>)
    requires Increasing(history)
    ensures EntriesOf(Without(history, lost)) == EntriesOf(history) - lost
    ensures Increasing(Without(history, lost))
  {
    if history != [] {
      var init, last := history[..|history| - 1], history[|history| - 1];
      WithoutIs(init, lost);
      assert EntriesOf(history) == EntriesOf(init) + {last};
      assert forall e :: e in init ==> e.key.sequence < last.key.sequence;
      var rest := Without(init, lost);
      assert forall i :: 0 <= i < |rest| ==> rest[i] in EntriesOf(rest);
      assert EntriesOf(rest + [last]) == EntriesOf(rest) + {last};
    }
  }

  /** The tables written while the logs are replayed, oldest first. */
  ghost predicate NewTables(files: seq<FileMeta>, tables: seq<FileMeta>) {
    && ValidFiles(tables)
    && (forall g, t :: g in files && t in tables ==> g.number < t.number)
    && (forall i, j :: 0 <= i < j < |tables| ==> tables[i].number < tables[j].number)
    && (forall i, j :: 0 <= i < j < |tables| ==>
          AllNewer(EntriesOf(tables[j].entries), EntriesOf(tables[i].entries)))
  }

  /** The crash leaves `kept` of the memtables in their logs.  The last sequence number is at
      or above every entry there is: the manifest stored one at or above what was flushed, and
      recovery raises it to what it replays. */
  ghost predicate Reopen(s: Store, kept: set<Entry>, tables: seq<FileMeta>, s': Store) {
    && |s.version.files| == |s'.version.files| == NumLevels
    && kept <= Memory(s) && NewTables(s.version.files[0], tables) && FileEntries(tables) == kept
    && Saved(s'.version.files[0], (set f | f in s.version.files[0]) + (set t | t in tables))
    && (forall l :: 1 <= l < NumLevels ==> s'.version.files[l] == s.version.files[l])
    && s'.mem == [] && s'.imm.None? && s'.snapshots == []
    && s'.history == Without(s.history, Memory(s) - kept)
    && (forall e :: e in s'.history ==> e.key.sequence <= s'.lastSequence)
    && s'.lastSequence < MaxSequence
  }

  lemma TablesApart(tables: seq<FileMeta>, f: FileMeta, g: FileMeta)
    requires f in tables && g in tables && f != g
    requires forall i, j :: 0 <= i < j < |tables| ==> tables[i].number < tables[j].number
    ensures f.number != g.number
  {
    var i :| 0 <= i < |tables| && tables[i] == f;
    var j :| 0 <= j < |tables| && tables[j] == g;
    assert i != j;
  }

  lemma ReopenedNumbers(old_: seq<FileMeta>, tables: seq<FileMeta>, f: FileMeta, g: FileMeta)
    requires DistinctNumbers(old_) && NewTables(old_, tables)
    requires (f in old_ || f in tables) && (g in old_ || g in tables) && f != g
    ensures f.number != g.number
  {
    if f in old_ && g in old_ {
      var a :| 0 <= a < |old_| && old_[a] == f;
      var b :| 0 <= b < |old_| && old_[b] == g;
      assert a != b;
    } else if f in tables && g in tables {
      TablesApart(tables, f, g);
    }
  }

  lemma ReopenedLevel(old_: seq<FileMeta>, tables: seq<FileMeta>, files: seq<FileMeta>)
    requires ValidFiles(old_) && DistinctNumbers(old_) && NewTables(old_, tables)
    requires Saved(files, (set f | f in old_) + (set t | t in tables))
    ensures ValidFiles(files) && DistinctNumbers(files)
  {
    forall i | 0 <= i < |files|
      ensures files[i] in old_ || files[i] in tables
    {
      assert files[i] in files;
    }
    forall i, j | 0 <= i < j < |files|
      ensures files[i].number != files[j].number
    {
      ReopenedNumbers(old_, tables, files[i], files[j]);
    }
  }

  lemma ReopenKeepsShape(s: Store, kept: set<Entry>, tables: seq<FileMeta>, s': Store)
    requires WellFormed(s.version) && Reopen(s, kept, tables, s')
    ensures WellFormed(s'.version)
  {
    ReopenedLevel(s.version.files[0], tables, s'.version.files[0]);
  }

  lemma TablesByAge(tables: seq<FileMeta>, f: FileMeta, g: FileMeta)
    requires f in tables && g in tables && f.number > g.number
    requires forall i, j :: 0 <= i < j < |tables| ==> tables[i].number < tables[j].number
    requires forall i, j :: 0 <= i < j < |tables| ==>
               AllNewer(EntriesOf(tables[j].entries), EntriesOf(tables[i].entries))
    ensures Newer(f, g)
  {
    var i :| 0 <= i < |tables| && tables[i] == f;
    var j :| 0 <= j < |tables| && tables[j] == g;
    assert i > j;
    forall x, y | x in f.entries && y in g.entries && x.key.user == y.key.user
      ensures Tag(x.key) > Tag(y.key)
    {
      assert x in EntriesOf(f.entries) && y in EntriesOf(g.entries);
    }
  }

  /** A table of recovered entries is newer than every file there was. */
  lemma RecoveredIsNewer(s: Store, kept: set<Entry>, tables: seq<FileMeta>, l: nat, f: FileMeta, g: FileMeta)
    requires Inv(s) && kept <= Memory(s) && FileEntries(tables) == kept
    requires f in tables && l < NumLevels && g in s.version.files[l]
    ensures Newer(f, g)
  {
    forall x, y | x in f.entries && y in g.entries
      ensures Tag(x.key) > Tag(y.key)
    {
      assert x in FileEntries(tables) && y in VersionEntries(s.version);
    }
  }

  lemma ReopenKeepsAge(s: Store, kept: set<Entry>, tables: seq<FileMeta>, s': Store)
    requires Inv(s) && Reopen(s, kept, tables, s')
    ensures ByAge(s'.version)
  {
    var v, v' := s.version, s'.version;
    forall a, b, f, g | 0 <= a < b < NumLevels && f in v'.files[a] && g in v'.files[b]
      ensures Newer(f, g)
    {
      if a == 0 && f in tables {
        RecoveredIsNewer(s, kept, tables, b, f, g);
      } else {
        assert f in v.files[a] && g in v.files[b];
      }
    }
    forall f, g | f in v'.files[0] && g in v'.files[0] && f.number > g.number
      ensures Newer(f, g)
    {
      if f !in tables {
        assert g !in tables;
      } else if g in tables {
        TablesByAge(tables, f, g);
      } else {
        RecoveredIsNewer(s, kept, tables, 0, f, g);
      }
    }
  }

  lemma ReopenAddsEntries(s: Store, kept: set<Entry>, tables: seq<FileMeta>, s': Store)
    requires Reopen(s, kept, tables, s')
    ensures VersionEntries(s'.version) == VersionEntries(s.version) + kept
  {
    var v, v' := s.version, s'.version;
    forall e | e in VersionEntries(v) + kept
      ensures e in VersionEntries(v')
    {
      if e in kept {
        var t :| t in tables && e in t.entries;
        assert t in v'.files[0];
      } else {
        var l, f :| 0 <= l < NumLevels && f in v.files[l] && e in f.entries;
        assert f in v'.files[l];
      }
    }
    forall e | e in VersionEntries(v')
      ensures e in VersionEntries(v) + kept
    {
      var l, f :| 0 <= l < NumLevels && f in v'.files[l] && e in f.entries;
      assert f in v.files[l] || f in tables;
      if f in tables {
        assert e in FileEntries(tables);
      }
    }
  }

  /** From the last entry on, everything is visible, so one snapshot stands for all. */
  lemma AllVisible(a: set<Entry>, h: set<Entry>, floor: SequenceNumber, floor': SequenceNumber)
    requires SameMeaning(a, h, floor)
    requires forall e :: e in a || e in h ==> e.key.sequence <= floor'
    ensures SameMeaning(a, h, floor')
  {
    forall user, snapshot: SequenceNumber, x, y |
      floor' <= snapshot && Finds(a, user, snapshot, x) && Finds(h, user, snapshot, y)
      ensures Meaning(x) == Meaning(y)
    {
      var later := if snapshot < floor then floor else snapshot;
      assert Finds(a, user, later, x) && Finds(h, user, later, y);
    }
  }

  /** Whatever a crash leaves of the memtables, the store that is opened again answers the
      history that survives, and can crash again. */
  lemma ReopenLasts(s: Store, kept: set<Entry>, tables: seq<FileMeta>, s': Store)
    requires Lasting(s) && Reopen(s, kept, tables, s')
    ensures Lasting(s')
  {
    var flushed, last := Flushed(s), s'.lastSequence;
    ReopenKeepsShape(s, kept, tables, s');
    ReopenKeepsAge(s, kept, tables, s');
    ReopenAddsEntries(s, kept, tables, s');
    WithoutIs(s.history, Memory(s) - kept);
    TablesAreFlushed(s);
    assert EntriesOf(s'.history) == flushed + kept;
    assert Memory(s') == {} && Flushed(s') == flushed + kept && Floor(s') == last;
    AllVisible(VersionEntries(s.version), flushed, Floor(s), last);
    DistinctInHistory(s, kept);
    NewerOnTopKeepsMeaning(VersionEntries(s.version), flushed, kept, last, last);
    TablesDecide(s');
  }

  // Runs with crashes

  datatype Event = Did(step: Step) | Crashed(kept: set<Entry>, tables: seq<FileMeta>)

  ghost predicate Happens(s: Store, event: Event, s': Store) {
    match event
    case Did(step) => Next(s, step, s')
    case Crashed(kept, tables) => Reopen(s, kept, tables, s')
  }

  ghost predicate Events(states: seq<Store>, events: seq<Event>) {
    && |states| == |events| + 1
    && Init(states[0])
    && forall i :: 0 <= i < |events| ==> Happens(states[i], events[i], states[i + 1])
  }

  /** A run with any number of crashes in which every step is safe for good. */
  ghost predicate CrashRun(states: seq<Store>, events: seq<Event>) {
    && Events(states, events)
    && forall i :: 0 <= i < |events| && events[i].Did? ==> SafeForGood(states[i], events[i].step)
  }

  lemma {:induction false} CrashRunLasts(states: seq<Store>, events: seq<Event>, n: nat)
    requires CrashRun(states, events) && n < |states|
    ensures Lasting(states[n])
  {
    if n == 0 {
      InitLasts(states[0]);
    } else {
      CrashRunLasts(states, events, n - 1);
      match events[n - 1]
      case Did(step) => NextLasts(states[n - 1], step, states[n]);
      case Crashed(kept, tables) => ReopenLasts(states[n - 1], kept, tables, states[n]);
    }
  }

  /** Whatever the store went through, crashes included, every reader is told what the
      history that survived says. */
  lemma {:induction false} EveryCrashRunAnswersTheHistory(states: seq<Store>, events: seq<Event>, n: nat, user: UserKey,
                                       snapshot: SequenceNumber, found: Option<Entry>)
    requires CrashRun(states, events) && n < |states|
    requires snapshot == states[n].lastSequence || snapshot in states[n].snapshots
    ensures Inv(states[n])
    ensures Finds(All(states[n]), user, snapshot, found) || Looked(states[n], user, snapshot, found) ==>
              Meaning(found) == Meaning(Latest(states[n].history, user, snapshot))
  {
    CrashRunLasts(states, events, n);
    LatestFinds(states[n].history, user, snapshot);
    if Looked(states[n], user, snapshot, found) {
      LookedIsNewest(states[n], user, snapshot, found);
    }
  }

  /** Every compaction of the run starts with no live snapshot. */
  ghost predicate SnapshotFreeEvents(states: seq<Store>, events: seq<Event>) {
    && Events(states, events)
    && forall i :: 0 <= i < |events| && events[i].Did? && events[i].step.Compact? ==> states[i].snapshots == []
  }

  lemma SnapshotFreeEvent(s: Store, event: Event, s': Store)
    requires Lasting(s) && NoUserKeySplit(s.version) && Happens(s, event, s')
    requires event.Did? && event.step.Compact? ==> s.snapshots == []
    ensures event.Did? ==> SafeForGood(s, event.step)
    ensures Lasting(s') && NoUserKeySplit(s'.version)
  {
    match event
    case Did(step) =>
      WholeUserKeysCutCleanly(s, step);
      CleanIsSafeForGood(s, step);
      NextLasts(s, step, s');
      SnapshotFreeStep(s, step, s');
    case Crashed(kept, tables) =>
      ReopenLasts(s, kept, tables, s');
  }

  lemma {:induction false} SnapshotFreeLasts(states: seq<Store>, events: seq<Event>, n: nat)
    requires SnapshotFreeEvents(states, events) && n < |states|
    ensures Lasting(states[n]) && NoUserKeySplit(states[n].version)
  {
    if n == 0 {
      InitLasts(states[0]);
    } else {
      SnapshotFreeLasts(states, events, n - 1);
      SnapshotFreeEvent(states[n - 1], events[n - 1], states[n]);
    }
  }

  /** If every compaction starts with no live snapshot, crashes or not, every step is safe
      for good. */
  lemma SnapshotFreeCrashRuns(states: seq<Store>, events: seq<Event>)
    requires SnapshotFreeEvents(states, events)
    ensures CrashRun(states, events)
  {
    forall i | 0 <= i < |events| && events[i].Did?
      ensures SafeForGood(states[i], events[i].step)
    {
      SnapshotFreeLasts(states, events, i);
      SnapshotFreeEvent(states[i], events[i], states[i + 1]);
    }
  }
}
