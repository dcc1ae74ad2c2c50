/** The store as a state machine: writes, memtable switches, flushes, trivial moves and
    compactions over a growing history (db/db_impl.cc, db/version_set.cc, db/snapshot.h). */
module Store {
  import opened Keys
  import opened Versions
  import opened Picking
  import opened Compactions
  import opened CompactionTheorems
  import opened Boundary

  /** `history` records every write ever made, in order.  No operation reads it; it says
      what the store should answer. */
  datatype Store = Store(
    history: seq<Entry>,
    mem: seq<Entry>,
    imm: Option<seq<Entry>>,
    version: Version,
    lastSequence: SequenceNumber,
    snapshots: seq<SequenceNumber>)

  /** The reference answer: the last write to `user` in the history, at or below `snapshot`. */
  function Latest(history: seq<Entry>, user: UserKey, snapshot: SequenceNumber): Option<Entry> {
    if history == [] then None
    else
      var last := history[|history| - 1];
      if Visible(last, user, snapshot) then Some(last) else Latest(history[..|history| - 1], user, snapshot)
  }

  ghost predicate Increasing(history: seq<Entry>) {
    forall i, j :: 0 <= i < j < |history| ==> history[i].key.sequence < history[j].key.sequence
  }

  lemma {:induction false} LatestFinds(history: seq<Entry>, user: UserKey, snapshot: SequenceNumber)
    requires Increasing(history)
    ensures Finds(EntriesOf(history), user, snapshot, Latest(history, user, snapshot))
  {
    if history != [] {
      var init, last := history[..|history| - 1], history[|history| - 1];
      LatestFinds(init, user, snapshot);
      assert EntriesOf(history) == EntriesOf(init) + {last};
      assert forall x :: x in init ==> x.key.sequence < last.key.sequence;
    }
  }

  ghost function Imm(s: Store): set<Entry> {
    if s.imm.Some? then EntriesOf(s.imm.value) else {}
  }

  ghost function Memory(s: Store): set<Entry> {
    EntriesOf(s.mem) + Imm(s)
  }

  ghost function All(s: Store): set<Entry>
    requires |s.version.files| == NumLevels
  {
    Memory(s) + VersionEntries(s.version)
  }

  /** The smallest snapshot a reader may still use: SnapshotList::oldest, or the present. */
  function Floor(s: Store): SequenceNumber {
    if s.snapshots == [] then s.lastSequence else s.snapshots[0]
  }

  ghost predicate AllNewer(newer: set<Entry>, older: set<Entry>) {
    forall x, y :: x in newer && y in older ==> x.key.sequence > y.key.sequence
  }

  ghost predicate Shape(s: Store) {
    && Increasing(s.history)
    && (forall e :: e in s.history ==> e.key.sequence <= s.lastSequence)
    && s.lastSequence < MaxSequence
    && Sorted(s.mem)
    && (s.imm.Some? ==> Sorted(s.imm.value))
    && WellFormed(s.version)
  }

  /** Levels 1 and up are disjoint in user keys. */
  ghost predicate NoUserKeySplit(v: Version)
    requires |v.files| == NumLevels
  {
    forall l :: 1 <= l < NumLevels ==> UserDisjoint(v.files[l])
  }

  ghost predicate SnapshotsInOrder(s: Store) {
    && (forall i, j :: 0 <= i < j < |s.snapshots| ==> s.snapshots[i] <= s.snapshots[j])
    && (forall i :: 0 <= i < |s.snapshots| ==> s.snapshots[i] <= s.lastSequence)
  }

  /** Memory above tables, newer levels above older ones, and nothing invented. */
  ghost predicate Ordered(s: Store)
    requires |s.version.files| == NumLevels
  {
    && AllNewer(EntriesOf(s.mem), Imm(s))
    && AllNewer(Memory(s), VersionEntries(s.version))
    && ByAge(s.version)
    && All(s) <= EntriesOf(s.history)
  }

  ghost predicate Inv(s: Store) {
    && Shape(s)
    && SnapshotsInOrder(s)
    && Ordered(s)
    && SameMeaning(All(s), EntriesOf(s.history), Floor(s))
  }

  ghost predicate Init(s: Store) {
    && s.history == [] && s.mem == [] && s.imm == None && s.snapshots == [] && s.lastSequence == 0
    && |s.version.files| == NumLevels && forall l :: 0 <= l < NumLevels ==> s.version.files[l] == []
  }

  /** The entries MemTableInserter adds for a batch that starts at sequence `first`. */
  ghost predicate Numbered(batch: seq<Entry>, first: nat) {
    forall i :: 0 <= i < |batch| ==> batch[i].key.sequence == first + i
  }

  datatype Step =
    | Write(batch: seq<Entry>)
    | SwitchMemTable
    | Flush(level: nat, table: Option<FileMeta>)
    | TrivialMove(moved: CompactionInputs)
    | Compact(inputs: CompactionInputs, outputs: seq<FileMeta>)
    | TakeSnapshot
    | ReleaseSnapshot(index: nat)

  /** WriteLevel0Table and the edit that installs it, at the level PickLevelForMemTableOutput allows. */
  ghost predicate FlushTo(v: Version, level: nat, f: FileMeta, v': Version)
    requires |v.files| == NumLevels
  {
    && level <= MaxMemCompactLevel
    && (level > 0 ==> forall l :: 0 <= l <= level ==> !LevelOverlaps(v, l, f.smallest.user, f.largest.user))
    && (forall g :: g in v.files[0] ==> g.number < f.number)
    && |v'.files| == NumLevels
    && (forall l :: 0 <= l < NumLevels && l != level ==> v'.files[l] == v.files[l])
    && Saved(v'.files[level], (set g | g in v.files[level]) + {f})
  }

  ghost predicate Next(s: Store, step: Step, s': Store) {
    && |s.version.files| == NumLevels
    && match step
       case Write(batch) =>
         && s.lastSequence + |batch| < MaxSequence
         && Numbered(batch, s.lastSequence + 1)
         && Sorted(s'.mem) && EntriesOf(s'.mem) == EntriesOf(s.mem) + EntriesOf(batch)
         && s' == s.(history := s.history + batch, mem := s'.mem, lastSequence := s.lastSequence + |batch|)
       case SwitchMemTable =>
         s.imm.None? && s' == s.(mem := [], imm := Some(s.mem))
       case Flush(level, table) =>
         && s.imm.Some?
         && (table.None? <==> s.imm.value == [])
         && s' == s.(imm := None, version := s'.version)
         && (table.None? ==> s'.version == s.version)
         && (table.Some? ==> ValidFile(table.value) && table.value.entries == s.imm.value
                             && FlushTo(s.version, level, table.value, s'.version))
       case TrivialMove(c) =>
         && ChosenInputs(s.version, c) && |c.inputs0| == 1 && c.inputs1 == []
         && Installed(s.version, c, c.inputs0, s'.version)
         && s' == s.(version := s'.version)
       case Compact(c, outputs) =>
         && ChosenInputs(s.version, c)
         && Written(s.version, c, Floor(s), outputs)
         && Installed(s.version, c, outputs, s'.version)
         && s' == s.(version := s'.version)
       case TakeSnapshot =>
         s' == s.(snapshots := s.snapshots + [s.lastSequence])
       case ReleaseSnapshot(i) =>
         i < |s.snapshots| && s' == s.(snapshots := s.snapshots[..i] + s.snapshots[i + 1..])
  }

  /** What the code relies on when it moves files down, and does not check: a moved file
      leaves nothing behind of its last user key, and a compaction neither lets anything pass
      below a file that is left behind nor drops a deletion that uncovers a value there. */
  ghost predicate Safe(s: Store, step: Step) {
    && |s.version.files| == NumLevels
    && (step.TrivialMove? && ChosenInputs(s.version, step.moved) ==> ClearBoundary(s.version, step.moved))
    && (step.Compact? && ChosenInputs(s.version, step.inputs) ==>
          && NothingPasses(s.version, step.inputs, Floor(s))
          && NothingResurfaces(s.version, step.inputs, Floor(s), Memory(s)))
  }

  /** No file is left behind at all, which is safe. */
  ghost predicate CutsCleanly(s: Store, step: Step) {
    && |s.version.files| == NumLevels
    && (step.TrivialMove? && ChosenInputs(s.version, step.moved) ==> ClearBoundary(s.version, step.moved))
    && (step.Compact? && ChosenInputs(s.version, step.inputs) ==> ClearBoundary(s.version, step.inputs))
  }

  lemma CleanIsSafe(s: Store, step: Step)
    requires WellFormed(s.version) && CutsCleanly(s, step)
    ensures Safe(s, step)
  {
    if step.Compact? && ChosenInputs(s.version, step.inputs) {
      ClearPassesNothing(s.version, step.inputs, Floor(s));
      ClearUncoversNothing(s.version, step.inputs, Floor(s), Memory(s));
    }
  }

  lemma InitKeepsInv(s: Store)
    requires Init(s)
    ensures Inv(s)
  {
  }

  lemma DistinctInHistory(s: Store, es: set<Entry>)
    requires Increasing(s.history) && es <= EntriesOf(s.history)
    ensures DistinctKeys(es)
  {
    forall x, y | x in es && y in es && x.key == y.key
      ensures x == y
    {
      var i :| 0 <= i < |s.history| && s.history[i] == x;
      var j :| 0 <= j < |s.history| && s.history[j] == y;
      assert i == j;
    }
  }

  /** Adding the same newer entries on both sides keeps the meanings equal. */
  lemma NewerOnTopKeepsMeaning(a: set<Entry>, h: set<Entry>, top: set<Entry>, floor: SequenceNumber,
                               floor': SequenceNumber)
    requires SameMeaning(a, h, floor) && floor <= floor'
    requires AllNewer(top, a) && AllNewer(top, h) && DistinctKeys(top)
    ensures SameMeaning(a + top, h + top, floor')
  {
    forall user, snapshot, x, y | floor' <= snapshot && Finds(a + top, user, snapshot, x)
                                  && Finds(h + top, user, snapshot, y)
      ensures Meaning(x) == Meaning(y)
    {
      var t := FindsExists(top, user, snapshot);
      if t.Some? {
        assert x.Some? && x.value in top && IsNewest(top, user, snapshot, x.value);
        assert y.Some? && y.value in top && IsNewest(top, user, snapshot, y.value);
        FindsIsFunctional(top, user, snapshot, x, y);
      } else {
        assert Finds(a, user, snapshot, x) && Finds(h, user, snapshot, y);
      }
    }
  }

  lemma WriteKeepsInv(s: Store, batch: seq<Entry>, s': Store)
    requires Inv(s) && Next(s, Write(batch), s')
    ensures Inv(s')
  {
    var top := EntriesOf(batch);
    assert All(s') == All(s) + top;
    assert EntriesOf(s'.history) == EntriesOf(s.history) + top;
    DistinctInHistory(s', top);
    NewerOnTopKeepsMeaning(All(s), EntriesOf(s.history), top, Floor(s), Floor(s'));
  }

  lemma SwitchKeepsInv(s: Store, s': Store)
    requires Inv(s) && Next(s, SwitchMemTable, s')
    ensures Inv(s')
  {
    assert All(s') == All(s);
  }

  lemma SnapshotKeepsInv(s: Store, s': Store)
    requires Inv(s) && Next(s, TakeSnapshot, s')
    ensures Inv(s')
  {
    assert All(s') == All(s);
  }

  lemma ReleaseKeepsInv(s: Store, index: nat, s': Store)
    requires Inv(s) && Next(s, ReleaseSnapshot(index), s')
    ensures Inv(s')
  {
    assert All(s') == All(s);
    assert Floor(s) <= Floor(s');
  }

  /** A flushed table shares no user key with the levels it skipped. */
  lemma FlushKeepsAge(v: Version, level: nat, f: FileMeta, v': Version)
    requires WellFormed(v) && ByAge(v) && ValidFile(f) && FlushTo(v, level, f, v')
    requires AllNewer(EntriesOf(f.entries), VersionEntries(v))
    ensures ByAge(v')
  {
    forall a, b, g, h | 0 <= a < b < NumLevels && g in v'.files[a] && h in v'.files[b]
      ensures Newer(g, h)
    {
      FlushKeepsNewer(v, level, f, v', a, b, g, h);
    }
    forall g, h | g in v'.files[0] && h in v'.files[0] && g.number > h.number
      ensures Newer(g, h)
    {
      assert g != f ==> Newer(g, h);
    }
  }

  lemma GrownLevelKeepsNumbers(files: seq<FileMeta>, f: FileMeta, files': seq<FileMeta>)
    requires Saved(files', (set g | g in files) + {f})
    requires DistinctNumbers(files) && forall g :: g in files ==> g.number < f.number
    ensures DistinctNumbers(files')
  {
    forall i, j | 0 <= i < j < |files'|
      ensures files'[i].number != files'[j].number
    {
      assert files'[i] in (set g | g in files) + {f} && files'[j] in (set g | g in files) + {f};
    }
  }

  lemma SortedLevelApart(files: seq<FileMeta>, f: FileMeta, g: FileMeta)
    requires KeyDisjoint(files) && f in files && g in files && f != g
    ensures KeyApart(f, g)
    ensures UserDisjoint(files) ==> Apart(f, g)
  {
  }

  lemma GrownLevelKeepsShape(files: seq<FileMeta>, f: FileMeta, files': seq<FileMeta>)
    requires ValidFiles(files) && ValidFile(f) && Saved(files', (set g | g in files) + {f})
    requires KeyDisjoint(files) && forall g :: g in files ==> Apart(g, f)
    ensures KeyDisjoint(files')
    ensures UserDisjoint(files) ==> UserDisjoint(files')
  {
    forall g, h | (g in files || g == f) && (h in files || h == f) && g != h
      ensures KeyApart(g, h)
      ensures UserDisjoint(files) ==> Apart(g, h)
    {
      if g != f && h != f {
        SortedLevelApart(files, g, h);
      }
    }
    SavedInOrder(files', (set g | g in files) + {f});
  }

  lemma FlushKeepsShape(v: Version, level: nat, f: FileMeta, v': Version)
    requires WellFormed(v) && ValidFile(f) && FlushTo(v, level, f, v')
    ensures WellFormed(v')
    ensures NoUserKeySplit(v) ==> NoUserKeySplit(v')
  {
    SavedInOrder(v'.files[level], (set g | g in v.files[level]) + {f});
    if level == 0 {
      GrownLevelKeepsNumbers(v.files[0], f, v'.files[0]);
    } else {
      assert !LevelOverlaps(v, level, f.smallest.user, f.largest.user);
      GrownLevelKeepsShape(v.files[level], f, v'.files[level]);
    }
  }

  lemma FlushKeepsNewer(v: Version, level: nat, f: FileMeta, v': Version, a: nat, b: nat, g: FileMeta, h: FileMeta)
    requires WellFormed(v) && ByAge(v) && ValidFile(f) && FlushTo(v, level, f, v')
    requires AllNewer(EntriesOf(f.entries), VersionEntries(v))
    requires a < b < NumLevels && g in v'.files[a] && h in v'.files[b]
    ensures Newer(g, h)
  {
    if g in v.files[a] && h in v.files[b] {
      assert Newer(g, h);
    } else if g in v.files[a] {
      assert !LevelOverlaps(v, a, f.smallest.user, f.largest.user);
      ApartIsNewer(g, h);
    }
  }

  lemma FlushAddsEntries(v: Version, level: nat, f: FileMeta, v': Version)
    requires |v.files| == NumLevels && FlushTo(v, level, f, v')
    ensures VersionEntries(v') == VersionEntries(v) + EntriesOf(f.entries)
  {
    forall e | e in VersionEntries(v)
      ensures e in VersionEntries(v')
    {
      var l, g :| 0 <= l < NumLevels && g in v.files[l] && e in g.entries;
      assert g in v'.files[l];
    }
    assert f in v'.files[level];
  }

  /** What the immutable memtable held is below the memtable, in the version. */
  lemma EntriesMoveDown(s: Store, s': Store)
    requires Inv(s) && s' == s.(imm := None, version := s'.version) && WellFormed(s'.version) && ByAge(s'.version)
    requires VersionEntries(s'.version) == VersionEntries(s.version) + Imm(s)
    ensures Inv(s')
  {
    assert All(s') == All(s);
  }

  /** A flush leaves the immutable memtable's entries in a table, if there are any. */
  lemma FlushKeepsInv(s: Store, level: nat, table: Option<FileMeta>, s': Store)
    requires Inv(s) && Next(s, Flush(level, table), s')
    ensures Inv(s')
  {
    if table.Some? {
      FlushKeepsShape(s.version, level, table.value, s'.version);
      FlushKeepsAge(s.version, level, table.value, s'.version);
      FlushAddsEntries(s.version, level, table.value, s'.version);
    } else {
      assert Imm(s) == {};
    }
    EntriesMoveDown(s, s');
  }

  /** Carrying one file down a level changes no entries, and keeps the invariant if and only
      if the boundary is clear. */
  lemma TrivialMoveKeepsInv(s: Store, c: CompactionInputs, s': Store)
    requires Inv(s) && Next(s, TrivialMove(c), s')
    ensures Inv(s') <==> ClearBoundary(s.version, c)
  {
    var v, v' := s.version, s'.version;
    MovedFileIsDrawn(v, c);
    InstallKeepsShape(v, c, c.inputs0, v');
    MoveKeepsAgeIff(v, c, v');
    assert c.(inputs1 := []) == c;
    EntriesBefore(v, c, c.inputs0[0].entries);
    EntriesAfter(v, c, c.inputs0, v');
    SameEntriesSameMeaning(s, s');
    NewVersionKeepsInvIff(s, s');
  }

  lemma SameEntriesSameMeaning(s: Store, s': Store)
    requires Inv(s) && s' == s.(version := s'.version) && |s'.version.files| == NumLevels
    requires VersionEntries(s'.version) == VersionEntries(s.version)
    ensures SameMeaning(All(s'), EntriesOf(s.history), Floor(s))
  {
    assert All(s') == All(s);
  }

  /** With a new version of fewer entries, the age order and the answers are what there is to
      keep. */
  lemma NewVersionKeepsInvIff(s: Store, s': Store)
    requires Inv(s) && s' == s.(version := s'.version) && WellFormed(s'.version)
    requires VersionEntries(s'.version) <= VersionEntries(s.version)
    ensures Inv(s') <==> ByAge(s'.version) && SameMeaning(All(s'), EntriesOf(s.history), Floor(s))
  {
  }

  lemma CompactShrinks(s: Store, c: CompactionInputs, outputs: seq<FileMeta>, s': Store)
    requires WellFormed(s.version) && Next(s, Compact(c, outputs), s')
    ensures VersionEntries(s'.version) <= VersionEntries(s.version)
  {
    var input :| Merged(c, input) && Contents(outputs) == Survivors(s.version, c.level, Floor(s), input, |input|);
    SurvivorsAre(s.version, c.level, Floor(s), input, |input|);
    EntriesBefore(s.version, c, input);
    EntriesAfter(s.version, c, outputs, s'.version);
  }

  lemma InvSetsTheScene(s: Store)
    requires Inv(s)
    ensures DistinctKeys(All(s)) && MemoryIsNewer(Memory(s), s.version)
  {
    DistinctInHistory(s, All(s));
  }

  /** What agrees with the history agrees with what did before. */
  lemma SameMeaningThrough(a: set<Entry>, b: set<Entry>, h: set<Entry>, floor: SequenceNumber)
    requires SameMeaning(b, h, floor)
    ensures SameMeaning(a, h, floor) <==> SameMeaning(a, b, floor)
  {
    if SameMeaning(a, h, floor) {
      forall user, snapshot, x, y | floor <= snapshot && Finds(a, user, snapshot, x) && Finds(b, user, snapshot, y)
        ensures Meaning(x) == Meaning(y)
      {
        var z := FindsExists(h, user, snapshot);
      }
    } else if SameMeaning(a, b, floor) {
      forall user, snapshot, x, z | floor <= snapshot && Finds(a, user, snapshot, x) && Finds(h, user, snapshot, z)
        ensures Meaning(x) == Meaning(z)
      {
        var y := FindsExists(b, user, snapshot);
      }
    }
  }

  /** A compaction keeps the invariant if and only if it is safe. */
  lemma CompactKeepsInv(s: Store, c: CompactionInputs, outputs: seq<FileMeta>, s': Store)
    requires Inv(s) && Next(s, Compact(c, outputs), s')
    ensures Inv(s') <==> Safe(s, Compact(c, outputs))
  {
    var v, v' := s.version, s'.version;
    WrittenIsDrawn(v, c, Floor(s), outputs);
    InstallKeepsShape(v, c, outputs, v');
    CompactShrinks(s, c, outputs, s');
    InvSetsTheScene(s);
    CompactionKeepsAgeIff(v, c, Floor(s), outputs, v');
    CompactionKeepsMeaningIff(v, c, Floor(s), outputs, v', Memory(s));
    SameMeaningThrough(All(s'), All(s), EntriesOf(s.history), Floor(s));
    NewVersionKeepsInvIff(s, s');
  }

  /** A step keeps the invariant if and only if it is safe. */
  lemma NextKeepsInv(s: Store, step: Step, s': Store)
    requires Inv(s) && Next(s, step, s')
    ensures Inv(s') <==> Safe(s, step)
  {
    match step
    case Write(batch) => WriteKeepsInv(s, batch, s');
    case SwitchMemTable => SwitchKeepsInv(s, s');
    case Flush(level, table) => FlushKeepsInv(s, level, table, s');
    case TrivialMove(c) => TrivialMoveKeepsInv(s, c, s');
    case Compact(c, outputs) => CompactKeepsInv(s, c, outputs, s');
    case TakeSnapshot => SnapshotKeepsInv(s, s');
    case ReleaseSnapshot(i) => ReleaseKeepsInv(s, i, s');
  }

  /** A run from an empty store in which every step is safe. */
  ghost predicate Run(states: seq<Store>, steps: seq<Step>) {
    && Steps(states, steps)
    && forall i :: 0 <= i < |steps| ==> Safe(states[i], steps[i])
  }

  ghost predicate Steps(states: seq<Store>, steps: seq<Step>) {
    && |states| == |steps| + 1
    && Init(states[0])
    && forall i :: 0 <= i < |steps| ==> Next(states[i], steps[i], states[i + 1])
  }

  lemma {:induction false} RunKeepsInv(states: seq<Store>, steps: seq<Step>, n: nat)
    requires Run(states, steps) && n < |states|
    ensures Inv(states[n])
  {
    if n == 0 {
      InitKeepsInv(states[0]);
    } else {
      RunKeepsInv(states, steps, n - 1);
      NextKeepsInv(states[n - 1], steps[n - 1], states[n]);
    }
  }

  /** A compaction that starts with no live snapshot writes no user key twice. */
  lemma NoSnapshotSplitsNothing(s: Store, c: CompactionInputs, outputs: seq<FileMeta>, s': Store)
    requires Inv(s) && Next(s, Compact(c, outputs), s') && s.snapshots == []
    ensures UserDisjoint(outputs)
  {
    var input :| Merged(c, input) && Contents(outputs) == Survivors(s.version, c.level, Floor(s), input, |input|);
    EntriesBefore(s.version, c, input);
    forall e: Entry | e in input
      ensures e.key.sequence <= Floor(s)
    {
      assert e in All(s);
    }
    NoSnapshotLeavesOnePerUser(s.version, c.level, Floor(s), input);
    SurvivorsStaySorted(s.version, c.level, Floor(s), input, |input|);
    OutputsInOrder(outputs);
  }

  /** Levels 1 and up stay disjoint in user keys while no compaction splits one. */
  lemma NextKeepsUserKeysWhole(s: Store, step: Step, s': Store)
    requires Inv(s) && Next(s, step, s') && NoUserKeySplit(s.version)
    requires step.Compact? ==> UserDisjoint(step.outputs)
    ensures NoUserKeySplit(s'.version)
  {
    match step
    case Flush(level, table) =>
      if table.Some? {
        FlushKeepsShape(s.version, level, table.value, s'.version);
      }
    case TrivialMove(c) =>
      MovedFileIsDrawn(s.version, c);
      InstallKeepsShape(s.version, c, c.inputs0, s'.version);
    case Compact(c, outputs) =>
      WrittenIsDrawn(s.version, c, Floor(s), outputs);
      InstallKeepsShape(s.version, c, outputs, s'.version);
    case _ =>
  }

  /** Every compaction of the run starts with no live snapshot. */
  ghost predicate SnapshotFree(states: seq<Store>, steps: seq<Step>) {
    && Steps(states, steps)
    && forall i :: 0 <= i < |steps| && steps[i].Compact? ==> states[i].snapshots == []
  }

  lemma {:induction false} SnapshotFreeKeepsKeysWhole(states: seq<Store>, steps: seq<Step>, n: nat)
    requires SnapshotFree(states, steps) && n < |states|
    ensures Inv(states[n]) && NoUserKeySplit(states[n].version)
  {
    if n == 0 {
      InitKeepsInv(states[0]);
    } else {
      SnapshotFreeKeepsKeysWhole(states, steps, n - 1);
      WholeUserKeysCutCleanly(states[n - 1], steps[n - 1]);
      SnapshotFreeStep(states[n - 1], steps[n - 1], states[n]);
    }
  }

  /** If every compaction starts with no live snapshot, every cut is clean and every step
      safe. */
  lemma SnapshotFreeRunsCutCleanly(states: seq<Store>, steps: seq<Step>)
    requires SnapshotFree(states, steps)
    ensures Run(states, steps) && forall i :: 0 <= i < |steps| ==> CutsCleanly(states[i], steps[i])
  {
    forall i | 0 <= i < |steps|
      ensures CutsCleanly(states[i], steps[i]) && Safe(states[i], steps[i])
    {
      SnapshotFreeKeepsKeysWhole(states, steps, i);
      WholeUserKeysCutCleanly(states[i], steps[i]);
      CleanIsSafe(states[i], steps[i]);
    }
  }

  lemma SnapshotFreeStep(s: Store, step: Step, s': Store)
    requires Inv(s) && NoUserKeySplit(s.version) && Next(s, step, s') && CutsCleanly(s, step)
    requires step.Compact? ==> s.snapshots == []
    ensures Inv(s') && NoUserKeySplit(s'.version)
  {
    CleanIsSafe(s, step);
    NextKeepsInv(s, step, s');
    if step.Compact? {
      NoSnapshotSplitsNothing(s, step.inputs, step.outputs, s');
    }
    NextKeepsUserKeysWhole(s, step, s');
  }

  lemma WholeUserKeysCutCleanly(s: Store, step: Step)
    requires WellFormed(s.version) && NoUserKeySplit(s.version)
    ensures CutsCleanly(s, step)
  {
    if step.TrivialMove? && ChosenInputs(s.version, step.moved) {
      UserDisjointClears(s.version, step.moved);
    }
    if step.Compact? && ChosenInputs(s.version, step.inputs) {
      UserDisjointClears(s.version, step.inputs);
    }
  }

  /** What DBImpl::Get finds: the memtable's answer, or else the immutable one's, or else the
      version's first hit. */
  ghost predicate Looked(s: Store, user: UserKey, snapshot: SequenceNumber, found: Option<Entry>)
    requires |s.version.files| == NumLevels && Sorted(s.mem) && (s.imm.Some? ==> Sorted(s.imm.value))
  {
    var m := PointLookup(s.mem, user, snapshot);
    if m.Some? then found == m
    else
      var i := if s.imm.Some? then PointLookup(s.imm.value, user, snapshot) else None;
      if i.Some? then found == i else FirstHit(s.version, user, snapshot, found)
  }

  /** Memtables first, then levels from the top, finds the newest visible entry of all. */
  lemma LookedIsNewest(s: Store, user: UserKey, snapshot: SequenceNumber, found: Option<Entry>)
    requires Inv(s) && Looked(s, user, snapshot, found)
    ensures Finds(All(s), user, snapshot, found)
  {
    PointLookupFinds(s.mem, user, snapshot);
    if s.imm.Some? {
      PointLookupFinds(s.imm.value, user, snapshot);
    }
    if PointLookup(s.mem, user, snapshot).None? {
      if s.imm.None? || PointLookup(s.imm.value, user, snapshot).None? {
        FirstHitIsNewest(s.version, user, snapshot, found);
      }
    }
  }

  /** DBImpl::Get: the memtable, then the immutable one, then the version, stopping at the
      first that knows the key. */
  method Get(s: Store, user: UserKey, snapshot: SequenceNumber) returns (r: Option<Value>)
    requires Inv(s) && Floor(s) <= snapshot
    ensures r == Meaning(Latest(s.history, user, snapshot))
  {
    var found := PointLookup(s.mem, user, snapshot);
    if found.None? && s.imm.Some? {
      found := PointLookup(s.imm.value, user, snapshot);
    }
    if found.None? {
      found := Versions.Get(s.version, user, snapshot);
    }
    LookedIsNewest(s, user, snapshot, found);
    LatestFinds(s.history, user, snapshot);
    r := Meaning(found);
  }

  /** Whatever the store went through, every reader is told what the history says: the newest
      visible entry of all sources means what the last write means, and a lookup finds it. */
  lemma {:induction false} EveryRunAnswersTheHistory(states: seq<Store>, steps: seq<Step>, n: nat, user: UserKey,
                                                     snapshot: SequenceNumber)
    requires Run(states, steps) && n < |states|
    requires snapshot == states[n].lastSequence || snapshot in states[n].snapshots
    ensures Inv(states[n])
    ensures forall found :: Finds(All(states[n]), user, snapshot, found) ==>
                              Meaning(found) == Meaning(Latest(states[n].history, user, snapshot))
    ensures forall found :: Looked(states[n], user, snapshot, found) ==>
                              Meaning(found) == Meaning(Latest(states[n].history, user, snapshot))
  {
    RunKeepsInv(states, steps, n);
    LatestFinds(states[n].history, user, snapshot);
    forall found | Looked(states[n], user, snapshot, found)
      ensures Finds(All(states[n]), user, snapshot, found)
    {
      LookedIsNewest(states[n], user, snapshot, found);
    }
  }
}
