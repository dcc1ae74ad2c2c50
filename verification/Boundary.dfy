/** The hypothesis the compaction code never checks.  When a compaction that honours a live
    snapshot has split the entries of one user key over two files, a later one can take the
    first file and leave the second.  A file left above what moved down makes lookups stop too
    early, and a value left beside a dropped deletion comes back; each happens under an exact
    condition on the inputs (db/version_set.cc PickCompaction, CompactRange,
    SetupOtherInputs). */
module Boundary {
  import opened Keys
  import opened Versions
  import opened Picking
  import opened Compactions
  import opened CompactionTheorems

  /** Sequence numbers are handed out once. */
  ghost predicate DistinctSequences(es: set<Entry>) {
    forall x, y :: x in es && y in es && x.key.user == y.key.user && x.key.sequence == y.key.sequence ==> x == y
  }

  /** Stopping at the first level that answers gives the newest visible entry, always. */
  ghost predicate LookupsAreExact(v: Version)
    requires |v.files| == NumLevels
  {
    forall user, snapshot, r :: FirstHit(v, user, snapshot, r) ==> Finds(VersionEntries(v), user, snapshot, r)
  }

  lemma NothingVisibleAbove(v: Version, level: nat, g: FileMeta, y: Entry)
    requires WellFormed(v) && ByAge(v) && DistinctSequences(VersionEntries(v))
    requires level < NumLevels && g in v.files[level] && y in g.entries
    ensures NoneAbove(v, level, y.key.user, y.key.sequence)
  {
    forall a, h, e | 0 <= a < level && h in v.files[a] && e in h.entries
      ensures !Visible(e, y.key.user, y.key.sequence)
    {
      assert Newer(h, g);
      assert e in VersionEntries(v) && y in VersionEntries(v);
    }
  }

  lemma VisibleLeftoverIsOlder(v: Version, c: CompactionInputs, h: FileMeta, e: Entry, g: FileMeta, y: Entry)
    requires WellFormed(v) && ChosenInputs(v, c) && c.level > 0 && DistinctSequences(VersionEntries(v))
    requires h in v.files[c.level] && h !in c.inputs0 && e in h.entries
    requires g in c.inputs0 && y in g.entries && Visible(e, y.key.user, y.key.sequence)
    ensures Tag(e.key) < Tag(y.key)
  {
    OneFileHolds(v, c, h, g, y);
    assert g in v.files[c.level];
    assert e in VersionEntries(v) && y in VersionEntries(v);
  }

  lemma HitInLevel(v: Version, level: nat, user: UserKey, snapshot: SequenceNumber, x: Entry) returns (r: Option<Entry>)
    requires WellFormed(v) && 1 <= level < NumLevels && NoneAbove(v, level, user, snapshot)
    requires x in FileEntries(v.files[level]) && Visible(x, user, snapshot)
    ensures r.Some? && FirstHit(v, user, snapshot, r) && IsNewest(FileEntries(v.files[level]), user, snapshot, r.value)
  {
    r := FindsExists(FileEntries(v.files[level]), user, snapshot);
    assert AnswersLevel(v.files[level], level, user, snapshot, r.value);
  }

  lemma OlderHitIsWrong(v: Version, user: UserKey, snapshot: SequenceNumber, r: Option<Entry>, y: Entry)
    requires |v.files| == NumLevels && FirstHit(v, user, snapshot, r) && r.Some?
    requires y in VersionEntries(v) && Visible(y, user, snapshot) && Tag(r.value.key) < Tag(y.key)
    ensures !LookupsAreExact(v)
  {
    assert !Finds(VersionEntries(v), user, snapshot, r);
  }

  lemma NewestLeftover(v: Version, c: CompactionInputs, left: seq<FileMeta>, g: FileMeta, y: Entry, r: Entry)
    requires WellFormed(v) && ChosenInputs(v, c) && c.level > 0 && DistinctSequences(VersionEntries(v))
    requires Saved(left, Others(v.files[c.level], c.inputs0))
    requires g in c.inputs0 && y in g.entries
    requires r in FileEntries(left) && Visible(r, y.key.user, y.key.sequence)
    ensures Tag(r.key) < Tag(y.key)
  {
    var h :| h in left && r in h.entries;
    VisibleLeftoverIsOlder(v, c, h, r, g, y);
  }

  /** A level left with an entry older than one that moved below it answers too early. */
  lemma LeftoverAnswersTooEarly(v: Version, c: CompactionInputs, outputs: seq<FileMeta>, v': Version,
                                f: FileMeta, x: Entry, g: FileMeta, o: FileMeta, y: Entry)
    requires WellFormed(v) && WellFormed(v') && ByAge(v) && ChosenInputs(v, c) && c.level > 0
    requires Installed(v, c, outputs, v') && DistinctSequences(VersionEntries(v))
    requires f in v.files[c.level] && f !in c.inputs0 && x in f.entries
    requires g in c.inputs0 && y in g.entries && o in outputs && y in o.entries
    requires x.key.user == y.key.user && Tag(x.key) < Tag(y.key)
    ensures !LookupsAreExact(v')
  {
    NothingVisibleAbove(v, c.level, g, y);
    assert NoneAbove(v', c.level, y.key.user, y.key.sequence);
    assert f in v'.files[c.level] && x in FileEntries(v'.files[c.level]);
    var r := HitInLevel(v', c.level, y.key.user, y.key.sequence, x);
    NewestLeftover(v, c, v'.files[c.level], g, y, r.value);
    assert o in v'.files[c.level + 1] && y in VersionEntries(v');
    OlderHitIsWrong(v', y.key.user, y.key.sequence, r, y);
  }

  /** No entry is in two files of a sorted level. */
  lemma OneFileHolds(v: Version, c: CompactionInputs, h: FileMeta, g: FileMeta, y: Entry)
    requires WellFormed(v) && ChosenInputs(v, c) && c.level > 0
    requires h in v.files[c.level] && h !in c.inputs0 && g in c.inputs0 && y in g.entries
    ensures y !in h.entries
  {
    assert g in v.files[c.level] && g != h;
    var i :| 0 <= i < |v.files[c.level]| && v.files[c.level][i] == g;
    var j :| 0 <= j < |v.files[c.level]| && v.files[c.level][j] == h;
    if y in h.entries {
      SmallestToLargest(g, y);
      SmallestToLargest(h, y);
    }
  }

  lemma AgeMakesLookupsExact(v: Version)
    requires WellFormed(v) && ByAge(v)
    ensures LookupsAreExact(v)
  {
    forall user, snapshot, r | FirstHit(v, user, snapshot, r)
      ensures Finds(VersionEntries(v), user, snapshot, r)
    {
      FirstHitIsNewest(v, user, snapshot, r);
    }
  }

  // Lookups that stop too early

  ghost function InputEntries(c: CompactionInputs): set<Entry> {
    FileEntries(c.inputs0) + FileEntries(c.inputs1)
  }

  /** The newest input entry of the user key is a deletion that the compaction drops, and so
      it drops every input entry of that key. */
  ghost predicate Vanishes(v: Version, c: CompactionInputs, smallest: SequenceNumber, user: UserKey)
    requires |v.files| == NumLevels
  {
    exists e :: IsNewest(InputEntries(c), user, MaxSequence, e) && Obsolete(v, c.level, smallest, e)
  }

  /** Wherever a file of the compacted level is left behind, nothing of its first user key
      moves below it. */
  ghost predicate NothingPasses(v: Version, c: CompactionInputs, smallest: SequenceNumber)
    requires |v.files| == NumLevels && c.level + 1 < NumLevels
  {
    forall f, g {:trigger Continues(g, f)} ::
      f in v.files[c.level] && f !in c.inputs0 && g in c.inputs0 && Continues(g, f) ==>
        Vanishes(v, c, smallest, f.smallest.user)
  }

  lemma InputsAreMerged(c: CompactionInputs, input: seq<Entry>)
    requires Merged(c, input)
    ensures InputEntries(c) == EntriesOf(input)
  {
    forall e | e in input
      ensures e in InputEntries(c)
    {
      var f :| (f in c.inputs0 || f in c.inputs1) && e in f.entries;
    }
  }

  lemma {:induction false} NewestSurvivesUnlessObsolete(v: Version, level: nat, smallest: SequenceNumber,
                                                        input: seq<Entry>, user: UserKey, e: Entry)
    requires |v.files| == NumLevels && Sorted(input) && IsNewest(EntriesOf(input), user, MaxSequence, e)
    ensures e in Survivors(v, level, smallest, input, |input|) <==> !Obsolete(v, level, smallest, e)
  {
    var i :| 0 <= i < |input| && input[i] == e;
    SurvivorsAre(v, level, smallest, input, |input|);
    assert i > 0 ==> input[i - 1] in EntriesOf(input) && Less(input[i - 1].key, e.key);
    assert !Hidden(smallest, input, i);
  }

  lemma NewestIsFirst(input: seq<Entry>, user: UserKey, i: nat, j: nat)
    requires Sorted(input) && i < |input| && j < |input|
    requires IsNewest(EntriesOf(input), user, MaxSequence, input[i]) && input[j].key.user == user
    ensures i <= j
  {
    assert input[j] in EntriesOf(input) && Visible(input[j], user, MaxSequence);
  }

  lemma {:induction false} VanishedLeavesNothing(v: Version, level: nat, smallest: SequenceNumber, input: seq<Entry>,
                              user: UserKey, e: Entry)
    requires |v.files| == NumLevels && Sorted(input) && IsNewest(EntriesOf(input), user, MaxSequence, e)
    requires Obsolete(v, level, smallest, e)
    ensures forall x :: x in Survivors(v, level, smallest, input, |input|) ==> x.key.user != user
  {
    SurvivorsAre(v, level, smallest, input, |input|);
    var i :| 0 <= i < |input| && input[i] == e;
    forall j | 0 <= j < |input| && input[j].key.user == user
      ensures Dropped(v, level, smallest, input, j)
    {
      NewestIsFirst(input, user, i, j);
      if i < j {
        LaterEntriesAreHidden(smallest, input, i, j);
      }
    }
  }

  /** The newest input entry of a user key at which an input of the compacted level ends is
      in an input of that level. */
  lemma NewestIsAbove(v: Version, c: CompactionInputs, g: FileMeta, e: Entry) returns (h: FileMeta)
    requires WellFormed(v) && ByAge(v) && ChosenInputs(v, c) && g in c.inputs0
    requires IsNewest(InputEntries(c), g.largest.user, MaxSequence, e)
    ensures h in c.inputs0 && e in h.entries && Tag(g.largest) <= Tag(e.key)
  {
    assert g in v.files[c.level];
    var y := LastEntryOf(g);
    assert y in InputEntries(c) && Visible(y, g.largest.user, MaxSequence);
    forall h' | h' in c.inputs1
      ensures e !in h'.entries
    {
      assert h' in v.files[c.level + 1];
      assert Newer(g, h');
    }
    h :| (h in c.inputs0 || h in c.inputs1) && e in h.entries;
  }

  /** If something passes, the leftover is older than an entry that moves below it. */
  lemma SomethingPasses(v: Version, c: CompactionInputs, smallest: SequenceNumber, outputs: seq<FileMeta>,
                        f: FileMeta, g: FileMeta) returns (h: FileMeta, o: FileMeta, y: Entry)
    requires WellFormed(v) && ByAge(v) && ChosenInputs(v, c) && Written(v, c, smallest, outputs)
    requires f in v.files[c.level] && f !in c.inputs0 && g in c.inputs0 && Continues(g, f)
    requires !Vanishes(v, c, smallest, f.smallest.user)
    ensures h in c.inputs0 && y in h.entries && o in outputs && y in o.entries
    ensures y.key.user == f.smallest.user && Tag(f.smallest) < Tag(y.key)
  {
    var input :| Merged(c, input) && Contents(outputs) == Survivors(v, c.level, smallest, input, |input|);
    InputsAreMerged(c, input);
    var r := FindsExists(InputEntries(c), g.largest.user, MaxSequence);
    assert g in v.files[c.level];
    var last := LastEntryOf(g);
    assert last in InputEntries(c) && Visible(last, g.largest.user, MaxSequence);
    y := r.value;
    h := NewestIsAbove(v, c, g, y);
    NewestSurvivesUnlessObsolete(v, c.level, smallest, input, g.largest.user, y);
    InContents(outputs);
    o :| o in outputs && y in o.entries;
  }

  /** If nothing passes, an entry that stays at the compacted level is newer than one that an
      input of that level writes. */
  lemma {:induction false} StaysNewer(v: Version, c: CompactionInputs, smallest: SequenceNumber, input: seq<Entry>,
                                      f: FileMeta, g: FileMeta, x: Entry, y: Entry)
    requires WellFormed(v) && ByAge(v) && ChosenInputs(v, c) && Merged(c, input) && NothingPasses(v, c, smallest)
    requires f in v.files[c.level] && f !in c.inputs0 && g in c.inputs0
    requires x in f.entries && y in g.entries && x.key.user == y.key.user
    requires y in Survivors(v, c.level, smallest, input, |input|)
    ensures Tag(x.key) > Tag(y.key)
  {
    BesideIsNewer(v, c, g, f);
    if LeftBehind(v, c, g, f) {
      InputsAreMerged(c, input);
      SurvivorsAre(v, c.level, smallest, input, |input|);
      assert g in v.files[c.level];
      SmallestToLargest(g, y);
      SmallestToLargest(f, x);
      var e :| IsNewest(InputEntries(c), f.smallest.user, MaxSequence, e) && Obsolete(v, c.level, smallest, e);
      VanishedLeavesNothing(v, c.level, smallest, input, f.smallest.user, e);
    }
  }

  /** If nothing passes, what stays at the compacted level is newer than what moves below. */
  lemma NothingPassesBelow(v: Version, c: CompactionInputs, smallest: SequenceNumber, outputs: seq<FileMeta>,
                           f: FileMeta, o: FileMeta)
    requires WellFormed(v) && ByAge(v) && ChosenInputs(v, c) && Written(v, c, smallest, outputs)
    requires NothingPasses(v, c, smallest)
    requires f in v.files[c.level] && f !in c.inputs0 && o in outputs
    ensures Newer(f, o)
  {
    var input :| Merged(c, input) && Contents(outputs) == Survivors(v, c.level, smallest, input, |input|);
    SurvivorsAre(v, c.level, smallest, input, |input|);
    InContents(outputs);
    forall x, y | x in f.entries && y in o.entries && x.key.user == y.key.user
      ensures Tag(x.key) > Tag(y.key)
    {
      assert y in Contents(outputs) && y in input;
      var g :| (g in c.inputs0 || g in c.inputs1) && y in g.entries;
      if g !in c.inputs0 {
        assert g in v.files[c.level + 1];
        assert Newer(f, g);
      } else {
        StaysNewer(v, c, smallest, input, f, g, x, y);
      }
    }
  }

  /** A compaction keeps the age order if and only if nothing passes below a file that is left
      behind. */
  lemma CompactionKeepsAgeIff(v: Version, c: CompactionInputs, smallest: SequenceNumber, outputs: seq<FileMeta>,
                              v': Version)
    requires WellFormed(v) && ByAge(v) && ChosenInputs(v, c)
    requires Written(v, c, smallest, outputs) && Installed(v, c, outputs, v')
    ensures ByAge(v') <==> NothingPasses(v, c, smallest)
  {
    WrittenIsDrawn(v, c, smallest, outputs);
    InstallKeepsAgeIff(v, c, outputs, v');
    if NothingPasses(v, c, smallest) {
      forall f, o | f in v.files[c.level] && f !in c.inputs0 && o in outputs
        ensures Newer(f, o)
      {
        NothingPassesBelow(v, c, smallest, outputs, f, o);
      }
    } else {
      var f, g :| f in v.files[c.level] && f !in c.inputs0 && g in c.inputs0 && Continues(g, f)
                  && !Vanishes(v, c, smallest, f.smallest.user);
      var h, o, y := SomethingPasses(v, c, smallest, outputs, f, g);
      var x := f.entries[0];
      assert x in f.entries && !Newer(f, o);
    }
  }

  /** Lookups are exact after a compaction if and only if nothing passes below a file that is
      left behind. */
  lemma CompactionIsExactIff(v: Version, c: CompactionInputs, smallest: SequenceNumber, outputs: seq<FileMeta>,
                             v': Version)
    requires WellFormed(v) && ByAge(v) && ChosenInputs(v, c) && DistinctSequences(VersionEntries(v))
    requires Written(v, c, smallest, outputs) && Installed(v, c, outputs, v')
    ensures LookupsAreExact(v') <==> NothingPasses(v, c, smallest)
  {
    WrittenIsDrawn(v, c, smallest, outputs);
    InstallKeepsShape(v, c, outputs, v');
    if NothingPasses(v, c, smallest) {
      CompactionKeepsAgeIff(v, c, smallest, outputs, v');
      AgeMakesLookupsExact(v');
    } else {
      var f, g :| f in v.files[c.level] && f !in c.inputs0 && g in c.inputs0 && Continues(g, f)
                  && !Vanishes(v, c, smallest, f.smallest.user);
      AboveLevelZero(v, c, f, g);
      var h, o, y := SomethingPasses(v, c, smallest, outputs, f, g);
      var x := f.entries[0];
      assert x in f.entries;
      LeftoverAnswersTooEarly(v, c, outputs, v', f, x, h, o, y);
    }
  }

  lemma AboveLevelZero(v: Version, c: CompactionInputs, f: FileMeta, g: FileMeta)
    requires WellFormed(v) && ChosenInputs(v, c)
    requires f in v.files[c.level] && f !in c.inputs0 && g in c.inputs0 && Continues(g, f)
    ensures c.level > 0
  {
    assert c.level == 0 ==> Apart(f, g);
  }

  /** A clear boundary lets nothing pass. */
  lemma ClearPassesNothing(v: Version, c: CompactionInputs, smallest: SequenceNumber)
    requires WellFormed(v) && ChosenInputs(v, c) && ClearBoundary(v, c)
    ensures NothingPasses(v, c, smallest)
  {
    forall f, g | f in v.files[c.level] && f !in c.inputs0 && g in c.inputs0
      ensures !Continues(g, f)
    {
      assert c.level == 0 ==> Apart(f, g);
    }
  }

  lemma MoveLeavesAboveIff(v: Version, c: CompactionInputs)
    requires WellFormed(v) && ByAge(v) && ChosenInputs(v, c) && c.inputs1 == []
    ensures LeftAbove(v, c, c.inputs0) <==> ClearBoundary(v, c)
  {
    forall f, g | f in v.files[c.level] && f !in c.inputs0 && g in c.inputs0
      ensures Newer(f, g) <==> !(c.level > 0 && Continues(g, f))
    {
      BesideIsNewer(v, c, g, f);
      assert c.level == 0 ==> Apart(f, g);
    }
  }

  /** A trivial move keeps the age order if and only if its boundary is clear. */
  lemma MoveKeepsAgeIff(v: Version, c: CompactionInputs, v': Version)
    requires WellFormed(v) && ByAge(v) && ChosenInputs(v, c) && |c.inputs0| == 1 && c.inputs1 == []
    requires Installed(v, c, c.inputs0, v')
    ensures ByAge(v') <==> ClearBoundary(v, c)
  {
    MovedFileIsDrawn(v, c);
    InstallKeepsAgeIff(v, c, c.inputs0, v');
    MoveLeavesAboveIff(v, c);
  }

  /** A trivial move leaves lookups exact if and only if its boundary is clear. */
  lemma TrivialMoveIsExactIffClear(v: Version, c: CompactionInputs, v': Version)
    requires WellFormed(v) && ByAge(v) && ChosenInputs(v, c) && |c.inputs0| == 1 && c.inputs1 == []
    requires Installed(v, c, c.inputs0, v') && DistinctSequences(VersionEntries(v))
    ensures LookupsAreExact(v') <==> ClearBoundary(v, c)
  {
    MovedFileIsDrawn(v, c);
    InstallKeepsShape(v, c, c.inputs0, v');
    MoveKeepsAgeIff(v, c, v');
    if ClearBoundary(v, c) {
      AgeMakesLookupsExact(v');
    } else {
      var f, g :| f in v.files[c.level] && f !in c.inputs0 && g in c.inputs0 && Continues(g, f);
      assert g in v.files[c.level];
      var x := f.entries[0];
      var y := LastEntryOf(g);
      assert x in f.entries;
      LeftoverAnswersTooEarly(v, c, c.inputs0, v', f, x, g, g, y);
    }
  }

  lemma LastEntryOf(f: FileMeta) returns (e: Entry)
    requires ValidFile(f)
    ensures e in f.entries && e.key == f.largest
  {
    e := f.entries[|f.entries| - 1];
  }

  // Deletions that uncover something

  /** A deletion that the compaction drops was the answer at `smallest`, and without it the
      answer is a value. */
  ghost predicate Uncovers(v: Version, level: nat, smallest: SequenceNumber, inputs: set<Entry>, rest: set<Entry>,
                           e: Entry, x: Entry)
    requires |v.files| == NumLevels
  {
    && e in inputs && Obsolete(v, level, smallest, e) && IsNewest(rest + inputs, e.key.user, smallest, e)
    && x.key.kind.Put? && IsNewest(rest, e.key.user, smallest, x)
  }

  /** An uncovered value is read where nothing was before. */
  lemma {:induction false} UncoveredIsRead(v: Version, level: nat, smallest: SequenceNumber, input: seq<Entry>,
                                           rest: set<Entry>, e: Entry, x: Entry)
    requires |v.files| == NumLevels && Sorted(input) && DistinctKeys(rest + EntriesOf(input))
    requires Uncovers(v, level, smallest, EntriesOf(input), rest, e, x)
    ensures !SameMeaning(rest + EntriesOf(Survivors(v, level, smallest, input, |input|)), rest + EntriesOf(input),
                         smallest)
  {
    var kept := EntriesOf(Survivors(v, level, smallest, input, |input|));
    ObsoleteIsDropped(v, level, smallest, input, e);
    DroppedAnswer(v, level, smallest, input, rest, e.key.user, smallest, e);
    assert Finds(rest + EntriesOf(input), e.key.user, smallest, Some(e));
    assert Finds(rest + kept, e.key.user, smallest, Some(x));
  }

  lemma {:induction false} ObsoleteIsDropped(v: Version, level: nat, smallest: SequenceNumber, input: seq<Entry>,
                                             e: Entry)
    requires |v.files| == NumLevels && Obsolete(v, level, smallest, e)
    ensures e !in Survivors(v, level, smallest, input, |input|)
  {
    SurvivorsAre(v, level, smallest, input, |input|);
  }

  /** Where nothing is uncovered, every reader reads what was there before. */
  lemma {:induction false} ReadsOnUnlessUncovered(v: Version, level: nat, smallest: SequenceNumber, input: seq<Entry>,
                                                  rest: set<Entry>, user: UserKey, snapshot: SequenceNumber,
                                                  before: Option<Entry>, after: Option<Entry>)
    requires |v.files| == NumLevels && Sorted(input) && smallest <= snapshot
    requires DistinctKeys(rest + EntriesOf(input))
    requires forall e, x :: !Uncovers(v, level, smallest, EntriesOf(input), rest, e, x)
    requires Finds(rest + EntriesOf(input), user, snapshot, before)
    requires Finds(rest + EntriesOf(Survivors(v, level, smallest, input, |input|)), user, snapshot, after)
    ensures Meaning(before) == Meaning(after)
  {
    var kept := EntriesOf(Survivors(v, level, smallest, input, |input|));
    SurvivorsAre(v, level, smallest, input, |input|);
    assert kept <= EntriesOf(input);
    if before.None? {
      assert after.None?;
    } else if before.value in rest + kept {
      assert IsNewest(rest + kept, user, snapshot, before.value);
      FindsIsFunctional(rest + kept, user, snapshot, before, after);
    } else {
      DroppedAnswer(v, level, smallest, input, rest, user, snapshot, before.value);
      if after.Some? {
        assert IsNewest(rest, user, smallest, after.value);
        assert !Uncovers(v, level, smallest, EntriesOf(input), rest, before.value, after.value);
      }
    }
  }

  /** Dropping entries changes a reader's answer if and only if a deletion uncovers a value. */
  lemma {:induction false} SurvivorsKeepMeaningIff(v: Version, level: nat, smallest: SequenceNumber, input: seq<Entry>,
                                                   rest: set<Entry>)
    requires |v.files| == NumLevels && Sorted(input) && DistinctKeys(rest + EntriesOf(input))
    ensures SameMeaning(rest + EntriesOf(Survivors(v, level, smallest, input, |input|)), rest + EntriesOf(input),
                        smallest)
            <==> !exists e, x :: Uncovers(v, level, smallest, EntriesOf(input), rest, e, x)
  {
    if e, x :| Uncovers(v, level, smallest, EntriesOf(input), rest, e, x) {
      UncoveredIsRead(v, level, smallest, input, rest, e, x);
    } else {
      var kept := EntriesOf(Survivors(v, level, smallest, input, |input|));
      forall user, snapshot, after, before | smallest <= snapshot && Finds(rest + kept, user, snapshot, after)
                                             && Finds(rest + EntriesOf(input), user, snapshot, before)
        ensures Meaning(after) == Meaning(before)
      {
        ReadsOnUnlessUncovered(v, level, smallest, input, rest, user, snapshot, before, after);
      }
    }
  }

  /** The failing family: an input ends with a user key, a file left at its level goes on with
      it, the input's deletion of it is the answer at `smallest` and is dropped, and the next
      older entry, in the file that is left, is a value. */
  ghost predicate Resurfaces(v: Version, c: CompactionInputs, smallest: SequenceNumber, memory: set<Entry>,
                             g: FileMeta, f: FileMeta, e: Entry, x: Entry)
    requires |v.files| == NumLevels && c.level + 1 < NumLevels
  {
    && LeftBehind(v, c, g, f) && e in g.entries && x in f.entries
    && Uncovers(v, c.level, smallest, InputEntries(c), memory + Untouched(v, c), e, x)
  }

  ghost predicate NothingResurfaces(v: Version, c: CompactionInputs, smallest: SequenceNumber, memory: set<Entry>)
    requires |v.files| == NumLevels && c.level + 1 < NumLevels
  {
    forall g, f, e, x :: !Resurfaces(v, c, smallest, memory, g, f, e, x)
  }

  /** What is uncovered is in a file left behind. */
  lemma UncoveredIsLeftBehind(v: Version, c: CompactionInputs, smallest: SequenceNumber, memory: set<Entry>,
                              e: Entry, x: Entry)
    requires WellFormed(v) && ByAge(v) && ChosenInputs(v, c) && MemoryIsNewer(memory, v)
    requires Uncovers(v, c.level, smallest, InputEntries(c), memory + Untouched(v, c), e, x)
    ensures !NothingResurfaces(v, c, smallest, memory)
  {
    var g :| (g in c.inputs0 || g in c.inputs1) && e in g.entries;
    assert g in v.files[c.level] || g in v.files[c.level + 1];
    assert e in VersionEntries(v);
    assert x in memory + Untouched(v, c) && Tag(x.key) <= Tag(e.key);
    UntouchedIsNewer(v, c, smallest, g, e, x);
    var f :| LeftBehind(v, c, g, f) && x in f.entries;
    assert Resurfaces(v, c, smallest, memory, g, f, e, x);
  }

  /** A compaction keeps what every reader at or above `smallest` is told if and only if no
      deleted value resurfaces. */
  lemma CompactionKeepsMeaningIff(v: Version, c: CompactionInputs, smallest: SequenceNumber, outputs: seq<FileMeta>,
                                  v': Version, memory: set<Entry>)
    requires WellFormed(v) && ByAge(v) && ChosenInputs(v, c)
    requires Written(v, c, smallest, outputs) && Installed(v, c, outputs, v')
    requires DistinctKeys(memory + VersionEntries(v)) && MemoryIsNewer(memory, v)
    ensures SameMeaning(memory + VersionEntries(v'), memory + VersionEntries(v), smallest)
            <==> NothingResurfaces(v, c, smallest, memory)
  {
    var input :| Merged(c, input) && Contents(outputs) == Survivors(v, c.level, smallest, input, |input|);
    InputsAreMerged(c, input);
    EntriesAround(v, c, input, outputs, v', memory);
    SurvivorsKeepMeaningIff(v, c.level, smallest, input, memory + Untouched(v, c));
    if e, x :| Uncovers(v, c.level, smallest, EntriesOf(input), memory + Untouched(v, c), e, x) {
      UncoveredIsLeftBehind(v, c, smallest, memory, e, x);
    } else {
      forall g, f, e, x
        ensures !Resurfaces(v, c, smallest, memory, g, f, e, x)
      {
        assert !Uncovers(v, c.level, smallest, EntriesOf(input), memory + Untouched(v, c), e, x);
      }
    }
  }

  /** A clear boundary lets nothing resurface. */
  lemma ClearUncoversNothing(v: Version, c: CompactionInputs, smallest: SequenceNumber, memory: set<Entry>)
    requires WellFormed(v) && ChosenInputs(v, c) && ClearBoundary(v, c)
    ensures NothingResurfaces(v, c, smallest, memory)
  {
    forall g, f, e, x
      ensures !Resurfaces(v, c, smallest, memory, g, f, e, x)
    {
      ClearLeavesNoneBehind(v, c, g, f);
    }
  }
}
