/** Lookups at the snapshots that readers still hold (db/version_set.cc Version::Get).
    Module `Boundary` tells when a compaction keeps lookups exact at every snapshot; at those
    from the smallest live one on, less is enough. */
module HeldLookups {
  import opened Keys
  import opened Versions
  import opened Picking
  import opened Compactions
  import opened CompactionTheorems
  import opened Boundary

  /** From `smallest` on, stopping at the first level that answers is right. */
  ghost predicate HeldLookupsAreExact(v: Version, smallest: SequenceNumber)
    requires |v.files| == NumLevels
  {
    forall user, snapshot, r ::
      smallest <= snapshot && FirstHit(v, user, snapshot, r) ==> Finds(VersionEntries(v), user, snapshot, r)
  }

  /** Some reader from `smallest` on is told `y`: what is newer is not visible to all. */
  ghost predicate Told(v: Version, smallest: SequenceNumber, y: Entry)
    requires |v.files| == NumLevels
  {
    && y in VersionEntries(v)
    && forall z :: z in VersionEntries(v) && z.key.user == y.key.user && Tag(z.key) > Tag(y.key) ==>
                     z.key.sequence > smallest
  }

  /** Wherever a file of the compacted level is left behind, every input entry of its first
      user key that some reader is told is a deletion that is dropped. */
  ghost predicate NothingToldPasses(v: Version, c: CompactionInputs, smallest: SequenceNumber)
    requires |v.files| == NumLevels && c.level + 1 < NumLevels
  {
    forall f, g, y {:trigger Continues(g, f), Told(v, smallest, y)} ::
      f in v.files[c.level] && f !in c.inputs0 && g in c.inputs0 && Continues(g, f)
      && y in InputEntries(c) && y.key.user == f.smallest.user && Told(v, smallest, y) ==>
        Obsolete(v, c.level, smallest, y)
  }

  /** What a reader is told is not hidden by anything the compaction sees. */
  lemma {:induction false} ToldSurvives(v: Version, c: CompactionInputs, smallest: SequenceNumber, input: seq<Entry>,
                                        y: Entry)
    requires WellFormed(v) && ChosenInputs(v, c) && Merged(c, input)
    requires y in input && Told(v, smallest, y)
    ensures y in Survivors(v, c.level, smallest, input, |input|) <==> !Obsolete(v, c.level, smallest, y)
  {
    SurvivorsAre(v, c.level, smallest, input, |input|);
    EntriesBefore(v, c, input);
    forall i | 0 <= i < |input| && input[i] == y
      ensures !Hidden(smallest, input, i)
    {
      if i > 0 && input[i - 1].key.user == y.key.user {
        assert input[i - 1] in EntriesOf(input) && Less(input[i - 1].key, y.key);
      }
    }
  }

  // If something told passes, a lookup is wrong

  /** At the snapshot from which on `y` is the answer, nothing newer is visible. */
  lemma NewerIsInvisible(v: Version, smallest: SequenceNumber, y: Entry, snapshot: SequenceNumber, z: Entry)
    requires |v.files| == NumLevels && DistinctSequences(VersionEntries(v)) && Told(v, smallest, y)
    requires snapshot == (if y.key.sequence < smallest then smallest else y.key.sequence)
    requires z in VersionEntries(v) && Visible(z, y.key.user, snapshot)
    ensures Tag(z.key) <= Tag(y.key)
  {
  }

  lemma NoneAboveTold(v: Version, smallest: SequenceNumber, level: nat, g: FileMeta, y: Entry, snapshot: SequenceNumber)
    requires WellFormed(v) && ByAge(v) && DistinctSequences(VersionEntries(v)) && Told(v, smallest, y)
    requires level < NumLevels && g in v.files[level] && y in g.entries
    requires snapshot == (if y.key.sequence < smallest then smallest else y.key.sequence)
    ensures NoneAbove(v, level, y.key.user, snapshot)
  {
    forall a, h, e | 0 <= a < level && h in v.files[a] && e in h.entries
      ensures !Visible(e, y.key.user, snapshot)
    {
      assert Newer(h, g) && e in VersionEntries(v);
      if Visible(e, y.key.user, snapshot) {
        NewerIsInvisible(v, smallest, y, snapshot, e);
      }
    }
  }

  /** A leftover that is older than a told entry below it answers some reader. */
  lemma ToldIsOvertaken(v: Version, c: CompactionInputs, smallest: SequenceNumber, outputs: seq<FileMeta>, v': Version,
                        f: FileMeta, x: Entry, h: FileMeta, o: FileMeta, y: Entry)
    requires WellFormed(v) && WellFormed(v') && ByAge(v) && ChosenInputs(v, c) && c.level > 0
    requires Installed(v, c, outputs, v') && DistinctSequences(VersionEntries(v)) && Told(v, smallest, y)
    requires f in v.files[c.level] && f !in c.inputs0 && x in f.entries
    requires h in c.inputs0 && y in h.entries && o in outputs && y in o.entries
    requires x.key.user == y.key.user && Tag(x.key) < Tag(y.key)
    ensures !HeldLookupsAreExact(v', smallest)
  {
    var user := y.key.user;
    var snapshot := if y.key.sequence < smallest then smallest else y.key.sequence;
    NoneAboveTold(v, smallest, c.level, h, y, snapshot);
    assert NoneAbove(v', c.level, user, snapshot);
    assert f in v'.files[c.level] && x in FileEntries(v'.files[c.level]);
    OlderIsVisible(smallest, x, y, snapshot);
    var r := HitInLevel(v', c.level, user, snapshot, x);
    LeftoverIsOlder(v, c, v'.files[c.level], smallest, h, y, snapshot, r.value);
    OutputIsInVersion(v, c, outputs, v', o, y);
    OlderHeldHitIsWrong(v', smallest, user, snapshot, r, y);
  }

  lemma OlderIsVisible(smallest: SequenceNumber, x: Entry, y: Entry, snapshot: SequenceNumber)
    requires x.key.user == y.key.user && Tag(x.key) < Tag(y.key)
    requires snapshot == (if y.key.sequence < smallest then smallest else y.key.sequence)
    ensures Visible(x, y.key.user, snapshot) && Visible(y, y.key.user, snapshot) && smallest <= snapshot
  {
  }

  lemma OutputIsInVersion(v: Version, c: CompactionInputs, outputs: seq<FileMeta>, v': Version, o: FileMeta, y: Entry)
    requires |v.files| == NumLevels && c.level + 1 < NumLevels && Installed(v, c, outputs, v')
    requires o in outputs && y in o.entries
    ensures y in VersionEntries(v')
  {
    assert o in v'.files[c.level + 1];
  }

  lemma OlderHeldHitIsWrong(v: Version, smallest: SequenceNumber, user: UserKey, snapshot: SequenceNumber,
                            r: Option<Entry>, y: Entry)
    requires |v.files| == NumLevels && FirstHit(v, user, snapshot, r) && r.Some? && smallest <= snapshot
    requires y in VersionEntries(v) && Visible(y, user, snapshot) && Tag(r.value.key) < Tag(y.key)
    ensures !HeldLookupsAreExact(v, smallest)
  {
    assert !Finds(VersionEntries(v), user, snapshot, r);
  }

  lemma LeftoverIsOlder(v: Version, c: CompactionInputs, left: seq<FileMeta>, smallest: SequenceNumber,
                        h: FileMeta, y: Entry, snapshot: SequenceNumber, r: Entry)
    requires WellFormed(v) && ChosenInputs(v, c) && c.level > 0 && DistinctSequences(VersionEntries(v))
    requires Saved(left, Others(v.files[c.level], c.inputs0)) && Told(v, smallest, y)
    requires h in c.inputs0 && y in h.entries
    requires snapshot == (if y.key.sequence < smallest then smallest else y.key.sequence)
    requires r in FileEntries(left) && Visible(r, y.key.user, snapshot)
    ensures Tag(r.key) < Tag(y.key)
  {
    var f :| f in left && r in f.entries;
    assert f in v.files[c.level] && f !in c.inputs0 && r in VersionEntries(v) && y in VersionEntries(v);
    NewerIsInvisible(v, smallest, y, snapshot, r);
    OneFileHolds(v, c, f, h, y);
  }

  /** Of what passes and is told, one entry is newer than the first that is left behind. */
  lemma ToldAbove(v: Version, c: CompactionInputs, smallest: SequenceNumber, f: FileMeta, g: FileMeta, y: Entry)
    returns (h: FileMeta, t: Entry)
    requires WellFormed(v) && ByAge(v) && ChosenInputs(v, c) && DistinctSequences(VersionEntries(v))
    requires f in v.files[c.level] && f !in c.inputs0 && g in c.inputs0 && Continues(g, f)
    requires y in InputEntries(c) && y.key.user == f.smallest.user && Told(v, smallest, y)
    requires !Obsolete(v, c.level, smallest, y)
    ensures h in c.inputs0 && t in h.entries && t.key.user == f.smallest.user && Tag(f.smallest) < Tag(t.key)
    ensures Told(v, smallest, t) && !Obsolete(v, c.level, smallest, t)
  {
    assert g in v.files[c.level];
    var x := f.entries[0];
    var last := LastEntryOf(g);
    assert x in f.entries && x in VersionEntries(v) && last in VersionEntries(v);
    if Tag(y.key) < Tag(last.key) {
      h, t := g, last;
    } else {
      forall h' | h' in c.inputs1
        ensures y !in h'.entries
      {
        assert h' in v.files[c.level + 1];
        assert Newer(g, h');
      }
      h :| (h in c.inputs0 || h in c.inputs1) && y in h.entries;
      t := y;
    }
  }

  // If a lookup is wrong, something told passes

  /** The newest entry of the new version that a reader sees was told to him before, too. */
  lemma {:induction false} NewestWasTold(v: Version, c: CompactionInputs, smallest: SequenceNumber,
                                         outputs: seq<FileMeta>, v': Version, user: UserKey, snapshot: SequenceNumber,
                                         w: Entry)
    requires WellFormed(v) && ChosenInputs(v, c) && smallest <= snapshot && DistinctKeys(VersionEntries(v))
    requires Written(v, c, smallest, outputs) && Installed(v, c, outputs, v') && |v'.files| == NumLevels
    requires IsNewest(VersionEntries(v'), user, snapshot, w) && w in Contents(outputs)
    ensures Told(v, smallest, w)
  {
    var input :| Merged(c, input) && Contents(outputs) == Survivors(v, c.level, smallest, input, |input|);
    EntriesBefore(v, c, input);
    EntriesAfter(v, c, outputs, v');
    SurvivorsAre(v, c.level, smallest, input, |input|);
    var n := FindsExists(VersionEntries(v), user, snapshot);
    assert w in VersionEntries(v);
    if n.value !in VersionEntries(v') {
      DroppedAnswer(v, c.level, smallest, input, Untouched(v, c), user, snapshot, n.value);
    }
  }

  /** A wrong first hit is an entry left behind, and the right answer has passed below it. */
  lemma WrongHitIsLeft(v: Version, c: CompactionInputs, outputs: seq<FileMeta>, v': Version,
                       l: nat, f: FileMeta, r: Entry, m: nat, o: FileMeta, w: Entry) returns (h: FileMeta)
    requires WellFormed(v) && ByAge(v) && ChosenInputs(v, c) && Drawn(c, outputs) && Installed(v, c, outputs, v')
    requires l < m < NumLevels && f in v'.files[l] && r in f.entries && o in v'.files[m] && w in o.entries
    requires r.key.user == w.key.user && Tag(r.key) < Tag(w.key)
    ensures l == c.level && f in v.files[c.level] && f !in c.inputs0
    ensures h in c.inputs0 && w in h.entries && o in outputs
  {
    var f', l' := Origin(v, c, outputs, v', l, f, r);
    var o', m' := Origin(v, c, outputs, v', m, o, w);
    assert l' < m' ==> Newer(f', o');
    h := o';
  }

  /** The file it is left in goes on where an input ends. */
  lemma LeftContinues(v: Version, c: CompactionInputs, f: FileMeta, r: Entry, h: FileMeta, w: Entry)
    requires WellFormed(v) && ByAge(v) && ChosenInputs(v, c)
    requires f in v.files[c.level] && f !in c.inputs0 && r in f.entries && h in c.inputs0 && w in h.entries
    requires r.key.user == w.key.user && Tag(r.key) < Tag(w.key)
    ensures Continues(h, f) && f.smallest.user == w.key.user
  {
    BesideIsNewer(v, c, h, f);
    assert h in v.files[c.level];
    SmallestToLargest(f, r);
    SmallestToLargest(h, w);
  }

  /** In the level where the first hit is, it is the newest. */
  lemma HitOfLevel(v: Version, l: nat, user: UserKey, snapshot: SequenceNumber, r: Entry, f: FileMeta, w: Entry)
    returns (f': FileMeta)
    requires WellFormed(v) && l < NumLevels && AnswersLevel(v.files[l], l, user, snapshot, r)
    requires forall g, h {:trigger Newer(g, h)} ::
               g in v.files[0] && h in v.files[0] && g.number > h.number ==> Newer(g, h)
    requires f in v.files[l] && w in f.entries && Visible(w, user, snapshot)
    ensures Tag(w.key) <= Tag(r.key) && f' in v.files[l] && r in f'.entries && Visible(r, user, snapshot)
  {
    if l == 0 {
      f' :| f' in v.files[0] && AnswersLevel0(v.files[0], f', user, snapshot, r);
      if f == f' {
        assert w in EntriesOf(f.entries);
      } else {
        assert f.number != f'.number && Newer(f', f);
      }
    } else {
      assert w in FileEntries(v.files[l]);
      f' :| f' in v.files[l] && r in f'.entries;
    }
  }

  lemma HitFile(v: Version, l: nat, user: UserKey, snapshot: SequenceNumber, r: Entry) returns (f: FileMeta)
    requires |v.files| == NumLevels && l < NumLevels && AnswersLevel(v.files[l], l, user, snapshot, r)
    ensures f in v.files[l] && r in f.entries && Visible(r, user, snapshot)
  {
    if l == 0 {
      f :| f in v.files[0] && AnswersLevel0(v.files[0], f, user, snapshot, r);
    } else {
      f :| f in v.files[l] && r in f.entries;
    }
  }

  /** A first hit that is not the newest entry was left behind, and the newest one passed. */
  lemma WrongHitPasses(v: Version, c: CompactionInputs, outputs: seq<FileMeta>, v': Version,
                       user: UserKey, snapshot: SequenceNumber, l: nat, r: Entry, w: Entry)
    returns (f: FileMeta, h: FileMeta)
    requires WellFormed(v) && WellFormed(v') && ByAge(v) && ChosenInputs(v, c)
    requires Drawn(c, outputs) && Installed(v, c, outputs, v')
    requires l < NumLevels && NoneAbove(v', l, user, snapshot) && AnswersLevel(v'.files[l], l, user, snapshot, r)
    requires IsNewest(VersionEntries(v'), user, snapshot, w) && Tag(w.key) > Tag(r.key)
    ensures f in v.files[c.level] && f !in c.inputs0 && h in c.inputs0 && w in h.entries
    ensures Continues(h, f) && f.smallest.user == w.key.user && w in Contents(outputs)
  {
    var m, o :| 0 <= m < NumLevels && o in v'.files[m] && w in o.entries;
    f := HitFile(v', l, user, snapshot, r);
    forall g, h | g in v'.files[0] && h in v'.files[0] && g.number > h.number
      ensures Newer(g, h)
    {
      assert g in v.files[0] && h in v.files[0];
    }
    if m == l {
      var _ := HitOfLevel(v', l, user, snapshot, r, o, w);
    }
    assert l < m;
    h := WrongHitIsLeft(v, c, outputs, v', l, f, r, m, o, w);
    LeftContinues(v, c, f, r, h, w);
    InContents(outputs);
  }

  /** The newest entry of the new version that a reader sees, if it has passed, breaks the
      condition. */
  lemma {:induction false} WrongHitBreaks(v: Version, c: CompactionInputs, smallest: SequenceNumber,
                                          outputs: seq<FileMeta>, v': Version, user: UserKey, snapshot: SequenceNumber,
                                          w: Entry, f: FileMeta, h: FileMeta)
    requires WellFormed(v) && ChosenInputs(v, c) && DistinctKeys(VersionEntries(v)) && |v'.files| == NumLevels
    requires Written(v, c, smallest, outputs) && Installed(v, c, outputs, v') && smallest <= snapshot
    requires IsNewest(VersionEntries(v'), user, snapshot, w) && w in Contents(outputs)
    requires f in v.files[c.level] && f !in c.inputs0 && h in c.inputs0 && w in h.entries
    requires Continues(h, f) && f.smallest.user == w.key.user
    ensures !NothingToldPasses(v, c, smallest)
  {
    NewestWasTold(v, c, smallest, outputs, v', user, snapshot, w);
    var input :| Merged(c, input) && Contents(outputs) == Survivors(v, c.level, smallest, input, |input|);
    InputsAreMerged(c, input);
    SurvivorsAre(v, c.level, smallest, input, |input|);
    ToldSurvives(v, c, smallest, input, w);
    assert Continues(h, f) && Told(v, smallest, w);
  }

  /** After a compaction the lookups at the snapshots readers hold are exact if and only if
      nothing that such a reader is told passes below a file that is left behind. */
  lemma CompactionIsExactForHeldIff(v: Version, c: CompactionInputs, smallest: SequenceNumber, outputs: seq<FileMeta>,
                                    v': Version)
    requires WellFormed(v) && ByAge(v) && ChosenInputs(v, c)
    requires DistinctSequences(VersionEntries(v)) && DistinctKeys(VersionEntries(v))
    requires Written(v, c, smallest, outputs) && Installed(v, c, outputs, v')
    ensures HeldLookupsAreExact(v', smallest) <==> NothingToldPasses(v, c, smallest)
  {
    WrittenIsDrawn(v, c, smallest, outputs);
    InstallKeepsShape(v, c, outputs, v');
    if NothingToldPasses(v, c, smallest) {
      forall user, snapshot, r | smallest <= snapshot && FirstHit(v', user, snapshot, r)
        ensures Finds(VersionEntries(v'), user, snapshot, r)
      {
        HeldHitIsNewest(v, c, smallest, outputs, v', user, snapshot, r);
      }
    } else {
      var f, g, y :| f in v.files[c.level] && f !in c.inputs0 && g in c.inputs0 && Continues(g, f)
                     && y in InputEntries(c) && y.key.user == f.smallest.user && Told(v, smallest, y)
                     && !Obsolete(v, c.level, smallest, y);
      SomethingToldPasses(v, c, smallest, outputs, v', f, g, y);
    }
  }

  lemma SomethingToldPasses(v: Version, c: CompactionInputs, smallest: SequenceNumber, outputs: seq<FileMeta>,
                            v': Version, f: FileMeta, g: FileMeta, y: Entry)
    requires WellFormed(v) && WellFormed(v') && ByAge(v) && ChosenInputs(v, c) && DistinctSequences(VersionEntries(v))
    requires Written(v, c, smallest, outputs) && Installed(v, c, outputs, v')
    requires f in v.files[c.level] && f !in c.inputs0 && g in c.inputs0 && Continues(g, f)
    requires y in InputEntries(c) && y.key.user == f.smallest.user && Told(v, smallest, y)
    requires !Obsolete(v, c.level, smallest, y)
    ensures !HeldLookupsAreExact(v', smallest)
  {
    AboveLevelZero(v, c, f, g);
    var h, t := ToldAbove(v, c, smallest, f, g, y);
    var input :| Merged(c, input) && Contents(outputs) == Survivors(v, c.level, smallest, input, |input|);
    assert t in input;
    ToldSurvives(v, c, smallest, input, t);
    InContents(outputs);
    var o :| o in outputs && t in o.entries;
    var x := f.entries[0];
    assert x in f.entries;
    ToldIsOvertaken(v, c, smallest, outputs, v', f, x, h, o, t);
  }

  lemma HeldHitIsNewest(v: Version, c: CompactionInputs, smallest: SequenceNumber, outputs: seq<FileMeta>, v': Version,
                        user: UserKey, snapshot: SequenceNumber, r: Option<Entry>)
    requires WellFormed(v) && WellFormed(v') && ByAge(v) && ChosenInputs(v, c) && DistinctKeys(VersionEntries(v))
    requires Written(v, c, smallest, outputs) && Installed(v, c, outputs, v') && smallest <= snapshot
    requires NothingToldPasses(v, c, smallest) && FirstHit(v', user, snapshot, r)
    ensures Finds(VersionEntries(v'), user, snapshot, r)
  {
    if r.Some? {
      var l :| 0 <= l < NumLevels && NoneAbove(v', l, user, snapshot)
               && AnswersLevel(v'.files[l], l, user, snapshot, r.value);
      var f := HitFile(v', l, user, snapshot, r.value);
      assert r.value in VersionEntries(v') && Visible(r.value, user, snapshot);
      var w := FindsExists(VersionEntries(v'), user, snapshot);
      if Tag(w.value.key) > Tag(r.value.key) {
        WrittenIsDrawn(v, c, smallest, outputs);
        var left, h := WrongHitPasses(v, c, outputs, v', user, snapshot, l, r.value, w.value);
        WrongHitBreaks(v, c, smallest, outputs, v', user, snapshot, w.value, left, h);
      }
    }
  }

  // Trivial moves

  /** No file is left behind that goes on with a user key of which the moved file holds what
      some reader is told. */
  ghost predicate NothingToldMoves(v: Version, c: CompactionInputs, smallest: SequenceNumber)
    requires |v.files| == NumLevels && c.level + 1 < NumLevels
  {
    forall f, g, y {:trigger Continues(g, f), Told(v, smallest, y)} ::
      f in v.files[c.level] && f !in c.inputs0 && g in c.inputs0 && Continues(g, f)
      && y in g.entries && y.key.user == f.smallest.user ==>
        !Told(v, smallest, y)
  }

  lemma HeldMoveHitIsNewest(v: Version, c: CompactionInputs, smallest: SequenceNumber, v': Version,
                            user: UserKey, snapshot: SequenceNumber, r: Option<Entry>)
    requires WellFormed(v) && WellFormed(v') && ByAge(v) && ChosenInputs(v, c) && |c.inputs0| == 1
    requires Drawn(c, c.inputs0) && Installed(v, c, c.inputs0, v') && VersionEntries(v') == VersionEntries(v)
    requires smallest <= snapshot && NothingToldMoves(v, c, smallest) && FirstHit(v', user, snapshot, r)
    ensures Finds(VersionEntries(v'), user, snapshot, r)
  {
    if r.Some? {
      var l :| 0 <= l < NumLevels && NoneAbove(v', l, user, snapshot)
               && AnswersLevel(v'.files[l], l, user, snapshot, r.value);
      var f := HitFile(v', l, user, snapshot, r.value);
      assert r.value in VersionEntries(v') && Visible(r.value, user, snapshot);
      var w := FindsExists(VersionEntries(v'), user, snapshot);
      if Tag(w.value.key) > Tag(r.value.key) {
        var left, h := WrongHitPasses(v, c, c.inputs0, v', user, snapshot, l, r.value, w.value);
        assert Told(v, smallest, w.value) && Continues(h, left);
      }
    }
  }

  /** After a trivial move the lookups at the snapshots readers hold are exact if and only if
      the moved file ends with nothing that such a reader is told, or is not continued. */
  lemma MoveIsExactForHeldIff(v: Version, c: CompactionInputs, smallest: SequenceNumber, v': Version)
    requires WellFormed(v) && ByAge(v) && ChosenInputs(v, c) && |c.inputs0| == 1 && c.inputs1 == []
    requires Installed(v, c, c.inputs0, v') && DistinctSequences(VersionEntries(v))
    ensures HeldLookupsAreExact(v', smallest) <==> NothingToldMoves(v, c, smallest)
  {
    MovedFileIsDrawn(v, c);
    InstallKeepsShape(v, c, c.inputs0, v');
    MoveKeepsEntries(v, c, v');
    if NothingToldMoves(v, c, smallest) {
      forall user, snapshot, r | smallest <= snapshot && FirstHit(v', user, snapshot, r)
        ensures Finds(VersionEntries(v'), user, snapshot, r)
      {
        HeldMoveHitIsNewest(v, c, smallest, v', user, snapshot, r);
      }
    } else {
      var f, g, y :| f in v.files[c.level] && f !in c.inputs0 && g in c.inputs0 && Continues(g, f)
                     && y in g.entries && y.key.user == f.smallest.user && Told(v, smallest, y);
      ToldMoves(v, c, smallest, v', f, g, y);
    }
  }

  lemma MoveKeepsEntries(v: Version, c: CompactionInputs, v': Version)
    requires WellFormed(v) && ChosenInputs(v, c) && |c.inputs0| == 1 && c.inputs1 == []
    requires Installed(v, c, c.inputs0, v')
    ensures VersionEntries(v') == VersionEntries(v)
  {
    MovedFileIsDrawn(v, c);
    assert c.(inputs1 := []) == c;
    EntriesBefore(v, c, c.inputs0[0].entries);
    EntriesAfter(v, c, c.inputs0, v');
  }

  lemma ToldMoves(v: Version, c: CompactionInputs, smallest: SequenceNumber, v': Version,
                  f: FileMeta, g: FileMeta, y: Entry)
    requires WellFormed(v) && WellFormed(v') && ByAge(v) && ChosenInputs(v, c) && DistinctSequences(VersionEntries(v))
    requires Installed(v, c, c.inputs0, v')
    requires f in v.files[c.level] && f !in c.inputs0 && g in c.inputs0 && Continues(g, f)
    requires y in g.entries && y.key.user == f.smallest.user && Told(v, smallest, y)
    ensures !HeldLookupsAreExact(v', smallest)
  {
    AboveLevelZero(v, c, f, g);
    assert g in v.files[c.level];
    var x := f.entries[0];
    assert x in f.entries;
    SmallestToLargest(g, y);
    ToldIsOvertaken(v, c, smallest, c.inputs0, v', f, x, g, g, y);
  }
}
