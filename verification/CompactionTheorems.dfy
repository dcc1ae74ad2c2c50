/** What a compaction keeps: the answers of every reader, and the shape and age order of
    the levels (db/db_impl.cc InstallCompactionResults, db/version_set.cc SaveTo). */
module CompactionTheorems {
  import opened Keys
  import opened Versions
  import opened Picking
  import opened Compactions

  lemma {:induction false} SurvivorsAre(v: Version, level: nat, smallest: SequenceNumber, input: seq<Entry>, n: nat)
    requires |v.files| == NumLevels && n <= |input|
    ensures forall e :: e in Survivors(v, level, smallest, input, n) <==>
                          exists i :: 0 <= i < n && input[i] == e && !Dropped(v, level, smallest, input, i)
  {
    if n > 0 {
      SurvivorsAre(v, level, smallest, input, n - 1);
    }
  }

  lemma {:induction false} SurvivorsStaySorted(v: Version, level: nat, smallest: SequenceNumber, input: seq<Entry>,
                                               n: nat)
    requires |v.files| == NumLevels && n <= |input| && Sorted(input)
    ensures Sorted(Survivors(v, level, smallest, input, n))
  {
    if n > 0 {
      SurvivorsStaySorted(v, level, smallest, input, n - 1);
      SurvivorsAre(v, level, smallest, input, n - 1);
      var before := Survivors(v, level, smallest, input, n - 1);
      assert forall i :: 0 <= i < |before| ==> before[i] in before;
    }
  }

  /** Entries of one user key are adjacent in a sorted run, so everything after a hidden
      or obsolete entry of that key is hidden too. */
  lemma {:induction false} LaterEntriesAreHidden(smallest: SequenceNumber, input: seq<Entry>, i: nat, j: nat)
    requires Sorted(input) && i < j < |input|
    requires input[i].key.user == input[j].key.user && input[i].key.sequence <= smallest
    ensures Hidden(smallest, input, j)
  {
    assert Less(input[i].key, input[j].key);
    if i < j - 1 {
      assert Less(input[i].key, input[j - 1].key);
      assert Less(input[j - 1].key, input[j].key);
    }
  }

  /** A dropped entry that was the answer was an obsolete deletion, and no other input of its
      user key that a reader could see survives. */
  lemma {:induction false} DroppedAnswer(v: Version, level: nat, smallest: SequenceNumber, input: seq<Entry>,
                                         rest: set<Entry>, user: UserKey, snapshot: SequenceNumber, n: Entry)
    requires |v.files| == NumLevels && Sorted(input) && smallest <= snapshot
    requires IsNewest(rest + EntriesOf(input), user, snapshot, n)
    requires n in input && n !in Survivors(v, level, smallest, input, |input|)
    ensures Obsolete(v, level, smallest, n)
    ensures forall x :: x in Survivors(v, level, smallest, input, |input|) ==> !Visible(x, user, snapshot)
  {
    var i :| 0 <= i < |input| && input[i] == n;
    SurvivorsAre(v, level, smallest, input, |input|);
    assert i > 0 ==> input[i - 1] in EntriesOf(input) && Less(input[i - 1].key, n.key);
    assert !Hidden(smallest, input, i);
    forall x | x in Survivors(v, level, smallest, input, |input|)
      ensures !Visible(x, user, snapshot)
    {
      if Visible(x, user, snapshot) {
        var j :| 0 <= j < |input| && input[j] == x && !Dropped(v, level, smallest, input, j);
        assert x in EntriesOf(input) && Tag(x.key) <= Tag(n.key);
        if i < j {
          LaterEntriesAreHidden(smallest, input, i, j);
        }
      }
    }
  }

  /** A dropped entry that was the answer was a deletion, and nothing older shows through. */
  lemma {:induction false} DroppedAnswerStaysAbsent(v: Version, level: nat, smallest: SequenceNumber, input: seq<Entry>,
                                                    rest: set<Entry>, user: UserKey, snapshot: SequenceNumber, n: Entry)
    requires |v.files| == NumLevels && Sorted(input) && smallest <= snapshot
    requires forall x :: Obsolete(v, level, smallest, n) && x in rest && x.key.user == n.key.user ==>
                           Tag(x.key) > Tag(n.key)
    requires IsNewest(rest + EntriesOf(input), user, snapshot, n)
    requires n in input && n !in Survivors(v, level, smallest, input, |input|)
    ensures n.key.kind.Deletion?
    ensures Finds(rest + EntriesOf(Survivors(v, level, smallest, input, |input|)), user, snapshot, None)
  {
    DroppedAnswer(v, level, smallest, input, rest, user, snapshot, n);
    assert forall x :: x in rest ==> !Visible(x, user, snapshot);
  }

  /** Sets `a` and `h` answer every reader from `floor` up alike. */
  ghost predicate SameMeaning(a: set<Entry>, h: set<Entry>, floor: SequenceNumber) {
    forall user, snapshot, x, y ::
      floor <= snapshot && Finds(a, user, snapshot, x) && Finds(h, user, snapshot, y) ==> Meaning(x) == Meaning(y)
  }

  /** No entry outside the compaction is older than a tombstone it may drop. */
  ghost predicate NothingOlderOutside(v: Version, level: nat, smallest: SequenceNumber, input: seq<Entry>,
                                      rest: set<Entry>)
    requires |v.files| == NumLevels
  {
    forall e, x :: e in input && Obsolete(v, level, smallest, e) && x in rest && x.key.user == e.key.user ==>
                     Tag(x.key) > Tag(e.key)
  }

  /** Compaction preserves meaning.  `rest` is every entry that is not an input. */
  lemma {:induction false} SurvivorsKeepMeaning(v: Version, level: nat, smallest: SequenceNumber, input: seq<Entry>,
                                                rest: set<Entry>, user: UserKey, snapshot: SequenceNumber,
                                                before: Option<Entry>, after: Option<Entry>)
    requires |v.files| == NumLevels && Sorted(input) && smallest <= snapshot
    requires DistinctKeys(rest + EntriesOf(input))
    requires NothingOlderOutside(v, level, smallest, input, rest)
    requires Finds(rest + EntriesOf(input), user, snapshot, before)
    requires Finds(rest + EntriesOf(Survivors(v, level, smallest, input, |input|)), user, snapshot, after)
    ensures Meaning(before) == Meaning(after)
  {
    var kept := EntriesOf(Survivors(v, level, smallest, input, |input|));
    SurvivorsAre(v, level, smallest, input, |input|);
    assert kept <= EntriesOf(input);
    if before.None? {
      assert after.None?;
    } else if before.value in rest + kept {
      assert IsNewest(rest + kept, user, snapshot, before.value);
      FindsIsFunctional(rest + kept, user, snapshot, before, after);
    } else {
      DroppedAnswerStaysAbsent(v, level, smallest, input, rest, user, snapshot, before.value);
      FindsIsFunctional(rest + kept, user, snapshot, None, after);
    }
  }

  /** The files of a level after SaveTo: `files` without repeats, by smallest key. */
  ghost predicate Saved(level: seq<FileMeta>, files: set<FileMeta>) {
    && (forall f :: f in level <==> f in files)
    && (forall i, j :: 0 <= i < j < |level| ==> level[i] != level[j] && !Less(level[j].smallest, level[i].smallest))
  }

  /** Version `v'` is `v` with the inputs of `c` replaced by `outputs`. */
  ghost predicate Installed(v: Version, c: CompactionInputs, outputs: seq<FileMeta>, v': Version)
    requires |v.files| == NumLevels && c.level + 1 < NumLevels
  {
    && |v'.files| == NumLevels
    && (forall l :: 0 <= l < NumLevels && l != c.level && l != c.level + 1 ==> v'.files[l] == v.files[l])
    && Saved(v'.files[c.level], Others(v.files[c.level], c.inputs0))
    && Saved(v'.files[c.level + 1], NextLevel(v, c, outputs))
  }

  ghost function Others(files: seq<FileMeta>, inputs: seq<FileMeta>): set<FileMeta> {
    set f | f in files && f !in inputs
  }

  /** The merged input of a compaction: every entry of its files, in key order. */
  ghost predicate Merged(c: CompactionInputs, input: seq<Entry>) {
    && Sorted(input)
    && forall e :: e in input <==> exists f :: (f in c.inputs0 || f in c.inputs1) && e in f.entries
  }

  ghost function Contents(outputs: seq<FileMeta>): seq<Entry> {
    if outputs == [] then [] else Contents(outputs[..|outputs| - 1]) + outputs[|outputs| - 1].entries
  }

  /** The tables a run of DoCompactionWork leaves behind. */
  ghost predicate Written(v: Version, c: CompactionInputs, smallest: SequenceNumber, outputs: seq<FileMeta>)
    requires |v.files| == NumLevels
  {
    && ValidFiles(outputs)
    && exists input :: Merged(c, input) && Contents(outputs) == Survivors(v, c.level, smallest, input, |input|)
  }

  lemma {:induction false} InContents(outputs: seq<FileMeta>)
    ensures forall e :: e in Contents(outputs) <==> exists o :: o in outputs && e in o.entries
  {
    if outputs != [] {
      var init, last := outputs[..|outputs| - 1], outputs[|outputs| - 1];
      InContents(init);
      assert outputs == init + [last];
      forall e
        ensures e in Contents(outputs) <==> exists o :: o in outputs && e in o.entries
      {
        if e in Contents(init) {
          var o :| o in init && e in o.entries;
          assert o in outputs;
        }
        if e in last.entries {
          assert last in outputs;
        }
        if o :| o in outputs && e in o.entries {
          assert o in init || o == last;
        }
      }
    }
  }

  /** Tables whose entries, in order, all come from the inputs: the outputs of a
      compaction, or the file a trivial move carries down. */
  ghost predicate Drawn(c: CompactionInputs, outputs: seq<FileMeta>) {
    && ValidFiles(outputs)
    && KeyDisjoint(outputs)
    && forall o, e :: o in outputs && e in o.entries ==> FromInputs(c, e)
  }

  ghost predicate FromInputs(c: CompactionInputs, e: Entry) {
    exists f :: (f in c.inputs0 || f in c.inputs1) && e in f.entries
  }

  /** Every entry a compaction writes came from one of its inputs. */
  lemma WrittenIsDrawn(v: Version, c: CompactionInputs, smallest: SequenceNumber, outputs: seq<FileMeta>)
    requires |v.files| == NumLevels && Written(v, c, smallest, outputs)
    ensures Drawn(c, outputs)
  {
    var input :| Merged(c, input) && Contents(outputs) == Survivors(v, c.level, smallest, input, |input|);
    SurvivorsAre(v, c.level, smallest, input, |input|);
    SurvivorsStaySorted(v, c.level, smallest, input, |input|);
    OutputsInOrder(outputs);
    InContents(outputs);
    forall o, e | o in outputs && e in o.entries
      ensures FromInputs(c, e)
    {
      assert e in Contents(outputs);
      assert e in input;
    }
  }

  /** Where an entry of the new version was before: at the same level, or moved down from
      the compacted level. */
  lemma Origin(v: Version, c: CompactionInputs, outputs: seq<FileMeta>, v': Version,
               l: nat, f: FileMeta, e: Entry) returns (f': FileMeta, l': nat)
    requires WellFormed(v) && ChosenInputs(v, c)
    requires Drawn(c, outputs) && Installed(v, c, outputs, v')
    requires l < NumLevels && f in v'.files[l] && e in f.entries
    ensures l' < NumLevels && f' in v.files[l'] && e in f'.entries
    ensures (l' == l && (f' == f || (l == c.level + 1 && f' in c.inputs1)))
            || (l == c.level + 1 && l' == c.level && f' in c.inputs0 && f in outputs)
    ensures l == c.level ==> f' == f && f !in c.inputs0
    ensures f' == f && l == c.level + 1 ==> f !in c.inputs1 || f in outputs
  {
    f', l' := f, l;
    if l == c.level + 1 && f in outputs {
      assert FromInputs(c, e);
      f' :| (f' in c.inputs0 || f' in c.inputs1) && e in f'.entries;
      l' := if f' in c.inputs1 then l else c.level;
    }
  }

  /** What stays at the compacted level is newer than what moves below it. */
  ghost predicate LeftAbove(v: Version, c: CompactionInputs, outputs: seq<FileMeta>)
    requires |v.files| == NumLevels && c.level < NumLevels
  {
    forall f, o {:trigger Newer(f, o)} ::
      f in v.files[c.level] && f !in c.inputs0 && o in outputs ==> Newer(f, o)
  }

  /** The age order survives an install if and only if nothing newer passes below something
      older. */
  lemma InstallKeepsAgeIff(v: Version, c: CompactionInputs, outputs: seq<FileMeta>, v': Version)
    requires WellFormed(v) && ByAge(v) && ChosenInputs(v, c)
    requires Drawn(c, outputs) && Installed(v, c, outputs, v')
    ensures ByAge(v') <==> LeftAbove(v, c, outputs)
  {
    if LeftAbove(v, c, outputs) {
      forall a, b, f, g | 0 <= a < b < NumLevels && f in v'.files[a] && g in v'.files[b]
        ensures Newer(f, g)
      {
        NewerAfterInstall(v, c, outputs, v', a, b, f, g);
      }
    }
    if ByAge(v') {
      forall f, o | f in v.files[c.level] && f !in c.inputs0 && o in outputs
        ensures Newer(f, o)
      {
        assert f in v'.files[c.level] && o in v'.files[c.level + 1];
      }
    }
  }

  /** Installing a cleanly cut compaction keeps the age order of the levels. */
  lemma InstallKeepsAge(v: Version, c: CompactionInputs, outputs: seq<FileMeta>, v': Version)
    requires WellFormed(v) && ByAge(v) && ChosenInputs(v, c) && CleanCut(v, c)
    requires Drawn(c, outputs) && Installed(v, c, outputs, v')
    ensures ByAge(v')
  {
    forall f, o | f in v.files[c.level] && f !in c.inputs0 && o in outputs
      ensures Newer(f, o)
    {
      LeftIsNewer(v, c, outputs, f, o);
    }
    InstallKeepsAgeIff(v, c, outputs, v');
  }

  lemma LeftIsNewer(v: Version, c: CompactionInputs, outputs: seq<FileMeta>, f: FileMeta, o: FileMeta)
    requires |v.files| == NumLevels && ByAge(v) && ChosenInputs(v, c) && CleanCut(v, c) && Drawn(c, outputs)
    requires f in v.files[c.level] && f !in c.inputs0 && o in outputs
    ensures Newer(f, o)
  {
    forall x, y | x in f.entries && y in o.entries && x.key.user == y.key.user
      ensures Tag(x.key) > Tag(y.key)
    {
      assert FromInputs(c, y);
      var g :| (g in c.inputs0 || g in c.inputs1) && y in g.entries;
      assert Newer(f, g);
    }
  }

  lemma NewerAfterInstall(v: Version, c: CompactionInputs, outputs: seq<FileMeta>, v': Version,
                          a: nat, b: nat, f: FileMeta, g: FileMeta)
    requires WellFormed(v) && ByAge(v) && ChosenInputs(v, c) && LeftAbove(v, c, outputs)
    requires Drawn(c, outputs) && Installed(v, c, outputs, v')
    requires a < b < NumLevels && f in v'.files[a] && g in v'.files[b]
    ensures Newer(f, g)
  {
    if a == c.level && b == c.level + 1 && g in outputs {
      assert f in v.files[a] && f !in c.inputs0;
    } else {
      forall x, y | x in f.entries && y in g.entries && x.key.user == y.key.user
        ensures Tag(x.key) > Tag(y.key)
      {
        var f', a' := Origin(v, c, outputs, v', a, f, x);
        var g', b' := Origin(v, c, outputs, v', b, g, y);
        assert Newer(f', g');
      }
    }
  }

  /** Two tables of one compaction hold entries from two places of the surviving run. */
  lemma {:induction false} OutputPositions(outputs: seq<FileMeta>, a: nat, b: nat) returns (p: nat, q: nat)
    requires ValidFiles(outputs) && a < b < |outputs|
    ensures p < q < |Contents(outputs)|
    ensures Contents(outputs)[p].key == outputs[a].largest && Contents(outputs)[q].key == outputs[b].smallest
  {
    var init := outputs[..|outputs| - 1];
    if b < |init| {
      p, q := OutputPositions(init, a, b);
    } else {
      p := LastPosition(init, a);
      q := |Contents(init)|;
    }
  }

  lemma {:induction false} LastPosition(outputs: seq<FileMeta>, a: nat) returns (p: nat)
    requires ValidFiles(outputs) && a < |outputs|
    ensures p < |Contents(outputs)| && Contents(outputs)[p].key == outputs[a].largest
  {
    var init := outputs[..|outputs| - 1];
    if a < |init| {
      p := LastPosition(init, a);
    } else {
      p := |Contents(outputs)| - 1;
    }
  }

  /** No user key occurs twice. */
  ghost predicate OnePerUser(es: seq<Entry>) {
    forall i, j :: 0 <= i < j < |es| ==> es[i].key.user != es[j].key.user
  }

  lemma {:induction false} OutputsInOrder(outputs: seq<FileMeta>)
    requires ValidFiles(outputs) && Sorted(Contents(outputs))
    ensures KeyDisjoint(outputs)
    ensures OnePerUser(Contents(outputs)) ==> UserDisjoint(outputs)
  {
    forall a, b | 0 <= a < b < |outputs|
      ensures Less(outputs[a].largest, outputs[b].smallest)
      ensures OnePerUser(Contents(outputs)) ==> outputs[a].largest.user < outputs[b].smallest.user
    {
      var p, q := OutputPositions(outputs, a, b);
    }
  }

  /** With no live snapshot at most one entry per user key survives. */
  lemma {:induction false} NoSnapshotLeavesOnePerUser(v: Version, level: nat, smallest: SequenceNumber,
                                                      input: seq<Entry>)
    requires |v.files| == NumLevels && Sorted(input)
    requires forall e :: e in input ==> e.key.sequence <= smallest
    ensures OnePerUser(Survivors(v, level, smallest, input, |input|))
  {
    var kept := Survivors(v, level, smallest, input, |input|);
    SurvivorsAre(v, level, smallest, input, |input|);
    SurvivorsStaySorted(v, level, smallest, input, |input|);
    forall a, b | 0 <= a < b < |kept|
      ensures kept[a].key.user != kept[b].key.user
    {
      assert kept[a] in kept && kept[b] in kept;
      var i :| 0 <= i < |input| && input[i] == kept[a];
      var j :| 0 <= j < |input| && input[j] == kept[b] && !Dropped(v, level, smallest, input, j);
      assert i < j;
      if kept[a].key.user == kept[b].key.user {
        LaterEntriesAreHidden(smallest, input, i, j);
      }
    }
  }

  ghost predicate KeyApart(f: FileMeta, g: FileMeta) {
    Less(f.largest, g.smallest) || Less(g.largest, f.smallest)
  }

  /** A file of the next level that was left out lies on one side of every input. */
  lemma LeftOutIsOutside(v: Version, c: CompactionInputs, r: FileMeta, f: FileMeta)
    requires WellFormed(v) && ChosenInputs(v, c)
    requires r in v.files[c.level + 1] && r !in c.inputs1
    requires f in c.inputs0 || f in c.inputs1
    ensures r.largest.user < c.smallest.user || c.largest.user < r.smallest.user
    ensures r.largest.user < c.smallest.user ==> Less(r.largest, f.smallest)
    ensures c.largest.user < r.smallest.user ==> Less(f.largest, r.smallest)
    ensures UserDisjoint(v.files[c.level + 1]) ==>
              && (r.largest.user < c.smallest.user ==> r.largest.user < f.smallest.user)
              && (c.largest.user < r.smallest.user ==> f.largest.user < r.smallest.user)
  {
    var next := v.files[c.level + 1];
    HullUsers(c.inputs0, c.smallest, c.largest);
    if f !in c.inputs0 {
      var i :| 0 <= i < |next| && next[i] == r;
      var j :| 0 <= j < |next| && next[j] == f;
      SmallestToLargest(r, r.entries[0]);
      SmallestToLargest(f, f.entries[0]);
      assert i < j || j < i;
    }
  }

  lemma EntryIsOutside(v: Version, c: CompactionInputs, r: FileMeta, e: Entry)
    requires WellFormed(v) && ChosenInputs(v, c) && FromInputs(c, e)
    requires r in v.files[c.level + 1] && r !in c.inputs1
    ensures r.largest.user < c.smallest.user || c.largest.user < r.smallest.user
    ensures r.largest.user < c.smallest.user ==> Less(r.largest, e.key)
    ensures c.largest.user < r.smallest.user ==> Less(e.key, r.smallest)
    ensures UserDisjoint(v.files[c.level + 1]) ==>
              && (r.largest.user < c.smallest.user ==> r.largest.user < e.key.user)
              && (c.largest.user < r.smallest.user ==> e.key.user < r.smallest.user)
  {
    var f :| (f in c.inputs0 || f in c.inputs1) && e in f.entries;
    InputIsValid(v, c, f);
    SmallestToLargest(f, e);
    LeftOutIsOutside(v, c, r, f);
  }

  lemma LeftOutIsApart(v: Version, c: CompactionInputs, outputs: seq<FileMeta>, r: FileMeta, o: FileMeta)
    requires WellFormed(v) && ChosenInputs(v, c) && Drawn(c, outputs)
    requires r in v.files[c.level + 1] && r !in c.inputs1 && o in outputs
    ensures KeyApart(r, o)
    ensures UserDisjoint(v.files[c.level + 1]) ==> Apart(r, o)
  {
    var first, last := o.entries[0], o.entries[|o.entries| - 1];
    assert first in o.entries && last in o.entries;
    EntryIsOutside(v, c, r, first);
    EntryIsOutside(v, c, r, last);
  }

  lemma InputIsValid(v: Version, c: CompactionInputs, f: FileMeta)
    requires WellFormed(v) && ChosenInputs(v, c) && (f in c.inputs0 || f in c.inputs1)
    ensures ValidFile(f)
  {
    if f in c.inputs0 {
      assert f in v.files[c.level];
    } else {
      assert f in v.files[c.level + 1];
    }
  }

  /** Files in order of smallest key that are pairwise apart are disjoint in order. */
  lemma SavedInOrder(level: seq<FileMeta>, files: set<FileMeta>)
    requires Saved(level, files) && forall f :: f in files ==> ValidFile(f)
    ensures ValidFiles(level)
    ensures (forall f, g :: f in files && g in files && f != g ==> KeyApart(f, g)) ==> KeyDisjoint(level)
    ensures (forall f, g :: f in files && g in files && f != g ==> Apart(f, g)) ==> UserDisjoint(level)
  {
    forall i, j | 0 <= i < j < |level|
      ensures ValidFile(level[i])
      ensures KeyApart(level[i], level[j]) ==> Less(level[i].largest, level[j].smallest)
      ensures Apart(level[i], level[j]) ==> level[i].largest.user < level[j].smallest.user
    {
      assert level[i] in files && level[j] in files;
      SmallestToLargest(level[i], level[i].entries[0]);
      SmallestToLargest(level[j], level[j].entries[0]);
    }
  }

  /** The files of the next level after a compaction. */
  ghost function NextLevel(v: Version, c: CompactionInputs, outputs: seq<FileMeta>): set<FileMeta>
    requires |v.files| == NumLevels && c.level + 1 < NumLevels
  {
    Others(v.files[c.level + 1], c.inputs1) + set o | o in outputs
  }

  lemma NextLevelApart(v: Version, c: CompactionInputs, outputs: seq<FileMeta>, f: FileMeta, g: FileMeta)
    requires WellFormed(v) && ChosenInputs(v, c) && Drawn(c, outputs)
    requires f in NextLevel(v, c, outputs) && g in NextLevel(v, c, outputs) && f != g
    ensures KeyApart(f, g)
    ensures UserDisjoint(v.files[c.level + 1]) && UserDisjoint(outputs) ==> Apart(f, g)
  {
    if f in outputs && g !in outputs {
      LeftOutIsApart(v, c, outputs, g, f);
    } else if g in outputs && f !in outputs {
      LeftOutIsApart(v, c, outputs, f, g);
    }
  }

  /** The next level stays sorted and disjoint, in user keys too unless the outputs
      themselves split a user key. */
  lemma NextLevelKeepsShape(v: Version, c: CompactionInputs, outputs: seq<FileMeta>, next: seq<FileMeta>)
    requires WellFormed(v) && ChosenInputs(v, c) && Drawn(c, outputs)
    requires Saved(next, NextLevel(v, c, outputs))
    ensures ValidFiles(next) && KeyDisjoint(next)
    ensures UserDisjoint(v.files[c.level + 1]) && UserDisjoint(outputs) ==> UserDisjoint(next)
  {
    forall f, g | f in NextLevel(v, c, outputs) && g in NextLevel(v, c, outputs) && f != g
      ensures KeyApart(f, g)
      ensures UserDisjoint(v.files[c.level + 1]) && UserDisjoint(outputs) ==> Apart(f, g)
    {
      NextLevelApart(v, c, outputs, f, g);
    }
    SavedInOrder(next, NextLevel(v, c, outputs));
  }

  lemma ShrunkLevelKeepsShape(files: seq<FileMeta>, inputs: seq<FileMeta>, files': seq<FileMeta>)
    requires ValidFiles(files) && Saved(files', Others(files, inputs))
    ensures ValidFiles(files')
    ensures KeyDisjoint(files) ==> KeyDisjoint(files')
    ensures UserDisjoint(files) ==> UserDisjoint(files')
    ensures DistinctNumbers(files) ==> DistinctNumbers(files')
  {
    SavedInOrder(files', Others(files, inputs));
    forall i, j | 0 <= i < j < |files'|
      ensures DistinctNumbers(files) ==> files'[i].number != files'[j].number
    {
      assert files'[i] in Others(files, inputs) && files'[j] in Others(files, inputs);
    }
  }

  /** Installing a compaction keeps the shape of every level. */
  lemma InstallKeepsShape(v: Version, c: CompactionInputs, outputs: seq<FileMeta>, v': Version)
    requires WellFormed(v) && ChosenInputs(v, c)
    requires Drawn(c, outputs) && Installed(v, c, outputs, v')
    ensures WellFormed(v')
    ensures (forall l :: 1 <= l < NumLevels ==> UserDisjoint(v.files[l])) && UserDisjoint(outputs) ==>
              forall l :: 1 <= l < NumLevels ==> UserDisjoint(v'.files[l])
  {
    NextLevelKeepsShape(v, c, outputs, v'.files[c.level + 1]);
    ShrunkLevelKeepsShape(v.files[c.level], c.inputs0, v'.files[c.level]);
  }

  /** The entries of the version that no input of the compaction holds. */
  ghost function Untouched(v: Version, c: CompactionInputs): set<Entry>
    requires |v.files| == NumLevels
  {
    set l, f, e | 0 <= l < NumLevels && f in v.files[l] && !IsInput(c, l, f) && e in f.entries :: e
  }

  ghost predicate IsInput(c: CompactionInputs, l: nat, f: FileMeta) {
    (l == c.level && f in c.inputs0) || (l == c.level + 1 && f in c.inputs1)
  }

  lemma EntriesBefore(v: Version, c: CompactionInputs, input: seq<Entry>)
    requires WellFormed(v) && ChosenInputs(v, c) && Merged(c, input)
    ensures VersionEntries(v) == Untouched(v, c) + EntriesOf(input)
  {
    forall e | e in VersionEntries(v)
      ensures e in Untouched(v, c) + EntriesOf(input)
    {
      var l, f :| 0 <= l < NumLevels && f in v.files[l] && e in f.entries;
      assert IsInput(c, l, f) ==> e in input;
    }
    forall e | e in input
      ensures e in VersionEntries(v)
    {
      var f :| (f in c.inputs0 || f in c.inputs1) && e in f.entries;
      assert f in v.files[c.level] || f in v.files[c.level + 1];
    }
  }

  lemma {:induction false} EntriesAfter(v: Version, c: CompactionInputs, outputs: seq<FileMeta>, v': Version)
    requires WellFormed(v) && ChosenInputs(v, c) && Installed(v, c, outputs, v')
    ensures VersionEntries(v') == Untouched(v, c) + EntriesOf(Contents(outputs))
  {
    InContents(outputs);
    forall e | e in VersionEntries(v')
      ensures e in Untouched(v, c) + EntriesOf(Contents(outputs))
    {
      var l, f :| 0 <= l < NumLevels && f in v'.files[l] && e in f.entries;
      if l == c.level + 1 && f in outputs {
        assert e in Contents(outputs);
      } else {
        assert f in v.files[l] && !IsInput(c, l, f);
      }
    }
    forall e | e in Untouched(v, c)
      ensures e in VersionEntries(v')
    {
      var l, f :| 0 <= l < NumLevels && f in v.files[l] && !IsInput(c, l, f) && e in f.entries;
      assert f in v'.files[l];
    }
    forall e | e in Contents(outputs)
      ensures e in VersionEntries(v')
    {
      var o :| o in outputs && e in o.entries;
      assert o in v'.files[c.level + 1];
    }
  }

  /** `g` is an input, and `f` a file left at its level that goes on with its last user key. */
  ghost predicate LeftBehind(v: Version, c: CompactionInputs, g: FileMeta, f: FileMeta)
    requires |v.files| == NumLevels && c.level + 1 < NumLevels
  {
    && Continues(g, f)
    && ((g in c.inputs0 && f in v.files[c.level] && f !in c.inputs0)
        || (g in c.inputs1 && f in v.files[c.level + 1] && f !in c.inputs1))
  }

  /** An untouched entry for the user key of an obsolete tombstone is newer than it, unless it
      is in a file left behind. */
  lemma UntouchedIsNewer(v: Version, c: CompactionInputs, smallest: SequenceNumber, g: FileMeta, e: Entry, x: Entry)
    requires WellFormed(v) && ByAge(v) && ChosenInputs(v, c)
    requires (g in c.inputs0 || g in c.inputs1) && e in g.entries && Obsolete(v, c.level, smallest, e)
    requires x in Untouched(v, c) && x.key.user == e.key.user
    ensures Tag(x.key) > Tag(e.key) || exists f :: LeftBehind(v, c, g, f) && x in f.entries
  {
    var l, f :| 0 <= l < NumLevels && f in v.files[l] && !IsInput(c, l, f) && x in f.entries;
    var k := if g in c.inputs0 then c.level else c.level + 1;
    assert g in v.files[k];
    if l < k {
      assert Newer(f, g);
    } else if l == k {
      BesideIsNewer(v, c, g, f);
    } else {
      NoneBelow(v, c, g, e, k, l, f, x);
    }
  }

  /** Below an input that holds an entry of a base level, no other file has its user key. */
  lemma NoneBelow(v: Version, c: CompactionInputs, g: FileMeta, e: Entry, k: nat, l: nat, f: FileMeta, x: Entry)
    requires WellFormed(v) && ChosenInputs(v, c) && e in g.entries && BaseLevel(v, c.level, e.key.user)
    requires if k == c.level then g in c.inputs0 else k == c.level + 1 && g in c.inputs1
    requires k < l < NumLevels && f in v.files[l] && !IsInput(c, l, f) && x in f.entries
    ensures x.key.user != e.key.user
  {
    SmallestToLargest(f, x);
    if l < c.level + 2 {
      InputIsValid(v, c, g);
      SmallestToLargest(g, e);
      LeftOutIsOutside(v, c, f, g);
      HullUsers(c.inputs0, c.smallest, c.largest);
    }
  }

  /** A file left at an input's level is newer than the input, unless it is left behind. */
  lemma BesideIsNewer(v: Version, c: CompactionInputs, g: FileMeta, f: FileMeta)
    requires WellFormed(v) && ByAge(v) && ChosenInputs(v, c)
    requires (g in c.inputs0 && f in v.files[c.level] && f !in c.inputs0)
             || (g !in c.inputs0 && g in c.inputs1 && f in v.files[c.level + 1] && f !in c.inputs1)
    ensures Newer(f, g) <==> !LeftBehind(v, c, g, f)
  {
    if g !in c.inputs0 {
      NewerUnlessContinues(v.files[c.level + 1], f, g);
    } else if c.level > 0 {
      NewerUnlessContinues(v.files[c.level], f, g);
    } else {
      assert Apart(f, g);
      ApartIsNewer(f, g);
    }
  }

  /** Where no file is left behind, no input is followed by one. */
  lemma ClearLeavesNoneBehind(v: Version, c: CompactionInputs, g: FileMeta, f: FileMeta)
    requires WellFormed(v) && ChosenInputs(v, c) && ClearBoundary(v, c)
    ensures !LeftBehind(v, c, g, f)
  {
    assert c.level == 0 && f in v.files[0] && f !in c.inputs0 && g in c.inputs0 ==> Apart(f, g);
  }

  /** Every entry of any memtable is newer than every table entry of its user key. */
  ghost predicate MemoryIsNewer(memory: set<Entry>, v: Version)
    requires |v.files| == NumLevels
  {
    forall x, y :: x in memory && y in VersionEntries(v) && x.key.user == y.key.user ==> Tag(x.key) > Tag(y.key)
  }

  lemma CleanLeavesNoneBehind(v: Version, c: CompactionInputs, g: FileMeta)
    requires WellFormed(v) && ChosenInputs(v, c) && CleanCut(v, c)
    ensures forall f :: !LeftBehind(v, c, g, f)
  {
    CleanCutIffClearBoundary(v, c);
    forall f
      ensures !LeftBehind(v, c, g, f)
    {
      ClearLeavesNoneBehind(v, c, g, f);
    }
  }

  lemma TombstonesAreOldest(v: Version, c: CompactionInputs, smallest: SequenceNumber, input: seq<Entry>,
                            memory: set<Entry>)
    requires WellFormed(v) && ByAge(v) && ChosenInputs(v, c) && CleanCut(v, c) && Merged(c, input)
    requires MemoryIsNewer(memory, v)
    ensures NothingOlderOutside(v, c.level, smallest, input, memory + Untouched(v, c))
  {
    forall e, x | e in input && Obsolete(v, c.level, smallest, e) && x in memory + Untouched(v, c)
                  && x.key.user == e.key.user
      ensures Tag(x.key) > Tag(e.key)
    {
      if x in memory {
        EntriesBefore(v, c, input);
        assert e in VersionEntries(v);
      } else {
        var g :| (g in c.inputs0 || g in c.inputs1) && e in g.entries;
        UntouchedIsNewer(v, c, smallest, g, e, x);
        CleanLeavesNoneBehind(v, c, g);
      }
    }
  }

  lemma {:induction false} EntriesAround(v: Version, c: CompactionInputs, input: seq<Entry>, outputs: seq<FileMeta>,
                                         v': Version, memory: set<Entry>)
    requires WellFormed(v) && ChosenInputs(v, c) && Merged(c, input) && Installed(v, c, outputs, v')
    ensures memory + VersionEntries(v) == memory + Untouched(v, c) + EntriesOf(input)
    ensures memory + VersionEntries(v') == memory + Untouched(v, c) + EntriesOf(Contents(outputs))
  {
    EntriesBefore(v, c, input);
    EntriesAfter(v, c, outputs, v');
  }

  /** Compaction preserves meaning: for every user key, and every snapshot a reader can
      still hold, the database answers the same before and after the install.  `memory`
      stands for the memtables, whose entries are newer than any table's. */
  lemma CompactionKeepsMeaning(v: Version, c: CompactionInputs, smallest: SequenceNumber, outputs: seq<FileMeta>,
                               v': Version, memory: set<Entry>, user: UserKey, snapshot: SequenceNumber,
                               before: Option<Entry>, after: Option<Entry>)
    requires WellFormed(v) && ByAge(v) && ChosenInputs(v, c) && CleanCut(v, c)
    requires Written(v, c, smallest, outputs) && Installed(v, c, outputs, v')
    requires DistinctKeys(memory + VersionEntries(v)) && MemoryIsNewer(memory, v)
    requires smallest <= snapshot
    requires Finds(memory + VersionEntries(v), user, snapshot, before)
    requires Finds(memory + VersionEntries(v'), user, snapshot, after)
    ensures Meaning(before) == Meaning(after)
  {
    var input :| Merged(c, input) && Contents(outputs) == Survivors(v, c.level, smallest, input, |input|);
    TombstonesAreOldest(v, c, smallest, input, memory);
    EntriesAround(v, c, input, outputs, v', memory);
    SurvivorsKeepMeaning(v, c.level, smallest, input, memory + Untouched(v, c), user, snapshot, before, after);
  }

  /** A trivial move carries its one file down as it is. */
  lemma MovedFileIsDrawn(v: Version, c: CompactionInputs)
    requires WellFormed(v) && ChosenInputs(v, c) && |c.inputs0| == 1
    ensures Drawn(c, c.inputs0) && Merged(c.(inputs1 := []), c.inputs0[0].entries)
    ensures Contents(c.inputs0) == c.inputs0[0].entries
  {
    var f := c.inputs0[0];
    assert f in c.inputs0 && f in v.files[c.level];
    assert forall g :: g in c.inputs0 ==> g == f;
    assert forall e: Entry :: e in f.entries ==> FromInputs(c, e);
    assert c.inputs0[..0] == [];
  }
}
