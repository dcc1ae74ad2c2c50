/** The manifest: logging edits, and recovering the file set from them (db/version_set.cc). */
module Manifest {
  import opened Bytes
  import opened Coding
  import opened Keys
  import opened VersionEdits
  import opened Builders

  // One builder for all edits, against one version for each edit

  /** No file of `fs` has a number of `used`, or of another file of `fs`. */
  ghost predicate Fresh(used: set<nat>, fs: seq<Meta>) {
    && (forall i :: 0 <= i < |fs| ==> fs[i].number !in used)
    && (forall i, j :: 0 <= i < j < |fs| ==> fs[i].number != fs[j].number)
  }

  lemma {:induction false} AddsEachFile(rank: Rank, s: LevelState, fs: seq<Meta>)
    requires ValidState(rank, s) && Fresh(Numbers(s.added), fs)
    ensures var r := AddFiles(rank, s, fs);
            && r.deleted == s.deleted - Numbers(fs)
            && (forall f :: f in r.added <==> f in s.added || f in fs)
    decreases |fs|
  {
    if fs != [] {
      var init, last := fs[..|fs| - 1], fs[|fs| - 1];
      assert fs == init + [last];
      AddsEachFile(rank, s, init);
      var before := AddFiles(rank, s, init);
      assert forall g :: g in before.added ==> g.number != last.number by {
        forall g | g in before.added ensures g.number != last.number {
          if g in s.added { assert g.number in Numbers(s.added); }
        }
      }
    }
  }

  /** An edit takes its deletions out of what a builder keeps, and puts its additions in. */
  lemma {:induction false} EditOnBuilder(rank: Rank, base: seq<Meta>, s: LevelState, e: Edit, level: nat)
    requires ValidState(rank, s) && Fresh(Numbers(base) + Numbers(s.added), Added(e.newFiles, level))
    ensures var s', adds := ApplyLevel(rank, s, e, level), Added(e.newFiles, level);
            && Numbers(s'.added) == Numbers(s.added) + Numbers(adds)
            && forall f ::
                Keeps(base, s', f) <==>
                (Keeps(base, s, f) && f.number !in Deleted(e.deletedFiles, level)) || f in adds
  {
    var adds := Added(e.newFiles, level);
    var s0 := LevelState(s.deleted + Deleted(e.deletedFiles, level), s.added);
    AddsEachFile(rank, s0, adds);
    forall f | f in base || f in s.added
      ensures f.number !in Numbers(adds)
    {
      assert f.number in Numbers(base) + Numbers(s.added);
    }
  }

  lemma {:induction false} OrderedIsUnique(rank: Rank, a: seq<Meta>, b: seq<Meta>)
    requires Ordered(rank, a) && Ordered(rank, b)
    requires forall f :: f in a <==> f in b
    ensures a == b
  {
    FileLessIsOrder(rank);
    assert b != [] ==> b[0] in a;
    if a != [] {
      assert a[0] in b && b != [] && b[0] in a;
      assert a[0] == b[0];
      assert forall f :: f in a[1..] <==> f in a && f != a[0];
      assert forall f :: f in b[1..] <==> f in b && f != b[0];
      OrderedIsUnique(rank, a[1..], b[1..]);
    }
  }

  /** What one builder holds of a level after all of `edits`. */
  function LevelAfter(rank: Rank, edits: seq<Edit>, level: nat): (s: LevelState)
    ensures ValidState(rank, s)
  {
    if edits == [] then NoChange
    else ApplyLevel(rank, LevelAfter(rank, edits[..|edits| - 1], level), edits[|edits| - 1], level)
  }

  ghost function UsedNumbers(rank: Rank, edits: seq<Edit>, level: nat): set<nat> {
    Numbers(LevelAfter(rank, edits, level).added)
  }

  /** No (level, number) pair is added twice. */
  ghost predicate AddedOnce(rank: Rank, edits: seq<Edit>, level: nat) {
    forall i :: 0 <= i < |edits| ==> Fresh(UsedNumbers(rank, edits[..i], level), Added(edits[i].newFiles, level))
  }

  /** `r` is what a chain of LogAndApply calls, one for each edit, makes of an empty level. */
  ghost predicate Chained(rank: Rank, edits: seq<Edit>, level: nat, r: seq<Meta>)
    decreases |edits|, 1
  {
    if edits == [] then r == []
    else exists m :: ChainStep(rank, edits, level, m, r)
  }

  ghost predicate ChainStep(rank: Rank, edits: seq<Edit>, level: nat, m: seq<Meta>, r: seq<Meta>)
    requires edits != []
    decreases |edits|, 0
  {
    && Chained(rank, edits[..|edits| - 1], level, m)
    && Saves(rank, m, ApplyLevel(rank, NoChange, edits[|edits| - 1], level), r)
  }

  /** `r` lists, in order, what one builder would save of a level after all of `edits`. */
  ghost predicate Tracks(rank: Rank, edits: seq<Edit>, level: nat, r: seq<Meta>) {
    Ordered(rank, r) && forall f :: f in r <==> Keeps([], LevelAfter(rank, edits, level), f)
  }

  /** One more LogAndApply keeps the version in step with the one builder. */
  lemma {:induction false} StepTracks(rank: Rank, edits: seq<Edit>, e: Edit, level: nat, m: seq<Meta>, r: seq<Meta>)
    requires Tracks(rank, edits, level, m) && Fresh(UsedNumbers(rank, edits, level), Added(e.newFiles, level))
    requires Saves(rank, m, ApplyLevel(rank, NoChange, e, level), r)
    ensures Tracks(rank, edits + [e], level, r)
  {
    var s, adds := LevelAfter(rank, edits, level), Added(e.newFiles, level);
    assert (edits + [e])[..|edits|] == edits;
    EditOnBuilder(rank, [], s, e, level);
    assert Numbers(m) <= Numbers(s.added) by {
      assert forall f :: f in m ==> Keeps([], s, f);
    }
    EditOnBuilder(rank, m, NoChange, e, level);
    forall f
      ensures Keeps(m, NoChange, f) <==> Keeps([], s, f)
    {
    }
  }

  lemma PrefixAddedOnce(rank: Rank, edits: seq<Edit>, level: nat)
    requires AddedOnce(rank, edits, level) && edits != []
    ensures AddedOnce(rank, edits[..|edits| - 1], level)
  {
    var init := edits[..|edits| - 1];
    forall i | 0 <= i < |init|
      ensures Fresh(UsedNumbers(rank, init[..i], level), Added(init[i].newFiles, level))
    {
      assert init[..i] == edits[..i];
    }
  }

  lemma {:induction false} LastTracks(rank: Rank, edits: seq<Edit>, level: nat, m: seq<Meta>, r: seq<Meta>)
    requires edits != []
    requires var n := |edits| - 1;
             && Fresh(UsedNumbers(rank, edits[..n], level), Added(edits[n].newFiles, level))
             && Tracks(rank, edits[..n], level, m)
             && Saves(rank, m, ApplyLevel(rank, NoChange, edits[n], level), r)
    ensures Tracks(rank, edits, level, r)
  {
    var n := |edits| - 1;
    assert edits[..n] + [edits[n]] == edits;
    StepTracks(rank, edits[..n], edits[n], level, m, r);
  }

  lemma {:induction false} ChainTracks(rank: Rank, edits: seq<Edit>, level: nat, r: seq<Meta>)
    requires AddedOnce(rank, edits, level) && Chained(rank, edits, level, r)
    ensures Tracks(rank, edits, level, r)
    decreases |edits|
  {
    if edits != [] {
      var n := |edits| - 1;
      var m :| ChainStep(rank, edits, level, m, r);
      PrefixAddedOnce(rank, edits, level);
      ChainTracks(rank, edits[..n], level, m);
      LastTracks(rank, edits, level, m, r);
    }
  }

  /** Recovery through one builder gives the file lists that the running store had built
      edit by edit. */
  lemma {:induction false} OneBuilderIsTheChain(rank: Rank, edits: seq<Edit>, level: nat, live: seq<Meta>,
                                                recovered: seq<Meta>)
    requires AddedOnce(rank, edits, level)
    requires Chained(rank, edits, level, live)
    requires Saves(rank, [], LevelAfter(rank, edits, level), recovered)
    ensures recovered == live
  {
    ChainTracks(rank, edits, level, live);
    assert Numbers([]) == {};
    OrderedIsUnique(rank, live, recovered);
  }

  function Adding(level: nat, f: Meta): Edit {
    EmptyEdit.(newFiles := [(level, f)])
  }

  function Removing(level: nat, number: nat): Edit {
    EmptyEdit.(deletedFiles := [(level, number)])
  }

  lemma OneAddition(rank: Rank, s: LevelState, level: nat, f: Meta)
    requires ValidState(rank, s)
    ensures ApplyLevel(rank, s, Adding(level, f), level) == AddFile(rank, s, f)
  {
    var e := Adding(level, f);
    assert Deleted(e.deletedFiles, level) == {};
    assert LevelState(s.deleted + {}, s.added) == s;
    assert [f][..0] == [];
    assert Added(e.newFiles[..0], level) == [];
    assert Added(e.newFiles, level) == [f];
    assert AddFiles(rank, s, [f]) == AddFile(rank, AddFiles(rank, s, [f][..0]), f);
  }

  lemma OneRemoval(rank: Rank, s: LevelState, level: nat, number: nat)
    requires ValidState(rank, s)
    ensures ApplyLevel(rank, s, Removing(level, number), level) == LevelState(s.deleted + {number}, s.added)
  {
    var e := Removing(level, number);
    assert e.deletedFiles[0] == (level, number);
    assert Deleted(e.deletedFiles, level) == {number};
  }

  lemma {:induction false} LevelAfterLast(rank: Rank, edits: seq<Edit>, e: Edit, level: nat)
    ensures LevelAfter(rank, edits + [e], level) == ApplyLevel(rank, LevelAfter(rank, edits, level), e, level)
  {
    assert (edits + [e])[..|edits|] == edits;
  }

  lemma {:induction false} ChainedLast(rank: Rank, edits: seq<Edit>, e: Edit, level: nat, m: seq<Meta>, r: seq<Meta>)
    requires Chained(rank, edits, level, m) && Saves(rank, m, ApplyLevel(rank, NoChange, e, level), r)
    ensures Chained(rank, edits + [e], level, r)
  {
    assert (edits + [e])[..|edits|] == edits;
    assert ChainStep(rank, edits + [e], level, m, r);
  }

  function Replacing(level: nat, f: Meta, g: Meta): seq<Edit> {
    [] + [Adding(level, f)] + [Removing(level, f.number)] + [Adding(level, g)]
  }

  /** Why no pair may be added twice: a deleted file whose number is used again at its
      level comes back in recovery, next to the file that replaced it. */
  lemma {:induction false} ReusedNumberComesBack(rank: Rank, f: Meta, g: Meta, level: nat)
    requires f.number == g.number && (KeyLess(rank, f.smallest, g.smallest) || KeyLess(rank, g.smallest, f.smallest))
    ensures Keeps([], LevelAfter(rank, Replacing(level, f, g), level), f)
    ensures Chained(rank, Replacing(level, f, g), level, [g])
  {
    OneAddition(rank, NoChange, level, f);
    OneAddition(rank, NoChange, level, g);
    OneRemoval(rank, NoChange, level, f.number);
    RecoveredTwice(rank, f, g, level);
    ChainedLast(rank, [], Adding(level, f), level, [], [f]);
    ChainedLast(rank, [] + [Adding(level, f)], Removing(level, f.number), level, [f], []);
    ChainedLast(rank, [] + [Adding(level, f)] + [Removing(level, f.number)], Adding(level, g), level, [], [g]);
  }

  lemma {:induction false} RemovedButHeld(rank: Rank, f: Meta, level: nat)
    ensures LevelAfter(rank, [] + [Adding(level, f)] + [Removing(level, f.number)], level)
            == LevelState({f.number}, [f])
  {
    LevelAfterLast(rank, [], Adding(level, f), level);
    OneAddition(rank, NoChange, level, f);
    LevelAfterLast(rank, [] + [Adding(level, f)], Removing(level, f.number), level);
    OneRemoval(rank, LevelState({}, [f]), level, f.number);
  }

  lemma {:induction false} RecoveredTwice(rank: Rank, f: Meta, g: Meta, level: nat)
    requires f.number == g.number
    ensures Keeps([], LevelAfter(rank, Replacing(level, f, g), level), f)
  {
    var edits := [] + [Adding(level, f)] + [Removing(level, f.number)];
    RemovedButHeld(rank, f, level);
    LevelAfterLast(rank, edits, Adding(level, g), level);
    OneAddition(rank, LevelAfter(rank, edits, level), level, g);
  }
}
