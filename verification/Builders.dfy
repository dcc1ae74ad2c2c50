/** Accumulating edits and saving them to a version: VersionSet::Builder (db/version_set.cc). */
module Builders {
  import opened Bytes
  import opened Coding
  import opened Keys
  import opened VersionEdits

  function UserPart(k: Bytes): Bytes {
    if |k| < 8 then [] else k[..|k| - 8]
  }

  function TagPart(k: Bytes): nat {
    if |k| < 8 then 0 else DecodeFixed(k[|k| - 8..])
  }

  /** InternalKeyComparator::Compare(a, b) < 0, on encoded keys. */
  predicate KeyLess(rank: Rank, a: Bytes, b: Bytes) {
    var ra, rb := rank(UserPart(a)), rank(UserPart(b));
    ra < rb || (ra == rb && TagPart(a) > TagPart(b))
  }

  /** BySmallestKey. */
  predicate FileLess(rank: Rank, f: Meta, g: Meta) {
    || KeyLess(rank, f.smallest, g.smallest)
    || (!KeyLess(rank, g.smallest, f.smallest) && f.number < g.number)
  }

  ghost predicate Ordered(rank: Rank, fs: seq<Meta>) {
    forall i, j :: 0 <= i < j < |fs| ==> FileLess(rank, fs[i], fs[j])
  }

  lemma FileLessIsOrder(rank: Rank)
    ensures forall f, g, h :: FileLess(rank, f, g) && FileLess(rank, g, h) ==> FileLess(rank, f, h)
    ensures forall f, g :: FileLess(rank, f, g) ==> !FileLess(rank, g, f)
    ensures forall f: Meta, g: Meta {:trigger FileLess(rank, f, g)} ::
             f.number != g.number ==>
             FileLess(rank, f, g) || FileLess(rank, g, f)
  {
  }

  /** Insertion into std::set: nothing happens if an equivalent file is there. */
  function InsertFile(rank: Rank, fs: seq<Meta>, f: Meta): (r: seq<Meta>)
    requires Ordered(rank, fs)
    ensures Ordered(rank, r)
    ensures forall g :: g in r ==> g in fs || g == f
    ensures forall g :: g in fs ==> g in r
    ensures (forall g :: g in fs ==> g.number != f.number) ==> f in r
  {
    if fs == [] then [f]
    else if FileLess(rank, f, fs[0]) then
      FileLessIsOrder(rank);
      [f] + fs
    else if FileLess(rank, fs[0], f) then
      var rest := InsertFile(rank, fs[1..], f);
      assert forall g :: g in rest ==> g in fs[1..] || g == f;
      assert forall g :: g in fs[1..] ==> FileLess(rank, fs[0], g);
      [fs[0]] + rest
    else
      fs
  }

  /** What a builder holds of one level. */
  datatype LevelState = LevelState(deleted: set<nat>, added: seq<Meta>)

  const NoChange := LevelState({}, [])

  ghost predicate ValidState(rank: Rank, s: LevelState) {
    Ordered(rank, s.added)
  }

  function AddFile(rank: Rank, s: LevelState, f: Meta): (r: LevelState)
    requires ValidState(rank, s)
    ensures ValidState(rank, r)
  {
    LevelState(s.deleted - {f.number}, InsertFile(rank, s.added, f))
  }

  function AddFiles(rank: Rank, s: LevelState, fs: seq<Meta>): (r: LevelState)
    requires ValidState(rank, s)
    ensures ValidState(rank, r)
  {
    if fs == [] then s else AddFile(rank, AddFiles(rank, s, fs[..|fs| - 1]), fs[|fs| - 1])
  }

  function Deleted(ps: seq<LevelNumber>, level: nat): set<nat> {
    set i | 0 <= i < |ps| && ps[i].0 == level :: ps[i].1
  }

  function Added(fs: seq<(nat, Meta)>, level: nat): seq<Meta> {
    if fs == [] then []
    else
      var last := fs[|fs| - 1];
      Added(fs[..|fs| - 1], level) + if last.0 == level then [last.1] else []
  }

  /** Apply, as one level sees it: deletions first, then additions. */
  function ApplyLevel(rank: Rank, s: LevelState, e: Edit, level: nat): (r: LevelState)
    requires ValidState(rank, s)
    ensures ValidState(rank, r)
  {
    AddFiles(rank, LevelState(s.deleted + Deleted(e.deletedFiles, level), s.added), Added(e.newFiles, level))
  }

  ghost function Numbers(fs: seq<Meta>): set<nat> {
    set f | f in fs :: f.number
  }

  ghost predicate Keeps(base: seq<Meta>, s: LevelState, f: Meta) {
    (f in base || f in s.added) && f.number !in s.deleted
  }

  /** `r` is what SaveTo stores for a level. */
  ghost predicate Saves(rank: Rank, base: seq<Meta>, s: LevelState, r: seq<Meta>) {
    && (forall f :: f in r <==> Keeps(base, s, f))
    && (Numbers(base) !! Numbers(s.added) ==> Ordered(rank, r))
  }

  /** std::upper_bound in an ordered range. */
  function UpperBound(rank: Rank, fs: seq<Meta>, from: nat, f: Meta): (i: nat)
    requires from <= |fs|
    ensures from <= i <= |fs|
    ensures forall j :: from <= j < i ==> !FileLess(rank, f, fs[j])
    ensures i < |fs| ==> FileLess(rank, f, fs[i])
    decreases |fs| - from
  {
    if from < |fs| && !FileLess(rank, f, fs[from]) then UpperBound(rank, fs, from + 1, f) else from
  }

  lemma {:induction false} AddedStep(rank: Rank, s: LevelState, files: seq<(nat, Meta)>, i: nat, level: nat)
    requires ValidState(rank, s) && i < |files|
    ensures var before := AddFiles(rank, s, Added(files[..i], level));
            AddFiles(rank, s, Added(files[..i + 1], level))
            == if files[i].0 == level then AddFile(rank, before, files[i].1) else before
  {
    assert files[..i + 1][..i] == files[..i];
    var before := Added(files[..i], level);
    if files[i].0 == level {
      assert (before + [files[i].1])[..|before|] == before;
    } else {
      assert before + [] == before;
    }
  }

  class Builder {
    const rank: Rank
    const base: seq<seq<Meta>>
    var deleted: seq<set<nat>>
    var added: seq<seq<Meta>>

    ghost predicate Valid()
      reads this
    {
      && |base| == |deleted| == |added| == NumLevels
      && forall l :: 0 <= l < NumLevels ==> Ordered(rank, base[l]) && Ordered(rank, added[l])
    }

    function Level(l: nat): LevelState
      requires l < |deleted| && l < |added|
      reads this
    {
      LevelState(deleted[l], added[l])
    }

    constructor (rank: Rank, base: seq<seq<Meta>>)
      requires |base| == NumLevels && forall l :: 0 <= l < NumLevels ==> Ordered(rank, base[l])
      ensures Valid() && this.rank == rank && this.base == base
      ensures forall l :: 0 <= l < NumLevels ==> Level(l) == NoChange
    {
      this.rank, this.base := rank, base;
      deleted, added := seq(NumLevels, _ => {}), seq(NumLevels, _ => []);
    }

    method Apply(e: Edit)
      requires Valid()
      requires forall i :: 0 <= i < |e.deletedFiles| ==> e.deletedFiles[i].0 < NumLevels
      requires forall i :: 0 <= i < |e.newFiles| ==> e.newFiles[i].0 < NumLevels
      modifies this
      ensures Valid()
      ensures forall l :: 0 <= l < NumLevels ==> Level(l) == ApplyLevel(rank, old(Level(l)), e, l)
    {
      for i := 0 to |e.deletedFiles|
        invariant Valid() && added == old(added)
        invariant forall l :: 0 <= l < NumLevels ==> deleted[l] == old(deleted[l]) + Deleted(e.deletedFiles[..i], l)
      {
        var (level, number) := e.deletedFiles[i];
        assert forall l :: Deleted(e.deletedFiles[..i + 1], l) == Deleted(e.deletedFiles[..i], l)
                                                                  + if l == level then {number} else {};
        deleted := deleted[level := deleted[level] + {number}];
      }
      assert e.deletedFiles[..|e.deletedFiles|] == e.deletedFiles;
      AddNewFiles(e.newFiles);
    }

    method AddNewFiles(files: seq<(nat, Meta)>)
      requires Valid()
      requires forall i :: 0 <= i < |files| ==> files[i].0 < NumLevels
      modifies this
      ensures Valid()
      ensures forall l :: 0 <= l < NumLevels ==> Level(l) == AddFiles(rank, old(Level(l)), Added(files, l))
    {
      for i := 0 to |files|
        invariant Valid() && forall l :: 0 <= l < NumLevels ==> Ordered(rank, old(added)[l])
        invariant forall l :: 0 <= l < NumLevels ==> Level(l) == AddFiles(rank, old(Level(l)), Added(files[..i], l))
      {
        var (level, f) := files[i];
        ghost var n := i + 1;
        forall l | 0 <= l < NumLevels
          ensures var before := AddFiles(rank, old(Level(l)), Added(files[..i], l));
                  AddFiles(rank, old(Level(l)), Added(files[..n], l))
                  == if l == level then AddFile(rank, before, f) else before
        {
          AddedStep(rank, old(Level(l)), files, i, l);
        }
        deleted := deleted[level := deleted[level] - {f.number}];
        added := added[level := InsertFile(rank, added[level], f)];
      }
      assert files[..|files|] == files;
    }

    method SaveTo() returns (files: seq<seq<Meta>>)
      requires Valid()
      ensures |files| == NumLevels
      ensures forall l :: 0 <= l < NumLevels ==> Saves(rank, base[l], Level(l), files[l])
    {
      files := [];
      for level := 0 to NumLevels
        invariant |files| == level
        invariant forall l :: 0 <= l < level ==> Saves(rank, base[l], Level(l), files[l])
      {
        var saved := SaveLevel(rank, base[level], Level(level));
        files := files + [saved];
      }
    }
  }

  /** Files merged so far: everything of both lists up to the given places, minus the deleted. */
  ghost predicate Merged(base: seq<Meta>, b: nat, s: LevelState, a: nat, r: seq<Meta>)
    requires b <= |base| && a <= |s.added|
  {
    forall f :: f in r <==> (f in base[..b] || f in s.added[..a]) && f.number !in s.deleted
  }

  function MaybeAdd(s: LevelState, r: seq<Meta>, f: Meta): seq<Meta> {
    if f.number in s.deleted then r else r + [f]
  }

  /** The two lists interleave: what has been taken of each comes before what is left of the other. */
  ghost predicate Cross(rank: Rank, base: seq<Meta>, b: nat, added: seq<Meta>, a: nat)
    requires b <= |base| && a <= |added|
  {
    && (forall i, j :: 0 <= i < a && b <= j < |base| ==> FileLess(rank, added[i], base[j]))
    && (forall i, j :: a <= i < |added| && 0 <= j < b ==> FileLess(rank, base[j], added[i]))
  }

  /** `f`, the next of its list, goes after everything taken so far. */
  lemma AppendKeepsOrder(rank: Rank, base: seq<Meta>, b: nat, s: LevelState, a: nat, r: seq<Meta>, f: Meta)
    requires b <= |base| && a <= |s.added| && Merged(base, b, s, a, r)
    requires Ordered(rank, base) && ValidState(rank, s) && Cross(rank, base, b, s.added, a) && Ordered(rank, r)
    requires (b < |base| && f == base[b]) || (a < |s.added| && f == s.added[a])
    ensures Ordered(rank, MaybeAdd(s, r, f))
  {
    forall i | 0 <= i < |r|
      ensures FileLess(rank, r[i], f)
    {
      assert r[i] in r;
    }
  }

  /** One level of SaveTo: a merge that skips deleted files. */
  method SaveLevel(rank: Rank, base: seq<Meta>, s: LevelState) returns (r: seq<Meta>)
    requires Ordered(rank, base) && ValidState(rank, s)
    ensures Saves(rank, base, s, r)
  {
    r := [];
    var b: nat := 0;
    ghost var disjoint := Numbers(base) !! Numbers(s.added);
    for a := 0 to |s.added|
      invariant b <= |base| && Merged(base, b, s, a, r)
      invariant disjoint ==> Ordered(rank, r) && Cross(rank, base, b, s.added, a)
    {
      var f := s.added[a];
      var pos := UpperBound(rank, base, b, f);
      if disjoint { Sides(rank, base, b, pos, s, a); }
      r := TakeBase(rank, base, b, pos, s, a, r);
      if disjoint { AppendKeepsOrder(rank, base, pos, s, a, r, f); }
      r := MaybeAdd(s, r, f);
      b := pos;
      assert s.added[..a + 1] == s.added[..a] + [f];
    }
    r := TakeBase(rank, base, b, |base|, s, |s.added|, r);
    assert base[..|base|] == base && s.added[..|s.added|] == s.added;
  }

  /** The upper bound of the next added file splits the base files left. */
  lemma Sides(rank: Rank, base: seq<Meta>, b: nat, pos: nat, s: LevelState, a: nat)
    requires b <= pos <= |base| && a < |s.added| && Ordered(rank, base) && ValidState(rank, s)
    requires Numbers(base) !! Numbers(s.added) && Cross(rank, base, b, s.added, a)
    requires forall j :: b <= j < pos ==> !FileLess(rank, s.added[a], base[j])
    requires pos < |base| ==> FileLess(rank, s.added[a], base[pos])
    ensures forall c :: b <= c <= pos ==> Cross(rank, base, c, s.added, a)
    ensures Cross(rank, base, pos, s.added, a + 1)
  {
    FileLessIsOrder(rank);
    forall j | b <= j < pos
      ensures FileLess(rank, base[j], s.added[a])
    {
      assert base[j].number in Numbers(base) && s.added[a].number in Numbers(s.added);
    }
    forall i, j | a < i < |s.added| && b <= j < pos
      ensures FileLess(rank, base[j], s.added[i])
    {
      assert FileLess(rank, base[j], s.added[a]) && FileLess(rank, s.added[a], s.added[i]);
    }
  }

  method TakeBase(rank: Rank, base: seq<Meta>, from: nat, to: nat, s: LevelState, ghost a: nat, r0: seq<Meta>)
    returns (r: seq<Meta>)
    requires from <= to <= |base| && a <= |s.added| && Merged(base, from, s, a, r0)
    requires Ordered(rank, base) && ValidState(rank, s)
    ensures Merged(base, to, s, a, r)
    ensures Ordered(rank, r0) && (forall c :: from <= c < to ==> Cross(rank, base, c, s.added, a)) ==> Ordered(rank, r)
  {
    r := r0;
    ghost var keeps := Ordered(rank, r0) && forall c :: from <= c < to ==> Cross(rank, base, c, s.added, a);
    for b := from to to
      invariant Merged(base, b, s, a, r)
      invariant keeps ==> Ordered(rank, r)
    {
      if keeps { AppendKeepsOrder(rank, base, b, s, a, r, base[b]); }
      r := MaybeAdd(s, r, base[b]);
      assert base[..b + 1] == base[..b] + [base[b]];
    }
  }
}
