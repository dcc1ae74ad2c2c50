/** Range queries on a version and the choice of compaction inputs (db/version_set.cc). */
module Picking {
  import opened Keys
  import opened Versions

  /** kMaxMemCompactLevel, kMaxGrandParentOverlapBytes, kExpandedCompactionByteSizeLimit
      and MaxFileSizeForLevel. */
  const MaxMemCompactLevel := 2
  const TargetFileSize: nat := 2 * 1048576
  const MaxGrandParentOverlapBytes: nat := 10 * TargetFileSize
  const ExpandedCompactionByteSizeLimit: nat := 25 * TargetFileSize

  /** An end of a user-key range; None stands for a NULL pointer, which is unbounded. */
  type Bound = Option<UserKey>

  predicate AfterFile(user: Bound, f: FileMeta) {
    user.Some? && user.value > f.largest.user
  }

  predicate BeforeFile(user: Bound, f: FileMeta) {
    user.Some? && user.value < f.smallest.user
  }

  predicate Overlaps(f: FileMeta, lo: Bound, hi: Bound) {
    !AfterFile(lo, f) && !BeforeFile(hi, f)
  }

  /** No user key lies in the ranges of both files. */
  predicate Apart(f: FileMeta, g: FileMeta) {
    f.largest.user < g.smallest.user || g.largest.user < f.smallest.user
  }

  /** Lower bound `a` is at or below lower bound `b`. */
  predicate AtOrBelow(a: Bound, b: Bound) {
    a.None? || (b.Some? && a.value <= b.value)
  }

  /** Upper bound `a` is at or above upper bound `b`. */
  predicate AtOrAbove(a: Bound, b: Bound) {
    a.None? || (b.Some? && a.value >= b.value)
  }

  predicate Inside(f: FileMeta, lo: Bound, hi: Bound) {
    AtOrBelow(lo, Some(f.smallest.user)) && AtOrAbove(hi, Some(f.largest.user))
  }

  /** Every file that meets the range lies inside it. */
  ghost predicate Closed(files: seq<FileMeta>, lo: Bound, hi: Bound) {
    forall f :: f in files && Overlaps(f, lo, hi) ==> Inside(f, lo, hi)
  }

  /** The files that meet a range, in file order. */
  function Overlapping(files: seq<FileMeta>, lo: Bound, hi: Bound): (r: seq<FileMeta>)
    ensures forall f :: f in r <==> f in files && Overlaps(f, lo, hi)
    ensures |r| <= |files|
  {
    if files == [] then []
    else
      var last := files[|files| - 1];
      assert files == files[..|files| - 1] + [last];
      Overlapping(files[..|files| - 1], lo, hi) + (if Overlaps(last, lo, hi) then [last] else [])
  }

  function TotalFileSize(files: seq<FileMeta>): nat {
    if files == [] then 0 else TotalFileSize(files[..|files| - 1]) + files[|files| - 1].fileSize
  }

  /** SomeFileOverlapsRange: a scan at level 0, one binary search above it. */
  method SomeFileOverlapsRange(disjointSorted: bool, files: seq<FileMeta>, lo: Bound, hi: Bound) returns (r: bool)
    requires ValidFiles(files)
    requires disjointSorted ==> KeyDisjoint(files)
    ensures r <==> exists f :: f in files && Overlaps(f, lo, hi)
  {
    if !disjointSorted {
      for i := 0 to |files|
        invariant forall j :: 0 <= j < i ==> !Overlaps(files[j], lo, hi)
      {
        if AfterFile(lo, files[i]) || BeforeFile(hi, files[i]) {
        } else {
          assert Overlaps(files[i], lo, hi);
          return true;
        }
      }
      return false;
    }
    var index := 0;
    if lo.Some? {
      index := FindFile(files, LookupKey(lo.value, MaxSequence));
    }
    assert forall i :: 0 <= i < index ==> AfterFile(lo, files[i]);
    if index >= |files| {
      return false;
    }
    r := !BeforeFile(hi, files[index]);
    assert !AfterFile(lo, files[index]);
    if r {
      assert Overlaps(files[index], lo, hi);
    } else {
      forall i | index < i < |files|
        ensures BeforeFile(hi, files[i])
      {
        SmallestToLargest(files[index], files[index].entries[0]);
        assert Less(files[index].largest, files[i].smallest);
      }
    }
  }

  /** [b, e] contains [lo, hi], and so does no smaller range closed under overlap. */
  ghost predicate Least(files: seq<FileMeta>, lo: Bound, hi: Bound, b: Bound, e: Bound) {
    && AtOrBelow(b, lo) && AtOrAbove(e, hi)
    && lo.Some? == b.Some? && hi.Some? == e.Some?
    && forall x, y :: Closed(files, x, y) && AtOrBelow(x, lo) && AtOrAbove(y, hi) ==> AtOrBelow(x, b) && AtOrAbove(y, e)
  }

  lemma GrowLow(files: seq<FileMeta>, lo: Bound, hi: Bound, b: Bound, e: Bound, f: FileMeta)
    requires Least(files, lo, hi, b, e) && f in files && Overlaps(f, b, e)
    requires b.Some? && f.smallest.user < b.value
    ensures Least(files, lo, hi, Some(f.smallest.user), e)
    ensures StartsBefore(files, Some(f.smallest.user)) < StartsBefore(files, b)
  {
    assert f in StartsBefore(files, b) && f !in StartsBefore(files, Some(f.smallest.user));
    forall x, y | Closed(files, x, y) && AtOrBelow(x, lo) && AtOrAbove(y, hi)
      ensures AtOrBelow(x, Some(f.smallest.user))
    {
      assert AtOrBelow(x, b) && AtOrAbove(y, e);
      assert Overlaps(f, x, y);
    }
  }

  lemma GrowHigh(files: seq<FileMeta>, lo: Bound, hi: Bound, b: Bound, e: Bound, f: FileMeta)
    requires Least(files, lo, hi, b, e) && f in files && Overlaps(f, b, e)
    requires e.Some? && f.largest.user > e.value
    ensures Least(files, lo, hi, b, Some(f.largest.user))
    ensures EndsAfter(files, Some(f.largest.user)) < EndsAfter(files, e)
  {
    assert f in EndsAfter(files, e) && f !in EndsAfter(files, Some(f.largest.user));
    forall x, y | Closed(files, x, y) && AtOrBelow(x, lo) && AtOrAbove(y, hi)
      ensures AtOrAbove(y, Some(f.largest.user))
    {
      assert AtOrBelow(x, b) && AtOrAbove(y, e);
      assert Overlaps(f, x, y);
    }
  }

  lemma {:induction false} OneMoreFile(seen: seq<FileMeta>, f: FileMeta, lo: Bound, hi: Bound)
    ensures Overlapping(seen + [f], lo, hi) == Overlapping(seen, lo, hi) + (if Overlaps(f, lo, hi) then [f] else [])
    ensures Closed(seen + [f], lo, hi) <==> Closed(seen, lo, hi) && (Overlaps(f, lo, hi) ==> Inside(f, lo, hi))
  {
    assert (seen + [f])[..|seen|] == seen;
    assert f in seen + [f] && forall g :: g in seen ==> g in seen + [f];
  }

  lemma {:induction false} NextFile(files: seq<FileMeta>, i: nat, lo: Bound, hi: Bound)
    requires i < |files|
    ensures Overlapping(files[..i + 1], lo, hi)
            == Overlapping(files[..i], lo, hi) + (if Overlaps(files[i], lo, hi) then [files[i]] else [])
    ensures Closed(files[..i], lo, hi) && (Overlaps(files[i], lo, hi) ==> Inside(files[i], lo, hi))
            ==> Closed(files[..i + 1], lo, hi)
  {
    assert files[..i + 1] == files[..i] + [files[i]];
    OneMoreFile(files[..i], files[i], lo, hi);
  }

  /** The first `n` files have been looked at, and `inputs` are those that meet the range. */
  ghost predicate Scanned(files: seq<FileMeta>, n: nat, inputs: seq<FileMeta>, level0: bool,
                          lo: Bound, hi: Bound, b: Bound, e: Bound)
  {
    && n <= |files| && inputs == Overlapping(files[..n], b, e)
    && Least(files, lo, hi, b, e)
    && if level0 then Closed(files[..n], b, e) else b == lo && e == hi
  }

  lemma ScanStarts(files: seq<FileMeta>, level0: bool, lo: Bound, hi: Bound, b: Bound, e: Bound)
    requires Least(files, lo, hi, b, e) && (!level0 ==> b == lo && e == hi)
    ensures Scanned(files, 0, [], level0, lo, hi, b, e)
  {
  }

  lemma ScanPasses(files: seq<FileMeta>, n: nat, n': nat, inputs: seq<FileMeta>, level0: bool,
                   lo: Bound, hi: Bound, b: Bound, e: Bound)
    requires Scanned(files, n, inputs, level0, lo, hi, b, e) && n < |files| && n' == n + 1
    requires !Overlaps(files[n], b, e)
    ensures Scanned(files, n', inputs, level0, lo, hi, b, e)
  {
    NextFile(files, n, b, e);
  }

  lemma ScanTakes(files: seq<FileMeta>, n: nat, n': nat, inputs: seq<FileMeta>, level0: bool,
                  lo: Bound, hi: Bound, b: Bound, e: Bound)
    requires Scanned(files, n, inputs, level0, lo, hi, b, e) && n < |files| && n' == n + 1
    requires Overlaps(files[n], b, e) && (level0 ==> Inside(files[n], b, e))
    ensures Scanned(files, n', inputs + [files[n]], level0, lo, hi, b, e)
  {
    NextFile(files, n, b, e);
  }

  /** GetOverlappingInputs.  At level 0 the range grows to the least one that contains
      [lo, hi] and is closed under overlap; elsewhere it stays as given. */
  method GetOverlappingInputs(files: seq<FileMeta>, level0: bool, lo: Bound, hi: Bound)
    returns (inputs: seq<FileMeta>, ghost lo': Bound, ghost hi': Bound)
    ensures inputs == Overlapping(files, lo', hi')
    ensures Least(files, lo, hi, lo', hi')
    ensures if level0 then Closed(files, lo', hi') else lo' == lo && hi' == hi
    ensures !level0 ==> inputs == Overlapping(files, lo, hi)
  {
    var userBegin, userEnd := lo, hi;
    inputs := [];
    var i := 0;
    ScanStarts(files, level0, lo, hi, lo, hi);
    while i < |files|
      invariant Scanned(files, i, inputs, level0, lo, hi, userBegin, userEnd)
      decreases StartsBefore(files, userBegin), EndsAfter(files, userEnd), |files| - i
    {
      var f := files[i];
      ghost var at, before := i, inputs;
      i := i + 1;
      if userBegin.Some? && f.largest.user < userBegin.value {
        ScanPasses(files, at, i, inputs, level0, lo, hi, userBegin, userEnd);
      } else if userEnd.Some? && f.smallest.user > userEnd.value {
        ScanPasses(files, at, i, inputs, level0, lo, hi, userBegin, userEnd);
      } else {
        inputs := inputs + [f];
        if level0 && userBegin.Some? && f.smallest.user < userBegin.value {
          GrowLow(files, lo, hi, userBegin, userEnd, f);
          userBegin, inputs, i := Some(f.smallest.user), [], 0;
          ScanStarts(files, level0, lo, hi, userBegin, userEnd);
        } else if level0 && userEnd.Some? && f.largest.user > userEnd.value {
          GrowHigh(files, lo, hi, userBegin, userEnd, f);
          userEnd, inputs, i := Some(f.largest.user), [], 0;
          ScanStarts(files, level0, lo, hi, userBegin, userEnd);
        } else {
          ScanTakes(files, at, i, before, level0, lo, hi, userBegin, userEnd);
        }
      }
    }
    assert files[..|files|] == files;
    lo', hi' := userBegin, userEnd;
  }

  ghost function StartsBefore(files: seq<FileMeta>, lo: Bound): set<FileMeta> {
    set f | f in files && lo.Some? && f.smallest.user < lo.value
  }

  ghost function EndsAfter(files: seq<FileMeta>, hi: Bound): set<FileMeta> {
    set f | f in files && hi.Some? && f.largest.user > hi.value
  }

  /** `smallest` and `largest` are the least and greatest ends of the files' key ranges. */
  ghost predicate IsHull(inputs: seq<FileMeta>, smallest: IKey, largest: IKey) {
    && (forall f :: f in inputs ==> !Less(f.smallest, smallest) && !Less(largest, f.largest))
    && (exists f :: f in inputs && f.smallest == smallest)
    && (exists f :: f in inputs && f.largest == largest)
  }

  method GetRange(inputs: seq<FileMeta>) returns (smallest: IKey, largest: IKey)
    requires inputs != []
    ensures IsHull(inputs, smallest, largest)
  {
    smallest, largest := inputs[0].smallest, inputs[0].largest;
    for i := 1 to |inputs|
      invariant IsHull(inputs[..i], smallest, largest)
    {
      assert inputs[..i + 1] == inputs[..i] + [inputs[i]];
      var f := inputs[i];
      assert f in inputs[..i + 1];
      if Less(f.smallest, smallest) {
        smallest := f.smallest;
      }
      if Less(largest, f.largest) {
        largest := f.largest;
      }
    }
    assert inputs[..|inputs|] == inputs;
  }

  /** No level down to this one holds a file in the range. */
  ghost predicate ClearTo(v: Version, level: nat, smallest: UserKey, largest: UserKey)
    requires |v.files| == NumLevels && level < NumLevels
  {
    forall l :: 0 <= l <= level ==> !LevelOverlaps(v, l, smallest, largest)
  }

  /** No level above this one meets too many bytes two levels further down. */
  ghost predicate LightTo(v: Version, level: nat, smallest: UserKey, largest: UserKey)
    requires |v.files| == NumLevels && level + 1 < NumLevels
  {
    forall l :: 0 <= l < level ==> GrandparentBytes(v, l, smallest, largest) <= MaxGrandParentOverlapBytes
  }

  /** One turn of PickLevelForMemTableOutput's loop. */
  method MaySkip(v: Version, level: nat, smallest: UserKey, largest: UserKey) returns (r: bool)
    requires WellFormed(v) && level < MaxMemCompactLevel
    ensures r <==> !LevelOverlaps(v, level + 1, smallest, largest)
                   && GrandparentBytes(v, level, smallest, largest) <= MaxGrandParentOverlapBytes
  {
    var overlap := SomeFileOverlapsRange(true, v.files[level + 1], Some(smallest), Some(largest));
    if overlap {
      return false;
    }
    r := true;
    if level + 2 < NumLevels {
      var overlaps, _, _ := GetOverlappingInputs(v.files[level + 2], false, Some(smallest), Some(largest));
      r := TotalFileSize(overlaps) <= MaxGrandParentOverlapBytes;
    }
  }

  /** PickLevelForMemTableOutput: a flushed table may skip levels, but only past levels
      that hold no file in its user-key range. */
  method PickLevelForMemTableOutput(v: Version, smallest: UserKey, largest: UserKey) returns (level: nat)
    requires WellFormed(v)
    ensures level <= MaxMemCompactLevel
    ensures level > 0 ==> ClearTo(v, level, smallest, largest) && LightTo(v, level, smallest, largest)
    ensures level < MaxMemCompactLevel ==>
              || LevelOverlaps(v, 0, smallest, largest)
              || LevelOverlaps(v, level + 1, smallest, largest)
              || GrandparentBytes(v, level, smallest, largest) > MaxGrandParentOverlapBytes
  {
    level := 0;
    var overlap := SomeFileOverlapsRange(false, v.files[0], Some(smallest), Some(largest));
    if !overlap {
      while level < MaxMemCompactLevel
        invariant level <= MaxMemCompactLevel
        invariant ClearTo(v, level, smallest, largest) && LightTo(v, level, smallest, largest)
      {
        var may := MaySkip(v, level, smallest, largest);
        if !may {
          break;
        }
        level := level + 1;
      }
    }
  }

  ghost predicate LevelOverlaps(v: Version, l: nat, smallest: UserKey, largest: UserKey)
    requires |v.files| == NumLevels && l < NumLevels
  {
    exists f :: f in v.files[l] && Overlaps(f, Some(smallest), Some(largest))
  }

  ghost function GrandparentBytes(v: Version, l: nat, smallest: UserKey, largest: UserKey): nat
    requires |v.files| == NumLevels && l + 2 < NumLevels
  {
    TotalFileSize(Overlapping(v.files[l + 2], Some(smallest), Some(largest)))
  }

  datatype CompactionInputs = CompactionInputs(
    level: nat, inputs0: seq<FileMeta>, inputs1: seq<FileMeta>, grandparents: seq<FileMeta>,
    smallest: IKey, largest: IKey)

  /** Compaction::IsTrivialMove: one file to carry down, and not too much two levels down. */
  ghost predicate IsTrivialMove(c: CompactionInputs) {
    |c.inputs0| == 1 && c.inputs1 == [] && TotalFileSize(c.grandparents) <= MaxGrandParentOverlapBytes
  }

  /** No level-0 file outside `inputs` shares a user key with one inside. */
  ghost predicate ClosedUnderOverlap(files: seq<FileMeta>, inputs: seq<FileMeta>) {
    forall f, g {:trigger Apart(f, g)} :: f in files && f !in inputs && g in inputs ==> Apart(f, g)
  }

  /** What the choice of inputs guarantees of any version. */
  ghost predicate ChosenInputs(v: Version, c: CompactionInputs)
    requires |v.files| == NumLevels
  {
    && c.level + 1 < NumLevels
    && c.inputs0 != []
    && (forall f :: f in c.inputs0 ==> f in v.files[c.level])
    && (c.level == 0 ==> ClosedUnderOverlap(v.files[0], c.inputs0))
    && IsHull(c.inputs0, c.smallest, c.largest)
    && c.inputs1 == Overlapping(v.files[c.level + 1], Some(c.smallest.user), Some(c.largest.user))
  }

  /** The clean cut: for every user key, what the inputs leave behind at either level is
      newer than what they take. */
  ghost predicate CleanCut(v: Version, c: CompactionInputs)
    requires |v.files| == NumLevels && c.level + 1 < NumLevels
  {
    && (forall f, g {:trigger Newer(f, g)} ::
            f in v.files[c.level] && f !in c.inputs0 && g in c.inputs0 ==> Newer(f, g))
    && (forall f, g {:trigger Newer(f, g)} ::
            f in v.files[c.level + 1] && f !in c.inputs1 && g in c.inputs1 ==> Newer(f, g))
  }

  /** `f` goes on with the user key at which `g` ends. */
  ghost predicate Continues(g: FileMeta, f: FileMeta) {
    Less(g.largest, f.smallest) && g.largest.user == f.smallest.user
  }

  /** No file is left behind that goes on with the user key at which an input ends. */
  ghost predicate ClearBoundary(v: Version, c: CompactionInputs)
    requires |v.files| == NumLevels && c.level + 1 < NumLevels
  {
    && (c.level > 0 ==> forall f, g {:trigger Continues(g, f)} ::
                          f in v.files[c.level] && f !in c.inputs0 && g in c.inputs0 ==> !Continues(g, f))
    && (forall f, g {:trigger Continues(g, f)} ::
            f in v.files[c.level + 1] && f !in c.inputs1 && g in c.inputs1 ==> !Continues(g, f))
  }

  lemma ApartIsNewer(f: FileMeta, g: FileMeta)
    requires ValidFile(f) && ValidFile(g) && Apart(f, g)
    ensures Newer(f, g)
  {
    forall x, y | x in f.entries && y in g.entries
      ensures x.key.user != y.key.user
    {
      SmallestToLargest(f, x);
      SmallestToLargest(g, y);
    }
  }

  /** Between two files of a sorted level, only a continuation is not newer. */
  lemma NewerUnlessContinues(files: seq<FileMeta>, f: FileMeta, g: FileMeta)
    requires ValidFiles(files) && KeyDisjoint(files) && f in files && g in files && f != g
    ensures Newer(f, g) <==> !Continues(g, f)
  {
    if Continues(g, f) {
      var x, y := f.entries[0], g.entries[|g.entries| - 1];
      assert x in f.entries && y in g.entries;
    } else {
      forall x, y | x in f.entries && y in g.entries && x.key.user == y.key.user
        ensures Tag(x.key) > Tag(y.key)
      {
        SmallestToLargest(f, x);
        SmallestToLargest(g, y);
        assert Less(f.largest, g.smallest) || Less(g.largest, f.smallest);
      }
    }
  }

  /** The exact condition for a clean cut, which the choice of inputs does not check. */
  lemma CleanCutIffClearBoundary(v: Version, c: CompactionInputs)
    requires WellFormed(v) && ChosenInputs(v, c)
    ensures CleanCut(v, c) <==> ClearBoundary(v, c)
  {
    forall f, g | f in v.files[c.level] && f !in c.inputs0 && g in c.inputs0
      ensures if c.level > 0 then Newer(f, g) <==> !Continues(g, f) else Newer(f, g)
    {
      if c.level > 0 {
        NewerUnlessContinues(v.files[c.level], f, g);
      } else {
        assert Apart(f, g);
        ApartIsNewer(f, g);
      }
    }
    forall f, g | f in v.files[c.level + 1] && f !in c.inputs1 && g in c.inputs1
      ensures Newer(f, g) <==> !Continues(g, f)
    {
      NewerUnlessContinues(v.files[c.level + 1], f, g);
    }
  }

  /** While levels 1 and up are disjoint in user keys, every choice of inputs cuts cleanly. */
  lemma UserDisjointClears(v: Version, c: CompactionInputs)
    requires WellFormed(v) && ChosenInputs(v, c)
    requires forall l :: 1 <= l < NumLevels ==> UserDisjoint(v.files[l])
    ensures ClearBoundary(v, c)
  {
    forall f, g, l | 1 <= l < NumLevels && f in v.files[l] && g in v.files[l]
      ensures !Continues(g, f)
    {
      SmallestToLargest(f, f.entries[0]);
    }
  }

  /** A run of files closed under overlap takes its whole neighbourhood. */
  lemma {:induction false} ClosedRangeIsClosed(files: seq<FileMeta>, lo: Bound, hi: Bound)
    requires Closed(files, lo, hi)
    ensures ClosedUnderOverlap(files, Overlapping(files, lo, hi))
  {
  }

  /** A part of a list, kept in order, that has the length of the whole is the whole. */
  lemma {:induction false} NarrowerSelectsFewer(files: seq<FileMeta>, lo: Bound, hi: Bound, lo': Bound, hi': Bound)
    requires AtOrBelow(lo', lo) && AtOrAbove(hi', hi)
    ensures |Overlapping(files, lo, hi)| <= |Overlapping(files, lo', hi')|
    ensures |Overlapping(files, lo, hi)| == |Overlapping(files, lo', hi')| ==>
              Overlapping(files, lo, hi) == Overlapping(files, lo', hi')
  {
    if files != [] {
      NarrowerSelectsFewer(files[..|files| - 1], lo, hi, lo', hi');
    }
  }

  function Lesser(a: UserKey, b: UserKey): UserKey {
    if a < b then a else b
  }

  function Greater(a: UserKey, b: UserKey): UserKey {
    if a > b then a else b
  }

  /** The least and the greatest user key in the ranges of the first `n` files. */
  function LowEndTo(files: seq<FileMeta>, n: nat): UserKey
    requires 0 < n <= |files|
  {
    if n == 1 then files[0].smallest.user else Lesser(LowEndTo(files, n - 1), files[n - 1].smallest.user)
  }

  function HighEndTo(files: seq<FileMeta>, n: nat): UserKey
    requires 0 < n <= |files|
  {
    if n == 1 then files[0].largest.user else Greater(HighEndTo(files, n - 1), files[n - 1].largest.user)
  }

  function LowEnd(files: seq<FileMeta>): UserKey
    requires files != []
  {
    LowEndTo(files, |files|)
  }

  function HighEnd(files: seq<FileMeta>): UserKey
    requires files != []
  {
    HighEndTo(files, |files|)
  }

  lemma {:induction false} EndsTo(files: seq<FileMeta>, n: nat) returns (low: nat, high: nat)
    requires 0 < n <= |files|
    ensures low < n && files[low].smallest.user == LowEndTo(files, n)
    ensures high < n && files[high].largest.user == HighEndTo(files, n)
    ensures forall i :: 0 <= i < n ==> LowEndTo(files, n) <= files[i].smallest.user
    ensures forall i :: 0 <= i < n ==> files[i].largest.user <= HighEndTo(files, n)
  {
    low, high := n - 1, n - 1;
    if n > 1 {
      var l, h := EndsTo(files, n - 1);
      low := if files[n - 1].smallest.user <= files[l].smallest.user then n - 1 else l;
      high := if files[n - 1].largest.user >= files[h].largest.user then n - 1 else h;
    }
  }

  lemma HullEnds(files: seq<FileMeta>, smallest: IKey, largest: IKey)
    requires IsHull(files, smallest, largest)
    ensures files != [] && smallest.user == LowEnd(files) && largest.user == HighEnd(files)
  {
    HullUsers(files, smallest, largest);
    var low, high := EndsTo(files, |files|);
    assert files[low] in files && files[high] in files;
  }

  /** The files of a list that meet the hull of others; at level 0 the range grows until it is
      closed under overlap. */
  ghost predicate Meets(files: seq<FileMeta>, level: nat, lo: Bound, hi: Bound, met: seq<FileMeta>) {
    if level > 0 then met == Overlapping(files, lo, hi)
    else exists b, e :: Least(files, lo, hi, b, e) && Closed(files, b, e) && met == Overlapping(files, b, e)
  }

  /** The files of the level around what was picked and its inputs of the next level. */
  ghost predicate IsWide(v: Version, level: nat, picked: seq<FileMeta>, inputs1: seq<FileMeta>, wide: seq<FileMeta>)
    requires |v.files| == NumLevels && level < NumLevels && picked != []
  {
    Meets(v.files[level], level, Some(LowEnd(picked + inputs1)), Some(HighEnd(picked + inputs1)), wide)
  }

  /** The inputs may grow: there are more files, they are not too big, and they meet no more
      files of the next level. */
  ghost predicate MayGrow(v: Version, level: nat, picked: seq<FileMeta>, inputs1: seq<FileMeta>, wide: seq<FileMeta>)
    requires |v.files| == NumLevels && level + 1 < NumLevels
  {
    && |wide| > |picked|
    && TotalFileSize(inputs1) + TotalFileSize(wide) < ExpandedCompactionByteSizeLimit
    && forall f :: f in v.files[level + 1] && MeetsHull(f, wide) ==> f in inputs1
  }

  /** The inputs of the level are what was picked, or all around it if and only if they may
      grow and there are inputs of the next level. */
  ghost predicate GrowsRight(v: Version, level: nat, picked: seq<FileMeta>, inputs1: seq<FileMeta>,
                             inputs0: seq<FileMeta>)
    requires |v.files| == NumLevels && level + 1 < NumLevels && picked != []
  {
    if inputs1 == [] then inputs0 == picked
    else exists wide :: IsWide(v, level, picked, inputs1, wide)
                        && inputs0 == if MayGrow(v, level, picked, inputs1, wide) then wide else picked
  }

  lemma {:induction false} SameMembersSameFiles(files: seq<FileMeta>, lo: Bound, hi: Bound, lo': Bound, hi': Bound)
    requires forall f :: f in files ==> (Overlaps(f, lo, hi) <==> Overlaps(f, lo', hi'))
    ensures Overlapping(files, lo, hi) == Overlapping(files, lo', hi')
  {
    if files != [] {
      var n := |files| - 1;
      assert files[n] in files;
      SameMembersSameFiles(files[..n], lo, hi, lo', hi');
    }
  }

  /** As many files of the next level means the same ones. */
  lemma GrowthMeetsNoMore(v: Version, level: nat, picked: seq<FileMeta>, inputs1: seq<FileMeta>, wide: seq<FileMeta>,
                          smallest: IKey, largest: IKey, newStart: IKey, newLimit: IKey)
    requires |v.files| == NumLevels && level + 1 < NumLevels
    requires IsHull(picked, smallest, largest) && IsHull(wide, newStart, newLimit)
    requires forall f :: f in picked ==> f in wide
    requires inputs1 == Overlapping(v.files[level + 1], Some(smallest.user), Some(largest.user))
    ensures var files, lo, hi := v.files[level + 1], Some(newStart.user), Some(newLimit.user);
            && (|Overlapping(files, lo, hi)| == |inputs1| ==> Overlapping(files, lo, hi) == inputs1)
            && (|Overlapping(files, lo, hi)| == |inputs1| <==>
                  forall f :: f in files && MeetsHull(f, wide) ==> f in inputs1)
  {
    var files, lo, hi := v.files[level + 1], Some(newStart.user), Some(newLimit.user);
    HullUsers(picked, smallest, largest);
    HullUsers(wide, newStart, newLimit);
    NextLevelMeets(files, wide, newStart, newLimit);
    NarrowerSelectsFewer(files, Some(smallest.user), Some(largest.user), lo, hi);
    if forall f :: f in files && MeetsHull(f, wide) ==> f in inputs1 {
      SameMembersSameFiles(files, Some(smallest.user), Some(largest.user), lo, hi);
    }
  }

  /** Some files of the level, at level 0 with all they overlap. */
  ghost predicate IsChoice(v: Version, level: nat, files: seq<FileMeta>)
    requires |v.files| == NumLevels && level < NumLevels
  {
    && files != [] && (forall f :: f in files ==> f in v.files[level])
    && (level == 0 ==> ClosedUnderOverlap(v.files[0], files))
  }

  /** The growth step of SetupOtherInputs: more files of this level, if they fit and meet
      no more files of the next. */
  method TryToExpand(v: Version, level: nat, picked: seq<FileMeta>, inputs1: seq<FileMeta>,
                     smallest: IKey, largest: IKey)
    returns (inputs0: seq<FileMeta>, smallest': IKey, largest': IKey)
    requires WellFormed(v) && level + 1 < NumLevels && IsChoice(v, level, picked)
    requires IsHull(picked, smallest, largest) && inputs1 != []
    requires inputs1 == Overlapping(v.files[level + 1], Some(smallest.user), Some(largest.user))
    ensures IsHull(inputs0, smallest', largest') && IsChoice(v, level, inputs0)
    ensures forall f :: f in picked ==> f in inputs0
    ensures inputs1 == Overlapping(v.files[level + 1], Some(smallest'.user), Some(largest'.user))
    ensures GrowsRight(v, level, picked, inputs1, inputs0)
  {
    inputs0, smallest', largest' := picked, smallest, largest;
    var expanded0 := AllAround(v, level, picked, inputs1);
    if |expanded0| > |picked| && TotalFileSize(inputs1) + TotalFileSize(expanded0) < ExpandedCompactionByteSizeLimit {
      var same, newStart, newLimit := MeetsNoMore(v, level, picked, inputs1, expanded0, smallest, largest);
      if same {
        inputs0, smallest', largest' := expanded0, newStart, newLimit;
      }
    }
    WideDecides(v, level, picked, inputs1, expanded0, inputs0);
  }

  /** Whether a wider choice meets as many files of the next level, which are the same then. */
  method MeetsNoMore(v: Version, level: nat, picked: seq<FileMeta>, inputs1: seq<FileMeta>, wide: seq<FileMeta>,
                     smallest: IKey, largest: IKey)
    returns (same: bool, newStart: IKey, newLimit: IKey)
    requires |v.files| == NumLevels && level + 1 < NumLevels && wide != []
    requires IsHull(picked, smallest, largest) && forall f :: f in picked ==> f in wide
    requires inputs1 == Overlapping(v.files[level + 1], Some(smallest.user), Some(largest.user))
    ensures same <==> forall f :: f in v.files[level + 1] && MeetsHull(f, wide) ==> f in inputs1
    ensures IsHull(wide, newStart, newLimit)
    ensures same ==> inputs1 == Overlapping(v.files[level + 1], Some(newStart.user), Some(newLimit.user))
  {
    newStart, newLimit := GetRange(wide);
    var inputs1', _, _ := GetOverlappingInputs(v.files[level + 1], false, Some(newStart.user), Some(newLimit.user));
    GrowthMeetsNoMore(v, level, picked, inputs1, wide, smallest, largest, newStart, newLimit);
    same := |inputs1'| == |inputs1|;
  }

  method AllAround(v: Version, level: nat, picked: seq<FileMeta>, inputs1: seq<FileMeta>) returns (wide: seq<FileMeta>)
    requires WellFormed(v) && level + 1 < NumLevels && IsChoice(v, level, picked)
    ensures IsWide(v, level, picked, inputs1, wide) && IsChoice(v, level, wide)
    ensures forall f :: f in picked ==> f in wide
  {
    assert picked[0] in picked;
    var allStart, allLimit := GetRange(picked + inputs1);
    ghost var lo, hi;
    wide, lo, hi := GetOverlappingInputs(v.files[level], level == 0, Some(allStart.user), Some(allLimit.user));
    HullEnds(picked + inputs1, allStart, allLimit);
    ExpansionCovers(v, level, picked, inputs1, allStart, allLimit, wide, lo, hi);
  }

  lemma WideDecides(v: Version, level: nat, picked: seq<FileMeta>, inputs1: seq<FileMeta>, wide: seq<FileMeta>,
                    inputs0: seq<FileMeta>)
    requires |v.files| == NumLevels && level + 1 < NumLevels && picked != [] && inputs1 != []
    requires IsWide(v, level, picked, inputs1, wide)
    requires inputs0 == if MayGrow(v, level, picked, inputs1, wide) then wide else picked
    ensures GrowsRight(v, level, picked, inputs1, inputs0)
  {
  }

  /** `f` meets the user-key range spanned by `files`. */
  ghost predicate MeetsHull(f: FileMeta, files: seq<FileMeta>) {
    exists g, h :: g in files && h in files && g.smallest.user <= f.largest.user && f.smallest.user <= h.largest.user
  }

  lemma OverlapsHull(f: FileMeta, files: seq<FileMeta>, smallest: IKey, largest: IKey)
    requires IsHull(files, smallest, largest)
    ensures Overlaps(f, Some(smallest.user), Some(largest.user)) <==> MeetsHull(f, files)
  {
    HullUsers(files, smallest, largest);
  }

  lemma {:induction false} NextLevelMeets(files: seq<FileMeta>, picked: seq<FileMeta>, smallest: IKey, largest: IKey)
    requires IsHull(picked, smallest, largest)
    ensures forall f ::
             f in Overlapping(files, Some(smallest.user), Some(largest.user)) <==>
             f in files && MeetsHull(f, picked)
  {
    forall f
      ensures Overlaps(f, Some(smallest.user), Some(largest.user)) <==> MeetsHull(f, picked)
    {
      OverlapsHull(f, picked, smallest, largest);
    }
  }

  /** The files two levels down that meet the hull of the inputs. */
  ghost function GrandparentsOf(v: Version, level: nat, inputs: seq<FileMeta>): seq<FileMeta>
    requires |v.files| == NumLevels && inputs != []
  {
    if level + 2 < NumLevels then Overlapping(v.files[level + 2], Some(LowEnd(inputs)), Some(HighEnd(inputs))) else []
  }

  method Grandparents(v: Version, level: nat, inputs: seq<FileMeta>) returns (r: seq<FileMeta>)
    requires |v.files| == NumLevels && level + 1 < NumLevels && inputs != []
    ensures r == GrandparentsOf(v, level, inputs)
    ensures forall f :: f in r <==> level + 2 < NumLevels && f in v.files[level + 2] && MeetsHull(f, inputs)
  {
    r := [];
    if level + 2 < NumLevels {
      var allStart, allLimit := GetRange(inputs);
      HullEnds(inputs, allStart, allLimit);
      NextLevelMeets(v.files[level + 2], inputs, allStart, allLimit);
      ghost var lo, hi;
      r, lo, hi := GetOverlappingInputs(v.files[level + 2], false, Some(allStart.user), Some(allLimit.user));
    }
  }

  /** The compaction that SetupOtherInputs makes of what was picked. */
  ghost predicate SetUpFrom(v: Version, picked: seq<FileMeta>, c: CompactionInputs)
    requires |v.files| == NumLevels
  {
    && ChosenInputs(v, c) && picked != []
    && (forall f :: f in picked ==> f in c.inputs0)
    && (forall f :: f in c.inputs1 <==> f in v.files[c.level + 1] && MeetsHull(f, picked))
    && GrowsRight(v, c.level, picked, c.inputs1, c.inputs0)
    && c.grandparents == GrandparentsOf(v, c.level, c.inputs0 + c.inputs1)
  }

  /** SetupOtherInputs: adds the files of the next level, then tries to grow the inputs
      of this level without picking up more files of the next. */
  method SetupOtherInputs(v: Version, level: nat, picked: seq<FileMeta>) returns (c: CompactionInputs)
    requires WellFormed(v) && level + 1 < NumLevels
    requires picked != [] && forall f :: f in picked ==> f in v.files[level]
    requires level == 0 ==> ClosedUnderOverlap(v.files[0], picked)
    ensures c.level == level && SetUpFrom(v, picked, c)
  {
    var smallest, largest := GetRange(picked);
    var inputs0 := picked;
    var inputs1, _, _ := GetOverlappingInputs(v.files[level + 1], false, Some(smallest.user), Some(largest.user));
    NextLevelMeets(v.files[level + 1], picked, smallest, largest);
    if inputs1 != [] {
      inputs0, smallest, largest := TryToExpand(v, level, picked, inputs1, smallest, largest);
    }
    var grandparents := Grandparents(v, level, inputs0 + inputs1);
    c := CompactionInputs(level, inputs0, inputs1, grandparents, smallest, largest);
  }

  lemma HullUsers(files: seq<FileMeta>, smallest: IKey, largest: IKey)
    requires IsHull(files, smallest, largest)
    ensures forall f :: f in files ==> smallest.user <= f.smallest.user && f.largest.user <= largest.user
    ensures exists g :: g in files && g.smallest.user == smallest.user
    ensures exists h :: h in files && h.largest.user == largest.user
  {
  }

  lemma {:induction false} ExpansionCovers(v: Version, level: nat, picked: seq<FileMeta>, inputs1: seq<FileMeta>,
                  allStart: IKey, allLimit: IKey, expanded0: seq<FileMeta>, lo: Bound, hi: Bound)
    requires WellFormed(v) && level + 1 < NumLevels
    requires forall f :: f in picked ==> f in v.files[level]
    requires IsHull(picked + inputs1, allStart, allLimit)
    requires AtOrBelow(lo, Some(allStart.user)) && AtOrAbove(hi, Some(allLimit.user))
    requires expanded0 == Overlapping(v.files[level], lo, hi)
    requires level == 0 ==> Closed(v.files[0], lo, hi)
    ensures forall f :: f in picked ==> f in expanded0
    ensures level == 0 ==> ClosedUnderOverlap(v.files[0], expanded0)
  {
    forall f | f in picked
      ensures f in expanded0
    {
      assert f in picked + inputs1;
      SmallestToLargest(f, f.entries[0]);
    }
  }

  lemma {:induction false} GrowthNeedsOverlap(files: seq<FileMeta>, lo: Bound, hi: Bound, b: Bound, e: Bound)
    requires Least(files, lo, hi, b, e) && Overlapping(files, b, e) != []
    ensures exists f :: f in files && Overlaps(f, lo, hi)
  {
    var g := Overlapping(files, b, e)[0];
    assert g in Overlapping(files, b, e);
    if forall f :: f in files ==> !Overlaps(f, lo, hi) {
      assert Closed(files, lo, hi);
    }
  }

  /** The shortest prefix that reaches the size limit, or everything. */
  ghost predicate IsFirstBytes(inputs: seq<FileMeta>, r: seq<FileMeta>) {
    && r <= inputs && (r == inputs || TotalFileSize(r) >= TargetFileSize)
    && forall n :: 0 <= n < |r| ==> TotalFileSize(inputs[..n]) < TargetFileSize
  }

  method FirstBytes(inputs: seq<FileMeta>) returns (r: seq<FileMeta>)
    requires inputs != []
    ensures r != [] && IsFirstBytes(inputs, r)
  {
    var total := 0;
    for i := 0 to |inputs|
      invariant total == TotalFileSize(inputs[..i])
      invariant forall n :: 0 <= n <= i ==> TotalFileSize(inputs[..n]) < TargetFileSize
    {
      assert inputs[..i + 1][..i] == inputs[..i];
      total := total + inputs[i].fileSize;
      if total >= TargetFileSize {
        return inputs[..i + 1];
      }
    }
    r := inputs;
  }

  method InputsInRange(v: Version, level: nat, lo: Bound, hi: Bound) returns (inputs: seq<FileMeta>)
    requires WellFormed(v) && level + 1 < NumLevels
    ensures Meets(v.files[level], level, lo, hi, inputs)
    ensures inputs == [] <==> forall f :: f in v.files[level] ==> !Overlaps(f, lo, hi)
    ensures forall f :: f in v.files[level] && Overlaps(f, lo, hi) ==> f in inputs
    ensures forall f :: f in inputs ==> f in v.files[level]
    ensures level == 0 ==> ClosedUnderOverlap(v.files[0], inputs)
  {
    ghost var lo', hi';
    inputs, lo', hi' := GetOverlappingInputs(v.files[level], level == 0, lo, hi);
    if inputs != [] {
      assert inputs[0] in inputs;
      GrowthNeedsOverlap(v.files[level], lo, hi, lo', hi');
    } else {
      NothingInRange(v.files[level], lo, hi, lo', hi');
    }
    if level == 0 {
      ClosedRangeIsClosed(v.files[0], lo', hi');
    }
  }

  lemma {:induction false} NothingInRange(files: seq<FileMeta>, lo: Bound, hi: Bound, b: Bound, e: Bound)
    requires AtOrBelow(b, lo) && AtOrAbove(e, hi) && Overlapping(files, b, e) == []
    ensures forall f :: f in files ==> !Overlaps(f, lo, hi)
  {
    assert forall f :: f in files ==> f !in Overlapping(files, b, e);
  }

  /** What a manual compaction of a range begins with: at level 0 everything that overlaps,
      elsewhere the first files of the range that reach the size limit. */
  ghost predicate Requested(v: Version, level: nat, lo: Bound, hi: Bound, picked: seq<FileMeta>)
    requires |v.files| == NumLevels && level < NumLevels
  {
    if level > 0 then IsFirstBytes(Overlapping(v.files[level], lo, hi), picked)
    else Meets(v.files[0], 0, lo, hi, picked)
  }

  /** CompactRange: None when nothing overlaps; above level 0 only as many files as reach
      the size limit. */
  method CompactRange(v: Version, level: nat, lo: Bound, hi: Bound)
    returns (r: Option<CompactionInputs>, ghost picked: seq<FileMeta>)
    requires WellFormed(v) && level + 1 < NumLevels
    ensures r.None? <==> forall f :: f in v.files[level] ==> !Overlaps(f, lo, hi)
    ensures r.Some? ==> r.value.level == level && Requested(v, level, lo, hi, picked) && SetUpFrom(v, picked, r.value)
    ensures r.Some? && level == 0 ==> forall f :: f in v.files[0] && Overlaps(f, lo, hi) ==> f in r.value.inputs0
  {
    var inputs := InputsInRange(v, level, lo, hi);
    picked := inputs;
    if inputs == [] {
      return None, picked;
    }
    if level > 0 {
      inputs := FirstBytes(inputs);
      picked := inputs;
    }
    var c := SetupOtherInputs(v, level, inputs);
    r := Some(c);
  }

  /** The first file of the level that ends after the place where the last compaction of it
      ended, or else the first of all. */
  method PickStart(v: Version, level: nat, pointer: Option<IKey>) returns (start: FileMeta, k: nat)
    requires |v.files| == NumLevels && level < NumLevels && v.files[level] != []
    ensures k < |v.files[level]| && start == v.files[level][k]
    ensures if exists f :: f in v.files[level] && EndsAfterPointer(f, pointer) then
              && EndsAfterPointer(start, pointer)
              && forall j :: 0 <= j < k ==> !EndsAfterPointer(v.files[level][j], pointer)
            else k == 0
  {
    var files := v.files[level];
    for i := 0 to |files|
      invariant forall j :: 0 <= j < i ==> !EndsAfterPointer(files[j], pointer)
    {
      if EndsAfterPointer(files[i], pointer) {
        return files[i], i;
      }
    }
    start, k := files[0], 0;
  }

  predicate EndsAfterPointer(f: FileMeta, pointer: Option<IKey>) {
    pointer.None? || Less(pointer.value, f.largest)
  }

  /** PickCompaction, from the file its size or seek rule names: at level 0 the file is
      replaced by everything it overlaps, itself included. */
  method PickCompaction(v: Version, level: nat, start: FileMeta)
    returns (c: CompactionInputs, ghost picked: seq<FileMeta>)
    requires WellFormed(v) && level + 1 < NumLevels && start in v.files[level]
    ensures c.level == level && SetUpFrom(v, picked, c)
    ensures if level > 0 then picked == [start]
            else Meets(v.files[0], 0, Some(start.smallest.user), Some(start.largest.user), picked)
    ensures start in c.inputs0
  {
    var inputs := [start];
    if level == 0 {
      var smallest, largest := GetRange(inputs);
      ghost var lo, hi;
      inputs, lo, hi := GetOverlappingInputs(v.files[0], true, Some(smallest.user), Some(largest.user));
      SmallestToLargest(start, start.entries[0]);
      assert start in inputs;
      ClosedRangeIsClosed(v.files[0], lo, hi);
    }
    picked := inputs;
    c := SetupOtherInputs(v, level, inputs);
  }
}
