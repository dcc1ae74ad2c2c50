/** Running a compaction (db/db_impl.cc DoCompactionWork, db/version_set.cc Compaction). */
module Compactions {
  import opened Bytes
  import opened Keys
  import opened Versions
  import opened Picking

  /** No file below the output level has `user` in its range. */
  ghost predicate BaseLevel(v: Version, level: nat, user: UserKey)
    requires |v.files| == NumLevels
  {
    forall l, f :: level + 2 <= l < NumLevels && f in v.files[l] ==> !(f.smallest.user <= user <= f.largest.user)
  }

  /** Rule (A): an entry is hidden when the one before it, for the same user key, is
      already visible to every reader. */
  ghost predicate Hidden(smallestSnapshot: SequenceNumber, input: seq<Entry>, i: nat)
    requires i < |input|
  {
    i > 0 && input[i - 1].key.user == input[i].key.user && input[i - 1].key.sequence <= smallestSnapshot
  }

  /** The tombstone rule. */
  ghost predicate Obsolete(v: Version, level: nat, smallestSnapshot: SequenceNumber, e: Entry)
    requires |v.files| == NumLevels
  {
    e.key.kind.Deletion? && e.key.sequence <= smallestSnapshot && BaseLevel(v, level, e.key.user)
  }

  ghost predicate Dropped(v: Version, level: nat, smallestSnapshot: SequenceNumber, input: seq<Entry>, i: nat)
    requires |v.files| == NumLevels && i < |input|
  {
    Hidden(smallestSnapshot, input, i) || Obsolete(v, level, smallestSnapshot, input[i])
  }

  /** The entries a compaction writes, out of the merged input. */
  ghost function Survivors(v: Version, level: nat, smallestSnapshot: SequenceNumber, input: seq<Entry>,
                           n: nat): seq<Entry>
    requires |v.files| == NumLevels && n <= |input|
  {
    if n == 0 then []
    else Survivors(v, level, smallestSnapshot, input, n - 1)
         + (if Dropped(v, level, smallestSnapshot, input, n - 1) then [] else [input[n - 1]])
  }

  /** CompactionState: the finished tables and the one being built, empty when there is none. */
  datatype Tables = Tables(closed: seq<seq<Entry>>, open: seq<Entry>) {
    ghost predicate Valid() {
      forall o :: o in closed ==> o != []
    }

    ghost function All(): seq<Entry> {
      Concat(closed) + open
    }

    function Finish(): (r: Tables)
      requires Valid() && open != []
      ensures r.Valid() && r.open == [] && r.All() == All()
    {
      assert (closed + [open])[..|closed|] == closed;
      Tables(closed + [open], [])
    }

    function Add(e: Entry): (r: Tables)
      requires Valid()
      ensures r.Valid() && r.open != [] && r.All() == All() + [e]
    {
      Tables(closed, open + [e])
    }
  }

  // Where outputs are cut

  /** The size that FileSize tells after a builder was given some entries. */
  type FileSize = seq<Entry> -> nat

  /** The bytes of the grandparents that end at or after `a` and before `z`: those an output
      from `a` to `z` passes. */
  ghost function PassedBytes(grandparents: seq<FileMeta>, a: IKey, z: IKey): nat {
    if grandparents == [] then 0
    else
      var rest, g := grandparents[..|grandparents| - 1], grandparents[|grandparents| - 1];
      PassedBytes(rest, a, z) + if !Less(g.largest, a) && Less(g.largest, z) then g.fileSize else 0
  }

  /** The tables so far, and the key from which on passed bytes are counted. */
  datatype Cut = Cut(tables: Tables, since: IKey)

  ghost predicate Exceeds(grandparents: seq<FileMeta>, since: IKey, key: IKey) {
    PassedBytes(grandparents, since, key) > MaxGrandParentOverlapBytes
  }

  function FinishOpen(tables: Tables): (r: Tables)
    requires tables.Valid()
    ensures r.Valid() && r.open == [] && r.All() == tables.All()
  {
    if tables.open == [] then tables else tables.Finish()
  }

  /** Before a key the output is closed if too many bytes have been passed. */
  ghost function StopBefore(grandparents: seq<FileMeta>, cut: Cut, key: IKey): (r: Cut)
    requires cut.tables.Valid()
    ensures r.tables.Valid() && r.tables.All() == cut.tables.All()
  {
    if Exceeds(grandparents, cut.since, key) then Cut(FinishOpen(cut.tables), key) else cut
  }

  /** An entry is added, and an output that is big enough is closed. */
  function AddTo(fileSize: FileSize, tables: Tables, e: Entry): (r: Tables)
    requires tables.Valid()
    ensures r.Valid() && r.All() == tables.All() + [e]
  {
    var more := tables.Add(e);
    if fileSize(more.open) >= TargetFileSize then more.Finish() else more
  }

  /** Nothing is counted before the first key. */
  ghost function CutAfter(v: Version, c: CompactionInputs, smallest: SequenceNumber, fileSize: FileSize,
                          input: seq<Entry>, n: nat): (r: Cut)
    requires |v.files| == NumLevels && n <= |input| && input != []
    ensures r.tables.Valid() && r.tables.All() == Survivors(v, c.level, smallest, input, n)
  {
    if n == 0 then Cut(Tables([], []), input[0].key)
    else
      var cut := StopBefore(c.grandparents, CutAfter(v, c, smallest, fileSize, input, n - 1), input[n - 1].key);
      if Dropped(v, c.level, smallest, input, n - 1) then cut
      else cut.(tables := AddTo(fileSize, cut.tables, input[n - 1]))
  }

  /** The finished outputs. */
  ghost function Outputs(v: Version, c: CompactionInputs, smallest: SequenceNumber, fileSize: FileSize,
                         input: seq<Entry>): seq<seq<Entry>>
    requires |v.files| == NumLevels
  {
    if input == [] then [] else FinishOpen(CutAfter(v, c, smallest, fileSize, input, |input|).tables).closed
  }

  // What the outputs are

  function FirstKey(o: seq<Entry>): IKey
    requires o != []
  {
    o[0].key
  }

  function LastKey(o: seq<Entry>): IKey
    requires o != []
  {
    o[|o| - 1].key
  }

  /** The output passes no more bytes of grandparents than the limit. */
  ghost predicate WithinLimit(grandparents: seq<FileMeta>, o: seq<Entry>) {
    o != [] && PassedBytes(grandparents, FirstKey(o), LastKey(o)) <= MaxGrandParentOverlapBytes
  }

  predicate IsFull(fileSize: FileSize, o: seq<Entry>) {
    fileSize(o) >= TargetFileSize
  }

  /** The output was not big enough before its last entry. */
  ghost predicate FullAtLast(fileSize: FileSize, o: seq<Entry>) {
    forall k :: 0 < k < |o| ==> !IsFull(fileSize, o[..k])
  }

  ghost predicate NoneEmpty(outputs: seq<seq<Entry>>) {
    forall o :: o in outputs ==> o != []
  }

  /** From where the bytes are counted that may end output `j`: the last key of the latest
      output before it that was not full, or else the first key of all. */
  function CountedFrom(fileSize: FileSize, first: IKey, outputs: seq<seq<Entry>>, j: nat): IKey
    requires j <= |outputs|
  {
    if j == 0 then first
    else if IsFull(fileSize, outputs[j - 1]) || outputs[j - 1] == [] then CountedFrom(fileSize, first, outputs, j - 1)
    else LastKey(outputs[j - 1])
  }

  /** Output `j` ends before `next` because it is full, or because too many bytes were passed. */
  ghost predicate EndsForReason(grandparents: seq<FileMeta>, fileSize: FileSize, first: IKey,
                                outputs: seq<seq<Entry>>, j: nat, next: IKey)
    requires j < |outputs|
  {
    IsFull(fileSize, outputs[j]) || Exceeds(grandparents, CountedFrom(fileSize, first, outputs, j), next)
  }

  ghost predicate AllEndForReason(grandparents: seq<FileMeta>, fileSize: FileSize, first: IKey,
                                  outputs: seq<seq<Entry>>)
  {
    forall j {:trigger EndsBeforeNext(grandparents, fileSize, first, outputs, j)} :: 0 <= j < |outputs| - 1 ==>
      EndsBeforeNext(grandparents, fileSize, first, outputs, j)
  }

  ghost predicate EndsBeforeNext(grandparents: seq<FileMeta>, fileSize: FileSize, first: IKey,
                                 outputs: seq<seq<Entry>>, j: nat)
    requires j + 1 < |outputs|
  {
    outputs[j + 1] != [] && EndsForReason(grandparents, fileSize, first, outputs, j, FirstKey(outputs[j + 1]))
  }

  predicate AtOrBefore(a: IKey, b: IKey) {
    a == b || Less(a, b)
  }

  lemma {:induction false} WiderPassesMore(grandparents: seq<FileMeta>, a: IKey, z: IKey, a': IKey, z': IKey)
    requires AtOrBefore(a', a) && AtOrBefore(z, z')
    ensures PassedBytes(grandparents, a, z) <= PassedBytes(grandparents, a', z')
  {
    if grandparents != [] {
      WiderPassesMore(grandparents[..|grandparents| - 1], a, z, a', z');
    }
  }

  lemma {:induction false} PassesNothing(grandparents: seq<FileMeta>, a: IKey)
    ensures PassedBytes(grandparents, a, a) == 0
  {
    if grandparents != [] {
      PassesNothing(grandparents[..|grandparents| - 1], a);
    }
  }

  lemma {:induction false} CountedFromFront(fileSize: FileSize, first: IKey, outputs: seq<seq<Entry>>,
                                            o: seq<Entry>, j: nat)
    requires j <= |outputs|
    ensures CountedFrom(fileSize, first, outputs + [o], j) == CountedFrom(fileSize, first, outputs, j)
  {
    if j > 0 {
      CountedFromFront(fileSize, first, outputs, o, j - 1);
      assert (outputs + [o])[j - 1] == outputs[j - 1];
    }
  }

  /** The last output ends for a reason, if the next begins at `next`. */
  ghost predicate LastEnds(grandparents: seq<FileMeta>, fileSize: FileSize, first: IKey,
                           outputs: seq<seq<Entry>>, next: IKey) {
    outputs != [] ==> EndsForReason(grandparents, fileSize, first, outputs, |outputs| - 1, next)
  }

  /** All that holds of finished outputs. */
  ghost predicate WellClosed(grandparents: seq<FileMeta>, fileSize: FileSize, first: IKey, outputs: seq<seq<Entry>>) {
    && NoneEmpty(outputs)
    && (forall o :: o in outputs ==> WithinLimit(grandparents, o) && FullAtLast(fileSize, o))
    && AllEndForReason(grandparents, fileSize, first, outputs)
  }

  lemma OneMoreClosed(grandparents: seq<FileMeta>, fileSize: FileSize, first: IKey, outputs: seq<seq<Entry>>,
                      o: seq<Entry>)
    requires WellClosed(grandparents, fileSize, first, outputs)
    requires WithinLimit(grandparents, o) && FullAtLast(fileSize, o)
    requires LastEnds(grandparents, fileSize, first, outputs, FirstKey(o))
    ensures WellClosed(grandparents, fileSize, first, outputs + [o])
  {
    var more := outputs + [o];
    forall j | 0 <= j < |more| - 1
      ensures EndsBeforeNext(grandparents, fileSize, first, more, j)
    {
      assert more[j] == outputs[j];
      CountedFromFront(fileSize, first, outputs, o, j);
      if j < |outputs| - 1 {
        assert more[j + 1] == outputs[j + 1] && EndsBeforeNext(grandparents, fileSize, first, outputs, j);
      }
    }
  }

  /** What holds once all entries up to `last` have been taken in. */
  ghost predicate WellCut(grandparents: seq<FileMeta>, fileSize: FileSize, first: IKey, cut: Cut, last: IKey) {
    var t := cut.tables;
    && AtOrBefore(cut.since, last) && !Exceeds(grandparents, cut.since, last)
    && WellClosed(grandparents, fileSize, first, t.closed)
    && AtOrBefore(CountedFrom(fileSize, first, t.closed, |t.closed|), cut.since)
    && LastEnds(grandparents, fileSize, first, t.closed, if t.open == [] then last else FirstKey(t.open))
    && (t.open != [] ==> OpenFits(fileSize, t.open, cut.since, last))
  }

  ghost predicate OpenFits(fileSize: FileSize, open: seq<Entry>, since: IKey, last: IKey)
    requires open != []
  {
    && AtOrBefore(since, FirstKey(open)) && AtOrBefore(LastKey(open), last)
    && FullAtLast(fileSize, open) && !IsFull(fileSize, open)
  }

  lemma LastEndsLater(grandparents: seq<FileMeta>, fileSize: FileSize, first: IKey, outputs: seq<seq<Entry>>,
                      next: IKey, later: IKey)
    requires LastEnds(grandparents, fileSize, first, outputs, next) && AtOrBefore(next, later)
    ensures LastEnds(grandparents, fileSize, first, outputs, later)
  {
    if outputs != [] {
      var from := CountedFrom(fileSize, first, outputs, |outputs| - 1);
      WiderPassesMore(grandparents, from, next, from, later);
    }
  }

  /** Finishing the open output keeps to the limit and to its reasons. */
  lemma FinishesWell(grandparents: seq<FileMeta>, fileSize: FileSize, first: IKey, cut: Cut, last: IKey)
    requires cut.tables.Valid() && WellCut(grandparents, fileSize, first, cut, last)
    ensures WellClosed(grandparents, fileSize, first, FinishOpen(cut.tables).closed)
  {
    var t := cut.tables;
    if t.open != [] {
      WiderPassesMore(grandparents, FirstKey(t.open), LastKey(t.open), cut.since, last);
      OneMoreClosed(grandparents, fileSize, first, t.closed, t.open);
    }
  }

  lemma StopsWell(grandparents: seq<FileMeta>, fileSize: FileSize, first: IKey, cut: Cut, last: IKey, key: IKey)
    requires cut.tables.Valid() && WellCut(grandparents, fileSize, first, cut, last) && Less(last, key)
    ensures WellCut(grandparents, fileSize, first, StopBefore(grandparents, cut, key), key)
    ensures var open := StopBefore(grandparents, cut, key).tables.open; open != [] ==> Less(LastKey(open), key)
  {
    var t := cut.tables;
    if Exceeds(grandparents, cut.since, key) {
      var t' := FinishOpen(t);
      FinishesWell(grandparents, fileSize, first, cut, last);
      PassesNothing(grandparents, key);
      if t.open == [] {
        LastEndsLater(grandparents, fileSize, first, t.closed, last, key);
      } else {
        CountedFromFront(fileSize, first, t.closed, t.open, |t.closed|);
        WiderPassesMore(grandparents, cut.since, key, CountedFrom(fileSize, first, t.closed, |t.closed|), key);
      }
    } else if t.open == [] {
      LastEndsLater(grandparents, fileSize, first, t.closed, last, key);
    }
  }

  lemma AddsWell(grandparents: seq<FileMeta>, fileSize: FileSize, first: IKey, cut: Cut, e: Entry)
    requires cut.tables.Valid() && WellCut(grandparents, fileSize, first, cut, e.key)
    requires cut.tables.open != [] ==> Less(LastKey(cut.tables.open), e.key)
    ensures WellCut(grandparents, fileSize, first, cut.(tables := AddTo(fileSize, cut.tables, e)), e.key)
  {
    var t := cut.tables;
    var open := t.open + [e];
    forall k | 0 < k < |open|
      ensures !IsFull(fileSize, open[..k])
    {
      if k < |t.open| {
        assert open[..k] == t.open[..k];
      } else {
        assert open[..k] == t.open;
      }
    }
    assert LastEnds(grandparents, fileSize, first, t.closed, FirstKey(open));
    if IsFull(fileSize, open) {
      WiderPassesMore(grandparents, FirstKey(open), e.key, cut.since, e.key);
      OneMoreClosed(grandparents, fileSize, first, t.closed, open);
      CountedFromFront(fileSize, first, t.closed, open, |t.closed|);
    }
  }

  lemma {:induction false} CutsWell(v: Version, c: CompactionInputs, smallest: SequenceNumber, fileSize: FileSize,
                                    input: seq<Entry>, n: nat)
    requires |v.files| == NumLevels && Sorted(input) && 0 < n <= |input|
    ensures WellCut(c.grandparents, fileSize, input[0].key, CutAfter(v, c, smallest, fileSize, input, n),
                    input[n - 1].key)
  {
    var first, key := input[0].key, input[n - 1].key;
    var before := CutAfter(v, c, smallest, fileSize, input, n - 1);
    if n == 1 {
      PassesNothing(c.grandparents, key);
      assert WellCut(c.grandparents, fileSize, first, StopBefore(c.grandparents, before, key), key);
    } else {
      CutsWell(v, c, smallest, fileSize, input, n - 1);
      StopsWell(c.grandparents, fileSize, first, before, input[n - 2].key, key);
    }
    if !Dropped(v, c.level, smallest, input, n - 1) {
      AddsWell(c.grandparents, fileSize, first, StopBefore(c.grandparents, before, key), input[n - 1]);
    }
  }

  /** No output passes more bytes of grandparents than the limit, none goes on when it is big
      enough, and none but the last ends without a reason. */
  lemma {:induction false} OutputsAreCutWell(v: Version, c: CompactionInputs, smallest: SequenceNumber,
                                             fileSize: FileSize, input: seq<Entry>)
    requires |v.files| == NumLevels && Sorted(input)
    ensures var outputs := Outputs(v, c, smallest, fileSize, input);
            && NoneEmpty(outputs)
            && (forall o :: o in outputs ==> WithinLimit(c.grandparents, o) && FullAtLast(fileSize, o))
            && (input != [] ==> AllEndForReason(c.grandparents, fileSize, input[0].key, outputs))
    ensures Concat(Outputs(v, c, smallest, fileSize, input)) == Survivors(v, c.level, smallest, input, |input|)
  {
    if input != [] {
      var cut := CutAfter(v, c, smallest, fileSize, input, |input|);
      CutsWell(v, c, smallest, fileSize, input, |input|);
      FinishesWell(c.grandparents, fileSize, input[0].key, cut, input[|input| - 1].key);
      assert FinishOpen(cut.tables).All() == Concat(FinishOpen(cut.tables).closed);
    }
  }

  lemma {:induction false} PassedTwice(grandparents: seq<FileMeta>, a: IKey, m: IKey, z: IKey)
    requires AtOrBefore(a, m) && AtOrBefore(m, z)
    ensures PassedBytes(grandparents, a, z) == PassedBytes(grandparents, a, m) + PassedBytes(grandparents, m, z)
  {
    if grandparents != [] {
      PassedTwice(grandparents[..|grandparents| - 1], a, m, z);
    }
  }

  // The cursor over the grandparents

  ghost predicate Ascend(files: seq<FileMeta>) {
    forall i, j :: 0 <= i < j < |files| ==> Less(files[i].largest, files[j].largest)
  }

  /** The files of a sorted level that meet a range end in order. */
  lemma {:induction false} GrandparentsAscend(files: seq<FileMeta>, lo: Bound, hi: Bound)
    requires ValidFiles(files) && KeyDisjoint(files)
    ensures Ascend(Overlapping(files, lo, hi))
  {
    if files != [] {
      var rest, last := files[..|files| - 1], files[|files| - 1];
      GrandparentsAscend(rest, lo, hi);
      var before := Overlapping(rest, lo, hi);
      forall i | 0 <= i < |before|
        ensures Less(before[i].largest, last.largest)
      {
        assert before[i] in rest;
        SmallestToLargest(last, last.entries[0]);
      }
    }
  }

  /** The first `i` files are those that end before the key. */
  ghost predicate Stands(files: seq<FileMeta>, i: nat, key: IKey) {
    && i <= |files|
    && (forall k :: 0 <= k < i ==> Less(files[k].largest, key))
    && (forall k :: i <= k < |files| ==> !Less(files[k].largest, key))
  }

  /** The last file counts only if all are taken. */
  lemma OneMoreTotal(files: seq<FileMeta>, i: nat)
    requires i <= |files| && files != []
    ensures var n := |files| - 1;
            TotalFileSize(files[..i]) == if i > n then TotalFileSize(files[..n]) + files[n].fileSize
                                         else TotalFileSize(files[..n][..i])
    ensures var n := |files| - 1; i > n ==> files[..n][..n] == files[..n]
  {
    var n := |files| - 1;
    if i > n {
      assert files[..i] == files && files[..i][..n] == files[..n];
    } else {
      assert files[..n][..i] == files[..i];
    }
  }

  lemma {:induction false} PassedBetween(files: seq<FileMeta>, i: nat, a: IKey, j: nat, z: IKey)
    requires Stands(files, i, a) && Stands(files, j, z) && i <= j
    ensures PassedBytes(files, a, z) == TotalFileSize(files[..j]) - TotalFileSize(files[..i])
  {
    if files != [] {
      var n := |files| - 1;
      var i', j' := if i > n then n else i, if j > n then n else j;
      PassedBetween(files[..n], i', a, j', z);
      OneMoreTotal(files, i);
      OneMoreTotal(files, j);
    }
  }

  class Compaction {
    const inputVersion: Version
    const chosen: CompactionInputs
    const levelPtrs: array<nat>
    var grandparentIndex: nat
    var seenKey: bool
    var overlappedBytes: nat

    ghost predicate CursorsValid()
      reads levelPtrs
    {
      && WellFormed(inputVersion)
      && chosen.level + 1 < NumLevels
      && levelPtrs.Length == NumLevels
      && forall l :: 0 <= l < NumLevels ==> levelPtrs[l] <= |inputVersion.files[l]|
    }

    ghost predicate Valid()
      reads this, levelPtrs
    {
      CursorsValid() && grandparentIndex <= |chosen.grandparents| && Ascend(chosen.grandparents)
    }

    /** The one-way cursors have passed only files that end before `user`. */
    ghost predicate Behind(user: UserKey)
      requires CursorsValid()
      reads levelPtrs
    {
      forall l, i :: chosen.level + 2 <= l < NumLevels && 0 <= i < levelPtrs[l]
        ==> inputVersion.files[l][i].largest.user < user
    }

    /** The cursors can answer for every key of the input from index `i` on. */
    ghost predicate Ready(input: seq<Entry>, i: nat)
      requires CursorsValid() && i <= |input|
      reads levelPtrs
    {
      forall j :: i <= j < |input| ==> Behind(input[j].key.user)
    }

    constructor (v: Version, c: CompactionInputs)
      requires WellFormed(v) && c.level + 1 < NumLevels && Ascend(c.grandparents)
      ensures Valid() && fresh(levelPtrs)
      ensures inputVersion == v && chosen == c
      ensures forall user :: Behind(user)
      ensures grandparentIndex == 0 && !seenKey && overlappedBytes == 0
    {
      inputVersion, chosen := v, c;
      levelPtrs := new nat[NumLevels](_ => 0);
      grandparentIndex, seenKey, overlappedBytes := 0, false, 0;
    }

    /** IsBaseLevelForKey, right for any run of nondecreasing keys. */
    method IsBaseLevelForKey(user: UserKey) returns (r: bool)
      requires CursorsValid() && Behind(user)
      modifies levelPtrs
      ensures CursorsValid() && Behind(user)
      ensures r <==> BaseLevel(inputVersion, chosen.level, user)
    {
      for lvl := chosen.level + 2 to NumLevels
        invariant CursorsValid() && Behind(user)
        invariant forall l, f ::
                   chosen.level + 2 <= l < lvl && f in inputVersion.files[l] ==>
                   !(f.smallest.user <= user <= f.largest.user)
      {
        var files := inputVersion.files[lvl];
        while levelPtrs[lvl] < |files|
          invariant CursorsValid() && Behind(user)
          decreases |files| - levelPtrs[lvl]
        {
          var f := files[levelPtrs[lvl]];
          if user <= f.largest.user {
            if user >= f.smallest.user {
              return false;
            }
            break;
          }
          levelPtrs[lvl] := levelPtrs[lvl] + 1;
        }
        NotInLevel(files, levelPtrs[lvl], user);
      }
      r := true;
    }

    /** ShouldStopBefore: skips the grandparents that end before `key`, and asks for a new
        output once those skipped since the last one exceed the limit. */
    method ShouldStopBefore(key: IKey) returns (r: bool)
      requires Valid()
      modifies this`grandparentIndex, this`seenKey, this`overlappedBytes
      ensures Valid() && seenKey
      ensures old(grandparentIndex) <= grandparentIndex
      ensures forall i :: old(grandparentIndex) <= i < grandparentIndex ==> Less(chosen.grandparents[i].largest, key)
      ensures grandparentIndex < |chosen.grandparents| ==> !Less(chosen.grandparents[grandparentIndex].largest, key)
      ensures var skipped := if old(seenKey) then TotalFileSize(chosen.grandparents[..grandparentIndex])
                                                  - TotalFileSize(chosen.grandparents[..old(grandparentIndex)]) else 0;
              && (r <==> old(overlappedBytes) + skipped > MaxGrandParentOverlapBytes)
              && overlappedBytes == if r then 0 else old(overlappedBytes) + skipped
    {
      ghost var first := grandparentIndex;
      while grandparentIndex < |chosen.grandparents| && Less(chosen.grandparents[grandparentIndex].largest, key)
        invariant Valid() && first <= grandparentIndex && seenKey == old(seenKey)
        invariant forall i :: first <= i < grandparentIndex ==> Less(chosen.grandparents[i].largest, key)
        invariant overlappedBytes == old(overlappedBytes)
                  + if seenKey then TotalFileSize(chosen.grandparents[..grandparentIndex])
                                    - TotalFileSize(chosen.grandparents[..first]) else 0
        decreases |chosen.grandparents| - grandparentIndex
      {
        ghost var next := chosen.grandparents[..grandparentIndex + 1];
        assert next[..|next| - 1] == chosen.grandparents[..grandparentIndex];
        if seenKey {
          overlappedBytes := overlappedBytes + chosen.grandparents[grandparentIndex].fileSize;
        }
        grandparentIndex := grandparentIndex + 1;
      }
      seenKey := true;
      if overlappedBytes > MaxGrandParentOverlapBytes {
        overlappedBytes := 0;
        r := true;
      } else {
        r := false;
      }
    }

    /** The drop decision for entry `i`, given what the loop remembers of entry `i - 1`. */
    method ShouldDrop(input: seq<Entry>, i: nat, currentUserKey: Option<UserKey>, lastSequenceForKey: SequenceNumber,
                      smallestSnapshot: SequenceNumber) returns (drop: bool)
      requires CursorsValid() && i < |input| && Sorted(input) && Ready(input, i) && smallestSnapshot < MaxSequence
      requires if i == 0 then currentUserKey.None?
               else currentUserKey == Some(input[i - 1].key.user) && lastSequenceForKey == input[i - 1].key.sequence
      modifies levelPtrs
      ensures CursorsValid() && Ready(input, i + 1)
      ensures drop <==> Dropped(inputVersion, chosen.level, smallestSnapshot, input, i)
    {
      var ikey := input[i].key;
      var last := if currentUserKey != Some(ikey.user) then MaxSequence else lastSequenceForKey;
      drop := false;
      if last <= smallestSnapshot {
        drop := true;
      } else if ikey.kind.Deletion? && ikey.sequence <= smallestSnapshot {
        drop := IsBaseLevelForKey(ikey.user);
      }
      assert forall j :: i < j < |input| ==> Less(ikey, input[j].key);
    }

    /** The cursor has been asked about all keys up to `last`, and has counted what was passed
        since the cut's key. */
    ghost predicate Counts(since: IKey, last: IKey)
      reads this
    {
      && seenKey && Stands(chosen.grandparents, grandparentIndex, last) && AtOrBefore(since, last)
      && overlappedBytes == PassedBytes(chosen.grandparents, since, last)
    }

    /** Nothing was asked yet, or everything up to entry `i`. */
    ghost predicate CountsUpTo(input: seq<Entry>, i: nat, since: IKey)
      requires i < |input|
      reads this
    {
      if i == 0 then grandparentIndex == 0 && !seenKey && overlappedBytes == 0 && since == input[0].key
      else Counts(since, input[i - 1].key)
    }

    /** ShouldStopBefore in terms of the bytes that were passed. */
    method AskStop(input: seq<Entry>, i: nat, ghost since: IKey) returns (stop: bool)
      requires Valid() && Sorted(input) && i < |input| && CountsUpTo(input, i, since)
      modifies this`grandparentIndex, this`seenKey, this`overlappedBytes
      ensures Valid() && stop == Exceeds(chosen.grandparents, since, input[i].key)
      ensures Counts(if stop then input[i].key else since, input[i].key)
    {
      ghost var gs, first := chosen.grandparents, grandparentIndex;
      var key := input[i].key;
      stop := ShouldStopBefore(key);
      assert i > 0 ==> Less(input[i - 1].key, key);
      assert Stands(gs, grandparentIndex, key);
      PassesNothing(gs, key);
      if i > 0 {
        PassedTwice(gs, since, input[i - 1].key, key);
        PassedBetween(gs, first, input[i - 1].key, grandparentIndex, key);
      }
    }

    /** One turn of the compaction loop. */
    method ProcessEntry(input: seq<Entry>, i: nat, currentUserKey: Option<UserKey>, lastSequenceForKey: SequenceNumber,
                        smallestSnapshot: SequenceNumber, fileSize: FileSize, before: Tables, ghost since: IKey)
      returns (tables: Tables, ghost since': IKey)
      requires Valid() && i < |input| && Sorted(input) && Ready(input, i) && smallestSnapshot < MaxSequence
      requires if i == 0 then currentUserKey.None?
               else currentUserKey == Some(input[i - 1].key.user) && lastSequenceForKey == input[i - 1].key.sequence
      requires CountsUpTo(input, i, since)
      requires Cut(before, since) == CutAfter(inputVersion, chosen, smallestSnapshot, fileSize, input, i)
      modifies this, levelPtrs
      ensures Valid() && Ready(input, i + 1) && Counts(since', input[i].key)
      ensures Cut(tables, since') == CutAfter(inputVersion, chosen, smallestSnapshot, fileSize, input, i + 1)
    {
      tables, since' := before, since;
      var stop := AskStop(input, i, since);
      if stop {
        if tables.open != [] {
          tables := tables.Finish();
        }
        since' := input[i].key;
      }
      var drop := ShouldDrop(input, i, currentUserKey, lastSequenceForKey, smallestSnapshot);
      if !drop {
        tables := tables.Add(input[i]);
        if fileSize(tables.open) >= TargetFileSize {
          tables := tables.Finish();
        }
      }
    }

    /** DoCompactionWork: one pass over the merged input. */
    method DoCompactionWork(input: seq<Entry>, smallestSnapshot: SequenceNumber, fileSize: FileSize)
      returns (tables: Tables)
      requires Valid() && Sorted(input) && smallestSnapshot < MaxSequence
      requires Ready(input, 0) && grandparentIndex == 0 && !seenKey && overlappedBytes == 0
      modifies this, levelPtrs
      ensures tables.Valid() && tables.open == []
      ensures tables.closed == Outputs(inputVersion, chosen, smallestSnapshot, fileSize, input)
      ensures Concat(tables.closed) == Survivors(inputVersion, chosen.level, smallestSnapshot, input, |input|)
      ensures forall o :: o in tables.closed ==> WithinLimit(chosen.grandparents, o) && FullAtLast(fileSize, o)
    {
      tables := Tables([], []);
      var currentUserKey: Option<UserKey> := None;
      var lastSequenceForKey: SequenceNumber := MaxSequence;
      OutputsAreCutWell(inputVersion, chosen, smallestSnapshot, fileSize, input);
      if input == [] {
        return;
      }
      ghost var since := input[0].key;
      for i := 0 to |input|
        invariant Valid() && tables.Valid()
        invariant Ready(input, i)
        invariant if i == 0 then currentUserKey.None?
                  else currentUserKey == Some(input[i - 1].key.user) && lastSequenceForKey == input[i - 1].key.sequence
        invariant if i < |input| then CountsUpTo(input, i, since) else Counts(since, input[i - 1].key)
        invariant Cut(tables, since) == CutAfter(inputVersion, chosen, smallestSnapshot, fileSize, input, i)
      {
        tables, since := ProcessEntry(input, i, currentUserKey, lastSequenceForKey, smallestSnapshot, fileSize,
                                      tables, since);
        currentUserKey, lastSequenceForKey := Some(input[i].key.user), input[i].key.sequence;
      }
      if tables.open != [] {
        tables := tables.Finish();
      }
    }
  }

  lemma NotInLevel(files: seq<FileMeta>, ptr: nat, user: UserKey)
    requires ValidFiles(files) && KeyDisjoint(files) && ptr <= |files|
    requires forall i :: 0 <= i < ptr ==> files[i].largest.user < user
    requires ptr < |files| ==> user < files[ptr].smallest.user
    ensures forall f :: f in files ==> !(f.smallest.user <= user <= f.largest.user)
  {
    forall f | f in files
      ensures !(f.smallest.user <= user <= f.largest.user)
    {
      var i :| 0 <= i < |files| && files[i] == f;
      if i > ptr {
        SmallestToLargest(files[ptr], files[ptr].entries[0]);
        assert Less(files[ptr].largest, f.smallest);
      }
    }
  }
}
