/** The version set's bookkeeping, LogAndApply and Recover (db/version_set.cc, db/version_set.h).
    The log layer below the manifest is a list of records. */
module VersionSets {
  import opened Bytes
  import opened Coding
  import opened Keys
  import opened VersionEdits
  import opened Builders
  import opened Manifest

  /** The counters that a list of edits leaves set. */
  datatype Counts = Counts(log: Option<nat>, prev: Option<nat>, next: Option<nat>, last: Option<nat>)

  function Newest(old_: Option<nat>, new_: Option<nat>): Option<nat> {
    if new_.Some? then new_ else old_
  }

  function Count(c: Counts, e: Edit): Counts {
    Counts(Newest(c.log, e.logNumber), Newest(c.prev, e.prevLogNumber),
           Newest(c.next, e.nextFileNumber), Newest(c.last, e.lastSequence))
  }

  function CountsAfter(edits: seq<Edit>): Counts {
    if edits == [] then Counts(None, None, None, None)
    else Count(CountsAfter(edits[..|edits| - 1]), edits[|edits| - 1])
  }

  function NoPointers(): (ps: seq<Bytes>)
    ensures |ps| == NumLevels && forall l :: 0 <= l < NumLevels ==> ps[l] == []
  {
    seq(NumLevels, _ => [])
  }

  function Point(ps: seq<Bytes>, new_: seq<(nat, Bytes)>): (r: seq<Bytes>)
    requires |ps| == NumLevels
    ensures |r| == NumLevels
  {
    if new_ == [] then ps
    else
      var before, last := Point(ps, new_[..|new_| - 1]), new_[|new_| - 1];
      if last.0 < NumLevels then before[last.0 := last.1] else before
  }

  function PointersAfter(edits: seq<Edit>): (r: seq<Bytes>)
    ensures |r| == NumLevels
  {
    if edits == [] then NoPointers()
    else Point(PointersAfter(edits[..|edits| - 1]), edits[|edits| - 1].compactPointers)
  }

  /** No two files of a level share a number. */
  ghost predicate OneEach(fs: seq<Meta>) {
    forall f, g :: f in fs && g in fs && f.number == g.number ==> f == g
  }

  ghost predicate NoFiles(files: seq<seq<Meta>>) {
    |files| == NumLevels && forall l :: 0 <= l < NumLevels ==> files[l] == []
  }

  ghost predicate Below(fs: seq<Meta>, n: nat) {
    forall f :: f in fs ==> f.number < n && FitsMeta(f)
  }

  ghost predicate ValidLevel(rank: Rank, fs: seq<Meta>, n: nat) {
    Ordered(rank, fs) && OneEach(fs) && Below(fs, n)
  }

  /** What the records of a manifest say, and that it is what the store holds. */
  ghost predicate Logged(name: Bytes, records: seq<Bytes>, edits: seq<Edit>) {
    && |records| == |edits|
    && forall i {:trigger LoggedEdit(name, records[i], edits[i])} ::
         0 <= i < |edits| ==> LoggedEdit(name, records[i], edits[i])
  }

  ghost predicate LoggedEdit(name: Bytes, record: Bytes, e: Edit) {
    && ValidEdit(e) && record == Encode(e)
    && NameMatches(e, name)
  }

  ghost predicate UsedBelow(rank: Rank, edits: seq<Edit>, n: nat) {
    forall l, u :: 0 <= l < NumLevels && u in UsedNumbers(rank, edits, l) ==> u < n
  }

  ghost predicate TracksAll(rank: Rank, edits: seq<Edit>, files: seq<seq<Meta>>)
    requires |files| == NumLevels
  {
    forall l :: 0 <= l < NumLevels ==> Tracks(rank, edits, l, files[l])
  }

  /** What the first `n` records say. */
  function DecodeTo(records: seq<Bytes>, n: nat): Option<seq<Edit>>
    requires n <= |records|
  {
    if n == 0 then Some([])
    else
      match DecodeTo(records, n - 1)
      case None => None
      case Some(es) =>
        match Decode(records[n - 1])
        case None => None
        case Some(e) => Some(es + [e])
  }

  function DecodeAll(records: seq<Bytes>): Option<seq<Edit>> {
    DecodeTo(records, |records|)
  }

  predicate NamesMatch(edits: seq<Edit>, name: Bytes) {
    forall i :: 0 <= i < |edits| ==> NameMatches(edits[i], name)
  }

  predicate NameMatches(e: Edit, name: Bytes) {
    e.comparator.Some? ==> e.comparator.value == name
  }

  /** The first `n` records can be read, and say `es`. */
  ghost predicate Reads(records: seq<Bytes>, n: nat, es: seq<Edit>, name: Bytes)
    requires n <= |records|
  {
    DecodeTo(records, n) == Some(es) && NamesMatch(es, name)
  }

  predicate Says(record: Bytes, e: Edit, name: Bytes) {
    Decode(record) == Some(e) && NameMatches(e, name)
  }

  lemma LoggedSays(record: Bytes, e: Edit, name: Bytes)
    requires LoggedEdit(name, record, e)
    ensures Says(record, e, name)
  {
    EditRoundTrip(e);
  }

  lemma ReadsOneMore(records: seq<Bytes>, n: nat, es: seq<Edit>, e: Edit, name: Bytes)
    requires 0 < n <= |records| && Reads(records, n - 1, es, name) && Says(records[n - 1], e, name)
    ensures Reads(records, n, es + [e], name)
  {
  }

  ghost predicate AllSay(records: seq<Bytes>, edits: seq<Edit>, name: Bytes) {
    && |records| == |edits|
    && forall i {:trigger Says(records[i], edits[i], name)} :: 0 <= i < |edits| ==> Says(records[i], edits[i], name)
  }

  lemma {:induction false} AllRead(records: seq<Bytes>, edits: seq<Edit>, n: nat, name: Bytes) returns (es: seq<Edit>)
    requires AllSay(records, edits, name) && n <= |records|
    ensures Reads(records, n, es, name)
    ensures |es| == n && forall i :: 0 <= i < n ==> es[i] == edits[i]
  {
    es := [];
    if n > 0 {
      var init := AllRead(records, edits, n - 1, name);
      var last := edits[n - 1];
      assert Says(records[n - 1], last, name);
      ReadsOneMore(records, n, init, last, name);
      es := init + [last];
    }
  }

  lemma {:induction false} LoggedDecodes(name: Bytes, records: seq<Bytes>, edits: seq<Edit>)
    requires Logged(name, records, edits)
    ensures DecodeAll(records) == Some(edits) && NamesMatch(edits, name)
  {
    forall i | 0 <= i < |edits|
      ensures Says(records[i], edits[i], name)
    {
      assert LoggedEdit(name, records[i], edits[i]);
      LoggedSays(records[i], edits[i], name);
    }
    var es := AllRead(records, edits, |records|, name);
    assert es == edits;
  }

  ghost predicate ReadableTo(records: seq<Bytes>, n: nat, name: Bytes)
    requires n <= |records|
  {
    DecodeTo(records, n).Some? && NamesMatch(DecodeTo(records, n).value, name)
  }

  lemma {:induction false} ReadableBefore(records: seq<Bytes>, k: nat, n: nat, name: Bytes)
    requires k <= n <= |records|
    ensures ReadableTo(records, n, name) ==> ReadableTo(records, k, name)
  {
    if k < n && ReadableTo(records, n, name) {
      var es, e := DecodeTo(records, n - 1).value, Decode(records[n - 1]).value;
      assert forall i :: 0 <= i < |es| ==> (es + [e])[i] == es[i];
      ReadableBefore(records, k, n - 1, name);
    }
  }

  lemma UnreadableRecord(records: seq<Bytes>, n: nat, es: seq<Edit>, name: Bytes)
    requires n < |records| && Reads(records, n, es, name)
    requires Decode(records[n]).None? || !NameMatches(Decode(records[n]).value, name)
    ensures !ReadableTo(records, |records|, name)
  {
    if Decode(records[n]).Some? {
      assert (es + [Decode(records[n]).value])[|es|] == Decode(records[n]).value;
    }
    ReadableBefore(records, n + 1, |records|, name);
  }

  // The snapshot record

  function AtLevel(fs: seq<Meta>, level: nat): (r: seq<(nat, Meta)>)
    ensures |r| == |fs| && forall i :: 0 <= i < |fs| ==> r[i] == (level, fs[i])
  {
    seq(|fs|, i requires 0 <= i < |fs| => (level, fs[i]))
  }

  function AllFiles(files: seq<seq<Meta>>, levels: nat): seq<(nat, Meta)>
    requires levels <= |files|
  {
    if levels == 0 then []
    else AllFiles(files, levels - 1) + AtLevel(files[levels - 1], levels - 1)
  }

  function AllPointers(ps: seq<Bytes>, levels: nat): (r: seq<(nat, Bytes)>)
    requires levels <= |ps|
  {
    if levels == 0 then []
    else AllPointers(ps, levels - 1) + if ps[levels - 1] == [] then [] else [(levels - 1, ps[levels - 1])]
  }

  lemma {:induction false} AddedConcat(a: seq<(nat, Meta)>, b: seq<(nat, Meta)>, level: nat)
    ensures Added(a + b, level) == Added(a, level) + Added(b, level)
    decreases |b|
  {
    if b == [] {
      assert a + b == a;
    } else {
      assert (a + b)[..|a + b| - 1] == a + b[..|b| - 1];
      AddedConcat(a, b[..|b| - 1], level);
    }
  }

  lemma {:induction false} AddedOfLevel(fs: seq<Meta>, at: nat, level: nat)
    ensures Added(AtLevel(fs, at), level) == if at == level then fs else []
    decreases |fs|
  {
    if fs != [] {
      var init := fs[..|fs| - 1];
      assert AtLevel(fs, at)[..|init|] == AtLevel(init, at);
      AddedOfLevel(init, at, level);
      assert init + [fs[|init|]] == fs;
    }
  }

  /** The files of a level, if it is among the first `levels`. */
  function Among(files: seq<seq<Meta>>, levels: nat, level: nat): seq<Meta>
    requires level < |files|
  {
    if level < levels then files[level] else []
  }

  lemma AmongOneMore(files: seq<seq<Meta>>, levels: nat, level: nat, part: seq<Meta>)
    requires level < |files| && part == if levels == level then files[level] else []
    ensures Among(files, levels, level) + part == Among(files, levels + 1, level)
  {
  }

  lemma {:induction false} AddedOfAll(files: seq<seq<Meta>>, levels: nat, level: nat)
    requires levels <= |files| && level < |files|
    ensures Added(AllFiles(files, levels), level) == Among(files, levels, level)
  {
    if levels > 0 {
      var at := levels - 1;
      AddedOfAll(files, at, level);
      AddedConcat(AllFiles(files, at), AtLevel(files[at], at), level);
      AddedOfLevel(files[at], at, level);
      AmongOneMore(files, at, level, Added(AtLevel(files[at], at), level));
    }
  }

  lemma {:induction false} PointLast(ps: seq<Bytes>, new_: seq<(nat, Bytes)>, level: nat, key: Bytes)
    requires |ps| == NumLevels && level < NumLevels
    ensures Point(ps, new_ + [(level, key)]) == Point(ps, new_)[level := key]
  {
    assert (new_ + [(level, key)])[..|new_|] == new_;
  }

  ghost predicate PointsUpTo(r: seq<Bytes>, ps: seq<Bytes>, levels: nat)
    requires |r| == |ps| == NumLevels
  {
    forall l :: 0 <= l < NumLevels ==> r[l] == if l < levels then ps[l] else []
  }

  lemma {:induction false} PointsBack(start: seq<Bytes>, ps: seq<Bytes>, levels: nat)
    requires |start| == |ps| == NumLevels && levels <= NumLevels
    requires PointsUpTo(start, ps, 0)
    ensures PointsUpTo(Point(start, AllPointers(ps, levels)), ps, levels)
  {
    if levels != 0 {
      var level := levels - 1;
      PointsBack(start, ps, level);
      PointNext(start, ps, level);
      UpToNext(Point(start, AllPointers(ps, level)), Point(start, AllPointers(ps, levels)), ps, level);
    }
  }

  lemma UpToNext(before: seq<Bytes>, after: seq<Bytes>, ps: seq<Bytes>, level: nat)
    requires |before| == |after| == |ps| == NumLevels && level < NumLevels
    requires PointsUpTo(before, ps, level) && after == if ps[level] == [] then before else before[level := ps[level]]
    ensures PointsUpTo(after, ps, level + 1)
  {
  }

  lemma PointNext(start: seq<Bytes>, ps: seq<Bytes>, level: nat)
    requires |start| == |ps| == NumLevels && level < NumLevels
    ensures var before, after := Point(start, AllPointers(ps, level)), Point(start, AllPointers(ps, level + 1));
            after == if ps[level] == [] then before else before[level := ps[level]]
  {
    if ps[level] == [] {
      assert AllPointers(ps, level + 1) == AllPointers(ps, level);
    } else {
      PointLast(start, AllPointers(ps, level), level, ps[level]);
    }
  }

  lemma {:induction false} AllFilesFit(files: seq<seq<Meta>>, levels: nat)
    requires levels <= |files| <= NumLevels
    requires forall l, f :: 0 <= l < |files| && f in files[l] ==> FitsMeta(f)
    ensures forall i :: 0 <= i < |AllFiles(files, levels)| ==>
              AllFiles(files, levels)[i].0 < NumLevels && FitsMeta(AllFiles(files, levels)[i].1)
  {
    if levels > 0 {
      AllFilesFit(files, levels - 1);
    }
  }

  lemma {:induction false} AllPointersFit(ps: seq<Bytes>, levels: nat)
    requires levels <= |ps| == NumLevels && forall l :: 0 <= l < NumLevels ==> Slice32(ps[l])
    ensures forall i :: 0 <= i < |AllPointers(ps, levels)| ==>
              AllPointers(ps, levels)[i].0 < NumLevels && Slice32(AllPointers(ps, levels)[i].1)
  {
    if levels > 0 {
      AllPointersFit(ps, levels - 1);
    }
  }

  /** The edit that WriteSnapshot encodes. */
  function SnapshotEdit(name: Bytes, pointers: seq<Bytes>, files: seq<seq<Meta>>): Edit
    requires |pointers| == |files| == NumLevels
  {
    EmptyEdit.(comparator := Some(name), compactPointers := AllPointers(pointers, NumLevels),
               newFiles := AllFiles(files, NumLevels))
  }

  /** A builder that has seen only the snapshot record holds the whole file set. */
  lemma SnapshotTracks(rank: Rank, name: Bytes, pointers: seq<Bytes>, files: seq<seq<Meta>>, level: nat)
    requires |pointers| == |files| == NumLevels && level < NumLevels
    requires Ordered(rank, files[level]) && OneEach(files[level])
    ensures Tracks(rank, [SnapshotEdit(name, pointers, files)], level, files[level])
    ensures UsedNumbers(rank, [SnapshotEdit(name, pointers, files)], level) == Numbers(files[level])
  {
    var e, fs := SnapshotEdit(name, pointers, files), files[level];
    AddedOfAll(files, NumLevels, level);
    forall i, j | 0 <= i < j < |fs| ensures fs[i].number != fs[j].number {
      assert FileLess(rank, fs[i], fs[j]) && !FileLess(rank, fs[i], fs[i]);
      assert fs[i] in fs && fs[j] in fs;
    }
    EditOnBuilder(rank, [], NoChange, e, level);
    assert [e][..0] == [] && LevelAfter(rank, [], level) == NoChange;
    assert LevelAfter(rank, [e], level) == ApplyLevel(rank, NoChange, e, level);
  }

  // One more edit

  lemma {:induction false} CountsLast(edits: seq<Edit>, e: Edit)
    ensures CountsAfter(edits + [e]) == Count(CountsAfter(edits), e)
    ensures PointersAfter(edits + [e]) == Point(PointersAfter(edits), e.compactPointers)
  {
    assert (edits + [e])[..|edits|] == edits;
  }

  lemma LoggedLast(name: Bytes, records: seq<Bytes>, edits: seq<Edit>, e: Edit)
    requires Logged(name, records, edits) && LoggedEdit(name, Encode(e), e)
    ensures Logged(name, records + [Encode(e)], edits + [e])
  {
  }

  /** The edit may be logged: its new files are numbered below `n` and not among `used`. */
  ghost predicate Loggable(e: Edit, level: nat, used: set<nat>, n: nat) {
    Fresh(used, Added(e.newFiles, level)) && forall f :: f in Added(e.newFiles, level) ==> f.number < n && FitsMeta(f)
  }

  /** The edit takes its deletions out of a level and puts its additions in. */
  ghost predicate Edited(m: seq<Meta>, e: Edit, level: nat, r: seq<Meta>) {
    forall f :: f in r <==> (f in m && f.number !in Deleted(e.deletedFiles, level)) || f in Added(e.newFiles, level)
  }

  lemma {:induction false} SavedIsValid(rank: Rank, m: seq<Meta>, e: Edit, level: nat, used: set<nat>,
                                        r: seq<Meta>, n: nat)
    requires ValidLevel(rank, m, n) && Numbers(m) <= used && Loggable(e, level, used, n)
    requires Saves(rank, m, ApplyLevel(rank, NoChange, e, level), r)
    ensures ValidLevel(rank, r, n) && Edited(m, e, level, r)
  {
    EditOnBuilder(rank, m, NoChange, e, level);
    EditedIsDistinct(m, e, level, r);
  }

  /** Numbers that may not be added to a level again. */
  ghost function UsedIn(rank: Rank, open: bool, edits: seq<Edit>, files: seq<seq<Meta>>, level: nat): set<nat>
    requires level < |files|
  {
    if open then UsedNumbers(rank, edits, level) else Numbers(files[level])
  }

  /** The edit adds only files with numbers that are not in use at their level. */
  ghost predicate AddsTo(rank: Rank, open: bool, edits: seq<Edit>, files: seq<seq<Meta>>, e: Edit, n: nat)
    requires |files| == NumLevels
  {
    forall l {:trigger UsedIn(rank, open, edits, files, l)} ::
      0 <= l < NumLevels ==> Loggable(e, l, UsedIn(rank, open, edits, files, l), n)
  }

  lemma SavedAreValid(rank: Rank, open: bool, edits: seq<Edit>, files: seq<seq<Meta>>, e: Edit, v: seq<seq<Meta>>,
                      n: nat)
    requires |files| == |v| == NumLevels && AllValid(rank, files, n) && AddsTo(rank, open, edits, files, e, n)
    requires open ==> TracksAll(rank, edits, files)
    requires forall l :: 0 <= l < NumLevels ==> Saves(rank, files[l], ApplyLevel(rank, NoChange, e, l), v[l])
    ensures AllEdited(files, e, v) && AllValid(rank, v, n)
  {
    forall l | 0 <= l < NumLevels
      ensures ValidLevel(rank, v[l], n) && Edited(files[l], e, l, v[l])
    {
      var used := UsedIn(rank, open, edits, files, l);
      if open { TrackedAreUsed(rank, edits, l, files[l]); }
      SavedIsValid(rank, files[l], e, l, used, v[l], n);
    }
  }

  lemma {:induction false} EditedIsDistinct(m: seq<Meta>, e: Edit, level: nat, r: seq<Meta>)
    requires OneEach(m) && Fresh(Numbers(m), Added(e.newFiles, level)) && Edited(m, e, level, r)
    ensures OneEach(r)
  {
    var adds := Added(e.newFiles, level);
    assert Numbers(m) !! Numbers(adds);
    forall f, g | f in r && g in r && f.number == g.number
      ensures f == g
    {
      assert f in m ==> f.number in Numbers(m);
      assert g in m ==> g.number in Numbers(m);
    }
  }

  lemma UsedGrows(rank: Rank, edits: seq<Edit>, e: Edit, level: nat, n: nat)
    requires Loggable(e, level, UsedNumbers(rank, edits, level), n)
    requires forall u :: u in UsedNumbers(rank, edits, level) ==> u < n
    ensures forall u :: u in UsedNumbers(rank, edits + [e], level) ==> u < n
  {
    LevelAfterLast(rank, edits, e, level);
    EditOnBuilder(rank, [], LevelAfter(rank, edits, level), e, level);
  }

  ghost predicate Sets(new_: seq<(nat, Bytes)>, level: nat) {
    exists i :: 0 <= i < |new_| && new_[i].0 == level
  }

  /** A level's pointer is what is set last, or what it was. */
  lemma {:induction false} PointAt(ps: seq<Bytes>, qs: seq<Bytes>, new_: seq<(nat, Bytes)>, level: nat)
    requires |ps| == |qs| == NumLevels && level < NumLevels
    ensures !Sets(new_, level) ==> Point(ps, new_)[level] == ps[level]
    ensures Sets(new_, level) ==> Point(ps, new_)[level] == Point(qs, new_)[level]
  {
    if new_ != [] {
      var init := new_[..|new_| - 1];
      PointAt(ps, qs, init, level);
      assert forall i :: 0 <= i < |init| ==> init[i] == new_[i];
      assert new_[|init|].0 == level ==> Sets(new_, level);
    }
  }

  /** Setting a level's pointer twice to the same keys is setting it once. */
  lemma {:induction false} PointTwice(ps: seq<Bytes>, new_: seq<(nat, Bytes)>)
    requires |ps| == NumLevels
    ensures Point(Point(ps, new_), new_) == Point(ps, new_)
  {
    forall l | 0 <= l < NumLevels
      ensures Point(Point(ps, new_), new_)[l] == Point(ps, new_)[l]
    {
      PointAt(Point(ps, new_), ps, new_, l);
      PointAt(ps, ps, new_, l);
    }
  }

  /** The pointers `ps` with some levels' set to other keys. */
  function Over(ps: seq<Bytes>, picks: map<nat, Bytes>): (r: seq<Bytes>)
    requires |ps| == NumLevels
    ensures |r| == NumLevels && forall l :: 0 <= l < NumLevels ==> r[l] == if l in picks then picks[l] else ps[l]
  {
    seq(NumLevels, l requires 0 <= l < NumLevels => if l in picks then picks[l] else ps[l])
  }

  /** The picks that an edit with the pointers `new_` does not log. */
  ghost function Unset(picks: map<nat, Bytes>, new_: seq<(nat, Bytes)>): map<nat, Bytes> {
    map l | l in picks && !Sets(new_, l) :: picks[l]
  }

  lemma {:induction false} PointOver(ps: seq<Bytes>, picks: map<nat, Bytes>, new_: seq<(nat, Bytes)>)
    requires |ps| == NumLevels
    ensures Point(Over(ps, picks), new_) == Over(Point(ps, new_), Unset(picks, new_))
  {
    forall l | 0 <= l < NumLevels
      ensures Point(Over(ps, picks), new_)[l] == Over(Point(ps, new_), Unset(picks, new_))[l]
    {
      PointAt(Over(ps, picks), ps, new_, l);
      PointAt(ps, ps, new_, l);
    }
  }

  lemma OverNothing(ps: seq<Bytes>)
    requires |ps| == NumLevels
    ensures Over(ps, map[]) == ps
  {
  }

  lemma OverOneMore(ps: seq<Bytes>, picks: map<nat, Bytes>, level: nat, key: Bytes)
    requires |ps| == NumLevels && level < NumLevels
    ensures Over(ps, picks)[level := key] == Over(ps, picks[level := key])
  {
  }

  lemma {:induction false} PointFits(ps: seq<Bytes>, new_: seq<(nat, Bytes)>)
    requires |ps| == NumLevels && AllSlices(ps)
    requires forall i :: 0 <= i < |new_| ==> Slice32(new_[i].1)
    ensures AllSlices(Point(ps, new_))
  {
    if new_ != [] {
      PointFits(ps, new_[..|new_| - 1]);
    }
  }

  lemma {:induction false} EditTracks(rank: Rank, edits: seq<Edit>, e: Edit, level: nat, m: seq<Meta>, r: seq<Meta>)
    requires Tracks(rank, edits, level, m) && Fresh(UsedNumbers(rank, edits, level), Added(e.newFiles, level))
    requires Edited(m, e, level, r) && Ordered(rank, r)
    ensures Tracks(rank, edits + [e], level, r)
  {
    LevelAfterLast(rank, edits, e, level);
    EditOnBuilder(rank, [], LevelAfter(rank, edits, level), e, level);
  }

  ghost predicate AllLoggable(rank: Rank, edits: seq<Edit>, e: Edit, n: nat) {
    forall l :: 0 <= l < NumLevels ==> Loggable(e, l, UsedNumbers(rank, edits, l), n)
  }

  ghost predicate AllEdited(files: seq<seq<Meta>>, e: Edit, saved: seq<seq<Meta>>)
    requires |files| == |saved| == NumLevels
  {
    forall l :: 0 <= l < NumLevels ==> Edited(files[l], e, l, saved[l])
  }

  ghost predicate AllValid(rank: Rank, files: seq<seq<Meta>>, n: nat)
    requires |files| == NumLevels
  {
    forall l :: 0 <= l < NumLevels ==> ValidLevel(rank, files[l], n)
  }

  lemma StepAll(rank: Rank, edits: seq<Edit>, e: Edit, files: seq<seq<Meta>>, saved: seq<seq<Meta>>, n: nat)
    requires |files| == |saved| == NumLevels && TracksAll(rank, edits, files) && UsedBelow(rank, edits, n)
    requires AllLoggable(rank, edits, e, n) && AllEdited(files, e, saved) && AllValid(rank, saved, n)
    ensures TracksAll(rank, edits + [e], saved) && UsedBelow(rank, edits + [e], n)
  {
    forall l | 0 <= l < NumLevels
      ensures Tracks(rank, edits + [e], l, saved[l])
    {
      assert Loggable(e, l, UsedNumbers(rank, edits, l), n);
      assert Edited(files[l], e, l, saved[l]) && ValidLevel(rank, saved[l], n);
      EditTracks(rank, edits, e, l, files[l], saved[l]);
    }
    forall l, u | 0 <= l < NumLevels && u in UsedNumbers(rank, edits + [e], l)
      ensures u < n
    {
      UsedGrows(rank, edits, e, l, n);
    }
  }

  lemma TrackedAreUsed(rank: Rank, edits: seq<Edit>, level: nat, fs: seq<Meta>)
    requires Tracks(rank, edits, level, fs)
    ensures Numbers(fs) <= UsedNumbers(rank, edits, level)
  {
    assert forall f :: f in fs ==> Keeps([], LevelAfter(rank, edits, level), f);
  }

  ghost predicate AllSlices(ps: seq<Bytes>) {
    forall l :: 0 <= l < |ps| ==> Slice32(ps[l])
  }

  ghost predicate AllNumbers(rank: Rank, edits: seq<Edit>, files: seq<seq<Meta>>)
    requires |files| == NumLevels
  {
    forall l :: 0 <= l < NumLevels ==> UsedNumbers(rank, edits, l) == Numbers(files[l])
  }

  lemma SnapshotAll(rank: Rank, name: Bytes, pointers: seq<Bytes>, files: seq<seq<Meta>>, n: nat)
    requires Slice32(name) && |pointers| == |files| == NumLevels
    requires AllValid(rank, files, n) && AllSlices(pointers)
    ensures var snapshot := SnapshotEdit(name, pointers, files);
            && Logged(name, [Encode(snapshot)], [snapshot])
            && TracksAll(rank, [snapshot], files)
            && UsedBelow(rank, [snapshot], n)
            && AllNumbers(rank, [snapshot], files)
            && PointersAfter([snapshot]) == pointers
  {
    var snapshot := SnapshotEdit(name, pointers, files);
    forall l | 0 <= l < NumLevels
      ensures Tracks(rank, [snapshot], l, files[l]) && UsedNumbers(rank, [snapshot], l) == Numbers(files[l])
    {
      SnapshotTracks(rank, name, pointers, files, l);
    }
    SnapshotFits(name, pointers, files, n, rank);
    SnapshotPoints(name, pointers, files);
  }

  lemma SnapshotFits(name: Bytes, pointers: seq<Bytes>, files: seq<seq<Meta>>, n: nat, rank: Rank)
    requires Slice32(name) && |pointers| == |files| == NumLevels
    requires AllValid(rank, files, n) && AllSlices(pointers)
    ensures LoggedEdit(name, Encode(SnapshotEdit(name, pointers, files)), SnapshotEdit(name, pointers, files))
  {
    forall l, f | 0 <= l < |files| && f in files[l]
      ensures FitsMeta(f)
    {
      assert ValidLevel(rank, files[l], n);
    }
    AllFilesFit(files, NumLevels);
    AllPointersFit(pointers, NumLevels);
  }

  lemma SnapshotPoints(name: Bytes, pointers: seq<Bytes>, files: seq<seq<Meta>>)
    requires |pointers| == |files| == NumLevels
    ensures PointersAfter([SnapshotEdit(name, pointers, files)]) == pointers
  {
    var snapshot := SnapshotEdit(name, pointers, files);
    PointsBack(NoPointers(), pointers, NumLevels);
    assert [snapshot][..0] == [];
    assert PointersAfter([snapshot]) == Point(NoPointers(), snapshot.compactPointers);
  }

  /** A number that is not used may be given back. */
  lemma NotUsed(rank: Rank, files: seq<seq<Meta>>, number: nat, edits: seq<Edit>)
    requires |files| == NumLevels && AllValid(rank, files, number + 1)
    requires forall l :: 0 <= l < NumLevels ==> number !in Numbers(files[l]) && number !in UsedNumbers(rank, edits, l)
    ensures AllValid(rank, files, number)
    ensures UsedBelow(rank, edits, number + 1) ==> UsedBelow(rank, edits, number)
  {
    forall l | 0 <= l < NumLevels
      ensures ValidLevel(rank, files[l], number)
    {
      assert ValidLevel(rank, files[l], number + 1) && number !in Numbers(files[l]);
      assert forall f :: f in files[l] ==> f.number in Numbers(files[l]);
    }
  }

  /** The counters that recovery will find. */
  ghost predicate Counted(rank: Rank, edits: seq<Edit>, log: nat, prev: nat, last: nat) {
    var c := CountsAfter(edits);
    && c.log == Some(log) && c.prev == Some(prev)
    && c.next.Some? && UsedBelow(rank, edits, c.next.value) && log < c.next.value
    && c.last.Some? && c.last.value <= last
  }

  lemma {:induction false} SavedTracks(rank: Rank, es: seq<Edit>, v: seq<seq<Meta>>)
    requires |v| == NumLevels
    requires forall l :: 0 <= l < NumLevels ==> Saves(rank, [], LevelAfter(rank, es, l), v[l])
    ensures TracksAll(rank, es, v)
  {
    assert Numbers([]) == {};
    forall l | 0 <= l < NumLevels
      ensures Tracks(rank, es, l, v[l])
    {
      assert Saves(rank, [], LevelAfter(rank, es, l), v[l]);
    }
  }

  /** The counters that are filled in change nothing about the files. */
  lemma FilledIn(rank: Rank, open: bool, edits: seq<Edit>, files: seq<seq<Meta>>, edit: Edit, e: Edit, n: nat)
    requires |files| == NumLevels && AddsTo(rank, open, edits, files, edit, n) && e.newFiles == edit.newFiles
    ensures AddsTo(rank, open, edits, files, e, n)
  {
  }

  lemma SameEdited(files: seq<seq<Meta>>, edit: Edit, e: Edit, saved: seq<seq<Meta>>)
    requires |files| == |saved| == NumLevels && AllEdited(files, e, saved)
    requires e.newFiles == edit.newFiles && e.deletedFiles == edit.deletedFiles
    ensures AllEdited(files, edit, saved)
  {
    forall l | 0 <= l < NumLevels
      ensures Edited(files[l], edit, l, saved[l])
    {
      assert Edited(files[l], e, l, saved[l]);
    }
  }

  /** What may be added may be logged, once the manifest is open. */
  lemma NowLoggable(rank: Rank, open: bool, before: seq<Edit>, edits: seq<Edit>, files: seq<seq<Meta>>, e: Edit, n: nat)
    requires |files| == NumLevels && AddsTo(rank, open, before, files, e, n)
    requires if open then edits == before else AllNumbers(rank, edits, files)
    ensures AllLoggable(rank, edits, e, n)
  {
    forall l | 0 <= l < NumLevels
      ensures Loggable(e, l, UsedNumbers(rank, edits, l), n)
    {
      assert UsedIn(rank, open, before, files, l) == UsedNumbers(rank, edits, l);
    }
  }

  /** The pointers after an edit is applied and logged, in a new manifest or not. */
  lemma PointsLogged(pointers: seq<Bytes>, logged: seq<Bytes>, open: bool, picks: map<nat, Bytes>,
                     new_: seq<(nat, Bytes)>)
    requires |pointers| == |logged| == NumLevels && forall i :: 0 <= i < |new_| ==> Slice32(new_[i].1)
    requires AllSlices(pointers) && (open ==> AllSlices(logged) && pointers == Over(logged, picks))
    ensures var after := Point(if open then logged else Point(pointers, new_), new_);
            AllSlices(Point(pointers, new_)) && AllSlices(after)
            && Point(pointers, new_) == Over(after, Unset(if open then picks else map[], new_))
  {
    PointFits(pointers, new_);
    if open {
      PointFits(logged, new_);
      PointOver(logged, picks, new_);
    } else {
      PointTwice(pointers, new_);
      OverNothing(Point(pointers, new_));
      assert Unset(map[], new_) == map[];
    }
  }

  class VersionSet {
    const rank: Rank
    const comparatorName: Bytes
    var nextFileNumber: nat
    var manifestFileNumber: nat
    var lastSequence: nat
    var logNumber: nat
    var prevLogNumber: nat
    var current: seq<seq<Meta>>
    var compactPointer: seq<Bytes>
    /** The records of the open manifest. */
    var descriptorLog: Option<seq<Bytes>>
    /** What those records say. */
    ghost var edits: seq<Edit>
    /** The compaction pointers that were picked since, and are in no record. */
    ghost var unlogged: map<nat, Bytes>

    ghost predicate Valid()
      reads this
    {
      && Slice32(comparatorName)
      && |current| == |compactPointer| == NumLevels
      && AllValid(rank, current, nextFileNumber) && AllSlices(compactPointer)
      && logNumber < nextFileNumber
      && (descriptorLog.Some? ==> InStep())
    }

    /** The records of the manifest track the given files. */
    ghost predicate Tracking(files: seq<seq<Meta>>)
      requires descriptorLog.Some? && |files| == NumLevels
      reads `descriptorLog, `edits, `nextFileNumber
    {
      && Logged(comparatorName, descriptorLog.value, edits)
      && TracksAll(rank, edits, files)
      && UsedBelow(rank, edits, nextFileNumber)
    }

    /** The manifest says what the version set holds. */
    ghost predicate InStep()
      requires descriptorLog.Some? && |current| == NumLevels
      reads this
    {
      && Tracking(current)
      && AllSlices(PointersAfter(edits)) && compactPointer == Over(PointersAfter(edits), unlogged)
      && Counted(rank, edits, logNumber, prevLogNumber, lastSequence)
    }

    constructor (rank: Rank, name: Bytes)
      requires Slice32(name)
      ensures Valid() && this.rank == rank && comparatorName == name
      ensures NoFiles(current) && compactPointer == NoPointers() && descriptorLog.None?
    {
      this.rank, comparatorName := rank, name;
      nextFileNumber, manifestFileNumber, lastSequence, logNumber, prevLogNumber := 2, 0, 0, 0, 0;
      current, compactPointer, descriptorLog := seq(NumLevels, _ => []), NoPointers(), None;
    }

    /** The edit adds only files with numbers that are not in use at their level. */
    ghost predicate Adds(e: Edit)
      requires |current| == NumLevels
      reads `descriptorLog, `edits, `current, `nextFileNumber
    {
      AddsTo(rank, descriptorLog.Some?, edits, current, e, nextFileNumber)
    }

    method NewFileNumber() returns (number: nat)
      requires Valid()
      modifies this`nextFileNumber
      ensures Valid() && number == old(nextFileNumber) && nextFileNumber == number + 1
      ensures forall l, f :: 0 <= l < NumLevels && f in current[l] ==> f.number != number
    {
      number := nextFileNumber;
      nextFileNumber := nextFileNumber + 1;
    }

    /** Only for a number that no file and no log has been given. */
    method ReuseFileNumber(number: nat)
      requires Valid() && logNumber != number
      requires forall l :: 0 <= l < NumLevels ==> number !in Numbers(current[l])
      requires descriptorLog.Some? ==> forall l :: 0 <= l < NumLevels ==> number !in UsedNumbers(rank, edits, l)
      modifies this`nextFileNumber
      ensures Valid()
      ensures nextFileNumber == if old(nextFileNumber) == number + 1 then number else old(nextFileNumber)
    {
      if nextFileNumber == number + 1 {
        NotUsed(rank, current, number, if descriptorLog.Some? then edits else []);
        nextFileNumber := number;
      }
    }

    method SetLastSequence(s: nat)
      requires Valid() && s >= lastSequence
      modifies this`lastSequence
      ensures Valid() && lastSequence == s
    {
      lastSequence := s;
    }

    /** The end of SetupOtherInputs: the key from which the level is compacted next is set at
        once and noted in the compaction's edit, which may never be logged. */
    method SetPointer(level: nat, key: Bytes, edit: Edit) returns (e: Edit)
      requires Valid() && level < NumLevels && Slice32(key)
      modifies `compactPointer, `unlogged
      ensures Valid() && compactPointer == old(compactPointer)[level := key]
      ensures unlogged == old(unlogged)[level := key]
      ensures e == edit.(compactPointers := edit.compactPointers + [(level, key)])
    {
      OverOneMore(PointersAfter(edits), unlogged, level, key);
      compactPointer := compactPointer[level := key];
      unlogged := unlogged[level := key];
      e := edit.(compactPointers := edit.compactPointers + [(level, key)]);
    }

    method WriteSnapshot()
      requires Slice32(comparatorName) && |current| == |compactPointer| == NumLevels
      requires AllValid(rank, current, nextFileNumber) && AllSlices(compactPointer)
      modifies `descriptorLog, `edits, `unlogged
      ensures edits == [SnapshotEdit(comparatorName, compactPointer, current)]
      ensures descriptorLog == Some([Encode(edits[0])]) && unlogged == map[]
    {
      var edit := SnapshotEdit(comparatorName, compactPointer, current);
      descriptorLog := Some([Encode(edit)]);
      edits, unlogged := [edit], map[];
    }

    /** A new manifest starts with the snapshot record. */
    method OpenManifest()
      requires Slice32(comparatorName) && |current| == |compactPointer| == NumLevels
      requires AllValid(rank, current, nextFileNumber) && AllSlices(compactPointer)
      modifies `descriptorLog, `edits, `unlogged
      ensures descriptorLog == Some([Encode(SnapshotEdit(comparatorName, compactPointer, current))])
      ensures Tracking(current) && AllNumbers(rank, edits, current)
      ensures PointersAfter(edits) == compactPointer && unlogged == map[]
    {
      WriteSnapshot();
      SnapshotAll(rank, comparatorName, compactPointer, current, nextFileNumber);
    }

    /** The edit's record follows those of the manifest. */
    method AppendEdit(e: Edit, ghost v: seq<seq<Meta>>)
      requires |current| == |v| == NumLevels && descriptorLog.Some? && Tracking(current)
      requires LoggedEdit(comparatorName, Encode(e), e) && AllLoggable(rank, edits, e, nextFileNumber)
      requires AllEdited(current, e, v) && AllValid(rank, v, nextFileNumber)
      modifies `descriptorLog, `edits, `unlogged
      ensures descriptorLog == Some(old(descriptorLog).value + [Encode(e)]) && edits == old(edits) + [e]
      ensures Tracking(v) && unlogged == Unset(old(unlogged), e.compactPointers)
    {
      StepAll(rank, edits, e, current, v, nextFileNumber);
      LoggedLast(comparatorName, descriptorLog.value, edits, e);
      descriptorLog := Some(descriptorLog.value + [Encode(e)]);
      edits, unlogged := edits + [e], Unset(unlogged, e.compactPointers);
    }

    /** The manifest half of LogAndApply: a snapshot record if the manifest is new, then
        the edit's own. */
    method LogEdit(e: Edit, ghost v: seq<seq<Meta>>)
      requires Slice32(comparatorName) && |current| == |compactPointer| == |v| == NumLevels
      requires AllValid(rank, current, nextFileNumber) && AllSlices(compactPointer)
      requires descriptorLog.Some? ==> Tracking(current)
      requires LoggedEdit(comparatorName, Encode(e), e)
      requires e.logNumber.Some? && e.prevLogNumber.Some? && e.logNumber.value < nextFileNumber
      requires e.nextFileNumber == Some(nextFileNumber) && e.lastSequence == Some(lastSequence)
      requires Adds(e)
      requires AllEdited(current, e, v) && AllValid(rank, v, nextFileNumber)
      modifies `descriptorLog, `edits, `unlogged
      ensures descriptorLog.Some? && Tracking(v)
      ensures CountsAfter(edits).next == Some(nextFileNumber) && CountsAfter(edits).last == Some(lastSequence)
      ensures Counted(rank, edits, e.logNumber.value, e.prevLogNumber.value, lastSequence)
      ensures PointersAfter(edits)
              == Point(if old(descriptorLog).None? then compactPointer else old(PointersAfter(edits)),
                       e.compactPointers)
      ensures unlogged == Unset(if old(descriptorLog).None? then map[] else old(unlogged), e.compactPointers)
      ensures descriptorLog.value
              == (if old(descriptorLog).Some? then old(descriptorLog).value
                  else [Encode(SnapshotEdit(comparatorName, compactPointer, current))]) + [Encode(e)]
    {
      if descriptorLog.None? {
        OpenManifest();
      }
      NowLoggable(rank, old(descriptorLog.Some?), old(edits), edits, current, e, nextFileNumber);
      CountsLast(edits, e);
      AppendEdit(e, v);
    }

    /** The version half of LogAndApply. */
    method BuildVersion(e: Edit) returns (v: seq<seq<Meta>>)
      requires Valid() && ValidEdit(e)
      requires Adds(e)
      ensures |v| == NumLevels
      ensures AllEdited(current, e, v) && AllValid(rank, v, nextFileNumber)
    {
      var builder := new Builder(rank, current);
      builder.Apply(e);
      v := builder.SaveTo();
      SavedAreValid(rank, descriptorLog.Some?, edits, current, e, v, nextFileNumber);
    }

    /** Makes the version current (AppendVersion). */
    method Install(v: seq<seq<Meta>>, log: nat, prev: nat)
      requires Slice32(comparatorName) && |v| == |compactPointer| == NumLevels
      requires AllValid(rank, v, nextFileNumber) && AllSlices(compactPointer) && log < nextFileNumber
      requires descriptorLog.Some? && Tracking(v)
      requires AllSlices(PointersAfter(edits)) && compactPointer == Over(PointersAfter(edits), unlogged)
      requires Counted(rank, edits, log, prev, lastSequence)
      modifies `current, `logNumber, `prevLogNumber
      ensures Valid() && current == v && logNumber == log && prevLogNumber == prev
    {
      current, logNumber, prevLogNumber := v, log, prev;
    }

    /** LogAndApply once the edit carries all four counters. */
    method LogAndInstall(e: Edit)
      requires Valid() && ValidEdit(e) && LoggedEdit(comparatorName, Encode(e), e)
      requires e.logNumber.Some? && e.prevLogNumber.Some? && e.logNumber.value < nextFileNumber
      requires e.nextFileNumber == Some(nextFileNumber) && e.lastSequence == Some(lastSequence)
      requires Adds(e)
      modifies `descriptorLog, `edits, `unlogged, `current, `compactPointer, `logNumber, `prevLogNumber
      ensures Valid() && descriptorLog.Some?
      ensures AllEdited(old(current), e, current)
      ensures logNumber == e.logNumber.value && prevLogNumber == e.prevLogNumber.value
      ensures compactPointer == Point(old(compactPointer), e.compactPointers)
      ensures unlogged == Unset(if old(descriptorLog).None? then map[] else old(unlogged), e.compactPointers)
      ensures CountsAfter(edits).next == Some(nextFileNumber) && CountsAfter(edits).last == Some(lastSequence)
    {
      var v := BuildVersion(e);
      LogVersion(e, v);
      Install(v, e.logNumber.value, e.prevLogNumber.value);
    }

    /** Sets the edit's compaction pointers (Builder::Apply) and logs the edit. */
    method LogVersion(e: Edit, ghost v: seq<seq<Meta>>)
      requires Valid() && LoggedEdit(comparatorName, Encode(e), e) && |v| == NumLevels
      requires e.logNumber.Some? && e.prevLogNumber.Some? && e.logNumber.value < nextFileNumber
      requires e.nextFileNumber == Some(nextFileNumber) && e.lastSequence == Some(lastSequence)
      requires Adds(e) && AllEdited(current, e, v) && AllValid(rank, v, nextFileNumber)
      modifies `descriptorLog, `edits, `unlogged, `compactPointer
      ensures descriptorLog.Some? && Tracking(v)
      ensures |compactPointer| == NumLevels && AllSlices(compactPointer) && AllSlices(PointersAfter(edits))
      ensures compactPointer == Over(PointersAfter(edits), unlogged)
      ensures compactPointer == Point(old(compactPointer), e.compactPointers)
      ensures unlogged == Unset(if old(descriptorLog).None? then map[] else old(unlogged), e.compactPointers)
      ensures Counted(rank, edits, e.logNumber.value, e.prevLogNumber.value, lastSequence)
      ensures CountsAfter(edits).next == Some(nextFileNumber) && CountsAfter(edits).last == Some(lastSequence)
    {
      PointsLogged(compactPointer, PointersAfter(edits), descriptorLog.Some?, unlogged, e.compactPointers);
      compactPointer := Point(compactPointer, e.compactPointers);
      LogEdit(e, v);
    }

    method LogAndApply(edit: Edit)
      requires Valid() && ValidEdit(edit)
      requires nextFileNumber < Two64 && lastSequence < Two64 && prevLogNumber < Two64
      requires edit.logNumber.Some? ==> logNumber <= edit.logNumber.value < nextFileNumber
      requires edit.comparator.Some? ==> edit.comparator.value == comparatorName
      requires Adds(edit)
      modifies `descriptorLog, `edits, `unlogged, `current, `compactPointer, `logNumber, `prevLogNumber
      ensures Valid() && descriptorLog.Some?
      ensures AllEdited(old(current), edit, current)
      ensures logNumber == if edit.logNumber.Some? then edit.logNumber.value else old(logNumber)
      ensures prevLogNumber == if edit.prevLogNumber.Some? then edit.prevLogNumber.value else old(prevLogNumber)
      ensures compactPointer == Point(old(compactPointer), edit.compactPointers)
      ensures unlogged == Unset(if old(descriptorLog).None? then map[] else old(unlogged), edit.compactPointers)
      ensures CountsAfter(edits).next == Some(nextFileNumber) && CountsAfter(edits).last == Some(lastSequence)
    {
      var e := edit;
      if e.logNumber.None? { e := e.(logNumber := Some(logNumber)); }
      if e.prevLogNumber.None? { e := e.(prevLogNumber := Some(prevLogNumber)); }
      e := e.(nextFileNumber := Some(nextFileNumber), lastSequence := Some(lastSequence));
      FilledIn(rank, descriptorLog.Some?, edits, current, edit, e, nextFileNumber);
      LogAndInstall(e);
      SameEdited(old(current), edit, e, current);
    }

    method MarkFileNumberUsed(number: nat)
      modifies this`nextFileNumber
      ensures nextFileNumber == if old(nextFileNumber) <= number then number + 1 else old(nextFileNumber)
    {
      if nextFileNumber <= number {
        nextFileNumber := number + 1;
      }
    }

    /** The builder, the compaction pointers and the counters have taken in the edits. */
    ghost predicate TakenIn(builder: Builder, es: seq<Edit>, counts: Counts)
      reads this, builder
    {
      && builder.Valid() && builder.rank == rank && NoFiles(builder.base)
      && (forall l :: 0 <= l < NumLevels ==> builder.Level(l) == LevelAfter(rank, es, l))
      && compactPointer == PointersAfter(es) && counts == CountsAfter(es)
    }

    static method DecodeRecord(record: Bytes) returns (e: Option<Edit>)
      ensures e == Decode(record)
    {
      var edit := new VersionEdit();
      var ok := edit.DecodeFrom(record);
      e := if ok then Some(edit.AsEdit()) else None;
      assert ok ==> [] + Decode(record).value.compactPointers == Decode(record).value.compactPointers;
    }

    /** One record of Recover's loop. */
    method ReplayRecord(builder: Builder, counts: Counts, record: Bytes, ghost es: seq<Edit>)
      returns (ok: bool, more: Counts)
      requires TakenIn(builder, es, counts)
      modifies `compactPointer, builder
      ensures ok <==> Decode(record).Some? && NameMatches(Decode(record).value, comparatorName)
      ensures ok ==> TakenIn(builder, es + [Decode(record).value], more)
    {
      more := counts;
      var decoded := DecodeRecord(record);
      if decoded.None? { return false, counts; }
      var e := decoded.value;
      if e.comparator.Some? && e.comparator.value != comparatorName { return false, counts; }
      ok := true;
      DecodedLevels(record);
      CountsLast(es, e);
      TakeIn(builder, e, es);
      compactPointer := Point(compactPointer, e.compactPointers);
      more := Count(counts, e);
    }

    method TakeIn(builder: Builder, e: Edit, ghost es: seq<Edit>)
      requires builder.Valid() && builder.rank == rank && LevelsBelow(e)
      requires forall l :: 0 <= l < NumLevels ==> builder.Level(l) == LevelAfter(rank, es, l)
      modifies builder
      ensures builder.Valid()
      ensures forall l :: 0 <= l < NumLevels ==> builder.Level(l) == LevelAfter(rank, es + [e], l)
    {
      builder.Apply(e);
      forall l | 0 <= l < NumLevels
        ensures builder.Level(l) == LevelAfter(rank, es + [e], l)
      {
        LevelAfterLast(rank, es, e, l);
      }
    }

    /** Recover's loop: reads records until one cannot be read. */
    method ReplayRecords(builder: Builder, records: seq<Bytes>) returns (ok: bool, counts: Counts, ghost es: seq<Edit>)
      requires TakenIn(builder, [], Counts(None, None, None, None))
      modifies `compactPointer, builder
      ensures ok <==> ReadableTo(records, |records|, comparatorName)
      ensures ok ==> TakenIn(builder, es, counts) && Reads(records, |records|, es, comparatorName)
    {
      ok, counts, es := true, Counts(None, None, None, None), [];
      for i := 0 to |records|
        invariant ok && TakenIn(builder, es, counts) && Reads(records, i, es, comparatorName)
      {
        var more;
        ok, more := ReplayRecord(builder, counts, records[i], es);
        if !ok {
          UnreadableRecord(records, i, es, comparatorName);
          return;
        }
        ReadsOneMore(records, i + 1, es, Decode(records[i]).value, comparatorName);
        counts := more;
        es := es + [Decode(records[i]).value];
      }
    }

    /** Reads the records of a manifest into a version set that has no files yet. */
    method Recover(records: seq<Bytes>) returns (ok: bool)
      requires Valid() && descriptorLog.None?
      requires NoFiles(current) && compactPointer == NoPointers()
      modifies `current, `compactPointer, `manifestFileNumber, `nextFileNumber, `lastSequence
      modifies `logNumber, `prevLogNumber
      ensures ok <==> Recoverable(records, comparatorName)
      ensures ok ==> Recovered(DecodeAll(records).value)
    {
      var builder := new Builder(rank, current);
      var counts;
      ghost var es;
      ok, counts, es := ReplayRecords(builder, records);
      if !ok {
        return;
      }
      ok := counts.next.Some? && counts.log.Some? && counts.last.Some?;
      MarkFileNumberUsed(if counts.prev.Some? then counts.prev.value else 0);
      MarkFileNumberUsed(if counts.log.Some? then counts.log.value else 0);
      if ok {
        InstallRecovered(builder, counts, es);
      }
    }

    method InstallRecovered(builder: Builder, counts: Counts, ghost es: seq<Edit>)
      requires TakenIn(builder, es, counts) && counts.next.Some? && counts.log.Some? && counts.last.Some?
      modifies `current, `manifestFileNumber, `nextFileNumber, `lastSequence, `logNumber, `prevLogNumber
      ensures Recovered(es)
    {
      var v := builder.SaveTo();
      SavedTracks(rank, es, v);
      current := v;
      manifestFileNumber, nextFileNumber := counts.next.value, counts.next.value + 1;
      lastSequence, logNumber := counts.last.value, counts.log.value;
      prevLogNumber := if counts.prev.Some? then counts.prev.value else 0;
    }

    /** The version set is what one builder makes of `es`, with their last counters. */
    ghost predicate Recovered(es: seq<Edit>)
      reads this
    {
      var c := CountsAfter(es);
      && |current| == NumLevels && TracksAll(rank, es, current)
      && compactPointer == PointersAfter(es)
      && c.next == Some(manifestFileNumber) && nextFileNumber == manifestFileNumber + 1
      && c.log == Some(logNumber) && c.last == Some(lastSequence)
      && prevLogNumber == if c.prev.Some? then c.prev.value else 0
    }
  }

  ghost predicate Recoverable(records: seq<Bytes>, name: Bytes) {
    && ReadableTo(records, |records|, name)
    && var c := CountsAfter(DecodeAll(records).value);
       c.next.Some? && c.log.Some? && c.last.Some?
  }

  /** Each level has the files it had, and their numbers were used. */
  lemma RecoveredLevel(rank: Rank, edits: seq<Edit>, level: nat, r: seq<Meta>, files: seq<Meta>, n: nat, m: nat)
    requires Tracks(rank, edits, level, r) && Tracks(rank, edits, level, files)
    requires ValidLevel(rank, files, n) && forall u :: u in UsedNumbers(rank, edits, level) ==> u < m
    ensures r == files && ValidLevel(rank, files, m + 1)
  {
    OrderedIsUnique(rank, r, files);
    TrackedAreUsed(rank, edits, level, files);
    assert forall f :: f in files ==> f.number in Numbers(files);
  }

  /** Every pick that is not logged is of the key that is. */
  ghost predicate PicksLogged(picks: map<nat, Bytes>, logged: seq<Bytes>)
    requires |logged| == NumLevels
  {
    forall l :: 0 <= l < NumLevels && l in picks ==> picks[l] == logged[l]
  }

  lemma OverIsLogged(logged: seq<Bytes>, picks: map<nat, Bytes>)
    requires |logged| == NumLevels
    ensures Over(logged, picks) == logged <==> PicksLogged(picks, logged)
  {
    if Over(logged, picks) == logged {
      assert forall l :: 0 <= l < NumLevels ==> Over(logged, picks)[l] == logged[l];
    }
  }

  /** Opening a store again from its manifest gives back a version set that goes on where
      the old one was: its file lists, its log numbers, a next file number above every file
      and log.  The compaction pointers are those that were logged, which are the ones it
      had if and only if every later pick was of the logged key. */
  method Reopen(vs: VersionSet) returns (r: VersionSet)
    requires vs.Valid() && vs.descriptorLog.Some?
    ensures fresh(r) && r.Valid() && r.rank == vs.rank && r.comparatorName == vs.comparatorName
    ensures r.current == vs.current && r.compactPointer == PointersAfter(vs.edits)
    ensures r.compactPointer == vs.compactPointer <==> PicksLogged(vs.unlogged, PointersAfter(vs.edits))
    ensures r.logNumber == vs.logNumber && r.prevLogNumber == vs.prevLogNumber
    ensures CountsAfter(vs.edits).last == Some(r.lastSequence) && r.lastSequence <= vs.lastSequence
    ensures forall l, f :: 0 <= l < NumLevels && f in r.current[l] ==> f.number < r.nextFileNumber
    ensures r.logNumber < r.nextFileNumber
  {
    r := new VersionSet(vs.rank, vs.comparatorName);
    LoggedDecodes(vs.comparatorName, vs.descriptorLog.value, vs.edits);
    var ok := r.Recover(vs.descriptorLog.value);
    OverIsLogged(PointersAfter(vs.edits), vs.unlogged);
    forall l | 0 <= l < NumLevels
      ensures r.current[l] == vs.current[l] && ValidLevel(vs.rank, r.current[l], r.nextFileNumber)
    {
      assert Tracks(vs.rank, vs.edits, l, r.current[l]) && Tracks(vs.rank, vs.edits, l, vs.current[l]);
      RecoveredLevel(vs.rank, vs.edits, l, r.current[l], vs.current[l], vs.nextFileNumber, r.manifestFileNumber);
    }
  }
}
