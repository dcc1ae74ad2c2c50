/** Versions of the file set and the early-stopping lookup (db/version_set.cc). */
module Versions {
  import opened Keys

  /** FileMetaData together with the contents of the table it names, which never change. */
  datatype FileMeta = FileMeta(number: nat, fileSize: nat, smallest: IKey, largest: IKey, entries: seq<Entry>)

  datatype Version = Version(files: seq<seq<FileMeta>>)

  ghost predicate ValidFile(f: FileMeta) {
    && f.entries != []
    && Sorted(f.entries)
    && f.smallest == f.entries[0].key
    && f.largest == f.entries[|f.entries| - 1].key
  }

  ghost predicate ValidFiles(fs: seq<FileMeta>) {
    forall i :: 0 <= i < |fs| ==> ValidFile(fs[i])
  }

  /** What SaveTo asserts of levels above 0: ordered and disjoint in internal keys. */
  ghost predicate KeyDisjoint(fs: seq<FileMeta>) {
    forall i, j :: 0 <= i < j < |fs| ==> Less(fs[i].largest, fs[j].smallest)
  }

  /** The stronger property the engine relies on: no user key in two files of a level. */
  ghost predicate UserDisjoint(fs: seq<FileMeta>) {
    forall i, j :: 0 <= i < j < |fs| ==> fs[i].largest.user < fs[j].smallest.user
  }

  ghost predicate DistinctNumbers(fs: seq<FileMeta>) {
    forall i, j :: 0 <= i < j < |fs| ==> fs[i].number != fs[j].number
  }

  ghost predicate WellFormed(v: Version) {
    && |v.files| == NumLevels
    && (forall l :: 0 <= l < NumLevels ==> ValidFiles(v.files[l]))
    && (forall l :: 1 <= l < NumLevels ==> KeyDisjoint(v.files[l]))
    && DistinctNumbers(v.files[0])
  }

  /** Every entry of `f` is newer than every entry of `g` for the same user key. */
  ghost predicate Newer(f: FileMeta, g: FileMeta) {
    forall x, y :: x in f.entries && y in g.entries && x.key.user == y.key.user ==> Tag(x.key) > Tag(y.key)
  }

  /** Entries never hop across levels: a smaller level, and at level 0 a larger
      file number, holds only newer entries of any user key. */
  ghost predicate ByAge(v: Version)
    requires |v.files| == NumLevels
  {
    && (forall a, b, f, g {:trigger Newer(f, g), v.files[a], v.files[b]} ::
            0 <= a < b < NumLevels && f in v.files[a] && g in v.files[b] ==> Newer(f, g))
    && (forall f, g {:trigger Newer(f, g)} :: f in v.files[0] && g in v.files[0] && f.number > g.number ==> Newer(f, g))
  }

  ghost function FileEntries(fs: seq<FileMeta>): set<Entry> {
    set f, e | f in fs && e in f.entries :: e
  }

  ghost function VersionEntries(v: Version): set<Entry>
    requires |v.files| == NumLevels
  {
    set l, f, e | 0 <= l < NumLevels && f in v.files[l] && e in f.entries :: e
  }

  /** No file of levels below `l` holds a visible entry of `user`. */
  ghost predicate NoneAbove(v: Version, l: nat, user: UserKey, snapshot: SequenceNumber)
    requires |v.files| == NumLevels && l <= NumLevels
  {
    forall a, f, e :: 0 <= a < l && f in v.files[a] && e in f.entries ==> !Visible(e, user, snapshot)
  }

  ghost predicate NoneIn(fs: seq<FileMeta>, user: UserKey, snapshot: SequenceNumber) {
    forall f, e :: f in fs && e in f.entries ==> !Visible(e, user, snapshot)
  }

  /** FindFile: the first file whose largest key is at or after `target`. */
  method FindFile(files: seq<FileMeta>, target: IKey) returns (right: nat)
    requires ValidFiles(files) && KeyDisjoint(files)
    ensures right <= |files|
    ensures forall i :: 0 <= i < right ==> Less(files[i].largest, target)
    ensures forall i :: right <= i < |files| ==> !Less(files[i].largest, target)
  {
    var left := 0;
    right := |files|;
    while left < right
      invariant left <= right <= |files|
      invariant forall i :: 0 <= i < left ==> Less(files[i].largest, target)
      invariant forall i :: right <= i < |files| ==> !Less(files[i].largest, target)
    {
      var mid := (left + right) / 2;
      LargestAscends(files);
      if Less(files[mid].largest, target) {
        left := mid + 1;
      } else {
        right := mid;
      }
    }
  }

  lemma SmallestToLargest(f: FileMeta, e: Entry)
    requires ValidFile(f) && e in f.entries
    ensures e.key == f.smallest || Less(f.smallest, e.key)
    ensures e.key == f.largest || Less(e.key, f.largest)
    ensures f.smallest.user <= e.key.user <= f.largest.user
  {
    var i :| 0 <= i < |f.entries| && f.entries[i] == e;
  }

  lemma LargestAscends(files: seq<FileMeta>)
    requires ValidFiles(files) && KeyDisjoint(files)
    ensures forall i, j :: 0 <= i < j < |files| ==> Less(files[i].largest, files[j].largest)
  {
    forall i, j | 0 <= i < j < |files|
      ensures Less(files[i].largest, files[j].largest)
    {
      var f := files[j];
      SmallestToLargest(f, f.entries[0]);
    }
  }

  ghost predicate NewestFirst(fs: seq<FileMeta>) {
    forall i, j :: 0 <= i < j < |fs| ==> fs[i].number > fs[j].number
  }

  function InsertByNumber(fs: seq<FileMeta>, f: FileMeta): (r: seq<FileMeta>)
    requires NewestFirst(fs) && forall g :: g in fs ==> g.number != f.number
    ensures NewestFirst(r) && |r| == |fs| + 1
    ensures forall g :: g in r <==> g == f || g in fs
  {
    if fs == [] || f.number > fs[0].number then [f] + fs
    else
      var rest := InsertByNumber(fs[1..], f);
      assert forall g :: g in rest ==> g.number < fs[0].number;
      [fs[0]] + rest
  }

  /** std::sort with NewestFirst: the same files, by strictly falling number. */
  method SortNewestFirst(files: seq<FileMeta>) returns (sorted: seq<FileMeta>)
    requires DistinctNumbers(files)
    ensures NewestFirst(sorted) && |sorted| == |files|
    ensures forall f :: f in sorted <==> f in files
  {
    sorted := [];
    for k := 0 to |files|
      invariant NewestFirst(sorted) && |sorted| == k
      invariant forall f :: f in sorted <==> f in files[..k]
    {
      sorted := InsertByNumber(sorted, files[k]);
      assert files[..k + 1] == files[..k] + [files[k]];
    }
    assert files[..|files|] == files;
  }

  /** The files of level 0 whose user-key range holds `user`, newest first. */
  method Level0Candidates(files: seq<FileMeta>, user: UserKey) returns (tmp: seq<FileMeta>)
    requires DistinctNumbers(files)
    ensures forall f :: f in tmp <==> f in files && f.smallest.user <= user <= f.largest.user
    ensures NewestFirst(tmp)
  {
    tmp := [];
    ghost var picked: seq<nat> := [];
    for i := 0 to |files|
      invariant forall f :: f in tmp <==> f in files[..i] && f.smallest.user <= user <= f.largest.user
      invariant |picked| == |tmp|
      invariant forall a :: 0 <= a < |tmp| ==> picked[a] < i && tmp[a] == files[picked[a]]
      invariant forall a, b :: 0 <= a < b < |tmp| ==> picked[a] < picked[b]
    {
      if user >= files[i].smallest.user && user <= files[i].largest.user {
        tmp := tmp + [files[i]];
        picked := picked + [i];
      }
    }
    assert files[..|files|] == files;
    tmp := SortNewestFirst(tmp);
  }

  /** One table can answer for its level once files before it end before the
      lookup key and files after it start later. */
  lemma LevelAnswer(files: seq<FileMeta>, index: nat, user: UserKey, snapshot: SequenceNumber)
    requires ValidFiles(files) && KeyDisjoint(files) && index <= |files|
    requires forall i :: 0 <= i < index ==> Less(files[i].largest, LookupKey(user, snapshot))
    requires forall i :: index <= i < |files| ==> !Less(files[i].largest, LookupKey(user, snapshot))
    ensures index == |files| ==> NoneIn(files, user, snapshot)
    ensures index < |files| && user < files[index].smallest.user ==> NoneIn(files, user, snapshot)
    ensures index < |files|
            ==> Finds(FileEntries(files), user, snapshot, PointLookup(files[index].entries, user, snapshot))
  {
    forall f, e | f in files && e in f.entries && Visible(e, user, snapshot)
      ensures index < |files| && files[index].smallest.user <= user
      ensures e in files[index].entries
              || exists x :: x in files[index].entries && Visible(x, user, snapshot) && Tag(e.key) <= Tag(x.key)
    {
      var i :| 0 <= i < |files| && files[i] == f;
      SmallestToLargest(f, e);
      assert index <= i;
      if index < i {
        var g := files[index];
        var last := g.entries[|g.entries| - 1];
        assert Less(g.largest, f.smallest);
        SmallestToLargest(g, last);
        assert last in g.entries && Visible(last, user, snapshot) && Tag(e.key) <= Tag(last.key);
      }
    }
    if index < |files| {
      var g := files[index];
      PointLookupFinds(g.entries, user, snapshot);
      assert forall x :: x in g.entries ==> x in FileEntries(files);
    }
  }

  /** What stopping early finds: the answer of the first level that has one, and at level
      0 of the newest file that has one. */
  ghost predicate FirstHit(v: Version, user: UserKey, snapshot: SequenceNumber, r: Option<Entry>)
    requires |v.files| == NumLevels
  {
    match r
    case None => NoneAbove(v, NumLevels, user, snapshot)
    case Some(e) =>
      exists l ::
        0 <= l < NumLevels && NoneAbove(v, l, user, snapshot) && AnswersLevel(v.files[l], l, user, snapshot, e)
  }

  ghost predicate AnswersLevel(files: seq<FileMeta>, l: nat, user: UserKey, snapshot: SequenceNumber, e: Entry) {
    if l == 0 then exists f :: f in files && AnswersLevel0(files, f, user, snapshot, e)
    else IsNewest(FileEntries(files), user, snapshot, e)
  }

  ghost predicate AnswersLevel0(files: seq<FileMeta>, f: FileMeta, user: UserKey, snapshot: SequenceNumber, e: Entry) {
    && IsNewest(EntriesOf(f.entries), user, snapshot, e)
    && forall g, x :: g in files && g.number > f.number && x in g.entries ==> !Visible(x, user, snapshot)
  }

  /** Version::Get: level 0 newest file first, then one binary-searched file per level. */
  method Get(v: Version, user: UserKey, snapshot: SequenceNumber) returns (r: Option<Entry>)
    requires WellFormed(v)
    ensures FirstHit(v, user, snapshot, r)
  {
    for level := 0 to NumLevels
      invariant NoneAbove(v, level, user, snapshot)
    {
      var files := v.files[level];
      if |files| == 0 { continue; }
      if level == 0 {
        r := GetLevel0(files, user, snapshot);
        if r.Some? {
          assert AnswersLevel(v.files[0], 0, user, snapshot, r.value);
          return;
        }
      } else {
        var index := FindFile(files, LookupKey(user, snapshot));
        LevelAnswer(files, index, user, snapshot);
        if index < |files| && user >= files[index].smallest.user {
          r := PointLookup(files[index].entries, user, snapshot);
          if r.Some? {
            assert AnswersLevel(v.files[level], level, user, snapshot, r.value);
            return;
          }
          assert forall f, e :: f in files && e in f.entries ==> e in FileEntries(files);
        }
      }
    }
    r := None;
  }

  method GetLevel0(files: seq<FileMeta>, user: UserKey, snapshot: SequenceNumber) returns (r: Option<Entry>)
    requires ValidFiles(files) && DistinctNumbers(files)
    ensures r.None? ==> NoneIn(files, user, snapshot)
    ensures r.Some? ==> exists f :: f in files && AnswersLevel0(files, f, user, snapshot, r.value)
  {
    var tmp := Level0Candidates(files, user);
    for i := 0 to |tmp|
      invariant forall j, e :: 0 <= j < i && e in tmp[j].entries ==> !Visible(e, user, snapshot)
    {
      assert tmp[i] in files;
      r := PointLookup(tmp[i].entries, user, snapshot);
      PointLookupFinds(tmp[i].entries, user, snapshot);
      if r.Some? {
        NewerCandidatesMiss(files, tmp, i, user, snapshot);
        assert AnswersLevel0(files, tmp[i], user, snapshot, r.value);
        return;
      }
      assert forall e :: e in tmp[i].entries ==> e in EntriesOf(tmp[i].entries);
    }
    r := None;
    NewerCandidatesMiss(files, tmp, |tmp|, user, snapshot);
  }

  lemma NewerCandidatesMiss(files: seq<FileMeta>, tmp: seq<FileMeta>, i: nat, user: UserKey, snapshot: SequenceNumber)
    requires ValidFiles(files) && NewestFirst(tmp) && i <= |tmp|
    requires forall f :: f in tmp <==> f in files && f.smallest.user <= user <= f.largest.user
    requires forall j, e :: 0 <= j < i && e in tmp[j].entries ==> !Visible(e, user, snapshot)
    ensures forall g, x ::
             g in files && (i == |tmp| || g.number > tmp[i].number) && x in g.entries ==>
             !Visible(x, user, snapshot)
  {
    forall g, x | g in files && (i == |tmp| || g.number > tmp[i].number) && x in g.entries
      ensures !Visible(x, user, snapshot)
    {
      SmallestToLargest(g, x);
      if g in tmp {
        var j :| 0 <= j < |tmp| && tmp[j] == g;
      }
    }
  }

  /** Given the age order, stopping early loses nothing: the first hit is the newest
      visible entry of the whole version. */
  lemma FirstHitIsNewest(v: Version, user: UserKey, snapshot: SequenceNumber, r: Option<Entry>)
    requires WellFormed(v) && ByAge(v) && FirstHit(v, user, snapshot, r)
    ensures Finds(VersionEntries(v), user, snapshot, r)
  {
    if r.Some? {
      var l :| 0 <= l < NumLevels && NoneAbove(v, l, user, snapshot)
        && AnswersLevel(v.files[l], l, user, snapshot, r.value);
      if l == 0 {
        var f :| f in v.files[0] && AnswersLevel0(v.files[0], f, user, snapshot, r.value);
        Level0Wins(v, f, user, snapshot, r.value);
      } else {
        LevelWins(v, l, user, snapshot, r.value);
      }
    }
  }

  lemma Level0Wins(v: Version, g: FileMeta, user: UserKey, snapshot: SequenceNumber, r: Entry)
    requires WellFormed(v) && ByAge(v) && g in v.files[0]
    requires AnswersLevel0(v.files[0], g, user, snapshot, r)
    ensures IsNewest(VersionEntries(v), user, snapshot, r)
  {
    forall l, f, x | 0 <= l < NumLevels && f in v.files[l] && x in f.entries && Visible(x, user, snapshot)
      ensures Tag(x.key) <= Tag(r.key)
    {
      if f == g {
        assert x in EntriesOf(g.entries);
      } else {
        assert l == 0 ==> f.number != g.number;
        assert Newer(g, f);
      }
    }
  }

  lemma LevelWins(v: Version, level: nat, user: UserKey, snapshot: SequenceNumber, r: Entry)
    requires WellFormed(v) && ByAge(v) && 1 <= level < NumLevels
    requires NoneAbove(v, level, user, snapshot)
    requires IsNewest(FileEntries(v.files[level]), user, snapshot, r)
    ensures IsNewest(VersionEntries(v), user, snapshot, r)
  {
    var g :| g in v.files[level] && r in g.entries;
    forall l, f, x | 0 <= l < NumLevels && f in v.files[l] && x in f.entries && Visible(x, user, snapshot)
      ensures Tag(x.key) <= Tag(r.key)
    {
      if l > level {
        assert Newer(g, f);
      } else {
        assert l == level;
        assert x in FileEntries(v.files[level]);
      }
    }
  }
}
