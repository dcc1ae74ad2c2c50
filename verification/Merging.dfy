/** The merging iterator (table/merger.cc): many sorted cursors read as one. */
module Merging {
  import opened Keys

  datatype Direction = Forward | Reverse

  /** A child: a position in a sorted run, where one past the end stands for "not valid". */
  class Cursor {
    const entries: seq<Entry>
    var pos: nat

    constructor (es: seq<Entry>)
      ensures entries == es && pos == |es|
    {
      entries, pos := es, |es|;
    }

    predicate Valid()
      reads this
    {
      pos < |entries|
    }

    method SeekToFirst()
      modifies this
      ensures pos == 0
    {
      pos := 0;
    }

    method SeekToLast()
      modifies this
      ensures pos == if entries == [] then 0 else |entries| - 1
    {
      pos := if entries == [] then 0 else |entries| - 1;
    }

    method Seek(target: IKey)
      requires Sorted(entries)
      modifies this
      ensures pos == SeekIndex(entries, target)
    {
      pos := SeekIndex(entries, target);
    }

    method Next()
      requires Valid()
      modifies this
      ensures pos == old(pos) + 1
    {
      pos := pos + 1;
    }

    method Prev()
      requires Valid()
      modifies this
      ensures pos == if old(pos) == 0 then |entries| else old(pos) - 1
    {
      pos := if pos == 0 then |entries| else pos - 1;
    }
  }

  /** `merged` is the sorted union of runs that share no key. */
  ghost predicate IsMerge(merged: seq<Entry>, runs: seq<seq<Entry>>) {
    && Sorted(merged)
    && (forall i :: 0 <= i < |runs| ==> Sorted(runs[i]))
    && (forall e :: e in merged <==> exists i :: 0 <= i < |runs| && e in runs[i])
    && NoSharedKeys(runs)
  }

  /** Position `pos` of `run` is its first entry at or after entry `k` of `merged`. */
  ghost predicate FirstFrom(run: seq<Entry>, pos: nat, merged: seq<Entry>, k: nat) {
    && pos <= |run| && k <= |merged|
    && (k == |merged| ==> pos == |run|)
    && (k < |merged| ==>
          && (forall j :: 0 <= j < pos ==> Less(run[j].key, merged[k].key))
          && (forall j :: pos <= j < |run| ==> !Less(run[j].key, merged[k].key)))
  }

  /** Position `pos` of `run` is its last entry at or before entry `k` of `merged`, where
      one past the end of `run` stands for "none". */
  ghost predicate LastUpTo(run: seq<Entry>, pos: nat, merged: seq<Entry>, k: int) {
    && pos <= |run| && -1 <= k < |merged|
    && (k == -1 ==> pos == |run|)
    && (k >= 0 ==>
          && (pos < |run| ==> forall j :: 0 <= j <= pos ==> !Less(merged[k].key, run[j].key))
          && (forall j :: (if pos < |run| then pos + 1 else 0) <= j < |run| ==> Less(merged[k].key, run[j].key)))
  }

  lemma FirstFromStart(run: seq<Entry>, merged: seq<Entry>)
    requires Sorted(merged) && forall e :: e in run ==> e in merged
    ensures FirstFrom(run, 0, merged, 0)
  {
    assert run != [] ==> run[0] in merged;
    forall j | 0 <= j < |run|
      ensures !Less(run[j].key, merged[0].key)
    {
      assert run[j] in merged;
    }
  }

  lemma LastUpToEnd(run: seq<Entry>, merged: seq<Entry>)
    requires Sorted(merged) && forall e :: e in run ==> e in merged
    ensures LastUpTo(run, if run == [] then 0 else |run| - 1, merged, |merged| - 1)
  {
    assert run != [] ==> run[0] in merged;
    forall j | 0 <= j < |run|
      ensures !Less(merged[|merged| - 1].key, run[j].key)
    {
      assert run[j] in merged;
    }
  }

  lemma {:induction false} FirstFromSeek(run: seq<Entry>, merged: seq<Entry>, target: IKey)
    requires Sorted(merged) && Sorted(run) && forall e :: e in run ==> e in merged
    ensures FirstFrom(run, SeekIndex(run, target), merged, SeekIndex(merged, target))
  {
    var k := SeekIndex(merged, target);
    forall j | 0 <= j < |run|
      ensures k == |merged| ==> Less(run[j].key, target)
      ensures k < |merged| ==> (Less(run[j].key, target) <==> Less(run[j].key, merged[k].key))
    {
      assert run[j] in merged;
      var m :| 0 <= m < |merged| && merged[m] == run[j];
    }
    var i := SeekIndex(run, target);
    assert i < |run| ==> !Less(run[i].key, target);
  }

  /** Moving the position of the entry itself, or of nothing, one step on. */
  lemma FirstFromNext(run: seq<Entry>, pos: nat, merged: seq<Entry>, k: nat)
    requires Sorted(merged) && Sorted(run) && forall e :: e in run ==> e in merged
    requires k < |merged| && FirstFrom(run, pos, merged, k)
    ensures FirstFrom(run, if pos < |run| && run[pos].key == merged[k].key then pos + 1 else pos, merged, k + 1)
  {
    var next := if pos < |run| && run[pos].key == merged[k].key then pos + 1 else pos;
    assert next < |run| ==> !Less(run[next].key, merged[k].key);
    forall j | 0 <= j < |run|
      ensures k + 1 == |merged| ==> run[j].key == merged[k].key || Less(run[j].key, merged[k].key)
      ensures k + 1 < |merged| ==> (Less(run[j].key, merged[k + 1].key)
                                    <==> run[j].key == merged[k].key || Less(run[j].key, merged[k].key))
    {
      assert run[j] in merged;
      var m :| 0 <= m < |merged| && merged[m] == run[j];
    }
  }

  lemma LastUpToPrev(run: seq<Entry>, pos: nat, merged: seq<Entry>, k: nat)
    requires Sorted(merged) && Sorted(run) && forall e :: e in run ==> e in merged
    requires k < |merged| && LastUpTo(run, pos, merged, k)
    ensures LastUpTo(run,
                     if pos < |run| && run[pos].key == merged[k].key then (if pos == 0 then |run| else pos - 1)
                     else pos,
                     merged, k - 1)
  {
    assert pos < |run| ==> !Less(merged[k].key, run[pos].key);
    assert 0 < pos < |run| ==> Less(run[pos - 1].key, run[pos].key);
    forall j | 0 <= j < |run|
      ensures k == 0 ==> run[j].key == merged[k].key || Less(merged[k].key, run[j].key)
      ensures k > 0 ==> (Less(merged[k - 1].key, run[j].key)
                         <==> run[j].key == merged[k].key || Less(merged[k].key, run[j].key))
    {
      assert run[j] in merged;
      var m :| 0 <= m < |merged| && merged[m] == run[j];
    }
  }

  /** Stepping back from the first entry at or after a key that is not in the run. */
  lemma {:induction false} LastUpToFromSeek(run: seq<Entry>, merged: seq<Entry>, k: nat)
    requires Sorted(merged) && Sorted(run) && k < |merged|
    requires forall j :: 0 <= j < |run| ==> run[j].key != merged[k].key
    ensures var i := SeekIndex(run, merged[k].key);
            LastUpTo(run,
                     if i < |run| then (if i == 0 then |run| else i - 1) else if run == [] then 0 else |run| - 1,
                     merged, k)
  {
  }

  lemma {:induction false} FirstFromSelf(run: seq<Entry>, merged: seq<Entry>, k: nat)
    requires Sorted(merged) && Sorted(run) && k < |merged| && forall e :: e in run ==> e in merged
    ensures FirstFrom(run, SeekIndex(run, merged[k].key), merged, k)
  {
  }

  /** The merge of two sorted runs that share no key. */
  function MergeTwo(a: seq<Entry>, b: seq<Entry>): (m: seq<Entry>)
    requires Sorted(a) && Sorted(b)
    requires forall i, j :: 0 <= i < |a| && 0 <= j < |b| ==> a[i].key != b[j].key
    ensures Sorted(m)
    ensures forall e :: e in m <==> e in a || e in b
  {
    if a == [] then b
    else if b == [] then a
    else if Less(a[0].key, b[0].key) then
      var rest := MergeTwo(a[1..], b);
      assert forall i :: 0 <= i < |rest| ==> rest[i] in a[1..] || rest[i] in b;
      [a[0]] + rest
    else
      var rest := MergeTwo(a, b[1..]);
      assert forall i :: 0 <= i < |rest| ==> rest[i] in a || rest[i] in b[1..];
      [b[0]] + rest
  }

  ghost predicate NoSharedKeys(runs: seq<seq<Entry>>) {
    forall i, j, a, b :: 0 <= i < j < |runs| && 0 <= a < |runs[i]| && 0 <= b < |runs[j]|
      ==> runs[i][a].key != runs[j][b].key
  }

  /** Any sorted runs with no shared key have a merge... */
  lemma {:induction false} MergeExists(runs: seq<seq<Entry>>) returns (merged: seq<Entry>)
    requires forall i :: 0 <= i < |runs| ==> Sorted(runs[i])
    requires NoSharedKeys(runs)
    ensures IsMerge(merged, runs)
  {
    if runs == [] {
      merged := [];
    } else {
      var init, last := runs[..|runs| - 1], runs[|runs| - 1];
      var rest := MergeExists(init);
      forall i, j | 0 <= i < |rest| && 0 <= j < |last|
        ensures rest[i].key != last[j].key
      {
        assert rest[i] in rest;
        var r :| 0 <= r < |init| && rest[i] in init[r];
        var a :| 0 <= a < |init[r]| && init[r][a] == rest[i];
        assert runs[r] == init[r];
      }
      merged := MergeTwo(rest, last);
      forall e
        ensures e in merged <==> exists i :: 0 <= i < |runs| && e in runs[i]
      {
        if e in rest {
          var r :| 0 <= r < |init| && e in init[r];
          assert e in runs[r];
        }
        if e in last {
          assert e in runs[|runs| - 1];
        }
        if i :| 0 <= i < |runs| && e in runs[i] {
          assert i < |init| ==> e in init[i];
        }
      }
    }
  }

  /** ...and only one. */
  lemma {:induction false} SortedIsUnique(a: seq<Entry>, b: seq<Entry>)
    requires Sorted(a) && Sorted(b) && forall e :: e in a <==> e in b
    ensures a == b
  {
    assert a != [] ==> a[0] in b;
    assert b != [] ==> b[0] in a;
    if a != [] && b != [] {
      assert a[0] == b[0];
      forall e
        ensures e in a[1..] <==> e in b[1..]
      {
        assert e in a[1..] ==> e in b;
        assert e in b[1..] ==> e in a;
      }
      SortedIsUnique(a[1..], b[1..]);
    }
  }

  ghost function Runs(children: seq<Cursor>): seq<seq<Entry>> {
    seq(|children|, i requires 0 <= i < |children| => children[i].entries)
  }

  ghost predicate AllFirstFrom(children: seq<Cursor>, merged: seq<Entry>, k: nat)
    reads children
  {
    forall i :: 0 <= i < |children| ==> FirstFrom(children[i].entries, children[i].pos, merged, k)
  }

  ghost predicate AllLastUpTo(children: seq<Cursor>, merged: seq<Entry>, k: int)
    reads children
  {
    forall i :: 0 <= i < |children| ==> LastUpTo(children[i].entries, children[i].pos, merged, k)
  }

  lemma RunsInMerge(children: seq<Cursor>, merged: seq<Entry>, i: nat)
    requires IsMerge(merged, Runs(children)) && i < |children|
    ensures Sorted(children[i].entries) && forall e :: e in children[i].entries ==> e in merged
  {
    assert Runs(children)[i] == children[i].entries;
  }

  /** Only one run holds a given key. */
  lemma OneRunHolds(children: seq<Cursor>, merged: seq<Entry>, i: nat, a: nat, j: nat, b: nat)
    requires IsMerge(merged, Runs(children)) && i < |children| && j < |children|
    requires a < |children[i].entries| && b < |children[j].entries|
    requires children[i].entries[a].key == children[j].entries[b].key
    ensures i == j && a == b
  {
    assert Runs(children)[i] == children[i].entries && Runs(children)[j] == children[j].entries;
    assert i == j && a < b ==> Less(children[i].entries[a].key, children[j].entries[b].key);
  }

  /** Some child stands exactly at entry `k`. */
  lemma SomeChildAt(children: seq<Cursor>, merged: seq<Entry>, k: nat) returns (i: nat)
    requires IsMerge(merged, Runs(children)) && k < |merged|
    requires AllFirstFrom(children, merged, k) || AllLastUpTo(children, merged, k)
    ensures i < |children| && children[i].Valid() && children[i].entries[children[i].pos] == merged[k]
  {
    assert merged[k] in merged;
    i :| 0 <= i < |Runs(children)| && merged[k] in Runs(children)[i];
    RunsInMerge(children, merged, i);
    var run, pos := children[i].entries, children[i].pos;
    var j :| 0 <= j < |run| && run[j] == merged[k];
    assert FirstFrom(run, pos, merged, k) || LastUpTo(run, pos, merged, k);
  }

  class MergingIterator {
    const children: seq<Cursor>
    ghost const merged: seq<Entry>
    var current: Cursor?
    var direction: Direction
    ghost var index: nat

    ghost function Repr(): set<object> {
      {this} + set c: Cursor | c in children
    }

    ghost predicate Shape() {
      && (forall i, j :: 0 <= i < j < |children| ==> children[i] != children[j])
      && IsMerge(merged, Runs(children))
    }

    /** The iterator stands at entry `index` of the merge; at its end it is not valid. */
    ghost predicate AtIndex()
      reads this, children
    {
      && index <= |merged|
      && (index == |merged| <==> current == null)
      && (current != null ==> current in children && current.Valid() && current.entries[current.pos] == merged[index])
    }

    ghost predicate Valid()
      reads this, children
    {
      && Shape() && AtIndex()
      && (index < |merged| ==> if direction.Forward? then AllFirstFrom(children, merged, index)
                               else AllLastUpTo(children, merged, index))
    }

    predicate IsValid()
      reads this
    {
      current != null
    }

    function Current(): (e: Entry)
      requires Valid() && IsValid()
      reads this, children
      ensures e == merged[index]
    {
      current.entries[current.pos]
    }

    constructor (cs: seq<Cursor>, ghost m: seq<Entry>)
      requires forall i, j :: 0 <= i < j < |cs| ==> cs[i] != cs[j]
      requires IsMerge(m, Runs(cs))
      ensures Valid() && children == cs && merged == m && index == |m|
    {
      children, merged, index := cs, m, |m|;
      current, direction := null, Forward;
    }

    method SeekToFirst()
      requires Valid()
      modifies this, children
      ensures Valid() && index == 0
    {
      for i := 0 to |children|
        invariant forall j :: 0 <= j < i ==> FirstFrom(children[j].entries, children[j].pos, merged, 0)
      {
        RunsInMerge(children, merged, i);
        children[i].SeekToFirst();
        FirstFromStart(children[i].entries, merged);
      }
      FindSmallest(0);
      direction := Forward;
    }

    method SeekToLast()
      requires Valid()
      modifies this, children
      ensures Valid() && index == if merged == [] then 0 else |merged| - 1
    {
      for i := 0 to |children|
        invariant forall j :: 0 <= j < i ==> LastUpTo(children[j].entries, children[j].pos, merged, |merged| - 1)
      {
        RunsInMerge(children, merged, i);
        children[i].SeekToLast();
        LastUpToEnd(children[i].entries, merged);
      }
      FindLargest(|merged| - 1);
      direction := Reverse;
    }

    method Seek(target: IKey)
      requires Valid()
      modifies this, children
      ensures Valid() && index == SeekIndex(merged, target)
    {
      for i := 0 to |children|
        invariant forall j ::
                   0 <= j < i ==>
                   FirstFrom(children[j].entries, children[j].pos, merged, SeekIndex(merged, target))
      {
        RunsInMerge(children, merged, i);
        children[i].Seek(target);
        FirstFromSeek(children[i].entries, merged, target);
      }
      FindSmallest(SeekIndex(merged, target));
      direction := Forward;
    }

    /** Next: when the direction turns, every other child is first moved past the key. */
    method Next()
      requires Valid() && index < |merged|
      modifies this, children
      ensures Valid() && index == old(index) + 1
    {
      if direction != Forward {
        TurnForward();
        direction := Forward;
      }
      ghost var before := children;
      AdvanceCurrent();
      FindSmallest(index + 1);
    }

    method TurnForward()
      requires Valid() && index < |merged|
      modifies children
      ensures AtIndex() && AllFirstFrom(children, merged, index)
    {
      var key := current.entries[current.pos].key;
      ghost var c :| 0 <= c < |children| && children[c] == current;
      ghost var at := current.pos;
      for i := 0 to |children|
        invariant AtIndex() && current.pos == at
        invariant forall j :: 0 <= j < i && j != c ==> FirstFrom(children[j].entries, children[j].pos, merged, index)
      {
        if children[i] != current {
          RunsInMerge(children, merged, i);
          children[i].Seek(key);
          if children[i].Valid() && children[i].entries[children[i].pos].key == key {
            OneRunHolds(children, merged, i, children[i].pos, c, at);
            assert false;
          }
          FirstFromSelf(children[i].entries, merged, index);
        }
      }
      RunsInMerge(children, merged, c);
      assert FirstFrom(children[c].entries, at, merged, index);
    }

    method AdvanceCurrent()
      requires Shape() && AtIndex() && index < |merged| && AllFirstFrom(children, merged, index)
      modifies current
      ensures AllFirstFrom(children, merged, index + 1)
    {
      ghost var c :| 0 <= c < |children| && children[c] == current;
      ghost var at := current.pos;
      current.Next();
      forall i | 0 <= i < |children|
        ensures FirstFrom(children[i].entries, children[i].pos, merged, index + 1)
      {
        RunsInMerge(children, merged, i);
        if i == c {
          FirstFromNext(children[i].entries, at, merged, index);
        } else {
          FirstFromNext(children[i].entries, children[i].pos, merged, index);
          if children[i].Valid() && children[i].entries[children[i].pos].key == merged[index].key {
            OneRunHolds(children, merged, i, children[i].pos, c, at);
          }
        }
      }
    }

    /** FindSmallest: the first child with the least key. */
    method FindSmallest(ghost k: nat)
      requires Shape() && k <= |merged| && AllFirstFrom(children, merged, k)
      modifies this`current, this`index
      ensures AtIndex() && index == k
    {
      var smallest: Cursor? := null;
      for i := 0 to |children|
        invariant smallest == null ==> forall j :: 0 <= j < i ==> !children[j].Valid()
        invariant smallest != null ==> smallest in children && smallest.Valid()
        invariant smallest != null ==> forall j :: 0 <= j < i && children[j].Valid() ==>
                                                     !Less(children[j].entries[children[j].pos].key,
                                                           smallest.entries[smallest.pos].key)
      {
        var child := children[i];
        if child.Valid() {
          if smallest == null || Less(child.entries[child.pos].key, smallest.entries[smallest.pos].key) {
            smallest := child;
          }
        }
      }
      current, index := smallest, k;
      if k < |merged| {
        var i := SomeChildAt(children, merged, k);
        ghost var c :| 0 <= c < |children| && children[c] == smallest;
        assert FirstFrom(smallest.entries, smallest.pos, merged, k);
        OneRunHolds(children, merged, i, children[i].pos, c, smallest.pos);
      }
    }

    /** FindLargest: scanning from the last child, the first with the greatest key. */
    method FindLargest(ghost k: int)
      requires Shape() && -1 <= k < |merged| && AllLastUpTo(children, merged, k)
      modifies this`current, this`index
      ensures AtIndex() && index == if k == -1 then |merged| else k
    {
      var largest: Cursor? := null;
      for i := |children| downto 0
        invariant largest == null ==> forall j :: i <= j < |children| ==> !children[j].Valid()
        invariant largest != null ==> largest in children && largest.Valid()
        invariant largest != null ==> forall j :: i <= j < |children| && children[j].Valid() ==>
                                                    !Less(largest.entries[largest.pos].key,
                                                          children[j].entries[children[j].pos].key)
      {
        var child := children[i];
        if child.Valid() {
          if largest == null || Less(largest.entries[largest.pos].key, child.entries[child.pos].key) {
            largest := child;
          }
        }
      }
      current, index := largest, if k == -1 then |merged| else k;
      if k >= 0 {
        var i := SomeChildAt(children, merged, k);
        ghost var c :| 0 <= c < |children| && children[c] == largest;
        assert LastUpTo(largest.entries, largest.pos, merged, k);
        OneRunHolds(children, merged, i, children[i].pos, c, largest.pos);
      }
    }

    /** Prev: when the direction turns, every other child is first moved before the key. */
    method Prev()
      requires Valid() && index < |merged|
      modifies this, children
      ensures Valid() && index == if old(index) == 0 then |merged| else old(index) - 1
    {
      if direction != Reverse {
        TurnBack();
        direction := Reverse;
      }
      RetreatCurrent();
      FindLargest(index - 1);
    }

    method TurnBack()
      requires Valid() && index < |merged|
      modifies children
      ensures AtIndex() && AllLastUpTo(children, merged, index)
    {
      var key := current.entries[current.pos].key;
      ghost var c :| 0 <= c < |children| && children[c] == current;
      ghost var at := current.pos;
      for i := 0 to |children|
        invariant AtIndex() && current.pos == at
        invariant forall j :: 0 <= j < i && j != c ==> LastUpTo(children[j].entries, children[j].pos, merged, index)
      {
        if children[i] != current {
          RunsInMerge(children, merged, i);
          forall b | 0 <= b < |children[i].entries|
            ensures children[i].entries[b].key != key
          {
            if children[i].entries[b].key == key {
              OneRunHolds(children, merged, i, b, c, at);
            }
          }
          children[i].Seek(key);
          if children[i].Valid() {
            children[i].Prev();
          } else {
            children[i].SeekToLast();
          }
          LastUpToFromSeek(children[i].entries, merged, index);
        }
      }
      RunsInMerge(children, merged, c);
      assert LastUpTo(children[c].entries, at, merged, index);
    }

    method RetreatCurrent()
      requires Shape() && AtIndex() && index < |merged| && AllLastUpTo(children, merged, index)
      modifies current
      ensures AllLastUpTo(children, merged, index - 1)
    {
      ghost var c :| 0 <= c < |children| && children[c] == current;
      ghost var at := current.pos;
      current.Prev();
      forall i | 0 <= i < |children|
        ensures LastUpTo(children[i].entries, children[i].pos, merged, index - 1)
      {
        RunsInMerge(children, merged, i);
        if i == c {
          LastUpToPrev(children[i].entries, at, merged, index);
        } else {
          LastUpToPrev(children[i].entries, children[i].pos, merged, index);
          if children[i].Valid() && children[i].entries[children[i].pos].key == merged[index].key {
            OneRunHolds(children, merged, i, children[i].pos, c, at);
          }
        }
      }
    }
  }
}
