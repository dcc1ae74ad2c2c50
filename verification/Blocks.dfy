/** Reading blocks (table/block.cc). */
module Blocks {
  import opened Bytes
  import opened Coding
  import opened BlockFormat

  datatype Lengths = Lengths(shared: nat, nonShared: nat, valueLength: nat)

  function GetLengths(input: Bytes): Parsed<Lengths> {
    match GetVarint32(input)
    case Failed => Failed
    case Parsed(shared, r1) =>
      match GetVarint32(r1)
      case Failed => Failed
      case Parsed(nonShared, r2) =>
        match GetVarint32(r2)
        case Failed => Failed
        case Parsed(valueLength, r3) => Parsed(Lengths(shared, nonShared, valueLength), r3)
  }

  /** DecodeEntry, with its fast path for three one-byte lengths. */
  function DecodeEntry(input: Bytes): (r: Parsed<Lengths>)
    ensures r.Parsed? ==> |r.rest| >= (r.value.nonShared + r.value.valueLength) % Two32
  {
    if |input| < 3 then Failed
    else
      var lengths := if input[0] < 128 && input[1] < 128 && input[2] < 128
                     then Parsed(Lengths(input[0], input[1], input[2]), input[3..]) else GetLengths(input);
      match lengths
      case Failed => Failed
      case Parsed(l, rest) => if |rest| < (l.nonShared + l.valueLength) % Two32 then Failed else Parsed(l, rest)
  }

  lemma {:induction false} FastPathAgrees(a: nat, b: nat, c: nat, rest: Bytes)
    requires a < Two32 && b < Two32 && c < Two32
    ensures var input := Varint(a) + (Varint(b) + (Varint(c) + rest));
            && |input| >= 3 && GetLengths(input) == Parsed(Lengths(a, b, c), rest)
            && (input[0] < 128 && input[1] < 128 && input[2] < 128 ==>
                  input[0] == a && input[1] == b && input[2] == c && input[3..] == rest)
  {
    var r2 := Varint(c) + rest;
    var r1 := Varint(b) + r2;
    Varint32RoundTrip(a, r1);
    Varint32RoundTrip(b, r2);
    Varint32RoundTrip(c, rest);
  }

  ghost predicate FitsItem(item: Item) {
    |item.key| + |item.value| < Two32
  }

  lemma {:induction false} DecodesLengths(input: Bytes, a: nat, b: nat, c: nat, rest: Bytes)
    requires |input| >= 3 && GetLengths(input) == Parsed(Lengths(a, b, c), rest)
    requires input[0] < 128 && input[1] < 128 && input[2] < 128 ==>
               input[0] == a && input[1] == b && input[2] == c && input[3..] == rest
    requires b + c <= |rest| && b + c < Two32
    ensures DecodeEntry(input) == Parsed(Lengths(a, b, c), rest)
  {
  }

  lemma {:induction false} EntryIs(shared: nat, item: Item, rest: Bytes)
    requires shared <= |item.key|
    ensures EncodeEntry(shared, item) + rest
            == Varint(shared)
               + (Varint(|item.key| - shared) + (Varint(|item.value|) + (item.key[shared..] + item.value + rest)))
  {
    Nested(Varint(shared), Varint(|item.key| - shared), Varint(|item.value|), item.key[shared..] + item.value, rest);
  }

  lemma Nested(a: Bytes, b: Bytes, c: Bytes, d: Bytes, e: Bytes)
    ensures (a + (b + (c + d))) + e == a + (b + (c + (d + e)))
  {
  }

  lemma {:induction false} EntryDecodes(shared: nat, item: Item, rest: Bytes)
    requires shared <= |item.key| && FitsItem(item)
    ensures DecodeEntry(EncodeEntry(shared, item) + rest)
            == Parsed(Lengths(shared, |item.key| - shared, |item.value|), item.key[shared..] + item.value + rest)
  {
    var tail := item.key[shared..] + item.value + rest;
    EntryIs(shared, item, rest);
    FastPathAgrees(shared, |item.key| - shared, |item.value|, tail);
    DecodesLengths(EncodeEntry(shared, item) + rest, shared, |item.key| - shared, |item.value|, tail);
  }

  lemma {:induction false} OffsetsAt(items: seq<Item>, interval: nat, marks: seq<nat>, k: nat)
    requires interval >= 1 && k < |marks| && marks[k] <= |items|
    ensures Offsets(items, interval, marks)[k] == Offset(items, interval, marks[k])
    decreases |marks|
  {
    if k < |marks| - 1 {
      OffsetsAt(items, interval, marks[..|marks| - 1], k);
    }
  }

  lemma {:induction false} MarksWithin(interval: nat, n: nat)
    requires interval >= 1
    ensures forall k :: 0 <= k < |Marks(interval, n)| ==> Marks(interval, n)[k] <= n
  {
    var marks := Marks(interval, n);
    MarksAreGood(interval, n);
    forall k | 0 <= k < |marks|
      ensures marks[k] <= n
    {
      assert k > 0 ==> GoodMark(interval, n, marks[k]);
    }
  }

  lemma {:induction false} OffsetsSmall(items: seq<Item>, interval: nat, marks: seq<nat>)
    requires interval >= 1 && |Data(items, interval)| < Two32 && forall k :: 0 <= k < |marks| ==> marks[k] <= |items|
    ensures forall k :: 0 <= k < |marks| ==> Offsets(items, interval, marks)[k] < Two32
  {
    forall k | 0 <= k < |marks|
      ensures Offsets(items, interval, marks)[k] < Two32
    {
      OffsetsAt(items, interval, marks, k);
      OffsetsAscend(items, interval, marks[k], |items|);
    }
  }

  lemma Footer(d: Bytes, rs: Bytes, count: Bytes, k: nat)
    requires |count| == 4 && 4 * k + 4 <= |rs|
    ensures var b := d + rs + count;
            b[|d| + 4 * k..|d| + 4 * k + 4] == rs[4 * k..4 * k + 4] && b[|b| - 4..] == count
  {
  }

  lemma {:induction false} BlockLayout(items: seq<Item>, interval: nat, k: nat)
    requires interval >= 1 && k < |Marks(interval, |items|)|
    ensures var b, d, marks := Block(items, interval), Data(items, interval), Marks(interval, |items|);
            var offsets := Offsets(items, interval, marks);
            && |b| == |d| + 4 * |marks| + 4 && b[..|d|] == d
            && b[|d| + 4 * k..|d| + 4 * k + 4] == Fixed32s(offsets)[4 * k..4 * k + 4]
            && b[|b| - 4..] == EncodeFixed(4, |marks|)
  {
    var d, marks := Data(items, interval), Marks(interval, |items|);
    Footer(d, Fixed32s(Offsets(items, interval, marks)), EncodeFixed(4, |marks|), k);
  }

  /** The restart array of a block can be read back. */
  lemma {:induction false} ReadsRestart(items: seq<Item>, interval: nat, k: nat, m: nat)
    requires interval >= 1 && |Block(items, interval)| < Two32
    requires k < |Marks(interval, |items|)| && m == Marks(interval, |items|)[k] && m <= |items|
    ensures var b, d := Block(items, interval), Data(items, interval);
            |d| + 4 * k + 4 <= |b| && DecodeFixed(b[|d| + 4 * k..|d| + 4 * k + 4]) == Offset(items, interval, m)
  {
    var marks := Marks(interval, |items|);
    var offsets := Offsets(items, interval, marks);
    BlockLayout(items, interval, k);
    MarksWithin(interval, |items|);
    OffsetsSmall(items, interval, marks);
    Fixed32At(offsets, k);
    OffsetsAt(items, interval, marks, k);
    Fixed32RoundTrip(offsets[k]);
  }

  lemma {:induction false} ReadsNumRestarts(items: seq<Item>, interval: nat)
    requires interval >= 1 && |Block(items, interval)| < Two32
    ensures var b, d, n := Block(items, interval), Data(items, interval), |Marks(interval, |items|)|;
            |b| == |d| + 4 * n + 4 && DecodeFixed(b[|b| - 4..]) == n
  {
    BlockLayout(items, interval, 0);
    Fixed32RoundTrip(|Marks(interval, |items|)|);
  }

  predicate IsLess(rank: Rank, a: Bytes, b: Bytes) {
    rank(a) < rank(b)
  }

  ghost predicate Ascending(rank: Rank, items: seq<Item>) {
    forall i, j :: 0 <= i < j < |items| ==> IsLess(rank, items[i].key, items[j].key)
  }

  /** The first `n` items are before the target. */
  ghost predicate AllLess(rank: Rank, items: seq<Item>, n: nat, target: Bytes) {
    n <= |items| && forall i :: 0 <= i < n ==> IsLess(rank, items[i].key, target)
  }

  lemma LessBefore(rank: Rank, items: seq<Item>, n: nat, target: Bytes)
    requires Ascending(rank, items) && n <= |items|
    requires n > 0 ==> n < |items| && IsLess(rank, items[n].key, target)
    ensures AllLess(rank, items, n, target)
  {
    forall i | 0 <= i < n
      ensures IsLess(rank, items[i].key, target)
    {
      assert IsLess(rank, items[i].key, items[n].key);
    }
  }

  // What a reader needs to know of a block

  /** At `from` the block holds an entry that ends at `to`. */
  ghost predicate EntryAt(data: Bytes, restarts: nat, from: nat, to: nat, shared: nat, item: Item) {
    && from < to <= restarts <= |data| && shared <= |item.key| && FitsItem(item)
    && var r := DecodeEntry(data[from..restarts]);
       && r.Parsed? && r.value == Lengths(shared, |item.key| - shared, |item.value|)
       && restarts - |r.rest| + (|item.key| - shared) + |item.value| == to
       && from <= restarts - |r.rest|
       && data[restarts - |r.rest|..to - |item.value|] == item.key[shared..]
       && data[to - |item.value|..to] == item.value
  }

  /** A key that starts with the shared part of the next one. */
  ghost predicate Prepares(key: Bytes, shared: nat, item: Item) {
    shared <= |key| && shared <= |item.key| && key[..shared] == item.key[..shared]
  }

  /** Where the entries are, how much each shares, and which of them the restart array names. */
  datatype Layout = Layout(items: seq<Item>, offsets: seq<nat>, shareds: seq<nat>, marks: seq<nat>)

  ghost predicate Ascends(ns: seq<nat>) {
    forall j, k :: 0 <= j < k < |ns| ==> ns[j] < ns[k]
  }

  ghost predicate RestartAt(data: Bytes, restarts: nat, k: nat, offset: nat) {
    restarts + 4 * k + 4 <= |data| && DecodeFixed(data[restarts + 4 * k..restarts + 4 * k + 4]) == offset
  }

  ghost predicate IsLayout(data: Bytes, restarts: nat, l: Layout) {
    Measures(l, restarts) && HasEntries(data, restarts, l) && HasRestarts(data, restarts, l)
  }

  ghost predicate Measures(l: Layout, restarts: nat) {
    var n := |l.items|;
    && |l.offsets| == n + 1 && |l.shareds| == n && Ascends(l.offsets) && l.offsets[0] == 0 && l.offsets[n] == restarts
    && |l.marks| >= 1 && l.marks[0] == 0 && Ascends(l.marks)
    && (forall k :: 0 <= k < |l.marks| ==> l.marks[k] <= n && (l.marks[k] == n ==> k == n == 0))
  }

  ghost predicate HasEntries(data: Bytes, restarts: nat, l: Layout)
    requires Measures(l, restarts)
  {
    && (forall j {:trigger EntryAt(data, restarts, l.offsets[j], l.offsets[j + 1], l.shareds[j], l.items[j])} ::
        0 <= j < |l.items| ==>
          EntryAt(data, restarts, l.offsets[j], l.offsets[j + 1], l.shareds[j], l.items[j]))
    && (forall j {:trigger Prepares(l.items[j - 1].key, l.shareds[j], l.items[j])} :: 0 < j < |l.items| ==>
          Prepares(l.items[j - 1].key, l.shareds[j], l.items[j]))
  }

  ghost predicate HasRestarts(data: Bytes, restarts: nat, l: Layout)
    requires Measures(l, restarts)
  {
    forall k {:trigger RestartAt(data, restarts, k, l.offsets[l.marks[k]])} :: 0 <= k < |l.marks| ==>
      RestartAt(data, restarts, k, l.offsets[l.marks[k]]) && (l.marks[k] < |l.items| ==> l.shareds[l.marks[k]] == 0)
  }

  function LayoutOf(items: seq<Item>, interval: nat): Layout
    requires interval >= 1
  {
    Layout(items, seq(|items| + 1, i requires 0 <= i <= |items| => Offset(items, interval, i)),
           seq(|items|, i requires 0 <= i < |items| => Shared(items, interval, i)), Marks(interval, |items|))
  }

  lemma EntryIsAt(items: seq<Item>, interval: nat, i: nat)
    requires interval >= 1 && i < |items| && FitsItem(items[i])
    ensures EntryAt(Block(items, interval), |Data(items, interval)|, Offset(items, interval, i),
                    Offset(items, interval, i + 1),
                    Shared(items, interval, i), items[i])
  {
    var d, b, item, shared := Data(items, interval), Block(items, interval), items[i], Shared(items, interval, i);
    var from, to := Offset(items, interval, i), Offset(items, interval, i + 1);
    DataAt(items, interval, i);
    OffsetsAscend(items, interval, i, i + 1);
    BlockLayout(items, interval, 0);
    DecodesWithin(b, d, from, to, shared, item);
  }

  lemma PartsAt(d: Bytes, from: nat, to: nat, head: Bytes, delta: Bytes, value: Bytes)
    requires HoldsAt(d, from, head + (delta + value), to)
    ensures from + |head| + |delta| + |value| == to <= |d|
    ensures d[from + |head|..to - |value|] == delta && d[to - |value|..to] == value
  {
    assert d == d[..from] + (head + (delta + value) + d[to..]);
  }

  lemma EntryHasParts(shared: nat, item: Item)
    requires shared <= |item.key|
    ensures EncodeEntry(shared, item)
            == Varint(shared) + (Varint(|item.key| - shared) + Varint(|item.value|)) + (item.key[shared..] + item.value)
  {
    Regroup(Varint(shared), Varint(|item.key| - shared), Varint(|item.value|), item.key[shared..] + item.value);
  }

  lemma Regroup(a: Bytes, b: Bytes, c: Bytes, d: Bytes)
    ensures a + (b + (c + d)) == a + (b + c) + d
  {
  }

  lemma {:induction false} DecodesWithin(b: Bytes, d: Bytes, from: nat, to: nat, shared: nat, item: Item)
    requires |d| <= |b| && b[..|d|] == d && from < to && shared <= |item.key| && FitsItem(item)
    requires HoldsAt(d, from, EncodeEntry(shared, item), to)
    ensures EntryAt(b, |d|, from, to, shared, item)
  {
    var head := Varint(shared) + (Varint(|item.key| - shared) + Varint(|item.value|));
    EntryHasParts(shared, item);
    PartsAt(d, from, to, head, item.key[shared..], item.value);
    EntryDecodes(shared, item, d[to..]);
    SameSlices(b, d, from, to, to - |item.value|, from + |head|);
  }

  lemma SameSlices(b: Bytes, d: Bytes, from: nat, to: nat, x: nat, y: nat)
    requires |d| <= |b| && b[..|d|] == d && from <= y <= x <= to <= |d|
    ensures b[from..|d|] == d[from..] && b[y..x] == d[y..x] && b[x..to] == d[x..to]
  {
    SliceOfPrefix(b, |d|, from, |d|);
    SliceOfPrefix(b, |d|, y, x);
    SliceOfPrefix(b, |d|, x, to);
  }

  lemma EntriesAreAt(items: seq<Item>, interval: nat, j: nat)
    requires interval >= 1 && j < |items| && FitsItem(items[j])
    ensures var l := LayoutOf(items, interval);
            && EntryAt(Block(items, interval), |Data(items, interval)|, l.offsets[j], l.offsets[j + 1], l.shareds[j],
                       items[j])
            && (j > 0 ==> Prepares(items[j - 1].key, l.shareds[j], items[j]))
  {
    EntryIsAt(items, interval, j);
  }

  lemma {:induction false} RestartsAreAt(items: seq<Item>, interval: nat, k: nat)
    requires interval >= 1 && |Block(items, interval)| < Two32 && k < |Marks(interval, |items|)|
    ensures var l, n := LayoutOf(items, interval), |items|;
            && l.marks[k] <= n && (l.marks[k] == n ==> k == n == 0)
            && RestartAt(Block(items, interval), |Data(items, interval)|, k, l.offsets[l.marks[k]])
            && (l.marks[k] < n ==> l.shareds[l.marks[k]] == 0)
  {
    var n, m := |items|, Marks(interval, |items|)[k];
    MarksAreGood(interval, n);
    MarksWithin(interval, n);
    ReadsRestart(items, interval, k, m);
    assert k > 0 ==> GoodMark(interval, n, m);
  }

  lemma OffsetsAreAscending(items: seq<Item>, interval: nat)
    requires interval >= 1
    ensures var l, n := LayoutOf(items, interval), |items|;
            Ascends(l.offsets) && l.offsets[0] == 0 && l.offsets[n] == |Data(items, interval)|
  {
    var l, n := LayoutOf(items, interval), |items|;
    OffsetsAscend(items, interval, 0, n);
    assert Entries(items, interval)[..0] == [];
    forall i, j | 0 <= i < j <= n
      ensures l.offsets[i] < l.offsets[j]
    {
      OffsetsAscend(items, interval, i, j);
    }
  }

  /** A block that a builder wrote has what the reader needs. */
  lemma {:induction false} BlockMeasures(items: seq<Item>, interval: nat)
    requires interval >= 1
    ensures Measures(LayoutOf(items, interval), |Data(items, interval)|)
  {
    var n, marks := |items|, Marks(interval, |items|);
    MarksAreGood(interval, n);
    OffsetsAreAscending(items, interval);
    forall k | 0 <= k < |marks|
      ensures marks[k] <= n && (marks[k] == n ==> k == n == 0)
    {
      assert k > 0 ==> GoodMark(interval, n, marks[k]);
    }
  }

  lemma {:induction false} BlockHasEntries(items: seq<Item>, interval: nat)
    requires interval >= 1 && forall i :: 0 <= i < |items| ==> FitsItem(items[i])
    requires Measures(LayoutOf(items, interval), |Data(items, interval)|)
    ensures HasEntries(Block(items, interval), |Data(items, interval)|, LayoutOf(items, interval))
  {
    var l := LayoutOf(items, interval);
    forall j | 0 <= j < |items|
      ensures EntryAt(Block(items, interval), |Data(items, interval)|, l.offsets[j], l.offsets[j + 1], l.shareds[j],
                      l.items[j])
      ensures j > 0 ==> Prepares(l.items[j - 1].key, l.shareds[j], l.items[j])
    {
      EntriesAreAt(items, interval, j);
    }
  }

  lemma {:induction false} BlockHasRestarts(items: seq<Item>, interval: nat)
    requires interval >= 1 && |Block(items, interval)| < Two32
    requires Measures(LayoutOf(items, interval), |Data(items, interval)|)
    ensures HasRestarts(Block(items, interval), |Data(items, interval)|, LayoutOf(items, interval))
  {
    var l := LayoutOf(items, interval);
    forall k | 0 <= k < |l.marks|
      ensures RestartAt(Block(items, interval), |Data(items, interval)|, k, l.offsets[l.marks[k]])
              && (l.marks[k] < |items| ==> l.shareds[l.marks[k]] == 0)
    {
      RestartsAreAt(items, interval, k);
    }
  }

  lemma {:induction false} BlockHasLayout(items: seq<Item>, interval: nat)
    requires interval >= 1 && |Block(items, interval)| < Two32 && forall i :: 0 <= i < |items| ==> FitsItem(items[i])
    ensures IsLayout(Block(items, interval), |Data(items, interval)|, LayoutOf(items, interval))
  {
    BlockMeasures(items, interval);
    BlockHasEntries(items, interval);
    BlockHasRestarts(items, interval);
  }

  class BlockIter {
    const rank: Rank
    const data: Bytes
    const restarts: nat
    const numRestarts: nat
    ghost const layout: Layout
    var current: nat
    var restartIndex: nat
    var key: Bytes
    var valueStart: nat
    var valueLength: nat
    /** Which entry the cursor is at; the number of entries means none. */
    ghost var at: nat

    ghost predicate Opened() {
      IsLayout(data, restarts, layout) && numRestarts == |layout.marks|
    }

    ghost predicate Valid()
      reads this
    {
      && Opened() && at <= |layout.items|
      && if at == |layout.items| then current == restarts && restartIndex == numRestarts
         else OnEntry()
    }

    ghost predicate OnEntry()
      requires Opened() && at < |layout.items|
      reads this
    {
      && current == layout.offsets[at] && key == layout.items[at].key
      && valueStart + valueLength == layout.offsets[at + 1] <= |data|
      && data[valueStart..valueStart + valueLength] == layout.items[at].value
      && restartIndex < numRestarts && layout.marks[restartIndex] <= at
      && (restartIndex + 1 < numRestarts ==> at <= layout.marks[restartIndex + 1])
    }

    /** The next parse will read entry `j`. */
    ghost predicate Ahead(j: nat)
      reads this
    {
      && Opened() && j <= |layout.items| && valueStart + valueLength == layout.offsets[j]
      && (j < |layout.items| ==> Prepares(key, layout.shareds[j], layout.items[j]))
      && restartIndex < numRestarts && layout.marks[restartIndex] <= j
    }

    /** Block::Block and NewIterator, on what BlockBuilder::Finish returned. */
    constructor (rank: Rank, contents: Bytes, ghost items: seq<Item>, ghost interval: nat)
      requires interval >= 1 && contents == Block(items, interval) && |contents| < Two32
      requires forall i :: 0 <= i < |items| ==> FitsItem(items[i])
      ensures Valid() && this.rank == rank && layout.items == items && at == |items|
    {
      ReadsNumRestarts(items, interval);
      BlockHasLayout(items, interval);
      this.rank, data := rank, contents;
      var count := DecodeFixed(contents[|contents| - 4..]);
      var offset := |contents| - (1 + count) * 4;
      numRestarts, restarts := count, offset;
      current, restartIndex := offset, count;
      key, valueStart, valueLength := [], 0, 0;
      layout := LayoutOf(items, interval);
      at := |items|;
    }

    method GetRestartPoint(index: nat) returns (offset: nat)
      requires Opened() && index < numRestarts
      ensures offset == layout.offsets[layout.marks[index]]
    {
      assert RestartAt(data, restarts, index, layout.offsets[layout.marks[index]]);
      offset := DecodeFixed(data[restarts + 4 * index..restarts + 4 * index + 4]);
    }

    method SeekToRestartPoint(index: nat)
      requires Opened() && index < numRestarts
      modifies `key, `restartIndex, `valueStart, `valueLength
      ensures Ahead(layout.marks[index]) && restartIndex == index
    {
      key := [];
      restartIndex := index;
      var offset := GetRestartPoint(index);
      assert RestartAt(data, restarts, index, layout.offsets[layout.marks[index]]);
      valueStart, valueLength := offset, 0;
    }

    method ParseNextKey(ghost j: nat) returns (ok: bool)
      requires Ahead(j)
      modifies `current, `restartIndex, `key, `valueStart, `valueLength, `at
      ensures Valid() && at == j && ok == (j < |layout.items|)
    {
      at := j;
      current := valueStart + valueLength;
      assert j < |layout.items| ==> layout.offsets[j] < layout.offsets[|layout.items|];
      if current >= restarts {
        current, restartIndex := restarts, numRestarts;
        return false;
      }
      var p, l := ReadLengths(j);
      TakeEntry(p, l, j);
      AdvanceRestart();
      ok := true;
    }

    /** Where the new part of entry `j`'s key starts, and the lengths before it. */
    method ReadLengths(ghost j: nat) returns (p: nat, l: Lengths)
      requires Opened() && j < |layout.items| && current == layout.offsets[j]
               && Prepares(key, layout.shareds[j], layout.items[j])
      ensures var item := layout.items[j];
              && l == Lengths(layout.shareds[j], |item.key| - layout.shareds[j], |item.value|)
              && p + l.nonShared + l.valueLength == layout.offsets[j + 1] <= |data|
              && data[p..p + l.nonShared] == item.key[l.shared..]
              && data[p + l.nonShared..p + l.nonShared + l.valueLength] == item.value
    {
      assert EntryAt(data, restarts, layout.offsets[j], layout.offsets[j + 1], layout.shareds[j], layout.items[j]);
      var r := DecodeEntry(data[current..restarts]);
      if r.Failed? || |key| < r.value.shared {
        // CorruptionError: not on a block that a builder wrote.
        assert false;
      }
      p, l := restarts - |r.rest|, r.value;
    }

    /** The shared part of the key stays, the rest is replaced. */
    method TakeEntry(p: nat, l: Lengths, ghost j: nat)
      requires Opened() && j < |layout.items| && Prepares(key, layout.shareds[j], layout.items[j])
      requires var item := layout.items[j];
               && l == Lengths(layout.shareds[j], |item.key| - layout.shareds[j], |item.value|)
               && p + l.nonShared + l.valueLength == layout.offsets[j + 1] <= |data|
               && data[p..p + l.nonShared] == item.key[l.shared..]
               && data[p + l.nonShared..p + l.nonShared + l.valueLength] == item.value
      modifies `key, `valueStart, `valueLength
      ensures key == layout.items[j].key && valueStart + valueLength == layout.offsets[j + 1]
      ensures data[valueStart..valueStart + valueLength] == layout.items[j].value
    {
      ghost var item := layout.items[j];
      assert item.key[..l.shared] + item.key[l.shared..] == item.key;
      key := key[..l.shared] + data[p..p + l.nonShared];
      valueStart, valueLength := p + l.nonShared, l.valueLength;
    }

    /** The restart index follows, up to the last restart point before the entry. */
    method AdvanceRestart()
      requires Opened() && at < |layout.items| && current == layout.offsets[at]
      requires restartIndex < numRestarts && layout.marks[restartIndex] <= at
      modifies `restartIndex
      ensures restartIndex < numRestarts && layout.marks[restartIndex] <= at
      ensures restartIndex + 1 < numRestarts ==> at <= layout.marks[restartIndex + 1]
    {
      while restartIndex + 1 < numRestarts
        invariant restartIndex < numRestarts && layout.marks[restartIndex] <= at
        decreases numRestarts - restartIndex
      {
        var point := GetRestartPoint(restartIndex + 1);
        if point >= current { break; }
        OffsetsOrder(layout.marks[restartIndex + 1], at);
        restartIndex := restartIndex + 1;
      }
      if restartIndex + 1 < numRestarts {
        OffsetsOrder(at, layout.marks[restartIndex + 1]);
      }
    }

    lemma OffsetsOrder(i: nat, j: nat)
      requires Opened() && i <= |layout.items| && j <= |layout.items|
      ensures layout.offsets[i] < layout.offsets[j] <==> i < j
    {
    }

    lemma NextIsPrepared(i: nat)
      requires Opened() && i + 1 < |layout.items|
      ensures Prepares(layout.items[i].key, layout.shareds[i + 1], layout.items[i + 1])
    {
      var j := i + 1;
      assert Prepares(layout.items[j - 1].key, layout.shareds[j], layout.items[j]);
    }

    /** ParseNextKey behind an entry: the key that is there is the one to build on. */
    method ParseAfter() returns (ok: bool)
      requires Valid() && at < |layout.items|
      modifies `current, `restartIndex, `key, `valueStart, `valueLength, `at
      ensures Valid() && at == old(at) + 1 && ok == (at < |layout.items|)
    {
      if at + 1 < |layout.items| {
        NextIsPrepared(at);
      }
      ok := ParseNextKey(at + 1);
    }

    method Next()
      requires Valid() && at < |layout.items|
      modifies `current, `restartIndex, `key, `valueStart, `valueLength, `at
      ensures Valid() && at == old(at) + 1
    {
      var ok := ParseAfter();
    }

    /** Steps back to a restart point before the entry, and then forward again. */
    method Prev()
      requires Valid() && at < |layout.items|
      modifies `current, `restartIndex, `key, `valueStart, `valueLength, `at
      ensures Valid() && at == if old(at) == 0 then |layout.items| else old(at) - 1
    {
      var original := current;
      ghost var i := at;
      var point := GetRestartPoint(restartIndex);
      while point >= original
        invariant restartIndex < numRestarts && point == layout.offsets[layout.marks[restartIndex]]
        decreases restartIndex
      {
        if restartIndex == 0 {
          OffsetsOrder(0, i);
          current, restartIndex, at := restarts, numRestarts, |layout.items|;
          return;
        }
        restartIndex := restartIndex - 1;
        point := GetRestartPoint(restartIndex);
      }
      ghost var j := layout.marks[restartIndex];
      OffsetsOrder(j, i);
      SeekToRestartPoint(restartIndex);
      var ok := ParseNextKey(j);
      while ok && valueStart + valueLength < original
        invariant Valid() && at < i && ok
        decreases i - at
      {
        OffsetsOrder(at + 1, i);
        ok := ParseAfter();
      }
      OffsetsOrder(at + 1, i);
    }

    method SeekToFirst()
      requires Valid()
      modifies `current, `restartIndex, `key, `valueStart, `valueLength, `at
      ensures Valid() && at == 0
    {
      SeekToRestartPoint(0);
      var ok := ParseNextKey(0);
    }

    method SeekToLast()
      requires Valid()
      modifies `current, `restartIndex, `key, `valueStart, `valueLength, `at
      ensures Valid() && at == if layout.items == [] then 0 else |layout.items| - 1
    {
      SeekToRestartPoint(numRestarts - 1);
      var ok := ParseNextKey(layout.marks[numRestarts - 1]);
      while ok && valueStart + valueLength < restarts
        invariant Valid() && ok == (at < |layout.items|) && (layout.items != [] ==> ok)
        decreases |layout.items| - at
      {
        OffsetsOrder(at + 1, |layout.items|);
        ok := ParseAfter();
      }
      if ok {
        OffsetsOrder(at + 1, |layout.items|);
      }
    }

    /** The key at a restart point, which is stored whole. */
    method RestartKey(index: nat) returns (k: Bytes)
      requires Opened() && index < numRestarts && layout.marks[index] < |layout.items|
      ensures k == layout.items[layout.marks[index]].key
    {
      var offset := GetRestartPoint(index);
      ghost var m := layout.marks[index];
      assert RestartAt(data, restarts, index, layout.offsets[m]);
      assert EntryAt(data, restarts, layout.offsets[m], layout.offsets[m + 1], layout.shareds[m], layout.items[m]);
      var r := DecodeEntry(data[offset..restarts]);
      var p := restarts - |r.rest|;
      k := data[p..p + r.value.nonShared];
    }

    /** The restart point is an entry before the target. */
    ghost predicate StartsLess(index: nat, target: Bytes)
      requires Opened() && index < numRestarts
      reads this
    {
      layout.marks[index] < |layout.items| && IsLess(rank, layout.items[layout.marks[index]].key, target)
    }

    /** The last restart point whose key is before the target, or the first one. */
    method RestartBefore(target: Bytes) returns (left: nat)
      requires Opened()
      ensures left < numRestarts && (left > 0 ==> StartsLess(left, target))
      ensures left + 1 < numRestarts ==> !StartsLess(left + 1, target)
    {
      var right := numRestarts - 1;
      left := 0;
      while left < right
        invariant 0 <= left <= right < numRestarts
        invariant left > 0 ==> StartsLess(left, target)
        invariant right + 1 < numRestarts ==> !StartsLess(right + 1, target)
        decreases right - left
      {
        var mid := (left + right + 1) / 2;
        var midKey := RestartKey(mid);
        if IsLess(rank, midKey, target) {
          left := mid;
        } else {
          right := mid - 1;
        }
      }
    }

    /** The binary search over the restart points and the linear search behind the last one
        below the target land on the first key at or after it. */
    method Seek(target: Bytes)
      requires Valid() && Ascending(rank, layout.items)
      modifies `current, `restartIndex, `key, `valueStart, `valueLength, `at
      ensures Valid() && AllLess(rank, layout.items, at, target)
      ensures at < |layout.items| ==> !IsLess(rank, layout.items[at].key, target)
    {
      var left := RestartBefore(target);
      SeekToRestartPoint(left);
      ghost var j := layout.marks[left];
      LessBefore(rank, layout.items, j, target);
      var ok := ParseNextKey(j);
      while ok && IsLess(rank, key, target)
        invariant Valid() && ok == (at < |layout.items|)
        invariant AllLess(rank, layout.items, at, target)
        decreases |layout.items| - at
      {
        ok := ParseAfter();
      }
    }
  }
}
