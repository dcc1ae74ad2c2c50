/** Blocks of prefix-compressed entries (table/block_builder.cc). */
module BlockFormat {
  import opened Bytes
  import opened Coding

  datatype Item = Item(key: Bytes, value: Bytes)

  /** How many entries have followed the last restart point when the block has `n`. */
  function Counter(interval: nat, n: nat): (c: nat)
    requires interval >= 1
    ensures c <= interval
  {
    if n == 0 then 0
    else if Counter(interval, n - 1) < interval then Counter(interval, n - 1) + 1 else 1
  }

  /** Entry `i` is stored whole because the interval is used up. */
  predicate IsRestart(interval: nat, i: nat)
    requires interval >= 1
  {
    Counter(interval, i) == interval
  }

  /** An entry at a restart point shares nothing; any other shares what it can. */
  function Shared(items: seq<Item>, interval: nat, i: nat): (n: nat)
    requires interval >= 1 && i < |items|
    ensures n <= |items[i].key|
    ensures n > 0 ==> i > 0 && n <= |items[i - 1].key| && items[i - 1].key[..n] == items[i].key[..n]
  {
    if i == 0 || IsRestart(interval, i) then 0 else CommonPrefix(items[i - 1].key, items[i].key)
  }

  /** The entries at the restart points, among the first `n`. */
  function Marks(interval: nat, n: nat): (ms: seq<nat>)
    requires interval >= 1
    ensures |ms| >= 1 && ms[0] == 0
  {
    if n == 0 then [0]
    else Marks(interval, n - 1) + if IsRestart(interval, n - 1) then [n - 1] else []
  }

  ghost predicate GoodMarks(interval: nat, n: nat, ms: seq<nat>)
    requires interval >= 1
  {
    && |ms| >= 1 && ms[0] == 0
    && (forall j, k :: 0 <= j < k < |ms| ==> ms[j] < ms[k])
    && (forall k :: 0 < k < |ms| ==> GoodMark(interval, n, ms[k]))
  }

  ghost predicate GoodMark(interval: nat, n: nat, m: nat)
    requires interval >= 1
  {
    m < n && IsRestart(interval, m)
  }

  lemma {:induction false} MarksAreGood(interval: nat, n: nat)
    requires interval >= 1
    ensures GoodMarks(interval, n, Marks(interval, n))
    decreases n
  {
    if n > 0 {
      var before := Marks(interval, n - 1);
      MarksAreGood(interval, n - 1);
      assert forall k :: 0 < k < |before| ==> GoodMark(interval, n - 1, before[k]) ==> GoodMark(interval, n, before[k]);
      assert n == 1 ==> !IsRestart(interval, 0);
      assert Marks(interval, n) == if IsRestart(interval, n - 1) then before + [n - 1] else before;
    }
  }

  lemma {:induction false} CounterIs(interval: nat, n: nat)
    requires interval >= 1
    ensures Counter(interval, n) == if n == 0 then 0 else (n - 1) % interval + 1
    decreases n
  {
    if n > 0 {
      CounterIs(interval, n - 1);
      NextRemainder(interval, n - 1);
    }
  }

  lemma NextRemainder(d: nat, n: nat)
    requires d >= 1
    ensures n > 0 ==> n % d == if (n - 1) % d + 1 == d then 0 else (n - 1) % d + 1
    ensures n == 0 ==> n % d == 0
  {
    if n > 0 {
      var q, r := (n - 1) / d, (n - 1) % d;
      if r + 1 == d {
        assert n == d * (q + 1);
        DivisionIs(n, d, q + 1, 0);
      } else {
        DivisionIs(n, d, q, r + 1);
      }
    }
  }

  /** The restart points are the multiples of the interval. */
  lemma RestartsAreMultiples(interval: nat, i: nat)
    requires interval >= 1
    ensures i == 0 || IsRestart(interval, i) <==> i % interval == 0
  {
    CounterIs(interval, i);
    NextRemainder(interval, i);
  }

  /** And each of them is recorded. */
  lemma {:induction false} MarksAreMultiples(interval: nat, n: nat, m: nat)
    requires interval >= 1
    ensures m in Marks(interval, n) <==> m == 0 || (m < n && m % interval == 0)
    decreases n
  {
    if n > 0 {
      MarksAreMultiples(interval, n - 1, m);
      RestartsAreMultiples(interval, n - 1);
      assert n == 1 ==> !IsRestart(interval, 0);
    }
  }

  predicate StartsAlike(a: Bytes, b: Bytes, l: nat) {
    l <= |a| && l <= |b| && a[..l] == b[..l]
  }

  /** An entry at a restart point shares nothing with the one before, and any other shares as
      much of its key as is the same. */
  lemma SharesWhatItCan(items: seq<Item>, interval: nat, i: nat, l: nat)
    requires interval >= 1 && i < |items|
    ensures i % interval == 0 ==> Shared(items, interval, i) == 0
    ensures i % interval != 0 ==>
              (l <= Shared(items, interval, i) <==> StartsAlike(items[i - 1].key, items[i].key, l))
  {
    RestartsAreMultiples(interval, i);
    if i % interval != 0 {
      CommonPrefixIsLongest(items[i - 1].key, items[i].key, l);
    }
  }

  lemma {:induction false} CommonPrefixIsLongest(a: Bytes, b: Bytes, l: nat)
    ensures l <= CommonPrefix(a, b) <==> StartsAlike(a, b, l)
  {
    var n := CommonPrefix(a, b);
    if l <= n {
      assert a[..l] == a[..n][..l] && b[..l] == b[..n][..l];
    } else if l <= |a| && l <= |b| {
      assert a[..l][n] == a[n] && b[..l][n] == b[n];
    }
  }

  function EncodeEntry(shared: nat, item: Item): Bytes
    requires shared <= |item.key|
  {
    Varint(shared) + (Varint(|item.key| - shared) + (Varint(|item.value|) + (item.key[shared..] + item.value)))
  }

  function Entry(items: seq<Item>, interval: nat, i: nat): Bytes
    requires interval >= 1 && i < |items|
  {
    EncodeEntry(Shared(items, interval, i), items[i])
  }

  function Entries(items: seq<Item>, interval: nat): (r: seq<Bytes>)
    requires interval >= 1
    ensures |r| == |items| && forall i :: 0 <= i < |items| ==> r[i] == Entry(items, interval, i)
  {
    seq(|items|, i requires 0 <= i < |items| => Entry(items, interval, i))
  }

  /** The entries of a block, without its restart array. */
  function Data(items: seq<Item>, interval: nat): Bytes
    requires interval >= 1
  {
    Concat(Entries(items, interval))
  }

  /** Where piece `i` of a concatenation begins. */
  function Start(es: seq<Bytes>, i: nat): nat
    requires i <= |es|
  {
    |Concat(es[..i])|
  }

  /** Where entry `i` begins. */
  function Offset(items: seq<Item>, interval: nat, i: nat): nat
    requires interval >= 1 && i <= |items|
  {
    Start(Entries(items, interval), i)
  }

  /** The offsets of the given entries. */
  function Offsets(items: seq<Item>, interval: nat, marks: seq<nat>): (r: seq<nat>)
    requires interval >= 1
    ensures |r| == |marks|
  {
    if marks == [] then []
    else
      var m := marks[|marks| - 1];
      Offsets(items, interval, marks[..|marks| - 1]) + [if m <= |items| then Offset(items, interval, m) else 0]
  }

  /** A finished block: entries, restart array, number of restarts. */
  function Block(items: seq<Item>, interval: nat): Bytes
    requires interval >= 1
  {
    var marks := Marks(interval, |items|);
    Data(items, interval) + Fixed32s(Offsets(items, interval, marks)) + EncodeFixed(4, |marks|)
  }

  lemma ConcatLast(es: seq<Bytes>, i: nat)
    requires i < |es|
    ensures Concat(es[..i + 1]) == Concat(es[..i]) + es[i]
  {
    assert es[..i + 1][..i] == es[..i];
  }

  /** From `from` on, `d` holds `mid` and then what it holds from `to` on. */
  ghost predicate HoldsAt(d: Bytes, from: nat, mid: Bytes, to: nat) {
    from + |mid| == to <= |d| && d[from..] == mid + d[to..]
  }

  lemma HoldsLast(d: Bytes, e: Bytes)
    ensures HoldsAt(d + e, |d|, e, |d + e|)
  {
  }

  lemma DropOfConcat<T>(d: seq<T>, e: seq<T>, from: nat)
    requires from <= |d|
    ensures (d + e)[from..] == d[from..] + e
  {
  }

  lemma Regrouped<T>(a: seq<T>, b: seq<T>, c: seq<T>)
    ensures (a + b) + c == a + (b + c)
  {
  }

  lemma HoldsGrows(d: Bytes, e: Bytes, from: nat, mid: Bytes, to: nat)
    requires HoldsAt(d, from, mid, to)
    ensures HoldsAt(d + e, from, mid, to)
  {
    DropOfConcat(d, e, from);
    DropOfConcat(d, e, to);
    Regrouped(mid, d[to..], e);
  }

  /** Where piece `i` begins the concatenation holds that piece, and then the others. */
  lemma {:induction false} ConcatAt(es: seq<Bytes>, i: nat, n: nat)
    requires i < n <= |es|
    ensures HoldsAt(Concat(es[..n]), Start(es, i), es[i], Start(es, i + 1))
    decreases n
  {
    if n == i + 1 {
      ConcatLast(es, i);
      HoldsLast(Concat(es[..i]), es[i]);
    } else {
      ConcatAt(es, i, n - 1);
      ConcatLast(es, n - 1);
      HoldsGrows(Concat(es[..n - 1]), es[n - 1], Start(es, i), es[i], Start(es, i + 1));
    }
  }

  lemma {:induction false} StartsAscend(es: seq<Bytes>, i: nat, j: nat)
    requires i <= j <= |es| && forall k :: 0 <= k < |es| ==> es[k] != []
    ensures Start(es, i) <= Start(es, j) && (i < j ==> Start(es, i) < Start(es, j))
    decreases j - i
  {
    if i < j {
      ConcatLast(es, j - 1);
      StartsAscend(es, i, j - 1);
    }
  }

  /** Behind entry `i`'s offset the block holds that entry, and then the next offset's part. */
  lemma DataAt(items: seq<Item>, interval: nat, i: nat)
    requires interval >= 1 && i < |items|
    ensures HoldsAt(Data(items, interval), Offset(items, interval, i), Entry(items, interval, i),
                    Offset(items, interval, i + 1))
  {
    var es := Entries(items, interval);
    assert es[..|items|] == es;
    ConcatAt(es, i, |items|);
  }

  lemma OffsetsAscend(items: seq<Item>, interval: nat, i: nat, j: nat)
    requires interval >= 1 && i <= j <= |items|
    ensures Offset(items, interval, i) <= Offset(items, interval, j)
    ensures i < j ==> Offset(items, interval, i) < Offset(items, interval, j)
    ensures Offset(items, interval, |items|) == |Data(items, interval)|
  {
    var es := Entries(items, interval);
    assert es[..|items|] == es;
    StartsAscend(es, i, j);
  }

  lemma EntriesGrow(items: seq<Item>, interval: nat, item: Item)
    requires interval >= 1
    ensures Entries(items + [item], interval) == Entries(items, interval) + [Entry(items + [item], interval, |items|)]
  {
    forall i | 0 <= i < |items|
      ensures Entry(items + [item], interval, i) == Entry(items, interval, i)
    {
    }
  }

  lemma DataGrows(items: seq<Item>, interval: nat, item: Item)
    requires interval >= 1
    ensures Data(items + [item], interval) == Data(items, interval) + Entry(items + [item], interval, |items|)
    ensures forall i :: 0 <= i <= |items| ==> Offset(items + [item], interval, i) == Offset(items, interval, i)
    ensures Offset(items + [item], interval, |items|) == |Data(items, interval)|
  {
    var es, es' := Entries(items, interval), Entries(items + [item], interval);
    EntriesGrow(items, interval, item);
    assert es'[..|es|] == es && es[..|es|] == es;
    forall i | 0 <= i <= |items|
      ensures Offset(items + [item], interval, i) == Offset(items, interval, i)
    {
      assert es'[..i] == es[..i];
    }
  }

  lemma {:induction false} OffsetsStay(items: seq<Item>, interval: nat, item: Item, marks: seq<nat>)
    requires interval >= 1 && forall k :: 0 <= k < |marks| ==> marks[k] <= |items|
    ensures Offsets(items + [item], interval, marks) == Offsets(items, interval, marks)
    decreases |marks|
  {
    if marks != [] {
      OffsetsStay(items, interval, item, marks[..|marks| - 1]);
      assert marks[|marks| - 1] <= |items|;
      DataGrows(items, interval, item);
    }
  }

  /** The restart array after one more entry. */
  lemma {:induction false} RestartsGrow(items: seq<Item>, interval: nat, item: Item)
    requires interval >= 1
    ensures var n, now := |items|, Offsets(items, interval, Marks(interval, |items|));
            Offsets(items + [item], interval, Marks(interval, n + 1))
            == if IsRestart(interval, n) then now + [|Data(items, interval)|] else now
  {
    var n := |items|;
    var marks := Marks(interval, n);
    MarksAreGood(interval, n);
    forall k | 0 <= k < |marks|
      ensures marks[k] <= n
    {
      assert k > 0 ==> GoodMark(interval, n, marks[k]);
    }
    OffsetsStay(items, interval, item, marks);
    DataGrows(items, interval, item);
    assert Marks(interval, n + 1) == if IsRestart(interval, n) then marks + [n] else marks;
    assert (marks + [n])[..|marks|] == marks;
  }

  /** What a builder holds once it has been given the items. */
  ghost predicate Built(interval: nat, items: seq<Item>, buffer: Bytes, restarts: seq<nat>, counter: nat,
                        lastKey: Bytes)
    requires interval >= 1
  {
    && buffer == Data(items, interval)
    && restarts == Offsets(items, interval, Marks(interval, |items|))
    && counter == Counter(interval, |items|)
    && lastKey == (if items == [] then [] else items[|items| - 1].key)
  }

  lemma {:induction false} BuiltGrows(interval: nat, items: seq<Item>, buffer: Bytes, restarts: seq<nat>, counter: nat,
                                      lastKey: Bytes, item: Item)
    requires interval >= 1 && Built(interval, items, buffer, restarts, counter, lastKey)
    ensures var shared := if counter < interval then CommonPrefix(lastKey, item.key) else 0;
            Built(interval, items + [item], buffer + EncodeEntry(shared, item),
                  if counter < interval then restarts else restarts + [|buffer|],
                  if counter < interval then counter + 1 else 1, item.key)
  {
    DataGrows(items, interval, item);
    RestartsGrow(items, interval, item);
  }

  class BlockBuilder {
    const interval: nat
    var buffer: Bytes
    var restarts: seq<nat>
    var counter: nat
    var lastKey: Bytes
    ghost var items: seq<Item>

    ghost predicate Valid()
      reads this
    {
      interval >= 1 && Built(interval, items, buffer, restarts, counter, lastKey)
    }

    constructor (interval: nat)
      requires interval >= 1
      ensures Valid() && items == [] && this.interval == interval
    {
      this.interval := interval;
      buffer, restarts, counter, lastKey, items := [], [0], 0, [], [];
      new;
      assert items[..0] == [] && [0][..0] == [];
      assert Offsets(items, interval, [0]) == Offsets(items, interval, []) + [Offset(items, interval, 0)];
    }

    method Add(key: Bytes, value: Bytes)
      requires Valid()
      modifies `buffer, `restarts, `counter, `lastKey, `items
      ensures Valid() && items == old(items) + [Item(key, value)]
    {
      var item := Item(key, value);
      ghost var was := (items, buffer, restarts, counter, lastKey);
      var shared := StartEntry(key);
      var entry := EncodeEntry(shared, item);
      var last := lastKey[..shared] + key[shared..];
      Rebuilds(lastKey, key, shared);
      buffer, lastKey, items := buffer + entry, last, items + [item];
      BuiltGrows(interval, was.0, was.1, was.2, was.3, was.4, item);
    }

    /** How much of the key is shared; a used-up interval means none, and a restart point. */
    method StartEntry(key: Bytes) returns (shared: nat)
      modifies `restarts, `counter
      ensures shared == if old(counter) < interval then CommonPrefix(lastKey, key) else 0
      ensures restarts == if old(counter) < interval then old(restarts) else old(restarts) + [|buffer|]
      ensures counter == if old(counter) < interval then old(counter) + 1 else 1
    {
      shared := 0;
      if counter < interval {
        shared := CountShared(lastKey, key);
      } else {
        restarts := restarts + [|buffer|];
        counter := 0;
      }
      counter := counter + 1;
    }

    static lemma Rebuilds(a: Bytes, b: Bytes, n: nat)
      requires n <= |a| && n <= |b| && a[..n] == b[..n]
      ensures a[..n] + b[n..] == b
    {
    }

    static method CountShared(a: Bytes, b: Bytes) returns (shared: nat)
      ensures shared == CommonPrefix(a, b)
    {
      var minLength := if |a| < |b| then |a| else |b|;
      shared := 0;
      while shared < minLength && a[shared] == b[shared]
        invariant shared <= minLength && a[..shared] == b[..shared]
      {
        assert a[..shared + 1] == a[..shared] + [a[shared]] && b[..shared + 1] == b[..shared] + [b[shared]];
        shared := shared + 1;
      }
      PrefixIsUnique(a, b, shared);
    }

    static method AppendRestarts(data: Bytes, restarts: seq<nat>) returns (r: Bytes)
      ensures r == data + Fixed32s(restarts)
    {
      r := data;
      for i := 0 to |restarts|
        invariant r == data + Fixed32s(restarts[..i])
      {
        assert restarts[..i + 1][..i] == restarts[..i];
        Appends(data, Fixed32s(restarts[..i]), EncodeFixed(4, restarts[i]));
        r := r + EncodeFixed(4, restarts[i]);
      }
      assert restarts[..|restarts|] == restarts;
    }

    static lemma Appends(a: Bytes, b: Bytes, c: Bytes)
      ensures a + b + c == a + (b + c)
    {
    }

    method Finish() returns (block: Bytes)
      requires Valid()
      modifies `buffer
      ensures block == buffer == Block(items, interval)
    {
      buffer := AppendRestarts(buffer, restarts);
      buffer := buffer + EncodeFixed(4, |restarts|);
      block := buffer;
    }
  }
}
