/** The filter block of a table (table/filter_block.cc). */
module FilterBlocks {
  import opened Bytes
  import opened Coding

  /** A FilterPolicy: it makes one string out of some keys and tests a key against one. */
  datatype Policy = Policy(create: seq<Bytes> -> Bytes, mayMatch: (Bytes, Bytes) -> bool)

  /** The filter of some keys matches each of them. */
  ghost predicate Admits(policy: Policy) {
    forall keys, i {:trigger policy.mayMatch(keys[i], policy.create(keys))} :: 0 <= i < |keys| ==>
      policy.mayMatch(keys[i], policy.create(keys))
  }

  const BaseLg: byte := 11
  /** Every so many bytes of the file get a filter of their own. */
  const Base: nat := 2048

  /** n >> k. */
  function Shift(n: nat, k: nat): nat
    decreases n, k
  {
    if k == 0 then n else Shift(n / 2, k - 1)
  }

  // The format

  /** The filter of some keys; no keys have none. */
  function FilterOf(policy: Policy, keys: seq<Bytes>): Bytes {
    if keys == [] then [] else policy.create(keys)
  }

  /** Where the filters start, and where the last one ends. */
  function Bounds(filters: seq<Bytes>): (r: seq<nat>)
    ensures |r| == |filters| + 1
    ensures forall i :: 0 <= i <= |filters| ==> r[i] == |Concat(filters[..i])|
  {
    seq(|filters| + 1, i requires 0 <= i <= |filters| => |Concat(filters[..i])|)
  }

  /** The filters, where they start, where this array starts, and the base. */
  function FilterBlock(filters: seq<Bytes>): Bytes {
    Concat(filters) + Fixed32s(Bounds(filters)) + [BaseLg]
  }

  lemma {:induction false} DataStep(filters: seq<Bytes>, i: nat)
    requires i < |filters|
    ensures Concat(filters[..i + 1]) == Concat(filters[..i]) + filters[i]
  {
    assert filters[..i + 1][..i] == filters[..i];
  }

  /** Filter `i` is what lies between its bounds. */
  lemma {:induction false} FilterAt(filters: seq<Bytes>, i: nat, n: nat)
    requires i < n <= |filters|
    ensures var bounds, d := Bounds(filters), Concat(filters[..n]);
            bounds[i] <= bounds[i + 1] <= |d| && d[bounds[i]..bounds[i + 1]] == filters[i]
    decreases n
  {
    DataStep(filters, n - 1);
    if i < n - 1 {
      FilterAt(filters, i, n - 1);
    }
  }

  // Reading

  datatype Reader = Reader(data: Bytes, offset: nat, num: nat, baseLg: nat)

  predicate WithinData(r: Reader) {
    r.offset + 4 * r.num + 4 <= |r.data| || r.num == 0
  }

  /** FilterBlockReader's constructor: a malformed block has no filters. */
  function Open(contents: Bytes): (r: Reader)
    ensures WithinData(r)
  {
    var n := |contents|;
    if n < 5 then Reader([], 0, 0, 0)
    else
      var lastWord := DecodeFixed(contents[n - 5..n - 1]);
      if lastWord > n - 5 then Reader([], 0, 0, contents[n - 1])
      else Reader(contents, lastWord, (n - 5 - lastWord) / 4, contents[n - 1])
  }

  function Bound(r: Reader, i: nat): nat
    requires WithinData(r) && i <= r.num && r.num > 0
  {
    var at := r.offset + 4 * i;
    DecodeFixed(r.data[at..at + 4])
  }

  predicate MatchesAt(policy: Policy, r: Reader, i: nat, key: Bytes)
    requires WithinData(r) && i < r.num
  {
    var start, limit := Bound(r, i), Bound(r, i + 1);
    if start <= limit <= r.offset then policy.mayMatch(key, r.data[start..limit]) else start != limit
  }

  function Index(r: Reader, blockOffset: nat): nat {
    Shift(blockOffset, r.baseLg)
  }

  /** FilterBlockReader::KeyMayMatch; errors are treated as potential matches. */
  predicate KeyMayMatch(policy: Policy, r: Reader, blockOffset: nat, key: Bytes)
    requires WithinData(r)
  {
    var index := Index(r, blockOffset);
    index < r.num ==> MatchesAt(policy, r, index, key)
  }

  lemma {:induction false} TailAt(block: Bytes, d: Bytes, tail: Bytes, last: byte, k: nat)
    requires k + 4 <= |tail| && block == d + tail + [last]
    ensures block[|d| + k..|d| + k + 4] == tail[k..k + 4]
  {
  }

  lemma {:induction false} FrontAt(block: Bytes, d: Bytes, i: nat, j: nat)
    requires |d| <= |block| && block[..|d|] == d && i <= j <= |d|
    ensures block[i..j] == d[i..j]
  {
    SliceOfPrefix(block, |d|, i, j);
  }

  lemma {:induction false} WordAt(block: Bytes, d: Bytes, bounds: seq<nat>, i: nat)
    requires block == d + Fixed32s(bounds) + [BaseLg]
    requires i < |bounds| && forall j :: 0 <= j < |bounds| ==> bounds[j] < Two32
    ensures DecodeFixed(block[|d| + 4 * i..|d| + 4 * i + 4]) == bounds[i]
  {
    Fixed32At(bounds, i);
    Fixed32RoundTrip(bounds[i]);
    TailAt(block, d, Fixed32s(bounds), BaseLg, 4 * i);
    assert Fixed32s(bounds)[4 * i..4 * i + 4] == EncodeFixed(4, bounds[i]);
  }

  lemma {:induction false} BoundsSmall(filters: seq<Bytes>)
    ensures forall i :: 0 <= i <= |filters| ==> Bounds(filters)[i] <= |Concat(filters)|
  {
    assert filters[..|filters|] == filters;
    forall i | 0 <= i < |filters|
      ensures Bounds(filters)[i] <= |Concat(filters)|
    {
      FilterAt(filters, i, |filters|);
    }
  }

  lemma {:induction false} OpensBytes(block: Bytes, d: Bytes, bounds: seq<nat>)
    requires block == d + Fixed32s(bounds) + [BaseLg]
    requires bounds != [] && bounds[|bounds| - 1] == |d| && forall j :: 0 <= j < |bounds| ==> bounds[j] < Two32
    ensures Open(block) == Reader(block, |d|, |bounds| - 1, BaseLg)
  {
    var n := |bounds| - 1;
    WordAt(block, d, bounds, n);
    assert |block| - 5 == |d| + 4 * n && |block| - 1 == |d| + 4 * n + 4;
  }

  lemma {:induction false} MatchesBytes(policy: Policy, block: Bytes, d: Bytes, bounds: seq<nat>, i: nat, key: Bytes)
    requires block == d + Fixed32s(bounds) + [BaseLg]
    requires i < |bounds| - 1 && bounds[i] <= bounds[i + 1] <= |d|
    requires forall j :: 0 <= j < |bounds| ==> bounds[j] < Two32
    ensures MatchesAt(policy, Reader(block, |d|, |bounds| - 1, BaseLg), i, key)
            == policy.mayMatch(key, d[bounds[i]..bounds[i + 1]])
  {
    WordAt(block, d, bounds, i);
    WordAt(block, d, bounds, i + 1);
    FrontAt(block, d, bounds[i], bounds[i + 1]);
  }

  /** The reader tests a key against the filter of the stretch of the file that the block starts in. */
  lemma {:induction false} ReadsFilter(policy: Policy, filters: seq<Bytes>, blockOffset: nat, key: Bytes)
    requires |Concat(filters)| < Two32
    ensures var i := blockOffset / Base;
            KeyMayMatch(policy, Open(FilterBlock(filters)), blockOffset, key)
            == (i < |filters| ==> policy.mayMatch(key, filters[i]))
  {
    var i, d, bounds := blockOffset / Base, Concat(filters), Bounds(filters);
    assert filters[..|filters|] == filters;
    BoundsSmall(filters);
    ShiftByBase(blockOffset);
    OpensBytes(FilterBlock(filters), d, bounds);
    if i < |filters| {
      FilterAt(filters, i, |filters|);
      MatchesBytes(policy, FilterBlock(filters), d, bounds, i, key);
    }
  }

  lemma {:induction false} FourMore(n: nat, k: nat)
    ensures Shift(n, k + 4) == Shift(n / 16, k)
  {
    var a := n / 2;
    var b := a / 2;
    var c := b / 2;
    assert Shift(n, k + 4) == Shift(a, k + 3) == Shift(b, k + 2) == Shift(c, k + 1) == Shift(c / 2, k);
    assert c / 2 == n / 16;
  }

  lemma {:induction false} ShiftByBase(n: nat)
    ensures Shift(n, BaseLg) == n / Base
  {
    var a, b := n / 16, n / 256;
    FourMore(n, 7);
    FourMore(a, 3);
    assert a / 16 == b;
    assert Shift(b, 3) == Shift(b / 2, 2) == Shift(b / 2 / 2, 1) == b / 2 / 2 / 2;
  }

  // Building

  /** Where key `i` of a flattened list ends. */
  function EndOf(start: seq<nat>, total: nat, i: nat): nat
    requires i < |start|
  {
    if i + 1 < |start| then start[i + 1] else total
  }

  predicate KeyAt(keys: Bytes, start: seq<nat>, i: nat, key: Bytes)
    requires i < |start|
  {
    start[i] <= EndOf(start, |keys|, i) <= |keys| && keys[start[i]..EndOf(start, |keys|, i)] == key
  }

  ghost predicate Flattened(list: seq<Bytes>, keys: Bytes, start: seq<nat>) {
    |start| == |list| && forall i {:trigger KeyAt(keys, start, i, list[i])} ::
                          0 <= i < |list| ==>
                          KeyAt(keys, start, i, list[i])
  }

  lemma FlattenOneMore(list: seq<Bytes>, keys: Bytes, start: seq<nat>, key: Bytes)
    requires Flattened(list, keys, start)
    ensures Flattened(list + [key], keys + key, start + [|keys|])
  {
    var start', keys' := start + [|keys|], keys + key;
    forall i | 0 <= i < |list| + 1
      ensures KeyAt(keys', start', i, (list + [key])[i])
    {
      if i < |list| {
        assert KeyAt(keys, start, i, list[i]);
        assert EndOf(start', |keys'|, i) == EndOf(start, |keys|, i);
        SliceOfPrefix(keys', |keys|, start[i], EndOf(start, |keys|, i));
        assert keys'[..|keys|] == keys;
      }
    }
  }

  function Starts(filters: seq<Bytes>): (r: seq<nat>)
    ensures |r| == |filters|
  {
    Bounds(filters)[..|filters|]
  }

  lemma {:induction false} OneMoreFilter(filters: seq<Bytes>, filter: Bytes)
    ensures Concat(filters + [filter]) == Concat(filters) + filter
    ensures Starts(filters + [filter]) == Starts(filters) + [|Concat(filters)|]
  {
    var more := filters + [filter];
    assert more[..|filters|] == filters;
    forall i | 0 <= i < |filters|
      ensures Starts(more)[i] == Starts(filters)[i]
    {
      assert more[..i] == filters[..i];
    }
  }

  lemma {:induction false} LastBound(filters: seq<Bytes>)
    ensures Bounds(filters) == Starts(filters) + [|Concat(filters)|]
  {
    assert filters[..|filters|] == filters;
  }

  class FilterBlockBuilder {
    const policy: Policy
    /** Flattened key contents. */
    var keys: Bytes
    /** Where each key starts. */
    var start: seq<nat>
    var result: Bytes
    var filterOffsets: seq<nat>
    /** The keys that wait for a filter, and the filters made so far. */
    ghost var pending: seq<Bytes>
    ghost var filters: seq<Bytes>

    ghost predicate Valid()
      reads this
    {
      && Flattened(pending, keys, start)
      && result == Concat(filters)
      && filterOffsets == Starts(filters)
    }

    constructor (p: Policy)
      ensures Valid() && policy == p && pending == [] && filters == []
    {
      policy, keys, start, result, filterOffsets, pending, filters := p, [], [], [], [], [], [];
    }

    method AddKey(key: Bytes)
      requires Valid()
      modifies `keys, `start, `pending
      ensures Valid() && pending == old(pending) + [key]
    {
      FlattenOneMore(pending, keys, start, key);
      start := start + [|keys|];
      keys := keys + key;
      pending := pending + [key];
    }

    method ListKeys() returns (list: seq<Bytes>)
      requires Valid()
      ensures list == pending
    {
      var ends := start + [|keys|];
      list := [];
      for i := 0 to |start|
        invariant list == pending[..i]
      {
        assert KeyAt(keys, start, i, pending[i]);
        list := list + [keys[ends[i]..ends[i + 1]]];
      }
    }

    method GenerateFilter()
      requires Valid()
      modifies this
      ensures Valid() && pending == [] && filters == old(filters) + [FilterOf(policy, old(pending))]
    {
      OneMoreFilter(filters, FilterOf(policy, pending));
      if |start| == 0 {
        filterOffsets := filterOffsets + [|result|];
      } else {
        var list := ListKeys();
        filterOffsets := filterOffsets + [|result|];
        result := result + policy.create(list);
        keys, start := [], [];
      }
      filters := filters + [FilterOf(policy, pending)];
      pending := [];
    }

    /** What was pending becomes a filter, and later stretches of the file that no block
        starts in get an empty one. */
    method StartBlock(blockOffset: nat)
      requires Valid() && blockOffset / Base >= |filters|
      modifies this
      ensures Valid() && |filters| == blockOffset / Base
      ensures old(filters) <= filters
      ensures |filters| == |old(filters)| ==> pending == old(pending)
      ensures |filters| > |old(filters)| ==> pending == [] && filters[|old(filters)|] == FilterOf(policy, old(pending))
      ensures forall i :: |old(filters)| < i < |filters| ==> filters[i] == []
    {
      var filterIndex := blockOffset / Base;
      while filterIndex > |filterOffsets|
        invariant Valid() && |filters| <= filterIndex && old(filters) <= filters
        invariant |filters| == |old(filters)| ==> pending == old(pending)
        invariant |filters| > |old(filters)|
                  ==> pending == [] && filters[|old(filters)|] == FilterOf(policy, old(pending))
        invariant forall i :: |old(filters)| < i < |filters| ==> filters[i] == []
        decreases filterIndex - |filters|
      {
        GenerateFilter();
      }
    }

    /** Appends the array of offsets, where it starts, and the base. */
    static method AppendOffsets(data: Bytes, offsets: seq<nat>) returns (block: Bytes)
      ensures block == data + Fixed32s(offsets + [|data|]) + [BaseLg]
    {
      block := data;
      for i := 0 to |offsets|
        invariant block == data + Fixed32s(offsets[..i])
      {
        assert offsets[..i + 1][..i] == offsets[..i];
        Appends(data, Fixed32s(offsets[..i]), EncodeFixed(4, offsets[i]));
        block := block + EncodeFixed(4, offsets[i]);
      }
      assert offsets[..|offsets|] == offsets && (offsets + [|data|])[..|offsets|] == offsets;
      Appends(data, Fixed32s(offsets), EncodeFixed(4, |data|));
      block := block + EncodeFixed(4, |data|);
      block := block + [BaseLg];
    }

    method Finish() returns (block: Bytes)
      requires Valid()
      modifies this
      ensures filters == if old(pending) == [] then old(filters) else old(filters) + [FilterOf(policy, old(pending))]
      ensures block == result == FilterBlock(filters)
    {
      if |start| != 0 {
        GenerateFilter();
      }
      LastBound(filters);
      block := AppendOffsets(result, filterOffsets);
      result := block;
    }

    static lemma Appends(a: Bytes, b: Bytes, c: Bytes)
      ensures a + b + c == a + (b + c)
    {
    }
  }
}
