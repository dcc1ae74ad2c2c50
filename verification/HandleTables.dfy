/** The chained hash table of the cache (HandleTable in util/cache.cc). */
module HandleTables {
  import Bytes
  import opened Chains

  type Key = nat

  // A handle is its index in the heap, and 0 is NULL.  `heads` are the buckets, `next` the
  // next_hash fields; a slot that points to a handle is a bucket or a next_hash field.

  /** The chain of a bucket: `next` with the bucket's own slot in the unused place 0. */
  ghost predicate Linked(next: seq<Node>, head: Node, chain: seq<Node>) {
    next != [] && Links(next[0 := head], chain) && NoRepeats(chain)
  }

  ghost predicate InBucket(hashes: seq<nat>, length: nat, b: nat, h: Node)
    requires length > 0
  {
    h < |hashes| && hashes[h] % length == b
  }

  ghost predicate IsBucket(next: seq<Node>, hashes: seq<nat>, length: nat, b: nat, head: Node, chain: seq<Node>)
    requires length > 0
  {
    Linked(next, head, chain) && forall k :: 0 <= k < |chain| ==> InBucket(hashes, length, b, chain[k])
  }

  ghost predicate AllBuckets(next: seq<Node>, hashes: seq<nat>, heads: seq<Node>, chains: seq<seq<Node>>)
    requires |heads| > 0
  {
    |chains| == |heads|
    && forall b {:trigger IsBucket(next, hashes, |heads|, b, heads[b], chains[b])} ::
         0 <= b < |heads| ==> IsBucket(next, hashes, |heads|, b, heads[b], chains[b])
  }

  ghost predicate InChains(chains: seq<seq<Node>>, h: Node) {
    exists b :: 0 <= b < |chains| && h in chains[b]
  }

  /** What is done to one bucket does not touch the others: stores go to a handle of the
      bucket or to one that is in no chain. */
  lemma BucketChanges(next: seq<Node>, hashes: seq<nat>, heads: seq<Node>, chains: seq<seq<Node>>, b: nat,
                      next': seq<Node>, head: Node, chain: seq<Node>)
    requires 0 <= b < |heads| && AllBuckets(next, hashes, heads, chains)
    requires IsBucket(next', hashes, |heads|, b, head, chain) && |next'| == |next|
    requires forall h :: 0 < h < |next| && next'[h] != next[h] ==> h in chains[b] || !InChains(chains, h)
    ensures AllBuckets(next', hashes, heads[b := head], chains[b := chain])
  {
    var heads', chains' := heads[b := head], chains[b := chain];
    forall c | 0 <= c < |heads|
      ensures IsBucket(next', hashes, |heads|, c, heads'[c], chains'[c])
    {
      if c != b {
        assert IsBucket(next, hashes, |heads|, c, heads[c], chains[c])
               && IsBucket(next, hashes, |heads|, b, heads[b], chains[b]);
        OtherBucketStays(next, hashes, |heads|, heads[c], chains[b], b, c, chains[c], chains, next');
      }
    }
  }

  lemma OtherBucketStays(next: seq<Node>, hashes: seq<nat>, length: nat, head: Node, mine: seq<Node>, b: nat, c: nat,
                         chain: seq<Node>, chains: seq<seq<Node>>, next': seq<Node>)
    requires 0 < length && b != c && c < |chains| && chains[c] == chain
             && IsBucket(next, hashes, length, c, head, chain)
    requires forall k :: 0 <= k < |mine| ==> InBucket(hashes, length, b, mine[k])
    requires |next'| == |next| && forall h ::
                                   0 < h < |next| && next'[h] != next[h] ==>
                                   h in mine || !InChains(chains, h)
    ensures IsBucket(next', hashes, length, c, head, chain)
  {
    var row, row' := next[0 := head], next'[0 := head];
    forall k | 0 <= k <= |chain|
      ensures row'[Before(chain, k)] == At(chain, k)
    {
      if k > 0 {
        assert InBucket(hashes, length, c, chain[k - 1]) && InChains(chains, chain[k - 1]);
      }
    }
  }

  /** The fields after a handle is put where the `k`th slot of a chain pointed. */
  function LinkedFields(next: seq<Node>, prev: Node, e: Node, h: Node): seq<Node>
    requires h < |next| && prev < |next| && e < |next|
  {
    var next' := next[h := if e == Null then Null else next[e]];
    if prev == Null then next' else next'[prev := h]
  }

  function LinkedChain(chain: seq<Node>, k: nat, h: Node): seq<Node>
    requires k <= |chain|
  {
    if k == |chain| then chain + [h] else chain[k := h]
  }

  /** The handle's own link is set first, when no slot leads to it yet. */
  lemma OwnLink(row: seq<Node>, chain: seq<Node>, h: Node, v: Node)
    requires Links(row, chain) && 0 < h < |row| && h !in chain
    ensures Links(row[h := v], chain)
  {
    forall j | 0 <= j <= |chain| ensures Before(chain, j) != h {
      assert j > 0 ==> chain[j - 1] in chain;
    }
  }

  lemma RowLinksIn(row: seq<Node>, chain: seq<Node>, h: Node, k: nat)
    requires Links(row, chain) && NoRepeats(chain) && 0 < h < |row| && h !in chain && k <= |chain|
    ensures Before(chain, k) < |row| && At(chain, k) < |row|
    ensures var v: Node := if k == |chain| then Null else row[At(chain, k)];
            Links(row[h := v][Before(chain, k) := h], LinkedChain(chain, k, h)) && NoRepeats(LinkedChain(chain, k, h))
  {
    if k == |chain| {
      OwnLink(row, chain, h, Null);
      StoreSplices(row[h := Null], chain, k, h);
      InsertedOnce(chain, k, h);
      assert InsertAt(chain, k, h) == LinkedChain(chain, k, h);
    } else {
      var v := row[chain[k]];
      OwnLink(row, chain, h, v);
      RowReplaces(row[h := v], chain, h, k);
    }
  }

  lemma RowReplaces(row: seq<Node>, chain: seq<Node>, h: Node, k: nat)
    requires Links(row, chain) && NoRepeats(chain) && 0 < h < |row| && h !in chain && k < |chain|
             && row[h] == row[chain[k]]
    ensures Links(row[Before(chain, k) := h], LinkedChain(chain, k, h)) && NoRepeats(LinkedChain(chain, k, h))
  {
    var row', chain' := row[Before(chain, k) := h], chain[k := h];
    assert Before(chain, k) != h by { assert k > 0 ==> chain[k - 1] in chain; }
    forall j | 0 <= j <= |chain'|
      ensures row'[Before(chain', j)] == At(chain', j)
    {
      if j == k + 1 {
        assert Before(chain, j) == chain[k] && row[Before(chain, j)] == At(chain, j);
      } else if j != k {
        assert Before(chain', j) == Before(chain, j) && At(chain', j) == At(chain, j);
        assert Before(chain, j) != Before(chain, k);
      }
    }
  }

  lemma LinkInKeeps(next: seq<Node>, head: Node, chain: seq<Node>, h: Node, k: nat)
    requires Linked(next, head, chain) && 0 < h < |next| && h !in chain && k <= |chain|
    ensures Before(chain, k) < |next| && At(chain, k) < |next|
    ensures Linked(LinkedFields(next, Before(chain, k), At(chain, k), h),
                   if k == 0 then h else head, LinkedChain(chain, k, h))
  {
    var row := next[0 := head];
    RowLinksIn(row, chain, h, k);
    var v: Node := if k == |chain| then Null else row[At(chain, k)];
    var head': Node := if k == 0 then h else head;
    assert LinkedFields(next, Before(chain, k), At(chain, k), h)[0 := head'] == row[h := v][Before(chain, k) := h];
  }

  /** One chain changes: `gone` leaves the table and `come` enters it. */
  lemma ChainChanges(chains: seq<seq<Node>>, b: nat, chain: seq<Node>, gone: Node, come: Node)
    requires b < |chains| && forall g :: g > 0 ==> (g in chain <==> (g in chains[b] && g != gone) || g == come)
    requires forall c :: 0 <= c < |chains| && c != b ==> gone !in chains[c]
    ensures forall g :: g > 0 ==> (InChains(chains[b := chain], g) <==> (InChains(chains, g) && g != gone) || g == come)
  {
    var chains' := chains[b := chain];
    forall g | g > 0
      ensures InChains(chains', g) <==> (InChains(chains, g) && g != gone) || g == come
    {
      if InChains(chains, g) && g != gone {
        var c :| 0 <= c < |chains| && g in chains[c];
        assert g in chains'[c];
      } else if g == come {
        assert come in chains'[b];
      }
    }
  }

  lemma LinkOutKeeps(next: seq<Node>, head: Node, chain: seq<Node>, k: nat)
    requires Linked(next, head, chain) && k < |chain|
    ensures Before(chain, k) < |next| && chain[k] < |next|
    ensures var after := next[chain[k]];
            Linked(if k == 0 then next else next[Before(chain, k) := after],
                   if k == 0 then after else head, RemoveAt(chain, k))
  {
    var row := next[0 := head];
    StoreUnlinks(row, chain, k);
    RemovedNodes(chain, k);
    var next' := if k == 0 then next else next[Before(chain, k) := next[chain[k]]];
    var head' := if k == 0 then next[chain[k]] else head;
    assert next'[0 := head'] == row[Before(chain, k) := row[chain[k]]];
  }

  /** A handle that is in no chain goes to the front of its bucket. */
  lemma PushKeeps(next: seq<Node>, hashes: seq<nat>, heads: seq<Node>, chains: seq<seq<Node>>, h: Node)
    requires |heads| > 0 && AllBuckets(next, hashes, heads, chains)
    requires 0 < h < |next| && h < |hashes| && !InChains(chains, h)
    ensures var b := hashes[h] % |heads|;
            AllBuckets(next[h := heads[b]], hashes, heads[b := h], chains[b := [h] + chains[b]])
  {
    var b := hashes[h] % |heads|;
    var chain, row := chains[b], next[0 := heads[b]];
    assert IsBucket(next, hashes, |heads|, b, heads[b], chain) && h !in chain;
    var row1 := row[h := heads[b]];
    assert row[Before(chain, 0)] == At(chain, 0);
    forall j | 0 <= j <= |chain| ensures Before(chain, j) != h {
      assert j > 0 ==> chain[j - 1] in chain;
    }
    assert Links(row1, chain);
    StoreSplices(row1, chain, 0, h);
    InsertedOnce(chain, 0, h);
    assert InsertAt(chain, 0, h) == [h] + chain;
    var next' := next[h := heads[b]];
    assert next'[0 := h] == row1[0 := h];
    assert IsBucket(next', hashes, |heads|, b, h, [h] + chain);
    BucketChanges(next, hashes, heads, chains, b, next', h, [h] + chain);
  }

  lemma PoppedChain(next: seq<Node>, h: Node, chain: seq<Node>, v: Node)
    requires Linked(next, h, chain) && h != Null
    ensures chain != [] && chain[0] == h && h < |next| && Linked(next[h := v], next[h], chain[1..])
  {
    var row := next[0 := h];
    assert row[Before(chain, 0)] == At(chain, 0);
    LinkOutKeeps(next, h, chain, 0);
    assert RemoveAt(chain, 0) == chain[1..];
    var row1 := next[0 := next[h]];
    assert h !in chain[1..];
    OwnLink(row1, chain[1..], h, v);
    assert next[h := v][0 := next[h]] == row1[h := v];
  }

  /** The first handle of a chain is taken; its own field may be overwritten. */
  lemma PopKeeps(next: seq<Node>, hashes: seq<nat>, heads: seq<Node>, chains: seq<seq<Node>>, b: nat, v: Node)
    requires b < |heads| && AllBuckets(next, hashes, heads, chains) && heads[b] != Null
    ensures chains[b] != [] && chains[b][0] == heads[b] && heads[b] < |next|
    ensures AllBuckets(next[heads[b] := v], hashes, heads[b := next[heads[b]]], chains[b := chains[b][1..]])
  {
    var chain, h := chains[b], heads[b];
    assert IsBucket(next, hashes, |heads|, b, h, chain);
    PoppedChain(next, h, chain, v);
    assert IsBucket(next[h := v], hashes, |heads|, b, next[h], chain[1..]);
    BucketChanges(next, hashes, heads, chains, b, next[h := v], next[h], chain[1..]);
  }

  /** A handle is in one bucket only. */
  lemma OneBucket(next: seq<Node>, hashes: seq<nat>, heads: seq<Node>, chains: seq<seq<Node>>, b: nat, c: nat, h: Node)
    requires |heads| > 0 && AllBuckets(next, hashes, heads, chains) && b < |heads| && c < |heads|
    requires h in chains[b] && h in chains[c]
    ensures b == c
  {
    assert IsBucket(next, hashes, |heads|, b, heads[b], chains[b])
           && IsBucket(next, hashes, |heads|, c, heads[c], chains[c]);
    var j :| 0 <= j < |chains[b]| && chains[b][j] == h;
    var k :| 0 <= k < |chains[c]| && chains[c][k] == h;
    assert InBucket(hashes, |heads|, b, chains[b][j]) && InBucket(hashes, |heads|, c, chains[c][k]);
  }

  /** The first handle that is left in an old bucket moves to the front of its new one. */
  lemma MovesOne(next: seq<Node>, hashes: seq<nat>, newList: seq<Node>, newChains: seq<seq<Node>>,
                 leftHeads: seq<Node>, left: seq<seq<Node>>, i: nat)
    requires |newList| > 0 && i < |leftHeads| && leftHeads[i] != Null && |hashes| == |next|
    requires AllBuckets(next, hashes, newList, newChains) && AllBuckets(next, hashes, leftHeads, left)
    requires forall g :: g > 0 ==> !(InChains(newChains, g) && InChains(left, g))
    ensures var h := leftHeads[i];
            && 0 < h < |next| && left[i] != [] && left[i][0] == h
            && var b := hashes[h] % |newList|;
               var next', newChains' := next[h := newList[b]], newChains[b := [h] + newChains[b]];
               var left' := left[i := left[i][1..]];
               && AllBuckets(next', hashes, newList[b := h], newChains')
               && AllBuckets(next', hashes, leftHeads[i := next[h]], left')
               && forall g :: g > 0 ==> (InChains(newChains', g) <==> InChains(newChains, g) || g == h)
                                        && (InChains(left', g) <==> InChains(left, g) && g != h)
  {
    var h := leftHeads[i];
    PopKeeps(next, hashes, leftHeads, left, i, 0);
    assert h in left[i] && InChains(left, h);
    var b := hashes[h] % |newList|;
    PopKeeps(next, hashes, leftHeads, left, i, newList[b]);
    PushKeeps(next, hashes, newList, newChains, h);
    forall c | 0 <= c < |newChains|
      ensures Null !in newChains[c]
    {
      assert IsBucket(next, hashes, |newList|, c, newList[c], newChains[c]);
    }
    ChainChanges(newChains, b, [h] + newChains[b], Null, h);
    assert IsBucket(next, hashes, |leftHeads|, i, h, left[i]);
    assert left[i] == [h] + left[i][1..];
    forall c | 0 <= c < |left| && c != i
      ensures h !in left[c]
    {
      if h in left[c] {
        OneBucket(next, hashes, leftHeads, left, i, c, h);
      }
    }
    ChainChanges(left, i, left[i][1..], h, Null);
  }

  /** A handle that is in no chain goes where the `k`th slot of its bucket pointed. */
  lemma LinkedBuckets(next: seq<Node>, hashes: seq<nat>, heads: seq<Node>, chains: seq<seq<Node>>, h: Node, k: nat)
    requires |heads| > 0 && AllBuckets(next, hashes, heads, chains) && |hashes| == |next|
    requires 0 < h < |next| && !InChains(chains, h) && k <= |chains[hashes[h] % |heads|]|
    ensures var b := hashes[h] % |heads|;
            var chain := chains[b];
            && Before(chain, k) < |next| && At(chain, k) < |next|
            && AllBuckets(LinkedFields(next, Before(chain, k), At(chain, k), h), hashes,
                          if k == 0 then heads[b := h] else heads, chains[b := LinkedChain(chain, k, h)])
  {
    var b := hashes[h] % |heads|;
    var chain := chains[b];
    assert IsBucket(next, hashes, |heads|, b, heads[b], chain) && h !in chain;
    LinkInKeeps(next, heads[b], chain, h, k);
    var next', head: Node := LinkedFields(next, Before(chain, k), At(chain, k), h), if k == 0 then h else heads[b];
    assert IsBucket(next', hashes, |heads|, b, head, LinkedChain(chain, k, h));
    BucketChanges(next, hashes, heads, chains, b, next', head, LinkedChain(chain, k, h));
    assert heads[b := head] == if k == 0 then heads[b := h] else heads;
  }

  lemma LinkedMembers(next: seq<Node>, hashes: seq<nat>, heads: seq<Node>, chains: seq<seq<Node>>, b: nat, h: Node,
                      k: nat)
    requires b < |heads| && AllBuckets(next, hashes, heads, chains) && h > 0 && k <= |chains[b]|
    ensures forall g :: g > 0 ==>
              (InChains(chains[b := LinkedChain(chains[b], k, h)], g)
               <==> (InChains(chains, g) && g != At(chains[b], k)) || g == h)
  {
    var chain, e := chains[b], At(chains[b], k);
    assert IsBucket(next, hashes, |heads|, b, heads[b], chain);
    forall c | 0 <= c < |chains| && c != b
      ensures e !in chains[c]
    {
      assert IsBucket(next, hashes, |heads|, c, heads[c], chains[c]);
      if e in chains[c] {
        OneBucket(next, hashes, heads, chains, b, c, e);
      }
    }
    LinkedNodes(chain, k, h);
    ChainChanges(chains, b, LinkedChain(chain, k, h), e, h);
  }

  lemma UnlinkedBuckets(next: seq<Node>, hashes: seq<nat>, heads: seq<Node>, chains: seq<seq<Node>>, b: nat, k: nat)
    requires b < |heads| && AllBuckets(next, hashes, heads, chains) && k < |chains[b]|
    ensures var chain, chains' := chains[b], chains[b := RemoveAt(chains[b], k)];
            && 0 < chain[k] < |next| && Before(chain, k) < |next|
            && var after := next[chain[k]];
               && AllBuckets(if k == 0 then next else next[Before(chain, k) := after], hashes,
                             if k == 0 then heads[b := after] else heads, chains')
               && forall g :: g > 0 ==> (InChains(chains', g) <==> InChains(chains, g) && g != chain[k])
  {
    var chain, e := chains[b], chains[b][k];
    assert IsBucket(next, hashes, |heads|, b, heads[b], chain);
    LinkOutKeeps(next, heads[b], chain, k);
    RemovedNodes(chain, k);
    var next' := if k == 0 then next else next[Before(chain, k) := next[e]];
    var head: Node := if k == 0 then next[e] else heads[b];
    assert IsBucket(next', hashes, |heads|, b, head, RemoveAt(chain, k));
    BucketChanges(next, hashes, heads, chains, b, next', head, RemoveAt(chain, k));
    assert heads[b := head] == if k == 0 then heads[b := next[e]] else heads;
    forall c | 0 <= c < |chains| && c != b
      ensures e !in chains[c]
    {
      if e in chains[c] {
        OneBucket(next, hashes, heads, chains, b, c, e);
      }
    }
    ChainChanges(chains, b, RemoveAt(chain, k), e, Null);
  }

  lemma LinkedNodes(chain: seq<Node>, k: nat, h: Node)
    requires NoRepeats(chain) && k <= |chain| && h > 0
    ensures forall g :: g > 0 ==> (g in LinkedChain(chain, k, h) <==> (g in chain && g != At(chain, k)) || g == h)
  {
    if k < |chain| {
      forall g | g in chain && g != chain[k]
        ensures g in LinkedChain(chain, k, h)
      {
        var j :| 0 <= j < |chain| && chain[j] == g;
        assert LinkedChain(chain, k, h)[j] == g;
      }
      assert LinkedChain(chain, k, h)[k] == h;
    }
  }

  function Nulls(n: nat): (r: seq<Node>)
    ensures |r| == n && forall i :: 0 <= i < n ==> r[i] == Null
  {
    seq(n, _ => Null)
  }

  function NoChains(n: nat): (r: seq<seq<Node>>)
    ensures |r| == n && forall i :: 0 <= i < n ==> r[i] == []
  {
    seq(n, _ => [])
  }

  lemma EmptyBuckets(next: seq<Node>, hashes: seq<nat>, n: nat)
    requires n > 0 && next != []
    ensures AllBuckets(next, hashes, Nulls(n), NoChains(n)) && forall g :: !InChains(NoChains(n), g)
  {
    forall b | 0 <= b < n
      ensures IsBucket(next, hashes, n, b, Nulls(n)[b], NoChains(n)[b])
    {
    }
  }

  ghost predicate AreIn(handles: set<Node>, n: nat, chains: seq<seq<Node>>) {
    && (forall h :: h in handles ==> 0 < h < n)
    && (forall h :: 0 < h ==> (h in handles <==> InChains(chains, h)))
  }

  /** `gone` leaves the set and `come` enters it; 0 stands for nobody. */
  ghost predicate Swapped(before: set<Node>, gone: Node, come: Node, after: set<Node>) {
    forall g :: g in after <==> (g in before && g != gone) || (g == come && come != Null)
  }

  lemma SwapSize(s: set<Node>, gone: Node, come: Node)
    requires come !in s
    ensures |s - {gone} + {come}| == |s| + if gone in s then 0 else 1
  {
    assert gone !in s ==> s - {gone} == s;
  }

  // The length of a table

  /** Four, doubled some number of times. */
  predicate IsLength(n: nat) {
    n == 4 || (n > 4 && n % 2 == 0 && IsLength(n / 2))
  }

  predicate IsPower(n: nat) {
    n == 1 || (n > 1 && n % 2 == 0 && IsPower(n / 2))
  }

  lemma {:induction false} LengthIsPower(n: nat)
    requires IsLength(n)
    ensures IsPower(n)
  {
    if n == 4 {
      assert IsPower(2);
    } else {
      LengthIsPower(n / 2);
    }
  }

  /** The bits that two numbers have in common. */
  function And(a: nat, b: nat): nat {
    if a == 0 || b == 0 then 0 else (a % 2) * (b % 2) + 2 * And(a / 2, b / 2)
  }

  /** For the lengths that a table can have, masking with one less is taking the remainder. */
  lemma {:induction false} MaskIsRemainder(hash: nat, n: nat)
    requires IsPower(n)
    ensures And(hash, n - 1) == hash % n
  {
    if n > 1 {
      var m := n / 2;
      MaskIsRemainder(hash / 2, m);
      assert n - 1 == 2 * (m - 1) + 1;
      RemainderOfDouble(hash, m);
    }
  }

  lemma RemainderOfDouble(a: nat, m: nat)
    requires m > 0
    ensures a % (2 * m) == a % 2 + 2 * (a / 2 % m)
  {
    var q, r, d := a / 2 / m, a / 2 % m, 2 * m;
    assert a / 2 == m * q + r;
    assert d * q == 2 * (m * q);
    Bytes.DivisionIs(a, d, q, a % 2 + 2 * r);
  }

  class HandleTable {
    var keys: seq<Key>
    var hashes: seq<nat>
    var nextHash: seq<Node>
    var heads: seq<Node>
    var elems: nat
    ghost var chains: seq<seq<Node>>
    /** The handles in the table. */
    ghost var handles: set<Node>

    ghost predicate Valid()
      reads this
    {
      Shaped() && Unique(handles) && elems == |handles| <= |heads| && IsLength(|heads|)
    }

    ghost predicate Shaped()
      reads `keys, `hashes, `nextHash, `heads, `chains, `handles
    {
      && |keys| == |hashes| == |nextHash| > 0 && |heads| > 0
      && AllBuckets(nextHash, hashes, heads, chains) && AreIn(handles, |keys|, chains)
    }

    predicate Matches(h: Node, key: Key, hash: nat)
      reads `keys, `hashes
    {
      h < |keys| && h < |hashes| && keys[h] == key && hashes[h] == hash
    }

    /** No other handle of the table has the key and hash of `h`. */
    ghost predicate NoOther(h: Node)
      requires h < |keys| && h < |hashes|
      reads `keys, `hashes, `handles
    {
      forall g :: g in handles && g != h ==> !Matches(g, keys[h], hashes[h])
    }

    ghost predicate NoneMatches(hs: set<Node>, key: Key, hash: nat)
      reads `keys, `hashes
    {
      forall h :: h in hs ==> !Matches(h, key, hash)
    }

    /** No two of the handles have the same key and hash. */
    ghost predicate Unique(hs: set<Node>)
      reads `keys, `hashes
    {
      forall g, h :: g in hs && h in hs && g < |keys| && h < |keys| && Same(g, h) ==> g == h
    }

    ghost predicate Same(g: Node, h: Node)
      requires g < |keys| && h < |keys|
      reads `keys, `hashes
    {
      h < |hashes| && Matches(g, keys[h], hashes[h])
    }

    /** The slot that leads to the handle with the key, or the last slot of its chain: the
        handle before it, or 0 for the bucket, and what it points to.  The code masks the
        hash with length - 1, which is the remainder for a length that is a power of two. */
    method FindPointer(key: Key, hash: nat) returns (prev: Node, e: Node, ghost k: nat)
      requires Shaped()
      ensures var chain := chains[hash % |heads|];
              && k <= |chain| && prev == Before(chain, k) && e == At(chain, k)
              && (forall j :: 0 <= j < k ==> !Matches(chain[j], key, hash))
              && (e != Null ==> k < |chain| && Matches(e, key, hash))
      ensures if e == Null then NoneMatches(handles, key, hash) else e in handles && Matches(e, key, hash)
    {
      var b := hash % |heads|;
      ghost var chain := chains[b];
      assert IsBucket(nextHash, hashes, |heads|, b, heads[b], chain);
      ghost var row := nextHash[0 := heads[b]];
      prev, e, k := 0, heads[b], 0;
      assert row[Before(chain, 0)] == At(chain, 0);
      while e != Null && (hashes[e] != hash || key != keys[e])
        invariant k <= |chain| && prev == Before(chain, k) && e == At(chain, k)
        invariant forall j :: 0 <= j < k ==> !Matches(chain[j], key, hash)
        decreases |chain| - k
      {
        prev, e, k := e, nextHash[e], k + 1;
        assert row[Before(chain, k)] == At(chain, k);
      }
      MissIsAbsent(key, hash, e, k);
    }

    lemma IsInItsBucket(h: Node)
      requires Shaped() && h in handles
      ensures h in chains[hashes[h] % |heads|]
    {
      var b :| 0 <= b < |chains| && h in chains[b];
      assert IsBucket(nextHash, hashes, |heads|, b, heads[b], chains[b]);
      var k :| 0 <= k < |chains[b]| && chains[b][k] == h;
      assert InBucket(hashes, |heads|, b, chains[b][k]);
    }

    /** A handle with the key and hash can only be in their bucket, so if FindPointer does
        not find one there is none. */
    lemma MissIsAbsent(key: Key, hash: nat, e: Node, k: nat)
      requires Shaped()
      requires var chain := chains[hash % |heads|];
               && k <= |chain| && e == At(chain, k) && (forall j :: 0 <= j < k ==> !Matches(chain[j], key, hash))
      ensures e == Null ==> NoneMatches(handles, key, hash)
      ensures e != Null ==> e in handles
    {
      var b := hash % |heads|;
      assert IsBucket(nextHash, hashes, |heads|, b, heads[b], chains[b]);
      if e == Null {
        assert k == |chains[b]|;
        forall h | h in handles
          ensures !Matches(h, key, hash)
        {
          IsInItsBucket(h);
        }
      } else {
        assert e in chains[b];
      }
    }

    method Lookup(key: Key, hash: nat) returns (e: Node)
      requires Valid()
      ensures e != Null ==> e in handles && Matches(e, key, hash)
      ensures e == Null ==> NoneMatches(handles, key, hash)
    {
      ghost var k;
      var prev;
      prev, e, k := FindPointer(key, hash);
    }

    /** Puts a handle in the table, in the place of one with the same key and hash. */
    method Insert(h: Node) returns (old_: Node)
      requires Valid() && 0 < h < |keys| && h !in handles
      modifies `nextHash, `heads, `elems, `chains, `handles
      ensures Valid() && (|handles| <= old(|heads|) ==> |heads| == old(|heads|))
      ensures NoOther(h) && Swapped(old(handles), old_, h, handles)
      ensures old_ != Null ==> old_ in old(handles) && Matches(old_, keys[h], hashes[h])
    {
      old_ := Replace(h);
      if old_ == Null {
        CountOneMore();
      }
    }

    method CountOneMore()
      requires Shaped() && IsLength(|heads|)
      modifies `nextHash, `heads, `elems, `chains
      ensures Shaped() && elems == old(elems) + 1 <= |heads| && IsLength(|heads|)
      ensures elems <= old(|heads|) ==> |heads| == old(|heads|)
    {
      elems := elems + 1;
      if elems > |heads| {
        Resize();
      }
    }

    lemma UniqueAfter(hs: set<Node>, gone: Node, h: Node, after: set<Node>)
      requires |keys| == |hashes| && Unique(hs) && h < |keys| && (forall g :: g in hs ==> 0 < g < |keys|)
      requires gone == Null ==> NoneMatches(hs, keys[h], hashes[h])
      requires gone != Null ==> gone in hs && Matches(gone, keys[h], hashes[h])
      requires Swapped(hs, gone, h, after)
      ensures Unique(after) && forall g :: g in after && g != h ==> !Matches(g, keys[h], hashes[h])
    {
      forall g | g in hs && g != gone
        ensures !Matches(g, keys[h], hashes[h])
      {
        if gone != Null {
          assert Same(g, gone) ==> g == gone;
        }
      }
    }

    /** The part of Insert that writes the slot. */
    method Replace(h: Node) returns (old_: Node)
      requires Shaped() && Unique(handles) && 0 < h < |keys| && h !in handles
      modifies `nextHash, `heads, `chains, `handles
      ensures Shaped() && Unique(handles) && |handles| == |old(handles)| + if old_ == Null then 1 else 0
      ensures |heads| == old(|heads|)
      ensures NoOther(h) && Swapped(old(handles), old_, h, handles)
      ensures old_ != Null ==> old_ in old(handles) && Matches(old_, keys[h], hashes[h])
    {
      ghost var k;
      var prev;
      prev, old_, k := FindPointer(keys[h], hashes[h]);
      UniqueAfter(handles, old_, h, handles - {old_} + {h});
      SwapSize(handles, old_, h);
      LinkIn(h, prev, old_, k);
    }

    method Remove(key: Key, hash: nat) returns (e: Node)
      requires Valid()
      modifies `nextHash, `heads, `elems, `chains, `handles
      ensures Valid() && |heads| == old(|heads|)
      ensures NoneMatches(handles, key, hash) && Swapped(old(handles), e, Null, handles)
      ensures e != Null ==> e in old(handles) && Matches(e, key, hash)
    {
      ghost var k;
      var prev;
      prev, e, k := FindPointer(key, hash);
      if e != Null {
        forall g | g in handles && g != e
          ensures !Matches(g, key, hash)
        {
          assert Same(g, e) ==> g == e;
        }
        LinkOut(hash % |heads|, prev, e, k);
        elems := elems - 1;
      }
    }

    /** `*ptr = h`, once the handle's own link leads to what comes behind it. */
    method LinkIn(h: Node, prev: Node, e: Node, ghost k: nat)
      requires Shaped() && 0 < h < |keys| && h !in handles
      requires var chain := chains[hashes[h] % |heads|]; k <= |chain| && prev == Before(chain, k) && e == At(chain, k)
      modifies `nextHash, `heads, `chains, `handles
      ensures Shaped() && |heads| == old(|heads|) && handles == old(handles) - {e} + {h}
    {
      var b := hashes[h] % |heads|;
      ghost var next := nextHash;
      assert !InChains(chains, h);
      assert IsBucket(nextHash, hashes, |heads|, b, heads[b], chains[b]);
      LinkedBuckets(nextHash, hashes, heads, chains, h, k);
      LinkedMembers(nextHash, hashes, heads, chains, b, h, k);
      nextHash := nextHash[h := if e == Null then Null else nextHash[e]];
      if prev == Null {
        heads := heads[b := h];
      } else {
        nextHash := nextHash[prev := h];
      }
      assert nextHash == LinkedFields(next, prev, e, h);
      chains := chains[b := LinkedChain(chains[b], k, h)];
      handles := handles - {e} + {h};
    }

    method LinkOut(b: nat, prev: Node, e: Node, ghost k: nat)
      requires Shaped() && b < |heads| && k < |chains[b]| && prev == Before(chains[b], k) && e == chains[b][k]
      modifies `nextHash, `heads, `chains, `handles
      ensures Shaped() && |heads| == old(|heads|) && handles == old(handles) - {e}
    {
      assert IsBucket(nextHash, hashes, |heads|, b, heads[b], chains[b]);
      UnlinkedBuckets(nextHash, hashes, heads, chains, b, k);
      if prev == Null {
        heads := heads[b := nextHash[e]];
      } else {
        nextHash := nextHash[prev := nextHash[e]];
      }
      chains := chains[b := RemoveAt(chains[b], k)];
      handles := handles - {e};
    }

    /** The first length that is enough. */
    static method NewLength(elems: nat) returns (newLength: nat)
      ensures newLength >= elems && IsLength(newLength) && (newLength == 4 || newLength < 2 * elems)
    {
      newLength := 4;
      while newLength < elems
        invariant IsLength(newLength) && (newLength == 4 || newLength < 2 * elems)
      {
        newLength := 2 * newLength;
      }
    }

    /** Moves every handle to the shortest table that is as long as there are handles; none
        is lost. */
    method Resize()
      requires Shaped()
      modifies `nextHash, `heads, `chains
      ensures Shaped() && |heads| >= elems && IsLength(|heads|) && (|heads| == 4 || |heads| < 2 * elems)
    {
      var newLength := NewLength(elems);
      var newList := Nulls(newLength);
      ghost var newChains, left, leftHeads := NoChains(newLength), chains, heads;
      EmptyBuckets(nextHash, hashes, newLength);
      for i := 0 to |heads|
        invariant |nextHash| == |keys| && |newList| == newLength
        invariant Moving(newList, newChains, leftHeads, left)
        invariant heads == old(heads) && chains == old(chains)
        invariant |newChains| == newLength && |left| == |leftHeads| == |heads|
                  && (forall j :: i <= j < |heads| ==> leftHeads[j] == heads[j])
        invariant forall j :: 0 <= j < i ==> left[j] == []
      {
        var h := heads[i];
        while h != Null
          invariant heads == old(heads) && chains == old(chains)
          invariant |nextHash| == |keys| && |newList| == newLength == |newChains| && |left| == |leftHeads| == |heads|
                    && leftHeads[i] == h
          invariant Moving(newList, newChains, leftHeads, left)
          invariant forall j :: i < j < |heads| ==> leftHeads[j] == heads[j]
          invariant forall j :: 0 <= j < i ==> left[j] == []
          decreases |left[i]|
        {
          MovesOne(nextHash, hashes, newList, newChains, leftHeads, left, i);
          var next := nextHash[h];
          var b := hashes[h] % newLength;
          nextHash := nextHash[h := newList[b]];
          newList := newList[b := h];
          newChains := newChains[b := [h] + newChains[b]];
          leftHeads := leftHeads[i := next];
          left := left[i := left[i][1..]];
          h := next;
        }
        assert IsBucket(nextHash, hashes, |leftHeads|, i, leftHeads[i], left[i]);
        assert nextHash[0 := h][Before(left[i], 0)] == At(left[i], 0);
      }
      assert forall g :: !InChains(left, g);
      heads := newList;
      chains := newChains;
    }

    /** The handles of the table are in the new chains or still to be moved, not in both. */
    ghost predicate Moving(newList: seq<Node>, newChains: seq<seq<Node>>, leftHeads: seq<Node>, left: seq<seq<Node>>)
      reads `nextHash, `hashes, `chains
    {
      && |newList| > 0 && |leftHeads| > 0
      && AllBuckets(nextHash, hashes, newList, newChains) && AllBuckets(nextHash, hashes, leftHeads, left)
      && (forall g :: g > 0 ==> (InChains(chains, g) <==> InChains(newChains, g) || InChains(left, g)))
      && (forall g :: g > 0 ==> !(InChains(newChains, g) && InChains(left, g)))
    }

    constructor ()
      ensures Valid() && handles == {} && |keys| == 1
    {
      keys, hashes, nextHash, elems := [0], [0], [Null], 0;
      heads, chains, handles := Nulls(4), NoChains(4), {};
      new;
      EmptyBuckets(nextHash, hashes, 4);
    }

    /** A new handle, in no chain yet. */
    method AddHandle(key: Key, hash: nat) returns (h: Node)
      requires Valid()
      modifies `keys, `hashes, `nextHash
      ensures Valid() && h == |old(keys)| && keys == old(keys) + [key] && hashes == old(hashes) + [hash]
              && h !in handles
    {
      GrowKeepsBuckets(nextHash, hashes, heads, chains, hash);
      h := |keys|;
      keys, hashes, nextHash := keys + [key], hashes + [hash], nextHash + [Null];
      assert forall f, g :: f in handles && g in handles && Same(f, g) ==> old(Same(f, g));
    }
  }

  lemma GrowKeepsBuckets(next: seq<Node>, hashes: seq<nat>, heads: seq<Node>, chains: seq<seq<Node>>, hash: nat)
    requires |heads| > 0 && AllBuckets(next, hashes, heads, chains)
    ensures AllBuckets(next + [Null], hashes + [hash], heads, chains)
  {
    forall b | 0 <= b < |heads|
      ensures IsBucket(next + [Null], hashes + [hash], |heads|, b, heads[b], chains[b])
    {
      assert IsBucket(next, hashes, |heads|, b, heads[b], chains[b]);
      var row, row' := next[0 := heads[b]], (next + [Null])[0 := heads[b]];
      forall k | 0 <= k <= |chains[b]|
        ensures row'[Before(chains[b], k)] == At(chains[b], k)
      {
        assert row[Before(chains[b], k)] == At(chains[b], k);
      }
      forall k | 0 <= k < |chains[b]|
        ensures InBucket(hashes + [hash], |heads|, b, chains[b][k])
      {
        assert InBucket(hashes, |heads|, b, chains[b][k]);
      }
    }
  }
}
