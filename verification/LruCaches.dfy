/** The least-recently-used cache (LRUCache in util/cache.cc). */
module LruCaches {
  import opened Chains
  import opened HandleTables
  import opened Rings

  /** The total charge of the entries below `n` that are still referenced. */
  function Live(charges: seq<nat>, refs: seq<nat>, n: nat): nat
    requires n <= |charges| && n <= |refs|
  {
    if n <= 1 then 0 else Live(charges, refs, n - 1) + if refs[n - 1] > 0 then charges[n - 1] else 0
  }

  /** The total charge of the entries below `n` that are cached or held by callers. */
  function Kept(charges: seq<nat>, held: seq<nat>, list: seq<Node>, n: nat): nat
    requires n <= |charges| && n <= |held|
  {
    if n <= 1 then 0
    else Kept(charges, held, list, n - 1) + if held[n - 1] > 0 || n - 1 in list then charges[n - 1] else 0
  }

  /** What the cache counts, were `list` what it holds. */
  function Usage(charges: seq<nat>, held: seq<nat>, list: seq<Node>): nat
    requires |charges| == |held|
  {
    Kept(charges, held, list, |held|)
  }

  /** While the first `k` entries went, what was left was too much. */
  ghost predicate TooMuchBefore(capacity: nat, charges: seq<nat>, held: seq<nat>, base: seq<Node>, k: nat)
    requires |charges| == |held| && k <= |base|
  {
    forall j {:trigger base[j..]} :: 0 <= j < k ==> Usage(charges, held, base[j..]) > capacity
  }

  lemma OneMoreTooMuch(capacity: nat, charges: seq<nat>, held: seq<nat>, base: seq<Node>, k: nat, k': nat,
                       list: seq<Node>)
    requires |charges| == |held| && k' == k + 1 && k < |base| && list == base[k..]
    requires TooMuchBefore(capacity, charges, held, base, k) && Usage(charges, held, list) > capacity
    ensures TooMuchBefore(capacity, charges, held, base, k') && list[1..] == base[k'..]
  {
  }

  /** The charges of the nodes from `from` up to `to`. */
  function Spent(charges: seq<nat>, nodes: seq<Node>, from: nat, to: nat): nat
    requires to <= |nodes|
  {
    if to <= from then 0
    else Spent(charges, nodes, from, to - 1) + if nodes[to - 1] < |charges| then charges[nodes[to - 1]] else 0
  }

  /** The usage went down by what the entries deleted in between are charged. */
  ghost predicate Freed(charges: seq<nat>, before: seq<Node>, after: seq<Node>, was: nat, now: nat) {
    before <= after && now + Spent(charges, after, |before|, |after|) == was
  }

  lemma {:induction false} SpentStays(charges: seq<nat>, nodes: seq<Node>, more: seq<Node>, from: nat, to: nat)
    requires to <= |nodes| && nodes <= more
    ensures Spent(charges, more, from, to) == Spent(charges, nodes, from, to)
  {
    if to > from {
      SpentStays(charges, nodes, more, from, to - 1);
    }
  }

  lemma {:induction false} SpentSplits(charges: seq<nat>, nodes: seq<Node>, from: nat, mid: nat, to: nat)
    requires from <= mid <= to <= |nodes|
    ensures Spent(charges, nodes, from, to) == Spent(charges, nodes, from, mid) + Spent(charges, nodes, mid, to)
  {
    if to > mid {
      SpentSplits(charges, nodes, from, mid, to - 1);
    }
  }

  lemma FreedInTurn(charges: seq<nat>, a: seq<Node>, b: seq<Node>, c: seq<Node>, was: nat, between: nat, now: nat)
    requires Freed(charges, a, b, was, between) && Freed(charges, b, c, between, now)
    ensures Freed(charges, a, c, was, now)
  {
    SpentStays(charges, b, c, |a|, |b|);
    SpentSplits(charges, c, |a|, |b|, |c|);
  }

  /** One more entry that lost a reference, and was deleted if that was the last. */
  lemma FreesOne(charges: seq<nat>, before: seq<Node>, after: seq<Node>, was: nat, now: nat, e: Node, last: bool,
                 after': seq<Node>, now': nat)
    requires Freed(charges, before, after, was, now) && e < |charges|
    requires now == now' + (if last then charges[e] else 0) && after' == if last then after + [e] else after
    ensures Freed(charges, before, after', was, now')
  {
    SpentStays(charges, after, after', |before|, |after|);
  }

  lemma {:induction false} KeptIsLive(charges: seq<nat>, refs: seq<nat>, held: seq<nat>, list: seq<Node>, n: nat)
    requires RefsMatch(refs, held, list) && n <= |charges| && n <= |refs|
    ensures Live(charges, refs, n) == Kept(charges, held, list, n)
  {
    if n > 1 {
      KeptIsLive(charges, refs, held, list, n - 1);
    }
  }

  lemma {:induction false} LiveChanges(charges: seq<nat>, refs: seq<nat>, e: nat, r: nat, n: nat)
    requires n <= |charges| && n <= |refs| && 0 < e < |refs| && refs[e] > 0
    ensures e < n && r == 0 ==> Live(charges, refs[e := r], n) + charges[e] == Live(charges, refs, n)
    ensures e >= n || r > 0 ==> Live(charges, refs[e := r], n) == Live(charges, refs, n)
  {
    if n > 1 {
      LiveChanges(charges, refs, e, r, n - 1);
    }
  }

  lemma {:induction false} LiveGrows(charges: seq<nat>, refs: seq<nat>, c: nat, r: nat, n: nat)
    requires n <= |charges| && n <= |refs|
    ensures Live(charges + [c], refs + [r], n) == Live(charges, refs, n)
  {
    if n > 1 {
      LiveGrows(charges, refs, c, r, n - 1);
    }
  }

  ghost predicate SameMembers(list: seq<Node>, handles: set<Node>) {
    forall h :: h in list <==> h in handles
  }

  /** An entry is referenced once for each handle that callers hold, and once by the cache
      if it is cached. */
  ghost predicate RefsMatch(refs: seq<nat>, held: seq<nat>, list: seq<Node>) {
    |refs| == |held| && forall h :: 0 < h < |refs| ==> refs[h] == held[h] + if h in list then 1 else 0
  }

  /** The usage is the charge of the live entries, and the deleter has run once for each
      entry that nothing references, and for no other. */
  ghost predicate Accounted(usage: nat, charges: seq<nat>, refs: seq<nat>, deleted: seq<Node>) {
    && |charges| == |refs| && usage == Live(charges, refs, |refs|) && NoRepeats(deleted)
    && forall h :: 0 < h ==> (h in deleted <==> h < |refs| && refs[h] == 0)
  }

  lemma SameMembersMatch(refs: seq<nat>, held: seq<nat>, list: seq<Node>, list': seq<Node>)
    requires RefsMatch(refs, held, list) && forall h :: h in list <==> h in list'
    ensures RefsMatch(refs, held, list')
  {
  }

  lemma MembersSwapped(before: seq<Node>, handles: set<Node>, h: Node, old_: Node, after: seq<Node>,
                       handles': set<Node>)
    requires SameMembers(before, handles) && h != Null && h !in handles && Swapped(handles, old_, h, handles')
    requires Null !in handles && (old_ != Null ==> old_ in handles)
    requires forall g :: g in after <==> (g in before || g == h) && (old_ == Null || g != old_)
    ensures SameMembers(after, handles')
  {
  }

  lemma IndexIn(list: seq<Node>, e: Node) returns (j: nat)
    requires e in list
    ensures j < |list| && list[j] == e
  {
    j :| 0 <= j < |list| && list[j] == e;
  }

  /** A new entry with two references is live. */
  lemma NewIsAccounted(usage: nat, charges: seq<nat>, refs: seq<nat>, deleted: seq<Node>, charge: nat)
    requires Accounted(usage, charges, refs, deleted) && refs != []
    ensures Accounted(usage + charge, charges + [charge], refs + [2], deleted)
  {
    LiveGrows(charges, refs, charge, 2, |refs|);
    assert Live(charges + [charge], refs + [2], |refs| + 1) == Live(charges + [charge], refs + [2], |refs|) + charge;
  }

  /** Its references are the caller's handle and the cache. */
  lemma NewIsReferenced(refs: seq<nat>, held: seq<nat>, list: seq<Node>, h: Node)
    requires RefsMatch(refs, held, list) && h == |refs| && h !in list
    ensures RefsMatch(refs + [2], held + [1], list + [h])
  {
  }

  class LruCache {
    const capacity: nat
    const table: HandleTable
    var usage: nat
    var next: seq<Node>
    var prev: seq<Node>
    var charges: seq<nat>
    var refs: seq<nat>
    /** The entries whose deleter has been called, in that order. */
    var deleted: seq<Node>
    /** The cached entries, oldest first, and how many handles callers hold. */
    ghost var list: seq<Node>
    ghost var held: seq<nat>

    ghost predicate Valid()
      reads this, table
    {
      && table.Valid() && SameMembers(list, table.handles) && |table.keys| == |next|
      && Entries()
    }

    ghost predicate Entries()
      reads this
    {
      && |next| == |prev| == |charges| == |refs| == |held|
      && Ring(next, prev, list) && RefsMatch(refs, held, list) && Accounted(usage, charges, refs, deleted)
    }

    constructor (capacity: nat)
      ensures Valid() && fresh(table) && list == [] && usage == 0 && this.capacity == capacity && deleted == []
              && |held| == 1
    {
      this.capacity := capacity;
      table := new HandleTable();
      usage, next, prev, charges, refs, deleted := 0, [Null], [Null], [0], [0], [];
      list, held := [], [0];
      new;
      assert Live([0], [0], 1) == 0;
    }

    method LruRemove(e: Node, ghost k: nat)
      requires Ring(next, prev, list) && k < |list| && e == list[k]
      modifies `next, `prev, `list
      ensures Ring(next, prev, list) && list == RemoveAt(old(list), k) && |next| == |old(next)| && |prev| == |old(prev)|
    {
      RingUnlinks(next, prev, list, k);
      var after, before := next[e], prev[e];
      prev := prev[after := before];
      next := next[before := after];
      list := RemoveAt(list, k);
    }

    method LruAppend(e: Node)
      requires Ring(next, prev, list) && 0 < e < |next| && e < |prev| && e !in list
      modifies `next, `prev, `list
      ensures Ring(next, prev, list) && list == old(list) + [e] && |next| == |old(next)| && |prev| == |old(prev)|
    {
      RingAppends(next, prev, list, e);
      var last := prev[0];
      next := next[e := Null];
      prev := prev[e := last];
      next := next[last := e];
      prev := prev[0 := e];
      list := list + [e];
    }

    /** The last reference to go runs the deleter. */
    method Unref(e: Node)
      requires Accounted(usage, charges, refs, deleted) && 0 < e < |refs| && refs[e] > 0
      modifies `usage, `refs, `deleted
      ensures Accounted(usage, charges, refs, deleted) && refs == old(refs)[e := old(refs)[e] - 1]
      ensures deleted == if old(refs)[e] == 1 then old(deleted) + [e] else old(deleted)
      ensures usage + (if old(refs)[e] == 1 then charges[e] else 0) == old(usage)
    {
      LiveChanges(charges, refs, e, refs[e] - 1, |refs|);
      refs := refs[e := refs[e] - 1];
      if refs[e] == 0 {
        usage := usage - charges[e];
        deleted := deleted + [e];
      }
    }

    /** A hit becomes the newest entry and one more handle is out. */
    method Lookup(key: Key, hash: nat) returns (e: Node)
      requires Valid()
      modifies `refs, `next, `prev, `list, `held
      ensures Valid()
      ensures e == Null ==> table.NoneMatches(table.handles, key, hash) && list == old(list) && held == old(held)
      ensures e != Null ==>
                e in old(list) && e < |old(held)| && table.Matches(e, key, hash)
                && held == old(held)[e := old(held)[e] + 1]
      ensures e != Null ==> exists k ::
              0 <= k < |old(list)| && old(list)[k] == e && list == RemoveAt(old(list), k) + [e]
    {
      e := table.Lookup(key, hash);
      if e != Null {
        ghost var k :| 0 <= k < |list| && list[k] == e;
        Use(e, k);
      }
    }

    method Use(e: Node, ghost k: nat)
      requires Entries() && k < |list| && e == list[k]
      modifies `refs, `next, `prev, `list, `held
      ensures Entries() && |next| == |old(next)| && held == old(held)[e := old(held)[e] + 1]
              && list == RemoveAt(old(list), k) + [e]
      ensures forall h :: h in list <==> h in old(list)
    {
      RemovedNodes(list, k);
      TakeHandle(e);
      LruRemove(e, k);
      LruAppend(e);
      SameMembersMatch(refs, held, old(list), list);
    }

    /** One more handle is out. */
    method TakeHandle(e: Node)
      requires Accounted(usage, charges, refs, deleted) && RefsMatch(refs, held, list)
      requires 0 < e < |refs| && refs[e] > 0
      modifies `refs, `held
      ensures Accounted(usage, charges, refs, deleted) && RefsMatch(refs, held, list)
      ensures held == old(held)[e := old(held)[e] + 1]
    {
      LiveChanges(charges, refs, e, refs[e] + 1, |refs|);
      refs := refs[e := refs[e] + 1];
      held := held[e := held[e] + 1];
    }

    /** A caller gives a handle back. */
    method Release(e: Node)
      requires Valid() && 0 < e < |held| && held[e] > 0
      modifies `usage, `refs, `deleted, `held
      ensures Valid() && held == old(held)[e := old(held)[e] - 1] && list == old(list)
      ensures deleted == if held[e] == 0 && e !in list then old(deleted) + [e] else old(deleted)
      ensures usage + (if held[e] == 0 && e !in list then charges[e] else 0) == old(usage)
    {
      Unref(e);
      held := held[e := held[e] - 1];
    }

    /** An entry that is no longer in the table leaves the list and loses the cache's reference. */
    method Drop(e: Node, ghost k: nat)
      requires Entries() && k < |list| && e == list[k]
      modifies `next, `prev, `list, `usage, `refs, `deleted
      ensures Entries() && list == RemoveAt(old(list), k) && |next| == |old(next)|
      ensures forall h :: h in list <==> h in old(list) && h != e
      ensures deleted == if held[e] == 0 then old(deleted) + [e] else old(deleted)
      ensures usage + (if held[e] == 0 then charges[e] else 0) == old(usage)
    {
      RemovedNodes(list, k);
      LruRemove(e, k);
      Unref(e);
    }

    method Erase(key: Key, hash: nat)
      requires Valid()
      modifies `next, `prev, `list, `usage, `refs, `deleted
      modifies table`nextHash, table`heads, table`elems, table`chains, table`handles
      ensures Valid()
      ensures forall h :: h in list <==> h in old(list) && !table.Matches(h, key, hash)
      ensures list == old(list) || exists k :: 0 <= k < |old(list)| && list == RemoveAt(old(list), k)
      ensures Freed(charges, old(deleted), deleted, old(usage), usage)
    {
      var e := table.Remove(key, hash);
      if e != Null {
        ghost var k :| 0 <= k < |list| && list[k] == e;
        Drop(e, k);
        FreesOne(charges, old(deleted), old(deleted), old(usage), old(usage), e, held[e] == 0, deleted, usage);
      }
    }

    /** Room for a new entry, with the two references it will have. */
    method GrowEntries(h: Node, charge: nat)
      requires Entries() && h == |next|
      modifies `next, `prev, `usage, `refs, `charges, `held
      ensures |next| == |prev| == |charges| == |refs| == |held| == h + 1
      ensures Ring(next, prev, list) && Accounted(usage, charges, refs, deleted)
      ensures refs == old(refs) + [2] && held == old(held) + [1]
      ensures charges == old(charges) + [charge] && usage == old(usage) + charge
    {
      RingGrows(next, prev, list);
      NewIsAccounted(usage, charges, refs, deleted, charge);
      next, prev := next + [Null], prev + [Null];
      charges, refs, held := charges + [charge], refs + [2], held + [1];
      usage := usage + charge;
    }

    /** A new entry is the newest, and is referenced by the cache and by the caller. */
    method NewEntry(h: Node, charge: nat)
      requires Entries() && h == |next|
      modifies `next, `prev, `list, `usage, `refs, `charges, `held
      ensures Entries() && |next| == h + 1 && list == old(list) + [h] && held == old(held) + [1]
      ensures charges == old(charges) + [charge] && usage == old(usage) + charge
    {
      NewIsReferenced(refs, held, list, h);
      GrowEntries(h, charge);
      LruAppend(h);
    }

    /** What is counted is what is cached or held. */
    lemma UsageIs()
      requires Entries()
      ensures usage == Usage(charges, held, list)
    {
      KeptIsLive(charges, refs, held, list, |held|);
    }

    /** Oldest entries go until the rest fits, or none is left, and no longer. */
    method Evict() returns (ghost k: nat)
      requires Valid()
      modifies `next, `prev, `list, `usage, `refs, `deleted
      modifies table`nextHash, table`heads, table`elems, table`chains, table`handles
      ensures Valid() && (usage <= capacity || list == [])
      ensures k <= |old(list)| && list == old(list)[k..] && TooMuchBefore(capacity, charges, held, old(list), k)
      ensures Freed(charges, old(deleted), deleted, old(usage), usage)
    {
      k := 0;
      while usage > capacity && next[0] != Null
        invariant Valid() && k <= |old(list)| && list == old(list)[k..]
        invariant TooMuchBefore(capacity, charges, held, old(list), k)
        invariant Freed(charges, old(deleted), deleted, old(usage), usage)
        decreases |list|
      {
        RingStarts(next, prev, list);
        UsageIs();
        OneMoreTooMuch(capacity, charges, held, old(list), k, k + 1, list);
        EvictOldest(old(deleted), old(usage));
        k := k + 1;
      }
      RingStarts(next, prev, list);
    }

    /** The oldest entry goes; `before` and `was` are what was deleted and used earlier. */
    method EvictOldest(ghost before: seq<Node>, ghost was: nat)
      requires Valid() && list != [] && Freed(charges, before, deleted, was, usage)
      modifies `next, `prev, `list, `usage, `refs, `deleted
      modifies table`nextHash, table`heads, table`elems, table`chains, table`handles
      ensures Valid() && list == old(list)[1..] && Freed(charges, before, deleted, was, usage)
      ensures deleted == if held[old(list)[0]] == 0 then old(deleted) + [old(list)[0]] else old(deleted)
    {
      RingStarts(next, prev, list);
      var e := next[0];
      assert e in list && table.Same(e, e);
      var removed := table.Remove(table.keys[e], table.hashes[e]);
      assert removed == e;
      Drop(e, 0);
      FreesOne(charges, before, old(deleted), was, old(usage), e, held[e] == 0, deleted, usage);
    }

    /** The entry replaces one with the same key, then old entries make room: `base` is the
        list before that, of which the `k` oldest entries go, and no more than are in the way. */
    method Insert(key: Key, hash: nat, charge: nat) returns (h: Node, ghost base: seq<Node>, ghost k: nat)
      requires Valid()
      modifies this, table
      ensures Valid() && (usage <= capacity || list == [])
      ensures h == |old(held)| && held == old(held) + [1] && charges == old(charges) + [charge]
      ensures table.keys == old(table.keys) + [key] && table.hashes == old(table.hashes) + [hash]
      ensures k <= |base| && list == base[k..] && TooMuchBefore(capacity, charges, held, base, k)
      ensures Replaces(base, old(list) + [h], key, hash)
      ensures forall g :: g in base && g != h ==> !table.Matches(g, key, hash)
      ensures usage == Usage(charges, held, list)
      ensures Freed(charges, old(deleted), deleted, old(usage) + charge, usage)
    {
      h := PutNewest(key, hash, charge);
      base := list;
      ghost var gone, before := deleted, usage;
      k := Evict();
      FreedInTurn(charges, old(deleted), gone, deleted, old(usage) + charge, before, usage);
      UsageIs();
    }

    /** `base` is `all`, perhaps without one entry before the last that had the key. */
    ghost predicate Replaces(base: seq<Node>, all: seq<Node>, key: Key, hash: nat)
      reads table
    {
      base == all || exists j :: 0 <= j < |all| - 1 && table.Matches(all[j], key, hash) && base == RemoveAt(all, j)
    }

    /** The new entry in the list, not yet in the table. */
    method AddNewest(key: Key, hash: nat, charge: nat) returns (h: Node)
      requires Valid()
      modifies this, table
      ensures Entries() && table.Valid() && |table.keys| == |next| == h + 1
      ensures table.handles == old(table.handles) && SameMembers(old(list), table.handles)
      ensures h !in table.handles && Null !in table.handles
      ensures h == |old(held)| && held == old(held) + [1] && list == old(list) + [h]
      ensures charges == old(charges) + [charge] && usage == old(usage) + charge && deleted == old(deleted)
      ensures table.keys == old(table.keys) + [key] && table.hashes == old(table.hashes) + [hash]
    {
      h := table.AddHandle(key, hash);
      NewEntry(h, charge);
    }

    method PutNewest(key: Key, hash: nat, charge: nat) returns (h: Node)
      requires Valid()
      modifies this, table
      ensures Valid()
      ensures h == |old(held)| && held == old(held) + [1] && charges == old(charges) + [charge]
      ensures Freed(charges, old(deleted), deleted, old(usage) + charge, usage)
      ensures table.keys == old(table.keys) + [key] && table.hashes == old(table.hashes) + [hash]
      ensures Replaces(list, old(list) + [h], key, hash)
      ensures forall g :: g in list && g != h ==> !table.Matches(g, key, hash)
    {
      h := AddNewest(key, hash, charge);
      PutInTable(h, old(list));
    }

    /** The newest entry goes into the table, and what had its key goes out of the list. */
    method PutInTable(h: Node, ghost before: seq<Node>)
      requires Entries() && table.Valid() && 0 < h && |table.keys| == |next| == h + 1
      requires list == before + [h] && SameMembers(before, table.handles)
      requires h !in table.handles && Null !in table.handles
      modifies table`nextHash, table`heads, table`elems, table`chains, table`handles
      modifies `next, `prev, `list, `usage, `refs, `deleted
      ensures Valid() && |next| == h + 1 && Freed(charges, old(deleted), deleted, old(usage), usage)
      ensures Replaces(list, before + [h], table.keys[h], table.hashes[h]) && NoOtherListed(h)
    {
      ghost var handles := table.handles;
      var old_ := table.Insert(h);
      if old_ != Null {
        ghost var j := IndexIn(list, old_);
        Drop(old_, j);
        FreesOne(charges, old(deleted), old(deleted), old(usage), old(usage), old_, held[old_] == 0, deleted, usage);
        assert table.Matches((before + [h])[j], table.keys[h], table.hashes[h]);
      }
      MembersSwapped(before, handles, h, old_, list, table.handles);
    }

    ghost predicate NoOtherListed(h: Node)
      requires h < |table.keys| && table.Valid()
      reads this, table
    {
      forall g :: g in list && g != h ==> !table.Matches(g, table.keys[h], table.hashes[h])
    }
  }
}
