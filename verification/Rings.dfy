/** Doubly linked rings with a dummy head, as the cache (util/cache.cc) and the list of
    snapshots (db/snapshot.h) use them. */
module Rings {
  import opened Chains

  /** Doubly linked, with 0 as the dummy head on both ends: `prev` leads back. */
  ghost predicate BackLinks(prev: seq<Node>, list: seq<Node>) {
    && prev != []
    && (forall k :: 0 <= k < |list| ==> 0 < list[k] < |prev|)
    && (forall k :: 0 <= k <= |list| ==> prev[At(list, k)] == Before(list, k))
  }

  ghost predicate Ring(next: seq<Node>, prev: seq<Node>, list: seq<Node>) {
    Links(next, list) && BackLinks(prev, list) && NoRepeats(list)
  }

  lemma RingUnlinks(next: seq<Node>, prev: seq<Node>, list: seq<Node>, k: nat)
    requires Ring(next, prev, list) && k < |list|
    ensures var e := list[k];
            && next[e] == At(list, k + 1) && prev[e] == Before(list, k) && next[e] < |prev| && prev[e] < |next|
            && Ring(next[prev[e] := next[e]], prev[next[e] := prev[e]], RemoveAt(list, k))
  {
    var e, list' := list[k], RemoveAt(list, k);
    StoreUnlinks(next, list, k);
    RemovedNodes(list, k);
    assert At(list, k) == e;
    assert prev[e] == Before(list, k);
    var prev' := prev[next[e] := prev[e]];
    forall j | 0 <= j <= |list'|
      ensures prev'[At(list', j)] == Before(list', j)
    {
      if j < k {
        assert At(list', j) == At(list, j) && Before(list', j) == Before(list, j);
        assert At(list, j) != At(list, k + 1);
      } else if j > k {
        assert At(list', j) == At(list, j + 1) && Before(list', j) == Before(list, j + 1);
        assert At(list, j + 1) != At(list, k + 1);
      }
    }
  }

  /** The new node goes just before the dummy head, which is the newest place. */
  lemma RingAppends(next: seq<Node>, prev: seq<Node>, list: seq<Node>, e: Node)
    requires Ring(next, prev, list) && 0 < e < |next| && e < |prev| && e !in list
    ensures var last := prev[0];
            && last == Before(list, |list|) && last < |next|
            && Ring(next[e := Null][last := e], prev[e := last][0 := e], list + [e])
  {
    var n, list' := |list|, list + [e];
    assert prev[At(list, n)] == Before(list, n);
    var last := prev[0];
    var next', prev' := next[e := Null][last := e], prev[e := last][0 := e];
    forall j | 0 <= j <= |list'|
      ensures next'[Before(list', j)] == At(list', j) && prev'[At(list', j)] == Before(list', j)
    {
      assert j > 0 && j <= n ==> list[j - 1] in list;
      assert j < n ==> list[j] in list;
      if j < n {
        assert Before(list', j) == Before(list, j) && At(list', j) == At(list, j);
        assert Before(list, j) != Before(list, n);
      } else if j == n {
        assert Before(list', j) == last;
      }
    }
  }

  lemma RingStarts(next: seq<Node>, prev: seq<Node>, list: seq<Node>)
    requires Ring(next, prev, list)
    ensures next[0] == if list == [] then Null else list[0]
    ensures list != [] ==> list[0] != Null
  {
    assert next[Before(list, 0)] == At(list, 0);
  }

  lemma RingGrows(next: seq<Node>, prev: seq<Node>, list: seq<Node>)
    requires Ring(next, prev, list)
    ensures Ring(next + [Null], prev + [Null], list)
  {
    forall k | 0 <= k <= |list|
      ensures (next + [Null])[Before(list, k)] == At(list, k) && (prev + [Null])[At(list, k)] == Before(list, k)
    {
    }
  }
}
