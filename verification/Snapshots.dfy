/** The list of live snapshots (db/snapshot.h). */
module Snapshots {
  import opened Chains
  import opened Rings

  /** The numbers rise along the ring, as sequence numbers do over time. */
  ghost predicate Rises(numbers: seq<nat>, list: seq<Node>) {
    && (forall k :: 0 <= k < |list| ==> list[k] < |numbers|)
    && (forall i, j :: 0 <= i < j < |list| ==> numbers[list[i]] <= numbers[list[j]])
  }

  lemma RisesOn(numbers: seq<nat>, list: seq<Node>, number: nat)
    requires Rises(numbers, list) && forall x :: x in list ==> numbers[x] <= number
    ensures |numbers| !in list && Rises(numbers + [number], list + [|numbers|])
  {
    assert forall k :: 0 <= k < |list| ==> list[k] in list;
  }

  /** A snapshot is a node of the ring; node 0 is the dummy head. */
  class SnapshotList {
    var next: seq<Node>
    var prev: seq<Node>
    var numbers: seq<nat>
    ghost var list: seq<Node>

    ghost predicate Valid()
      reads this
    {
      Ring(next, prev, list) && |next| == |prev| == |numbers| && Rises(numbers, list)
    }

    constructor ()
      ensures Valid() && list == []
    {
      next, prev, numbers, list := [Null], [Head], [0], [];
    }

    method IsEmpty() returns (empty: bool)
      requires Valid()
      ensures empty <==> list == []
    {
      RingStarts(next, prev, list);
      empty := next[Head] == Head;
    }

    /** The oldest snapshot has the least number of all. */
    method Oldest() returns (s: Node)
      requires Valid() && list != []
      ensures s in list && forall x :: x in list ==> numbers[s] <= numbers[x]
    {
      RingStarts(next, prev, list);
      s := next[Head];
    }

    method New(number: nat) returns (s: Node)
      requires Valid() && forall x :: x in list ==> numbers[x] <= number
      modifies this
      ensures Valid() && s !in old(list) && list == old(list) + [s]
      ensures numbers == old(numbers) + [number] && s == |old(numbers)|
    {
      s := |numbers|;
      RisesOn(numbers, list, number);
      RingGrows(next, prev, list);
      next, prev, numbers := next + [Null], prev + [Null], numbers + [number];
      Link(s);
    }

    method Link(s: Node)
      requires Ring(next, prev, list) && 0 < s < |next| == |prev| && s !in list
      modifies `next, `prev, `list
      ensures Ring(next, prev, list) && list == old(list) + [s] && |next| == |prev| == |old(next)|
    {
      RingAppends(next, prev, list, s);
      var last := prev[Head];
      next := next[s := Head];
      prev := prev[s := last];
      next := next[last := s];
      prev := prev[Head := s];
      list := list + [s];
    }

    /** Any snapshot may be released, in any order. */
    method Delete(s: Node, ghost k: nat)
      requires Valid() && k < |list| && s == list[k]
      modifies `next, `prev, `list
      ensures Valid() && list == RemoveAt(old(list), k)
    {
      RingUnlinks(next, prev, list, k);
      var after, before := next[s], prev[s];
      next := next[before := after];
      prev := prev[after := before];
      list := RemoveAt(list, k);
    }
  }
}
