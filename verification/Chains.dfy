/** Singly linked chains over indices, as the skip list, the hash table and the cache's
    recency list use them. */
module Chains {
  /** A node is its index; 0 stands for the head of a chain, and as a successor for its end. */
  type Node = nat
  const Head: Node := 0
  const Null: Node := 0

  function At(list: seq<Node>, k: nat): Node {
    if k < |list| then list[k] else Null
  }

  /** The node before place `k` of a list. */
  function Before(list: seq<Node>, k: nat): Node
    requires k <= |list|
  {
    if k == 0 then Head else list[k - 1]
  }

  /** `row` links the nodes of `list`, from the head to NULL. */
  ghost predicate Links(row: seq<Node>, list: seq<Node>) {
    && row != []
    && (forall k :: 0 <= k < |list| ==> 0 < list[k] < |row|)
    && (forall k :: 0 <= k <= |list| ==> row[Before(list, k)] == At(list, k))
  }

  ghost predicate NoRepeats(list: seq<Node>) {
    forall i, j :: 0 <= i < j < |list| ==> list[i] != list[j]
  }

  function InsertAt(list: seq<Node>, k: nat, x: Node): seq<Node>
    requires k <= |list|
  {
    list[..k] + [x] + list[k..]
  }

  /** One store into the predecessor splices a prepared node in. */
  lemma StoreSplices(row: seq<Node>, list: seq<Node>, k: nat, x: Node)
    requires Links(row, list) && k <= |list| && 0 < x < |row| && x !in list
    requires NoRepeats(list)
    requires row[x] == At(list, k)
    ensures Links(row[Before(list, k) := x], InsertAt(list, k, x))
  {
    var row', list' := row[Before(list, k) := x], InsertAt(list, k, x);
    forall j | 0 <= j <= |list'|
      ensures row'[Before(list', j)] == At(list', j)
    {
      if j < k {
        assert Before(list', j) == Before(list, j) && At(list', j) == At(list, j);
        assert Before(list, j) != Before(list, k);
      } else if j > k + 1 {
        assert Before(list', j) == Before(list, j - 1) && At(list', j) == At(list, j - 1);
        assert Before(list, j - 1) != Before(list, k);
      }
    }
  }

  lemma InsertedNodes(list: seq<Node>, k: nat, x: Node)
    requires k <= |list|
    ensures forall n :: n in InsertAt(list, k, x) <==> n in list || n == x
  {
    assert list == list[..k] + list[k..];
  }

  function RemoveAt(list: seq<Node>, k: nat): seq<Node>
    requires k < |list|
  {
    list[..k] + list[k + 1..]
  }

  /** One store into the predecessor takes a node out. */
  lemma StoreUnlinks(row: seq<Node>, list: seq<Node>, k: nat)
    requires Links(row, list) && k < |list| && NoRepeats(list)
    ensures row[list[k]] == At(list, k + 1)
    ensures Links(row[Before(list, k) := row[list[k]]], RemoveAt(list, k))
  {
    var list' := RemoveAt(list, k);
    var row' := row[Before(list, k) := row[list[k]]];
    assert Before(list, k + 1) == list[k];
    forall j | 0 <= j <= |list'|
      ensures row'[Before(list', j)] == At(list', j)
    {
      if j < k {
        assert Before(list', j) == Before(list, j) && At(list', j) == At(list, j);
        assert Before(list, j) != Before(list, k);
      } else if j > k {
        assert Before(list', j) == Before(list, j + 1) && At(list', j) == At(list, j + 1);
        assert Before(list, j + 1) != Before(list, k);
      }
    }
  }

  lemma RemovedNodes(list: seq<Node>, k: nat)
    requires k < |list| && NoRepeats(list)
    ensures NoRepeats(RemoveAt(list, k))
    ensures forall n :: n in RemoveAt(list, k) <==> n in list && n != list[k]
  {
    assert list == list[..k] + [list[k]] + list[k + 1..];
  }

  lemma InsertedOnce(list: seq<Node>, k: nat, x: Node)
    requires k <= |list| && NoRepeats(list) && x !in list
    ensures NoRepeats(InsertAt(list, k, x))
  {
  }
}
