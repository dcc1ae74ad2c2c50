/** The skip list (db/skiplist.h).  Insertion is taken apart into its single stores, so
    that a reader may run between any two of them. */
module SkipLists {
  import opened Chains

  const MaxHeight: nat := 12

  /** The comparator looks at keys only to order them. */
  type Key = real

  ghost predicate Ascends(keys: seq<Key>, list: seq<Node>) {
    && (forall k :: 0 <= k < |list| ==> 0 < list[k] < |keys|)
    && forall j, k :: 0 <= j < k < |list| ==> keys[list[j]] < keys[list[k]]
  }

  lemma SpliceAscends(keys: seq<Key>, list: seq<Node>, k: nat, x: Node)
    requires Ascends(keys, list) && k <= |list| && 0 < x < |keys|
    requires forall j :: 0 <= j < k ==> keys[list[j]] < keys[x]
    requires forall j :: k <= j < |list| ==> keys[x] < keys[list[j]]
    ensures Ascends(keys, InsertAt(list, k, x))
  {
  }

  predicate IsBefore(keys: seq<Key>, n: Node, target: Key) {
    n < |keys| && keys[n] < target
  }

  predicate IsAtOrAfter(keys: seq<Key>, n: Node, target: Key) {
    n < |keys| && keys[n] >= target
  }

  /** Place `k` is the first of an ascending list whose key is at or after `target`. */
  ghost predicate Splits(keys: seq<Key>, list: seq<Node>, target: Key, k: nat) {
    && k <= |list|
    && (forall j :: 0 <= j < k ==> IsBefore(keys, list[j], target))
    && (forall j :: k <= j < |list| ==> IsAtOrAfter(keys, list[j], target))
  }

  /** `x` is the node before place `k` of a list, and comes before `target`. */
  ghost predicate StandsAt(keys: seq<Key>, list: seq<Node>, x: Node, k: nat, target: Key) {
    k <= |list| && x == Before(list, k) && forall j :: 0 <= j < k ==> IsBefore(keys, list[j], target)
  }

  /** `p` is the last node of the list before `target`. */
  ghost predicate IsPrev(keys: seq<Key>, list: seq<Node>, target: Key, p: Node) {
    exists k: nat :: Splits(keys, list, target, k) && p == Before(list, k)
  }

  /** `n` is the first node of the list at or after `target`, or NULL. */
  ghost predicate IsFirst(keys: seq<Key>, list: seq<Node>, target: Key, n: Node) {
    exists k: nat :: Splits(keys, list, target, k) && n == At(list, k)
  }

  ghost predicate Within(a: seq<Node>, b: seq<Node>) {
    forall n :: n in a ==> n in b
  }

  ghost predicate Contains(keys: seq<Key>, list: seq<Node>, key: Key) {
    exists k :: 0 <= k < |list| && Holds(keys, list[k], key)
  }

  predicate Holds(keys: seq<Key>, n: Node, key: Key) {
    n < |keys| && keys[n] == key
  }

  predicate IsReady(row: seq<Node>, x: Node, prev: Node) {
    x < |row| && prev < |row| && row[x] == row[prev]
  }

  /** Where an insertion stands: its node, the level it links next, and whether the node's
      own link for that level is set. */
  datatype Pending = None | Inserting(x: Node, prev: seq<Node>, level: nat, ready: bool)

  /** A step of the writer, with the key and the height of the insertion it may begin. */
  datatype Step = Step(key: Key, height: nat)

  predicate AllHeights(steps: seq<Step>) {
    forall i :: 0 <= i < |steps| ==> 1 <= steps[i].height <= MaxHeight
  }

  /** How many steps a script makes before load `n`, and none once it has ended. */
  function StepsTo(script: seq<seq<Step>>, n: nat): nat {
    if n == 0 then 0 else StepsTo(script, n - 1) + if n <= |script| then |script[n - 1]| else 0
  }

  class SkipList {
    var keys: seq<Key>
    var heights: seq<nat>
    /** next[level][node]; a node has links up to its height only. */
    var next: seq<seq<Node>>
    var maxHeight: nat
    var pending: Pending
    /** The nodes of each level, in order. */
    ghost var lists: seq<seq<Node>>
    /** How many steps the writer took while readers searched. */
    ghost var steps: nat

    ghost predicate Valid()
      reads this
    {
      Shaped() && (pending.Inserting? ==> ValidPending())
    }

    /** Every level is linked, ascending, and part of the level below. */
    ghost predicate Shaped()
      reads `keys, `heights, `next, `maxHeight, `lists
    {
      && |next| == |lists| == MaxHeight && |keys| == |heights| > 0 && heights[Head] == MaxHeight
      && 1 <= maxHeight <= MaxHeight
      && (forall l :: 0 <= l < MaxHeight ==> ValidLevel(l))
      && (forall l :: maxHeight <= l < MaxHeight ==> lists[l] == [])
      && (forall l {:trigger Within(lists[l], lists[l - 1])} :: 1 <= l < MaxHeight ==> Within(lists[l], lists[l - 1]))
    }

    ghost predicate ValidLevel(l: nat)
      requires l < |next| && l < |lists| && |keys| == |heights|
      reads `keys, `heights, `next, `lists
    {
      && |next[l]| == |keys| && Ascends(keys, lists[l]) && Links(next[l], lists[l])
      && forall n :: n in lists[l] ==> l < heights[n]
    }

    /** The new node is in the levels it has been linked into, and for the others its
        predecessor is known. */
    ghost predicate ValidPending()
      requires pending.Inserting? && Shaped()
      reads this
    {
      var x := pending.x;
      && 0 < x < |keys| && pending.level < heights[x] <= |pending.prev| && heights[x] <= maxHeight
      && (pending.ready ==> IsReady(next[pending.level], x, pending.prev[pending.level]))
      && (forall l :: 0 <= l < pending.level ==> x in lists[l])
      && (forall l :: pending.level <= l < heights[x] ==> IsPrev(keys, lists[l], keys[x], pending.prev[l]))
      && (forall l, n :: pending.level <= l < heights[x] && n in lists[l] ==> keys[n] != keys[x])
    }

    /** The keys that have been published. */
    ghost predicate Published(key: Key)
      requires Shaped()
      reads this
    {
      Contains(keys, lists[0], key)
    }

    constructor ()
      ensures Valid() && pending.None? && lists[0] == [] && maxHeight == 1
    {
      keys, heights, maxHeight, pending := [0.0], [MaxHeight], 1, None;
      next := seq(MaxHeight, _ => [Null]);
      lists := seq(MaxHeight, _ => []);
    }

    // Readers

    /** Node::Next, which may be asked only of a node that is high enough. */
    function Next(n: Node, level: nat): Node
      requires |next| == MaxHeight && n < |keys| == |heights| && level < heights[n] && level < MaxHeight
               && |next[level]| == |keys|
      reads this
    {
      next[level][n]
    }

    /** A reader's place: a node of the level, or the head, before the key it looks for. */
    ghost predicate AtPlace(level: nat, x: Node, k: nat, key: Key)
      requires Shaped() && level < MaxHeight
      reads this
    {
      StandsAt(keys, lists[level], x, k, key)
    }

    /** Stepping down a level keeps the place, since the level below has every node. */
    lemma StepDown(level: nat, x: Node, k: nat, key: Key) returns (k': nat)
      requires Shaped() && 1 <= level < MaxHeight && AtPlace(level, x, k, key)
      ensures AtPlace(level - 1, x, k', key)
    {
      if k == 0 {
        k' := 0;
      } else {
        assert Within(lists[level], lists[level - 1]) && x in lists[level];
        var j :| 0 <= j < |lists[level - 1]| && lists[level - 1][j] == x;
        k' := j + 1;
        assert ValidLevel(level - 1);
      }
    }

    /** One step of a search: a load and a comparison (KeyIsAfterNode).  At level 0 a step
        that does not advance has found the answer for the list as it is now. */
    method Load(x: Node, level: nat, key: Key, ghost k: nat) returns (n: Node, after: bool)
      requires Shaped() && level < MaxHeight && AtPlace(level, x, k, key)
      ensures after ==> k < |lists[level]| && AtPlace(level, n, k + 1, key)
      ensures !after ==> Splits(keys, lists[level], key, k) && n == At(lists[level], k)
    {
      assert ValidLevel(level);
      n := Next(x, level);
      after := n != Null && keys[n] < key;
    }

    /** FindGreaterOrEqual from whatever height the reader happened to load.  `prev` lists
        the last node before the key for each level it went through. */
    method FindGreaterOrEqual(key: Key, height: nat) returns (node: Node, prev: seq<Node>)
      requires Shaped() && 1 <= height <= MaxHeight
      ensures IsFirst(keys, lists[0], key, node)
      ensures |prev| == height && forall l :: 0 <= l < height ==> IsPrev(keys, lists[l], key, prev[l])
    {
      var x, level := Head, height - 1;
      ghost var k := 0;
      prev := [];
      assert ValidLevel(level);
      while true
        invariant 0 <= level < height && |prev| == height - 1 - level && AtPlace(level, x, k, key)
        invariant forall l :: level < l < height ==> IsPrev(keys, lists[l], key, prev[l - level - 1])
        decreases level, |lists[level]| - k
      {
        var n, after := Load(x, level, key, k);
        if after {
          x := n;
          k := k + 1;
        } else {
          prev := [x] + prev;
          if level == 0 {
            return n, prev;
          }
          k := StepDown(level, x, k, key);
          level := level - 1;
        }
      }
    }

    /** FindLessThan: the last node before the key, or the head. */
    method FindLessThan(key: Key) returns (x: Node)
      requires Shaped()
      ensures IsPrev(keys, lists[0], key, x)
    {
      var level := maxHeight - 1;
      ghost var k := 0;
      x := Head;
      while true
        invariant 0 <= level < MaxHeight && AtPlace(level, x, k, key)
        decreases level, |lists[level]| - k
      {
        var n, after := Load(x, level, key, k);
        if !after {
          if level == 0 { return; }
          k := StepDown(level, x, k, key);
          level := level - 1;
        } else {
          x, k := n, k + 1;
        }
      }
    }

    /** FindLast: the last node, or the head of an empty list. */
    method FindLast() returns (x: Node)
      requires Shaped()
      ensures x == Before(lists[0], |lists[0]|)
    {
      var level := maxHeight - 1;
      ghost var k: nat := 0;
      x := Head;
      while true
        invariant 0 <= level < MaxHeight && k <= |lists[level]| && x == Before(lists[level], k)
        decreases level, |lists[level]| - k
      {
        assert ValidLevel(level);
        var n := Next(x, level);
        assert n == At(lists[level], k);
        if n == Null {
          if level == 0 { return; }
          k := StepDownAny(level, x, k);
          level := level - 1;
        } else {
          x, k := n, k + 1;
        }
      }
    }

    lemma StepDownAny(level: nat, x: Node, k: nat) returns (k': nat)
      requires Shaped() && 1 <= level < MaxHeight && k <= |lists[level]| && x == Before(lists[level], k)
      ensures k' <= |lists[level - 1]| && x == Before(lists[level - 1], k')
    {
      if k == 0 {
        k' := 0;
      } else {
        assert Within(lists[level], lists[level - 1]) && x in lists[level];
        var j :| 0 <= j < |lists[level - 1]| && lists[level - 1][j] == x;
        k' := j + 1;
      }
    }

    /** Iterator::Prev searches for the node before, there being no links back. */
    method Prev(node: Node, ghost k: nat) returns (p: Node)
      requires Shaped() && k < |lists[0]| && node == lists[0][k]
      ensures p == if k == 0 then Null else lists[0][k - 1]
    {
      assert ValidLevel(0);
      p := FindLessThan(keys[node]);
      assert Splits(keys, lists[0], keys[node], k);
      if p == Head {
        p := Null;
      }
    }

    // The writer, one store at a time

    /** Published nodes stay published, with their keys. */
    twostate predicate Grew()
      reads this
    {
      Extends(old(keys), old(lists), keys, lists)
    }

    static ghost predicate Extends(keys: seq<Key>, lists: seq<seq<Node>>, keys': seq<Key>, lists': seq<seq<Node>>) {
      && |keys| <= |keys'| && keys'[..|keys|] == keys
      && |lists'| == |lists| && forall l :: 0 <= l < |lists| ==> Within(lists[l], lists'[l])
    }

    static lemma ExtendsOn(keys: seq<Key>, lists: seq<seq<Node>>, keys': seq<Key>, lists': seq<seq<Node>>,
                           keys'': seq<Key>, lists'': seq<seq<Node>>)
      requires Extends(keys, lists, keys', lists') && Extends(keys', lists', keys'', lists'')
      ensures Extends(keys, lists, keys'', lists'')
    {
      assert keys == keys'[..|keys|] == keys''[..|keys'|][..|keys|] == keys''[..|keys|];
      forall l | 0 <= l < |lists| ensures Within(lists[l], lists''[l]) {
        assert Within(lists[l], lists'[l]) && Within(lists'[l], lists''[l]);
      }
    }

    /** A reader that was at its place before the writer's stores still is, so it may go on:
        what it finds is the answer at the time of its last load. */
    lemma ReaderSurvives(ranks: seq<Key>, before: seq<seq<Node>>, level: nat, x: Node, k: nat, key: Key)
      returns (k': nat)
      requires Shaped() && level < MaxHeight && |before| == MaxHeight && Extends(ranks, before, keys, lists)
      requires Ascends(ranks, before[level]) && StandsAt(ranks, before[level], x, k, key)
      ensures AtPlace(level, x, k', key)
    {
      if k == 0 {
        k' := 0;
      } else {
        assert Within(before[level], lists[level]) && x in before[level];
        var j :| 0 <= j < |lists[level]| && lists[level][j] == x;
        k' := j + 1;
        assert ValidLevel(level);
        assert keys[x] == keys[..|ranks|][x] == ranks[x];
      }
    }

    method RaiseHeight(height: nat)
      requires Shaped() && pending.None? && maxHeight < height <= MaxHeight
      modifies `maxHeight
      ensures Shaped() && maxHeight == height
    {
      maxHeight := height;
      assert forall l :: 0 <= l < MaxHeight ==> old(ValidLevel(l)) ==> ValidLevel(l);
    }

    /** One more node is in no level, and leaves what is there in order. */
    lemma LevelsGrow(key: Key)
      requires Shaped() && !Published(key)
      ensures forall l :: 0 <= l < MaxHeight ==>
              Links(next[l] + [Null], lists[l]) && Ascends(keys + [key], lists[l]) && HasNot(lists[l], key)
    {
      forall l | 0 <= l < MaxHeight
        ensures Links(next[l] + [Null], lists[l]) && Ascends(keys + [key], lists[l]) && HasNot(lists[l], key)
      {
        assert ValidLevel(l);
        forall n | n in lists[l] ensures n < |keys| && keys[n] != key {
          HasOtherKey(l, n, key);
        }
      }
    }

    ghost predicate HasNot(list: seq<Node>, key: Key)
      reads `keys
    {
      forall n :: n in list ==> n < |keys| && keys[n] != key
    }

    lemma PrevsStay(key: Key, height: nat, prev: seq<Node>)
      requires Shaped() && height <= MaxHeight && height <= |prev|
      requires forall l :: 0 <= l < height ==> IsPrev(keys, lists[l], key, prev[l])
      ensures forall l :: 0 <= l < height ==> IsPrev(keys + [key], lists[l], key, prev[l])
    {
      forall l | 0 <= l < height
        ensures IsPrev(keys + [key], lists[l], key, prev[l])
      {
        var k: nat :| Splits(keys, lists[l], key, k) && prev[l] == Before(lists[l], k);
        assert Splits(keys + [key], lists[l], key, k);
      }
    }

    /** The node exists, but no link leads to it. */
    method NewNode(key: Key, height: nat, prev: seq<Node>)
      requires Shaped() && pending.None? && 1 <= height <= maxHeight && height <= |prev|
      requires forall l :: 0 <= l < height ==> IsPrev(keys, lists[l], key, prev[l])
      requires !Published(key)
      modifies `keys, `heights, `next, `pending
      ensures Valid() && Grew()
      ensures pending == Inserting(|old(keys)|, prev, 0, false) && keys == old(keys) + [key]
              && heights == old(heights) + [height]
    {
      LevelsGrow(key);
      PrevsStay(key, height, prev);
      var x := |keys|;
      ghost var rows := next;
      keys, heights := keys + [key], heights + [height];
      next := WithNode(next);
      pending := Inserting(x, prev, 0, false);
      assert forall l :: 0 <= l < MaxHeight ==> next[l] == rows[l] + [Null];
      forall l | 0 <= l < MaxHeight
        ensures ValidLevel(l)
      {
        assert old(ValidLevel(l));
      }
    }

    lemma HasOtherKey(l: nat, n: Node, key: Key)
      requires Shaped() && l < MaxHeight && n in lists[l] && !Published(key)
      ensures n < |keys| && keys[n] != key
    {
      AllInBottom(l, n);
      var k :| 0 <= k < |lists[0]| && lists[0][k] == n;
      assert ValidLevel(0) && !Holds(keys, lists[0][k], key);
    }

    lemma {:induction false} AllInBottom(l: nat, n: Node)
      requires Shaped() && l < MaxHeight && n in lists[l]
      ensures n in lists[0]
      decreases l
    {
      if l > 0 {
        assert Within(lists[l], lists[l - 1]);
        AllInBottom(l - 1, n);
      }
    }

    static function WithNode(rows: seq<seq<Node>>): (r: seq<seq<Node>>)
      ensures |r| == |rows| && forall l :: 0 <= l < |rows| ==> r[l] == rows[l] + [Null]
    {
      seq(|rows|, l requires 0 <= l < |rows| => rows[l] + [Null])
    }

    /** The node's own link: nobody can see it yet. */
    method PrepareLink()
      requires Valid() && pending.Inserting? && !pending.ready
      modifies `next, `pending
      ensures Valid() && Grew() && pending == old(pending).(ready := true)
    {
      var x, prev, level := pending.x, pending.prev[pending.level], pending.level;
      assert ValidLevel(level);
      ghost var list, row := lists[level], next[level];
      ghost var k: nat :| Splits(keys, list, keys[x], k) && prev == Before(list, k);
      assert row[prev] == At(list, k);
      var row' := next[level][x := next[level][prev]];
      assert Links(row', list) by {
        forall j | 0 <= j <= |list| ensures Before(list, j) != x {
          if j > 0 { assert list[j - 1] in list; }
        }
      }
      next := next[level := row'];
      pending := pending.(ready := true);
      forall l | 0 <= l < MaxHeight ensures ValidLevel(l) {
        assert old(ValidLevel(l));
      }
    }

    /** `new_` is the level with the node spliced in at its place. */
    static ghost predicate Spliced(keys: seq<Key>, list: seq<Node>, x: Node, new_: seq<Node>) {
      x < |keys| && exists k: nat :: Splits(keys, list, keys[x], k) && new_ == InsertAt(list, k, x)
    }

    /** The store that puts the node in one more level; the first one publishes it. */
    method Publish()
      requires Valid() && pending.Inserting? && pending.ready
      modifies `next, `pending, `lists
      ensures Valid() && Grew()
      ensures forall l :: 0 <= l < MaxHeight && l != old(pending).level ==> lists[l] == old(lists)[l]
      ensures Spliced(keys, old(lists)[old(pending).level], old(pending).x, lists[old(pending).level])
      ensures pending == if old(pending).level + 1 == heights[old(pending).x] then None
                         else old(pending).(level := old(pending).level + 1, ready := false)
    {
      var x, level := pending.x, pending.level;
      ghost var k: nat :| Splits(keys, lists[level], keys[x], k) && pending.prev[level] == Before(lists[level], k);
      StoreLink(level, pending.prev[level], x, k);
      pending := if level + 1 == heights[x] then None else pending.(level := level + 1, ready := false);
    }

    method StoreLink(level: nat, prev: Node, x: Node, ghost k: nat)
      requires Shaped() && level < maxHeight && 0 < x < |keys| && level < heights[x]
      requires Splits(keys, lists[level], keys[x], k) && prev == Before(lists[level], k)
               && IsReady(next[level], x, prev)
      requires forall n :: n in lists[level] ==> n < |keys| && keys[n] != keys[x]
      requires level > 0 ==> x in lists[level - 1]
      modifies `next, `lists
      ensures Shaped() && lists == old(lists)[level := InsertAt(old(lists)[level], k, x)]
      ensures forall n :: n in lists[level] <==> n in old(lists)[level] || n == x
      ensures |next| == MaxHeight && forall l :: 0 <= l < MaxHeight && l != level ==> next[l] == old(next)[l]
    {
      assert ValidLevel(level);
      Splice(next[level], lists[level], x, k);
      InsertedNodes(lists[level], k, x);
      var row: seq<Node> := next[level][prev := x];
      next := next[level := row];
      lists := lists[level := InsertAt(lists[level], k, x)];
      forall l | 0 <= l < MaxHeight ensures ValidLevel(l) {
        assert old(ValidLevel(l));
      }
      forall l | 1 <= l < MaxHeight ensures Within(lists[l], lists[l - 1]) {
        assert Within(old(lists)[l], old(lists)[l - 1]);
      }
    }

    lemma Splice(row: seq<Node>, list: seq<Node>, x: Node, k: nat)
      requires |row| == |keys| && Links(row, list) && Ascends(keys, list) && 0 < x < |keys|
      requires Splits(keys, list, keys[x], k) && (forall n :: n in list ==> n < |keys| && keys[n] != keys[x])
      requires row[x] == row[Before(list, k)]
      ensures Links(row[Before(list, k) := x], InsertAt(list, k, x)) && Ascends(keys, InsertAt(list, k, x))
    {
      assert row[Before(list, k)] == At(list, k);
      assert x !in list;
      forall j | k <= j < |list| ensures keys[x] < keys[list[j]] {
        assert list[j] in list;
      }
      StoreSplices(row, list, k, x);
      SpliceAscends(keys, list, k, x);
    }

    /** The first part of an insertion; `height` is what RandomHeight returned. */
    method BeginInsert(key: Key, height: nat)
      requires Valid() && pending.None? && 1 <= height <= MaxHeight
      requires !Published(key)
      modifies `keys, `heights, `next, `maxHeight, `pending
      ensures Valid() && Grew()
      ensures keys == old(keys) + [key] && heights == old(heights) + [height]
      ensures pending.Inserting? && pending.x == |old(keys)| && pending.level == 0 && !pending.ready
    {
      var node, prev := FindGreaterOrEqual(key, maxHeight);
      if height > maxHeight {
        prev := prev + Heads(height - maxHeight);
        EmptyLevels(key);
        RaiseHeight(height);
      }
      NewNode(key, height, prev);
    }

    /** The whole insertion. */
    method Insert(key: Key, height: nat)
      requires Valid() && pending.None? && 1 <= height <= MaxHeight
      requires !Published(key)
      modifies this
      ensures Valid() && pending.None? && Grew()
      ensures keys == old(keys) + [key] && Spliced(keys, old(lists)[0], |old(keys)|, lists[0])
    {
      BeginInsert(key, height);
      LinkLevels();
    }

    /** The loop that links the node in, level by level from the lowest. */
    method LinkLevels()
      requires Valid() && pending.Inserting? && pending.level == 0 && !pending.ready
      modifies `next, `pending, `lists
      ensures Valid() && pending.None? && Spliced(keys, old(lists)[0], old(pending).x, lists[0])
      ensures forall l :: 0 <= l < MaxHeight ==> Within(old(lists)[l], lists[l])
    {
      var x := pending.x;
      while pending.Inserting?
        invariant Valid() && x < |heights|
        invariant pending.Inserting? ==> pending.x == x && !pending.ready
        invariant pending.Inserting? && pending.level == 0 ==> lists[0] == old(lists)[0]
        invariant pending.None? || pending.level > 0 ==> Spliced(keys, old(lists)[0], x, lists[0])
        invariant forall l :: 0 <= l < MaxHeight ==> Within(old(lists)[l], lists[l])
        decreases if pending.None? then 0 else 1 + heights[x] - pending.level
      {
        PrepareLink();
        Publish();
      }
    }

    static function Heads(n: nat): (r: seq<Node>)
      ensures |r| == n && forall i :: 0 <= i < n ==> r[i] == Head
    {
      seq(n, _ => Head)
    }

    lemma EmptyLevels(key: Key)
      requires Shaped()
      ensures forall l :: maxHeight <= l < MaxHeight ==> IsPrev(keys, lists[l], key, Head)
    {
      forall l | maxHeight <= l < MaxHeight
        ensures IsPrev(keys, lists[l], key, Head)
      {
        assert Splits(keys, lists[l], key, 0);
      }
    }

    // A search among the writer's stores

    lemma AbsentUnlessFound(key: Key, node: Node)
      requires Shaped() && IsFirst(keys, lists[0], key, node) && (node == Null || (node < |keys| && keys[node] != key))
      ensures !Published(key)
    {
      assert ValidLevel(0);
      var k: nat :| Splits(keys, lists[0], key, k) && node == At(lists[0], k);
      forall j | 0 <= j < |lists[0]|
        ensures !Holds(keys, lists[0][j], key)
      {
        if k < j {
          assert keys[lists[0][k]] < keys[lists[0][j]];
        }
      }
    }

    lemma FoundIsPublished(key: Key, node: Node)
      requires Shaped() && IsFirst(keys, lists[0], key, node) && node != Null && Holds(keys, node, key)
      ensures Published(key)
    {
      var k: nat :| Splits(keys, lists[0], key, k) && node == At(lists[0], k);
      assert Holds(keys, lists[0][k], key);
    }

    /** A node that was ready has entered the level it was at, and no other. */
    ghost predicate PublishedAt(was: Pending, before: seq<seq<Node>>)
      requires was.Inserting?
      reads this
    {
      && |lists| == |before| == MaxHeight && was.level < MaxHeight && was.x < |heights|
      && Spliced(keys, before[was.level], was.x, lists[was.level])
      && (forall l :: 0 <= l < MaxHeight && l != was.level ==> lists[l] == before[l])
      && pending == if was.level + 1 == heights[was.x] then None else was.(level := was.level + 1, ready := false)
    }

    /** Whether the key is in the list already. */
    method IsFound(key: Key) returns (found: bool)
      requires Valid()
      ensures found <==> Published(key)
    {
      assert ValidLevel(0);
      var node, _ := FindGreaterOrEqual(key, maxHeight);
      found := node != Null && keys[node] == key;
      if found {
        FoundIsPublished(key, node);
      } else {
        AbsentUnlessFound(key, node);
      }
    }

    /** The writer's next store.  Between two insertions it begins one, unless the key is
        there already: the list takes no duplicates. */
    method WriterStep(key: Key, height: nat)
      requires Valid() && 1 <= height <= MaxHeight
      modifies this
      ensures Valid() && Grew() && steps == old(steps) + 1
      ensures old(pending).None? && old(Published(key)) ==>
                pending.None? && (keys, heights, lists) == old((keys, heights, lists))
      ensures old(pending).None? && !old(Published(key)) ==>
                && keys == old(keys) + [key] && heights == old(heights) + [height] && lists == old(lists)
                && pending.Inserting? && pending.x == |old(keys)| && pending.level == 0 && !pending.ready
      ensures old(pending).Inserting? && !old(pending).ready ==>
                pending == old(pending).(ready := true) && (keys, heights, lists) == old((keys, heights, lists))
      ensures old(pending).Inserting? && old(pending).ready ==> PublishedAt(old(pending), old(lists))
    {
      steps := steps + 1;
      if pending.None? {
        var found := IsFound(key);
        if !found {
          BeginInsert(key, height);
        }
      } else if !pending.ready {
        PrepareLink();
      } else {
        Publish();
      }
    }

    method WriterSteps(script: seq<Step>)
      requires Valid() && AllHeights(script)
      modifies this
      ensures Valid() && Grew() && steps == old(steps) + |script|
    {
      for i := 0 to |script|
        invariant Valid() && Grew() && steps == old(steps) + i
      {
        WriterStep(script[i].key, script[i].height);
      }
    }

    /** The writer goes on, and a reader that was at its place still is. */
    method Meanwhile(script: seq<Step>, level: nat, x: Node, key: Key, ghost k: nat) returns (ghost k': nat)
      requires Valid() && AllHeights(script) && level < MaxHeight && AtPlace(level, x, k, key)
      modifies this
      ensures Valid() && Grew() && AtPlace(level, x, k', key) && steps == old(steps) + |script|
    {
      assert ValidLevel(level);
      ghost var ranks, before := keys, lists;
      WriterSteps(script);
      k' := ReaderSurvives(ranks, before, level, x, k, key);
    }

    lemma FoundIsLeast(ranks: seq<Key>, before: seq<seq<Node>>, key: Key, node: Node)
      requires Shaped() && IsFirst(keys, lists[0], key, node)
      requires Extends(ranks, before, keys, lists)
      ensures node == Null || (node < |keys| && keys[node] >= key && Published(keys[node]))
      ensures forall q: Key ::
               Contains(ranks, before[0], q) && q >= key ==>
               node != Null && node < |keys| && keys[node] <= q
    {
      assert ValidLevel(0);
      var k: nat :| Splits(keys, lists[0], key, k) && node == At(lists[0], k);
      if k < |lists[0]| {
        assert Holds(keys, lists[0][k], keys[node]);
      }
      forall q: Key | Contains(ranks, before[0], q) && q >= key
        ensures k < |lists[0]| && keys[node] <= q
      {
        var j :| 0 <= j < |before[0]| && Holds(ranks, before[0][j], q);
        var m := before[0][j];
        assert Within(before[0], lists[0]) && m in before[0] && keys[m] == keys[..|ranks|][m] == q;
        var j' :| 0 <= j' < |lists[0]| && lists[0][j'] == m;
        assert j' >= k;
      }
    }

    /** FindGreaterOrEqual while the writer goes on: before the reader's load `i` it makes
        the stores `script[i]`.  The search ends, and what it finds is the least published
        key at or after the target at the time of its last load: it skips no key that was
        published before the search began. */
    method FindAmongStores(key: Key, height: nat, script: seq<seq<Step>>) returns (node: Node, ghost loads: nat)
      requires Valid() && 1 <= height <= MaxHeight && forall i :: 0 <= i < |script| ==> AllHeights(script[i])
      modifies this
      ensures Valid() && Grew() && IsFirst(keys, lists[0], key, node)
      ensures loads > 0 && steps == old(steps) + StepsTo(script, loads)
      ensures node == Null || (node < |keys| && keys[node] >= key && Published(keys[node]))
      ensures forall q: Key :: old(Published(q)) && q >= key ==> node != Null && node < |keys| && keys[node] <= q
    {
      var x, level, i := Head, height - 1, 0;
      ghost var k := 0;
      loads := 0;
      while true
        invariant Valid() && Grew() && 0 <= level < MaxHeight && i <= |script| && AtPlace(level, x, k, key)
        invariant i == (if loads < |script| then loads else |script|) && steps == old(steps) + StepsTo(script, loads)
        decreases |script| - i, level, |lists[level]| - k
      {
        loads := loads + 1;
        if i < |script| {
          ghost var ranks, before := keys, lists;
          k := Meanwhile(script[i], level, x, key, k);
          ExtendsOn(old(keys), old(lists), ranks, before, keys, lists);
          i := i + 1;
        }
        var n, after := Load(x, level, key, k);
        if after {
          x, k := n, k + 1;
        } else if level == 0 {
          FoundIsLeast(old(keys), old(lists), key, n);
          return n, loads;
        } else {
          k := StepDown(level, x, k, key);
          level := level - 1;
        }
      }
    }
  }
}
