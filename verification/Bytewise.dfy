/** The bytewise comparator (util/comparator.cc) and the internal separators that
    table indexes are made of (db/dbformat.cc). */
module Bytewise {
  import opened Bytes
  import opened Keys

  /** Slice::compare: the first difference decides, and after none the length. */
  function Compare(a: Bytes, b: Bytes): int {
    var n := CommonPrefix(a, b);
    if n < |a| && n < |b| then a[n] - b[n] else |a| - |b|
  }

  /** The position of a byte string among all byte strings, as a fraction in base 257. */
  function Position(s: Bytes): (r: real)
    ensures 0.0 <= r < 1.0
    ensures s != [] ==> r > 0.0
  {
    if s == [] then 0.0 else (s[0] as real + 1.0 + Position(s[1..])) / 257.0
  }

  /** The embedding of the bytewise order in the reals. */
  lemma {:induction false} PositionIsOrder(a: Bytes, b: Bytes)
    ensures Compare(a, b) < 0 <==> Position(a) < Position(b)
    ensures Compare(a, b) == 0 <==> Position(a) == Position(b)
    ensures Compare(a, b) == 0 <==> a == b
  {
    if a != [] && b != [] {
      if a[0] == b[0] {
        PositionIsOrder(a[1..], b[1..]);
        assert a == [a[0]] + a[1..] && b == [b[0]] + b[1..];
      } else {
        var x, y := Position(a[1..]), Position(b[1..]);
        assert a[0] < b[0] ==> a[0] as real + 1.0 + x < b[0] as real + 1.0 + y;
        assert b[0] < a[0] ==> b[0] as real + 1.0 + y < a[0] as real + 1.0 + x;
      }
    }
  }

  /** A string that extends the common part of `s` with a larger byte is after `s`. */
  lemma Above(s: Bytes, n: nat, c: byte)
    requires n < |s| && s[n] < c
    ensures Compare(s, s[..n] + [c]) < 0
  {
    PrefixIsUnique(s, s[..n] + [c], n);
  }

  /** What lies between two strings is longer than what they share. */
  lemma {:induction false} Between(a: Bytes, b: Bytes, n: nat, t: Bytes)
    requires n == CommonPrefix(a, b) && n < |a| && n < |b|
    requires Compare(a, t) <= 0 && Compare(t, b) < 0
    ensures |t| > n
  {
    var m := CommonPrefix(a, t);
    if |t| <= n {
      if m < |t| {
        assert a[m] == a[..n][m] && b[m] == b[..n][m];
        assert forall i :: 0 <= i < m ==> a[..m][i] == t[..m][i];
        assert b[..m] == a[..n][..m] == t[..m];
        PrefixIsUnique(t, b, m);
      } else {
        assert false;
      }
    }
  }

  /** The first difference leaves a byte value free between the two strings. */
  predicate HasRoom(start: Bytes, limit: Bytes, n: nat) {
    n < |start| && n < |limit| && start[n] < 0xff && start[n] + 1 < limit[n]
  }

  ghost predicate Shortest(start: Bytes, limit: Bytes, s: Bytes) {
    forall t :: Compare(start, t) <= 0 && Compare(t, limit) < 0 ==> |s| <= |t|
  }

  lemma {:induction false} SeparatorLies(start: Bytes, limit: Bytes, n: nat)
    requires n == CommonPrefix(start, limit) && HasRoom(start, limit, n)
    ensures var s := start[..n] + [start[n] + 1];
            s != start && Compare(start, s) < 0 && Compare(s, limit) < 0 && Shortest(start, limit, s)
  {
    var s := start[..n] + [start[n] + 1];
    Above(start, n, start[n] + 1);
    PrefixIsUnique(s, limit, n);
    assert s[n] != start[n];
    forall t | Compare(start, t) <= 0 && Compare(t, limit) < 0
      ensures |s| <= |t|
    {
      Between(start, limit, n, t);
    }
  }

  /** The result is in [start, limit), and is the shortest string there unless it is `start` itself. */
  method FindShortestSeparator(start: Bytes, limit: Bytes) returns (s: Bytes)
    ensures Compare(start, s) <= 0 && |s| <= |start|
    ensures Compare(start, limit) < 0 ==> Compare(s, limit) < 0
    ensures s != start ==> Shortest(start, limit, s)
    ensures s == start <==> !HasRoom(start, limit, CommonPrefix(start, limit))
  {
    var minLength := if |start| < |limit| then |start| else |limit|;
    var diff := 0;
    while diff < minLength && start[diff] == limit[diff]
      invariant diff <= minLength && start[..diff] == limit[..diff]
    {
      assert start[..diff + 1] == start[..diff] + [start[diff]] && limit[..diff + 1] == limit[..diff] + [limit[diff]];
      diff := diff + 1;
    }
    PrefixIsUnique(start, limit, diff);
    PositionIsOrder(start, start);
    s := start;
    if diff < minLength && start[diff] < 0xff && start[diff] + 1 < limit[diff] {
      s := s[diff := s[diff] + 1];
      s := s[..diff + 1];
      assert s == start[..diff] + [start[diff] + 1];
      SeparatorLies(start, limit, diff);
    }
  }

  /** The result is at or after the key, and no string at or after the key is shorter. */
  method FindShortSuccessor(key: Bytes) returns (s: Bytes)
    ensures Compare(key, s) <= 0 && |s| <= |key|
    ensures forall t :: Compare(key, t) <= 0 ==> |s| <= |t|
    ensures s == key <==> forall i :: 0 <= i < |key| ==> key[i] == 0xff
  {
    for i := 0 to |key|
      invariant forall j :: 0 <= j < i ==> key[j] == 0xff
    {
      if key[i] != 0xff {
        s := key[i := key[i] + 1];
        s := s[..i + 1];
        assert s == key[..i] + [key[i] + 1];
        Above(key, i, key[i] + 1);
        forall t | Compare(key, t) <= 0
          ensures |s| <= |t|
        {
          AfterRun(key, i, t);
        }
        return;
      }
    }
    PositionIsOrder(key, key);
    forall t | Compare(key, t) <= 0
      ensures |key| <= |t|
    {
      AfterRun(key, |key| - 1, t);
    }
    s := key;
  }

  /** Nothing at or after a key that starts with `n` bytes of 0xff fits in `n` bytes. */
  lemma AfterRun(key: Bytes, n: int, t: Bytes)
    requires n < |key| && forall j :: 0 <= j < n ==> key[j] == 0xff
    requires Compare(key, t) <= 0
    ensures |t| > n
  {
  }

  /** An internal key before its user part is ranked. */
  datatype StoredKey = StoredKey(user: Bytes, sequence: SequenceNumber, kind: Kind)

  function Ranked(k: StoredKey): IKey {
    IKey(Position(k.user), k.sequence, k.kind)
  }

  /** InternalKeyComparator::FindShortestSeparator keeps the result between the two keys. */
  method FindInternalSeparator(start: StoredKey, limit: StoredKey) returns (s: StoredKey)
    ensures !Less(Ranked(s), Ranked(start)) && |s.user| <= |start.user|
    ensures Less(Ranked(start), Ranked(limit)) ==> Less(Ranked(s), Ranked(limit))
    ensures if HasRoom(start.user, limit.user, CommonPrefix(start.user, limit.user))
            then Shortest(start.user, limit.user, s.user) else s == start
    ensures Less(Ranked(start), Ranked(limit)) ==> s == start || Position(s.user) < Position(limit.user)
    ensures s == start || (|s.user| < |start.user| && s.sequence == MaxSequence && s.kind == Put)
  {
    var tmp := FindShortestSeparator(start.user, limit.user);
    s := start;
    PositionIsOrder(start.user, tmp);
    PositionIsOrder(start.user, limit.user);
    PositionIsOrder(tmp, limit.user);
    if |tmp| < |start.user| && Compare(start.user, tmp) < 0 {
      s := StoredKey(tmp, MaxSequence, Put);
    }
  }

  /** InternalKeyComparator::FindShortSuccessor. */
  method FindInternalSuccessor(key: StoredKey) returns (s: StoredKey)
    ensures !Less(Ranked(s), Ranked(key)) && |s.user| <= |key.user|
    ensures forall t :: Compare(key.user, t) <= 0 ==> |s.user| <= |t|
    ensures s == key || (|s.user| < |key.user| && s.sequence == MaxSequence && s.kind == Put)
  {
    var tmp := FindShortSuccessor(key.user);
    s := key;
    PositionIsOrder(key.user, tmp);
    if |tmp| < |key.user| && Compare(key.user, tmp) < 0 {
      s := StoredKey(tmp, MaxSequence, Put);
    }
  }
}
