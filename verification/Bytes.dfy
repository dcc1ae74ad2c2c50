/** Byte strings, as Slice and std::string hold them. */
module Bytes {
  type byte = x: int | 0 <= x < 256

  type Bytes = seq<byte>

  /** A comparator of byte strings, as the position it gives each string in its order. */
  type Rank = Bytes -> real

  /** The parts of a list, one after the other. */
  function Concat<T>(parts: seq<seq<T>>): seq<T> {
    if parts == [] then [] else Concat(parts[..|parts| - 1]) + parts[|parts| - 1]
  }

  /** How many bytes two strings have in common from the front. */
  function CommonPrefix(a: Bytes, b: Bytes): (n: nat)
    ensures n <= |a| && n <= |b| && a[..n] == b[..n]
    ensures n < |a| && n < |b| ==> a[n] != b[n]
  {
    if a == [] || b == [] || a[0] != b[0] then 0
    else
      var n := CommonPrefix(a[1..], b[1..]);
      assert a[..1 + n] == [a[0]] + a[1..][..n] && b[..1 + n] == [b[0]] + b[1..][..n];
      1 + n
  }

  lemma {:induction false} PrefixIsUnique(a: Bytes, b: Bytes, n: nat)
    requires n <= |a| && n <= |b| && a[..n] == b[..n] && (n < |a| && n < |b| ==> a[n] != b[n])
    ensures n == CommonPrefix(a, b)
  {
    var m := CommonPrefix(a, b);
    forall i | 0 <= i < n ensures a[i] == b[i] { assert a[i] == a[..n][i] && b[i] == b[..n][i]; }
    forall i | 0 <= i < m ensures a[i] == b[i] { assert a[i] == a[..m][i] && b[i] == b[..m][i]; }
  }

  /** Quotient and remainder are those that add up to the number. */
  lemma DivisionIs(n: nat, d: nat, q: nat, r: nat)
    requires r < d && n == d * q + r
    ensures n / d == q && n % d == r
  {
    var m := n / d;
    assert n == d * m + n % d;
    assert m < q ==> d * (m + 1) <= d * q;
    assert m > q ==> d * (q + 1) <= d * m;
  }

  lemma SliceOfPrefix(b: Bytes, n: nat, i: nat, j: nat)
    requires i <= j <= n <= |b|
    ensures b[i..j] == b[..n][i..j]
  {
  }

  // The bits of a byte

  function BitsOf(b: byte): bv8 {
    b as bv8
  }

  function ByteOf(v: bv8): byte {
    v as int
  }

  lemma NextNumber(v: bv8)
    requires v != 255
    ensures (v + 1) as int == v as int + 1
  {
  }

  lemma {:induction false} HasBits(x: nat) returns (v: bv8)
    requires x < 256
    ensures v as int == x
  {
    if x == 0 {
      v := 0;
    } else {
      var w := HasBits(x - 1);
      NextNumber(w);
      v := w + 1;
    }
  }

  lemma NumberOfBits(x: nat)
    requires x < 256
    ensures (x as bv8) as int == x
  {
    var v := HasBits(x);
    assert (v as int) as bv8 == v;
  }

  lemma BitsOfNumber(v: bv8)
    ensures BitsOf(ByteOf(v)) == v
  {
  }
}
