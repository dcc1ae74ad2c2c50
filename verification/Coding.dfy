/** Varints and length-prefixed strings (util/coding.cc). */
module Coding {
  import opened Bytes

  const Two32: nat := 0x1_0000_0000
  const Two64: nat := 0x1_0000_0000_0000_0000

  /** What a Get* call takes from its input, and what it leaves. */
  datatype Parsed<+T> = Failed | Parsed(value: T, rest: Bytes)

  /** Seven bits to a byte, low bits first; the top bit says that more bytes follow. */
  function Varint(v: nat): (r: Bytes)
    ensures r != []
  {
    if v < 128 then [v] else [v % 128 + 128] + Varint(v / 128)
  }

  function Or128(v: nat): byte {
    v % 128 + 128
  }

  /** EncodeVarint32, which unrolls the loop by size. */
  function EncodeVarint32(v: nat): Bytes
    requires v < Two32
  {
    if v < 0x80 then [v]
    else if v < 0x4000 then [Or128(v), v / 0x80]
    else if v < 0x20_0000 then [Or128(v), Or128(v / 0x80), v / 0x4000]
    else if v < 0x1000_0000 then [Or128(v), Or128(v / 0x80), Or128(v / 0x4000), v / 0x20_0000]
    else [Or128(v), Or128(v / 0x80), Or128(v / 0x4000), Or128(v / 0x20_0000), v / 0x1000_0000]
  }

  lemma {:induction false} UnrolledIsVarint(v: nat)
    requires v < Two32
    ensures EncodeVarint32(v) == Varint(v)
  {
    var a := v / 128;
    var b := a / 128;
    var c := b / 128;
    assert v / 0x4000 == b && v / 0x20_0000 == c && v / 0x1000_0000 == c / 128;
    if v >= 0x1000_0000 {
      assert Varint(c) == [Or128(c)] + Varint(c / 128);
      assert Varint(a) == [Or128(a)] + ([Or128(b)] + Varint(c));
    } else if v >= 0x20_0000 {
      assert Varint(a) == [Or128(a)] + ([Or128(b)] + Varint(c));
    }
  }

  method EncodeVarint64(v: nat) returns (r: Bytes)
    requires v < Two64
    ensures r == Varint(v)
  {
    r := [];
    var left := v;
    while left >= 128
      invariant r + Varint(left) == Varint(v)
    {
      assert r + ([left % 128 + 128] + Varint(left / 128)) == r + [left % 128 + 128] + Varint(left / 128);
      r := r + [left % 128 + 128];
      left := left / 128;
    }
    r := r + [left];
  }

  /** At most `groups` bytes are looked at. */
  function GetVarint(input: Bytes, groups: nat): (r: Parsed<nat>)
    ensures r.Parsed? ==> |r.rest| < |input|
    decreases |input|
  {
    if groups == 0 || input == [] then Failed
    else if input[0] < 128 then Parsed(input[0], input[1..])
    else
      match GetVarint(input[1..], groups - 1)
      case Failed => Failed
      case Parsed(v, rest) => Parsed(input[0] % 128 + 128 * v, rest)
  }

  /** Bits beyond the width are shifted out. */
  function GetVarint32(input: Bytes): (r: Parsed<nat>)
    ensures r.Parsed? ==> |r.rest| < |input| && r.value < Two32
  {
    match GetVarint(input, 5)
    case Failed => Failed
    case Parsed(v, rest) => Parsed(v % Two32, rest)
  }

  function GetVarint64(input: Bytes): (r: Parsed<nat>)
    ensures r.Parsed? ==> |r.rest| < |input| && r.value < Two64
  {
    match GetVarint(input, 10)
    case Failed => Failed
    case Parsed(v, rest) => Parsed(v % Two64, rest)
  }

  function Pow128(n: nat): (r: nat)
    ensures r > 0
  {
    if n == 0 then 1 else 128 * Pow128(n - 1)
  }

  lemma {:induction false} VarintRoundTrip(v: nat, groups: nat, rest: Bytes)
    requires 1 <= groups && v < Pow128(groups)
    ensures GetVarint(Varint(v) + rest, groups) == Parsed(v, rest)
  {
    var input := Varint(v) + rest;
    if v < 128 {
      assert input[1..] == rest;
    } else {
      assert input[1..] == Varint(v / 128) + rest;
      VarintRoundTrip(v / 128, groups - 1, rest);
    }
  }

  lemma Powers()
    ensures Pow128(5) == 0x8_0000_0000 && Pow128(10) > Two64
  {
    assert Pow128(5) == 128 * 128 * 128 * 128 * Pow128(1);
    assert Pow128(10) == 128 * 128 * 128 * 128 * 128 * Pow128(5);
  }

  lemma {:induction false} Varint32RoundTrip(v: nat, rest: Bytes)
    requires v < Two32
    ensures GetVarint32(Varint(v) + rest) == Parsed(v, rest)
  {
    assert v < Pow128(5) by { Powers(); }
    VarintRoundTrip(v, 5, rest);
  }

  lemma {:induction false} Varint64RoundTrip(v: nat, rest: Bytes)
    requires v < Two64
    ensures GetVarint64(Varint(v) + rest) == Parsed(v, rest)
  {
    assert v < Pow128(10) by { Powers(); }
    VarintRoundTrip(v, 10, rest);
  }

  function LengthPrefixed(s: Bytes): Bytes {
    Varint(|s|) + s
  }

  function GetLengthPrefixed(input: Bytes): (r: Parsed<Bytes>)
    ensures r.Parsed? ==> |r.rest| < |input|
  {
    match GetVarint32(input)
    case Failed => Failed
    case Parsed(n, rest) => if |rest| >= n then Parsed(rest[..n], rest[n..]) else Failed
  }

  lemma LengthPrefixedRoundTrip(s: Bytes, rest: Bytes)
    requires |s| < Two32
    ensures GetLengthPrefixed(LengthPrefixed(s) + rest) == Parsed(s, rest)
  {
    assert LengthPrefixed(s) + rest == Varint(|s|) + (s + rest);
    Varint32RoundTrip(|s|, s + rest);
  }

  /** The loop of GetVarint64Ptr: groups are added at ever higher weights, and what does
      not fit in 64 bits is lost. */
  method GetVarint64Ptr(input: Bytes) returns (r: Parsed<nat>)
    ensures r == GetVarint64(input)
  {
    var result: nat, weight: nat, p := 0, 1, 0;
    for group := 0 to 10
      invariant group == p <= |input|
      invariant GetVarint(input, 10) == Shifted(result, weight, GetVarint(input[p..], 10 - group))
    {
      if p == |input| { return Failed; }
      var b := input[p];
      assert input[p..][1..] == input[p + 1..];
      if b < 128 {
        return Parsed(Grown(result, weight, b) % Two64, input[p + 1..]);
      }
      var high := GetVarint(input[p + 1..], 10 - group - 1);
      assert GetVarint(input[p..], 10 - group) == Shifted(b % 128, 128, high);
      ShiftTwice(result, weight, b % 128, high);
      result, weight := Grown(result, weight, b % 128), weight * 128;
      p := p + 1;
    }
    r := Failed;
  }

  function Grown(result: nat, weight: nat, digit: nat): nat {
    result + digit * weight
  }

  function Shifted(low: nat, weight: nat, high: Parsed<nat>): Parsed<nat> {
    match high
    case Failed => Failed
    case Parsed(v, rest) => Parsed(Grown(low, weight, v), rest)
  }

  lemma ShiftTwice(low: nat, weight: nat, digit: nat, high: Parsed<nat>)
    ensures Shifted(low, weight, Shifted(digit, 128, high)) == Shifted(Grown(low, weight, digit), weight * 128, high)
  {
    if high.Parsed? {
      assert (digit + high.value * 128) * weight == digit * weight + high.value * (weight * 128);
    }
  }

  /** EncodeFixed32 and EncodeFixed64: little-endian, cut to the width. */
  function EncodeFixed(width: nat, v: nat): (r: Bytes)
    ensures |r| == width
    decreases v, width
  {
    if width == 0 then [] else [v % 256] + EncodeFixed(width - 1, v / 256)
  }

  function DecodeFixed(s: Bytes): nat {
    if s == [] then 0 else s[0] + 256 * DecodeFixed(s[1..])
  }

  function Pow256(n: nat): (r: nat)
    ensures r > 0
  {
    if n == 0 then 1 else 256 * Pow256(n - 1)
  }

  lemma {:induction false} FixedRoundTrip(width: nat, v: nat)
    requires v < Pow256(width)
    ensures DecodeFixed(EncodeFixed(width, v)) == v
  {
    if width > 0 {
      FixedRoundTrip(width - 1, v / 256);
    }
  }

  lemma {:induction false} FixedBelow(s: Bytes)
    ensures DecodeFixed(s) < Pow256(|s|)
  {
    if s != [] {
      FixedBelow(s[1..]);
    }
  }

  /** Byte `i` holds the bits from 8 * i on. */
  lemma {:induction false} FixedIsLittleEndian(width: nat, v: nat, i: nat)
    requires i < width
    ensures EncodeFixed(width, v)[i] == v / Pow256(i) % 256
    decreases i
  {
    if i > 0 {
      FixedIsLittleEndian(width - 1, v / 256, i - 1);
      DivideTwice(v, Pow256(i - 1), Pow256(i));
    }
  }

  lemma DivideTwice(v: nat, b: nat, d: nat)
    requires b > 0 && d == 256 * b
    ensures v / 256 / b == v / d
  {
    var q, r := v / 256 / b, v / 256 % b;
    assert v / 256 == b * q + r;
    assert d * q == 256 * (b * q);
    DivisionIs(v, d, q, 256 * r + v % 256);
  }

  /** PutFixed32 of each number in turn. */
  function Fixed32s(ns: seq<nat>): (r: Bytes)
    ensures |r| == 4 * |ns|
  {
    if ns == [] then [] else Fixed32s(ns[..|ns| - 1]) + EncodeFixed(4, ns[|ns| - 1])
  }

  lemma {:induction false} Fixed32At(ns: seq<nat>, k: nat)
    requires k < |ns| && forall i :: 0 <= i < |ns| ==> ns[i] < Two32
    ensures Fixed32s(ns)[4 * k..4 * k + 4] == EncodeFixed(4, ns[k])
    decreases |ns|
  {
    var n := |ns| - 1;
    var before := Fixed32s(ns[..n]);
    if k < n {
      Fixed32At(ns[..n], k);
      assert (before + EncodeFixed(4, ns[n]))[4 * k..4 * k + 4] == before[4 * k..4 * k + 4];
    } else {
      assert (before + EncodeFixed(4, ns[n]))[4 * k..4 * k + 4] == EncodeFixed(4, ns[n]);
    }
  }

  lemma {:induction false} Fixed32RoundTrip(v: nat)
    requires v < Two32
    ensures DecodeFixed(EncodeFixed(4, v)) == v
  {
    assert Pow256(4) == 256 * 256 * 256 * Pow256(1);
    FixedRoundTrip(4, v);
  }
}
