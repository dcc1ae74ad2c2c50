/** The Bloom filter policy (util/bloom.cc), for any hash function. */
module Blooms {
  import opened Bytes
  import FilterBlocks

  const Two32: nat := 0x1_0000_0000

  type Word32 = n: int | 0 <= n < Two32

  type Hash = Bytes -> Word32

  /** BloomFilterPolicy; `k` is the number of probes, from 1 to 30. */
  datatype Policy = Policy(hash: Hash, bitsPerKey: nat, k: nat)

  /** (h >> 17) | (h << 15) on 32 bits. */
  function Rotate(h: Word32): Word32 {
    h / 0x2_0000 + h % 0x2_0000 * 0x8000
  }

  /** The next hash value of the double hashing. */
  function NextHash(h: Word32, delta: Word32): Word32 {
    (h + delta) % Two32
  }

  // One bit of an array of bytes

  predicate IsSet(x: bv8, i: bv8)
    requires i < 8
  {
    x & (1 << i) != 0
  }

  function WithSet(x: bv8, i: bv8): bv8
    requires i < 8
  {
    x | (1 << i)
  }

  predicate HasBit(b: byte, i: bv8)
    requires i < 8
  {
    IsSet(BitsOf(b), i)
  }

  function SetBit(b: byte, i: bv8): byte
    requires i < 8
  {
    ByteOf(WithSet(BitsOf(b), i))
  }

  function BitIndex(pos: nat): (i: bv8)
    ensures i < 8
  {
    assert pos % 8 == 0 || pos % 8 == 1 || pos % 8 == 2 || pos % 8 == 3 || pos % 8 == 4 || pos % 8 == 5 || pos % 8 == 6
           || pos % 8 == 7;
    (pos % 8) as bv8
  }

  predicate HasAt(a: Bytes, pos: nat)
    requires pos < 8 * |a|
  {
    HasBit(a[pos / 8], BitIndex(pos))
  }

  function SetAt(a: Bytes, pos: nat): (r: Bytes)
    requires pos < 8 * |a|
    ensures |r| == |a|
  {
    a[pos / 8 := SetBit(a[pos / 8], BitIndex(pos))]
  }

  lemma SetThenHas(x: bv8, i: bv8, j: bv8)
    requires i < 8 && j < 8
    ensures IsSet(WithSet(x, i), j) <==> i == j || IsSet(x, j)
  {
  }

  lemma BitIndexTells(p: nat, q: nat)
    requires BitIndex(p) == BitIndex(q)
    ensures p % 8 == q % 8
  {
    NumberOfBits(p % 8);
    NumberOfBits(q % 8);
  }

  lemma SetBitHasBit(b: byte, i: bv8, j: bv8)
    requires i < 8 && j < 8
    ensures HasBit(SetBit(b, i), j) <==> i == j || HasBit(b, j)
  {
    SetThenHas(BitsOf(b), i, j);
    BitsOfNumber(WithSet(BitsOf(b), i));
  }

  lemma SetAtHasAt(a: Bytes, p: nat, q: nat)
    requires p < 8 * |a| && q < 8 * |a|
    ensures HasAt(SetAt(a, p), q) <==> p == q || HasAt(a, q)
  {
    SetBitHasBit(a[p / 8], BitIndex(p), BitIndex(q));
    if BitIndex(p) == BitIndex(q) {
      BitIndexTells(p, q);
    }
  }

  // One key

  function SetProbes(a: Bytes, h: Word32, delta: Word32, k: nat): (r: Bytes)
    requires a != []
    ensures |r| == |a|
    decreases k
  {
    if k == 0 then a else SetProbes(SetAt(a, h % (8 * |a|)), NextHash(h, delta), delta, k - 1)
  }

  predicate HasProbes(a: Bytes, h: Word32, delta: Word32, k: nat)
    requires a != []
    decreases k
  {
    k == 0 || (HasAt(a, h % (8 * |a|)) && HasProbes(a, NextHash(h, delta), delta, k - 1))
  }

  /** Bit `p` of `bits` is one of the `k` that the hash probes. */
  predicate Probed(h: Word32, delta: Word32, k: nat, bits: nat, p: nat)
    requires bits > 0
    decreases k
  {
    k > 0 && (h % bits == p || Probed(NextHash(h, delta), delta, k - 1, bits, p))
  }

  lemma {:induction false} SetProbesHasAt(a: Bytes, h: Word32, delta: Word32, k: nat, p: nat)
    requires a != [] && p < 8 * |a|
    ensures HasAt(SetProbes(a, h, delta, k), p) <==> HasAt(a, p) || Probed(h, delta, k, 8 * |a|, p)
    decreases k
  {
    if k > 0 {
      SetProbesHasAt(SetAt(a, h % (8 * |a|)), NextHash(h, delta), delta, k - 1, p);
      SetAtHasAt(a, h % (8 * |a|), p);
    }
  }

  lemma {:induction false} HasProbesAll(a: Bytes, h: Word32, delta: Word32, k: nat)
    requires a != []
    ensures HasProbes(a, h, delta, k)
            <==> forall p :: 0 <= p < 8 * |a| && Probed(h, delta, k, 8 * |a|, p) ==> HasAt(a, p)
    decreases k
  {
    if k > 0 {
      HasProbesAll(a, NextHash(h, delta), delta, k - 1);
      assert Probed(h, delta, k, 8 * |a|, h % (8 * |a|));
      assert forall p {:trigger HasAt(a, p)} ::
              0 <= p < 8 * |a| && Probed(NextHash(h, delta), delta, k - 1, 8 * |a|, p) ==>
              Probed(h, delta, k, 8 * |a|, p);
    }
  }

  // A filter

  function AddKeys(policy: Policy, a: Bytes, keys: seq<Bytes>): (r: Bytes)
    requires a != []
    ensures |r| == |a|
    decreases |keys|
  {
    if keys == [] then a
    else
      var h := policy.hash(keys[0]);
      AddKeys(policy, SetProbes(a, h, Rotate(h), policy.k), keys[1..])
  }

  /** The size of the bit array: the least that has room, and at least 64 bits. */
  function FilterBytes(policy: Policy, n: nat): (bytes: nat)
    ensures bytes >= 8 && 8 * bytes >= n * policy.bitsPerKey
    ensures bytes > 8 ==> 8 * (bytes - 1) < n * policy.bitsPerKey
  {
    var bits := n * policy.bitsPerKey;
    if bits < 64 then 8 else (bits + 7) / 8
  }

  function Zeros(n: nat): (z: Bytes)
    ensures |z| == n
  {
    seq(n, _ => 0)
  }

  predicate Sound(policy: Policy) {
    1 <= policy.k <= 30
  }

  function Filter(policy: Policy, keys: seq<Bytes>): (r: Bytes)
    requires Sound(policy)
    ensures |r| == FilterBytes(policy, |keys|) + 1
  {
    AddKeys(policy, Zeros(FilterBytes(policy, |keys|)), keys) + [policy.k]
  }

  predicate MayMatch(policy: Policy, key: Bytes, filter: Bytes) {
    var len := |filter|;
    len >= 2 &&
    (filter[len - 1] > 30
     || (var h := policy.hash(key); HasProbes(filter[..len - 1], h, Rotate(h), filter[len - 1])))
  }

  predicate ProbedBy(policy: Policy, key: Bytes, bits: nat, p: nat)
    requires bits > 0
  {
    var h: Word32 := policy.hash(key);
    Probed(h, Rotate(h), policy.k, bits, p)
  }

  predicate ProbedByAny(policy: Policy, keys: seq<Bytes>, bits: nat, p: nat)
    requires bits > 0
  {
    exists i :: 0 <= i < |keys| && ProbedBy(policy, keys[i], bits, p)
  }

  lemma {:induction false} AddKeysHasAt(policy: Policy, a: Bytes, keys: seq<Bytes>, p: nat)
    requires a != [] && p < 8 * |a|
    ensures HasAt(AddKeys(policy, a, keys), p) <==> HasAt(a, p) || ProbedByAny(policy, keys, 8 * |a|, p)
    decreases |keys|
  {
    if keys != [] {
      var h := policy.hash(keys[0]);
      SetProbesHasAt(a, h, Rotate(h), policy.k, p);
      AddKeysHasAt(policy, SetProbes(a, h, Rotate(h), policy.k), keys[1..], p);
      FirstOrLater(policy, keys, 8 * |a|, p);
    }
  }

  lemma FirstOrLater(policy: Policy, keys: seq<Bytes>, bits: nat, p: nat)
    requires keys != [] && bits > 0
    ensures ProbedByAny(policy, keys, bits, p)
            <==> ProbedBy(policy, keys[0], bits, p) || ProbedByAny(policy, keys[1..], bits, p)
  {
    if ProbedByAny(policy, keys, bits, p) {
      var i :| 0 <= i < |keys| && ProbedBy(policy, keys[i], bits, p);
      assert i > 0 ==> keys[1..][i - 1] == keys[i];
    }
    if ProbedByAny(policy, keys[1..], bits, p) {
      var i :| 0 <= i < |keys[1..]| && ProbedBy(policy, keys[1..][i], bits, p);
      assert keys[1..][i] == keys[i + 1];
    }
  }

  lemma NoBitOfZeros(n: nat, p: nat)
    requires p < 8 * n
    ensures !HasAt(Zeros(n), p)
  {
    NoBitOfZero(BitIndex(p));
  }

  lemma NoBitOfZero(i: bv8)
    requires i < 8
    ensures !HasBit(0, i)
  {
    BitsOfNumber(0);
    assert ByteOf(0) == 0;
  }

  /** A filter matches a key exactly when each bit it probes is probed by an added key. */
  lemma MatchesWhatIsProbed(policy: Policy, keys: seq<Bytes>, key: Bytes)
    requires Sound(policy)
    ensures var bits := 8 * FilterBytes(policy, |keys|);
            MayMatch(policy, key, Filter(policy, keys))
            <==> forall p :: 0 <= p < bits && ProbedBy(policy, key, bits, p) ==> ProbedByAny(policy, keys, bits, p)
  {
    var n, h := FilterBytes(policy, |keys|), policy.hash(key);
    var a := AddKeys(policy, Zeros(n), keys);
    assert Filter(policy, keys)[..n] == a;
    HasProbesAll(a, h, Rotate(h), policy.k);
    forall p | 0 <= p < 8 * n
      ensures HasAt(a, p) <==> ProbedByAny(policy, keys, 8 * n, p)
    {
      AddKeysHasAt(policy, Zeros(n), keys, p);
      NoBitOfZeros(n, p);
    }
  }

  /** No false negatives. */
  lemma AddedKeysMatch(policy: Policy, keys: seq<Bytes>, i: nat)
    requires Sound(policy) && i < |keys|
    ensures MayMatch(policy, keys[i], Filter(policy, keys))
  {
    MatchesWhatIsProbed(policy, keys, keys[i]);
  }

  function AsFilterPolicy(policy: Policy): FilterBlocks.Policy
    requires Sound(policy)
  {
    FilterBlocks.Policy(keys => Filter(policy, keys), (key, filter) => MayMatch(policy, key, filter))
  }

  /** The Bloom filter is a filter policy that the table reader can rely on. */
  lemma BloomAdmits(policy: Policy)
    requires Sound(policy)
    ensures FilterBlocks.Admits(AsFilterPolicy(policy))
  {
    var p := AsFilterPolicy(policy);
    forall keys, i {:trigger p.mayMatch(keys[i], p.create(keys))} | 0 <= i < |keys|
      ensures p.mayMatch(keys[i], p.create(keys))
    {
      AddedKeysMatch(policy, keys, i);
    }
  }

  // Which bits those are

  /** The bit that probe `j` of a key looks at: the hash and `j` times the hash rotated right by
      17 bits, on 32 bits. */
  function ProbeAt(policy: Policy, key: Bytes, bits: nat, j: nat): (p: nat)
    requires bits > 0
    ensures p < bits
  {
    var h := policy.hash(key);
    (h + j * (h / 0x2_0000 + h % 0x2_0000 * 0x8000)) % 0x1_0000_0000 % bits
  }

  /** The upper 15 bits and the lower 17 change places. */
  lemma RotateSwaps(upper: nat, lower: nat)
    requires upper < 0x8000 && lower < 0x2_0000
    ensures Rotate(upper * 0x2_0000 + lower) == lower * 0x8000 + upper
  {
  }

  function Moved(h: Word32, delta: Word32, j: nat): Word32 {
    (h + j * delta) % Two32
  }

  lemma MovesOn(h: Word32, delta: Word32, j: nat, j': nat)
    requires j' == j + 1
    ensures Moved(NextHash(h, delta), delta, j) == Moved(h, delta, j')
  {
    var e := j * delta;
    assert j' * delta == e + delta;
    ModAdds(h + delta, e);
  }

  lemma ModAdds(a: nat, b: nat)
    ensures (a % Two32 + b) % Two32 == (a + b) % Two32
  {
    assert a == a / Two32 * Two32 + a % Two32;
  }

  ghost predicate MovesTo(h: Word32, delta: Word32, k: nat, bits: nat, p: nat)
    requires bits > 0
  {
    exists j {:trigger Moved(h, delta, j)} :: 0 <= j < k && Moved(h, delta, j) % bits == p
  }

  lemma {:induction false} ProbedMoves(h: Word32, delta: Word32, k: nat, bits: nat, p: nat)
    requires bits > 0
    ensures Probed(h, delta, k, bits, p) <==> MovesTo(h, delta, k, bits, p)
    decreases k
  {
    if k > 0 {
      var h' := NextHash(h, delta);
      ProbedMoves(h', delta, k - 1, bits, p);
      assert Moved(h, delta, 0) == h;
      if MovesTo(h', delta, k - 1, bits, p) {
        var j :| 0 <= j < k - 1 && Moved(h', delta, j) % bits == p;
        MovesOn(h, delta, j, j + 1);
      }
      if MovesTo(h, delta, k, bits, p) && h % bits != p {
        var j :| 0 <= j < k && Moved(h, delta, j) % bits == p;
        MovesOn(h, delta, j - 1, j);
      }
    }
  }

  /** One of the first `k` probes of the key looks at bit `p`. */
  ghost predicate LooksAt(policy: Policy, key: Bytes, k: nat, bits: nat, p: nat)
    requires bits > 0
  {
    exists j {:trigger ProbeAt(policy, key, bits, j)} :: 0 <= j < k && ProbeAt(policy, key, bits, j) == p
  }

  lemma {:induction false} ProbedLooks(policy: Policy, key: Bytes, k: nat, bits: nat, p: nat)
    requires bits > 0
    ensures var h := policy.hash(key); Probed(h, Rotate(h), k, bits, p) <==> LooksAt(policy, key, k, bits, p)
  {
    var h := policy.hash(key);
    ProbedMoves(h, Rotate(h), k, bits, p);
    forall j: nat
      ensures Moved(h, Rotate(h), j) % bits == ProbeAt(policy, key, bits, j)
    {
    }
  }

  ghost predicate SharesProbe(policy: Policy, keys: seq<Bytes>, bits: nat, p: nat)
    requires bits > 0
  {
    exists i, l {:trigger ProbeAt(policy, keys[i], bits, l)} ::
      0 <= i < |keys| && 0 <= l < policy.k && ProbeAt(policy, keys[i], bits, l) == p
  }

  /** A filter matches a key exactly when each probe of the key is at the same bit as some probe
      of some added key. */
  lemma MatchesSharedProbes(policy: Policy, keys: seq<Bytes>, key: Bytes)
    requires Sound(policy)
    ensures var bits := 8 * FilterBytes(policy, |keys|);
            MayMatch(policy, key, Filter(policy, keys))
            <==> forall j :: 0 <= j < policy.k ==> SharesProbe(policy, keys, bits, ProbeAt(policy, key, bits, j))
  {
    var bits := 8 * FilterBytes(policy, |keys|);
    MatchesWhatIsProbed(policy, keys, key);
    forall p | 0 <= p < bits
      ensures ProbedByAny(policy, keys, bits, p) <==> SharesProbe(policy, keys, bits, p)
    {
      AnyProbes(policy, keys, bits, p);
    }
    forall p | 0 <= p < bits
      ensures ProbedBy(policy, key, bits, p) <==> LooksAt(policy, key, policy.k, bits, p)
    {
      ProbedLooks(policy, key, policy.k, bits, p);
    }
  }

  lemma AnyProbes(policy: Policy, keys: seq<Bytes>, bits: nat, p: nat)
    requires bits > 0
    ensures ProbedByAny(policy, keys, bits, p) <==> SharesProbe(policy, keys, bits, p)
  {
    forall i | 0 <= i < |keys|
      ensures ProbedBy(policy, keys[i], bits, p) <==> LooksAt(policy, keys[i], policy.k, bits, p)
    {
      ProbedLooks(policy, keys[i], policy.k, bits, p);
    }
  }

  ghost predicate HasProbe(policy: Policy, a: Bytes, key: Bytes, j: nat)
    requires a != []
  {
    HasAt(a, ProbeAt(policy, key, 8 * |a|, j))
  }

  /** Any filter matches a key exactly when it is set at as many probes of the key as it says
      that it was made with. */
  lemma MatchesSetProbes(policy: Policy, key: Bytes, a: Bytes, k: byte)
    requires a != [] && k <= 30
    ensures MayMatch(policy, key, a + [k]) <==> forall j :: 0 <= j < k ==> HasProbe(policy, a, key, j)
  {
    var h := policy.hash(key);
    assert (a + [k])[..|a|] == a;
    HasProbesAll(a, h, Rotate(h), k);
    forall p | 0 <= p < 8 * |a|
      ensures Probed(h, Rotate(h), k, 8 * |a|, p) <==> LooksAt(policy, key, k, 8 * |a|, p)
    {
      ProbedLooks(policy, key, k, 8 * |a|, p);
    }
    if forall j :: 0 <= j < k ==> HasProbe(policy, a, key, j) {
      forall p | 0 <= p < 8 * |a| && LooksAt(policy, key, k, 8 * |a|, p)
        ensures HasAt(a, p)
      {
        var j :| 0 <= j < k && ProbeAt(policy, key, 8 * |a|, j) == p;
        assert HasProbe(policy, a, key, j);
      }
    } else {
      var j :| 0 <= j < k && !HasProbe(policy, a, key, j);
      assert LooksAt(policy, key, k, 8 * |a|, ProbeAt(policy, key, 8 * |a|, j));
    }
  }

  // The loops

  method CreateFilter(policy: Policy, keys: seq<Bytes>, dst: Bytes) returns (r: Bytes)
    requires Sound(policy)
    ensures r == dst + Filter(policy, keys)
  {
    var bits := |keys| * policy.bitsPerKey;
    if bits < 64 {
      bits := 64;
    }
    var bytes := (bits + 7) / 8;
    bits := bytes * 8;
    var bitmap := new byte[bytes](_ => 0);
    assert bitmap[..] == Zeros(bytes);
    for i := 0 to |keys|
      invariant AddKeys(policy, bitmap[..], keys[i..]) == AddKeys(policy, Zeros(bytes), keys)
    {
      var h := policy.hash(keys[i]);
      SetKeyBits(bitmap, h, Rotate(h), policy.k);
      assert keys[i..][1..] == keys[i + 1..];
    }
    r := dst + (bitmap[..] + [policy.k]);
  }

  method SetKeyBits(bitmap: array<byte>, hash: Word32, delta: Word32, k: nat)
    requires bitmap.Length > 0
    modifies bitmap
    ensures bitmap[..] == SetProbes(old(bitmap[..]), hash, delta, k)
  {
    var h: Word32 := hash;
    for j := 0 to k
      invariant SetProbes(bitmap[..], h, delta, k - j) == SetProbes(old(bitmap[..]), hash, delta, k)
    {
      var bitpos := h % (8 * bitmap.Length);
      ghost var before := bitmap[..];
      bitmap[bitpos / 8] := SetBit(bitmap[bitpos / 8], BitIndex(bitpos));
      assert bitmap[..] == SetAt(before, bitpos);
      h := NextHash(h, delta);
    }
  }

  method KeyMayMatch(policy: Policy, key: Bytes, filter: Bytes) returns (b: bool)
    ensures b == MayMatch(policy, key, filter)
  {
    var len := |filter|;
    if len < 2 {
      return false;
    }
    var bits, k := (len - 1) * 8, filter[len - 1];
    if k > 30 {
      return true;
    }
    var h: Word32 := policy.hash(key);
    var delta := Rotate(h);
    var a := filter[..len - 1];
    for j := 0 to k
      invariant HasProbes(a, h, delta, k - j) == MayMatch(policy, key, filter)
    {
      var bitpos := h % bits;
      if !HasBit(filter[bitpos / 8], BitIndex(bitpos)) {
        return false;
      }
      h := NextHash(h, delta);
    }
    return true;
  }
}
