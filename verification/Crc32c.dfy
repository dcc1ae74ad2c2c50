/** The CRC-32C checksum, four bytes at a time (util/crc32c.cc, util/crc32c.h).

    What the proofs need of the register is stated of any step that is linear and moves
    out low zero bytes; `Octet` is the step of CRC-32C. */
module Crc32c {
  import opened Registers

  /** The polynomial of section 12.1 of RFC 3720, bits reversed. */
  const Polynomial: bv32 := 0x82f6_3b78

  /** One bit of the division. */
  function Bit(x: bv32): bv32 {
    if x & 1 == 1 then (x >> 1) ^ Polynomial else x >> 1
  }

  function Xor(x: bv32, y: bv32): bv32 {
    x ^ y
  }

  /** Eight bits of the division. */
  function Octet(x: bv32): bv32 {
    Times(Bit, 8, x)
  }

  type Step = bv32 -> bv32

  type Char = x: bv32 | x <= 0xff

  /** The register after `data`, one byte at a time. */
  function Remainder(step: Step, l: bv32, data: seq<Char>): bv32
    decreases |data|
  {
    if data == [] then l else Remainder(step, step(Xor(l, data[0])), data[1..])
  }

  function Flip(x: bv32): bv32 {
    x ^ 0xffff_ffff
  }

  /** The checksum of a string that starts with one whose checksum is `crc` and ends with `data`. */
  function Extended(step: Step, crc: bv32, data: seq<Char>): bv32 {
    Flip(Remainder(step, Flip(crc), data))
  }

  /** CRC-32C. */
  function Value(data: seq<Char>): bv32 {
    Extended(Octet, 0, data)
  }

  predicate LowZero(x: bv32) {
    x & 0xff == 0
  }

  /** Low zero bits are only shifted out. */
  ghost predicate Shifts(step: Step) {
    forall x {:trigger LowZero(x)} :: LowZero(x) ==> step(x) == x >> 8
  }

  ghost predicate GoodStep(step: Step) {
    Linear(step, Xor) && Shifts(step)
  }

  // The step of CRC-32C

  lemma BitIsLinear(x: bv32, y: bv32)
    ensures Bit(x ^ y) == Bit(x) ^ Bit(y)
  {
    LowBits(x, y);
    Cancels(x >> 1, y >> 1, Polynomial);
  }

  lemma LowBits(x: bv32, y: bv32)
    ensures (x ^ y) >> 1 == (x >> 1) ^ (y >> 1)
    ensures (x ^ y) & 1 == (x & 1) ^ (y & 1)
    ensures (x & 1 == 0 || x & 1 == 1) && (y & 1 == 0 || y & 1 == 1)
  {
  }

  lemma Cancels(x: bv32, y: bv32, p: bv32)
    ensures x ^ p ^ y == x ^ y ^ p
    ensures (x ^ p) ^ (y ^ p) == x ^ y
  {
  }

  /** Nothing is lost: the top bit tells whether the polynomial was taken out. */
  lemma BitIsInjective(x: bv32, y: bv32)
    requires Bit(x) == Bit(y)
    ensures x == y
  {
  }

  lemma OctetShifts(x: bv32)
    requires x & 0xff == 0
    ensures Octet(x) == x >> 8
  {
  }

  lemma OctetIsGood()
    ensures GoodStep(Octet) && Injective(Octet)
  {
    assert Linear(Bit, Xor) by {
      forall x, y
        ensures Bit(Xor(x, y)) == Xor(Bit(x), Bit(y))
      {
        BitIsLinear(x, y);
      }
    }
    assert Injective(Bit) by {
      forall x, y | Bit(x) == Bit(y)
        ensures x == y
      {
        BitIsInjective(x, y);
      }
    }
    PowerIsLinear(Bit, Octet, Xor, 8);
    PowerIsInjective(Bit, Octet, 8);
    assert Shifts(Octet) by {
      forall x | LowZero(x)
        ensures Octet(x) == x >> 8
      {
        OctetShifts(x);
      }
    }
  }

  // One byte by table

  /** table0_ to table3_: what a byte leaves in the register after one to four steps. */
  function Table0(step: Step, c: bv32): bv32 {
    step(c)
  }

  function Table1(step: Step, c: bv32): bv32 {
    step(Table0(step, c))
  }

  function Table2(step: Step, c: bv32): bv32 {
    step(Table1(step, c))
  }

  function Table3(step: Step, c: bv32): bv32 {
    step(Table2(step, c))
  }

  // The entries of the four tables at the powers of two; the other entries are sums of these.

  function Row(c: bv32): seq<bv32> {
    [Table0(Octet, c), Table1(Octet, c), Table2(Octet, c), Table3(Octet, c)]
  }

  lemma Row01()
    ensures Row(0x01) == [0xf26b_8303, 0x13a2_9877, 0xa541_927e, 0xdd45_aab8]
  {
    assert Octet(0xf26b_8303) == 0x13a2_9877;
    assert Octet(0x13a2_9877) == 0xa541_927e;
    assert Octet(0xa541_927e) == 0xdd45_aab8;
  }

  lemma Row02()
    ensures Row(0x02) == [0xe13b_70f7, 0x2745_30ee, 0x4f6f_520d, 0xbf67_2381]
  {
    assert Octet(0xe13b_70f7) == 0x2745_30ee;
    assert Octet(0x2745_30ee) == 0x4f6f_520d;
    assert Octet(0x4f6f_520d) == 0xbf67_2381;
  }

  lemma Row04()
    ensures Row(0x04) == [0xc79a_971f, 0x4e8a_61dc, 0x9ede_a41a, 0x7b22_31f3]
  {
    assert Octet(0xc79a_971f) == 0x4e8a_61dc;
    assert Octet(0x4e8a_61dc) == 0x9ede_a41a;
    assert Octet(0x9ede_a41a) == 0x7b22_31f3;
  }

  lemma Row08()
    ensures Row(0x08) == [0x8ad9_58cf, 0x9d14_c3b8, 0x3851_3ec5, 0xf644_63e6]
  {
    assert Octet(0x8ad9_58cf) == 0x9d14_c3b8;
    assert Octet(0x9d14_c3b8) == 0x3851_3ec5;
    assert Octet(0x3851_3ec5) == 0xf644_63e6;
  }

  lemma Row10()
    ensures Row(0x10) == [0x105e_c76f, 0x3fc5_f181, 0x70a2_7d8a, 0xe964_b13d]
  {
    assert Octet(0x105e_c76f) == 0x3fc5_f181;
    assert Octet(0x3fc5_f181) == 0x70a2_7d8a;
    assert Octet(0x70a2_7d8a) == 0xe964_b13d;
  }

  lemma Row20()
    ensures Row(0x20) == [0x20bd_8ede, 0x7f8b_e302, 0xe144_fb14, 0xd725_148b]
  {
    assert Octet(0x20bd_8ede) == 0x7f8b_e302;
    assert Octet(0x7f8b_e302) == 0xe144_fb14;
    assert Octet(0xe144_fb14) == 0xd725_148b;
  }

  lemma Row40()
    ensures Row(0x40) == [0x417b_1dbc, 0xff17_c604, 0xc765_80d9, 0xaba6_5fe7]
  {
    assert Octet(0x417b_1dbc) == 0xff17_c604;
    assert Octet(0xff17_c604) == 0xc765_80d9;
    assert Octet(0xc765_80d9) == 0xaba6_5fe7;
  }

  lemma Row80()
    ensures Row(0x80) == [0x82f6_3b78, 0xfbc3_faf9, 0x8b27_7743, 0x52a0_c93f]
  {
    assert Octet(0x82f6_3b78) == 0xfbc3_faf9;
    assert Octet(0xfbc3_faf9) == 0x8b27_7743;
    assert Octet(0x8b27_7743) == 0x52a0_c93f;
  }

  lemma Halves(l: bv32)
    ensures (l & 0xff) ^ (l & 0xffff_ff00) == l
  {
  }

  lemma Swap(p: bv32, q: bv32, b: bv32)
    ensures (p ^ b) ^ q == (p ^ q) ^ b
  {
  }

  lemma Regroup(l: bv32, b: bv32)
    ensures Xor(Xor(l & 0xff, b), l & 0xffff_ff00) == Xor(l, b)
  {
    Halves(l);
    Swap(l & 0xff, l & 0xffff_ff00, b);
  }

  lemma HighHalf(l: bv32)
    ensures LowZero(l & 0xffff_ff00) && (l & 0xffff_ff00) >> 8 == l >> 8
  {
  }

  /** The register step is one table lookup on the low byte. */
  lemma TableStep(step: Step, l: bv32, b: bv32)
    requires GoodStep(step)
    ensures step(Xor(l, b)) == Xor(Table0(step, Xor(l & 0xff, b)), l >> 8)
  {
    Regroup(l, b);
    HighHalf(l);
    assert step(l & 0xffff_ff00) == l >> 8;
  }

  // Four bytes by table

  /** LE_LOAD32. */
  function Word(d: seq<Char>): bv32
    requires |d| >= 4
  {
    (d[0] as bv32) | ((d[1] as bv32) << 8) | ((d[2] as bv32) << 16) | ((d[3] as bv32) << 24)
  }

  function Byte0(c: bv32): bv32 {
    c & 0xff
  }

  function Byte1(c: bv32): bv32 {
    (c >> 8) & 0xff
  }

  function Byte2(c: bv32): bv32 {
    (c >> 16) & 0xff
  }

  function Byte3(c: bv32): bv32 {
    c >> 24
  }

  function TableSum(step: Step, b0: bv32, b1: bv32, b2: bv32, b3: bv32): bv32 {
    Xor(Xor(Xor(Table3(step, b0), Table2(step, b1)), Table1(step, b2)), Table0(step, b3))
  }

  function ByTables(step: Step, c: bv32): bv32 {
    TableSum(step, Byte0(c), Byte1(c), Byte2(c), Byte3(c))
  }

  lemma Placed(b: bv32)
    requires b <= 0xff
    ensures LowZero(b << 8) && (b << 8) >> 8 == b
    ensures LowZero(b << 16) && (b << 16) >> 8 == b << 8
    ensures LowZero(b << 24) && (b << 24) >> 8 == b << 16
  {
  }

  /** A byte placed higher in the word is moved down by the steps before its own. */
  lemma PlacedSteps(step: Step, b: bv32)
    requires b <= 0xff && GoodStep(step)
    ensures step(b << 8) == b && step(step(b << 16)) == b && step(step(step(b << 24))) == b
  {
    Placed(b);
  }

  lemma ByteBounds(c: bv32)
    ensures Byte0(c) <= 0xff && Byte1(c) <= 0xff && Byte2(c) <= 0xff && Byte3(c) <= 0xff
    ensures c == Xor(Xor(Xor(Byte0(c), Byte1(c) << 8), Byte2(c) << 16), Byte3(c) << 24)
  {
  }

  lemma Disjoint(b0: bv32, b1: bv32, b2: bv32, b3: bv32)
    requires b0 <= 0xff && b1 <= 0xff && b2 <= 0xff && b3 <= 0xff
    ensures b0 | (b1 << 8) | (b2 << 16) | (b3 << 24) == Xor(Xor(Xor(b0, b1 << 8), b2 << 16), b3 << 24)
  {
  }

  lemma XorIsAssociative()
    ensures Associative(Xor)
  {
  }

  lemma WordOfBytes(l: bv32, b0: bv32, b1: bv32, b2: bv32, b3: bv32)
    requires b0 <= 0xff && b1 <= 0xff && b2 <= 0xff && b3 <= 0xff
    ensures Xor(l, b0 | (b1 << 8) | (b2 << 16) | (b3 << 24)) == Xor(Xor(Xor(Xor(l, b0), b1 << 8), b2 << 16), b3 << 24)
  {
    Disjoint(b0, b1, b2, b3);
    XorIsAssociative();
    ChainOfFive(Xor, l, b0, b1 << 8, b2 << 16, b3 << 24);
  }

  lemma PartsOfWord(step: Step, b0: bv32, b1: bv32, b2: bv32, b3: bv32, w1: bv32, w2: bv32, w3: bv32)
    requires GoodStep(step) && step(w1) == b1 && step(step(w2)) == b2 && step(step(step(w3))) == b3
    ensures step(step(step(step(Xor(Xor(Xor(b0, w1), w2), w3)))))
            == TableSum(step, b0, b1, b2, b3)
  {
    FourParts(step, Xor, b0, b1, b2, b3, w1, w2, w3);
  }

  lemma StepsOfParts(step: Step, c: bv32, b0: bv32, b1: bv32, b2: bv32, b3: bv32)
    requires GoodStep(step) && b1 <= 0xff && b2 <= 0xff && b3 <= 0xff
    requires c == Xor(Xor(Xor(b0, b1 << 8), b2 << 16), b3 << 24)
    ensures step(step(step(step(c)))) == TableSum(step, b0, b1, b2, b3)
  {
    PlacedSteps(step, b1);
    PlacedSteps(step, b2);
    PlacedSteps(step, b3);
    PartsOfWord(step, b0, b1, b2, b3, b1 << 8, b2 << 16, b3 << 24);
  }

  /** The four tables divide a whole word out of the register. */
  lemma TablesAreFourSteps(step: Step, c: bv32)
    requires GoodStep(step)
    ensures ByTables(step, c) == step(step(step(step(c))))
  {
    ByteBounds(c);
    StepsOfParts(step, c, Byte0(c), Byte1(c), Byte2(c), Byte3(c));
  }

  lemma BytesAreWord(step: Step, l: bv32, b0: bv32, b1: bv32, b2: bv32, b3: bv32)
    requires GoodStep(step) && b0 <= 0xff && b1 <= 0xff && b2 <= 0xff && b3 <= 0xff
    ensures step(Xor(step(Xor(step(Xor(step(Xor(l, b0)), b1)), b2)), b3))
            == step(step(step(step(Xor(l, b0 | (b1 << 8) | (b2 << 16) | (b3 << 24))))))
  {
    PlacedSteps(step, b1);
    PlacedSteps(step, b2);
    PlacedSteps(step, b3);
    WordOfBytes(l, b0, b1, b2, b3);
    FourSteps(step, Xor, Xor(l, b0), b1, b2, b3, b1 << 8, b2 << 16, b3 << 24);
  }

  lemma {:induction false} Unrolled(step: Step, l: bv32, d: seq<Char>)
    requires |d| >= 2
    ensures Remainder(step, l, d) == Remainder(step, step(Xor(step(Xor(l, d[0])), d[1])), d[2..])
  {
    assert d[1..][1..] == d[2..];
  }

  /** A word is taken in as its four bytes are, one after the other. */
  lemma {:induction false} FourAtOnce(step: Step, l: bv32, d: seq<Char>)
    requires |d| >= 4 && GoodStep(step)
    ensures Remainder(step, l, d) == Remainder(step, step(step(step(step(Xor(l, Word(d)))))), d[4..])
  {
    Unrolled(step, l, d);
    Unrolled(step, step(Xor(step(Xor(l, d[0])), d[1])), d[2..]);
    assert d[2..][2..] == d[4..];
    BytesAreWord(step, l, d[0], d[1], d[2], d[3]);
  }

  method StepOne(step: Step, l: bv32, d: seq<Char>) returns (r: bv32)
    requires d != [] && GoodStep(step)
    ensures Remainder(step, r, d[1..]) == Remainder(step, l, d)
  {
    var c := Xor(l & 0xff, d[0]);
    r := Xor(Table0(step, c), l >> 8);
    TableStep(step, l, d[0]);
  }

  method StepFour(step: Step, l: bv32, d: seq<Char>) returns (r: bv32)
    requires |d| >= 4 && GoodStep(step)
    ensures Remainder(step, r, d[4..]) == Remainder(step, l, d)
  {
    var c := Xor(l, Word(d));
    r := ByTables(step, c);
    TablesAreFourSteps(step, c);
    FourAtOnce(step, l, d);
  }

  method StepSixteen(step: Step, l: bv32, d: seq<Char>) returns (r: bv32)
    requires |d| >= 16 && GoodStep(step)
    ensures Remainder(step, r, d[16..]) == Remainder(step, l, d)
  {
    r := StepFour(step, l, d);
    r := StepFour(step, r, d[4..]);
    r := StepFour(step, r, d[4..][4..]);
    r := StepFour(step, r, d[4..][4..][4..]);
    assert d[4..][4..][4..][4..] == d[16..];
  }

  /** Extend, for a buffer that lies at `address`. */
  method Extend(crc: bv32, buf: seq<Char>, address: nat) returns (r: bv32)
    ensures r == Extended(Octet, crc, buf)
  {
    OctetIsGood();
    var l := Flip(crc);
    l := TakeIn(Octet, l, buf, address);
    r := Flip(l);
  }

  method TakeIn(step: Step, start: bv32, buf: seq<Char>, address: nat) returns (l: bv32)
    requires GoodStep(step)
    ensures l == Remainder(step, start, buf)
  {
    var p;
    l, p := TakeHead(step, start, buf, address);
    l, p := TakeWords(step, start, buf, l, p);
    while p != |buf|
      invariant p <= |buf| && Remainder(step, l, buf[p..]) == Remainder(step, start, buf)
    {
      l := StepOne(step, l, buf[p..]);
      assert buf[p..][1..] == buf[p + 1..];
      p := p + 1;
    }
  }

  /** Takes in bytes until the rest of the buffer is aligned, if it is ever. */
  method TakeHead(step: Step, start: bv32, buf: seq<Char>, address: nat) returns (l: bv32, p: nat)
    requires GoodStep(step)
    ensures p <= |buf| && Remainder(step, l, buf[p..]) == Remainder(step, start, buf)
    ensures p == 0 || (address + p) % 4 == 0
  {
    l, p := start, 0;
    assert buf[0..] == buf;
    var x := (address + 3) / 4 * 4 - address;
    if x <= |buf| {
      while p != x
        invariant p <= x && Remainder(step, l, buf[p..]) == Remainder(step, start, buf)
      {
        l := StepOne(step, l, buf[p..]);
        assert buf[p..][1..] == buf[p + 1..];
        p := p + 1;
      }
    }
  }

  method TakeWords(step: Step, ghost start: bv32, buf: seq<Char>, l0: bv32, p0: nat) returns (l: bv32, p: nat)
    requires GoodStep(step) && p0 <= |buf| && Remainder(step, l0, buf[p0..]) == Remainder(step, start, buf)
    ensures p <= |buf| < p + 4 && Remainder(step, l, buf[p..]) == Remainder(step, start, buf)
  {
    l, p := l0, p0;
    while |buf| - p >= 16
      invariant p <= |buf| && Remainder(step, l, buf[p..]) == Remainder(step, start, buf)
    {
      l := StepSixteen(step, l, buf[p..]);
      assert buf[p..][16..] == buf[p + 16..];
      p := p + 16;
    }
    while |buf| - p >= 4
      invariant p <= |buf| && Remainder(step, l, buf[p..]) == Remainder(step, start, buf)
    {
      l := StepFour(step, l, buf[p..]);
      assert buf[p..][4..] == buf[p + 4..];
      p := p + 4;
    }
  }

  // What the checksum is for

  lemma {:induction false} RemainderOfConcat(step: Step, l: bv32, a: seq<Char>, b: seq<Char>)
    ensures Remainder(step, l, a + b) == Remainder(step, Remainder(step, l, a), b)
    decreases |a|
  {
    if a == [] {
      assert a + b == b;
    } else {
      assert (a + b)[1..] == a[1..] + b;
      RemainderOfConcat(step, step(Xor(l, a[0])), a[1..], b);
    }
  }

  lemma Complemented(x: bv32)
    ensures Flip(Flip(x)) == x
  {
  }

  /** The checksum of a string can be computed from that of its front. */
  lemma ExtendContinues(step: Step, crc: bv32, a: seq<Char>, b: seq<Char>)
    ensures Extended(step, Extended(step, crc, a), b) == Extended(step, crc, a + b)
  {
    RemainderOfConcat(step, Flip(crc), a, b);
    Complemented(Remainder(step, Flip(crc), a));
  }

  lemma ValueContinues(a: seq<Char>, b: seq<Char>)
    ensures Extended(Octet, Value(a), b) == Value(a + b)
  {
    ExtendContinues(Octet, 0, a, b);
  }

  lemma XorIsInjective(x: bv32, y: bv32, z: bv32)
    requires Xor(x, z) == Xor(y, z) || Xor(z, x) == Xor(z, y)
    ensures x == y
  {
  }

  /** Registers that differ stay different. */
  lemma {:induction false} RemainderIsInjective(step: Step, l: bv32, m: bv32, d: seq<Char>)
    requires Injective(step) && Remainder(step, l, d) == Remainder(step, m, d)
    ensures l == m
    decreases |d|
  {
    if d != [] {
      RemainderIsInjective(step, step(Xor(l, d[0])), step(Xor(m, d[0])), d[1..]);
      XorIsInjective(l, m, d[0]);
    }
  }

  lemma WordIsInjective(a: seq<Char>, b: seq<Char>)
    requires |a| == |b| == 4 && Word(a) == Word(b)
    ensures a == b
  {
  }

  /** Four bytes leave different registers unless they are the same bytes. */
  lemma {:induction false} FourBytesTell(step: Step, l: bv32, a: seq<Char>, b: seq<Char>)
    requires GoodStep(step) && Injective(step)
    requires |a| == |b| == 4 && Remainder(step, l, a) == Remainder(step, l, b)
    ensures a == b
  {
    FourAtOnce(step, l, a);
    FourAtOnce(step, l, b);
    FourStepsTell(step, Xor(l, Word(a)), Xor(l, Word(b)));
    XorIsInjective(Word(a), Word(b), l);
    WordIsInjective(a, b);
  }

  function Padding(n: nat): (p: seq<Char>)
    ensures |p| == n
  {
    seq(n, _ => 0)
  }

  /** Damage confined to four bytes in a row changes the checksum. */
  lemma BurstChangesChecksum(crc: bv32, front: seq<Char>, a: seq<Char>, b: seq<Char>, rest: seq<Char>)
    requires |a| == |b| <= 4 && a != b
    ensures Extended(Octet, crc, front + a + rest) != Extended(Octet, crc, front + b + rest)
  {
    OctetIsGood();
    BurstChangesRemainder(Octet, Flip(crc), front, a, b, rest);
    Complemented(Remainder(Octet, Flip(crc), front + a + rest));
    Complemented(Remainder(Octet, Flip(crc), front + b + rest));
  }

  /** Fewer than four bytes tell, too: zeros after them do not matter. */
  lemma {:induction false} FewBytesTell(step: Step, l: bv32, a: seq<Char>, b: seq<Char>)
    requires GoodStep(step) && Injective(step)
    requires |a| == |b| <= 4 && Remainder(step, l, a) == Remainder(step, l, b)
    ensures a == b
  {
    var z := Padding(4 - |a|);
    RemainderOfConcat(step, l, a, z);
    RemainderOfConcat(step, l, b, z);
    FourBytesTell(step, l, a + z, b + z);
    assert a == (a + z)[..|a|] && b == (b + z)[..|a|];
  }

  lemma {:induction false} BurstChangesRemainder(step: Step, l: bv32, front: seq<Char>, a: seq<Char>, b: seq<Char>,
                                                 rest: seq<Char>)
    requires GoodStep(step) && Injective(step) && |a| == |b| <= 4 && a != b
    ensures Remainder(step, l, front + a + rest) != Remainder(step, l, front + b + rest)
  {
    var m := Remainder(step, l, front);
    RemainderOfConcat(step, l, front + a, rest);
    RemainderOfConcat(step, l, front + b, rest);
    RemainderOfConcat(step, l, front, a);
    RemainderOfConcat(step, l, front, b);
    if Remainder(step, l, front + a + rest) == Remainder(step, l, front + b + rest) {
      RemainderIsInjective(step, Remainder(step, m, a), Remainder(step, m, b), rest);
      FewBytesTell(step, m, a, b);
    }
  }

  // Before and after the division

  /** The register starts as the complement of the checksum so far, and the checksum is the
      complement of the register. */
  lemma {:induction false} ExtendedComplements(step: Step, crc: bv32, data: seq<Char>)
    ensures Extended(step, crc, data) == Remainder(step, crc ^ 0xffff_ffff, data) ^ 0xffff_ffff
  {
  }

  /** The registers that eight bits of the division leave as they are. */
  const Still: bv32 := 0xfca4_2daf

  lemma OctetMoves(x: bv32)
    ensures Octet(x) == x <==> x == 0 || x == Still
  {
  }

  /** A zero in front of the data changes what they extend a checksum to, unless the
      complement of that checksum is one of two registers. */
  lemma ZeroInFrontTells(crc: bv32, d: seq<Char>)
    ensures Extended(Octet, crc, [0] + d) == Extended(Octet, crc, d)
            <==> crc == 0xffff_ffff || crc == 0xffff_ffff ^ Still
  {
    var l := crc ^ 0xffff_ffff;
    assert ([0] + d)[1..] == d;
    OctetMoves(l);
    OctetIsGood();
    if Remainder(Octet, Octet(l), d) == Remainder(Octet, l, d) {
      RemainderIsInjective(Octet, Octet(l), l, d);
    }
    Complemented(Remainder(Octet, Octet(l), d));
    Complemented(Remainder(Octet, l, d));
  }

  /** So a zero in front of a string changes its checksum. */
  lemma LeadingZeroCounts(d: seq<Char>)
    ensures Value([0] + d) != Value(d)
  {
    ZeroInFrontTells(0, d);
  }

  /** Four bytes of a string, with the registers that they lead to. */
  lemma TakesFour(d: seq<Char>, i: nat, l: bv32, c1: bv32, c2: bv32, c3: bv32, c4: bv32, r1: bv32, r2: bv32,
                  r3: bv32, r4: bv32)
    requires i + 4 <= |d| && d[i] == c1 && d[i + 1] == c2 && d[i + 2] == c3 && d[i + 3] == c4
    requires Octet(l ^ c1) == r1 && Octet(r1 ^ c2) == r2 && Octet(r2 ^ c3) == r3 && Octet(r3 ^ c4) == r4
    ensures Remainder(Octet, l, d[i..]) == Remainder(Octet, r4, d[i + 4..])
  {
    TakesOne(d, i, l, c1, r1);
    TakesOne(d, i + 1, r1, c2, r2);
    TakesOne(d, i + 2, r2, c3, r3);
    TakesOne(d, i + 3, r3, c4, r4);
  }

  lemma TakesOne(d: seq<Char>, i: nat, l: bv32, c: bv32, r: bv32)
    requires i < |d| && d[i] == c && Octet(l ^ c) == r
    ensures Remainder(Octet, l, d[i..]) == Remainder(Octet, r, d[i + 1..])
  {
    assert d[i..][0] == c && d[i..][1..] == d[i + 1..];
  }

  lemma {:induction false} FirstZeros(d: seq<Char>)
    requires |d| == 32 && forall i :: 0 <= i < 32 ==> d[i] == 0
    ensures Remainder(Octet, 0xffff_ffff, d) == Remainder(Octet, 0xbd8f_6515, d[16..])
  {
    assert d[0..] == d;
    TakesFour(d, 0, 0xffff_ffff, 0, 0, 0, 0, 0xad82_acae, 0x0e9e_882d, 0x9f9b_5c85, 0xb798_b438);
    TakesFour(d, 4, 0xb798_b438, 0, 0, 0, 0, 0xba8d_89ca, 0xa8d5_8375, 0x44c1_9592, 0x73d7_4d75);
    TakesFour(d, 8, 0x73d7_4d75, 0, 0, 0, 0, 0x441a_975c, 0x1c22_0f94, 0x552e_4907, 0xd49f_4aa2);
    TakesFour(d, 12, 0xd49f_4aa2, 0, 0, 0, 0, 0x43a4_5a1b, 0x8994_c80e, 0xacf1_2bef, 0xbd8f_6515);
  }

  /** The checksum of 32 zeros, as section B.4 of RFC 3720 gives it. */
  lemma ValueOfZeros(d: seq<Char>)
    requires |d| == 32 && forall i :: 0 <= i < 32 ==> d[i] == 0
    ensures Value(d) == 0x8a91_36aa
  {
    FirstZeros(d);
    TakesFour(d, 16, 0xbd8f_6515, 0, 0, 0, 0, 0x2512_5c16, 0x36da_32db, 0x4a6c_90a2, 0x433a_a9c1);
    TakesFour(d, 20, 0x433a_a9c1, 0, 0, 0, 0, 0x31a5_9f6e, 0xcd8f_89da, 0xb8fc_461a, 0x7b04_1311);
    TakesFour(d, 24, 0x7b04_1311, 0, 0, 0, 0, 0xe24e_407f, 0x2f69_2669, 0x195b_2188, 0x0836_3896);
    TakesFour(d, 28, 0x0836_3896, 0, 0, 0, 0, 0xb401_2dc7, 0x17f3_4302, 0xe12c_83b4, 0x756e_c955);
    assert d[32..] == [];
  }

  lemma {:induction false} FirstAscending(d: seq<Char>)
    requires |d| == 32 && forall i :: 0 <= i < 32 ==> d[i] == i as bv32
    ensures Remainder(Octet, 0xffff_ffff, d) == Remainder(Octet, 0x2636_f714, d[16..])
  {
    assert d[0..] == d;
    TakesFour(d, 0, 0xffff_ffff, 0, 1, 2, 3, 0xad82_acae, 0xfcf5_0b2e, 0x6d02_b405, 0x26cc_e55c);
    TakesFour(d, 4, 0x26cc_e55c, 4, 5, 6, 7, 0xdbda_4ef9, 0xbef6_7aeb, 0x5ca6_12b3, 0x75d3_43c4);
    TakesFour(d, 8, 0x75d3_43c4, 8, 9, 10, 11, 0x8ebb_3a57, 0xfdd3_dece, 0x04ea_6205, 0xac7c_5545);
    TakesFour(d, 12, 0xac7c_5545, 12, 13, 14, 15, 0x3965_ba25, 0xaa5d_b3ab, 0x9710_fc09, 0x2636_f714);
  }

  /** That of 32 bytes counting up. */
  lemma ValueOfAscending(d: seq<Char>)
    requires |d| == 32 && forall i :: 0 <= i < 32 ==> d[i] == i as bv32
    ensures Value(d) == 0x46dd_794e
  {
    FirstAscending(d);
    TakesFour(d, 16, 0x2636_f714, 16, 17, 18, 19, 0xc7bc_a1e8, 0x8b1b_0818, 0x6b69_3330, 0x3386_1419);
    TakesFour(d, 20, 0x3386_1419, 20, 21, 22, 23, 0xbf1b_cac7, 0x3257_8a96, 0x82c4_6cf2, 0xd643_786a);
    TakesFour(d, 24, 0xd643_786a, 24, 25, 26, 27, 0x9075_6782, 0x0bb1_224b, 0xa345_e8f2, 0x9b21_363e);
    TakesFour(d, 28, 0x9b21_363e, 28, 29, 30, 31, 0xc11d_df1f, 0xe1fa_6d28, 0x16a3_5434, 0xb922_86b1);
    assert d[32..] == [];
  }

  // The stored form

  const MaskDelta: bv32 := 0xa282_ead8

  function Mask(crc: bv32): bv32 {
    ((crc >> 15) | (crc << 17)) + MaskDelta
  }

  function Unmask(masked: bv32): bv32 {
    var rot := masked - MaskDelta;
    (rot >> 17) | (rot << 15)
  }

  lemma UnmaskUndoesMask(crc: bv32)
    ensures Unmask(Mask(crc)) == crc
  {
    var rotated := (crc >> 15) | (crc << 17);
    assert rotated + MaskDelta - MaskDelta == rotated;
  }

  lemma MaskUndoesUnmask(masked: bv32)
    ensures Mask(Unmask(masked)) == masked
  {
  }

  /** The stored form differs from the checksum, and from that of the stored form, except for
      two of all values. */
  lemma MaskHides(crc: bv32)
    ensures Mask(crc) == crc <==> crc == 0x8299_f00b || crc == 0xd7ee_9ab5
    ensures Mask(Mask(crc)) == crc <==> crc == 0x8299_f00b || crc == 0xd7ee_9ab5
  {
  }
}
