/** The checksum of the log's physical records (db/log_writer.cc, db/log_reader.cc), and
    which damage it is sure to catch. */
module LogChecksums {
  import opened Bytes
  import opened Crc32c
  import opened LogFormat
  import opened LogDamage

  function Widen(v: bv8): Char {
    v as bv32
  }

  function Narrow(c: Char): bv8 {
    c as bv8
  }

  function ToChar(b: byte): Char {
    Widen(BitsOf(b))
  }

  function ToByte(c: Char): byte {
    ByteOf(Narrow(c))
  }

  function Chars(s: Bytes): (r: seq<Char>)
    ensures |r| == |s| && forall i :: 0 <= i < |s| ==> r[i] == ToChar(s[i])
  {
    seq(|s|, i requires 0 <= i < |s| => ToChar(s[i]))
  }

  /** EncodeFixed32 and DecodeFixed32, on words of bits. */
  function Store32(w: bv32): Crc {
    ByteBounds(w);
    [ToByte(Byte0(w)), ToByte(Byte1(w)), ToByte(Byte2(w)), ToByte(Byte3(w))]
  }

  function Load32(s: Bytes): bv32
    requires |s| >= 4
  {
    Word(Chars(s[..4]))
  }

  /** A checksum as it is stored. */
  function Stored(v: bv32): Crc {
    Store32(Mask(v))
  }

  /** What EmitPhysicalRecord stores for a type byte and a payload. */
  function Sum(s: Bytes): Crc {
    Stored(Value(Chars(s)))
  }

  lemma NarrowUndoesWiden(v: bv8)
    ensures Narrow(Widen(v)) == v
  {
  }

  lemma WidenUndoesNarrow(c: Char)
    ensures Widen(Narrow(c)) == c
  {
  }

  lemma ByteRoundTrip(b: byte)
    ensures ToByte(ToChar(b)) == b
  {
    NarrowUndoesWiden(BitsOf(b));
    NumberOfBits(b);
  }

  lemma CharRoundTrip(c: Char)
    ensures ToChar(ToByte(c)) == c
  {
    BitsOfNumber(Narrow(c));
    WidenUndoesNarrow(c);
  }

  lemma WordRoundTrip(w: bv32)
    ensures Byte0(w) | (Byte1(w) << 8) | (Byte2(w) << 16) | (Byte3(w) << 24) == w
  {
  }

  lemma LoadUndoesStore(w: bv32)
    ensures Load32(Store32(w)) == w
  {
    ByteBounds(w);
    CharRoundTrip(Byte0(w));
    CharRoundTrip(Byte1(w));
    CharRoundTrip(Byte2(w));
    CharRoundTrip(Byte3(w));
    WordRoundTrip(w);
    assert Chars(Store32(w)[..4]) == [Byte0(w), Byte1(w), Byte2(w), Byte3(w)];
  }

  lemma CharsTell(a: Bytes, b: Bytes)
    requires Chars(a) == Chars(b)
    ensures a == b
  {
    forall i | 0 <= i < |a|
      ensures a[i] == b[i]
    {
      ByteRoundTrip(a[i]);
      ByteRoundTrip(b[i]);
      assert Chars(a)[i] == Chars(b)[i];
    }
  }

  lemma StoreUndoesLoad(s: Bytes)
    requires |s| == 4
    ensures Store32(Load32(s)) == s
  {
    LoadUndoesStore(Load32(s));
    assert s[..4] == s && Store32(Load32(s))[..4] == Store32(Load32(s));
    WordIsInjective(Chars(Store32(Load32(s))), Chars(s));
    CharsTell(Store32(Load32(s)), s);
  }

  lemma {:induction false} WriterValue(t: byte, payload: Bytes)
    ensures Extended(Octet, Value(Chars([t])), Chars(payload)) == Value(Chars([t] + payload))
  {
    ValueContinues(Chars([t]), Chars(payload));
    assert Chars([t] + payload) == Chars([t]) + Chars(payload);
  }

  /** The writer starts from the stored checksum of the type byte. */
  lemma {:induction false} WriterSum(t: byte, payload: Bytes)
    ensures Stored(Extended(Octet, Value(Chars([t])), Chars(payload))) == Sum([t] + payload)
  {
    WriterValue(t, payload);
  }

  /** The reader's comparison is that of the stored bytes. */
  lemma ReaderCheck(stored: Bytes, s: Bytes)
    requires |stored| == 4
    ensures Unmask(Load32(stored)) == Value(Chars(s)) <==> stored == Sum(s)
  {
    var v := Value(Chars(s));
    UnmaskUndoesMask(v);
    LoadUndoesStore(Mask(v));
    MaskUndoesUnmask(Load32(stored));
    StoreUndoesLoad(stored);
  }

  lemma SumsTell(a: Bytes, b: Bytes)
    requires Sum(a) == Sum(b)
    ensures Value(Chars(a)) == Value(Chars(b))
  {
    LoadUndoesStore(Mask(Value(Chars(a))));
    LoadUndoesStore(Mask(Value(Chars(b))));
    UnmaskUndoesMask(Value(Chars(a)));
    UnmaskUndoesMask(Value(Chars(b)));
  }

  /** `now` differs from `was` at most in the `n` bytes from `k` on. */
  predicate DiffersWithin(was: Bytes, now: Bytes, k: nat, n: nat) {
    |was| == |now| && k + n <= |was| && was[..k] == now[..k] && was[k + n..] == now[k + n..]
  }

  lemma {:induction false} BurstChangesSum(was: Bytes, now: Bytes, k: nat, n: nat)
    requires n <= 4 && DiffersWithin(was, now, k, n) && was != now
    ensures Sum(was) != Sum(now)
  {
    var front, a, b, rest := was[..k], was[k..k + n], now[k..k + n], was[k + n..];
    assert was == front + a + rest && now == front + b + rest;
    CharsOfParts(front, a, rest);
    CharsOfParts(front, b, rest);
    if Chars(a) == Chars(b) {
      CharsTell(a, b);
    }
    BurstChangesChecksum(0, Chars(front), Chars(a), Chars(b), Chars(rest));
    if Sum(was) == Sum(now) {
      SumsTell(was, now);
    }
  }

  lemma {:induction false} CharsOfParts(front: Bytes, a: Bytes, rest: Bytes)
    ensures Chars(front + a + rest) == Chars(front) + Chars(a) + Chars(rest)
  {
  }

  /** What is left of a physical record whose type byte and payload were damaged in up to
      four bytes in a row, or whose stored checksum alone was damaged, and whose end may
      be missing. */
  ghost predicate SlightlyDamaged(b: Bytes, t: byte, payload: Bytes) {
    |b| < HeaderSize
    || (Length(b) == |payload|
        && (|b| < HeaderSize + |payload|
            || var was, now := [t] + payload, [b[6]] + b[HeaderSize..HeaderSize + |payload|];
               now == was || (b[..4] == Sum(was) && exists k, n :: n <= 4 && DiffersWithin(was, now, k, n))))
  }

  /** The reader refuses such a record, unless it is the one that was written. */
  lemma SmallDamageIsCaught(b: Bytes, t: byte, payload: Bytes)
    requires |payload| <= BlockSize - HeaderSize && SlightlyDamaged(b, t, payload)
    ensures CaughtHere(Sum, b, t, payload)
  {
    if Accepts(Sum, b) {
      var was, now := [t] + payload, [b[6]] + b[HeaderSize..HeaderSize + |payload|];
      assert Sum(now) == b[..4];
      if now != was {
        var k, n :| n <= 4 && DiffersWithin(was, now, k, n);
        BurstChangesSum(was, now, k, n);
      }
      assert b[6] == now[0] == t && b[HeaderSize..HeaderSize + |payload|] == now[1..] == payload;
      LengthBytes(b, |payload|);
      assert b[..HeaderSize + |payload|] == b[..4] + [b[4], b[5], b[6]] + b[HeaderSize..HeaderSize + |payload|];
    }
  }

  /** A file in which every physical record that the writer put there is slightly damaged
      at most. It may end anywhere. */
  ghost predicate DamagedInPlaces(f: Bytes, offset: nat, begin: bool, records: seq<Bytes>)
    requires offset <= BlockSize
    decreases |records|, if records == [] then 0 else |records[0]|, HeaderOffset(offset) + HeaderSize == BlockSize
  {
    if records == [] then f == []
    else
      var n, p := FragmentLength(offset, |records[0]|), After(offset, begin, records);
      var g := AtHeader(f, offset);
      && SlightlyDamaged(InBlock(g, HeaderOffset(offset)), TypeOf(begin, n == |records[0]|), records[0][..n])
      && DamagedInPlaces(g[Min(|g|, HeaderSize + n)..], p.offset, p.begin, p.records)
  }

  lemma {:induction false} DamageInPlacesIsCaught(f: Bytes, offset: nat, begin: bool, records: seq<Bytes>)
    requires offset <= BlockSize && DamagedInPlaces(f, offset, begin, records)
    ensures Caught(Sum, f, offset, begin, records)
    decreases |records|, if records == [] then 0 else |records[0]|, HeaderOffset(offset) + HeaderSize == BlockSize
  {
    if records != [] {
      var n, p := FragmentLength(offset, |records[0]|), After(offset, begin, records);
      var g := AtHeader(f, offset);
      SmallDamageIsCaught(InBlock(g, HeaderOffset(offset)), TypeOf(begin, n == |records[0]|), records[0][..n]);
      DamageInPlacesIsCaught(g[Min(|g|, HeaderSize + n)..], p.offset, p.begin, p.records);
    }
  }

  /** However many physical records of a log are damaged in this way, and wherever the file
      ends, reading it returns some of the records that were written, whole and in order. */
  lemma {:induction false} SmallDamageReadsSubsequence(file: Bytes, records: seq<Bytes>)
    requires DamagedInPlaces(file, 0, true, records)
    ensures IsSubsequence(ReadAll(Sum, Open(file)).records, records)
  {
    DamageInPlacesIsCaught(file, 0, true, records);
    DamageReadsSubsequence(Sum, file, records);
  }

  lemma LengthBytes(b: Bytes, n: nat)
    requires |b| >= HeaderSize && Length(b) == n
    ensures b[4] == n % 256 && b[5] == n / 256
  {
  }
}
