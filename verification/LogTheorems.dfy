/** What survives writing a log and reading it back, whole, cut short or damaged. */
module LogTheorems {
  import opened Bytes
  import opened LogFormat

  /** The reader has `rest` still to read and stands at `offset` of its current block. */
  ghost predicate Aligned(s: State, rest: Bytes, offset: nat) {
    && offset <= BlockSize
    && s.buffer + s.file == rest
    && |s.buffer| == Min(BlockSize - offset, |rest|)
    && (s.eof <==> |rest| < BlockSize - offset)
  }

  /** Reading past a trailer loads the next block. */
  lemma LoadBlock(sum: Checksum, s: State, rest: Bytes, offset: nat) returns (s': State)
    requires Aligned(s, rest, offset) && BlockSize - offset < HeaderSize && BlockSize - offset <= |rest|
    ensures Aligned(s', rest[BlockSize - offset..], 0)
    ensures ReadPiece(sum, s) == ReadPiece(sum, s')
  {
    var n := Min(BlockSize, |s.file|);
    s' := State(s.file[..n], s.file[n..], n < BlockSize);
    assert s.file == rest[BlockSize - offset..];
  }

  lemma HeaderParses(sum: Checksum, t: byte, payload: Bytes, more: Bytes)
    requires |payload| <= BlockSize - HeaderSize
    ensures var b := Physical(sum, t, payload) + more;
            && Length(b) == |payload| && b[6] == t && b[..4] == sum([t] + payload)
            && b[HeaderSize..HeaderSize + |payload|] == payload && b[HeaderSize + |payload|..] == more
  {
    assert |payload| == 256 * (|payload| / 256) + |payload| % 256;
  }

  predicate Written(t: byte) {
    FullType <= t <= LastType
  }

  lemma {:induction false} ReadsPieceHere(sum: Checksum, s: State, offset: nat, t: byte, payload: Bytes, after: Bytes)
    requires Written(t) && offset + HeaderSize + |payload| <= BlockSize
    requires Aligned(s, Physical(sum, t, payload) + after, offset)
    ensures var r := ReadPiece(sum, s);
            && r.piece == Record(t, payload) && r.reports == 0
            && Aligned(r.next, after, offset + HeaderSize + |payload|)
  {
    var p, size := Physical(sum, t, payload), HeaderSize + |payload|;
    var rest := p + after;
    assert s.buffer == rest[..|s.buffer|];
    assert s.buffer == p + s.buffer[size..];
    HeaderParses(sum, t, payload, s.buffer[size..]);
    assert after == rest[size..] == s.buffer[size..] + s.file;
  }

  /** A whole physical record is read back, wherever it starts in a block. */
  lemma {:induction false} ReadsPiece(sum: Checksum, s: State, offset: nat, t: byte, payload: Bytes, after: Bytes)
    requires Written(t) && offset <= BlockSize && HeaderOffset(offset) + HeaderSize + |payload| <= BlockSize
    requires Aligned(s, Trailer(offset) + Physical(sum, t, payload) + after, offset)
    ensures var r := ReadPiece(sum, s);
            && r.piece == Record(t, payload) && r.reports == 0
            && Aligned(r.next, after, HeaderOffset(offset) + HeaderSize + |payload|)
  {
    var rest := Trailer(offset) + Physical(sum, t, payload) + after;
    assert rest[|Trailer(offset)|..] == Physical(sum, t, payload) + after;
    if BlockSize - offset < HeaderSize {
      var s' := LoadBlock(sum, s, rest, offset);
      ReadsPieceHere(sum, s', 0, t, payload, after);
    } else {
      ReadsPieceHere(sum, s, offset, t, payload, after);
    }
  }

  lemma {:induction false} CutPieceHere(sum: Checksum, s: State, rest: Bytes, offset: nat, t: byte, payload: Bytes)
    requires Aligned(s, rest, offset) && offset + HeaderSize + |payload| <= BlockSize
    requires rest <= Physical(sum, t, payload) && |rest| < HeaderSize + |payload|
    ensures ReadPiece(sum, s).piece == Eof && ReadPiece(sum, s).reports == 0
  {
    var p := Physical(sum, t, payload);
    assert s.buffer == rest;
    HeaderParses(sum, t, payload, []);
    assert p + [] == p;
    assert |rest| >= HeaderSize ==> Length(rest) == Length(p);
  }

  /** A physical record that is cut short reads as the end of the file, with no report. */
  lemma {:induction false} CutPieceIsEof(sum: Checksum, s: State, rest: Bytes, offset: nat, t: byte, payload: Bytes)
    requires Aligned(s, rest, offset)
    requires HeaderOffset(offset) + HeaderSize + |payload| <= BlockSize
    requires rest <= Trailer(offset) + Physical(sum, t, payload)
    requires |rest| < |Trailer(offset)| + HeaderSize + |payload|
    ensures ReadPiece(sum, s).piece == Eof && ReadPiece(sum, s).reports == 0
  {
    if BlockSize - offset < HeaderSize {
      if BlockSize - offset <= |rest| {
        var s' := LoadBlock(sum, s, rest, offset);
        CutPieceHere(sum, s', rest[BlockSize - offset..], 0, t, payload);
      }
    } else {
      assert Trailer(offset) + Physical(sum, t, payload) == Physical(sum, t, payload);
      CutPieceHere(sum, s, rest, offset, t, payload);
    }
  }

  /** What the reader holds of the current record. */
  function Held(scratch: seq<Bytes>): Bytes {
    if scratch == [] then [] else scratch[0]
  }

  /** One fragment in its place extends what is held, and the last one completes it. */
  lemma {:induction false} TakesFragment(sum: Checksum, s: State, scratch: seq<Bytes>, payload: Bytes, last: bool)
    requires |scratch| <= 1
    requires ReadPiece(sum, s).piece == Record(TypeOf(scratch == [], last), payload) && ReadPiece(sum, s).reports == 0
    ensures var next := ReadPiece(sum, s).next;
            ReadOne(sum, s, scratch) == if last then RecordRead([Held(scratch) + payload], next, 0)
                                        else ReadOne(sum, next, [Held(scratch) + payload])
  {
    assert [] + payload == payload;
  }

  /** The first fragment of what is left of a record, with the trailer before it. */
  function Head(sum: Checksum, offset: nat, left: Bytes, begin: bool): Bytes
    requires offset <= BlockSize
  {
    var n := FragmentLength(offset, |left|);
    Trailer(offset) + Physical(sum, TypeOf(begin, n == |left|), left[..n])
  }

  /** Reading the first fragment, given that it is all there. */
  lemma TakesHead(sum: Checksum, s: State, offset: nat, left: Bytes, scratch: seq<Bytes>, after: Bytes)
    returns (next: State)
    requires offset <= BlockSize && |scratch| <= 1
    requires Aligned(s, Head(sum, offset, left, scratch == []) + after, offset)
    ensures var n := FragmentLength(offset, |left|);
            && Aligned(next, after, HeaderOffset(offset) + HeaderSize + n)
            && ReadOne(sum, s, scratch) == if n == |left| then RecordRead([Held(scratch) + left], next, 0)
                                           else ReadOne(sum, next, [Held(scratch) + left[..n]])
  {
    var n := FragmentLength(offset, |left|);
    ReadsPiece(sum, s, offset, TypeOf(scratch == [], n == |left|), left[..n], after);
    TakesFragment(sum, s, scratch, left[..n], n == |left|);
    assert left[..|left|] == left;
    next := ReadPiece(sum, s).next;
  }

  lemma {:induction false} FragmentsAre(sum: Checksum, offset: nat, left: Bytes, begin: bool, after: Bytes)
    requires offset <= BlockSize && FragmentLength(offset, |left|) < |left|
    ensures var n := FragmentLength(offset, |left|);
            Fragments(sum, offset, left, begin) + after
            == Head(sum, offset, left, begin) + (Fragments(sum, BlockSize, left[n..], false) + after)
  {
    var n := FragmentLength(offset, |left|);
    var head, more := Head(sum, offset, left, begin), Fragments(sum, BlockSize, left[n..], false);
    assert Fragments(sum, offset, left, begin) == head + more;
    assert head + more + after == head + (more + after);
  }

  lemma SplitRejoins(held: Bytes, left: Bytes, n: nat)
    requires n <= |left|
    ensures held + left[..n] + left[n..] == held + left
  {
  }

  /** The rest of a record, once its fragments are all there, completes what was read of it. */
  lemma {:induction false} ReadsFragments(sum: Checksum, s: State, offset: nat, left: Bytes, scratch: seq<Bytes>,
                                          after: Bytes)
      returns (next: State)
    requires offset <= BlockSize && |scratch| <= 1
    requires Aligned(s, Fragments(sum, offset, left, scratch == []) + after, offset)
    ensures Aligned(next, after, EndOffset(offset, |left|))
    ensures ReadOne(sum, s, scratch) == RecordRead([Held(scratch) + left], next, 0)
    decreases |left|, HeaderOffset(offset) + HeaderSize == BlockSize
  {
    var n := FragmentLength(offset, |left|);
    if n < |left| {
      var more := Fragments(sum, BlockSize, left[n..], false);
      FragmentsAre(sum, offset, left, scratch == [], after);
      next := TakesHead(sum, s, offset, left, scratch, more + after);
      next := ReadsFragments(sum, next, BlockSize, left[n..], [Held(scratch) + left[..n]], after);
      SplitRejoins(Held(scratch), left, n);
    } else {
      next := TakesHead(sum, s, offset, left, scratch, after);
    }
  }

  /** A record whose fragments are cut short is not returned, and nothing is reported. */
  lemma {:induction false} CutFragmentsEnd(sum: Checksum, s: State, rest: Bytes, offset: nat, left: Bytes,
                                           scratch: seq<Bytes>)
    requires Aligned(s, rest, offset) && |scratch| <= 1
    requires rest <= Fragments(sum, offset, left, scratch == []) && rest != Fragments(sum, offset, left, scratch == [])
    ensures ReadOne(sum, s, scratch).record == [] && ReadOne(sum, s, scratch).reports == 0
    decreases |left|, HeaderOffset(offset) + HeaderSize == BlockSize
  {
    var n := FragmentLength(offset, |left|);
    var head := Head(sum, offset, left, scratch == []);
    if |rest| < |head| {
      CutPieceIsEof(sum, s, rest, offset, TypeOf(scratch == [], n == |left|), left[..n]);
    } else {
      var after := rest[|head|..];
      assert rest == head + after;
      var next := TakesHead(sum, s, offset, left, scratch, after);
      assert after <= Fragments(sum, BlockSize, left[n..], false);
      CutFragmentsEnd(sum, next, after, BlockSize, left[n..], [Held(scratch) + left[..n]]);
    }
  }

  /** How many whole records fit in the first `size` bytes. */
  function Whole(sum: Checksum, offset: nat, records: seq<Bytes>, size: nat): (n: nat)
    requires offset <= BlockSize
    ensures n <= |records|
    decreases |records|
  {
    if records == [] then 0
    else
      var first := |Fragments(sum, offset, records[0], true)|;
      if size < first then 0 else 1 + Whole(sum, EndOffset(offset, |records[0]|), records[1..], size - first)
  }

  lemma {:induction false} NothingLeftIsEof(sum: Checksum, s: State, offset: nat)
    requires Aligned(s, [], offset)
    ensures ReadPiece(sum, s).piece == Eof && ReadPiece(sum, s).reports == 0
  {
    assert s.buffer == [] && s.file == [];
    if !s.eof {
      assert ReadPiece(sum, s) == ReadPiece(sum, State([], [], true));
    }
  }

  lemma {:induction false} FirstAndWhole(sum: Checksum, offset: nat, records: seq<Bytes>, rest: Bytes, after: Bytes)
    requires offset <= BlockSize && records != [] && rest == Fragments(sum, offset, records[0], true) + after
    ensures records[..Whole(sum, offset, records, |rest|)]
            == [records[0]] + records[1..][..Whole(sum, EndOffset(offset, |records[0]|), records[1..], |after|)]
  {
    var n := Whole(sum, EndOffset(offset, |records[0]|), records[1..], |after|);
    assert records[..1 + n] == [records[0]] + records[1..][..n];
  }

  /** A log cut at any byte reads as the records that were whole, and reports nothing. */
  lemma {:induction false} CutLogReadsPrefix(sum: Checksum, s: State, rest: Bytes, offset: nat, records: seq<Bytes>)
    requires Aligned(s, rest, offset) && rest <= Encode(sum, offset, records)
    ensures ReadAll(sum, s) == AllRead(records[..Whole(sum, offset, records, |rest|)], 0)
    decreases |records|
  {
    if records == [] {
      NothingLeftIsEof(sum, s, offset);
    } else {
      var first := Fragments(sum, offset, records[0], true);
      if |rest| < |first| {
        assert rest <= first;
        CutFragmentsEnd(sum, s, rest, offset, records[0], []);
      } else {
        var after := rest[|first|..];
        assert rest == first + after;
        var next := ReadsFragments(sum, s, offset, records[0], [], after);
        assert [] + records[0] == records[0];
        CutLogReadsPrefix(sum, next, after, EndOffset(offset, |records[0]|), records[1..]);
        FirstAndWhole(sum, offset, records, rest, after);
      }
    }
  }

  lemma {:induction false} AllWhole(sum: Checksum, offset: nat, records: seq<Bytes>)
    requires offset <= BlockSize
    ensures Whole(sum, offset, records, |Encode(sum, offset, records)|) == |records|
    decreases |records|
  {
    if records != [] {
      AllWhole(sum, EndOffset(offset, |records[0]|), records[1..]);
    }
  }

  lemma NewFileIsAligned(file: Bytes)
    ensures Aligned(Open(file), file, BlockSize)
  {
  }

  /** A new file starts a block, which is the same as having just filled one. */
  lemma {:induction false} NewFileStartsBlock(sum: Checksum, records: seq<Bytes>)
    ensures Encode(sum, 0, records) == Encode(sum, BlockSize, records)
    ensures forall size :: 0 <= size ==> Whole(sum, 0, records, size) == Whole(sum, BlockSize, records, size)
  {
    if records != [] {
      assert Fragments(sum, 0, records[0], true) == Fragments(sum, BlockSize, records[0], true);
    }
  }

  /** Writing any list of records and reading it back returns that list. */
  lemma {:induction false} RoundTrip(sum: Checksum, records: seq<Bytes>)
    ensures ReadAll(sum, Open(Encode(sum, 0, records))) == AllRead(records, 0)
  {
    TruncationReadsPrefix(sum, records, |Encode(sum, 0, records)|);
    AllWhole(sum, 0, records);
    assert records[..|records|] == records;
    assert Encode(sum, 0, records)[..|Encode(sum, 0, records)|] == Encode(sum, 0, records);
  }

  /** Truncating the file anywhere gives a prefix of the list and no corruption report. */
  lemma {:induction false} TruncationReadsPrefix(sum: Checksum, records: seq<Bytes>, size: nat)
    requires size <= |Encode(sum, 0, records)|
    ensures ReadAll(sum, Open(Encode(sum, 0, records)[..size])) == AllRead(records[..Whole(sum, 0, records, size)], 0)
  {
    var file := Encode(sum, 0, records)[..size];
    NewFileStartsBlock(sum, records);
    NewFileIsAligned(file);
    CutLogReadsPrefix(sum, Open(file), file, BlockSize, records);
  }
}
