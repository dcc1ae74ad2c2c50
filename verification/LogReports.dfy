/** That damage to a log does not pass in silence (db/log_reader.cc), and that a paranoid
    recovery stops at it (db/db_impl.cc RecoverLogFile). */
module LogReports {
  import opened Bytes
  import opened LogFormat
  import opened LogTheorems
  import opened LogDamage
  import opened LogChecksums
  import R = Recovery

  /** The header of preallocated space that was never written. */
  predicate IsBlank(b: Bytes) {
    |b| >= HeaderSize && b[6] == ZeroType && Length(b) == 0
  }

  /** The record that the header announces is all there, and its checksum is wrong. */
  predicate Mismatches(sum: Checksum, b: Bytes) {
    && |b| >= HeaderSize && HeaderSize + Length(b) <= |b| && !IsBlank(b)
    && sum([b[6]] + b[HeaderSize..HeaderSize + Length(b)]) != b[..4]
  }

  /** The header announces more than a full block has left. */
  predicate IsTooLong(b: Bytes, o: nat) {
    |b| >= HeaderSize && HeaderSize + Length(b) > |b| && |b| + o == BlockSize
  }

  predicate IsRefused(sum: Checksum, b: Bytes, o: nat) {
    Mismatches(sum, b) || IsTooLong(b, o)
  }

  lemma {:induction false} RefusalIsReportedHere(sum: Checksum, s: State, g: Bytes, o: nat)
    requires Aligned(s, g, o) && HeaderSize <= BlockSize - o && IsRefused(sum, InBlock(g, o), o)
    ensures ReadPiece(sum, s).piece == Bad && ReadPiece(sum, s).reports > 0
  {
    assert s.buffer == InBlock(g, o);
  }

  /** Wherever the reader meets a header whose record is refused, it reports it. */
  lemma {:induction false} RefusalIsReported(sum: Checksum, s: State, f: Bytes, offset: nat)
    requires Aligned(s, f, offset)
    requires IsRefused(sum, InBlock(AtHeader(f, offset), HeaderOffset(offset)), HeaderOffset(offset))
    ensures ReadPiece(sum, s).piece == Bad && ReadPiece(sum, s).reports > 0
  {
    if HeaderSize <= BlockSize - offset {
      assert AtHeader(f, offset) == f;
      RefusalIsReportedHere(sum, s, f, offset);
    } else {
      var s' := LoadBlock(sum, s, f, offset);
      RefusalIsReportedHere(sum, s', AtHeader(f, offset), 0);
    }
  }

  // A whole file

  /** The bytes at a place are those that the writer put there. */
  ghost predicate IsIntact(sum: Checksum, f: Bytes, p: Place)
    requires p.offset <= BlockSize && p.records != []
  {
    var n := FragmentLength(p.offset, |p.records[0]|);
    Physical(sum, TypeOf(p.begin, n == |p.records[0]|), p.records[0][..n])
    <= InBlock(AtHeader(f, p.offset), HeaderOffset(p.offset))
  }

  /** What is left of a file behind the physical record at a place. */
  function Behind(f: Bytes, p: Place): Bytes
    requires p.offset <= BlockSize && p.records != []
  {
    var g := AtHeader(f, p.offset);
    g[Min(|g|, HeaderSize + FragmentLength(p.offset, |p.records[0]|))..]
  }

  /** Behind physical records that are as the writer left them comes one that is refused. */
  ghost predicate MeetsRefused(sum: Checksum, f: Bytes, offset: nat, begin: bool, records: seq<Bytes>)
    requires offset <= BlockSize
    decreases |records|, if records == [] then 0 else |records[0]|, HeaderOffset(offset) + HeaderSize == BlockSize
  {
    records != [] &&
    var here, p, o := Place(offset, begin, records), After(offset, begin, records), HeaderOffset(offset);
    || IsRefused(sum, InBlock(AtHeader(f, offset), o), o)
    || (IsIntact(sum, f, here) && MeetsRefused(sum, Behind(f, here), p.offset, p.begin, p.records))
  }

  /** An intact physical record is read. */
  lemma {:induction false} IntactIsRead(sum: Checksum, s: State, f: Bytes, offset: nat, t: byte, payload: Bytes)
    requires Aligned(s, f, offset) && Written(t) && HeaderOffset(offset) + HeaderSize + |payload| <= BlockSize
    requires Physical(sum, t, payload) <= InBlock(AtHeader(f, offset), HeaderOffset(offset))
    ensures var r, g := ReadPiece(sum, s), AtHeader(f, offset);
            && r.piece == Record(t, payload) && r.reports == 0 && HeaderSize + |payload| <= |g|
            && Aligned(r.next, g[HeaderSize + |payload|..], HeaderOffset(offset) + HeaderSize + |payload|)
  {
    var g, o := AtHeader(f, offset), HeaderOffset(offset);
    var after := g[HeaderSize + |payload|..];
    assert g == Physical(sum, t, payload) + after;
    if HeaderSize <= BlockSize - offset {
      assert g == f;
      ReadsPieceHere(sum, s, offset, t, payload, after);
    } else {
      var s' := LoadBlock(sum, s, f, offset);
      ReadsPieceHere(sum, s', 0, t, payload, after);
    }
  }

  /** What ReadRecord holds after a fragment that does not complete a record. */
  function HeldAfter(t: byte, scratch: seq<Bytes>, payload: Bytes): (r: seq<Bytes>)
    requires |scratch| <= 1
    ensures |r| <= 1
  {
    if t == FirstType then [payload] else if scratch == [] then [] else [scratch[0] + payload]
  }

  /** One round of ReadRecord: a last or only fragment gives a record or a report, another one
      leads on. */
  lemma {:induction false} RoundGoesOn(sum: Checksum, s: State, scratch: seq<Bytes>, t: byte, payload: Bytes)
    requires |scratch| <= 1 && Written(t) && ReadPiece(sum, s).piece == Record(t, payload)
    ensures var r, next := ReadOne(sum, s, scratch), ReadPiece(sum, s).next;
            && next.Size() < s.Size()
            && if t == FullType || t == LastType then r.reports > 0 || (r.record != [] && r.next == next)
               else var more := ReadOne(sum, next, HeldAfter(t, scratch, payload));
                    r.record == more.record && r.next == more.next && r.reports >= more.reports
  {
  }

  lemma {:induction false} BadIsCounted(sum: Checksum, s: State, scratch: seq<Bytes>)
    requires |scratch| <= 1 && ReadPiece(sum, s).piece == Bad && ReadPiece(sum, s).reports > 0
    ensures ReadOne(sum, s, scratch).reports > 0
  {
  }

  /** Reading an intact physical record leads to the writer's next place. */
  lemma {:induction false} IntactLeadsOn(sum: Checksum, s: State, f: Bytes, p: Place) returns (f': Bytes)
    requires Aligned(s, f, p.offset) && p.records != [] && IsIntact(sum, f, p)
    ensures var n := FragmentLength(p.offset, |p.records[0]|);
            && ReadPiece(sum, s).piece == Record(TypeOf(p.begin, n == |p.records[0]|), p.records[0][..n])
            && ReadPiece(sum, s).reports == 0
            && f' == Behind(f, p) && |f'| < |f|
            && Aligned(ReadPiece(sum, s).next, f', After(p.offset, p.begin, p.records).offset)
  {
    var n := FragmentLength(p.offset, |p.records[0]|);
    IntactIsRead(sum, s, f, p.offset, TypeOf(p.begin, n == |p.records[0]|), p.records[0][..n]);
    f' := Behind(f, p);
  }

  /** ReadRecord reports the refused record, or it is still ahead. */
  lemma {:induction false} RecordReports(sum: Checksum, s: State, f: Bytes, p: Place, scratch: seq<Bytes>)
    returns (f': Bytes, p': Place)
    requires |scratch| <= 1 && Aligned(s, f, p.offset) && MeetsRefused(sum, f, p.offset, p.begin, p.records)
    ensures var r := ReadOne(sum, s, scratch);
            r.reports > 0 || (r.record != [] && Aligned(r.next, f', p'.offset)
                              && MeetsRefused(sum, f', p'.offset, p'.begin, p'.records))
    decreases s.Size()
  {
    f', p' := f, p;
    var o := HeaderOffset(p.offset);
    if IsRefused(sum, InBlock(AtHeader(f, p.offset), o), o) {
      RefusalIsReported(sum, s, f, p.offset);
      BadIsCounted(sum, s, scratch);
    } else {
      var n := FragmentLength(p.offset, |p.records[0]|);
      var t, payload := TypeOf(p.begin, n == |p.records[0]|), p.records[0][..n];
      f' := IntactLeadsOn(sum, s, f, p);
      p' := After(p.offset, p.begin, p.records);
      RoundGoesOn(sum, s, scratch, t, payload);
      if t == FirstType || t == MiddleType {
        f', p' := RecordReports(sum, ReadPiece(sum, s).next, f', p', HeldAfter(t, scratch, payload));
      }
    }
  }

  lemma {:induction false} FileReports(sum: Checksum, s: State, f: Bytes, p: Place)
    requires Aligned(s, f, p.offset) && MeetsRefused(sum, f, p.offset, p.begin, p.records)
    ensures ReadAll(sum, s).reports > 0
    decreases s.Size()
  {
    var f', p' := RecordReports(sum, s, f, p, []);
    var r := ReadOne(sum, s, []);
    if r.reports == 0 {
      FileReports(sum, r.next, f', p');
    }
  }

  /** Reading a file that meets a refused record reports something. */
  lemma {:induction false} RefusedFileReports(sum: Checksum, file: Bytes, records: seq<Bytes>)
    requires MeetsRefused(sum, file, 0, true, records)
    ensures ReadAll(sum, Open(file)).reports > 0
  {
    NewFileIsAligned(file);
    assert AtHeader(file, 0) == AtHeader(file, BlockSize);
    assert MeetsRefused(sum, file, BlockSize, true, records);
    FileReports(sum, Open(file), file, Place(BlockSize, true, records));
  }

  // Small damage

  /** A physical record that is damaged in up to four bytes in a row of type and payload, or
      in its stored checksum alone, is not as it was, and does not look blank. */
  ghost predicate IsHarmed(b: Bytes, t: byte, payload: Bytes)
    requires |payload| <= BlockSize - HeaderSize
  {
    && |b| >= HeaderSize + |payload| && SlightlyDamaged(b, t, payload)
    && !(Physical(Sum, t, payload) <= b) && !IsBlank(b)
  }

  lemma HarmedIsRefused(b: Bytes, t: byte, payload: Bytes)
    requires |payload| <= BlockSize - HeaderSize && IsHarmed(b, t, payload)
    ensures Mismatches(Sum, b)
  {
    SmallDamageIsCaught(b, t, payload);
  }

  ghost predicate IsHarmedAt(f: Bytes, p: Place)
    requires p.offset <= BlockSize && p.records != []
  {
    var n := FragmentLength(p.offset, |p.records[0]|);
    IsHarmed(InBlock(AtHeader(f, p.offset), HeaderOffset(p.offset)), TypeOf(p.begin, n == |p.records[0]|),
             p.records[0][..n])
  }

  /** A log that was written, with one physical record harmed; what comes behind it may be
      anything. */
  ghost predicate IsHarmedLog(f: Bytes, offset: nat, begin: bool, records: seq<Bytes>)
    requires offset <= BlockSize
    decreases |records|, if records == [] then 0 else |records[0]|, HeaderOffset(offset) + HeaderSize == BlockSize
  {
    records != [] &&
    var here, p := Place(offset, begin, records), After(offset, begin, records);
    || IsHarmedAt(f, here)
    || (IsIntact(Sum, f, here) && IsHarmedLog(Behind(f, here), p.offset, p.begin, p.records))
  }

  lemma {:induction false} HarmedAtIsRefused(f: Bytes, p: Place)
    requires p.offset <= BlockSize && p.records != [] && IsHarmedAt(f, p)
    ensures var o := HeaderOffset(p.offset); IsRefused(Sum, InBlock(AtHeader(f, p.offset), o), o)
  {
    var n := FragmentLength(p.offset, |p.records[0]|);
    HarmedIsRefused(InBlock(AtHeader(f, p.offset), HeaderOffset(p.offset)), TypeOf(p.begin, n == |p.records[0]|),
                    p.records[0][..n]);
  }

  lemma {:induction false} HarmedMeetsRefused(f: Bytes, offset: nat, begin: bool, records: seq<Bytes>)
    requires offset <= BlockSize && IsHarmedLog(f, offset, begin, records)
    ensures MeetsRefused(Sum, f, offset, begin, records)
    decreases |records|, if records == [] then 0 else |records[0]|, HeaderOffset(offset) + HeaderSize == BlockSize
  {
    var here, p := Place(offset, begin, records), After(offset, begin, records);
    if IsHarmedAt(f, here) {
      HarmedAtIsRefused(f, here);
    } else {
      HarmedMeetsRefused(Behind(f, here), p.offset, p.begin, p.records);
    }
  }

  lemma {:induction false} FirstIsHarmed(f: Bytes, payload: Bytes)
    requires |payload| <= BlockSize - HeaderSize && IsHarmed(InBlock(f, 0), FullType, payload)
    ensures IsHarmedLog(f, 0, true, [payload])
  {
    assert AtHeader(f, 0) == f && payload[..|payload|] == payload;
    assert IsHarmedAt(f, Place(0, true, [payload]));
  }

  /** The first record of a log, short enough for one block, under a wrong checksum. */
  lemma {:induction false} WrongChecksumHarms(payload: Bytes, stored: Crc, more: Bytes)
    requires |payload| <= BlockSize - HeaderSize && stored != Sum([FullType] + payload)
    ensures IsHarmedLog(stored + [|payload| % 256, |payload| / 256, FullType] + payload + more, 0, true, [payload])
  {
    var d := stored + [|payload| % 256, |payload| / 256, FullType] + payload;
    assert d <= InBlock(d + more, 0);
    HarmedHeader(payload, stored, InBlock(d + more, 0));
    FirstIsHarmed(d + more, payload);
  }

  lemma HarmedHeader(payload: Bytes, stored: Crc, b: Bytes)
    requires |payload| <= BlockSize - HeaderSize && stored != Sum([FullType] + payload)
    requires stored + [|payload| % 256, |payload| / 256, FullType] + payload <= b
    ensures IsHarmed(b, FullType, payload)
  {
    var d := stored + [|payload| % 256, |payload| / 256, FullType] + payload;
    assert b[..|d|] == d;
    assert b[..4] == d[..4] == stored && b[6] == d[6] == FullType;
    assert Length(b) == Length(d) == |payload|;
    assert b[HeaderSize..HeaderSize + |payload|] == d[HeaderSize..] == payload;
    assert Physical(Sum, FullType, payload)[..4] == Sum([FullType] + payload);
  }

  /** A paranoid recovery refuses such a log. */
  method RefusesHarmedLog(file: Bytes, records: seq<Bytes>, maxSequence: nat) returns (ok: bool)
    requires IsHarmedLog(file, 0, true, records)
    ensures !ok
  {
    HarmedMeetsRefused(file, 0, true, records);
    RefusedFileReports(Sum, file, records);
    var r;
    ok, r := R.RecoverLogFile(file, Sum, true, maxSequence);
  }

  // What passes in silence

  /** No header that the reader meets at a place of the writer's looks blank. */
  ghost predicate NoneBlank(f: Bytes, offset: nat, begin: bool, records: seq<Bytes>)
    requires offset <= BlockSize
    decreases |records|, if records == [] then 0 else |records[0]|, HeaderOffset(offset) + HeaderSize == BlockSize
  {
    records != [] ==>
      var here, p := Place(offset, begin, records), After(offset, begin, records);
      && !IsBlank(InBlock(AtHeader(f, offset), HeaderOffset(offset)))
      && NoneBlank(Behind(f, here), p.offset, p.begin, p.records)
  }

  lemma {:induction false} BadIsReportedHere(sum: Checksum, s: State, g: Bytes, o: nat)
    requires Aligned(s, g, o) && HeaderSize <= BlockSize - o && !IsBlank(InBlock(g, o))
    ensures !ReadPiece(sum, s).piece.Bad? || ReadPiece(sum, s).reports > 0
            || (Accepts(sum, InBlock(g, o)) && InBlock(g, o)[6] == BadCode)
  {
    assert s.buffer == InBlock(g, o);
  }

  /** What is dropped is reported, unless it looks blank. */
  lemma {:induction false} BadIsReported(sum: Checksum, s: State, f: Bytes, offset: nat)
    requires Aligned(s, f, offset)
    requires !IsBlank(InBlock(AtHeader(f, offset), HeaderOffset(offset)))
    ensures !ReadPiece(sum, s).piece.Bad? || ReadPiece(sum, s).reports > 0
            || (var b := InBlock(AtHeader(f, offset), HeaderOffset(offset)); Accepts(sum, b) && b[6] == BadCode)
  {
    if HeaderSize <= BlockSize - offset {
      assert AtHeader(f, offset) == f;
      BadIsReportedHere(sum, s, f, offset);
    } else if BlockSize - offset <= |f| {
      var s' := LoadBlock(sum, s, f, offset);
      BadIsReportedHere(sum, s', AtHeader(f, offset), 0);
    }
  }

  /** The reader is where the writer was, and holds what the writer had put down of the
      record. */
  ghost predicate InStep(sum: Checksum, s: State, f: Bytes, p: Place, scratch: seq<Bytes>) {
    && Follows(sum, s, f, p, scratch) && (scratch == [] ==> p.begin) && NoneBlank(f, p.offset, p.begin, p.records)
  }

  /** The rest of the record the reader is at. */
  function RestOfRecord(p: Place, scratch: seq<Bytes>): Bytes
    requires p.records != []
  {
    Held(scratch) + p.records[0]
  }

  /** What the reader holds after the fragment it is at. */
  function HeldOf(p: Place, scratch: seq<Bytes>): (r: seq<Bytes>)
    requires p.offset <= BlockSize && p.records != []
    ensures |r| <= 1
  {
    var n := FragmentLength(p.offset, |p.records[0]|);
    if n == |p.records[0]| then [] else [Held(scratch) + p.records[0][..n]]
  }

  /** The piece that is read without a report is the end of the file or what was written. */
  lemma {:induction false} SilentPiece(sum: Checksum, s: State, f: Bytes, p: Place, scratch: seq<Bytes>)
    requires InStep(sum, s, f, p, scratch) && p.records != [] && ReadPiece(sum, s).reports == 0
    ensures var r, n := ReadPiece(sum, s), FragmentLength(p.offset, |p.records[0]|);
            || r.piece.Eof?
            || (r.piece == Record(TypeOf(p.begin, n == |p.records[0]|), p.records[0][..n])
                && (var p' := After(p.offset, p.begin, p.records);
                    Aligned(r.next, Behind(f, p), p'.offset)
                    && Caught(sum, Behind(f, p), p'.offset, p'.begin, p'.records)))
  {
    DamagedPiece(sum, s, f, p.offset, p.begin, p.records);
    BadIsReported(sum, s, f, p.offset);
    var n := FragmentLength(p.offset, |p.records[0]|);
    var b := InBlock(AtHeader(f, p.offset), HeaderOffset(p.offset));
    if Accepts(sum, b) {
      AcceptedIsWritten(sum, b, TypeOf(p.begin, n == |p.records[0]|), p.records[0][..n]);
    }
  }

  lemma {:induction false} BadIsReportedOn(sum: Checksum, s: State, scratch: seq<Bytes>)
    requires |scratch| <= 1 && ReadOne(sum, s, scratch).reports == 0
    ensures ReadPiece(sum, s).reports == 0
    ensures ReadPiece(sum, s).piece.Eof? ==> ReadOne(sum, s, scratch).record == []
  {
  }

  /** A round without a report ends the file or takes the next part of the record. */
  lemma {:induction false} SilentRound(sum: Checksum, s: State, f: Bytes, p: Place, scratch: seq<Bytes>)
    requires InStep(sum, s, f, p, scratch) && p.records != []
    requires ReadOne(sum, s, scratch).reports == 0 && ReadOne(sum, s, scratch).record != []
    ensures var r, next := ReadOne(sum, s, scratch), ReadPiece(sum, s).next;
            var n, q := FragmentLength(p.offset, |p.records[0]|), After(p.offset, p.begin, p.records);
            && next.Size() < s.Size() && InStep(sum, next, Behind(f, p), q, HeldOf(p, scratch))
            && r == if n == |p.records[0]| then RecordRead([RestOfRecord(p, scratch)], next, 0)
                    else ReadOne(sum, next, HeldOf(p, scratch))
  {
    BadIsReportedOn(sum, s, scratch);
    SilentPiece(sum, s, f, p, scratch);
    var n := FragmentLength(p.offset, |p.records[0]|);
    TakesFragment(sum, s, scratch, p.records[0][..n], n == |p.records[0]|);
    assert p.records[0][..|p.records[0]|] == p.records[0];
  }

  lemma {:induction false} SilentRecord(sum: Checksum, s: State, f: Bytes, p: Place, scratch: seq<Bytes>)
    returns (f': Bytes, p': Place)
    requires InStep(sum, s, f, p, scratch) && p.records != []
    requires ReadOne(sum, s, scratch).reports == 0 && ReadOne(sum, s, scratch).record != []
    ensures var r := ReadOne(sum, s, scratch);
            && r.record == [RestOfRecord(p, scratch)] && p'.begin && p'.records == p.records[1..]
            && InStep(sum, r.next, f', p', [])
    decreases s.Size()
  {
    var n := FragmentLength(p.offset, |p.records[0]|);
    SilentRound(sum, s, f, p, scratch);
    f', p' := Behind(f, p), After(p.offset, p.begin, p.records);
    if n < |p.records[0]| {
      f', p' := SilentRecord(sum, ReadPiece(sum, s).next, f', p', HeldOf(p, scratch));
      SplitRejoins(Held(scratch), p.records[0], n);
    }
  }

  lemma {:induction false} AllAfterOne(sum: Checksum, s: State)
    ensures var r, all := ReadOne(sum, s, []), ReadAll(sum, s);
            && all.reports >= r.reports
            && if r.record == [] then all.records == []
               else all.records == r.record + ReadAll(sum, r.next).records
                    && all.reports == r.reports + ReadAll(sum, r.next).reports
  {
  }

  lemma {:induction false} SilentRecords(sum: Checksum, s: State, f: Bytes, p: Place)
    requires InStep(sum, s, f, p, []) && p.begin && ReadAll(sum, s).reports == 0
    ensures ReadAll(sum, s).records <= p.records
    decreases s.Size()
  {
    var r := ReadOne(sum, s, []);
    AllAfterOne(sum, s);
    if p.records == [] {
      NothingFollows(sum, s, f, p);
    } else if r.record != [] {
      var f', p' := SilentRecord(sum, s, f, p, []);
      SilentRecords(sum, r.next, f', p');
      ExtendsPrefix(ReadAll(sum, r.next).records, p.records, ReadAll(sum, s).records);
    }
  }

  lemma ExtendsPrefix<T>(a: seq<seq<T>>, b: seq<seq<T>>, all: seq<seq<T>>)
    requires b != [] && a <= b[1..] && all == [[] + b[0]] + a
    ensures all <= b
  {
    assert [] + b[0] == b[0];
  }

  lemma {:induction false} NothingFollows(sum: Checksum, s: State, f: Bytes, p: Place)
    requires InStep(sum, s, f, p, []) && p.records == []
    ensures ReadOne(sum, s, []).record == []
  {
    EndReads(sum, s, []);
  }

  /** A new file starts a block, which is the same as having just filled one. */
  lemma SameStart(f: Bytes, records: seq<Bytes>)
    requires records != []
    ensures After(0, true, records) == After(BlockSize, true, records)
    ensures Behind(f, Place(0, true, records)) == Behind(f, Place(BlockSize, true, records))
    ensures InBlock(AtHeader(f, 0), HeaderOffset(0)) == InBlock(AtHeader(f, BlockSize), HeaderOffset(BlockSize))
  {
    assert AtHeader(f, 0) == AtHeader(f, BlockSize);
  }

  lemma {:induction false} NoneBlankFromStart(f: Bytes, records: seq<Bytes>)
    requires NoneBlank(f, 0, true, records)
    ensures NoneBlank(f, BlockSize, true, records)
  {
    if records != [] {
      SameStart(f, records);
    }
  }

  lemma {:induction false} CaughtFromStart(sum: Checksum, f: Bytes, records: seq<Bytes>)
    requires Caught(sum, f, 0, true, records)
    ensures Caught(sum, f, BlockSize, true, records)
  {
    if records != [] {
      SameStart(f, records);
    }
  }

  /** However a log was damaged, as long as the checksum catches it and no header looks blank:
      if nothing is reported, nothing is lost but the end of the log. */
  lemma {:induction false} SilenceLosesOnlyTheEnd(sum: Checksum, file: Bytes, records: seq<Bytes>)
    requires Caught(sum, file, 0, true, records) && NoneBlank(file, 0, true, records)
    requires ReadAll(sum, Open(file)).reports == 0
    ensures ReadAll(sum, Open(file)).records <= records
  {
    NewFileIsAligned(file);
    NoneBlankFromStart(file, records);
    CaughtFromStart(sum, file, records);
    SilentRecords(sum, Open(file), file, Place(BlockSize, true, records));
  }

  // Fragments out of place

  /** A file that begins with a fragment that cannot begin a record, or with one of no type
      there is, is reported. */
  lemma {:induction false} StrayIsReported(sum: Checksum, t: byte, payload: Bytes, rest: Bytes)
    requires |payload| <= BlockSize - HeaderSize
    requires t == MiddleType || t == LastType || t > BadCode || (t == ZeroType && payload != [])
    ensures ReadAll(sum, Open(Physical(sum, t, payload) + rest)).reports > 0
  {
    PieceAtStart(sum, t, payload, rest);
  }

  lemma {:induction false} PieceAtStart(sum: Checksum, t: byte, payload: Bytes, rest: Bytes)
    requires |payload| <= BlockSize - HeaderSize && !(t == ZeroType && payload == [])
    ensures var r := ReadPiece(sum, Open(Physical(sum, t, payload) + rest));
            r.piece == PieceOf(t, payload) && r.reports == 0 && Aligned(r.next, rest, HeaderSize + |payload|)
  {
    var f := Physical(sum, t, payload) + rest;
    var s := State(f[..Min(BlockSize, |f|)], f[Min(BlockSize, |f|)..], |f| < BlockSize);
    assert ReadPiece(sum, Open(f)) == ReadPiece(sum, s);
    assert s.buffer == Physical(sum, t, payload) + s.buffer[HeaderSize + |payload|..];
    HeaderParses(sum, t, payload, s.buffer[HeaderSize + |payload|..]);
    assert rest == f[HeaderSize + |payload|..];
  }

  /** So is a record that is begun, and not ended before another begins. */
  lemma {:induction false} UnfinishedIsReported(sum: Checksum, payload: Bytes, t: byte, more: Bytes, rest: Bytes)
    requires t == FullType || t == FirstType
    requires payload != [] && 2 * HeaderSize + |payload| + |more| <= BlockSize
    ensures ReadAll(sum, Open(Physical(sum, FirstType, payload) + (Physical(sum, t, more) + rest))).reports > 0
  {
    var second := Physical(sum, t, more) + rest;
    PieceAtStart(sum, FirstType, payload, second);
    var next := ReadPiece(sum, Open(Physical(sum, FirstType, payload) + second)).next;
    ReadsPieceHere(sum, next, HeaderSize + |payload|, t, more, rest);
    assert ReadOne(sum, next, [payload]).reports > 0;
  }

  /** Only a blank header is dropped in silence, with the rest of its block. */
  lemma {:induction false} BlankIsSilent(sum: Checksum, s: State, f: Bytes, offset: nat)
    requires Aligned(s, f, offset) && IsBlank(InBlock(AtHeader(f, offset), HeaderOffset(offset)))
    ensures var r := ReadPiece(sum, s);
            r.piece == Bad && r.reports == 0 && Dropped(r.next, AtHeader(f, offset), HeaderOffset(offset))
  {
    JudgesPiece(sum, s, f, offset);
    if HeaderSize <= BlockSize - offset {
      assert AtHeader(f, offset) == f;
      BlankIsSilentHere(sum, s, f, offset);
    } else {
      var s' := LoadBlock(sum, s, f, offset);
      BlankIsSilentHere(sum, s', AtHeader(f, offset), 0);
    }
  }

  lemma {:induction false} BlankIsSilentHere(sum: Checksum, s: State, g: Bytes, o: nat)
    requires Aligned(s, g, o) && HeaderSize <= BlockSize - o && IsBlank(InBlock(g, o))
    ensures ReadPiece(sum, s).piece == Bad && ReadPiece(sum, s).reports == 0
  {
    assert s.buffer == InBlock(g, o);
  }

  /** It is reported all the same if it breaks off a record. */
  lemma {:induction false} BrokenOffIsReported(sum: Checksum, payload: Bytes, rest: Bytes)
    requires |payload| + 2 * HeaderSize <= BlockSize && IsBlank(rest)
    ensures ReadAll(sum, Open(Physical(sum, FirstType, payload) + rest)).reports > 0
  {
    PieceAtStart(sum, FirstType, payload, rest);
    var s, o := ReadPiece(sum, Open(Physical(sum, FirstType, payload) + rest)).next, HeaderSize + |payload|;
    assert AtHeader(rest, o) == rest;
    BlankIsSilent(sum, s, rest, o);
    assert ReadOne(sum, s, [payload]).reports > 0;
  }
}
