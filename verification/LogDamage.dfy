/** Reading a damaged log: bytes may have changed and the end may be missing. */
module LogDamage {
  import opened Bytes
  import opened LogFormat
  import opened LogTheorems

  // What is still to be read is compared with what the writer put there: the rest of
  // `records[0]`, of which nothing is written yet if `begin` holds, and the records after it.

  datatype Place = Place(offset: nat, begin: bool, records: seq<Bytes>)

  /** The writer's place after its next physical record. */
  function After(offset: nat, begin: bool, records: seq<Bytes>): (p: Place)
    requires offset <= BlockSize && records != []
    ensures p.offset <= BlockSize
  {
    var n := FragmentLength(offset, |records[0]|);
    if n == |records[0]| then Place(HeaderOffset(offset) + HeaderSize + n, true, records[1..])
    else Place(BlockSize, false, [records[0][n..]] + records[1..])
  }

  /** The checks of ReadPhysicalRecord, on what is left of a block. */
  predicate Accepts(sum: Checksum, b: Bytes) {
    && |b| >= HeaderSize
    && HeaderSize + Length(b) <= |b|
    && !(b[6] == ZeroType && Length(b) == 0)
    && sum([b[6]] + b[HeaderSize..HeaderSize + Length(b)]) == b[..4]
  }

  /** What `f`, which starts at `offset` of a block, holds from the next header on. */
  function AtHeader(f: Bytes, offset: nat): Bytes
    requires offset <= BlockSize
  {
    f[Min(|f|, |Trailer(offset)|)..]
  }

  function InBlock(g: Bytes, o: nat): Bytes
    requires o <= BlockSize
  {
    g[..Min(|g|, BlockSize - o)]
  }

  /** The checksum catches the damage to `f`: it is no longer than what was written, and
      where the writer put a physical record, either the reader's checks fail or the
      record is the one that was written. */
  ghost predicate Caught(sum: Checksum, f: Bytes, offset: nat, begin: bool, records: seq<Bytes>)
    requires offset <= BlockSize
    decreases |records|, if records == [] then 0 else |records[0]|, HeaderOffset(offset) + HeaderSize == BlockSize
  {
    if records == [] then f == []
    else
      var n, p := FragmentLength(offset, |records[0]|), After(offset, begin, records);
      var g := AtHeader(f, offset);
      && CaughtHere(sum, InBlock(g, HeaderOffset(offset)), TypeOf(begin, n == |records[0]|), records[0][..n])
      && Caught(sum, g[Min(|g|, HeaderSize + n)..], p.offset, p.begin, p.records)
  }

  ghost predicate CaughtHere(sum: Checksum, b: Bytes, t: byte, payload: Bytes)
    requires |payload| <= BlockSize - HeaderSize
  {
    Accepts(sum, b) ==> Physical(sum, t, payload) <= b
  }

  /** The state is one from which the reader reports the end of the file. */
  predicate AtEnd(s: State) {
    s.buffer == [] && s.file == []
  }

  lemma {:induction false} EndReads(sum: Checksum, s: State, scratch: seq<Bytes>)
    requires AtEnd(s) && |scratch| <= 1
    ensures ReadOne(sum, s, scratch).record == []
  {
    if !s.eof {
      assert ReadPiece(sum, s) == ReadPiece(sum, State([], [], true));
    }
  }

  /** Where the reader stands after it dropped the rest of a block. */
  ghost predicate Dropped(next: State, g: Bytes, o: nat)
    requires o <= BlockSize
  {
    AtEnd(next) || (BlockSize - o <= |g| && Aligned(next, g[BlockSize - o..], BlockSize))
  }

  /** What the reader makes of the bytes at a header. */
  ghost predicate Judged(sum: Checksum, r: PieceRead, g: Bytes, o: nat)
    requires o <= BlockSize
  {
    var b := InBlock(g, o);
    || r.piece.Eof?
    || (r.piece.Bad? && Dropped(r.next, g, o))
    || (Accepts(sum, b) && r.piece == PieceOf(b[6], b[HeaderSize..HeaderSize + Length(b)])
        && Aligned(r.next, g[HeaderSize + Length(b)..], o + HeaderSize + Length(b)))
  }

  lemma {:induction false} JudgesPieceHere(sum: Checksum, s: State, g: Bytes, o: nat)
    requires Aligned(s, g, o) && HeaderSize <= BlockSize - o
    ensures Judged(sum, ReadPiece(sum, s), g, o)
  {
    var b := InBlock(g, o);
    assert s.buffer == b;
    if |b| >= HeaderSize {
      assert !s.eof ==> s.file == g[BlockSize - o..];
      if Accepts(sum, b) {
        var size := HeaderSize + Length(b);
        assert b[size..] + s.file == g[size..];
      }
    }
  }

  lemma {:induction false} JudgesPiece(sum: Checksum, s: State, f: Bytes, offset: nat)
    requires Aligned(s, f, offset)
    ensures Judged(sum, ReadPiece(sum, s), AtHeader(f, offset), HeaderOffset(offset))
  {
    if HeaderSize <= BlockSize - offset {
      assert AtHeader(f, offset) == f;
      JudgesPieceHere(sum, s, f, offset);
    } else if BlockSize - offset <= |f| {
      var s' := LoadBlock(sum, s, f, offset);
      JudgesPieceHere(sum, s', AtHeader(f, offset), 0);
    }
  }

  lemma AcceptedIsWritten(sum: Checksum, b: Bytes, t: byte, payload: Bytes)
    requires |payload| <= BlockSize - HeaderSize && Physical(sum, t, payload) <= b
    ensures Length(b) == |payload| && b[6] == t && b[HeaderSize..HeaderSize + |payload|] == payload
  {
    assert b == Physical(sum, t, payload) + b[HeaderSize + |payload|..];
    HeaderParses(sum, t, payload, b[HeaderSize + |payload|..]);
  }

  lemma JudgedIsWritten(sum: Checksum, r: PieceRead, g: Bytes, o: nat, t: byte, payload: Bytes)
    requires o + HeaderSize + |payload| <= BlockSize && Written(t)
    requires Judged(sum, r, g, o) && CaughtHere(sum, InBlock(g, o), t, payload)
    ensures var size := HeaderSize + |payload|;
            || r.piece.Eof?
            || (r.piece.Bad? && Dropped(r.next, g, o))
            || (r.piece == Record(t, payload) && size <= |g| && Aligned(r.next, g[size..], o + size))
  {
    if Accepts(sum, InBlock(g, o)) {
      AcceptedIsWritten(sum, InBlock(g, o), t, payload);
    }
  }

  /** From damaged bytes the reader takes the end of the file, drops the block, or takes
      the physical record that was written there. */
  lemma {:induction false} DamagedPiece(sum: Checksum, s: State, f: Bytes, offset: nat, begin: bool,
                                        records: seq<Bytes>)
    requires Aligned(s, f, offset) && records != [] && Caught(sum, f, offset, begin, records)
    ensures var r, p := ReadPiece(sum, s), After(offset, begin, records);
            var n, g := FragmentLength(offset, |records[0]|), AtHeader(f, offset);
            || r.piece.Eof?
            || (r.piece.Bad? && Dropped(r.next, g, HeaderOffset(offset)))
            || (r.piece == Record(TypeOf(begin, n == |records[0]|), records[0][..n]) && HeaderSize + n <= |g|
                && Aligned(r.next, g[HeaderSize + n..], p.offset)
                && Caught(sum, g[HeaderSize + n..], p.offset, p.begin, p.records))
  {
    JudgesPiece(sum, s, f, offset);
    var n := FragmentLength(offset, |records[0]|);
    JudgedIsWritten(sum, ReadPiece(sum, s), AtHeader(f, offset), HeaderOffset(offset), TypeOf(begin, n == |records[0]|),
                    records[0][..n]);
  }

  /** A trailer holds nothing to judge. */
  lemma {:induction false} SkipTrailer(sum: Checksum, f: Bytes, offset: nat, begin: bool, records: seq<Bytes>)
    requires offset <= BlockSize && Caught(sum, f, offset, begin, records)
    requires BlockSize - offset < HeaderSize && BlockSize - offset <= |f|
    ensures Caught(sum, f[BlockSize - offset..], BlockSize, begin, records)
  {
    SameHeader(f, offset);
    if records != [] {
      SameFragment(offset, begin, records);
    }
  }

  lemma SameHeader(f: Bytes, offset: nat)
    requires offset <= BlockSize && BlockSize - offset < HeaderSize && BlockSize - offset <= |f|
    ensures AtHeader(f[BlockSize - offset..], BlockSize) == AtHeader(f, offset)
            && HeaderOffset(offset) == HeaderOffset(BlockSize)
  {
  }

  lemma SameFragment(offset: nat, begin: bool, records: seq<Bytes>)
    requires offset <= BlockSize && BlockSize - offset < HeaderSize && records != []
    ensures FragmentLength(offset, |records[0]|) == FragmentLength(BlockSize, |records[0]|)
    ensures After(offset, begin, records) == After(BlockSize, begin, records)
  {
  }

  /** The records a reader may still return: the current one only if the reader holds all
      of it that came before. */
  function Candidates(begin: bool, scratch: seq<Bytes>, records: seq<Bytes>): seq<Bytes>
    requires begin ==> scratch == []
  {
    if begin || records == [] then records
    else (if scratch == [] then [] else [scratch[0] + records[0]]) + records[1..]
  }

  ghost predicate IsSuffix(a: seq<Bytes>, b: seq<Bytes>) {
    |a| <= |b| && a == b[|b| - |a|..]
  }

  lemma PassesCandidates(offset: nat, begin: bool, records: seq<Bytes>)
    requires offset <= BlockSize && records != []
    ensures var p := After(offset, begin, records);
            IsSuffix(Candidates(p.begin, [], p.records), Candidates(begin, [], records))
  {
  }

  lemma PassesHeader(sum: Checksum, f: Bytes, offset: nat, begin: bool, records: seq<Bytes>)
    requires offset <= BlockSize && records != [] && Caught(sum, f, offset, begin, records)
    requires BlockSize - HeaderOffset(offset) <= |AtHeader(f, offset)|
    ensures var g, p := AtHeader(f, offset), After(offset, begin, records);
            var n, f' := FragmentLength(offset, |records[0]|), g[HeaderSize + FragmentLength(offset, |records[0]|)..];
            && Caught(sum, f', p.offset, p.begin, p.records)
            && BlockSize - p.offset <= |f'| && f'[BlockSize - p.offset..] == g[BlockSize - HeaderOffset(offset)..]
  {
  }

  lemma SuffixOfSuffix(a: seq<Bytes>, b: seq<Bytes>, c: seq<Bytes>)
    requires IsSuffix(a, b) && IsSuffix(b, c)
    ensures IsSuffix(a, c)
  {
  }

  /** Everything the writer put in the rest of a dropped block is passed over. */
  lemma {:induction false} SkipBlock(sum: Checksum, f: Bytes, offset: nat, begin: bool, records: seq<Bytes>,
                                     beyond: Bytes)
      returns (p: Place)
    requires offset <= BlockSize && Caught(sum, f, offset, begin, records)
    requires BlockSize - HeaderOffset(offset) <= |AtHeader(f, offset)|
    requires beyond == AtHeader(f, offset)[BlockSize - HeaderOffset(offset)..]
    ensures Caught(sum, beyond, BlockSize, p.begin, p.records)
    ensures IsSuffix(Candidates(p.begin, [], p.records), Candidates(begin, [], records))
    decreases |records|, if records == [] then 0 else |records[0]|, HeaderOffset(offset) + HeaderSize == BlockSize, 0
  {
    var f' := AtHeader(f, offset)[HeaderSize + FragmentLength(offset, |records[0]|)..];
    PassesHeader(sum, f, offset, begin, records);
    PassesCandidates(offset, begin, records);
    var next := After(offset, begin, records);
    p := SkipRest(sum, f', next.offset, next.begin, next.records, beyond);
    SuffixOfSuffix(Candidates(p.begin, [], p.records), Candidates(next.begin, [], next.records),
                   Candidates(begin, [], records));
  }

  lemma {:induction false} SkipRest(sum: Checksum, f: Bytes, offset: nat, begin: bool, records: seq<Bytes>,
                                    beyond: Bytes)
      returns (p: Place)
    requires offset <= BlockSize && Caught(sum, f, offset, begin, records)
    requires BlockSize - offset <= |f| && beyond == f[BlockSize - offset..]
    ensures Caught(sum, beyond, BlockSize, p.begin, p.records)
    ensures IsSuffix(Candidates(p.begin, [], p.records), Candidates(begin, [], records))
    decreases |records|, if records == [] then 0 else |records[0]|, HeaderOffset(offset) + HeaderSize == BlockSize, 1
  {
    if BlockSize - offset < HeaderSize {
      p := Place(BlockSize, begin, records);
      SkipTrailer(sum, f, offset, begin, records);
    } else {
      assert AtHeader(f, offset) == f;
      p := SkipBlock(sum, f, offset, begin, records, beyond);
    }
  }

  /** Where a reader stands that follows the writer: aligned with damaged bytes, and holding
      something only inside a record. */
  ghost predicate Follows(sum: Checksum, s: State, f: Bytes, p: Place, scratch: seq<Bytes>) {
    && Aligned(s, f, p.offset) && Caught(sum, f, p.offset, p.begin, p.records)
    && |scratch| <= 1 && (p.begin ==> scratch == [])
  }

  /** What the reader holds after the next fragment, unless that completes a record. */
  function Gathered(begin: bool, scratch: seq<Bytes>, payload: Bytes, last: bool): (r: seq<Bytes>)
    requires |scratch| <= 1
    ensures |r| <= 1
  {
    if last then [] else if begin then [payload] else if scratch == [] then [] else [scratch[0] + payload]
  }

  lemma GatheringKeepsCandidates(offset: nat, begin: bool, records: seq<Bytes>, scratch: seq<Bytes>)
    requires offset <= BlockSize && records != [] && |scratch| <= 1 && (begin ==> scratch == [])
    ensures var n, p := FragmentLength(offset, |records[0]|), After(offset, begin, records);
            var held := Gathered(begin, scratch, records[0][..n], n == |records[0]|);
            && (p.begin ==> held == [])
            && Candidates(p.begin, held, p.records)
               == if n == |records[0]| && (begin || scratch != []) then Candidates(begin, scratch, records)[1..]
                  else Candidates(begin, scratch, records)
  {
    var n := FragmentLength(offset, |records[0]|);
    assert records[0][..n] + records[0][n..] == records[0];
    if scratch != [] {
      SplitRejoins(scratch[0], records[0], n);
    }
  }

  /** One piece as ReadRecord handles it, in a place the writer can be in. */
  lemma {:induction false} TakesPiece(sum: Checksum, s: State, scratch: seq<Bytes>, begin: bool, last: bool,
                                      payload: Bytes)
    requires |scratch| <= 1 && (begin ==> scratch == [])
    requires ReadPiece(sum, s).piece == Record(TypeOf(begin, last), payload)
    ensures var r, next := ReadOne(sum, s, scratch), ReadPiece(sum, s).next;
            if last && (begin || scratch != []) then r.record == [Held(scratch) + payload] && r.next == next
            else var more := ReadOne(sum, next, Gathered(begin, scratch, payload, last));
                 r.record == more.record && r.next == more.next
  {
    assert [] + payload == payload;
  }

  datatype Step = Stop | Return(record: Bytes) | Continue(scratch: seq<Bytes>)

  /** What one round of ReadRecord's loop means for the record it is to return. */
  ghost predicate Rounds(sum: Checksum, s: State, scratch: seq<Bytes>, step: Step, s': State)
    requires |scratch| <= 1
  {
    var r := ReadOne(sum, s, scratch);
    match step
    case Stop => r.record == []
    case Return(record) => r.record == [record] && r.next == s'
    case Continue(held) =>
      && |held| <= 1 && s'.Size() < s.Size()
      && r.record == ReadOne(sum, s', held).record && r.next == ReadOne(sum, s', held).next
  }

  /** The reader still follows the writer, and passes over no record but lost ones. */
  ghost predicate Ahead(sum: Checksum, step: Step, s': State, f': Bytes, p': Place, candidates: seq<Bytes>) {
    match step
    case Stop => true
    case Return(record) =>
      candidates != [] && record == candidates[0] && p'.begin && Follows(sum, s', f', p', [])
        && p'.records == candidates[1..]
    case Continue(held) =>
      Follows(sum, s', f', p', held) && IsSuffix(Candidates(p'.begin, held, p'.records), candidates)
  }

  function StepOf(begin: bool, scratch: seq<Bytes>, payload: Bytes, last: bool): Step
    requires |scratch| <= 1
  {
    if last && (begin || scratch != []) then Return(Held(scratch) + payload)
    else Continue(Gathered(begin, scratch, payload, last))
  }

  lemma {:induction false} RoundOfPiece(sum: Checksum, s: State, scratch: seq<Bytes>, begin: bool, last: bool,
                                        payload: Bytes)
    requires |scratch| <= 1 && (begin ==> scratch == [])
    requires ReadPiece(sum, s).piece == Record(TypeOf(begin, last), payload)
    ensures Rounds(sum, s, scratch, StepOf(begin, scratch, payload, last), ReadPiece(sum, s).next)
  {
    TakesPiece(sum, s, scratch, begin, last, payload);
  }

  /** A record that is complete is the next candidate. */
  lemma CompletesCandidate(begin: bool, scratch: seq<Bytes>, records: seq<Bytes>, n: nat)
    requires records != [] && |scratch| <= 1 && (begin ==> scratch == []) && n == |records[0]|
    requires begin || scratch != []
    ensures var candidates := Candidates(begin, scratch, records);
            candidates != [] && candidates[0] == Held(scratch) + records[0][..n] && candidates[1..] == records[1..]
  {
    assert records[0][..n] == records[0];
    assert [] + records[0] == records[0];
  }

  lemma {:induction false} AheadOfPiece(sum: Checksum, next: State, f': Bytes, p: Place, scratch: seq<Bytes>)
    requires p.offset <= BlockSize && p.records != [] && |scratch| <= 1 && (p.begin ==> scratch == [])
    requires var p' := After(p.offset, p.begin, p.records);
             Aligned(next, f', p'.offset) && Caught(sum, f', p'.offset, p'.begin, p'.records)
    ensures var n := FragmentLength(p.offset, |p.records[0]|);
            Ahead(sum, StepOf(p.begin, scratch, p.records[0][..n], n == |p.records[0]|), next, f',
                  After(p.offset, p.begin, p.records), Candidates(p.begin, scratch, p.records))
  {
    GatheringKeepsCandidates(p.offset, p.begin, p.records, scratch);
    var n := FragmentLength(p.offset, |p.records[0]|);
    if n == |p.records[0]| && (p.begin || scratch != []) {
      CompletesCandidate(p.begin, scratch, p.records, n);
    }
  }

  lemma TakesWritten(sum: Checksum, s: State, f: Bytes, p: Place, scratch: seq<Bytes>)
      returns (step: Step, f': Bytes, p': Place)
    requires Follows(sum, s, f, p, scratch) && p.records != [] && ReadPiece(sum, s).piece.Record?
    ensures Rounds(sum, s, scratch, step, ReadPiece(sum, s).next)
    ensures Ahead(sum, step, ReadPiece(sum, s).next, f', p', Candidates(p.begin, scratch, p.records))
  {
    var n := FragmentLength(p.offset, |p.records[0]|);
    p', f' := After(p.offset, p.begin, p.records),
      AtHeader(f, p.offset)[Min(|AtHeader(f, p.offset)|, HeaderSize + n)..];
    step := StepOf(p.begin, scratch, p.records[0][..n], n == |p.records[0]|);
    DamagedPiece(sum, s, f, p.offset, p.begin, p.records);
    RoundOfPiece(sum, s, scratch, p.begin, n == |p.records[0]|, p.records[0][..n]);
    AheadOfPiece(sum, ReadPiece(sum, s).next, f', p, scratch);
  }

  lemma {:induction false} RoundOfBad(sum: Checksum, s: State, scratch: seq<Bytes>)
    requires |scratch| <= 1 && ReadPiece(sum, s).piece.Bad?
    ensures Rounds(sum, s, scratch, Continue([]), ReadPiece(sum, s).next)
    ensures AtEnd(ReadPiece(sum, s).next) ==> Rounds(sum, s, scratch, Stop, ReadPiece(sum, s).next)
  {
    if AtEnd(ReadPiece(sum, s).next) {
      EndReads(sum, ReadPiece(sum, s).next, []);
    }
  }

  lemma {:induction false} AheadOfDropped(sum: Checksum, next: State, f: Bytes, p: Place, scratch: seq<Bytes>)
    returns (f': Bytes, p': Place)
    requires p.offset <= BlockSize && p.records != [] && |scratch| <= 1 && (p.begin ==> scratch == [])
    requires Caught(sum, f, p.offset, p.begin, p.records)
    requires Dropped(next, AtHeader(f, p.offset), HeaderOffset(p.offset)) && !AtEnd(next)
    ensures Ahead(sum, Continue([]), next, f', p', Candidates(p.begin, scratch, p.records))
  {
    f' := AtHeader(f, p.offset)[BlockSize - HeaderOffset(p.offset)..];
    var q := SkipBlock(sum, f, p.offset, p.begin, p.records, f');
    p' := Place(BlockSize, q.begin, q.records);
    HeldIsExtra(p.begin, scratch, p.records);
    SuffixOfSuffix(Candidates(q.begin, [], q.records), Candidates(p.begin, [], p.records),
                   Candidates(p.begin, scratch, p.records));
  }

  lemma HeldIsExtra(begin: bool, scratch: seq<Bytes>, records: seq<Bytes>)
    requires records != [] && (begin ==> scratch == [])
    ensures IsSuffix(Candidates(begin, [], records), Candidates(begin, scratch, records))
  {
  }

  lemma TakesDamaged(sum: Checksum, s: State, f: Bytes, p: Place, scratch: seq<Bytes>)
      returns (step: Step, f': Bytes, p': Place)
    requires Follows(sum, s, f, p, scratch) && p.records != [] && ReadPiece(sum, s).piece.Bad?
    ensures Rounds(sum, s, scratch, step, ReadPiece(sum, s).next)
    ensures Ahead(sum, step, ReadPiece(sum, s).next, f', p', Candidates(p.begin, scratch, p.records))
  {
    var next := ReadPiece(sum, s).next;
    step, f', p' := Stop, f, p;
    RoundOfBad(sum, s, scratch);
    DamagedPiece(sum, s, f, p.offset, p.begin, p.records);
    if !AtEnd(next) {
      step := Continue([]);
      f', p' := AheadOfDropped(sum, next, f, p, scratch);
    }
  }

  lemma TakesRound(sum: Checksum, s: State, f: Bytes, p: Place, scratch: seq<Bytes>)
      returns (step: Step, s': State, f': Bytes, p': Place)
    requires Follows(sum, s, f, p, scratch)
    ensures Rounds(sum, s, scratch, step, s')
    ensures Ahead(sum, step, s', f', p', Candidates(p.begin, scratch, p.records))
  {
    step, s', f', p' := Stop, ReadPiece(sum, s).next, f, p;
    if p.records == [] {
      NothingLeftIsEof(sum, s, p.offset);
    } else if ReadPiece(sum, s).piece.Bad? {
      step, f', p' := TakesDamaged(sum, s, f, p, scratch);
    } else if ReadPiece(sum, s).piece.Record? {
      step, f', p' := TakesWritten(sum, s, f, p, scratch);
    }
  }

  lemma SuffixAt(c: seq<Bytes>, d: seq<Bytes>, k: nat)
    requires IsSuffix(d, c)
    ensures k < |d| ==> var i := k + (|c| - |d|); i < |c| && d[k] == c[i] && d[k + 1..] == c[i + 1..]
  {
  }

  /** The reader returned nothing, or candidate `k` and then follows the writer behind it. */
  ghost predicate Returned(sum: Checksum, s: State, scratch: seq<Bytes>, f': Bytes, p': Place, c: seq<Bytes>, k: nat)
    requires |scratch| <= 1
  {
    var r := ReadOne(sum, s, scratch);
    r.record == []
    || (k < |c| && r.record == [c[k]] && p'.begin && Follows(sum, r.next, f', p', []) && p'.records == c[k + 1..])
  }

  lemma EndsWith(sum: Checksum, s: State, scratch: seq<Bytes>, step: Step, s': State, f': Bytes, p': Place,
                 c: seq<Bytes>)
    requires |scratch| <= 1 && !step.Continue?
    requires Rounds(sum, s, scratch, step, s') && Ahead(sum, step, s', f', p', c)
    ensures Returned(sum, s, scratch, f', p', c, 0)
  {
  }

  lemma GoesOn(sum: Checksum, s: State, scratch: seq<Bytes>, held: seq<Bytes>, s': State, g: Bytes, q: Place,
               c: seq<Bytes>)
    requires |scratch| <= 1 && Rounds(sum, s, scratch, Continue(held), s') && Ahead(sum, Continue(held), s', g, q, c)
    ensures Follows(sum, s', g, q, held) && s'.Size() < s.Size()
    ensures IsSuffix(Candidates(q.begin, held, q.records), c)
  {
  }

  lemma ContinuesTo(sum: Checksum, s: State, scratch: seq<Bytes>, held: seq<Bytes>, s': State, f': Bytes, p': Place,
                    c: seq<Bytes>, d: seq<Bytes>, n: nat)
      returns (k: nat)
    requires |scratch| <= 1 && Rounds(sum, s, scratch, Continue(held), s') && IsSuffix(d, c)
    requires Returned(sum, s', held, f', p', d, n)
    ensures Returned(sum, s, scratch, f', p', c, k)
  {
    k := n + (|c| - |d|);
    SuffixAt(c, d, n);
  }

  /** The reader returns nothing, or a whole record that the writer wrote, and then
      follows the writer behind that record. */
  lemma {:induction false} DamagedRecord(sum: Checksum, s: State, f: Bytes, p: Place, scratch: seq<Bytes>)
      returns (f': Bytes, p': Place, k: nat)
    requires Follows(sum, s, f, p, scratch)
    ensures Returned(sum, s, scratch, f', p', Candidates(p.begin, scratch, p.records), k)
    decreases s.Size()
  {
    var c := Candidates(p.begin, scratch, p.records);
    var step, s', g, q := TakesRound(sum, s, f, p, scratch);
    match step
    case Continue(held) =>
      GoesOn(sum, s, scratch, held, s', g, q, c);
      f', p', k := DamagedRecord(sum, s', g, q, held);
      k := ContinuesTo(sum, s, scratch, held, s', f', p', c, Candidates(q.begin, held, q.records), k);
    case _ =>
      f', p', k := g, q, 0;
      EndsWith(sum, s, scratch, step, s', g, q, c);
  }

  ghost predicate IsSubsequence(a: seq<Bytes>, b: seq<Bytes>) {
    a == [] || (b != [] && ((a[0] == b[0] && IsSubsequence(a[1..], b[1..])) || IsSubsequence(a, b[1..])))
  }

  lemma {:induction false} SubsequenceAt(a: seq<Bytes>, b: seq<Bytes>, k: nat)
    requires a != [] && k < |b| && a[0] == b[k] && IsSubsequence(a[1..], b[k + 1..])
    ensures IsSubsequence(a, b)
  {
    if k > 0 {
      assert b[1..][k..] == b[k + 1..];
      SubsequenceAt(a, b[1..], k - 1);
    }
  }

  lemma {:induction false} DamagedRecords(sum: Checksum, s: State, f: Bytes, p: Place)
    requires Follows(sum, s, f, p, []) && p.begin
    ensures IsSubsequence(ReadAll(sum, s).records, p.records)
    decreases s.Size()
  {
    var r := ReadOne(sum, s, []);
    var f', p', k := DamagedRecord(sum, s, f, p, []);
    if r.record != [] {
      DamagedRecords(sum, r.next, f', p');
      var all := ReadAll(sum, s).records;
      assert all[1..] == ReadAll(sum, r.next).records;
      SubsequenceAt(all, p.records, k);
    }
  }

  /** Whatever happened to the file, as long as the checksum catches it, reading returns
      some of the records that were written, whole and in order: never a splice of two. */
  lemma {:induction false} DamageReadsSubsequence(sum: Checksum, file: Bytes, records: seq<Bytes>)
    requires Caught(sum, file, 0, true, records)
    ensures IsSubsequence(ReadAll(sum, Open(file)).records, records)
  {
    NewFileIsAligned(file);
    assert AtHeader(file, 0) == AtHeader(file, BlockSize);
    DamagedRecords(sum, Open(file), file, Place(BlockSize, true, records));
  }

  /** What the writer puts down from a place on. */
  function Stream(sum: Checksum, p: Place): Bytes
    requires p.offset <= BlockSize
  {
    if p.records == [] then []
    else
      Fragments(sum, p.offset, p.records[0], p.begin)
      + Encode(sum, EndOffset(p.offset, |p.records[0]|), p.records[1..])
  }

  /** The last fragment of a record is followed by the records after it. */
  lemma {:induction false} StreamLast(sum: Checksum, p: Place)
    requires p.offset <= BlockSize && p.records != [] && FragmentLength(p.offset, |p.records[0]|) == |p.records[0]|
    ensures Stream(sum, p)
            == Head(sum, p.offset, p.records[0], p.begin) + Stream(sum, After(p.offset, p.begin, p.records))
  {
    var next := After(p.offset, p.begin, p.records);
    assert Fragments(sum, p.offset, p.records[0], p.begin) == Head(sum, p.offset, p.records[0], p.begin);
    assert Stream(sum, next) == Encode(sum, next.offset, next.records);
  }

  lemma {:induction false} StreamStep(sum: Checksum, p: Place)
    requires p.offset <= BlockSize && p.records != []
    ensures Stream(sum, p)
            == Head(sum, p.offset, p.records[0], p.begin) + Stream(sum, After(p.offset, p.begin, p.records))
  {
    if FragmentLength(p.offset, |p.records[0]|) < |p.records[0]| {
      FragmentsAre(sum, p.offset, p.records[0], p.begin,
                   Encode(sum, EndOffset(p.offset, |p.records[0]|), p.records[1..]));
    } else {
      StreamLast(sum, p);
    }
  }

  lemma HeaderSplits(sum: Checksum, offset: nat, left: Bytes, begin: bool, more: Bytes)
    requires offset <= BlockSize
    ensures var n := FragmentLength(offset, |left|);
            var t, g := TypeOf(begin, n == |left|), AtHeader(Head(sum, offset, left, begin) + more, offset);
            && CaughtHere(sum, InBlock(g, HeaderOffset(offset)), t, left[..n])
            && g[Min(|g|, HeaderSize + n)..] == more
  {
    var n := FragmentLength(offset, |left|);
    var piece := Physical(sum, TypeOf(begin, n == |left|), left[..n]);
    assert AtHeader(Head(sum, offset, left, begin) + more, offset) == piece + more;
    assert piece <= InBlock(piece + more, HeaderOffset(offset));
  }

  /** A file nobody touched is among those the damage theorem speaks of. */
  lemma {:induction false} UntouchedIsCaught(sum: Checksum, p: Place)
    requires p.offset <= BlockSize
    ensures Caught(sum, Stream(sum, p), p.offset, p.begin, p.records)
    decreases |p.records|, if p.records == [] then 0 else |p.records[0]|,
              HeaderOffset(p.offset) + HeaderSize == BlockSize
  {
    if p.records != [] {
      var q := After(p.offset, p.begin, p.records);
      StreamStep(sum, p);
      HeaderSplits(sum, p.offset, p.records[0], p.begin, Stream(sum, q));
      UntouchedIsCaught(sum, q);
    }
  }
}
