/** Edits of the file set and their encoding (db/version_edit.cc). */
module VersionEdits {
  import opened Bytes
  import opened Coding
  import opened Keys


  /** FileMetaData as the manifest holds it: internal keys are byte strings. */
  datatype Meta = Meta(number: nat, fileSize: nat, smallest: Bytes, largest: Bytes)

  type LevelNumber = (nat, nat)

  datatype Edit = Edit(
    comparator: Option<Bytes>,
    logNumber: Option<nat>,
    prevLogNumber: Option<nat>,
    nextFileNumber: Option<nat>,
    lastSequence: Option<nat>,
    compactPointers: seq<(nat, Bytes)>,
    deletedFiles: seq<LevelNumber>,
    newFiles: seq<(nat, Meta)>)

  const EmptyEdit := Edit(None, None, None, None, None, [], [], [])

  /** The order of std::set<std::pair<int, uint64_t>>. */
  predicate PairLess(a: LevelNumber, b: LevelNumber) {
    a.0 < b.0 || (a.0 == b.0 && a.1 < b.1)
  }

  ghost predicate Ascending(ps: seq<LevelNumber>) {
    forall i, j :: 0 <= i < j < |ps| ==> PairLess(ps[i], ps[j])
  }

  function InsertPair(ps: seq<LevelNumber>, p: LevelNumber): seq<LevelNumber> {
    if ps == [] || PairLess(p, ps[0]) then [p] + ps
    else if p == ps[0] then ps
    else [ps[0]] + InsertPair(ps[1..], p)
  }

  lemma {:induction false} InsertLast(ps: seq<LevelNumber>, p: LevelNumber)
    requires Ascending(ps + [p])
    ensures InsertPair(ps, p) == ps + [p]
  {
    if ps != [] {
      assert (ps + [p])[0] == ps[0] && (ps + [p])[|ps|] == p;
      assert ps[1..] + [p] == (ps + [p])[1..];
      InsertLast(ps[1..], p);
    }
  }

  /** The order is total: of two different pairs one comes first. */
  lemma PairsAreOrdered(a: LevelNumber, b: LevelNumber)
    ensures PairLess(a, b) <==> a != b && !PairLess(b, a)
    ensures a.0 < b.0 ==> PairLess(a, b)
  {
  }

  /** Insertion into the set keeps it in order and without repetition. */
  lemma {:induction false} InsertKeepsOrder(ps: seq<LevelNumber>, p: LevelNumber)
    requires Ascending(ps)
    ensures Ascending(InsertPair(ps, p))
  {
    if ps != [] && !PairLess(p, ps[0]) && p != ps[0] {
      InsertKeepsOrder(ps[1..], p);
      InsertedPairs(ps[1..], p);
      assert forall q :: q in InsertPair(ps[1..], p) ==> PairLess(ps[0], q);
    }
  }

  datatype Counter = Log | PrevLog | NextFile | Last

  /** One tagged item of an encoded edit. */
  datatype Field =
    | Comparator(name: Bytes)
    | Number(counter: Counter, n: nat)
    | CompactPointer(level: nat, key: Bytes)
    | DeletedFile(level: nat, number: nat)
    | NewFile(level: nat, file: Meta)

  /** What setting one field does to an edit. */
  function Set(e: Edit, f: Field): Edit {
    match f
    case Comparator(name) => e.(comparator := Some(name))
    case Number(counter, n) => SetNumber(e, counter, n)
    case CompactPointer(level, key) => e.(compactPointers := e.compactPointers + [(level, key)])
    case DeletedFile(level, number) => e.(deletedFiles := InsertPair(e.deletedFiles, (level, number)))
    case NewFile(level, file) => e.(newFiles := e.newFiles + [(level, file)])
  }

  function SetNumber(e: Edit, counter: Counter, n: nat): Edit {
    match counter
    case Log => e.(logNumber := Some(n))
    case PrevLog => e.(prevLogNumber := Some(n))
    case NextFile => e.(nextFileNumber := Some(n))
    case Last => e.(lastSequence := Some(n))
  }

  function SetAll(e: Edit, fs: seq<Field>): Edit
    decreases |fs|
  {
    if fs == [] then e else SetAll(Set(e, fs[0]), fs[1..])
  }

  // Encoding

  function CounterTag(counter: Counter): nat {
    match counter
    case Log => 2
    case NextFile => 3
    case Last => 4
    case PrevLog => 9
  }

  function EncodeField(f: Field): Bytes {
    match f
    case Comparator(name) => Varint(1) + LengthPrefixed(name)
    case Number(counter, n) => Varint(CounterTag(counter)) + Varint(n)
    case CompactPointer(level, key) => Varint(5) + (Varint(level) + LengthPrefixed(key))
    case DeletedFile(level, number) => Varint(6) + (Varint(level) + Varint(number))
    case NewFile(level, file) => Varint(7) + (Varint(level) + MetaBytes(file))
  }

  function MetaBytes(f: Meta): Bytes {
    Varint(f.number) + (Varint(f.fileSize) + (LengthPrefixed(f.smallest) + LengthPrefixed(f.largest)))
  }

  function EncodeFields(fs: seq<Field>): Bytes {
    if fs == [] then [] else EncodeField(fs[0]) + EncodeFields(fs[1..])
  }

  function OptionField(counter: Counter, o: Option<nat>): seq<Field> {
    if o.Some? then [Number(counter, o.value)] else []
  }

  function Scalars(e: Edit): seq<Field> {
    (if e.comparator.Some? then [Comparator(e.comparator.value)] else [])
    + OptionField(Log, e.logNumber) + OptionField(PrevLog, e.prevLogNumber)
    + OptionField(NextFile, e.nextFileNumber) + OptionField(Last, e.lastSequence)
  }

  /** The fields EncodeTo writes, in its order. */
  function Fields(e: Edit): seq<Field> {
    Scalars(e) + Pointers(e.compactPointers) + Deletions(e.deletedFiles) + Additions(e.newFiles)
  }

  function Pointers(ps: seq<(nat, Bytes)>): seq<Field> {
    seq(|ps|, i requires 0 <= i < |ps| => CompactPointer(ps[i].0, ps[i].1))
  }

  function Deletions(ps: seq<LevelNumber>): seq<Field> {
    seq(|ps|, i requires 0 <= i < |ps| => DeletedFile(ps[i].0, ps[i].1))
  }

  function Additions(fs: seq<(nat, Meta)>): seq<Field> {
    seq(|fs|, i requires 0 <= i < |fs| => NewFile(fs[i].0, fs[i].1))
  }

  function Encode(e: Edit): Bytes {
    EncodeFields(Fields(e))
  }

  // Decoding

  function GetLevel(input: Bytes): (r: Parsed<nat>)
    ensures r.Parsed? ==> |r.rest| < |input| && r.value < NumLevels
  {
    match GetVarint32(input)
    case Failed => Failed
    case Parsed(v, rest) => if v < NumLevels then Parsed(v, rest) else Failed
  }

  function GetNumber(counter: Counter, input: Bytes): (r: Parsed<Field>)
    ensures r.Parsed? ==> |r.rest| < |input|
  {
    match GetVarint64(input)
    case Failed => Failed
    case Parsed(v, rest) => Parsed(Number(counter, v), rest)
  }

  function GetMeta(input: Bytes): (r: Parsed<Meta>)
    ensures r.Parsed? ==> |r.rest| < |input|
  {
    match GetVarint64(input)
    case Failed => Failed
    case Parsed(number, r1) =>
      match GetVarint64(r1)
      case Failed => Failed
      case Parsed(fileSize, r2) =>
        match GetLengthPrefixed(r2)
        case Failed => Failed
        case Parsed(smallest, r3) =>
          match GetLengthPrefixed(r3)
          case Failed => Failed
          case Parsed(largest, r4) => Parsed(Meta(number, fileSize, smallest, largest), r4)
  }

  /** The body of one case of DecodeFrom's switch. */
  function GetBody(tag: nat, input: Bytes): (r: Parsed<Field>)
    ensures r.Parsed? ==> |r.rest| < |input|
  {
    if tag == 1 then
      match GetLengthPrefixed(input)
      case Failed => Failed
      case Parsed(name, rest) => Parsed(Comparator(name), rest)
    else if tag == 2 then GetNumber(Log, input)
    else if tag == 9 then GetNumber(PrevLog, input)
    else if tag == 3 then GetNumber(NextFile, input)
    else if tag == 4 then GetNumber(Last, input)
    else if tag == 5 || tag == 6 || tag == 7 then
      match GetLevel(input)
      case Failed => Failed
      case Parsed(level, rest) => GetLevelBody(tag, level, rest)
    else Failed
  }

  function GetLevelBody(tag: nat, level: nat, input: Bytes): (r: Parsed<Field>)
    ensures r.Parsed? ==> |r.rest| < |input|
  {
    if tag == 5 then
      match GetLengthPrefixed(input)
      case Failed => Failed
      case Parsed(key, rest) => Parsed(CompactPointer(level, key), rest)
    else if tag == 6 then
      match GetVarint64(input)
      case Failed => Failed
      case Parsed(n, rest) => Parsed(DeletedFile(level, n), rest)
    else
      match GetMeta(input)
      case Failed => Failed
      case Parsed(file, rest) => Parsed(NewFile(level, file), rest)
  }

  /** Every field of a well-formed record, or None if the record is corrupt. */
  function DecodeFields(input: Bytes): Option<seq<Field>>
    decreases |input|
  {
    match GetVarint32(input)
    case Failed => if input == [] then Some([]) else None
    case Parsed(tag, body) =>
      match GetBody(tag, body)
      case Failed => None
      case Parsed(f, rest) =>
        match DecodeFields(rest)
        case None => None
        case Some(fs) => Some([f] + fs)
  }

  function Decode(input: Bytes): Option<Edit> {
    match DecodeFields(input)
    case None => None
    case Some(fs) => Some(SetAll(EmptyEdit, fs))
  }

  // Round trip

  ghost predicate Slice32(s: Bytes) {
    |s| < Two32
  }

  ghost predicate FitsMeta(f: Meta) {
    f.number < Two64 && f.fileSize < Two64 && Slice32(f.smallest) && Slice32(f.largest)
  }

  /** The field's numbers fit their C++ types, and its level is one of the seven. */
  ghost predicate Fits(f: Field) {
    match f
    case Comparator(name) => Slice32(name)
    case Number(_, n) => n < Two64
    case CompactPointer(level, key) => level < NumLevels && Slice32(key)
    case DeletedFile(level, number) => level < NumLevels && number < Two64
    case NewFile(level, file) => level < NumLevels && FitsMeta(file)
  }

  function TagOf(f: Field): (t: nat)
    ensures t < 128
  {
    match f
    case Comparator(_) => 1
    case Number(counter, _) => CounterTag(counter)
    case CompactPointer(_, _) => 5
    case DeletedFile(_, _) => 6
    case NewFile(_, _) => 7
  }

  function Body(f: Field): Bytes {
    match f
    case Comparator(name) => LengthPrefixed(name)
    case Number(_, n) => Varint(n)
    case CompactPointer(level, key) => Varint(level) + LengthPrefixed(key)
    case DeletedFile(level, number) => Varint(level) + Varint(number)
    case NewFile(level, file) => Varint(level) + MetaBytes(file)
  }

  lemma MetaRoundTrip(f: Meta, rest: Bytes)
    requires FitsMeta(f)
    ensures GetMeta(MetaBytes(f) + rest) == Parsed(f, rest)
  {
    var largest := LengthPrefixed(f.largest) + rest;
    var smallest := LengthPrefixed(f.smallest) + largest;
    var fileSize := Varint(f.fileSize) + smallest;
    assert MetaBytes(f) + rest == Varint(f.number) + fileSize;
    Varint64RoundTrip(f.number, fileSize);
    Varint64RoundTrip(f.fileSize, smallest);
    LengthPrefixedRoundTrip(f.smallest, largest);
    LengthPrefixedRoundTrip(f.largest, rest);
  }

  lemma {:induction false} LevelRoundTrip(level: nat, body: Bytes, rest: Bytes)
    requires level < NumLevels
    ensures GetLevel(Varint(level) + body + rest) == Parsed(level, body + rest)
  {
    assert Varint(level) + body + rest == Varint(level) + (body + rest);
    Varint32RoundTrip(level, body + rest);
  }

  lemma {:induction false} PointerRoundTrip(level: nat, key: Bytes, rest: Bytes)
    requires level < NumLevels && Slice32(key)
    ensures GetBody(5, Varint(level) + LengthPrefixed(key) + rest) == Parsed(CompactPointer(level, key), rest)
  {
    LevelRoundTrip(level, LengthPrefixed(key), rest);
    LengthPrefixedRoundTrip(key, rest);
  }

  lemma {:induction false} DeletionRoundTrip(level: nat, number: nat, rest: Bytes)
    requires level < NumLevels && number < Two64
    ensures GetBody(6, Varint(level) + Varint(number) + rest) == Parsed(DeletedFile(level, number), rest)
  {
    LevelRoundTrip(level, Varint(number), rest);
    Varint64RoundTrip(number, rest);
  }

  lemma AdditionParses(input: Bytes, level: nat, body: Bytes, file: Meta, rest: Bytes)
    requires GetLevel(input) == Parsed(level, body) && GetMeta(body) == Parsed(file, rest)
    ensures GetBody(7, input) == Parsed(NewFile(level, file), rest)
  {
  }

  lemma {:induction false} AdditionRoundTrip(level: nat, file: Meta, rest: Bytes)
    requires level < NumLevels && FitsMeta(file)
    ensures GetBody(7, Varint(level) + MetaBytes(file) + rest) == Parsed(NewFile(level, file), rest)
  {
    LevelRoundTrip(level, MetaBytes(file), rest);
    MetaRoundTrip(file, rest);
    AdditionParses(Varint(level) + MetaBytes(file) + rest, level, MetaBytes(file) + rest, file, rest);
  }

  lemma {:induction false} BodyRoundTrip(f: Field, rest: Bytes)
    requires Fits(f)
    ensures GetBody(TagOf(f), Body(f) + rest) == Parsed(f, rest)
  {
    match f
    case Comparator(name) => LengthPrefixedRoundTrip(name, rest);
    case Number(counter, n) => Varint64RoundTrip(n, rest);
    case CompactPointer(level, key) => PointerRoundTrip(level, key, rest);
    case DeletedFile(level, number) => DeletionRoundTrip(level, number, rest);
    case NewFile(level, file) => AdditionRoundTrip(level, file, rest);
  }

  lemma TakesField(f: Field, more: Bytes)
    requires Fits(f)
    ensures GetVarint32(EncodeField(f) + more) == Parsed(TagOf(f), Body(f) + more)
    ensures GetBody(TagOf(f), Body(f) + more) == Parsed(f, more)
  {
    assert EncodeField(f) + more == Varint(TagOf(f)) + (Body(f) + more);
    Varint32RoundTrip(TagOf(f), Body(f) + more);
    BodyRoundTrip(f, more);
  }

  lemma {:induction false} DecodesField(input: Bytes, tag: nat, body: Bytes, f: Field, more: Bytes, rest: seq<Field>,
                                        fs: seq<Field>)
    requires GetVarint32(input) == Parsed(tag, body) && GetBody(tag, body) == Parsed(f, more)
    requires DecodeFields(more) == Some(rest) && fs == [f] + rest
    ensures DecodeFields(input) == Some(fs)
  {
  }

  ghost predicate AllFit(fs: seq<Field>) {
    forall i :: 0 <= i < |fs| ==> Fits(fs[i])
  }

  lemma {:induction false} FieldsRoundTrip(fs: seq<Field>)
    requires AllFit(fs)
    ensures DecodeFields(EncodeFields(fs)) == Some(fs)
  {
    if fs != [] {
      var f, more := fs[0], EncodeFields(fs[1..]);
      TakesField(f, more);
      FieldsRoundTrip(fs[1..]);
      DecodesField(EncodeField(f) + more, TagOf(f), Body(f) + more, f, more, fs[1..], fs);
      assert [f] + fs[1..] == fs;
    }
  }

  ghost predicate FitsOption(o: Option<nat>) {
    o.Some? ==> o.value < Two64
  }

  /** What the C++ types of an edit guarantee, and levels below kNumLevels. */
  ghost predicate ValidEdit(e: Edit) {
    && (e.comparator.Some? ==> Slice32(e.comparator.value))
    && FitsOption(e.logNumber) && FitsOption(e.prevLogNumber)
    && FitsOption(e.nextFileNumber) && FitsOption(e.lastSequence)
    && (forall i ::
         0 <= i < |e.compactPointers| ==>
         e.compactPointers[i].0 < NumLevels && Slice32(e.compactPointers[i].1))
    && (forall i :: 0 <= i < |e.deletedFiles| ==> e.deletedFiles[i].0 < NumLevels && e.deletedFiles[i].1 < Two64)
    && (forall i :: 0 <= i < |e.newFiles| ==> e.newFiles[i].0 < NumLevels && FitsMeta(e.newFiles[i].1))
    && Ascending(e.deletedFiles)
  }

  lemma {:induction false} SetAllConcat(e: Edit, fs: seq<Field>, gs: seq<Field>)
    ensures SetAll(e, fs + gs) == SetAll(SetAll(e, fs), gs)
    decreases |fs|
  {
    if fs == [] {
      assert fs + gs == gs;
    } else {
      assert (fs + gs)[1..] == fs[1..] + gs;
      SetAllConcat(Set(e, fs[0]), fs[1..], gs);
    }
  }

  lemma {:induction false} SetPointers(e: Edit, ps: seq<(nat, Bytes)>)
    ensures SetAll(e, Pointers(ps)) == e.(compactPointers := e.compactPointers + ps)
    decreases |ps|
  {
    if ps == [] {
      assert e.compactPointers + ps == e.compactPointers;
    } else {
      assert Pointers(ps)[1..] == Pointers(ps[1..]);
      SetPointers(Set(e, Pointers(ps)[0]), ps[1..]);
      assert e.compactPointers + [ps[0]] + ps[1..] == e.compactPointers + ps;
    }
  }

  lemma {:induction false} SetDeletions(e: Edit, ps: seq<LevelNumber>)
    requires Ascending(e.deletedFiles + ps)
    ensures SetAll(e, Deletions(ps)) == e.(deletedFiles := e.deletedFiles + ps)
    decreases |ps|
  {
    if ps == [] {
      assert e.deletedFiles + ps == e.deletedFiles;
    } else {
      assert Deletions(ps)[1..] == Deletions(ps[1..]);
      assert e.deletedFiles + [ps[0]] == (e.deletedFiles + ps)[..|e.deletedFiles| + 1];
      InsertLast(e.deletedFiles, ps[0]);
      assert e.deletedFiles + [ps[0]] + ps[1..] == e.deletedFiles + ps;
      SetDeletions(Set(e, Deletions(ps)[0]), ps[1..]);
    }
  }

  lemma {:induction false} SetAdditions(e: Edit, fs: seq<(nat, Meta)>)
    ensures SetAll(e, Additions(fs)) == e.(newFiles := e.newFiles + fs)
    decreases |fs|
  {
    if fs == [] {
      assert e.newFiles + fs == e.newFiles;
    } else {
      assert Additions(fs)[1..] == Additions(fs[1..]);
      SetAdditions(Set(e, Additions(fs)[0]), fs[1..]);
      assert e.newFiles + [fs[0]] + fs[1..] == e.newFiles + fs;
    }
  }

  lemma {:induction false} SetOption(e: Edit, counter: Counter, o: Option<nat>)
    ensures SetAll(e, OptionField(counter, o)) == if o.Some? then SetNumber(e, counter, o.value) else e
  {
  }

  lemma SetScalars(e: Edit)
    ensures SetAll(EmptyEdit, Scalars(e)) == e.(compactPointers := [], deletedFiles := [], newFiles := [])
  {
    var c := if e.comparator.Some? then [Comparator(e.comparator.value)] else [];
    var l, p := OptionField(Log, e.logNumber), OptionField(PrevLog, e.prevLogNumber);
    var n, s := OptionField(NextFile, e.nextFileNumber), OptionField(Last, e.lastSequence);
    SetAllConcat(EmptyEdit, c + l + p + n, s);
    SetAllConcat(EmptyEdit, c + l + p, n);
    SetAllConcat(EmptyEdit, c + l, p);
    SetAllConcat(EmptyEdit, c, l);
    var e0 := SetAll(EmptyEdit, c);
    SetOption(e0, Log, e.logNumber);
    var e1 := SetAll(e0, l);
    SetOption(e1, PrevLog, e.prevLogNumber);
    var e2 := SetAll(e1, p);
    SetOption(e2, NextFile, e.nextFileNumber);
    SetOption(SetAll(e2, n), Last, e.lastSequence);
  }

  lemma FieldsRebuild(e: Edit)
    requires Ascending(e.deletedFiles)
    ensures SetAll(EmptyEdit, Fields(e)) == e
  {
    var s, p, d, a := Scalars(e), Pointers(e.compactPointers), Deletions(e.deletedFiles), Additions(e.newFiles);
    assert Fields(e) == s + p + d + a;
    SetAllConcat(EmptyEdit, s + p + d, a);
    SetAllConcat(EmptyEdit, s + p, d);
    SetAllConcat(EmptyEdit, s, p);
    SetScalars(e);
    var e1 := SetAll(EmptyEdit, s);
    SetPointers(e1, e.compactPointers);
    assert [] + e.deletedFiles == e.deletedFiles;
    SetDeletions(SetAll(e1, p), e.deletedFiles);
    SetAdditions(SetAll(SetAll(e1, p), d), e.newFiles);
  }

  lemma ConcatFits(fs: seq<Field>, gs: seq<Field>)
    requires AllFit(fs) && AllFit(gs)
    ensures AllFit(fs + gs)
  {
  }

  lemma FieldsFit(e: Edit)
    requires ValidEdit(e)
    ensures AllFit(Fields(e))
  {
    var s, p, d := Scalars(e), Pointers(e.compactPointers), Deletions(e.deletedFiles);
    assert AllFit(s) && AllFit(p) && AllFit(d) && AllFit(Additions(e.newFiles));
    ConcatFits(s, p);
    ConcatFits(s + p, d);
    ConcatFits(s + p + d, Additions(e.newFiles));
  }

  /** DecodeFrom undoes EncodeTo, for every edit. */
  lemma EditRoundTrip(e: Edit)
    requires ValidEdit(e)
    ensures Decode(Encode(e)) == Some(e)
  {
    FieldsFit(e);
    FieldsRoundTrip(Fields(e));
    FieldsRebuild(e);
  }

  ghost predicate LevelsBelow(e: Edit) {
    && (forall i :: 0 <= i < |e.deletedFiles| ==> e.deletedFiles[i].0 < NumLevels)
    && (forall i :: 0 <= i < |e.newFiles| ==> e.newFiles[i].0 < NumLevels)
  }

  lemma {:induction false} InsertedPairs(ps: seq<LevelNumber>, p: LevelNumber)
    ensures forall q :: q in InsertPair(ps, p) <==> q in ps || q == p
  {
    if ps != [] {
      InsertedPairs(ps[1..], p);
      assert ps == [ps[0]] + ps[1..];
    }
  }

  lemma SetKeepsLevels(e: Edit, f: Field)
    requires LevelsBelow(e) && (f.DeletedFile? || f.NewFile? ==> f.level < NumLevels)
    ensures LevelsBelow(Set(e, f))
  {
    if f.DeletedFile? {
      InsertedPairs(e.deletedFiles, (f.level, f.number));
      forall q | q in InsertPair(e.deletedFiles, (f.level, f.number)) ensures q.0 < NumLevels {}
    }
  }

  lemma {:induction false} SetAllKeepsLevels(e: Edit, fs: seq<Field>, input: Bytes)
    requires LevelsBelow(e) && DecodeFields(input) == Some(fs)
    ensures LevelsBelow(SetAll(e, fs))
    decreases |fs|
  {
    if fs != [] {
      var tag := GetVarint32(input);
      var field := GetBody(tag.value, tag.rest);
      assert fs[0] == field.value && DecodeFields(field.rest) == Some(fs[1..]);
      SetKeepsLevels(e, fs[0]);
      SetAllKeepsLevels(Set(e, fs[0]), fs[1..], field.rest);
    }
  }

  /** Whatever the record says, a decoded edit names only levels that exist. */
  lemma DecodedLevels(input: Bytes)
    requires Decode(input).Some?
    ensures LevelsBelow(Decode(input).value)
  {
    SetAllKeepsLevels(EmptyEdit, DecodeFields(input).value, input);
  }

  lemma {:induction false} EncodeConcat(fs: seq<Field>, gs: seq<Field>)
    ensures EncodeFields(fs + gs) == EncodeFields(fs) + EncodeFields(gs)
  {
    if fs == [] {
      assert fs + gs == gs;
    } else {
      assert (fs + gs)[1..] == fs[1..] + gs;
      EncodeConcat(fs[1..], gs);
    }
  }

  lemma EncodeOne(f: Field)
    ensures EncodeFields([f]) == EncodeField(f)
  {
    assert EncodeFields([]) == [];
  }

  lemma {:induction false} KeptPointers(e: Edit, ps: seq<(nat, Bytes)>, fs: seq<Field>)
    ensures SetAll(e.(compactPointers := ps + e.compactPointers), fs)
            == SetAll(e, fs).(compactPointers := ps + SetAll(e, fs).compactPointers)
    decreases |fs|
  {
    if fs != [] {
      var e' := Set(e, fs[0]);
      if fs[0].CompactPointer? {
        assert ps + (e.compactPointers + [(fs[0].level, fs[0].key)])
               == ps + e.compactPointers + [(fs[0].level, fs[0].key)];
      }
      assert Set(e.(compactPointers := ps + e.compactPointers), fs[0])
             == e'.(compactPointers := ps + e'.compactPointers);
      KeptPointers(e', ps, fs[1..]);
    }
  }

  class VersionEdit {
    var comparator: Option<Bytes>
    var logNumber: Option<nat>
    var prevLogNumber: Option<nat>
    var nextFileNumber: Option<nat>
    var lastSequence: Option<nat>
    var compactPointers: seq<(nat, Bytes)>
    var deletedFiles: seq<LevelNumber>
    var newFiles: seq<(nat, Meta)>

    constructor ()
      ensures AsEdit() == EmptyEdit
    {
      comparator, logNumber, prevLogNumber, nextFileNumber, lastSequence := None, None, None, None, None;
      compactPointers, deletedFiles, newFiles := [], [], [];
    }

    function AsEdit(): Edit
      reads this
    {
      Edit(comparator, logNumber, prevLogNumber, nextFileNumber, lastSequence, compactPointers, deletedFiles, newFiles)
    }

    /** Clear forgets everything but the compaction pointers. */
    method Clear()
      modifies this
      ensures AsEdit() == EmptyEdit.(compactPointers := old(compactPointers))
    {
      comparator, logNumber, prevLogNumber, nextFileNumber, lastSequence := None, None, None, None, None;
      deletedFiles, newFiles := [], [];
    }

    method EncodeTo(dst: Bytes) returns (r: Bytes)
      ensures r == dst + Encode(AsEdit())
    {
      r := dst;
      if comparator.Some? {
        r := r + (Varint(1) + LengthPrefixed(comparator.value));
      }
      ghost var c := if comparator.Some? then [Comparator(comparator.value)] else [];
      assert r == dst + EncodeFields(c);
      r := PutNumber(r, 2, Log, logNumber);
      r := PutNumber(r, 9, PrevLog, prevLogNumber);
      r := PutNumber(r, 3, NextFile, nextFileNumber);
      r := PutNumber(r, 4, Last, lastSequence);
      ghost var l, p := OptionField(Log, logNumber), OptionField(PrevLog, prevLogNumber);
      ghost var n, s := OptionField(NextFile, nextFileNumber), OptionField(Last, lastSequence);
      Joined(dst, c, l);
      Joined(dst, c + l, p);
      Joined(dst, c + l + p, n);
      Joined(dst, c + l + p + n, s);
      r := PutPointers(r);
      r := PutDeletions(r);
      r := PutAdditions(r);
      ghost var scalars := Scalars(AsEdit());
      Joined(dst, scalars, Pointers(compactPointers));
      Joined(dst, scalars + Pointers(compactPointers), Deletions(deletedFiles));
      Joined(dst, scalars + Pointers(compactPointers) + Deletions(deletedFiles), Additions(newFiles));
    }

    static lemma {:induction false} Joined(dst: Bytes, fs: seq<Field>, gs: seq<Field>)
      ensures dst + EncodeFields(fs) + EncodeFields(gs) == dst + EncodeFields(fs + gs)
    {
      EncodeConcat(fs, gs);
    }

    static method PutNumber(dst: Bytes, tag: nat, counter: Counter, o: Option<nat>) returns (r: Bytes)
      requires tag == CounterTag(counter)
      ensures r == dst + EncodeFields(OptionField(counter, o))
    {
      r := dst;
      if o.Some? {
        r := r + (Varint(tag) + Varint(o.value));
        EncodeOne(Number(counter, o.value));
      }
    }

    method PutPointers(dst: Bytes) returns (r: Bytes)
      ensures r == dst + EncodeFields(Pointers(compactPointers))
    {
      r := dst;
      for i := 0 to |compactPointers|
        invariant r == dst + EncodeFields(Pointers(compactPointers[..i]))
      {
        var (level, key) := compactPointers[i];
        assert Pointers(compactPointers[..i + 1]) == Pointers(compactPointers[..i]) + [CompactPointer(level, key)];
        Joined(dst, Pointers(compactPointers[..i]), [CompactPointer(level, key)]);
        EncodeOne(CompactPointer(level, key));
        r := r + EncodeField(CompactPointer(level, key));
      }
      assert compactPointers[..|compactPointers|] == compactPointers;
    }

    method PutDeletions(dst: Bytes) returns (r: Bytes)
      ensures r == dst + EncodeFields(Deletions(deletedFiles))
    {
      r := dst;
      for i := 0 to |deletedFiles|
        invariant r == dst + EncodeFields(Deletions(deletedFiles[..i]))
      {
        var (level, number) := deletedFiles[i];
        assert Deletions(deletedFiles[..i + 1]) == Deletions(deletedFiles[..i]) + [DeletedFile(level, number)];
        Joined(dst, Deletions(deletedFiles[..i]), [DeletedFile(level, number)]);
        EncodeOne(DeletedFile(level, number));
        r := r + EncodeField(DeletedFile(level, number));
      }
      assert deletedFiles[..|deletedFiles|] == deletedFiles;
    }

    method PutAdditions(dst: Bytes) returns (r: Bytes)
      ensures r == dst + EncodeFields(Additions(newFiles))
    {
      r := dst;
      for i := 0 to |newFiles|
        invariant r == dst + EncodeFields(Additions(newFiles[..i]))
      {
        var (level, f) := newFiles[i];
        assert Additions(newFiles[..i + 1]) == Additions(newFiles[..i]) + [NewFile(level, f)];
        Joined(dst, Additions(newFiles[..i]), [NewFile(level, f)]);
        EncodeOne(NewFile(level, f));
        r := r + EncodeField(NewFile(level, f));
      }
      assert newFiles[..|newFiles|] == newFiles;
    }

    /** The switch of DecodeFrom. */
    method Assign(f: Field)
      modifies this
      ensures AsEdit() == Set(old(AsEdit()), f)
    {
      match f
      case Comparator(name) => comparator := Some(name);
      case Number(Log, n) => logNumber := Some(n);
      case Number(PrevLog, n) => prevLogNumber := Some(n);
      case Number(NextFile, n) => nextFileNumber := Some(n);
      case Number(Last, n) => lastSequence := Some(n);
      case CompactPointer(level, key) => compactPointers := compactPointers + [(level, key)];
      case DeletedFile(level, number) => deletedFiles := InsertPair(deletedFiles, (level, number));
      case NewFile(level, file) => newFiles := newFiles + [(level, file)];
    }

    /** Decodes into this edit.  Pointers it already had stay in front of the decoded ones. */
    method DecodeFrom(src: Bytes) returns (ok: bool)
      modifies this
      ensures ok <==> Decode(src).Some?
      ensures ok ==> var e := Decode(src).value;
                     AsEdit() == e.(compactPointers := old(compactPointers) + e.compactPointers)
    {
      Clear();
      ghost var start := AsEdit();
      ghost var read: seq<Field> := [];
      var input := src;
      PrependedNone(DecodeFields(src));
      while true
        invariant AsEdit() == SetAll(start, read)
        invariant DecodeFields(src) == Prepended(read, DecodeFields(input))
        decreases |input|
      {
        var tag := GetVarint32(input);
        if tag.Failed? { break; }
        var field := GetBody(tag.value, tag.rest);
        if field.Failed? { return false; }
        Assign(field.value);
        SetAllConcat(start, read, [field.value]);
        PrependedTwice(read, field.value, DecodeFields(field.rest));
        read := read + [field.value];
        input := field.rest;
      }
      ok := input == [];
      assert read + [] == read;
      KeptPointers(EmptyEdit, old(compactPointers), read);
      assert old(compactPointers) + [] == old(compactPointers);
    }
  }

  function Prepended(fs: seq<Field>, more: Option<seq<Field>>): Option<seq<Field>> {
    match more
    case None => None
    case Some(gs) => Some(fs + gs)
  }

  lemma PrependedNone(more: Option<seq<Field>>)
    ensures Prepended([], more) == more
  {
    if more.Some? {
      assert [] + more.value == more.value;
    }
  }

  lemma PrependedTwice(fs: seq<Field>, f: Field, more: Option<seq<Field>>)
    ensures Prepended(fs, Prepended([f], more)) == Prepended(fs + [f], more)
  {
    if more.Some? {
      assert fs + ([f] + more.value) == fs + [f] + more.value;
    }
  }
}
