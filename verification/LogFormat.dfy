/** The log format (db/log_format.h) and what its writer and reader compute. */
module LogFormat {
  import opened Bytes

  const BlockSize: nat := 32768
  const HeaderSize: nat := 7

  const ZeroType: byte := 0
  const FullType: byte := 1
  const FirstType: byte := 2
  const MiddleType: byte := 3
  const LastType: byte := 4

  /** The four stored bytes of a masked checksum over the type byte and the payload. */
  type Crc = s: Bytes | |s| == 4 witness [0, 0, 0, 0]

  type Checksum = Bytes -> Crc

  function Min(a: nat, b: nat): nat {
    if a < b then a else b
  }

  function Zeros(n: nat): (z: Bytes)
    ensures |z| == n
  {
    seq(n, _ => 0)
  }

  // Writing

  /** Where the next header goes, given the offset in the current block. */
  function HeaderOffset(offset: nat): (o: nat)
    requires offset <= BlockSize
    ensures o + HeaderSize <= BlockSize
  {
    if BlockSize - offset < HeaderSize then 0 else offset
  }

  function Trailer(offset: nat): Bytes
    requires offset <= BlockSize
  {
    if BlockSize - offset < HeaderSize then Zeros(BlockSize - offset) else []
  }

  function FragmentLength(offset: nat, left: nat): (n: nat)
    requires offset <= BlockSize
    ensures n <= left && HeaderOffset(offset) + HeaderSize + n <= BlockSize
    ensures n < left ==> HeaderOffset(offset) + HeaderSize + n == BlockSize
  {
    Min(left, BlockSize - HeaderOffset(offset) - HeaderSize)
  }

  function TypeOf(begin: bool, end: bool): byte {
    if begin && end then FullType else if begin then FirstType else if end then LastType else MiddleType
  }

  function Physical(sum: Checksum, t: byte, payload: Bytes): (r: Bytes)
    requires |payload| <= BlockSize - HeaderSize
    ensures |r| == HeaderSize + |payload|
  {
    sum([t] + payload) + [|payload| % 256, |payload| / 256, t] + payload
  }

  /** The bytes that write the rest of a record from a block offset. */
  function Fragments(sum: Checksum, offset: nat, left: Bytes, begin: bool): Bytes
    requires offset <= BlockSize
    decreases |left|, HeaderOffset(offset) + HeaderSize == BlockSize
  {
    var n := FragmentLength(offset, |left|);
    var head := Trailer(offset) + Physical(sum, TypeOf(begin, n == |left|), left[..n]);
    if n == |left| then head else head + Fragments(sum, BlockSize, left[n..], false)
  }

  /** The block offset after the rest of a record is written. */
  function EndOffset(offset: nat, left: nat): (o: nat)
    requires offset <= BlockSize
    ensures o <= BlockSize
    decreases left, HeaderOffset(offset) + HeaderSize == BlockSize
  {
    var n := FragmentLength(offset, left);
    if n == left then HeaderOffset(offset) + HeaderSize + n else EndOffset(BlockSize, left - n)
  }

  /** The bytes that write a list of records. */
  function Encode(sum: Checksum, offset: nat, records: seq<Bytes>): Bytes
    requires offset <= BlockSize
    decreases |records|
  {
    if records == [] then []
    else Fragments(sum, offset, records[0], true) + Encode(sum, EndOffset(offset, |records[0]|), records[1..])
  }

  // Reading

  /** The reader's buffer, the bytes of the file it has not read yet, and its eof flag. */
  datatype State = State(buffer: Bytes, file: Bytes, eof: bool) {
    function Size(): nat {
      |buffer| + |file|
    }
  }

  datatype Piece = Record(t: byte, payload: Bytes) | Eof | Bad

  /** kEof and kBadRecord share the numbering of the stored types, so a record that is
      stored with one of them is taken for that outcome. */
  const EofCode: byte := 5
  const BadCode: byte := 6

  function PieceOf(t: byte, payload: Bytes): Piece {
    if t == EofCode then Eof else if t == BadCode then Bad else Record(t, payload)
  }

  /** A physical record, the state after it, and how many corruptions were reported. */
  datatype PieceRead = PieceRead(piece: Piece, next: State, reports: nat)

  function Length(header: Bytes): nat
    requires |header| >= HeaderSize
  {
    (header[4] as int) + 256 * (header[5] as int)
  }

  /** ReadPhysicalRecord. */
  function ReadPiece(sum: Checksum, s: State): (r: PieceRead)
    ensures r.next.Size() <= s.Size()
    ensures !r.piece.Eof? ==> r.next.Size() < s.Size()
    decreases |s.file|, !s.eof
  {
    if |s.buffer| < HeaderSize then
      if s.eof then PieceRead(Eof, s.(buffer := []), 0)
      else
        var n := Min(BlockSize, |s.file|);
        ReadPiece(sum, State(s.file[..n], s.file[n..], n < BlockSize))
    else
      var length := Length(s.buffer);
      var dropped := s.(buffer := []);
      if HeaderSize + length > |s.buffer| then
        if s.eof then PieceRead(Eof, dropped, 0) else PieceRead(Bad, dropped, 1)
      else if s.buffer[6] == ZeroType && length == 0 then PieceRead(Bad, dropped, 0)
      else
        var payload := s.buffer[HeaderSize..HeaderSize + length];
        if sum([s.buffer[6]] + payload) != s.buffer[..4] then PieceRead(Bad, dropped, 1)
        else PieceRead(PieceOf(s.buffer[6], payload), s.(buffer := s.buffer[HeaderSize + length..]), 0)
  }

  datatype RecordRead = RecordRead(record: seq<Bytes>, next: State, reports: nat)

  /** ReadRecord, from any point of its loop: `scratch` is None outside a fragmented record.
      The result holds one record, or none at the end of the file. */
  function ReadOne(sum: Checksum, s: State, scratch: seq<Bytes>): (r: RecordRead)
    requires |scratch| <= 1
    ensures |r.record| <= 1 && r.next.Size() <= s.Size()
    ensures r.record != [] ==> r.next.Size() < s.Size()
    decreases s.Size()
  {
    var p := ReadPiece(sum, s);
    match p.piece
    case Eof => RecordRead([], p.next, p.reports)
    case Bad =>
      var more := ReadOne(sum, p.next, []);
      more.(reports := more.reports + p.reports + |scratch|)
    case Record(t, payload) =>
      if t == FullType then
        RecordRead([payload], p.next, p.reports + (if scratch != [] && scratch[0] != [] then 1 else 0))
      else if t == FirstType then
        var more := ReadOne(sum, p.next, [payload]);
        more.(reports := more.reports + p.reports + (if scratch != [] && scratch[0] != [] then 1 else 0))
      else if t == MiddleType then
        var more := ReadOne(sum, p.next, if scratch == [] then [] else [scratch[0] + payload]);
        more.(reports := more.reports + p.reports + (if scratch == [] then 1 else 0))
      else if t == LastType then
        if scratch == [] then
          var more := ReadOne(sum, p.next, []);
          more.(reports := more.reports + p.reports + 1)
        else RecordRead([scratch[0] + payload], p.next, p.reports)
      else
        var more := ReadOne(sum, p.next, []);
        more.(reports := more.reports + p.reports + 1)
  }

  datatype AllRead = AllRead(records: seq<Bytes>, reports: nat)

  /** Every record a reader returns until ReadRecord fails. */
  function ReadAll(sum: Checksum, s: State): AllRead
    decreases s.Size()
  {
    var r := ReadOne(sum, s, []);
    if r.record == [] then AllRead([], r.reports)
    else
      var rest := ReadAll(sum, r.next);
      AllRead(r.record + rest.records, r.reports + rest.reports)
  }

  function Open(file: Bytes): State {
    State([], file, false)
  }
}
