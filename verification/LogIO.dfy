/** The log writer and reader (db/log_writer.cc, db/log_reader.cc). */
module LogIO {
  import opened Bytes
  import opened LogFormat
  import opened LogTheorems

  lemma {:induction false} HeadThenRest(sum: Checksum, offset: nat, left: Bytes, begin: bool, before: Bytes)
    requires offset <= BlockSize
    ensures var n := FragmentLength(offset, |left|);
            before + Fragments(sum, offset, left, begin)
            == before + Trailer(offset) + Physical(sum, TypeOf(begin, n == |left|), left[..n])
               + if n == |left| then [] else Fragments(sum, BlockSize, left[n..], false)
  {
    var n := FragmentLength(offset, |left|);
    assert before + Trailer(offset) + Physical(sum, TypeOf(begin, n == |left|), left[..n])
           == before + Head(sum, offset, left, begin);
    assert n == |left| ==> Fragments(sum, offset, left, begin) == Head(sum, offset, left, begin);
    assert n < |left| ==> Fragments(sum, offset, left, begin)
                          == Head(sum, offset, left, begin) + Fragments(sum, BlockSize, left[n..], false);
  }

  /** log::Writer. */
  class Writer {
    var dest: Bytes
    var blockOffset: nat
    const sum: Checksum

    ghost predicate Valid()
      reads this
    {
      blockOffset <= BlockSize
    }

    constructor (sum: Checksum)
      ensures Valid() && dest == [] && blockOffset == 0 && this.sum == sum
    {
      this.sum := sum;
      dest := [];
      blockOffset := 0;
    }

    /** Terminates even when exactly seven bytes remain in a block. */
    method AddRecord(slice: Bytes)
      requires Valid()
      modifies this
      ensures Valid() && dest == old(dest) + Fragments(sum, old(blockOffset), slice, true)
      ensures blockOffset == EndOffset(old(blockOffset), |slice|)
    {
      var left := slice;
      var begin := true;
      ghost var whole := Fragments(sum, blockOffset, slice, true);
      while true
        invariant Valid()
        invariant dest + Fragments(sum, blockOffset, left, begin) == old(dest) + whole
        invariant EndOffset(blockOffset, |left|) == EndOffset(old(blockOffset), |slice|)
        decreases |left|, HeaderOffset(blockOffset) + HeaderSize == BlockSize
      {
        ghost var offset, before := blockOffset, dest;
        LeaveShortBlock();
        var avail := BlockSize - blockOffset - HeaderSize;
        var fragmentLength := if |left| < avail then |left| else avail;
        var end := |left| == fragmentLength;
        var t := if begin && end then FullType else if begin then FirstType else if end then LastType else MiddleType;
        EmitPhysicalRecord(t, left[..fragmentLength]);
        HeadThenRest(sum, offset, left, begin, before);
        left := left[fragmentLength..];
        begin := false;
        if |left| == 0 { break; }
      }
    }

    /** A header that no longer fits goes to a new block. */
    method LeaveShortBlock()
      requires Valid()
      modifies this
      ensures Valid() && dest == old(dest) + Trailer(old(blockOffset)) && blockOffset == HeaderOffset(old(blockOffset))
    {
      var leftover := BlockSize - blockOffset;
      if leftover < HeaderSize {
        if leftover > 0 {
          dest := dest + Zeros(leftover);
        }
        blockOffset := 0;
      }
    }

    method EmitPhysicalRecord(t: byte, payload: Bytes)
      requires Valid() && blockOffset + HeaderSize + |payload| <= BlockSize
      modifies this
      ensures Valid() && dest == old(dest) + Physical(sum, t, payload)
      ensures blockOffset == old(blockOffset) + HeaderSize + |payload|
    {
      var n := |payload|;
      var crc := sum([t] + payload);
      dest := dest + (crc + [n % 256, n / 256, t]);
      dest := dest + payload;
      blockOffset := blockOffset + HeaderSize + n;
    }
  }

  /** log::Reader with initial_offset 0; `file` is what it has not read from the file yet. */
  class Reader {
    var buffer: Bytes
    var file: Bytes
    var eof: bool
    var reports: nat
    const sum: Checksum

    constructor (file: Bytes, sum: Checksum)
      ensures AsState() == Open(file) && reports == 0 && this.sum == sum
    {
      this.file, this.sum := file, sum;
      buffer, eof, reports := [], false, 0;
    }

    function AsState(): State
      reads this
    {
      State(buffer, file, eof)
    }

    method ReadPhysicalRecord() returns (piece: Piece)
      modifies this
      ensures var r := old(ReadPiece(sum, AsState()));
              piece == r.piece && AsState() == r.next && reports == old(reports) + r.reports
    {
      while true
        invariant ReadPiece(sum, AsState()) == old(ReadPiece(sum, AsState())) && reports == old(reports)
        decreases |file|, !eof
      {
        if |buffer| < HeaderSize {
          if !eof {
            var n := Min(BlockSize, |file|);
            buffer, file := file[..n], file[n..];
            if |buffer| < BlockSize { eof := true; }
            continue;
          } else {
            buffer := [];
            return Eof;
          }
        }
        var t, length := buffer[6], Length(buffer);
        if HeaderSize + length > |buffer| {
          buffer := [];
          if !eof {
            reports := reports + 1;
            return Bad;
          }
          return Eof;
        }
        if t == ZeroType && length == 0 {
          buffer := [];
          return Bad;
        }
        var payload := buffer[HeaderSize..HeaderSize + length];
        if sum([t] + payload) != buffer[..4] {
          buffer := [];
          reports := reports + 1;
          return Bad;
        }
        buffer := buffer[HeaderSize + length..];
        return PieceOf(t, payload);
      }
    }

    /** Returns at most one record: none at the end of the file. */
    method ReadRecord() returns (record: seq<Bytes>)
      modifies this
      ensures var r := old(ReadOne(sum, AsState(), []));
              record == r.record && AsState() == r.next && reports == old(reports) + r.reports
    {
      var scratch: Bytes := [];
      var inFragmentedRecord := false;
      ghost var whole := ReadOne(sum, AsState(), []);
      while true
        invariant var r := ReadOne(sum, AsState(), if inFragmentedRecord then [scratch] else []);
                  r.record == whole.record && r.next == whole.next
                    && reports + r.reports == old(reports) + whole.reports
        invariant !inFragmentedRecord ==> scratch == []
        decreases AsState().Size()
      {
        var piece := ReadPhysicalRecord();
        match piece
        case Eof => return [];
        case Bad =>
          if inFragmentedRecord {
            reports := reports + 1;
            inFragmentedRecord := false;
            scratch := [];
          }
        case Record(t, fragment) =>
          if t == FullType {
            if inFragmentedRecord && scratch != [] { reports := reports + 1; }
            return [fragment];
          } else if t == FirstType {
            if inFragmentedRecord && scratch != [] { reports := reports + 1; }
            scratch := fragment;
            inFragmentedRecord := true;
          } else if t == MiddleType {
            if !inFragmentedRecord { reports := reports + 1; } else { scratch := scratch + fragment; }
          } else if t == LastType {
            if !inFragmentedRecord { reports := reports + 1; } else { return [scratch + fragment]; }
          } else {
            reports := reports + 1;
            inFragmentedRecord := false;
            scratch := [];
          }
      }
    }
  }
}
