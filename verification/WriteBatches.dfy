/** Write batches and their encoding (db/write_batch.cc). */
module WriteBatches {
  import opened Bytes
  import opened Coding

  datatype Op = Put(key: Bytes, value: Bytes) | Delete(key: Bytes)

  /** An update with the sequence number that MemTableInserter gives it. */
  datatype Numbered<T> = Numbered(sequence: nat, op: T)

  const Header: nat := 12
  const MaxCount: nat := 0x8000_0000

  function Number<T>(first: nat, ops: seq<T>): (r: seq<Numbered<T>>)
    ensures |r| == |ops| && forall i :: 0 <= i < |ops| ==> r[i] == Numbered(first + i, ops[i])
  {
    seq(|ops|, i requires 0 <= i < |ops| => Numbered(first + i, ops[i]))
  }

  lemma NumberConcat<T>(first: nat, a: seq<T>, b: seq<T>)
    ensures Number(first, a + b) == Number(first, a) + Number(first + |a|, b)
  {
  }

  function EncodeOp(op: Op): Bytes {
    match op
    case Put(key, value) => [1] + (LengthPrefixed(key) + LengthPrefixed(value))
    case Delete(key) => [0] + LengthPrefixed(key)
  }

  function EncodeOps(ops: seq<Op>): Bytes {
    if ops == [] then [] else EncodeOp(ops[0]) + EncodeOps(ops[1..])
  }

  /** The representation of a batch. */
  function WithCount(sequence: nat, n: nat, ops: seq<Op>): Bytes {
    EncodeFixed(8, sequence) + EncodeFixed(4, n) + EncodeOps(ops)
  }

  function Rep(sequence: nat, ops: seq<Op>): Bytes {
    WithCount(sequence, |ops|, ops)
  }

  function GetPut(body: Bytes): (r: Parsed<Op>)
    ensures r.Parsed? ==> |r.rest| < |body|
  {
    match GetLengthPrefixed(body)
    case Failed => Failed
    case Parsed(key, rest) =>
      match GetLengthPrefixed(rest)
      case Failed => Failed
      case Parsed(value, rest') => Parsed(Put(key, value), rest')
  }

  function GetDelete(body: Bytes): (r: Parsed<Op>)
    ensures r.Parsed? ==> |r.rest| < |body|
  {
    match GetLengthPrefixed(body)
    case Failed => Failed
    case Parsed(key, rest) => Parsed(Delete(key), rest)
  }

  /** One update from the front of the input. */
  function GetOp(input: Bytes): (r: Parsed<Op>)
    requires input != []
    ensures r.Parsed? ==> |r.rest| < |input|
  {
    if input[0] == 1 then GetPut(input[1..]) else if input[0] == 0 then GetDelete(input[1..]) else Failed
  }

  /** The updates that Iterate hands to its handler, and whether it reached the end. */
  datatype Calls = Calls(ops: seq<Op>, complete: bool)

  function CallsOf(input: Bytes): Calls
    decreases |input|
  {
    if input == [] then Calls([], true)
    else
      match GetOp(input)
      case Failed => Calls([], false)
      case Parsed(op, rest) => Prepend([op], CallsOf(rest))
  }

  function Prepend(ops: seq<Op>, c: Calls): Calls {
    Calls(ops + c.ops, c.complete)
  }

  /** The count of the header as the code reads it, as an int: a field of 2^31 or more is
      a negative number. */
  function CountOf(rep: Bytes): int
    requires |rep| >= Header
  {
    var n := DecodeFixed(rep[8..12]);
    if n < MaxCount then n else n - Two32
  }

  /** It is the number of 32 bits in two's complement. */
  lemma CountIsInt(rep: Bytes)
    requires |rep| >= Header
    ensures 0 <= CountOf(rep) + MaxCount < Two32 && CountOf(rep) % Two32 == DecodeFixed(rep[8..12])
  {
    FixedBelow(rep[8..12]);
    assert Pow256(4) == Two32;
  }

  function SequenceOf(rep: Bytes): nat
    requires |rep| >= Header
  {
    DecodeFixed(rep[..8])
  }

  /** What recovery inserts for one log record: nothing if the record is too small. */
  function Replayed(record: Bytes): seq<Numbered<Op>> {
    if |record| < Header then [] else Number(SequenceOf(record), CallsOf(record[Header..]).ops)
  }

  ghost predicate FitsOp(op: Op) {
    |op.key| < Two32 && (op.Put? ==> |op.value| < Two32)
  }

  ghost predicate FitOps(ops: seq<Op>) {
    |ops| < MaxCount && forall i :: 0 <= i < |ops| ==> FitsOp(ops[i])
  }

  lemma PutRoundTrip(key: Bytes, value: Bytes, rest: Bytes)
    requires |key| < Two32 && |value| < Two32
    ensures GetPut(LengthPrefixed(key) + LengthPrefixed(value) + rest) == Parsed(Put(key, value), rest)
  {
    assert LengthPrefixed(key) + LengthPrefixed(value) + rest == LengthPrefixed(key) + (LengthPrefixed(value) + rest);
    LengthPrefixedRoundTrip(key, LengthPrefixed(value) + rest);
    LengthPrefixedRoundTrip(value, rest);
  }

  lemma OpRoundTrip(op: Op, rest: Bytes)
    requires FitsOp(op)
    ensures GetOp(EncodeOp(op) + rest) == Parsed(op, rest)
  {
    match op
    case Put(key, value) =>
      assert (EncodeOp(op) + rest)[1..] == LengthPrefixed(key) + LengthPrefixed(value) + rest;
      PutRoundTrip(key, value, rest);
    case Delete(key) =>
      assert (EncodeOp(op) + rest)[1..] == LengthPrefixed(key) + rest;
      LengthPrefixedRoundTrip(key, rest);
  }

  lemma {:induction false} OpsRoundTrip(ops: seq<Op>)
    requires forall i :: 0 <= i < |ops| ==> FitsOp(ops[i])
    ensures CallsOf(EncodeOps(ops)) == Calls(ops, true)
  {
    if ops != [] {
      var more := EncodeOps(ops[1..]);
      OpRoundTrip(ops[0], more);
      OpsRoundTrip(ops[1..]);
      assert CallsOf(EncodeOp(ops[0]) + more) == Prepend([ops[0]], CallsOf(more));
      assert [ops[0]] + ops[1..] == ops;
    }
  }

  lemma {:induction false} EncodeOpsConcat(a: seq<Op>, b: seq<Op>)
    ensures EncodeOps(a + b) == EncodeOps(a) + EncodeOps(b)
  {
    if a == [] {
      assert a + b == b;
    } else {
      assert (a + b)[1..] == a[1..] + b;
      EncodeOpsConcat(a[1..], b);
    }
  }

  lemma {:induction false} RepParts(sequence: nat, ops: seq<Op>)
    requires sequence < Two64 && |ops| < MaxCount
    ensures var rep := Rep(sequence, ops);
            && |rep| >= Header && rep[Header..] == EncodeOps(ops)
            && SequenceOf(rep) == sequence && CountOf(rep) == |ops|
  {
    var rep := Rep(sequence, ops);
    assert rep[..8] == EncodeFixed(8, sequence) && rep[8..12] == EncodeFixed(4, |ops|);
    assert Pow256(4) == 0x1_0000_0000 && Pow256(8) == Two64 by {
      assert Pow256(4) == 256 * 256 * 256 * Pow256(1);
      assert Pow256(8) == 256 * 256 * 256 * 256 * Pow256(4);
    }
    FixedRoundTrip(8, sequence);
    FixedRoundTrip(4, |ops|);
  }

  /** Replaying a logged batch inserts its updates with consecutive sequence numbers. */
  lemma ReplayRoundTrip(sequence: nat, ops: seq<Op>)
    requires sequence < Two64 && FitOps(ops)
    ensures Replayed(Rep(sequence, ops)) == Number(sequence, ops)
  {
    RepParts(sequence, ops);
    OpsRoundTrip(ops);
  }

  lemma Regrouped<T>(head: seq<T>, body: seq<T>, tail: seq<T>, whole: seq<T>)
    requires whole == body + tail
    ensures head + body + tail == head + whole
  {
  }

  /** The header takes the new count and the updates follow. */
  lemma {:induction false} RepGrows(rep: Bytes, sequence: nat, ops: seq<Op>, n: nat, more: seq<Op>, tail: Bytes)
    requires rep == WithCount(sequence, n, ops) && n == |ops + more| && tail == EncodeOps(more)
    ensures rep + tail == Rep(sequence, ops + more)
  {
    EncodeOpsConcat(ops, more);
    Regrouped(EncodeFixed(8, sequence) + EncodeFixed(4, n), EncodeOps(ops), tail, EncodeOps(ops + more));
  }

  lemma {:induction false} RepGrowsByOne(rep: Bytes, sequence: nat, ops: seq<Op>, n: nat, op: Op)
    requires rep == WithCount(sequence, n, ops) && n == |ops| + 1
    ensures rep + EncodeOp(op) == Rep(sequence, ops + [op])
  {
    assert EncodeOps([]) == [] && EncodeOps([op]) == EncodeOp(op);
    RepGrows(rep, sequence, ops, n, [op], EncodeOp(op));
  }

  lemma {:induction false} Patched(sequence: nat, ops: seq<Op>, n: nat)
    ensures var rep := Rep(sequence, ops);
            |rep| >= Header && rep[..8] + EncodeFixed(4, n) + rep[12..] == WithCount(sequence, n, ops)
  {
    var rep := Rep(sequence, ops);
    assert rep[..8] == EncodeFixed(8, sequence) && rep[12..] == EncodeOps(ops);
  }

  class WriteBatch {
    var rep: Bytes
    ghost var ops: seq<Op>
    ghost var sequence: nat

    ghost predicate Valid()
      reads this
    {
      sequence < Two64 && |ops| < MaxCount && rep == Rep(sequence, ops)
    }

    constructor ()
      ensures Valid() && ops == []
    {
      rep := EncodeFixed(12, 0);
      ops, sequence := [], 0;
      new;
      ZeroHeader();
    }

    static lemma ZeroHeader()
      ensures EncodeFixed(12, 0) == Rep(0, [])
    {
      assert forall n: nat :: EncodeFixed(n + 1, 0) == [0] + EncodeFixed(n, 0);
      ZerosSplit(8, 4);
    }

    static lemma {:induction false} ZerosSplit(a: nat, b: nat)
      ensures EncodeFixed(a + b, 0) == EncodeFixed(a, 0) + EncodeFixed(b, 0)
    {
      if a > 0 {
        ZerosSplit(a - 1, b);
      }
    }

    /** The code reads the count back from the header. */
    method Count() returns (n: nat)
      requires Valid()
      ensures n == |ops|
    {
      RepParts(sequence, ops);
      n := CountOf(rep);
    }

    /** The updates behind the header. */
    method Body() returns (body: Bytes)
      requires Valid()
      ensures body == EncodeOps(ops)
    {
      RepParts(sequence, ops);
      body := rep[Header..];
    }

    method SetSequence(s: nat)
      requires Valid() && s < Two64
      modifies this
      ensures Valid() && ops == old(ops) && sequence == s
    {
      RepParts(sequence, ops);
      rep := EncodeFixed(8, s) + rep[8..];
      sequence := s;
    }

    method SetCount(n: nat)
      requires Valid()
      modifies `rep
      ensures rep == WithCount(sequence, n, ops)
    {
      Patched(sequence, ops, n);
      rep := rep[..8] + EncodeFixed(4, n) + rep[12..];
    }

    method Put(key: Bytes, value: Bytes)
      requires Valid() && |ops| + 1 < MaxCount
      modifies `rep, `ops
      ensures Valid() && ops == old(ops) + [Op.Put(key, value)]
    {
      Add(Op.Put(key, value));
    }

    method Delete(key: Bytes)
      requires Valid() && |ops| + 1 < MaxCount
      modifies `rep, `ops
      ensures Valid() && ops == old(ops) + [Op.Delete(key)]
    {
      Add(Op.Delete(key));
    }

    /** What Put and Delete share: the count grows by one and the update goes to the end. */
    method Add(op: Op)
      requires Valid() && |ops| + 1 < MaxCount
      modifies `rep, `ops
      ensures Valid() && ops == old(ops) + [op]
    {
      var n := Count();
      SetCount(n + 1);
      RepGrowsByOne(rep, sequence, ops, n + 1, op);
      rep := rep + EncodeOp(op);
      ops := ops + [op];
    }

    /** The sequence number and the count in the header change owner, the updates follow. */
    method Append(src: WriteBatch)
      requires Valid() && src.Valid() && src != this && |ops| + |src.ops| < MaxCount
      modifies `rep, `ops
      ensures Valid() && ops == old(ops) + src.ops
    {
      var n := Count();
      var m := src.Count();
      var body := src.Body();
      SetCount(n + m);
      RepGrows(rep, sequence, ops, n + m, src.ops, body);
      rep := rep + body;
      ops := ops + src.ops;
    }
  }

  lemma {:induction false} CallsStep(input: Bytes, ops: seq<Op>)
    requires input != [] && GetOp(input).Parsed?
    ensures var r := GetOp(input);
            Prepend(ops, CallsOf(input)) == Prepend(ops + [r.value], CallsOf(r.rest))
  {
    var r := GetOp(input);
    PrependTwice(ops, r.value, CallsOf(r.rest));
  }

  lemma PrependTwice(ops: seq<Op>, op: Op, c: Calls)
    ensures Prepend(ops, Prepend([op], c)) == Prepend(ops + [op], c)
  {
    assert ops + ([op] + c.ops) == ops + [op] + c.ops;
  }

  lemma InsertsNext<T>(inserted: seq<Numbered<T>>, first: nat, ops: seq<T>, sequence: nat, op: T)
    requires inserted == Number(first, ops) && sequence == first + |ops|
    ensures inserted + [Numbered(sequence, op)] == Number(first, ops + [op])
  {
  }

  /** The loop of Iterate, with MemTableInserter as the handler. */
  method Iterate(updates: Bytes, first: nat) returns (complete: bool, inserted: seq<Numbered<Op>>)
    ensures inserted == Number(first, CallsOf(updates).ops) && complete == CallsOf(updates).complete
  {
    var input, sequence := updates, first;
    inserted := [];
    ghost var ops: seq<Op> := [];
    assert [] + CallsOf(updates).ops == CallsOf(updates).ops;
    while input != []
      invariant CallsOf(updates) == Prepend(ops, CallsOf(input))
      invariant inserted == Number(first, ops) && sequence == first + |ops|
      decreases |input|
    {
      var r := GetOp(input);
      if r.Failed? {
        assert ops + [] == ops;
        return false, inserted;
      }
      CallsStep(input, ops);
      InsertsNext(inserted, first, ops, sequence, r.value);
      inserted, ops := inserted + [Numbered(sequence, r.value)], ops + [r.value];
      sequence, input := sequence + 1, r.rest;
    }
    assert ops + [] == ops;
    complete := true;
  }

  /** InsertInto: what was inserted stays even if the batch turns out to be malformed. */
  method InsertInto(rep: Bytes) returns (ok: bool, inserted: seq<Numbered<Op>>)
    ensures inserted == Replayed(rep)
    ensures ok <==> |rep| >= Header && CallsOf(rep[Header..]).complete && |CallsOf(rep[Header..]).ops| == CountOf(rep)
  {
    if |rep| < Header { return false, []; }
    var complete;
    complete, inserted := Iterate(rep[Header..], SequenceOf(rep));
    ok := complete && |inserted| == CountOf(rep);
  }
}
