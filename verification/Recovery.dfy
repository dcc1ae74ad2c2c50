/** Recovering the write-ahead logs (DBImpl::RecoverLogFile and the loop of DBImpl::Recover
    in db/db_impl.cc), whatever the files hold. */
module Recovery {
  import opened Bytes
  import opened Coding
  import opened LogFormat
  import opened WriteBatches
  import G = GroupCommit
  import LogIO

  /** The entries inserted so far, and the greatest sequence number seen. */
  datatype Recovered<T> = Recovered(entries: seq<Numbered<T>>, maxSequence: nat)

  /** The header alone tells the last number of a record; 64 bits wrap around, and the count
      may be negative. */
  function LastOf(record: Bytes): nat
    requires |record| >= Header
  {
    (SequenceOf(record) + CountOf(record) - 1) % Two64
  }

  function Raised(maxSequence: nat, last: nat): nat {
    if last > maxSequence then last else maxSequence
  }

  /** One turn of the loop: a record too small to hold a batch is passed over. */
  function Take(r: Recovered<Op>, record: Bytes): Recovered<Op> {
    if |record| < Header then r
    else Recovered(r.entries + Replayed(record), Raised(r.maxSequence, LastOf(record)))
  }

  function TakeAll(r: Recovered<Op>, records: seq<Bytes>): Recovered<Op>
    decreases |records|
  {
    if records == [] then r else TakeAll(Take(r, records[0]), records[1..])
  }

  /** InsertInto succeeds on the record. */
  predicate Sound(record: Bytes) {
    |record| >= Header && CallsOf(record[Header..]).complete && |CallsOf(record[Header..]).ops| == CountOf(record)
  }

  ghost predicate Undamaged(all: AllRead) {
    all.reports == 0 && forall i :: 0 <= i < |all.records| ==> Sound(all.records[i])
  }

  lemma {:induction false} OneRecordRead(all: AllRead, record: Bytes, reports: nat, rest: AllRead, r: Recovered<Op>)
    requires all == AllRead([record] + rest.records, reports + rest.reports)
    ensures TakeAll(r, all.records) == TakeAll(Take(r, record), rest.records)
    ensures Undamaged(all) <==> reports == 0 && Sound(record) && Undamaged(rest)
  {
    assert all.records[0] == record && all.records[1..] == rest.records;
    assert forall i :: 0 <= i < |rest.records| ==> rest.records[i] == all.records[i + 1];
  }

  /** Without paranoid checks every record that can be read is used; with them the first
      error ends recovery, and without an error there is no difference.  When a memtable
      is full and becomes a table makes no difference to the entries. */
  method RecoverLogFile(file: Bytes, sum: Checksum, paranoid: bool, maxSequence: nat)
    returns (ok: bool, r: Recovered<Op>)
    ensures ok <==> !paranoid || Undamaged(ReadAll(sum, Open(file)))
    ensures ok ==> r == TakeAll(Recovered([], maxSequence), ReadAll(sum, Open(file)).records)
  {
    ghost var rest := ReadAll(sum, Open(file));
    ghost var all := TakeAll(Recovered([], maxSequence), rest.records);
    ghost var undamaged := Undamaged(rest);
    var reader := new LogIO.Reader(file, sum);
    ok, r := true, Recovered([], maxSequence);
    while true
      invariant reader.sum == sum && fresh(reader) && ok && (paranoid ==> reader.reports == 0)
      invariant rest == ReadAll(sum, reader.AsState())
      invariant TakeAll(r, rest.records) == all && (paranoid ==> (undamaged <==> Undamaged(rest)))
      decreases reader.AsState().Size()
    {
      ghost var before, reports := rest, reader.reports;
      var record := reader.ReadRecord();
      ok := !paranoid || reader.reports == 0;
      if record == [] || !ok {
        return;
      }
      rest := ReadAll(sum, reader.AsState());
      OneRecordRead(before, record[0], reader.reports - reports, rest, r);
      if |record[0]| < Header {
        if paranoid {
          ok := false;
          return;
        }
        continue;
      }
      var inserted, entries := InsertInto(record[0]);
      if paranoid && !inserted {
        r := r.(entries := r.entries + entries);
        ok := false;
        return;
      }
      r := Recovered(r.entries + entries, Raised(r.maxSequence, LastOf(record[0])));
    }
  }

  /** What can be read of the first `n` files, in order. */
  function ReadFiles(sum: Checksum, files: seq<Bytes>, n: nat): seq<Bytes>
    requires n <= |files|
  {
    if n == 0 then [] else ReadFiles(sum, files, n - 1) + ReadAll(sum, Open(files[n - 1])).records
  }

  /** What was inserted before stays in front. */
  lemma {:induction false} TakeAllBehind(a: seq<Numbered<Op>>, r: Recovered<Op>, records: seq<Bytes>)
    ensures TakeAll(Recovered(a + r.entries, r.maxSequence), records)
            == Recovered(a + TakeAll(r, records).entries, TakeAll(r, records).maxSequence)
    decreases |records|
  {
    if records != [] {
      assert Take(Recovered(a + r.entries, r.maxSequence), records[0])
          == Recovered(a + Take(r, records[0]).entries, Take(r, records[0]).maxSequence);
      TakeAllBehind(a, Take(r, records[0]), records[1..]);
    }
  }

  lemma {:induction false} TakeAllConcat(r: Recovered<Op>, a: seq<Bytes>, b: seq<Bytes>)
    ensures TakeAll(r, a + b) == TakeAll(TakeAll(r, a), b)
    decreases |a|
  {
    if a == [] {
      assert a + b == b;
    } else {
      assert (a + b)[1..] == a[1..] + b;
      TakeAllConcat(Take(r, a[0]), a[1..], b);
    }
  }

  ghost predicate FileUndamaged(sum: Checksum, file: Bytes) {
    Undamaged(ReadAll(sum, Open(file)))
  }

  ghost predicate AllUndamaged(sum: Checksum, files: seq<Bytes>, n: nat)
    requires n <= |files|
  {
    forall i :: 0 <= i < n ==> FileUndamaged(sum, files[i])
  }

  /** The entries of the next file follow, and its numbers are counted from where the last
      file left off. */
  lemma OneMoreFile(sum: Checksum, files: seq<Bytes>, n: nat, r: Recovered<Op>, next: Recovered<Op>)
    requires n < |files| && r == TakeAll(Recovered([], 0), ReadFiles(sum, files, n))
    requires next == TakeAll(Recovered([], r.maxSequence), ReadAll(sum, Open(files[n])).records)
    ensures Recovered(r.entries + next.entries, next.maxSequence)
            == TakeAll(Recovered([], 0), ReadFiles(sum, files, n + 1))
  {
    var records := ReadAll(sum, Open(files[n])).records;
    TakeAllConcat(Recovered([], 0), ReadFiles(sum, files, n), records);
    TakeAllBehind(r.entries, Recovered([], r.maxSequence), records);
    assert r.entries + [] == r.entries;
  }

  ghost predicate AllRecovered(sum: Checksum, files: seq<Bytes>, n: nat, paranoid: bool, r: Recovered<Op>)
    requires n <= |files|
  {
    !paranoid || AllUndamaged(sum, files, n) ==> r == TakeAll(Recovered([], 0), ReadFiles(sum, files, n))
  }

  ghost predicate LastUndamaged(sum: Checksum, files: seq<Bytes>, n: nat, paranoid: bool)
    requires n <= |files|
  {
    n == 0 || !paranoid || FileUndamaged(sum, files[n - 1])
  }

  lemma NothingRecovered(sum: Checksum, files: seq<Bytes>, paranoid: bool, r: Recovered<Op>)
    requires r == Recovered([], 0)
    ensures AllRecovered(sum, files, 0, paranoid, r)
  {
  }

  method RecoverNext(files: seq<Bytes>, i: nat, sum: Checksum, paranoid: bool, before: Recovered<Op>)
    returns (ok: bool, r: Recovered<Op>)
    requires i < |files|
    ensures ok <==> LastUndamaged(sum, files, i + 1, paranoid)
    ensures AllRecovered(sum, files, i, paranoid, before) ==> AllRecovered(sum, files, i + 1, paranoid, r)
  {
    var next;
    ok, next := RecoverLogFile(files[i], sum, paranoid, before.maxSequence);
    r := Recovered(before.entries + next.entries, next.maxSequence);
    if ok && before == TakeAll(Recovered([], 0), ReadFiles(sum, files, i)) {
      OneMoreFile(sum, files, i, before, next);
    }
  }

  /** Every log is replayed, oldest first.  The loop keeps only the status of the last file,
      so a paranoid recovery does not stop at damage in an earlier one. */
  method RecoverLogs(files: seq<Bytes>, sum: Checksum, paranoid: bool) returns (ok: bool, r: Recovered<Op>)
    ensures ok <==> LastUndamaged(sum, files, |files|, paranoid)
    ensures AllRecovered(sum, files, |files|, paranoid, r)
  {
    ok, r := true, Recovered([], 0);
    NothingRecovered(sum, files, paranoid, r);
    for i := 0 to |files|
      invariant ok <==> LastUndamaged(sum, files, i, paranoid)
      invariant AllRecovered(sum, files, i, paranoid, r)
    {
      ok, r := RecoverNext(files, i, sum, paranoid, r);
    }
  }

  // A log as the writers left it

  function Reps(log: seq<G.Record<Op>>): (r: seq<Bytes>)
    ensures |r| == |log| && forall i :: 0 <= i < |log| ==> r[i] == Rep(log[i].sequence, log[i].updates)
  {
    seq(|log|, i requires 0 <= i < |log| => Rep(log[i].sequence, log[i].updates))
  }

  /** Every batch fits its representation, and sequence numbers start at 1 and fit 64 bits. */
  ghost predicate Fits(log: seq<G.Record<Op>>) {
    forall i :: 0 <= i < |log| ==>
      FitOps(log[i].updates) && 1 <= log[i].sequence < Two64 && log[i].sequence + |log[i].updates| <= Two64
  }

  lemma {:induction false} TakeAllLast(r: Recovered<Op>, records: seq<Bytes>, last: Bytes)
    ensures TakeAll(r, records + [last]) == Take(TakeAll(r, records), last)
    decreases |records|
  {
    if records == [] {
      assert [last][1..] == [];
    } else {
      assert (records + [last])[1..] == records[1..] + [last];
      TakeAllLast(Take(r, records[0]), records[1..], last);
    }
  }

  /** What the reader of a record needs to know of it. */
  ghost predicate Holds(record: Bytes, sequence: nat, ops: seq<Op>) {
    && |record| >= Header && SequenceOf(record) == sequence && CountOf(record) == |ops|
    && CallsOf(record[Header..]) == Calls(ops, true)
  }

  lemma RepHolds(sequence: nat, ops: seq<Op>)
    requires sequence < Two64 && FitOps(ops)
    ensures Holds(Rep(sequence, ops), sequence, ops)
  {
    RepParts(sequence, ops);
    OpsRoundTrip(ops);
  }

  lemma TakesRecord(r: Recovered<Op>, record: Bytes, sequence: nat, ops: seq<Op>)
    requires Holds(record, sequence, ops) && 1 <= sequence && sequence + |ops| <= Two64
    ensures Sound(record)
    ensures Take(r, record) == Recovered(r.entries + Number(sequence, ops), Raised(r.maxSequence, sequence + |ops| - 1))
  {
  }

  /** The greatest number in a log, or `least`. */
  function Greatest<T>(log: seq<G.Record<T>>, least: nat): nat {
    if log == [] then least
    else
      var r := log[|log| - 1];
      if r.sequence == 0 then Greatest(log[..|log| - 1], least)
      else Raised(Greatest(log[..|log| - 1], least), r.sequence + |r.updates| - 1)
  }

  ghost predicate HoldsRecord(record: Bytes, r: G.Record<Op>) {
    Holds(record, r.sequence, r.updates) && 1 <= r.sequence && r.sequence + |r.updates| <= Two64
  }

  ghost predicate AllHold(records: seq<Bytes>, log: seq<G.Record<Op>>) {
    |records| == |log| && forall i :: 0 <= i < |log| ==> HoldsRecord(records[i], log[i])
  }

  lemma RepsHold(log: seq<G.Record<Op>>)
    requires Fits(log)
    ensures AllHold(Reps(log), log)
  {
    forall i | 0 <= i < |log|
      ensures HoldsRecord(Reps(log)[i], log[i])
    {
      RepHolds(log[i].sequence, log[i].updates);
    }
  }

  lemma {:induction false} OneMoreRecord(log: seq<G.Record<Op>>, last: G.Record<Op>, records: seq<Bytes>, record: Bytes,
                                         least: nat)
    requires TakeAll(Recovered([], least), records) == Recovered(G.ReplayedAll(log), Greatest(log, least))
    requires HoldsRecord(record, last)
    ensures TakeAll(Recovered([], least), records + [record])
            == Recovered(G.ReplayedAll(log + [last]), Greatest(log + [last], least))
  {
    TakesRecord(TakeAll(Recovered([], least), records), record, last.sequence, last.updates);
    TakeAllLast(Recovered([], least), records, record);
    G.ReplayedLast(log, last);
    assert (log + [last])[..|log|] == log;
  }

  lemma AllButLast(records: seq<Bytes>, log: seq<G.Record<Op>>, n: nat)
    requires AllHold(records, log) && |log| == n + 1
    ensures AllHold(records[..n], log[..n]) && HoldsRecord(records[n], log[n])
    ensures log == log[..n] + [log[n]] && records == records[..n] + [records[n]]
  {
  }

  /** What recovery inserts is what the writers logged. */
  lemma {:induction false} RecoversLog(records: seq<Bytes>, log: seq<G.Record<Op>>, least: nat)
    requires AllHold(records, log)
    ensures TakeAll(Recovered([], least), records) == Recovered(G.ReplayedAll(log), Greatest(log, least))
    decreases |log|
  {
    if log != [] {
      var n := |log| - 1;
      AllButLast(records, log, n);
      RecoversLog(records[..n], log[..n], least);
      OneMoreRecord(log[..n], log[n], records[..n], records[n], least);
    }
  }
}
