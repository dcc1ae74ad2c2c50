/** The writer queue and group commit (DBImpl::Write and BuildBatchGroup in db/db_impl.cc).
    Each method of `WriteQueue` is what one thread does between two releases of the mutex,
    or one action of the leader while the mutex is free; any interleaving of the threads
    is a sequence of calls.  A log record is kept as its sequence number and its updates,
    which `WriteBatches.ReplayRoundTrip` shows to be what its bytes replay to. */
module GroupCommit {
  import opened Keys
  import opened WriteBatches

  /** A queued write and the ByteSize of its batch; a NULL batch asks only for a new
      memtable. */
  datatype Writer<T> = Writer(batch: Option<seq<T>>, size: nat, sync: bool)

  function UpdatesIn<T>(w: Writer<T>): seq<T> {
    if w.batch.Some? then w.batch.value else []
  }

  /** The updates of the first `n` writers, in order. */
  function UpdatesTo<T>(ws: seq<Writer<T>>, n: nat): seq<T>
    requires n <= |ws|
  {
    if n == 0 then [] else UpdatesTo(ws, n - 1) + UpdatesIn(ws[n - 1])
  }

  function GroupUpdates<T>(ws: seq<Writer<T>>): seq<T> {
    UpdatesTo(ws, |ws|)
  }

  function BatchSize<T>(w: Writer<T>): nat {
    if w.batch.Some? then w.size else 0
  }

  function SizeTo<T>(ws: seq<Writer<T>>, n: nat): nat
    requires n <= |ws|
  {
    if n == 0 then 0 else SizeTo(ws, n - 1) + BatchSize(ws[n - 1])
  }

  const SmallWrite: nat := 0x2_0000
  const MaxGroup: nat := 0x10_0000

  /** How far a group may grow that starts with a batch of the given size. */
  function MaxSize(size: nat): nat {
    if size <= SmallWrite then size + SmallWrite else MaxGroup
  }

  /** Writer `i` may join the group of all writers before it. */
  predicate Joins<T>(queue: seq<Writer<T>>, i: nat)
    requires 1 <= i < |queue|
  {
    && (queue[i].sync ==> queue[0].sync)
    && (queue[i].batch.Some? ==> SizeTo(queue, i) + queue[i].size <= MaxSize(queue[0].size))
  }

  /** The group is the longest prefix of the queue in which every writer may join. */
  ghost predicate IsGroup<T>(queue: seq<Writer<T>>, n: nat) {
    && 1 <= n <= |queue|
    && (forall i :: 1 <= i < n ==> Joins(queue, i))
    && (n < |queue| ==> !Joins(queue, n))
  }

  lemma {:induction false} PrefixUpdates<T>(ws: seq<Writer<T>>, more: seq<Writer<T>>, n: nat)
    requires n <= |ws|
    ensures UpdatesTo(ws + more, n) == UpdatesTo(ws, n)
  {
    if n > 0 {
      PrefixUpdates(ws, more, n - 1);
    }
  }

  method BuildBatchGroup<T>(queue: seq<Writer<T>>) returns (n: nat, updates: seq<T>)
    requires queue != [] && queue[0].batch.Some?
    ensures IsGroup(queue, n) && updates == GroupUpdates(queue[..n])
  {
    var first := queue[0];
    var size := first.size;
    var maxSize := MaxGroup;
    if size <= SmallWrite {
      maxSize := size + SmallWrite;
    }
    updates := first.batch.value;
    n := 1;
    while n < |queue|
      invariant 1 <= n <= |queue| && forall i :: 1 <= i < n ==> Joins(queue, i)
      invariant updates == UpdatesTo(queue, n) && size == SizeTo(queue, n)
    {
      var w := queue[n];
      if w.sync && !first.sync { break; }
      if w.batch.Some? {
        size := size + w.size;
        if size > maxSize { break; }
        updates := updates + w.batch.value;
      }
      n := n + 1;
    }
    FirstWriters(queue, n);
  }

  lemma {:induction false} FirstWriters<T>(queue: seq<Writer<T>>, n: nat)
    requires n <= |queue|
    ensures GroupUpdates(queue[..n]) == UpdatesTo(queue, n)
  {
    PrefixUpdates(queue[..n], queue[n..], n);
    assert queue[..n] + queue[n..] == queue;
  }

  /** A group of more than one batch is no larger than the limit, and one that starts with a
      small write grows by no more than another small write. */
  lemma {:induction false} GroupStaysSmall<T>(queue: seq<Writer<T>>, n: nat)
    requires queue != [] && queue[0].batch.Some? && IsGroup(queue, n)
    ensures SizeTo(queue, n) == queue[0].size || SizeTo(queue, n) <= MaxGroup
    ensures queue[0].size <= SmallWrite ==> SizeTo(queue, n) <= queue[0].size + SmallWrite
  {
    SizesStaySmall(queue, n, n);
  }

  lemma {:induction false} SizesStaySmall<T>(queue: seq<Writer<T>>, n: nat, m: nat)
    requires queue != [] && queue[0].batch.Some? && IsGroup(queue, n) && 1 <= m <= n
    ensures SizeTo(queue, m) == queue[0].size || SizeTo(queue, m) <= MaxSize(queue[0].size) <= MaxGroup
    ensures queue[0].size <= SmallWrite ==> SizeTo(queue, m) <= queue[0].size + SmallWrite
  {
    if m == 1 {
      assert SizeTo(queue, 0) == 0;
    } else {
      SizesStaySmall(queue, n, m - 1);
      assert Joins(queue, m - 1);
    }
  }

  /** A sync write is never in the group of a leader that does not sync. */
  lemma GroupSyncsWithLeader<T>(queue: seq<Writer<T>>, n: nat)
    requires IsGroup(queue, n)
    ensures forall i :: 0 <= i < n && queue[i].sync ==> queue[0].sync
  {
    forall i | 0 <= i < n && queue[i].sync
      ensures queue[0].sync
    {
      assert i > 0 ==> Joins(queue, i);
    }
  }

  // What the finished groups left behind

  datatype Outcome = Committed | Lost | Refused

  /** A group that has left the queue, and how it ended.  A group lost to an I/O error may
      be in the log all the same. */
  datatype Group<T> = Group(writers: seq<Writer<T>>, updates: seq<T>, outcome: Outcome, logged: bool)

  /** Everything that happened since the store was opened: the groups that left the queue,
      and the switches to a new log that came with a new memtable. */
  datatype Past<T> = Opened(last: nat) | After(before: Past<T>, group: Group<T>) | Switched(before: Past<T>)

  datatype Record<T> = Record(sequence: nat, updates: seq<T>)

  /** The last sequence number that has been used up: an error takes numbers too, a refusal
      does not. */
  function Last<T>(p: Past<T>): nat {
    match p
    case Opened(last) => last
    case After(before, g) => Last(before) + if g.outcome.Refused? then 0 else |g.updates|
    case Switched(before) => Last(before)
  }

  /** The records of all logs: one for each logged group, numbered from the first free
      number. */
  function LogOf<T>(p: Past<T>): seq<Record<T>> {
    match p
    case Opened(_) => []
    case After(before, g) =>
      if g.logged then LogOf(before) + [Record(Last(before) + 1, g.updates)] else LogOf(before)
    case Switched(before) => LogOf(before)
  }

  /** The records of the log that is open. */
  function OpenLog<T>(p: Past<T>): seq<Record<T>> {
    match p
    case Opened(_) => []
    case After(before, g) =>
      if g.logged then OpenLog(before) + [Record(Last(before) + 1, g.updates)] else OpenLog(before)
    case Switched(_) => []
  }

  /** The logs that were closed, oldest first. */
  function ClosedLogs<T>(p: Past<T>): seq<seq<Record<T>>> {
    match p
    case Opened(_) => []
    case After(before, _) => ClosedLogs(before)
    case Switched(before) => ClosedLogs(before) + [OpenLog(before)]
  }

  /** Everything inserted in a memtable. */
  function MemoryOf<T>(p: Past<T>): seq<Numbered<T>> {
    match p
    case Opened(_) => []
    case After(before, g) =>
      if g.outcome.Committed? then MemoryOf(before) + Number(Last(before) + 1, g.updates) else MemoryOf(before)
    case Switched(before) => MemoryOf(before)
  }

  /** The writers who left the queue, in order. */
  function Gone<T>(p: Past<T>): seq<Writer<T>> {
    match p
    case Opened(_) => []
    case After(before, g) => Gone(before) + g.writers
    case Switched(before) => Gone(before)
  }

  /** Each group is made of its writers' batches, what is inserted is logged unless it is
      nothing, and a refused group is not logged. */
  ghost predicate Regular<T>(p: Past<T>) {
    match p
    case Opened(_) => true
    case After(before, g) =>
      && Regular(before) && g.updates == GroupUpdates(g.writers)
      && (g.outcome.Committed? ==> g.logged || g.updates == []) && (g.outcome.Refused? ==> !g.logged)
    case Switched(before) => Regular(before)
  }

  /** What an append left in the log: an append that fails may have written all of the
      record or some first part of its bytes. */
  datatype Stayed = Nothing | Part | Whole

  /** A record's place: which log, and which record of it. */
  datatype Place = Place(log: nat, record: nat)

  function NextPlace<T>(p: Past<T>): Place {
    Place(|ClosedLogs(p)|, |OpenLog(p)|)
  }

  /** Every sync write that was acknowledged is in a log record that reached the disk. */
  ghost predicate SyncsKept<T>(p: Past<T>, synced: set<Place>) {
    match p
    case Opened(_) => true
    case After(before, g) =>
      && SyncsKept(before, synced)
      && (g.outcome.Committed? && AsksSync(g.writers) ==> g.logged && NextPlace(before) in synced)
    case Switched(before) => SyncsKept(before, synced)
  }

  ghost predicate AsksSync<T>(ws: seq<Writer<T>>) {
    exists i :: 0 <= i < |ws| && ws[i].sync && ws[i].batch.Some?
  }

  lemma {:induction false} SyncsStay<T>(p: Past<T>, synced: set<Place>, place: Place)
    requires SyncsKept(p, synced)
    ensures SyncsKept(p, synced + {place})
  {
    if !p.Opened? {
      SyncsStay(p.before, synced, place);
    }
  }

  /** All entries that replaying the log inserts. */
  function ReplayedAll<T>(log: seq<Record<T>>): seq<Numbered<T>> {
    if log == [] then []
    else
      var r := log[|log| - 1];
      ReplayedAll(log[..|log| - 1]) + Number(r.sequence, r.updates)
  }

  lemma {:induction false} ReplayedLast<T>(log: seq<Record<T>>, r: Record<T>)
    ensures ReplayedAll(log + [r]) == ReplayedAll(log) + Number(r.sequence, r.updates)
  {
    assert (log + [r])[..|log|] == log;
  }

  /** No I/O error met a group; writers may have been refused. */
  ghost predicate NothingLost<T>(p: Past<T>) {
    match p
    case Opened(_) => true
    case After(before, g) => NothingLost(before) && !g.outcome.Lost?
    case Switched(before) => NothingLost(before)
  }

  /** How many updates are in the logs and were never inserted in a memtable. */
  function LostInLog<T>(p: Past<T>): nat {
    match p
    case Opened(_) => 0
    case After(before, g) => LostInLog(before) + if g.logged && g.outcome.Lost? then |g.updates| else 0
    case Switched(before) => LostInLog(before)
  }

  /** Replaying the logs gives one entry for each inserted update and each lost one that is
      in a log. */
  lemma {:induction false} ReplayLength<T>(p: Past<T>)
    requires Regular(p)
    ensures |ReplayedAll(LogOf(p))| == |MemoryOf(p)| + LostInLog(p)
  {
    if !p.Opened? {
      ReplayLength(p.before);
    }
    if p.After? && p.group.logged {
      ReplayedLast(LogOf(p.before), Record(Last(p.before) + 1, p.group.updates));
    }
  }

  /** Replaying the logs gives back the memtables if and only if no lost group has left an
      update in a log. */
  lemma {:induction false} ReplayIsMemory<T>(p: Past<T>)
    requires Regular(p)
    ensures ReplayedAll(LogOf(p)) == MemoryOf(p) <==> LostInLog(p) == 0
  {
    ReplayLength(p);
    if LostInLog(p) == 0 {
      ReplayIsMemoryThen(p);
    }
  }

  lemma {:induction false} ReplayIsMemoryThen<T>(p: Past<T>)
    requires Regular(p) && LostInLog(p) == 0
    ensures ReplayedAll(LogOf(p)) == MemoryOf(p)
  {
    if !p.Opened? {
      ReplayIsMemoryThen(p.before);
    }
    if p.After? {
      var g, r := p.group, Record(Last(p.before) + 1, p.group.updates);
      ReplayedLast(LogOf(p.before), r);
      assert MemoryOf(p.before) + [] == MemoryOf(p.before);
      assert g.logged && !g.outcome.Committed? ==> g.updates == [] && Number(r.sequence, r.updates) == [];
    }
  }

  /** The writers who left the queue without being refused, in order. */
  function Served<T>(p: Past<T>): seq<Writer<T>> {
    match p
    case Opened(_) => []
    case After(before, g) => if g.outcome.Refused? then Served(before) else Served(before) + g.writers
    case Switched(before) => Served(before)
  }

  /** Where appends and insertions succeed, the memtables hold the batches of all who were
      not refused, in queue order, numbered without a gap. */
  lemma {:induction false} AllCommitted<T>(p: Past<T>, start: nat)
    requires Regular(p) && NothingLost(p) && OpenedAt(p) == start
    ensures MemoryOf(p) == Number(start + 1, GroupUpdates(Served(p)))
    ensures Last(p) == start + |GroupUpdates(Served(p))|
  {
    if !p.Opened? {
      AllCommitted(p.before, start);
    }
    if p.After? && p.group.outcome.Committed? {
      OneMoreGroup(start, Served(p.before), p.group.writers);
    }
  }

  lemma OneMoreGroup<T>(start: nat, gone: seq<Writer<T>>, group: seq<Writer<T>>)
    ensures |GroupUpdates(gone + group)| == |GroupUpdates(gone)| + |GroupUpdates(group)|
    ensures Number(start + 1, GroupUpdates(gone + group))
            == Number(start + 1, GroupUpdates(gone)) + Number(start + |GroupUpdates(gone)| + 1, GroupUpdates(group))
  {
    UpdatesConcat(gone, group, |group|);
    NumberConcat(start + 1, GroupUpdates(gone), GroupUpdates(group));
  }

  function OpenedAt<T>(p: Past<T>): nat {
    match p
    case Opened(last) => last
    case After(before, _) => OpenedAt(before)
    case Switched(before) => OpenedAt(before)
  }

  predicate Earlier<T>(es: seq<Numbered<T>>, i: nat, j: nat) {
    i < |es| && j < |es| && es[i].sequence < es[j].sequence
  }

  ghost predicate Ascending<T>(es: seq<Numbered<T>>) {
    forall i: nat, j: nat {:trigger Earlier(es, i, j)} :: i < j < |es| ==> Earlier(es, i, j)
  }

  ghost predicate Within<T>(es: seq<Numbered<T>>, low: nat, high: nat) {
    forall i :: 0 <= i < |es| ==> low < es[i].sequence <= high
  }

  lemma NumberAscends<T>(last: nat, updates: seq<T>)
    ensures Ascending(Number(last + 1, updates)) && Within(Number(last + 1, updates), last, last + |updates|)
  {
  }

  lemma ConcatAscends<T>(a: seq<Numbered<T>>, b: seq<Numbered<T>>, low: nat, mid: nat, high: nat)
    requires low <= mid <= high && Ascending(a) && Within(a, low, mid) && Ascending(b) && Within(b, mid, high)
    ensures Ascending(a + b) && Within(a + b, low, high)
  {
    forall i: nat, j: nat | i < j < |a + b|
      ensures Earlier(a + b, i, j)
    {
      assert j < |a| ==> Earlier(a, i, j);
      assert i >= |a| ==> Earlier(b, i - |a|, j - |a|);
    }
  }

  lemma AppendedAscends<T>(es: seq<Numbered<T>>, low: nat, last: nat, updates: seq<T>)
    requires Ascending(es) && low <= last && Within(es, low, last)
    ensures Ascending(es + Number(last + 1, updates)) && Within(es + Number(last + 1, updates), low, last + |updates|)
  {
    NumberAscends(last, updates);
    ConcatAscends(es, Number(last + 1, updates), low, last, last + |updates|);
  }

  lemma {:induction false} MemoryAscends<T>(p: Past<T>)
    ensures OpenedAt(p) <= Last(p)
    ensures Ascending(MemoryOf(p)) && Within(MemoryOf(p), OpenedAt(p), Last(p))
  {
    if p.Switched? {
      MemoryAscends(p.before);
    } else if p.After? {
      MemoryAscends(p.before);
      AppendedAscends(MemoryOf(p.before), OpenedAt(p), Last(p.before), p.group.updates);
    }
  }

  lemma {:induction false} LogAscends<T>(p: Past<T>)
    requires Regular(p)
    ensures OpenedAt(p) <= Last(p)
    ensures Ascending(ReplayedAll(LogOf(p))) && Within(ReplayedAll(LogOf(p)), OpenedAt(p), Last(p))
  {
    if p.Switched? {
      LogAscends(p.before);
    } else if p.After? {
      LogAscends(p.before);
      AppendedAscends(ReplayedAll(LogOf(p.before)), OpenedAt(p), Last(p.before), p.group.updates);
      ReplayedLast(LogOf(p.before), Record(Last(p.before) + 1, p.group.updates));
    }
  }

  /** No sequence number is given twice, neither in memory nor in the log, and all are
      within what has been used up. */
  lemma {:induction false} NumbersAscend<T>(p: Past<T>)
    requires Regular(p)
    ensures OpenedAt(p) <= Last(p)
    ensures Ascending(MemoryOf(p)) && Within(MemoryOf(p), OpenedAt(p), Last(p))
    ensures Ascending(ReplayedAll(LogOf(p))) && Within(ReplayedAll(LogOf(p)), OpenedAt(p), Last(p))
  {
    MemoryAscends(p);
    LogAscends(p);
  }

  lemma {:induction false} UpdatesConcat<T>(a: seq<Writer<T>>, b: seq<Writer<T>>, n: nat)
    requires n <= |b|
    ensures UpdatesTo(a + b, |a| + n) == GroupUpdates(a) + UpdatesTo(b, n)
  {
    if n == 0 {
      PrefixUpdates(a, b, |a|);
    } else {
      UpdatesConcat(a, b, n - 1);
    }
  }

  // The running store

  /** What the leader does while the mutex is free.  After an I/O error the group's record
      may be in the log or not; an error of Sync closes the store to later writes. */
  datatype Stage = Appending | Syncing | Inserting(done: nat) | Broken(logged: bool, closes: bool)

  datatype Phase<T> = Idle | Writing(n: nat, updates: seq<T>, sync: bool, stage: Stage)

  /** The group being written is in the log. */
  predicate InLog(stage: Stage) {
    stage.Syncing? || stage.Inserting? || (stage.Broken? && stage.logged)
  }

  /** The first `n` writers are the group being written, and its leader syncs if any of
      them asked for that. */
  ghost predicate IsBeingWritten<T>(queue: seq<Writer<T>>, n: nat, updates: seq<T>, sync: bool) {
    && 1 <= n <= |queue| && updates == GroupUpdates(queue[..n])
    && sync == queue[0].sync
    && (AsksSync(queue[..n]) ==> sync)
  }

  /** The leader has not inserted more than there is. */
  predicate StageFits<T>(phase: Phase<T>) {
    phase.Writing? && phase.stage.Inserting? ==> phase.stage.done <= |phase.updates|
  }

  /** The open log: the finished groups' records, and the current group's once it is
      appended. */
  function LogDuring<T>(p: Past<T>, phase: Phase<T>): seq<Record<T>> {
    if phase.Writing? && InLog(phase.stage) then OpenLog(p) + [Record(Last(p) + 1, phase.updates)] else OpenLog(p)
  }

  /** The memtables: the finished groups' entries, and what is inserted of the current
      group's. */
  function MemoryDuring<T>(p: Past<T>, phase: Phase<T>): seq<Numbered<T>>
    requires StageFits(phase)
  {
    if phase.Writing? && phase.stage.Inserting? then
      MemoryOf(p) + Number(Last(p) + 1, phase.updates)[..phase.stage.done]
    else MemoryOf(p)
  }

  /** The entry that MemTable::Add puts in next. */
  function NextEntry<T>(phase: Phase<T>, next: nat): Numbered<T>
    requires phase.Writing? && phase.stage.Inserting? && phase.stage.done < |phase.updates|
  {
    Numbered(next + phase.stage.done, phase.updates[phase.stage.done])
  }

  lemma {:induction false} OneMoreInserted<T>(p: Past<T>, phase: Phase<T>, phase': Phase<T>, entry: Numbered<T>)
    requires phase.Writing? && phase.stage.Inserting? && phase.stage.done < |phase.updates|
    requires phase' == phase.(stage := Inserting(phase.stage.done + 1)) && entry == NextEntry(phase, Last(p) + 1)
    ensures MemoryDuring(p, phase) + [entry] == MemoryDuring(p, phase')
  {
    var all, done := Number(Last(p) + 1, phase.updates), phase.stage.done;
    assert all[..done + 1] == all[..done] + [all[done]];
  }

  /** The group that the first writers of a queue were, once the leader is done. */
  function Ended<T>(queue: seq<Writer<T>>, phase: Phase<T>): Group<T>
    requires phase.Writing? && phase.n <= |queue|
  {
    Group(queue[..phase.n], phase.updates, if phase.stage.Broken? then Lost else Committed, InLog(phase.stage))
  }

  /** The leader has inserted everything, or met an error. */
  predicate LeaderDone<T>(phase: Phase<T>) {
    phase.Writing? && (phase.stage == Inserting(|phase.updates|) || phase.stage.Broken?)
  }

  lemma {:induction false} GroupEnds<T>(p: Past<T>, queue: seq<Writer<T>>, phase: Phase<T>, synced: set<Place>)
    requires Regular(p) && SyncsKept(p, synced) && LeaderDone(phase)
    requires IsBeingWritten(queue, phase.n, phase.updates, phase.sync)
    requires phase.stage.Inserting? && phase.sync ==> NextPlace(p) in synced
    ensures Regular(After(p, Ended(queue, phase))) && SyncsKept(After(p, Ended(queue, phase)), synced)
    ensures Last(After(p, Ended(queue, phase))) == Last(p) + |phase.updates|
    ensures Gone(After(p, Ended(queue, phase))) + queue[phase.n..] == Gone(p) + queue
  {
    assert Gone(p) + queue == Gone(p) + queue[..phase.n] + queue[phase.n..];
  }

  lemma {:induction false} GroupLands<T>(p: Past<T>, queue: seq<Writer<T>>, phase: Phase<T>)
    requires LeaderDone(phase) && phase.n <= |queue|
    ensures LogDuring(p, phase) == OpenLog(After(p, Ended(queue, phase)))
    ensures MemoryDuring(p, phase) == MemoryOf(After(p, Ended(queue, phase)))
  {
    var all := Number(Last(p) + 1, phase.updates);
    assert all[..|phase.updates|] == all;
  }

  /** The head of a queue that is refused. */
  function RefusedGroup<T>(queue: seq<Writer<T>>): Group<T>
    requires queue != []
  {
    Group(queue[..1], UpdatesIn(queue[0]), Refused, false)
  }

  lemma {:induction false} RefusalTakesNothing<T>(p: Past<T>, queue: seq<Writer<T>>, g: Group<T>, synced: set<Place>)
    requires queue != [] && g == RefusedGroup(queue) && Regular(p) && SyncsKept(p, synced)
    ensures Regular(After(p, g)) && SyncsKept(After(p, g), synced) && Last(After(p, g)) == Last(p)
    ensures Gone(After(p, g)) + queue[1..] == Gone(p) + queue
    ensures OpenLog(After(p, g)) == OpenLog(p) && ClosedLogs(After(p, g)) == ClosedLogs(p)
    ensures MemoryOf(After(p, g)) == MemoryOf(p)
  {
    FirstWriters(queue, 1);
    assert UpdatesTo(queue, 0) == [] && [] + UpdatesIn(queue[0]) == UpdatesIn(queue[0]);
    assert Gone(p) + queue == Gone(p) + queue[..1] + queue[1..];
  }

  class WriteQueue<T> {
    var writers: seq<Writer<T>>
    var lastSequence: nat
    /** The open log, and those before it. */
    var log: seq<Record<T>>
    var closed: seq<seq<Record<T>>>
    /** The entries of all memtables, the current one's last. */
    var mem: seq<Numbered<T>>
    var bgError: bool
    var phase: Phase<T>
    ghost var past: Past<T>
    /** The log records known to have reached the disk. */
    ghost var synced: set<Place>
    /** The logs that hold a part of a record. */
    ghost var torn: set<nat>

    ghost predicate Valid()
      reads this
    {
      && Regular(past) && SyncsKept(past, synced)
      && lastSequence == Last(past)
      && closed == ClosedLogs(past)
      && StageFits(phase) && log == LogDuring(past, phase) && mem == MemoryDuring(past, phase)
      && PhaseFits()
    }

    ghost predicate PhaseFits()
      reads `writers, `phase, `past, `synced
    {
      phase.Writing? ==>
        && IsBeingWritten(writers, phase.n, phase.updates, phase.sync)
        && (phase.stage.Syncing? ==> phase.sync)
        && (phase.stage.Inserting? && phase.sync ==> NextPlace(past) in synced)
    }

    /** Everyone who ever queued, in order; nobody is skipped or overtaken. */
    ghost function Arrivals(): seq<Writer<T>>
      reads `past, `writers
    {
      Gone(past) + writers
    }

    constructor (lastSequence: nat)
      ensures Valid() && this.lastSequence == lastSequence && past == Opened(lastSequence)
      ensures writers == [] && log == [] && closed == [] && mem == [] && phase == Idle && !bgError && torn == {}
    {
      torn := {};
      writers, log, closed, mem, bgError, phase := [], [], [], [], false, Idle;
      this.lastSequence, past, synced := lastSequence, Opened(lastSequence), {};
    }

    /** A thread queues its write; it may do so whenever the mutex is free. */
    method Enqueue(w: Writer<T>)
      requires Valid()
      modifies `writers
      ensures Valid() && writers == old(writers) + [w] && Arrivals() == old(Arrivals()) + [w]
    {
      assert phase.Writing? ==> (writers + [w])[..phase.n] == writers[..phase.n];
      writers := writers + [w];
    }

    /** The head of the queue finds an earlier error in MakeRoomForWrite, or cannot create a
        new log, and leaves alone. */
    method Refuse()
      requires Valid() && phase.Idle? && writers != []
      modifies `writers, `past
      ensures Valid() && writers == old(writers)[1..] && Arrivals() == old(Arrivals())
      ensures past == After(old(past), RefusedGroup(old(writers)))
    {
      ghost var group := RefusedGroup(writers);
      RefusalTakesNothing(past, writers, group, synced);
      past := After(past, group);
      writers := writers[1..];
    }

    /** RecordBackgroundError, by the thread that flushes and compacts. */
    method BackgroundError()
      requires Valid()
      modifies `bgError
      ensures Valid() && bgError
    {
      bgError := true;
    }

    /** MakeRoomForWrite starts a new log and a new memtable.  The old log is closed without
        a sync. */
    method SwitchLog()
      requires Valid() && phase.Idle? && writers != [] && !bgError
      modifies `log, `closed, `past
      ensures Valid() && log == [] && closed == old(closed) + [old(log)]
      ensures past == Switched(old(past)) && Arrivals() == old(Arrivals())
    {
      log, closed, past := [], closed + [log], Switched(past);
    }

    /** A NULL batch at the head only made room. */
    method FinishNull()
      requires Valid() && phase.Idle? && writers != [] && !bgError && writers[0].batch.None?
      modifies `writers, `past
      ensures Valid() && writers == old(writers)[1..] && Arrivals() == old(Arrivals())
      ensures past == After(old(past), Group(old(writers)[..1], [], Committed, false))
    {
      FirstWriters(writers, 1);
      assert MemoryOf(past) + Number(lastSequence + 1, []) == MemoryOf(past);
      past := After(past, Group(writers[..1], [], Committed, false));
      writers := writers[1..];
    }

    /** The head of the queue builds its group and releases the mutex. */
    method BeginGroup()
      requires Valid() && phase.Idle? && writers != [] && !bgError && writers[0].batch.Some?
      modifies `phase
      ensures Valid() && phase.Writing? && phase.stage == Appending
      ensures IsGroup(writers, phase.n) && phase.updates == GroupUpdates(writers[..phase.n])
      ensures phase.sync == writers[0].sync
    {
      var n, updates := BuildBatchGroup(writers);
      GroupSyncsWithLeader(writers, n);
      phase := Writing(n, updates, writers[0].sync, Appending);
    }

    /** AddRecord: if it fails the record, or a part of it, may be in the log all the same,
        and no background error is recorded. */
    method AppendRecord(ok: bool, stayed: Stayed)
      requires Valid() && phase.Writing? && phase.stage == Appending && (ok ==> stayed.Whole?)
      modifies `phase, `log, `torn
      ensures Valid()
      ensures phase == old(phase).(stage := if !ok then Broken(stayed.Whole?, false)
                                            else if old(phase).sync then Syncing else Inserting(0))
      ensures log == if stayed.Whole? then old(log) + [Record(lastSequence + 1, old(phase).updates)] else old(log)
      ensures torn == if stayed.Part? then old(torn) + {|closed|} else old(torn)
    {
      if stayed.Whole? {
        log := log + [Record(lastSequence + 1, phase.updates)];
      } else if stayed.Part? {
        torn := torn + {|closed|};
      }
      if !ok {
        phase := phase.(stage := Broken(stayed.Whole?, false));
      } else if phase.sync {
        phase := phase.(stage := Syncing);
      } else {
        phase := phase.(stage := Inserting(0));
      }
    }

    method SyncLog(ok: bool)
      requires Valid() && phase.Writing? && phase.stage == Syncing
      modifies `phase, `synced
      ensures Valid() && phase == old(phase).(stage := if ok then Inserting(0) else Broken(true, true))
      ensures synced == if ok then old(synced) + {NextPlace(past)} else old(synced)
    {
      if ok {
        SyncsStay(past, synced, NextPlace(past));
        synced := synced + {NextPlace(past)};
        phase := phase.(stage := Inserting(0));
      } else {
        phase := phase.(stage := Broken(true, true));
      }
    }

    /** One call of MemTable::Add; readers may look between two of them. */
    method InsertNext()
      requires Valid() && phase.Writing? && phase.stage.Inserting? && phase.stage.done < |phase.updates|
      modifies `phase, `mem
      ensures Valid() && phase == old(phase).(stage := Inserting(old(phase).stage.done + 1))
      ensures mem == old(mem) + [NextEntry(old(phase), lastSequence + 1)]
    {
      var before, entry := phase, NextEntry(phase, lastSequence + 1);
      mem := mem + [entry];
      phase := phase.(stage := Inserting(phase.stage.done + 1));
      OneMoreInserted(past, before, phase, entry);
    }

    /** The leader takes the mutex again, publishes the new sequence number and lets the
        whole group go. */
    method Publish()
      requires Valid() && LeaderDone(phase)
      modifies `writers, `lastSequence, `bgError, `phase, `past
      ensures Valid() && phase.Idle?
      ensures lastSequence == old(lastSequence) + |old(phase).updates|
      ensures writers == old(writers)[old(phase).n..] && Arrivals() == old(Arrivals())
      ensures past == After(old(past), Ended(old(writers), old(phase)))
      ensures bgError == (old(bgError) || (old(phase).stage.Broken? && old(phase).stage.closes))
    {
      GroupEnds(past, writers, phase, synced);
      GroupLands(past, writers, phase);
      if phase.stage.Broken? && phase.stage.closes {
        bgError := true;
      }
      past := After(past, Ended(writers, phase));
      lastSequence := lastSequence + |phase.updates|;
      writers := writers[phase.n..];
      phase := Idle;
    }
  }

  /** A sync write whose record is appended but not synced. */
  method FailedSync<T>(w: Writer<T>) returns (q: WriteQueue<T>)
    requires w.sync && w.batch.Some?
    ensures fresh(q) && q.Valid() && q.bgError && q.phase.Idle? && q.past == UnsyncedPast(w)
  {
    q := new WriteQueue<T>(0);
    q.Enqueue(w);
    assert q.writers == [w];
    q.BeginGroup();
    OneWriter([w], q.phase.n);
    q.AppendRecord(true, Whole);
    q.SyncLog(false);
    UnsyncedEnds(w, q.writers, q.phase);
    q.Publish();
  }

  lemma UnsyncedEnds<T>(w: Writer<T>, queue: seq<Writer<T>>, phase: Phase<T>)
    requires w.batch.Some? && queue == [w] && phase == Writing(1, w.batch.value, true, Broken(true, true))
    ensures After(Opened(0), Ended(queue, phase)) == UnsyncedPast(w)
  {
    assert queue[..1] == [w];
  }

  ghost function UnsyncedPast<T>(w: Writer<T>): Past<T>
    requires w.batch.Some?
  {
    After(Opened(0), Group([w], w.batch.value, Lost, true))
  }

  lemma OneWriter<T>(queue: seq<Writer<T>>, n: nat)
    requires |queue| == 1 && IsGroup(queue, n)
    ensures n == 1 && GroupUpdates(queue[..n]) == UpdatesIn(queue[0])
  {
    assert queue[..1] == queue;
    assert UpdatesTo(queue, 0) == [];
  }

  /** Its updates are in the log and in no memtable. */
  lemma FailedSyncDiffers<T>(w: Writer<T>)
    requires w.batch.Some?
    ensures var p := UnsyncedPast(w);
            && Regular(p) && MemoryOf(p) == [] && LostInLog(p) == |w.batch.value|
            && ReplayedAll(LogOf(p)) == Number(1, w.batch.value)
  {
    var p := UnsyncedPast(w);
    assert UpdatesTo([w], 0) == [];
    assert LogOf(p) == [] + [Record(1, w.batch.value)];
    ReplayedLast([], Record(1, w.batch.value));
  }

  /** Whatever the leader is doing, a reader at the published sequence number sees every
      finished group whole, and of the group being written nothing. */
  lemma ReadersSeeWholeGroups<T>(q: WriteQueue<T>)
    requires q.Valid()
    ensures var n := |MemoryOf(q.past)|;
            && n <= |q.mem| && q.mem[..n] == MemoryOf(q.past)
            && (forall i :: 0 <= i < n ==> q.mem[i].sequence <= q.lastSequence)
            && (forall i :: n <= i < |q.mem| ==> q.mem[i].sequence > q.lastSequence)
  {
    NumbersAscend(q.past);
  }
}
