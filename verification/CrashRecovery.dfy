/** Recovery after a crash (db/db_impl.cc): every memtable has a log of its own, and a crash
    keeps some first part of each.  The old log is closed without a sync when the memtable is
    switched (util/env_posix.cc), so a later log can survive where an earlier one lost its
    end. */
module CrashRecovery {
  import opened Bytes
  import opened LogFormat
  import opened WriteBatches
  import opened GroupCommit
  import opened Keys
  import opened Recovery
  import LogTheorems

  // What survives, told by the past

  /** Of log `i` the first `ks[i]` records are kept. */
  predicate Kept(place: Place, ks: seq<nat>) {
    place.log < |ks| && place.record < ks[place.log]
  }

  /** What recovery gives back when of each log only the first records are left and the
      manifest has stored the sequence number `least`.  The manifest stores the number there
      is whenever an edit is logged, so it may count updates that the crash loses. */
  function Surviving<T>(p: Past<T>, ks: seq<nat>, least: nat): Recovered<T> {
    match p
    case Opened(_) => Recovered([], least)
    case Switched(before) => Surviving(before, ks, least)
    case After(before, g) =>
      var r := Surviving(before, ks, least);
      if g.logged && Kept(NextPlace(before), ks) then
        Recovered(r.entries + Number(Last(before) + 1, g.updates), Raised(r.maxSequence, Last(before) + |g.updates|))
      else r
  }

  /** The group's updates come back. */
  predicate Survives<T>(before: Past<T>, g: Group<T>, ks: seq<nat>) {
    g.logged && Kept(NextPlace(before), ks) && g.updates != []
  }

  /** An inserted update is not there any more. */
  predicate Holed<T>(p: Past<T>, ks: seq<nat>) {
    match p
    case Opened(_) => false
    case Switched(before) => Holed(before, ks)
    case After(before, g) =>
      Holed(before, ks) || (g.outcome.Committed? && g.updates != [] && !Survives(before, g, ks))
  }

  /** A record (or, unless `any`, an inserted update) survives that was logged after an
      inserted update that is gone. */
  predicate Overtaken<T>(p: Past<T>, ks: seq<nat>, any: bool) {
    match p
    case Opened(_) => false
    case Switched(before) => Overtaken(before, ks, any)
    case After(before, g) =>
      || Overtaken(before, ks, any)
      || (Holed(before, ks) && g.logged && Kept(NextPlace(before), ks)
          && (any || (g.outcome.Committed? && g.updates != [])))
  }

  /** An update comes back that was lost to an I/O error and never inserted. */
  predicate LostReturns<T>(p: Past<T>, ks: seq<nat>) {
    match p
    case Opened(_) => false
    case Switched(before) => LostReturns(before, ks)
    case After(before, g) => LostReturns(before, ks) || (g.outcome.Lost? && Survives(before, g, ks))
  }

  /** The number of the last update that survives, or the number at opening. */
  function LastSurviving<T>(p: Past<T>, ks: seq<nat>): nat {
    match p
    case Opened(last) => last
    case Switched(before) => LastSurviving(before, ks)
    case After(before, g) => if Survives(before, g, ks) then Last(before) + |g.updates| else LastSurviving(before, ks)
  }

  /** `q` is the store at some moment of `p`, between two groups. */
  ghost predicate IsMoment<T>(q: Past<T>, p: Past<T>) {
    q == p || (!p.Opened? && IsMoment(q, p.before))
  }

  /** The entries are those of the memtables at some moment. */
  ghost predicate AreEarlier<T(!new)>(entries: seq<Numbered<T>>, p: Past<T>) {
    exists q :: IsMoment(q, p) && entries == MemoryOf(q)
  }

  /** Entries and last sequence number are those of one moment. */
  ghost predicate IsEarlier<T(!new)>(r: Recovered<T>, p: Past<T>) {
    exists q :: IsMoment(q, p) && r == Recovered(MemoryOf(q), Last(q))
  }

  lemma {:induction false} NoHoleNoLoss<T>(p: Past<T>, ks: seq<nat>, least: nat)
    requires Regular(p) && !LostReturns(p, ks) && !Holed(p, ks)
    ensures Surviving(p, ks, least).entries == MemoryOf(p)
  {
    if !p.Opened? {
      NoHoleNoLoss(p.before, ks, least);
    }
    if p.After? && p.group.updates == [] {
      assert MemoryOf(p.before) + [] == MemoryOf(p.before);
    }
  }

  /** Without a hole the last surviving update is the last there was. */
  lemma {:induction false} NoHoleNoGap<T>(p: Past<T>, ks: seq<nat>)
    requires Regular(p) && NothingLost(p) && !Holed(p, ks)
    ensures LastSurviving(p, ks) == Last(p)
  {
    if !p.Opened? {
      NoHoleNoGap(p.before, ks);
    }
  }

  /** If nothing is overtaken and nothing lost returns, an earlier store comes back. */
  lemma {:induction false} EarlierComesBack<T>(p: Past<T>, ks: seq<nat>, least: nat) returns (q: Past<T>)
    requires Regular(p) && !LostReturns(p, ks) && !Overtaken(p, ks, false)
    ensures IsMoment(q, p) && Surviving(p, ks, least).entries == MemoryOf(q)
    ensures NothingLost(p) ==> Last(q) == LastSurviving(p, ks)
  {
    if !Holed(p, ks) {
      q := p;
      NoHoleNoLoss(p, ks, least);
      if NothingLost(p) {
        NoHoleNoGap(p, ks);
      }
    } else {
      q := EarlierComesBack(p.before, ks, least);
      var entries := Surviving(p.before, ks, least).entries;
      assert entries + [] == entries;
    }
  }

  /** Recovered numbers were used since the store was opened, and the last sequence number
      is at or above every one of them: no number is given twice. */
  lemma {:induction false} SurvivingWithin<T>(p: Past<T>, ks: seq<nat>, least: nat)
    requires Regular(p) && OpenedAt(p) <= least
    ensures var r := Surviving(p, ks, least);
            && least <= r.maxSequence <= Raised(least, Last(p))
            && Within(r.entries, OpenedAt(p), r.maxSequence) && Within(r.entries, OpenedAt(p), Last(p))
  {
    if !p.Opened? {
      SurvivingWithin(p.before, ks, least);
      MemoryAscends(p.before);
    }
  }

  // Numbers that tell a list of entries from every earlier store

  ghost predicate Contains<T>(entries: seq<Numbered<T>>, some: seq<Numbered<T>>) {
    forall e :: e in some ==> e in entries
  }

  ghost predicate Has<T>(entries: seq<Numbered<T>>, number: nat) {
    exists i :: 0 <= i < |entries| && entries[i].sequence == number
  }

  lemma {:induction false} HasEither<T>(a: seq<Numbered<T>>, b: seq<Numbered<T>>, number: nat)
    ensures Has(a + b, number) <==> Has(a, number) || Has(b, number)
  {
    if Has(a, number) {
      var i :| 0 <= i < |a| && a[i].sequence == number;
      assert (a + b)[i] == a[i];
    }
    if Has(b, number) {
      var i :| 0 <= i < |b| && b[i].sequence == number;
      assert (a + b)[|a| + i] == b[i];
    }
  }

  lemma {:induction false} HasNumber<T>(first: nat, updates: seq<T>, number: nat)
    ensures Has(Number(first, updates), number) <==> first <= number < first + |updates|
  {
    if first <= number < first + |updates| {
      assert Number(first, updates)[number - first].sequence == number;
    }
  }

  lemma {:induction false} HasWithin<T>(entries: seq<Numbered<T>>, low: nat, high: nat, number: nat)
    requires Within(entries, low, high) && Has(entries, number)
    ensures low < number <= high
  {
  }

  /** What one more group does to the numbers that are in memory and that survive. */
  lemma {:induction false} OneMoreHas<T>(p: Past<T>, ks: seq<nat>, least: nat, number: nat)
    requires Regular(p) && p.After? && OpenedAt(p) <= least
    ensures var before, g := p.before, p.group;
            var new_ := Last(before) < number <= Last(before) + |g.updates|;
            && (Has(MemoryOf(p), number) <==> Has(MemoryOf(before), number) || (g.outcome.Committed? && new_))
            && (Has(Surviving(p, ks, least).entries, number) <==>
                  Has(Surviving(before, ks, least).entries, number) || (Survives(before, g, ks) && new_))
            && (Has(MemoryOf(before), number) || Has(Surviving(before, ks, least).entries, number) ==> !new_)
  {
    var before, g := p.before, p.group;
    MemoryAscends(before);
    SurvivingWithin(before, ks, least);
    HasNumber(Last(before) + 1, g.updates, number);
    HasEither(MemoryOf(before), Number(Last(before) + 1, g.updates), number);
    HasEither(Surviving(before, ks, least).entries, Number(Last(before) + 1, g.updates), number);
    if Has(MemoryOf(before), number) {
      HasWithin(MemoryOf(before), OpenedAt(p), Last(before), number);
    }
    if Has(Surviving(before, ks, least).entries, number) {
      HasWithin(Surviving(before, ks, least).entries, OpenedAt(p), Last(before), number);
    }
  }

  /** A lost update that returns has a number that was never in memory. */
  lemma {:induction false} ReturnedIsNew<T>(p: Past<T>, ks: seq<nat>, least: nat) returns (n: nat)
    requires Regular(p) && OpenedAt(p) <= least && LostReturns(p, ks)
    ensures Has(Surviving(p, ks, least).entries, n) && !Has(MemoryOf(p), n)
  {
    if LostReturns(p.before, ks) {
      n := ReturnedIsNew(p.before, ks, least);
    } else {
      n := Last(p.before) + 1;
    }
    if p.After? {
      OneMoreHas(p, ks, least, n);
    }
  }

  /** A hole is a number that was in memory and does not come back. */
  lemma {:induction false} HoleIsMissing<T>(p: Past<T>, ks: seq<nat>, least: nat) returns (m: nat)
    requires Regular(p) && OpenedAt(p) <= least && Holed(p, ks)
    ensures Has(MemoryOf(p), m) && !Has(Surviving(p, ks, least).entries, m) && m <= Last(p)
  {
    if Holed(p.before, ks) {
      m := HoleIsMissing(p.before, ks, least);
    } else {
      m := Last(p.before) + 1;
    }
    if p.After? {
      OneMoreHas(p, ks, least, m);
    }
  }

  /** An overtaken hole is below a number that comes back. */
  lemma {:induction false} OvertakenIsMissing<T>(p: Past<T>, ks: seq<nat>, least: nat) returns (m: nat, n: nat)
    requires Regular(p) && OpenedAt(p) <= least && Overtaken(p, ks, false)
    ensures m < n && Has(MemoryOf(p), m) && !Has(Surviving(p, ks, least).entries, m)
    ensures Has(Surviving(p, ks, least).entries, n)
  {
    if Overtaken(p.before, ks, false) {
      m, n := OvertakenIsMissing(p.before, ks, least);
    } else {
      m := HoleIsMissing(p.before, ks, least);
      n := Last(p.before) + 1;
    }
    if p.After? {
      OneMoreHas(p, ks, least, m);
      OneMoreHas(p, ks, least, n);
    }
  }

  /** The memtables of an earlier moment are the front of what they are now. */
  lemma {:induction false} MomentIsFront<T>(q: Past<T>, p: Past<T>)
    requires IsMoment(q, p)
    ensures MemoryOf(q) <= MemoryOf(p) && OpenedAt(q) == OpenedAt(p)
    ensures Regular(p) ==> Regular(q)
    ensures NothingLost(p) ==> NothingLost(q)
  {
    if q != p {
      MomentIsFront(q, p.before);
    }
  }

  lemma {:induction false} FrontHas<T>(front: seq<Numbered<T>>, all: seq<Numbered<T>>, n: nat)
    requires front <= all
    ensures Has(front, n) ==> Has(all, n)
  {
    if Has(front, n) {
      var i :| 0 <= i < |front| && front[i].sequence == n;
      assert all[i] == front[i];
    }
  }

  /** A front that has a number has every smaller one, too. */
  lemma {:induction false} FrontHasSmaller<T>(front: seq<Numbered<T>>, all: seq<Numbered<T>>, m: nat, n: nat)
    requires front <= all && Ascending(all) && Has(front, n) && Has(all, m) && m < n
    ensures Has(front, m)
  {
    var i :| 0 <= i < |front| && front[i].sequence == n;
    var j :| 0 <= j < |all| && all[j].sequence == m;
    assert i < j ==> Earlier(all, i, j);
    assert front[j] == all[j];
  }

  /** If a hole is overtaken or a lost update returns, what comes back is no earlier store. */
  lemma {:induction false} OvertakenIsNotEarlier<T>(p: Past<T>, ks: seq<nat>, least: nat, q: Past<T>)
    requires Regular(p) && OpenedAt(p) <= least && (LostReturns(p, ks) || Overtaken(p, ks, false))
    requires IsMoment(q, p)
    ensures Surviving(p, ks, least).entries != MemoryOf(q)
  {
    MomentIsFront(q, p);
    MemoryAscends(p);
    if Surviving(p, ks, least).entries == MemoryOf(q) {
      if LostReturns(p, ks) {
        var n := ReturnedIsNew(p, ks, least);
        FrontHas(MemoryOf(q), MemoryOf(p), n);
      } else {
        var m, n := OvertakenIsMissing(p, ks, least);
        FrontHasSmaller(MemoryOf(q), MemoryOf(p), m, n);
      }
    }
  }

  /** The entries that survive are a front of the memtables' under the same condition. */
  lemma {:induction false} SurvivorsAreFrontIff<T(!new)>(p: Past<T>, ks: seq<nat>, least: nat)
    requires Regular(p) && OpenedAt(p) <= least
    ensures Surviving(p, ks, least).entries <= MemoryOf(p) <==> !LostReturns(p, ks) && !Overtaken(p, ks, false)
  {
    var r := Surviving(p, ks, least).entries;
    MemoryAscends(p);
    if LostReturns(p, ks) {
      var n := ReturnedIsNew(p, ks, least);
      if r <= MemoryOf(p) {
        FrontHas(r, MemoryOf(p), n);
      }
    } else if Overtaken(p, ks, false) {
      var m, n := OvertakenIsMissing(p, ks, least);
      if r <= MemoryOf(p) {
        FrontHasSmaller(r, MemoryOf(p), m, n);
      }
    } else {
      var q := EarlierComesBack(p, ks, least);
      MomentIsFront(q, p);
    }
  }

  /** Nothing comes back that was not in memory, unless it was lost. */
  lemma {:induction false} SurvivorsWereThere<T>(p: Past<T>, ks: seq<nat>, least: nat)
    requires Regular(p) && !LostReturns(p, ks)
    ensures Contains(MemoryOf(p), Surviving(p, ks, least).entries)
  {
    if !p.Opened? {
      SurvivorsWereThere(p.before, ks, least);
    }
  }

  lemma {:induction false} SurvivorsAscend<T>(p: Past<T>, ks: seq<nat>, least: nat)
    requires Regular(p) && OpenedAt(p) <= least
    ensures Ascending(Surviving(p, ks, least).entries)
  {
    if !p.Opened? {
      SurvivorsAscend(p.before, ks, least);
      SurvivingWithin(p.before, ks, least);
      MemoryAscends(p.before);
    }
    if p.After? {
      AppendedAscends(Surviving(p.before, ks, least).entries, OpenedAt(p), Last(p.before), p.group.updates);
    }
  }

  // The last sequence number

  lemma {:induction false} LastGrows<T>(p: Past<T>, ks: seq<nat>)
    requires Regular(p)
    ensures OpenedAt(p) <= LastSurviving(p, ks) <= Last(p)
  {
    if !p.Opened? {
      LastGrows(p.before, ks);
    }
  }

  /** If not even an empty record overtakes a hole, the number is that of the last surviving
      update, or the stored one. */
  lemma {:induction false} NumberComesBack<T>(p: Past<T>, ks: seq<nat>, least: nat)
    requires Regular(p) && NothingLost(p) && !Overtaken(p, ks, true) && OpenedAt(p) <= least
    ensures Surviving(p, ks, least).maxSequence == Raised(least, LastSurviving(p, ks))
  {
    if !p.Opened? {
      NumberComesBack(p.before, ks, least);
    }
    if p.After? && p.group.logged && Kept(NextPlace(p.before), ks) {
      NoHoleNoGap(p.before, ks);
    }
  }

  lemma {:induction false} HoleIsAbove<T>(p: Past<T>, ks: seq<nat>)
    requires Regular(p) && NothingLost(p) && Holed(p, ks) && !Overtaken(p, ks, false)
    ensures LastSurviving(p, ks) < Last(p)
  {
    if Holed(p.before, ks) {
      HoleIsAbove(p.before, ks);
    } else {
      LastGrows(p.before, ks);
    }
  }

  /** An empty record behind a hole raises the number above what survives. */
  lemma {:induction false} EmptyRecordRaises<T>(p: Past<T>, ks: seq<nat>, least: nat)
    requires Regular(p) && NothingLost(p) && Overtaken(p, ks, true) && !Overtaken(p, ks, false)
    ensures Surviving(p, ks, least).maxSequence > LastSurviving(p, ks)
  {
    if Overtaken(p.before, ks, true) {
      EmptyRecordRaises(p.before, ks, least);
      if p.After? {
        OvertakenIsHoled(p.before, ks);
      }
    } else {
      HoleIsAbove(p.before, ks);
    }
  }

  lemma {:induction false} OvertakenIsHoled<T>(p: Past<T>, ks: seq<nat>)
    requires Overtaken(p, ks, true)
    ensures Holed(p, ks)
  {
    if Overtaken(p.before, ks, true) {
      OvertakenIsHoled(p.before, ks);
    }
  }

  lemma {:induction false} NothingLostReturns<T>(p: Past<T>, ks: seq<nat>)
    requires NothingLost(p)
    ensures !LostReturns(p, ks)
  {
    if !p.Opened? {
      NothingLostReturns(p.before, ks);
    }
  }

  lemma {:induction false} OvertakenByAny<T>(p: Past<T>, ks: seq<nat>)
    requires Overtaken(p, ks, false)
    ensures Overtaken(p, ks, true)
  {
    if Overtaken(p.before, ks, false) {
      OvertakenByAny(p.before, ks);
    }
  }

  /** The entries that survive are those of an earlier store if and only if no hole is
      overtaken and nothing lost returns. */
  lemma {:induction false} EntriesAreEarlierIff<T(!new)>(p: Past<T>, ks: seq<nat>, least: nat)
    requires Regular(p) && OpenedAt(p) <= least
    ensures AreEarlier(Surviving(p, ks, least).entries, p) <==> !LostReturns(p, ks) && !Overtaken(p, ks, false)
  {
    if LostReturns(p, ks) || Overtaken(p, ks, false) {
      forall q | IsMoment(q, p)
        ensures Surviving(p, ks, least).entries != MemoryOf(q)
      {
        OvertakenIsNotEarlier(p, ks, least, q);
      }
    } else {
      var q := EarlierComesBack(p, ks, least);
    }
  }

  /** Two moments without losses that have the same entries have the same last number. */
  lemma {:induction false} SameEntriesSameLast<T>(p: Past<T>, q: Past<T>, q': Past<T>)
    requires Regular(p) && NothingLost(p) && IsMoment(q, p) && IsMoment(q', p) && MemoryOf(q) == MemoryOf(q')
    ensures Last(q) == Last(q')
  {
    MomentIsFront(q, p);
    MomentIsFront(q', p);
    AllCommitted(q, OpenedAt(p));
    AllCommitted(q', OpenedAt(p));
  }

  /** The last sequence number comes back with the entries if and only if, moreover, not even
      an empty record overtakes a hole and the manifest stores no number above the last
      surviving update's. */
  lemma {:induction false} StoreIsEarlierIff<T(!new)>(p: Past<T>, ks: seq<nat>, least: nat)
    requires Regular(p) && NothingLost(p) && OpenedAt(p) <= least
    ensures IsEarlier(Surviving(p, ks, least), p) <==> !Overtaken(p, ks, true) && least <= LastSurviving(p, ks)
  {
    var r := Surviving(p, ks, least);
    NothingLostReturns(p, ks);
    EntriesAreEarlierIff(p, ks, least);
    if Overtaken(p, ks, false) {
      OvertakenByAny(p, ks);
    } else {
      var q' := EarlierComesBack(p, ks, least);
      SurvivingWithin(p, ks, least);
      if Overtaken(p, ks, true) {
        EmptyRecordRaises(p, ks, least);
      } else {
        NumberComesBack(p, ks, least);
      }
      forall q | IsMoment(q, p) && r == Recovered(MemoryOf(q), Last(q))
        ensures Last(q) == LastSurviving(p, ks)
      {
        SameEntriesSameLast(p, q, q');
      }
      if !Overtaken(p, ks, true) && least <= LastSurviving(p, ks) {
        assert r == Recovered(MemoryOf(q'), Last(q'));
      }
    }
  }

  // The same, told by the logs

  function First<T>(s: seq<T>, k: nat): seq<T> {
    if k < |s| then s[..k] else s
  }

  /** All logs, the open one last. */
  function LogsOf<T>(p: Past<T>): seq<seq<Record<T>>> {
    ClosedLogs(p) + [OpenLog(p)]
  }

  /** An update of the log is behind its first `k` records. */
  ghost predicate Loses<T>(log: seq<Record<T>>, k: nat) {
    exists m :: k <= m < |log| && log[m].updates != []
  }

  /** The first `k` records of the log hold a record, or, unless `any`, an update. */
  ghost predicate Yields<T>(log: seq<Record<T>>, k: nat, any: bool) {
    exists m :: 0 <= m < |log| && m < k && (any || log[m].updates != [])
  }

  ghost predicate SomeLoses<T>(logs: seq<seq<Record<T>>>, ks: seq<nat>)
    requires |logs| <= |ks|
  {
    exists i :: 0 <= i < |logs| && Loses(logs[i], ks[i])
  }

  /** A log behind one that lost an update still yields something. */
  ghost predicate YieldsBehindALoss<T>(logs: seq<seq<Record<T>>>, ks: seq<nat>, any: bool)
    requires |logs| <= |ks|
  {
    exists i, j :: 0 <= i < j < |logs| && Loses(logs[i], ks[i]) && Yields(logs[j], ks[j], any)
  }

  lemma {:induction false} OneMoreRecordLoses<T>(log: seq<Record<T>>, r: Record<T>, k: nat)
    ensures Loses(log + [r], k) <==> Loses(log, k) || (k <= |log| && r.updates != [])
  {
    if Loses(log, k) {
      var m :| k <= m < |log| && log[m].updates != [];
      assert (log + [r])[m] == log[m];
    }
    if k <= |log| && r.updates != [] {
      assert (log + [r])[|log|] == r;
    }
  }

  lemma {:induction false} OneMoreRecordYields<T>(log: seq<Record<T>>, r: Record<T>, k: nat, any: bool)
    ensures Yields(log + [r], k, any) <==> Yields(log, k, any) || (|log| < k && (any || r.updates != []))
  {
    if Yields(log, k, any) {
      var m :| 0 <= m < |log| && m < k && (any || log[m].updates != []);
      assert (log + [r])[m] == log[m];
    }
    if |log| < k && (any || r.updates != []) {
      assert (log + [r])[|log|] == r;
    }
    if Yields(log + [r], k, any) {
      var m :| 0 <= m <= |log| && m < k && (any || (log + [r])[m].updates != []);
      assert m < |log| ==> (log + [r])[m] == log[m];
    }
  }

  lemma {:induction false} OneMoreLog<T>(logs: seq<seq<Record<T>>>, log: seq<Record<T>>, ks: seq<nat>, any: bool)
    requires |logs| < |ks|
    ensures SomeLoses(logs + [log], ks) <==> SomeLoses(logs, ks) || Loses(log, ks[|logs|])
    ensures YieldsBehindALoss(logs + [log], ks, any) <==>
              YieldsBehindALoss(logs, ks, any) || (SomeLoses(logs, ks) && Yields(log, ks[|logs|], any))
  {
    var more := logs + [log];
    assert forall i :: 0 <= i < |logs| ==> more[i] == logs[i];
    assert more[|logs|] == log;
    if SomeLoses(logs, ks) {
      var i :| 0 <= i < |logs| && Loses(logs[i], ks[i]);
      assert Loses(more[i], ks[i]);
    }
    if YieldsBehindALoss(logs, ks, any) {
      var i, j :| 0 <= i < j < |logs| && Loses(logs[i], ks[i]) && Yields(logs[j], ks[j], any);
      assert Loses(more[i], ks[i]) && Yields(more[j], ks[j], any);
    }
  }

  /** What the past says of losses, closed logs and open log say too. */
  lemma {:induction false} LossesShow<T>(p: Past<T>, ks: seq<nat>, any: bool)
    requires Regular(p) && NothingLost(p) && |ClosedLogs(p)| < |ks|
    ensures var closed, open, k := ClosedLogs(p), OpenLog(p), ks[|ClosedLogs(p)|];
            && (Holed(p, ks) <==> SomeLoses(closed, ks) || Loses(open, k))
            && (Overtaken(p, ks, any) <==>
                  YieldsBehindALoss(closed, ks, any) || (SomeLoses(closed, ks) && Yields(open, k, any)))
  {
    match p
    case Opened(_) =>
    case Switched(before) =>
      LossesShow(before, ks, any);
      OneMoreLog(ClosedLogs(before), OpenLog(before), ks, any);
    case After(before, g) =>
      LossesShow(before, ks, any);
      if g.logged {
        OneMoreRecordLoses(OpenLog(before), Record.Record(Last(before) + 1, g.updates), ks[|ClosedLogs(before)|]);
        OneMoreRecordYields(OpenLog(before), Record.Record(Last(before) + 1, g.updates), ks[|ClosedLogs(before)|], any);
      }
  }

  /** Where no group was lost, the logs tell what is overtaken. */
  lemma {:induction false} OvertakenIsBehindALoss<T>(p: Past<T>, ks: seq<nat>, any: bool)
    requires Regular(p) && NothingLost(p) && |LogsOf(p)| == |ks|
    ensures Overtaken(p, ks, any) <==> YieldsBehindALoss(LogsOf(p), ks, any)
  {
    LossesShow(p, ks, any);
    OneMoreLog(ClosedLogs(p), OpenLog(p), ks, any);
  }

  /** What is kept of the first `n` logs. */
  function KeptOf<T>(logs: seq<seq<Record<T>>>, ks: seq<nat>, n: nat): seq<Record<T>>
    requires n <= |logs| && n <= |ks|
  {
    if n == 0 then [] else KeptOf(logs, ks, n - 1) + First(logs[n - 1], ks[n - 1])
  }

  lemma {:induction false} KeptOfMore<T>(logs: seq<seq<Record<T>>>, log: seq<Record<T>>, ks: seq<nat>, n: nat)
    requires n <= |logs| && n <= |ks|
    ensures KeptOf(logs + [log], ks, n) == KeptOf(logs, ks, n)
  {
    if n > 0 {
      KeptOfMore(logs, log, ks, n - 1);
    }
  }

  lemma {:induction false} OneMoreKept<T>(kept: seq<Record<T>>, log: seq<Record<T>>, r: Record<T>, k: nat)
    ensures kept + First(log + [r], k) == if |log| < k then kept + First(log, k) + [r] else kept + First(log, k)
  {
    if |log| < k {
      assert First(log + [r], k) == First(log, k) + [r];
    } else {
      assert First(log + [r], k) == First(log, k);
    }
  }

  /** What recovery makes of a list of records, over the last sequence number of the store. */
  function RecoveredFrom<T>(least: nat, kept: seq<Record<T>>): Recovered<T> {
    Recovered(ReplayedAll(kept), Greatest(kept, least))
  }

  lemma {:induction false} OneMoreRecovered<T>(least: nat, kept: seq<Record<T>>, r: Record<T>)
    requires r.sequence > 0
    ensures RecoveredFrom(least, kept + [r])
            == Recovered(RecoveredFrom(least, kept).entries + Number(r.sequence, r.updates),
                         Raised(RecoveredFrom(least, kept).maxSequence, r.sequence + |r.updates| - 1))
  {
    ReplayedLast(kept, r);
    assert (kept + [r])[..|kept|] == kept;
  }

  /** The records that are kept, in order. */
  function KeptLog<T>(p: Past<T>, ks: seq<nat>): seq<Record<T>>
    requires |ClosedLogs(p)| < |ks|
  {
    KeptOf(ClosedLogs(p), ks, |ClosedLogs(p)|) + First(OpenLog(p), ks[|ClosedLogs(p)|])
  }

  lemma {:induction false} SwitchKeeps<T>(p: Past<T>, ks: seq<nat>)
    requires |ClosedLogs(Switched(p))| < |ks|
    ensures KeptLog(Switched(p), ks) == KeptLog(p, ks)
  {
    KeptOfMore(ClosedLogs(p), OpenLog(p), ks, |ClosedLogs(p)|);
  }

  lemma {:induction false} GroupKeeps<T>(p: Past<T>, g: Group<T>, ks: seq<nat>, r: Record<T>)
    requires |ClosedLogs(p)| < |ks| && r == Record.Record(Last(p) + 1, g.updates)
    ensures KeptLog(After(p, g), ks)
            == if g.logged && Kept(NextPlace(p), ks) then KeptLog(p, ks) + [r] else KeptLog(p, ks)
  {
    OneMoreKept(KeptOf(ClosedLogs(p), ks, |ClosedLogs(p)|), OpenLog(p), r, ks[|ClosedLogs(p)|]);
  }

  /** What survives is what the kept records say. */
  lemma {:induction false} SurvivingIsKept<T>(p: Past<T>, ks: seq<nat>, least: nat)
    requires |ClosedLogs(p)| < |ks|
    ensures Surviving(p, ks, least) == RecoveredFrom(least, KeptLog(p, ks))
  {
    match p
    case Opened(_) =>
    case Switched(before) =>
      SurvivingIsKept(before, ks, least);
      SwitchKeeps(before, ks);
    case After(before, g) =>
      SurvivingIsKept(before, ks, least);
      var r := Record.Record(Last(before) + 1, g.updates);
      GroupKeeps(before, g, ks, r);
      OneMoreRecovered(least, KeptLog(before, ks), r);
  }

  // The files

  function FileOf(sum: Checksum, log: seq<Record<Op>>): Bytes {
    Encode(sum, 0, Reps(log))
  }

  ghost predicate AllFit(logs: seq<seq<Record<Op>>>) {
    forall i :: 0 <= i < |logs| ==> Fits(logs[i])
  }

  /** A crash leaves some first part of each file. */
  ghost predicate IsCut(sum: Checksum, logs: seq<seq<Record<Op>>>, files: seq<Bytes>) {
    |files| == |logs| && forall i :: 0 <= i < |logs| ==> files[i] <= FileOf(sum, logs[i])
  }

  /** How many whole records of each log are left. */
  function KeptCounts(sum: Checksum, logs: seq<seq<Record<Op>>>, files: seq<Bytes>): (ks: seq<nat>)
    requires |files| == |logs|
    ensures |ks| == |logs|
  {
    seq(|logs|, i requires 0 <= i < |logs| => LogTheorems.Whole(sum, 0, Reps(logs[i]), |files[i]|))
  }

  /** What DBImpl::Recover makes of the files, over the last sequence number in the
      manifest. */
  function RecoveredLogs(sum: Checksum, files: seq<Bytes>, lastSequence: nat): Recovered<Op> {
    var all := TakeAll(Recovered([], 0), ReadFiles(sum, files, |files|));
    Recovered(all.entries, Raised(lastSequence, all.maxSequence))
  }

  lemma {:induction false} RepsFirst(log: seq<Record<Op>>, k: nat)
    requires k <= |log|
    ensures Reps(log)[..k] == Reps(First(log, k))
  {
  }

  lemma {:induction false} RepsConcat(a: seq<Record<Op>>, b: seq<Record<Op>>)
    ensures Reps(a + b) == Reps(a) + Reps(b)
  {
  }

  lemma {:induction false} PrefixReads(sum: Checksum, records: seq<Bytes>, file: Bytes)
    requires file <= Encode(sum, 0, records)
    ensures ReadAll(sum, Open(file)) == AllRead(records[..LogTheorems.Whole(sum, 0, records, |file|)], 0)
  {
    assert Encode(sum, 0, records)[..|file|] == file;
    LogTheorems.TruncationReadsPrefix(sum, records, |file|);
  }

  lemma {:induction false} SoundIfHeld(records: seq<Bytes>, log: seq<Record<Op>>)
    requires AllHold(records, log)
    ensures Undamaged(AllRead(records, 0))
  {
    forall i | 0 <= i < |records|
      ensures Sound(records[i])
    {
      assert HoldsRecord(records[i], log[i]);
      TakesRecord(Recovered([], 0), records[i], log[i].sequence, log[i].updates);
    }
  }

  lemma {:induction false} FirstIsSound(log: seq<Record<Op>>, k: nat)
    requires Fits(log)
    ensures Undamaged(AllRead(Reps(First(log, k)), 0))
  {
    RepsHold(First(log, k));
    SoundIfHeld(Reps(First(log, k)), First(log, k));
  }

  lemma {:induction false} CutReads(sum: Checksum, log: seq<Record<Op>>, file: Bytes, k: nat)
    requires Fits(log) && file <= FileOf(sum, log) && k == LogTheorems.Whole(sum, 0, Reps(log), |file|)
    ensures ReadAll(sum, Open(file)) == AllRead(Reps(First(log, k)), 0)
  {
    PrefixReads(sum, Reps(log), file);
    RepsFirst(log, k);
  }

  lemma {:induction false} CutsUndamaged(sum: Checksum, logs: seq<seq<Record<Op>>>, files: seq<Bytes>, ks: seq<nat>)
    requires AllFit(logs) && IsCut(sum, logs, files) && ks == KeptCounts(sum, logs, files)
    ensures AllUndamaged(sum, files, |files|)
  {
    forall i | 0 <= i < |files|
      ensures FileUndamaged(sum, files[i])
    {
      CutReads(sum, logs[i], files[i], ks[i]);
      FirstIsSound(logs[i], ks[i]);
    }
  }

  lemma {:induction false} KeptFits(logs: seq<seq<Record<Op>>>, ks: seq<nat>, n: nat)
    requires AllFit(logs) && n <= |logs| && n <= |ks|
    ensures Fits(KeptOf(logs, ks, n))
  {
    if n > 0 {
      KeptFits(logs, ks, n - 1);
      assert Fits(logs[n - 1]);
    }
  }

  lemma {:induction false} OneMoreCut(sum: Checksum, files: seq<Bytes>, n: nat,
                                      kept: seq<Record<Op>>, first: seq<Record<Op>>)
    requires n < |files| && ReadFiles(sum, files, n) == Reps(kept)
    requires ReadAll(sum, Open(files[n])).records == Reps(first)
    ensures ReadFiles(sum, files, n + 1) == Reps(kept + first)
  {
    RepsConcat(kept, first);
  }

  lemma {:induction false} CutsRead(sum: Checksum, logs: seq<seq<Record<Op>>>, files: seq<Bytes>, ks: seq<nat>, n: nat)
    requires AllFit(logs) && IsCut(sum, logs, files) && ks == KeptCounts(sum, logs, files) && n <= |logs|
    ensures ReadFiles(sum, files, n) == Reps(KeptOf(logs, ks, n))
  {
    if n > 0 {
      var last := n - 1;
      CutsRead(sum, logs, files, ks, last);
      CutReads(sum, logs[last], files[last], ks[last]);
      OneMoreCut(sum, files, last, KeptOf(logs, ks, last), First(logs[last], ks[last]));
    }
  }

  lemma {:induction false} GreatestOver<T>(log: seq<Record<T>>, least: nat)
    ensures Greatest(log, least) == Raised(least, Greatest(log, 0))
  {
    if log != [] {
      GreatestOver(log[..|log| - 1], least);
    }
  }

  /** Recovery after a crash, errors before it included: the updates of exactly the records
      that are whole in what is left, under their numbers, over whatever number the manifest
      has stored. */
  lemma {:induction false} CrashRecovers(sum: Checksum, p: Past<Op>, files: seq<Bytes>, ks: seq<nat>, least: nat)
    requires AllFit(LogsOf(p)) && IsCut(sum, LogsOf(p), files) && ks == KeptCounts(sum, LogsOf(p), files)
    ensures AllUndamaged(sum, files, |files|)
    ensures RecoveredLogs(sum, files, least) == Surviving(p, ks, least)
  {
    var logs, kept := LogsOf(p), KeptLog(p, ks);
    CutsUndamaged(sum, logs, files, ks);
    CutsRead(sum, logs, files, ks, |logs|);
    KeptFits(logs, ks, |logs|);
    KeptOfMore(ClosedLogs(p), OpenLog(p), ks, |ClosedLogs(p)|);
    assert KeptOf(logs, ks, |logs|) == kept;
    RepsHold(kept);
    RecoversLog(Reps(kept), kept, 0);
    GreatestOver(kept, least);
    SurvivingIsKept(p, ks, least);
  }

  /** The memtables of an earlier store come back if and only if no inserted update survives
      that was logged after one that is gone, and no update survives that was lost to an I/O
      error. */
  lemma {:induction false} CrashRecoversAnEarlierStore(sum: Checksum, p: Past<Op>, files: seq<Bytes>, ks: seq<nat>,
                                                       least: nat)
    requires Regular(p) && AllFit(LogsOf(p)) && OpenedAt(p) <= least
    requires IsCut(sum, LogsOf(p), files) && ks == KeptCounts(sum, LogsOf(p), files)
    ensures AreEarlier(RecoveredLogs(sum, files, least).entries, p) <==>
              !LostReturns(p, ks) && !Overtaken(p, ks, false)
  {
    CrashRecovers(sum, p, files, ks, least);
    EntriesAreEarlierIff(p, ks, least);
  }

  /** Where no group was lost, the logs tell: an earlier store comes back if and only if no
      log behind one that lost an update still yields an update. */
  lemma {:induction false} CrashRecoversUnlessOvertaken(sum: Checksum, p: Past<Op>, files: seq<Bytes>, ks: seq<nat>,
                                                        least: nat)
    requires Regular(p) && NothingLost(p) && AllFit(LogsOf(p)) && OpenedAt(p) <= least
    requires IsCut(sum, LogsOf(p), files) && ks == KeptCounts(sum, LogsOf(p), files)
    ensures AreEarlier(RecoveredLogs(sum, files, least).entries, p) <==> !YieldsBehindALoss(LogsOf(p), ks, false)
  {
    CrashRecoversAnEarlierStore(sum, p, files, ks, least);
    NothingLostReturns(p, ks);
    OvertakenIsBehindALoss(p, ks, false);
  }

  /** Its last sequence number comes back, too, if and only if no such log yields even an
      empty record and the manifest stores no number above the last surviving update's. */
  lemma {:induction false} CrashRecoversTheNumber(sum: Checksum, p: Past<Op>, files: seq<Bytes>, ks: seq<nat>,
                                                  least: nat)
    requires Regular(p) && NothingLost(p) && AllFit(LogsOf(p)) && OpenedAt(p) <= least
    requires IsCut(sum, LogsOf(p), files) && ks == KeptCounts(sum, LogsOf(p), files)
    ensures IsEarlier(RecoveredLogs(sum, files, least), p) <==>
              !YieldsBehindALoss(LogsOf(p), ks, true) && least <= LastSurviving(p, ks)
  {
    CrashRecovers(sum, p, files, ks, least);
    StoreIsEarlierIff(p, ks, least);
    OvertakenIsBehindALoss(p, ks, true);
  }

  /** With every closed log whole, any cut of the open one gives back an earlier store, and
      its number if the manifest stores no greater one. */
  lemma {:induction false} WholeClosedLogsSuffice(sum: Checksum, p: Past<Op>, files: seq<Bytes>, ks: seq<nat>,
                                                  least: nat)
    requires Regular(p) && NothingLost(p) && AllFit(LogsOf(p)) && OpenedAt(p) <= least
    requires IsCut(sum, LogsOf(p), files) && ks == KeptCounts(sum, LogsOf(p), files)
    requires forall i :: 0 <= i < |ClosedLogs(p)| ==> files[i] == FileOf(sum, LogsOf(p)[i])
    ensures AreEarlier(RecoveredLogs(sum, files, least).entries, p)
    ensures IsEarlier(RecoveredLogs(sum, files, least), p) <==> least <= LastSurviving(p, ks)
  {
    forall i | 0 <= i < |ClosedLogs(p)|
      ensures !Loses(LogsOf(p)[i], ks[i])
    {
      LogTheorems.AllWhole(sum, 0, Reps(LogsOf(p)[i]));
    }
    CrashRecoversUnlessOvertaken(sum, p, files, ks, least);
    CrashRecoversTheNumber(sum, p, files, ks, least);
  }

  // Synced writes

  predicate HasPlace<T>(p: Past<T>, place: Place) {
    var n := |ClosedLogs(p)|;
    if place.log < n then place.record < |ClosedLogs(p)[place.log]| else place.log == n && place.record < |OpenLog(p)|
  }

  /** Every update of every acknowledged sync write is among the entries. */
  ghost predicate AckedIn<T>(p: Past<T>, entries: seq<Numbered<T>>) {
    match p
    case Opened(_) => true
    case Switched(before) => AckedIn(before, entries)
    case After(before, g) =>
      && AckedIn(before, entries)
      && (g.outcome.Committed? && AsksSync(g.writers) ==> Contains(entries, Number(Last(before) + 1, g.updates)))
  }

  lemma {:induction false} AckedInMore<T>(p: Past<T>, entries: seq<Numbered<T>>, more: seq<Numbered<T>>)
    requires AckedIn(p, entries)
    ensures AckedIn(p, entries + more)
  {
    if !p.Opened? {
      AckedInMore(p.before, entries, more);
    }
  }

  ghost predicate SyncedKept<T>(p: Past<T>, synced: set<Place>, ks: seq<nat>) {
    forall place :: place in synced && HasPlace(p, place) ==> Kept(place, ks)
  }

  lemma {:induction false} SyncedKeptBefore<T>(p: Past<T>, synced: set<Place>, ks: seq<nat>)
    requires !p.Opened? && SyncedKept(p, synced, ks)
    ensures SyncedKept(p.before, synced, ks)
  {
    forall place | place in synced && HasPlace(p.before, place)
      ensures Kept(place, ks)
    {
      assert HasPlace(p, place);
    }
  }

  lemma {:induction false} AckedSurvive<T>(p: Past<T>, synced: set<Place>, ks: seq<nat>, least: nat)
    requires SyncsKept(p, synced) && SyncedKept(p, synced, ks)
    ensures AckedIn(p, Surviving(p, ks, least).entries)
  {
    if !p.Opened? {
      SyncedKeptBefore(p, synced, ks);
      AckedSurvive(p.before, synced, ks, least);
    }
    if p.After? {
      AckedInMore(p.before, Surviving(p.before, ks, least).entries, Number(Last(p.before) + 1, p.group.updates));
      assert p.group.logged ==> HasPlace(p, NextPlace(p.before));
    }
  }

  /** The synced bytes of every log are left. */
  ghost predicate SyncedBytesLeft(sum: Checksum, p: Past<Op>, synced: set<Place>, files: seq<Bytes>)
    requires |files| == |LogsOf(p)|
  {
    forall place :: place in synced && HasPlace(p, place) ==>
                      |files[place.log]| >= |Encode(sum, 0, Reps(LogsOf(p)[place.log])[..place.record + 1])|
  }

  lemma {:induction false} FirstEncoded(sum: Checksum, offset: nat, records: seq<Bytes>, j: nat)
    requires offset <= BlockSize && 0 < j <= |records|
    ensures |Encode(sum, offset, records[..j])|
            == |Fragments(sum, offset, records[0], true)|
               + |Encode(sum, EndOffset(offset, |records[0]|), records[1..][..j - 1])|
  {
    assert records[..j][0] == records[0] && records[..j][1..] == records[1..][..j - 1];
  }

  lemma {:induction false} WholeAtLeast(sum: Checksum, offset: nat, records: seq<Bytes>, j: nat, size: nat)
    requires offset <= BlockSize && j <= |records| && size >= |Encode(sum, offset, records[..j])|
    ensures LogTheorems.Whole(sum, offset, records, size) >= j
    decreases j
  {
    if j > 0 {
      FirstEncoded(sum, offset, records, j);
      var first := |Fragments(sum, offset, records[0], true)|;
      WholeAtLeast(sum, EndOffset(offset, |records[0]|), records[1..], j - 1, size - first);
    }
  }

  lemma {:induction false} SyncedIsKept(sum: Checksum, p: Past<Op>, synced: set<Place>, files: seq<Bytes>, ks: seq<nat>)
    requires |files| == |LogsOf(p)| && ks == KeptCounts(sum, LogsOf(p), files)
    requires SyncedBytesLeft(sum, p, synced, files)
    ensures SyncedKept(p, synced, ks)
  {
    forall place | place in synced && HasPlace(p, place)
      ensures Kept(place, ks)
    {
      WholeAtLeast(sum, 0, Reps(LogsOf(p)[place.log]), place.record + 1, |files[place.log]|);
    }
  }

  /** A crash keeps at least what was synced, log by log, so no acknowledged sync write is
      lost, whatever else is. */
  lemma {:induction false} SyncedWritesSurvive(sum: Checksum, p: Past<Op>, synced: set<Place>,
                                               files: seq<Bytes>, ks: seq<nat>, least: nat)
    requires SyncsKept(p, synced) && AllFit(LogsOf(p))
    requires IsCut(sum, LogsOf(p), files) && ks == KeptCounts(sum, LogsOf(p), files)
    requires SyncedBytesLeft(sum, p, synced, files)
    ensures AckedIn(p, RecoveredLogs(sum, files, least).entries)
  {
    SyncedIsKept(sum, p, synced, files, ks);
    AckedSurvive(p, synced, ks, least);
    CrashRecovers(sum, p, files, ks, least);
  }

  // What can go wrong

  /** A writer of one update, with the size of its batch. */
  function OneWrite(op: Op, sync: bool): Writer<Op> {
    Writer(Some([op]), |Rep(0, [op])|, sync)
  }

  function OneGroup(op: Op, sync: bool): Group<Op> {
    Group([OneWrite(op, sync)], [op], Committed, true)
  }

  /** Two groups of one write each, the second acknowledged as synced, with a switch of logs
      in between. */
  function TwoWrites(a: Op, b: Op): Past<Op> {
    After(Switched(After(Opened(0), OneGroup(a, false))), OneGroup(b, true))
  }

  lemma {:induction false} OneWriteMore(p: Past<Op>, op: Op, sync: bool, synced: set<Place>)
    requires Regular(p) && NothingLost(p) && SyncsKept(p, synced) && (sync ==> NextPlace(p) in synced)
    ensures var q := After(p, OneGroup(op, sync));
            && Regular(q) && NothingLost(q) && SyncsKept(q, synced)
            && OpenedAt(q) == OpenedAt(p) && Last(q) == Last(p) + 1
            && ClosedLogs(q) == ClosedLogs(p) && OpenLog(q) == OpenLog(p) + [Record.Record(Last(p) + 1, [op])]
  {
    OneGroupIs(op, sync);
    OneMoreCommitted(p, OneGroup(op, sync), synced);
  }

  lemma {:induction false} OneMoreCommitted<T>(p: Past<T>, g: Group<T>, synced: set<Place>)
    requires Regular(p) && NothingLost(p) && SyncsKept(p, synced)
    requires g.updates == GroupUpdates(g.writers) && g.outcome.Committed? && g.logged
    requires AsksSync(g.writers) ==> NextPlace(p) in synced
    ensures var q := After(p, g);
            && Regular(q) && NothingLost(q) && SyncsKept(q, synced)
            && OpenedAt(q) == OpenedAt(p) && Last(q) == Last(p) + |g.updates|
            && ClosedLogs(q) == ClosedLogs(p) && OpenLog(q) == OpenLog(p) + [Record.Record(Last(p) + 1, g.updates)]
  {
  }

  lemma OneGroupIs(op: Op, sync: bool)
    ensures var g := OneGroup(op, sync);
            && g.updates == GroupUpdates(g.writers) && g.updates == [op] && g.outcome == Committed && g.logged
            && (AsksSync(g.writers) ==> sync)
  {
    var ws := OneGroup(op, sync).writers;
    assert UpdatesTo(ws, 0) == [] && UpdatesTo(ws, 1) == UpdatesTo(ws, 0) + UpdatesIn(ws[0]);
  }

  lemma TwoWritesArePast(a: Op, b: Op)
    ensures var p := TwoWrites(a, b);
            && Regular(p) && NothingLost(p) && OpenedAt(p) == 0 && SyncsKept(p, {Place(1, 0)})
            && ClosedLogs(p) == [[Record.Record(1, [a])]] && OpenLog(p) == [Record.Record(2, [b])]
  {
    var p := TwoWrites(a, b);
    var start, first := p.before.before.before, p.before.before;
    assert Regular(start) && NothingLost(start) && SyncsKept(start, {Place(1, 0)}) && Last(start) == 0;
    OneWriteMore(start, a, false, {Place(1, 0)});
    assert OpenLog(first) == [Record.Record(1, [a])] && ClosedLogs(first) == [];
    OneWriteMore(p.before, b, true, {Place(1, 0)});
  }

  lemma {:induction false} TwoWritesOvertake(a: Op, b: Op, ks: seq<nat>, least: nat)
    requires |ks| == 2 && ks[0] == 0 && ks[1] == 1
    ensures Surviving(TwoWrites(a, b), ks, least) == Recovered([Numbered(2, b)], Raised(least, 2))
    ensures Overtaken(TwoWrites(a, b), ks, false)
  {
    TwoWritesArePast(a, b);
    var p := TwoWrites(a, b);
    var first := p.before.before;
    assert Surviving(first.before, ks, least) == Recovered([], least) && NextPlace(first.before) == Place(0, 0);
    assert Last(p.before) == 1;
    assert Surviving(first, ks, least) == Recovered([], least) && Holed(first, ks);
    assert NextPlace(p.before) == Place(1, 0);
    assert Surviving(p.before, ks, least) == Surviving(first, ks, least) && Number(2, [b]) == [Numbered(2, b)];
  }

  lemma {:induction false} NothingAndEverything(sum: Checksum, logs: seq<seq<Record<Op>>>, files: seq<Bytes>)
    requires |logs| == 2 && files == [[], FileOf(sum, logs[1])]
    ensures KeptCounts(sum, logs, files) == [0, |logs[1]|] && IsCut(sum, logs, files)
  {
    assert LogTheorems.Whole(sum, 0, Reps(logs[0]), 0) == 0;
    LogTheorems.AllWhole(sum, 0, Reps(logs[1]));
  }

  lemma {:induction false} SecondIsSynced(sum: Checksum, p: Past<Op>, files: seq<Bytes>)
    requires |ClosedLogs(p)| == 1 && |OpenLog(p)| == 1 && files == [[], FileOf(sum, OpenLog(p))]
    ensures SyncedBytesLeft(sum, p, {Place(1, 0)}, files)
  {
    assert Reps(OpenLog(p))[..1] == Reps(OpenLog(p));
  }

  lemma {:induction false} TwoWritesFit(a: Op, b: Op)
    requires FitsOp(a) && FitsOp(b)
    ensures AllFit([[Record.Record(1, [a])], [Record.Record(2, [b])]])
  {
  }

  /** An unsynced write to the first log, a switch, a synced write to the second.  If the
      crash loses the first log's bytes, the second write comes back without the first. */
  lemma {:induction false} OvertakingExample(sum: Checksum, a: Op, b: Op, p: Past<Op>, files: seq<Bytes>, least: nat)
    requires FitsOp(a) && FitsOp(b) && p == TwoWrites(a, b)
    requires files == [[], FileOf(sum, [Record.Record(2, [b])])]
    ensures Regular(p) && NothingLost(p) && SyncsKept(p, {Place(1, 0)}) && AllFit(LogsOf(p))
    ensures IsCut(sum, LogsOf(p), files) && SyncedBytesLeft(sum, p, {Place(1, 0)}, files)
    ensures RecoveredLogs(sum, files, least).entries == [Numbered(2, b)]
    ensures !AreEarlier(RecoveredLogs(sum, files, least).entries, p)
  {
    TwoWritesArePast(a, b);
    TwoWritesFit(a, b);
    assert LogsOf(p) == [[Record.Record(1, [a])], [Record.Record(2, [b])]];
    var ks := KeptCounts(sum, LogsOf(p), files);
    NothingAndEverything(sum, LogsOf(p), files);
    SecondIsSynced(sum, p, files);
    TwoWritesOvertake(a, b, ks, least);
    CrashRecovers(sum, p, files, ks, least);
    EntriesAreEarlierIff(p, ks, least);
  }

  function OneUnsynced(a: Op): Past<Op> {
    After(Opened(0), OneGroup(a, false))
  }

  lemma OneUnsyncedIsPast(a: Op)
    requires FitsOp(a)
    ensures var p := OneUnsynced(a);
            && Regular(p) && NothingLost(p) && OpenedAt(p) == 0 && Last(p) == 1
            && LogsOf(p) == [[Record.Record(1, [a])]] && AllFit(LogsOf(p))
  {
    var start: Past<Op> := Opened(0);
    assert Regular(start) && NothingLost(start) && SyncsKept(start, {}) && Last(start) == 0;
    OneWriteMore(start, a, false, {});
    assert OpenLog(start) == [] && ClosedLogs(start) == [] && OpenLog(OneUnsynced(a)) == [Record.Record(1, [a])];
    assert LogsOf(OneUnsynced(a)) == [[Record.Record(1, [a])]];
  }

  /** An unsynced write, then an edit that logs its number in the manifest.  If the crash
      loses the write, the empty store comes back, but under the number of the full one. */
  lemma {:induction false} StoredNumberExample(sum: Checksum, a: Op, p: Past<Op>)
    requires FitsOp(a) && p == OneUnsynced(a)
    ensures Regular(p) && NothingLost(p) && AllFit(LogsOf(p)) && IsCut(sum, LogsOf(p), [[]])
    ensures RecoveredLogs(sum, [[]], 1) == Recovered([], 1) && AreEarlier<Op>([], p)
    ensures !IsEarlier(RecoveredLogs(sum, [[]], 1), p)
  {
    OneUnsyncedIsPast(a);
    var ks := KeptCounts(sum, LogsOf(p), [[]]);
    assert LogTheorems.Whole(sum, 0, Reps(LogsOf(p)[0]), 0) == 0;
    assert ks == [0];
    assert Surviving(p.before, ks, 1) == Recovered([], 1);
    assert NextPlace(p.before) == Place(0, 0) && !Kept(NextPlace(p.before), ks);
    CrashRecovers(sum, p, [[]], ks, 1);
    EntriesAreEarlierIff(p, ks, 1);
    StoreIsEarlierIff(p, ks, 1);
  }

  // A failed append that leaves a part of its record

  /** In a file that is all one block, a header that asks for more than there is ends it. */
  lemma {:induction false} LongHeaderEnds(sum: Checksum, file: Bytes)
    requires HeaderSize <= |file| < BlockSize && HeaderSize + Length(file) > |file|
    ensures ReadAll(sum, Open(file)) == AllRead([], 0)
  {
    var loaded := State(file, [], true);
    assert file[..|file|] == file && file[|file|..] == [];
    assert ReadPiece(sum, loaded) == PieceRead(Eof, loaded.(buffer := []), 0);
    assert ReadPiece(sum, Open(file)) == ReadPiece(sum, loaded);
    assert ReadOne(sum, Open(file), []).record == [] && ReadOne(sum, Open(file), []).reports == 0;
  }

  lemma {:induction false} TornRecordEnds(sum: Checksum, torn: Bytes, j: nat, more: Bytes)
    requires HeaderSize <= j && |torn| <= BlockSize - HeaderSize && j + |more| < HeaderSize + |torn|
    ensures ReadAll(sum, Open(Physical(sum, FullType, torn)[..j] + more)) == AllRead([], 0)
  {
    var whole := Physical(sum, FullType, torn);
    HeaderParsesAlone(sum, torn);
    var file := whole[..j] + more;
    assert file[4] == whole[4] && file[5] == whole[5];
    LongHeaderEnds(sum, file);
  }

  lemma {:induction false} HeaderParsesAlone(sum: Checksum, payload: Bytes)
    requires |payload| <= BlockSize - HeaderSize
    ensures Length(Physical(sum, FullType, payload)) == |payload|
  {
    LogTheorems.HeaderParses(sum, FullType, payload, []);
    assert Physical(sum, FullType, payload) + [] == Physical(sum, FullType, payload);
  }

  /** A write whose append fails part of the way, and a synced write behind it. */
  function TornThenSynced(a: Op, b: Op): Past<Op> {
    After(After(Opened(0), Group([OneWrite(a, false)], [a], Lost, false)), OneGroup(b, true))
  }

  lemma {:induction false} TornThenSyncedIsPast(a: Op, b: Op)
    ensures var p := TornThenSynced(a, b);
            && Regular(p) && SyncsKept(p, {Place(0, 0)}) && LogsOf(p) == [[Record.Record(2, [b])]]
            && AsksSync(p.group.writers) && Last(p.before) == 1
  {
    var p := TornThenSynced(a, b);
    OneGroupIs(a, false);
    OneGroupIs(b, true);
    assert OneWrite(a, false) == OneGroup(a, false).writers[0];
    var start, torn := p.before.before, p.before;
    assert Regular(start) && SyncsKept(start, {Place(0, 0)}) && ClosedLogs(start) == [] && OpenLog(start) == [];
    assert Regular(torn) && SyncsKept(torn, {Place(0, 0)}) && ClosedLogs(torn) == [] && OpenLog(torn) == [];
    assert Last(start) == 0 && Last(torn) == 1 && NextPlace(torn) == Place(0, 0);
    assert ClosedLogs(p) == [] && OpenLog(p) == [] + [Record.Record(2, [b])];
    assert OpenLog(p) == [Record.Record(2, [b])];
    assert p.group.writers[0].sync && p.group.writers[0].batch.Some?;
  }

  /** Whatever was synced behind a part of a record can be out of reach: the part's header
      takes it for the rest of its record.  So an acknowledged sync write gets lost although
      every byte of it is on disk. */
  lemma {:induction false} TornRecordExample(sum: Checksum, a: Op, b: Op, j: nat, file: Bytes)
    requires HeaderSize <= j && |Rep(1, [a])| <= BlockSize - HeaderSize
    requires j + |Rep(2, [b])| < |Rep(1, [a])|
    requires file == Physical(sum, FullType, Rep(1, [a]))[..j] + Physical(sum, FullType, Rep(2, [b]))
    ensures var p := TornThenSynced(a, b);
            Regular(p) && SyncsKept(p, {Place(0, 0)}) && !AckedIn(p, RecoveredLogs(sum, [file], 0).entries)
  {
    var p := TornThenSynced(a, b);
    TornThenSyncedIsPast(a, b);
    TornRecordEnds(sum, Rep(1, [a]), j, Physical(sum, FullType, Rep(2, [b])));
    assert ReadFiles(sum, [file], 0) == [] && ReadFiles(sum, [file], 1) == [] + [];
    assert RecoveredLogs(sum, [file], 0).entries == [];
    assert Number(2, [b])[0] in Number(2, [b]);
  }
}
