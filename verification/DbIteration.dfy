/** The database iterator (db/db_iter.cc): from versioned entries to user keys and values. */
module DbIteration {
  import opened Keys
  import opened Merging

  /** Entry `i` is what a reader at `snapshot` sees of its user key: the newest visible
      entry of that key, and not a deletion. */
  ghost predicate Shown(es: seq<Entry>, snapshot: SequenceNumber, i: int)
    requires 0 <= i < |es|
  {
    && es[i].key.kind.Put?
    && es[i].key.sequence <= snapshot
    && forall j :: 0 <= j < i && es[j].key.user == es[i].key.user ==> es[j].key.sequence > snapshot
  }

  /** The sorted map of user keys a reader at `snapshot` sees in the first `n` entries. */
  ghost function View(es: seq<Entry>, snapshot: SequenceNumber, n: nat): seq<Entry>
    requires n <= |es|
  {
    if n == 0 then []
    else View(es, snapshot, n - 1) + (if Shown(es, snapshot, n - 1) then [es[n - 1]] else [])
  }

  ghost predicate NoneShown(es: seq<Entry>, snapshot: SequenceNumber, from: int, to: int)
    requires 0 <= from && to <= |es|
  {
    forall i :: from <= i < to ==> !Shown(es, snapshot, i)
  }

  lemma {:induction false} ViewSkips(es: seq<Entry>, snapshot: SequenceNumber, from: nat, to: nat)
    requires from <= to <= |es| && NoneShown(es, snapshot, from, to)
    ensures View(es, snapshot, from) == View(es, snapshot, to)
  {
    if from < to {
      ViewSkips(es, snapshot, from, to - 1);
    }
  }

  /** Passing one shown entry, and then none, is one step in the view. */
  lemma {:induction false} ViewSteps(es: seq<Entry>, snapshot: SequenceNumber, i: nat, n: nat)
    requires i < n <= |es| && Shown(es, snapshot, i) && NoneShown(es, snapshot, i + 1, n)
    ensures |View(es, snapshot, n)| == |View(es, snapshot, i)| + 1
  {
    ViewSkips(es, snapshot, i + 1, n);
  }

  lemma {:induction false} ViewGrows(es: seq<Entry>, snapshot: SequenceNumber, i: nat, n: nat)
    requires i < n <= |es| && Shown(es, snapshot, i)
    ensures |View(es, snapshot, i)| < |View(es, snapshot, n)|
    ensures View(es, snapshot, n)[|View(es, snapshot, i)|] == es[i]
    ensures View(es, snapshot, i + 1) <= View(es, snapshot, n)
  {
    if i < n - 1 {
      ViewGrows(es, snapshot, i, n - 1);
    }
  }

  ghost predicate IsShownBefore(es: seq<Entry>, snapshot: SequenceNumber, n: nat, e: Entry)
    requires n <= |es|
  {
    exists i :: 0 <= i < n && es[i] == e && Shown(es, snapshot, i)
  }

  /** The view is the map it should be: strictly ordered by user key, and holding exactly
      the keys whose newest visible entry is a value. */
  lemma {:induction false} ViewIsTheMap(es: seq<Entry>, snapshot: SequenceNumber, n: nat)
    requires Sorted(es) && n <= |es|
    ensures forall a, b ::
             0 <= a < b < |View(es, snapshot, n)| ==>
             View(es, snapshot, n)[a].key.user < View(es, snapshot, n)[b].key.user
    ensures forall e: Entry :: e in View(es, snapshot, n) <==> IsShownBefore(es, snapshot, n, e)
  {
    if n > 0 {
      ViewIsTheMap(es, snapshot, n - 1);
      if Shown(es, snapshot, n - 1) {
        var before := View(es, snapshot, n - 1);
        forall a | 0 <= a < |before|
          ensures before[a].key.user < es[n - 1].key.user
        {
          assert before[a] in before;
          var i :| 0 <= i < n - 1 && es[i] == before[a] && Shown(es, snapshot, i);
          assert Less(es[i].key, es[n - 1].key);
        }
      }
    }
  }

  lemma {:induction false} ViewIsMonotone(es: seq<Entry>, snapshot: SequenceNumber, m: nat, n: nat)
    requires m <= n <= |es|
    ensures |View(es, snapshot, m)| <= |View(es, snapshot, n)|
  {
    if m < n {
      ViewIsMonotone(es, snapshot, m, n - 1);
    }
  }

  /** From `at` on the shown entries are at or after `target`, and before it they are not. */
  ghost predicate ShownFrom(es: seq<Entry>, snapshot: SequenceNumber, target: UserKey, at: nat)
    requires at <= |es|
  {
    forall i :: 0 <= i < |es| && Shown(es, snapshot, i) ==> (es[i].key.user >= target <==> i >= at)
  }

  lemma ShownFromLater(es: seq<Entry>, snapshot: SequenceNumber, target: UserKey, from: nat, at: nat)
    requires from <= at <= |es| && ShownFrom(es, snapshot, target, from) && NoneShown(es, snapshot, from, at)
    ensures ShownFrom(es, snapshot, target, at)
  {
  }

  /** A position in the entries that separates the shown entries before `target` from those
      at or after it separates the keys of the view in the same way. */
  lemma {:induction false} SeekInView(es: seq<Entry>, snapshot: SequenceNumber, target: UserKey, at: nat, a: nat)
    requires Sorted(es) && at <= |es| && a < |View(es, snapshot, |es|)| && ShownFrom(es, snapshot, target, at)
    ensures View(es, snapshot, |es|)[a].key.user >= target <==> a >= |View(es, snapshot, at)|
  {
    var all := View(es, snapshot, |es|);
    ViewIsTheMap(es, snapshot, |es|);
    assert all[a] in all;
    var i :| 0 <= i < |es| && es[i] == all[a] && Shown(es, snapshot, i);
    ViewGrows(es, snapshot, i, |es|);
    assert a == |View(es, snapshot, i)|;
    if i < at {
      ViewGrows(es, snapshot, i, at);
    } else {
      ViewIsMonotone(es, snapshot, at, i);
    }
  }

  lemma {:induction false} ViewAgreesWithLookup(es: seq<Entry>, snapshot: SequenceNumber, user: UserKey, value: Value)
    requires Sorted(es)
    ensures (exists e :: e in View(es, snapshot, |es|) && e.key.user == user && e.value == value)
            <==> Meaning(PointLookup(es, user, snapshot)) == Some(value)
  {
    ViewIsTheMap(es, snapshot, |es|);
    var i := SeekIndex(es, LookupKey(user, snapshot));
    if e :| e in View(es, snapshot, |es|) && e.key.user == user && e.value == value {
      var k :| 0 <= k < |es| && es[k] == e && Shown(es, snapshot, k);
      assert i <= k;
    }
    if i < |es| && es[i].key.user == user && es[i].key.kind.Put? {
      assert Shown(es, snapshot, i);
      assert es[i] in View(es, snapshot, |es|);
    }
  }

  /** `p` is before all entries of the user key of entry `at`, and nothing visible lies between. */
  ghost predicate BeforeKey(es: seq<Entry>, snapshot: SequenceNumber, p: int, at: nat)
    requires -1 <= p && at < |es|
  {
    && p < at
    && (p >= 0 ==> es[p].key.user < es[at].key.user)
    && forall i :: p < i < at ==> es[i].key.sequence > snapshot
  }

  /** Where FindNextUserEntry stands: nothing shown in [from, p), and every later entry is
      hidden by an earlier one exactly when `skip` says so. */
  ghost predicate Skipping(es: seq<Entry>, snapshot: SequenceNumber, from: nat, p: nat, skip: Option<UserKey>)
    requires from <= |es| && p <= |es|
  {
    && NoneShown(es, snapshot, from, p)
    && (p < from ==> skip.Some? && es[from - 1].key.user <= skip.value && es[from - 1].key.kind.Put?
                     && forall i :: p <= i < from - 1 ==> es[i].key.sequence > snapshot)
    && (skip.Some? ==> forall i ::
                        p <= i < |es| && from <= i && es[i].key.user <= skip.value ==>
                        !Shown(es, snapshot, i))
    && (forall i, j :: 0 <= j < p <= i < |es| && Visible(es[j], es[i].key.user, snapshot) ==>
                         skip.Some? && es[i].key.user <= skip.value)
  }

  /** Where FindPrevUserEntry stands: `m` is the last value it saved, when there is one. */
  ghost predicate Saving(es: seq<Entry>, snapshot: SequenceNumber, p: int, last: int, m: Option<nat>)
    requires -1 <= p <= last < |es|
  {
    match m
    case None => NoneShown(es, snapshot, p + 1, last + 1)
    case Some(m) =>
      && p < m <= last
      && es[m].key.kind.Put? && es[m].key.sequence <= snapshot
      && (forall i :: p < i < m ==> es[i].key.sequence > snapshot)
      && NoneShown(es, snapshot, m + 1, last + 1)
  }

  /** What the scan remembers of entry `m`. */
  ghost predicate Saved(es: seq<Entry>, m: Option<nat>, valueType: Kind, key: Option<UserKey>, value: Value) {
    match m
    case None => valueType.Deletion? && key.None?
    case Some(m) => m < |es| && valueType.Put? && key == Some(es[m].key.user) && value == es[m].value
  }

  /** One step back of the scan that saves values. */
  function SaveStep(e: Entry, snapshot: SequenceNumber, p: nat, m: Option<nat>): Option<nat> {
    if e.key.sequence > snapshot then m else if e.key.kind.Deletion? then None else Some(p)
  }

  lemma SavingBack(es: seq<Entry>, snapshot: SequenceNumber, p: nat, last: int, m: Option<nat>)
    requires Sorted(es) && p <= last < |es| && Saving(es, snapshot, p, last, m)
    requires !StopsSaving(es, snapshot, p, m)
    ensures Saving(es, snapshot, p - 1, last, SaveStep(es[p], snapshot, p, m))
  {
    assert m.Some? ==> p < m.value && Less(es[p].key, es[m.value].key);
  }

  /** A visible entry of an earlier user key ends the scan once a value is saved. */
  predicate StopsSaving(es: seq<Entry>, snapshot: SequenceNumber, p: nat, m: Option<nat>)
    requires p < |es| && (m.Some? ==> m.value < |es|)
  {
    m.Some? && es[p].key.sequence <= snapshot && es[p].key.user < es[m.value].key.user
  }

  lemma SavedIsShown(es: seq<Entry>, snapshot: SequenceNumber, p: int, last: int, m: nat)
    requires Sorted(es) && -1 <= p <= last < |es| && Saving(es, snapshot, p, last, Some(m))
    requires p >= 0 ==> es[p].key.user < es[m].key.user
    ensures Shown(es, snapshot, m) && BeforeKey(es, snapshot, p, m)
  {
    forall j | 0 <= j < p
      ensures es[j].key.user <= es[p].key.user
    {
      assert Less(es[j].key, es[p].key);
    }
  }

  /** The scan stands before entry `p` of the entries down from `last`, and remembers `m`. */
  ghost predicate SavingAt(es: seq<Entry>, snapshot: SequenceNumber, p: int, last: int, m: Option<nat>,
                           valueType: Kind, key: Option<UserKey>, value: Value) {
    && -1 <= p <= last < |es| && Saving(es, snapshot, p, last, m)
    && Saved(es, m, valueType, key, value)
  }

  /** What each kind of entry makes the scan remember. */
  lemma SavesOn(es: seq<Entry>, snapshot: SequenceNumber, p: nat, p': int, last: int, m: Option<nat>, m': Option<nat>,
                valueType: Kind, key: Option<UserKey>, value: Value)
    requires Sorted(es) && SavingAt(es, snapshot, p, last, m, valueType, key, value)
    requires p' == p - 1 && !StopsSaving(es, snapshot, p, m) && m' == SaveStep(es[p], snapshot, p, m)
    ensures es[p].key.sequence > snapshot ==> SavingAt(es, snapshot, p', last, m', valueType, key, value)
    ensures es[p].key.sequence <= snapshot && es[p].key.kind.Deletion? ==>
              SavingAt(es, snapshot, p', last, m', Deletion, None, [])
    ensures es[p].key.sequence <= snapshot && es[p].key.kind.Put? ==>
              SavingAt(es, snapshot, p', last, m', Put, Some(es[p].key.user), es[p].value)
  {
    SavingBack(es, snapshot, p, last, m);
  }

  /** A visible value that `skip` does not cover ends the forward scan. */
  predicate Stops(e: Entry, snapshot: SequenceNumber, skip: Option<UserKey>) {
    e.key.sequence <= snapshot && e.key.kind.Put? && !(skip.Some? && e.key.user <= skip.value)
  }

  function NextSkip(e: Entry, snapshot: SequenceNumber, skip: Option<UserKey>): Option<UserKey> {
    if e.key.sequence <= snapshot && e.key.kind.Deletion? then Some(e.key.user) else skip
  }

  lemma SkippingOn(es: seq<Entry>, snapshot: SequenceNumber, from: nat, p: nat, skip: Option<UserKey>)
    requires Sorted(es) && from <= |es| && p < |es| && Skipping(es, snapshot, from, p, skip)
    requires !Stops(es[p], snapshot, skip)
    ensures Skipping(es, snapshot, from, p + 1, NextSkip(es[p], snapshot, skip))
  {
    var skip' := NextSkip(es[p], snapshot, skip);
    forall i | p < i < |es|
      ensures es[p].key.user <= es[i].key.user
    {
      assert Less(es[p].key, es[i].key);
    }
    forall i, j | 0 <= j < p + 1 <= i < |es| && Visible(es[j], es[i].key.user, snapshot)
      ensures skip'.Some? && es[i].key.user <= skip'.value
    {
      assert j < p ==> Less(es[j].key, es[p].key);
    }
  }

  lemma StopIsShown(es: seq<Entry>, snapshot: SequenceNumber, from: nat, p: nat, skip: Option<UserKey>)
    requires from <= |es| && p < |es| && Skipping(es, snapshot, from, p, skip) && Stops(es[p], snapshot, skip)
    ensures from <= p && Shown(es, snapshot, p) && NoneShown(es, snapshot, from, p)
  {
  }

  /** The entries in [from, to) are all too new to be seen. */
  ghost predicate NewerBetween(es: seq<Entry>, snapshot: SequenceNumber, from: nat, to: nat)
    requires to <= |es|
  {
    forall i :: from <= i < to ==> es[i].key.sequence > snapshot
  }

  /** What stands before a shown entry of the same user key is too new. */
  lemma OneNewer(es: seq<Entry>, snapshot: SequenceNumber, p: nat, i: nat, at: nat)
    requires Sorted(es) && p + 1 == i <= at < |es| && NewerBetween(es, snapshot, i, at)
    requires Shown(es, snapshot, at) && es[p].key.user >= es[at].key.user
    ensures NewerBetween(es, snapshot, p, at)
  {
    assert Less(es[p].key, es[at].key);
  }

  /** Seeking the lookup key: the scan starts at the target's user key. */
  lemma {:induction false} SeekStarts(es: seq<Entry>, snapshot: SequenceNumber, target: UserKey, from: nat)
    requires Sorted(es) && from == SeekIndex(es, LookupKey(target, snapshot))
    ensures Skipping(es, snapshot, from, from, None) && ShownFrom(es, snapshot, target, from)
    ensures from == |es| ==> NoneShown(es, snapshot, from, |es|)
  {
    assert forall i, j ::
            0 <= j < from <= i < |es| && Visible(es[j], es[i].key.user, snapshot) ==>
            es[j].key.user < target;
  }

  class DBIter {
    const iter: MergingIterator
    const sequence: SequenceNumber
    var savedKey: Option<UserKey>
    var savedValue: Value
    var direction: Direction
    var valid: bool
    /** The entry the iterator stands for, as an index into the merged entries. */
    ghost var at: nat

    ghost function Entries(): seq<Entry> {
      iter.merged
    }

    ghost function Footprint(): set<object> {
      {this} + iter.Repr()
    }

    ghost predicate Valid()
      reads Footprint()
    {
      && this !in iter.Repr()
      && iter.Valid()
      && at <= |Entries()|
      && (valid <==> at < |Entries()|)
      && (valid ==> Shown(Entries(), sequence, at))
      && (valid && direction.Forward? ==> iter.index == at)
      && (valid && direction.Reverse? ==>
            && savedKey == Some(Entries()[at].key.user)
            && savedValue == Entries()[at].value
            && BeforeKey(Entries(), sequence, if iter.index == |Entries()| then -1 else iter.index, at))
    }

    /** The position in the sorted map of visible user keys; its size when not valid. */
    ghost function Index(): nat
      requires Valid()
      reads Footprint()
    {
      |View(Entries(), sequence, at)|
    }

    function Key(): UserKey
      requires Valid() && valid
      reads Footprint()
      ensures Key() == Entries()[at].key.user
    {
      if direction.Forward? then iter.Current().key.user else savedKey.value
    }

    function GetValue(): Value
      requires Valid() && valid
      reads Footprint()
      ensures GetValue() == Entries()[at].value
    {
      if direction.Forward? then iter.Current().value else savedValue
    }

    /** What the iterator shows is the element of the view at its position. */
    lemma ShowsTheView()
      requires Valid()
      ensures var all := View(Entries(), sequence, |Entries()|);
              && (valid <==> Index() < |all|)
              && (valid ==> all[Index()].key.user == Key() && all[Index()].value == GetValue())
    {
      if valid {
        ViewGrows(Entries(), sequence, at, |Entries()|);
      }
    }

    constructor (it: MergingIterator, snapshot: SequenceNumber)
      requires it.Valid()
      ensures Valid() && iter == it && sequence == snapshot && !valid
    {
      iter, sequence := it, snapshot;
      savedKey, savedValue, direction, valid := None, [], Forward, false;
      at := |it.merged|;
    }

    method FindNextUserEntry(skip0: Option<UserKey>, ghost from: nat)
      requires this !in iter.Repr() && iter.Valid() && iter.index < |Entries()| && direction.Forward?
      requires from <= |Entries()| && Skipping(Entries(), sequence, from, iter.index, skip0)
      modifies Footprint()
      ensures Valid() && from <= at && NoneShown(Entries(), sequence, from, at)
    {
      var skip := skip0;
      ghost var es := Entries();
      while iter.IsValid()
        invariant iter.Valid() && direction.Forward?
        invariant Skipping(es, sequence, from, iter.index, skip)
        decreases |es| - iter.index
      {
        var e := iter.Current();
        if Stops(e, sequence, skip) {
          StopIsShown(es, sequence, from, iter.index, skip);
          valid, savedKey, at := true, None, iter.index;
          return;
        }
        SkippingOn(es, sequence, from, iter.index, skip);
        skip := NextSkip(e, sequence, skip);
        iter.Next();
      }
      savedKey, valid, at := None, false, |es|;
    }

    /** The loop of FindPrevUserEntry: what it saved, and where it stopped. */
    method SaveBack(ghost last: int)
      returns (valueType: Kind, key: Option<UserKey>, value: Value, ghost p: int, ghost m: Option<nat>)
      requires iter.Valid()
      requires -1 <= last < |Entries()| && iter.index == if last == -1 then |Entries()| else last
      modifies iter.Repr()
      ensures iter.Valid() && SavingAt(Entries(), sequence, p, last, m, valueType, key, value)
      ensures iter.index == if p == -1 then |Entries()| else p
      ensures p >= 0 ==> valueType.Put? && Entries()[p].key.user < key.value
    {
      valueType, key, value, p, m := Deletion, None, [], last, None;
      ghost var es := Entries();
      while iter.IsValid()
        invariant iter.Valid()
        invariant SavingAt(es, sequence, p, last, m, valueType, key, value)
        invariant iter.index == if p == -1 then |es| else p
        decreases p
      {
        var e := iter.Current();
        ghost var m' := SaveStep(e, sequence, p, m);
        if e.key.sequence <= sequence {
          if valueType.Put? && e.key.user < key.value {
            return;
          }
          SavesOn(es, sequence, p, p - 1, last, m, m', valueType, key, value);
          valueType := e.key.kind;
          if valueType.Deletion? {
            key, value := None, [];
          } else {
            key, value := Some(e.key.user), e.value;
          }
        } else {
          SavesOn(es, sequence, p, p - 1, last, m, m', valueType, key, value);
        }
        m, p := m', p - 1;
        iter.Prev();
      }
    }

    method FindPrevUserEntry(ghost last: int)
      requires this !in iter.Repr() && iter.Valid() && direction.Reverse?
      requires -1 <= last < |Entries()| && iter.index == if last == -1 then |Entries()| else last
      modifies Footprint()
      ensures Valid()
      ensures valid ==> at <= last && NoneShown(Entries(), sequence, at + 1, last + 1)
      ensures !valid ==> NoneShown(Entries(), sequence, 0, last + 1)
    {
      var valueType, key, value;
      ghost var p, m;
      valueType, key, value, p, m := SaveBack(last);
      savedKey, savedValue := key, value;
      if valueType.Deletion? {
        valid, direction, at := false, Forward, |Entries()|;
      } else {
        SavedIsShown(Entries(), sequence, p, last, m.value);
        valid, at := true, m.value;
      }
    }

    method Seek(target: UserKey)
      requires Valid()
      modifies Footprint()
      ensures Valid()
      ensures forall a :: 0 <= a < |View(Entries(), sequence, |Entries()|)| ==>
                            (View(Entries(), sequence, |Entries()|)[a].key.user >= target <==> a >= Index())
    {
      SeekEntry(target);
      forall a | 0 <= a < |View(Entries(), sequence, |Entries()|)|
        ensures View(Entries(), sequence, |Entries()|)[a].key.user >= target <==> a >= Index()
      {
        SeekInView(Entries(), sequence, target, at, a);
      }
    }

    method SeekEntry(target: UserKey)
      requires Valid()
      modifies Footprint()
      ensures Valid()
      ensures at <= |Entries()| && ShownFrom(Entries(), sequence, target, at)
    {
      ghost var es := Entries();
      direction, savedValue, savedKey := Forward, [], None;
      iter.Seek(LookupKey(target, sequence));
      ghost var from := iter.index;
      SeekStarts(es, sequence, target, from);
      if iter.IsValid() {
        FindNextUserEntry(None, from);
      } else {
        valid, at := false, |es|;
      }
      ShownFromLater(es, sequence, target, from, at);
    }

    method SeekToFirst()
      requires Valid()
      modifies Footprint()
      ensures Valid() && Index() == 0
      ensures !valid ==> View(Entries(), sequence, |Entries()|) == []
    {
      ghost var es := Entries();
      direction, savedValue := Forward, [];
      iter.SeekToFirst();
      if iter.IsValid() {
        FindNextUserEntry(None, 0);
      } else {
        valid, at := false, |es|;
      }
      ViewSkips(es, sequence, 0, at);
    }

    method SeekToLast()
      requires Valid()
      modifies Footprint()
      ensures Valid()
      ensures valid ==> Index() == |View(Entries(), sequence, |Entries()|)| - 1
      ensures !valid ==> View(Entries(), sequence, |Entries()|) == []
    {
      ghost var es := Entries();
      direction, savedValue := Reverse, [];
      iter.SeekToLast();
      FindPrevUserEntry(|es| - 1);
      if valid {
        ViewSteps(es, sequence, at, |es|);
      } else {
        ViewSkips(es, sequence, 0, |es|);
      }
    }

    method Next()
      requires Valid() && valid
      modifies Footprint()
      ensures Valid() && Index() == old(Index()) + 1
    {
      ghost var es := Entries();
      ghost var start := at;
      LeaveCurrentKey();
      FindNextUserEntry(savedKey, start + 1);
      ViewSteps(es, sequence, start, at);
    }

    /** The first half of Next: the key to skip is saved, and a reverse scan is turned. */
    method LeaveCurrentKey()
      requires Valid() && valid
      modifies Footprint()
      ensures iter.Valid() && direction.Forward? && iter.index <= at == old(at) < |Entries()|
      ensures Skipping(Entries(), sequence, at + 1, iter.index, savedKey)
    {
      ghost var es := Entries();
      if direction.Reverse? {
        direction := Forward;
        if !iter.IsValid() {
          iter.SeekToFirst();
        } else {
          iter.Next();
        }
      } else {
        savedKey := Some(iter.Current().key.user);
      }
      SkipCurrentKey(es, sequence, at, iter.index);
    }

    method Prev()
      requires Valid() && valid
      modifies Footprint()
      ensures Valid()
      ensures old(Index()) > 0 ==> valid && Index() == old(Index()) - 1
      ensures old(Index()) == 0 ==> !valid
    {
      ghost var es := Entries();
      ghost var start, last := at, if iter.index == |Entries()| then -1 else iter.index;
      if direction.Forward? {
        var found := ScanBackToPreviousKey();
        if !found {
          valid, savedKey, savedValue, at := false, None, [], |es|;
          ViewSkips(es, sequence, 0, start);
          return;
        }
        last := iter.index;
        direction := Reverse;
      }
      FindPrevUserEntry(last);
      if valid {
        ViewSteps(es, sequence, at, start);
      } else {
        ViewSkips(es, sequence, 0, start);
      }
    }

    /** The loop of Prev that leaves the entries of the current key. */
    method ScanBackToPreviousKey() returns (found: bool)
      requires Valid() && valid && direction.Forward?
      modifies iter.Repr(), this`savedKey
      ensures iter.Valid()
      ensures found ==> iter.index < at && BeforeKey(Entries(), sequence, iter.index, at)
      ensures !found ==> !iter.IsValid() && NewerBetween(Entries(), sequence, 0, at)
    {
      ghost var es := Entries();
      savedKey := Some(iter.Current().key.user);
      while true
        invariant iter.Valid() && iter.index <= at && savedKey == Some(es[at].key.user)
        invariant NewerBetween(es, sequence, iter.index, at)
        decreases iter.index
      {
        ghost var i := iter.index;
        iter.Prev();
        if !iter.IsValid() {
          return false;
        }
        if iter.Current().key.user < savedKey.value {
          return true;
        }
        OneNewer(es, sequence, iter.index, i, at);
      }
    }
  }

  /** Turning forward resumes the scan before the current key, which is then skipped. */
  lemma SkipCurrentKey(es: seq<Entry>, snapshot: SequenceNumber, at: nat, p: nat)
    requires Sorted(es) && p <= at < |es| && Shown(es, snapshot, at)
    requires forall i :: p <= i < at ==> es[i].key.sequence > snapshot
    ensures Skipping(es, snapshot, at + 1, p, Some(es[at].key.user))
  {
    forall i, j | 0 <= j < p <= i < |es| && Visible(es[j], es[i].key.user, snapshot)
      ensures es[i].key.user <= es[at].key.user
    {
      assert Less(es[j].key, es[at].key);
      assert at < i ==> Less(es[at].key, es[i].key);
    }
    forall i | at + 1 <= i < |es| && es[i].key.user <= es[at].key.user
      ensures !Shown(es, snapshot, i)
    {
      assert Less(es[at].key, es[i].key);
    }
  }
}
