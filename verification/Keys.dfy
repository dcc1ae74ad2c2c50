/** User keys, internal keys and entries (db/dbformat.h, db/dbformat.cc).

    The engine looks at a user key only through the user comparator, a strict
    total order on byte strings.  Byte strings are countable, so every such
    order embeds in the reals, and a user key is modelled by its position in
    that order.  Module `Bytewise` gives the embedding for the comparator the
    repository ships.
 */
module Keys {
  import opened Bytes

  type UserKey = real

  type Value = seq<byte>

  datatype Option<+T> = None | Some(value: T)

  /** kTypeDeletion = 0 and kTypeValue = 1. */
  datatype Kind = Deletion | Put

  /** kMaxSequenceNumber: eight bits of the packed word are left for the kind. */
  const MaxSequence: nat := 0xff_ffff_ffff_ffff

  type SequenceNumber = s: int | 0 <= s <= MaxSequence

  datatype IKey = IKey(user: UserKey, sequence: SequenceNumber, kind: Kind)

  datatype Entry = Entry(key: IKey, value: Value)

  /** config::kNumLevels. */
  const NumLevels: nat := 7

  /** PackSequenceAndType: the low eight bits hold the kind. */
  function Tag(k: IKey): nat {
    256 * k.sequence + (if k.kind.Put? then 1 else 0)
  }

  /** InternalKeyComparator::Compare(a, b) < 0: user key up, then tag down. */
  predicate Less(a: IKey, b: IKey) {
    a.user < b.user || (a.user == b.user && Tag(a) > Tag(b))
  }

  /** The key a reader seeks to: the newest entry of `user` at or below `snapshot`. */
  function LookupKey(user: UserKey, snapshot: SequenceNumber): IKey {
    IKey(user, snapshot, Put)
  }

  predicate Sorted(es: seq<Entry>) {
    forall i, j :: 0 <= i < j < |es| ==> Less(es[i].key, es[j].key)
  }

  /** Entry `e` belongs to `user` and is visible at `snapshot`. */
  predicate Visible(e: Entry, user: UserKey, snapshot: SequenceNumber) {
    e.key.user == user && e.key.sequence <= snapshot
  }

  /** `e` is the newest entry of `es` for `user` that is visible at `snapshot`. */
  ghost predicate IsNewest(es: set<Entry>, user: UserKey, snapshot: SequenceNumber, e: Entry) {
    && e in es
    && Visible(e, user, snapshot)
    && forall x :: x in es && Visible(x, user, snapshot) ==> Tag(x.key) <= Tag(e.key)
  }

  /** What a reader must be told: the newest visible entry of a set, in whatever
      file or table it is stored. */
  ghost predicate Finds(es: set<Entry>, user: UserKey, snapshot: SequenceNumber, r: Option<Entry>) {
    match r
    case Some(e) => IsNewest(es, user, snapshot, e)
    case None => forall x :: x in es ==> !Visible(x, user, snapshot)
  }

  /** The value a found entry stands for; a deletion marker stands for absence. */
  function Meaning(r: Option<Entry>): Option<Value> {
    match r
    case Some(e) => if e.key.kind.Put? then Some(e.value) else None
    case None => None
  }

  /** No two entries of `es` share an internal key. */
  ghost predicate DistinctKeys(es: set<Entry>) {
    forall x, y :: x in es && y in es && x.key == y.key ==> x == y
  }

  lemma FindsIsFunctional(es: set<Entry>, user: UserKey, snapshot: SequenceNumber, r: Option<Entry>, r': Option<Entry>)
    requires DistinctKeys(es)
    requires Finds(es, user, snapshot, r) && Finds(es, user, snapshot, r')
    ensures r == r'
  {
    if r.Some? && r'.Some? {
      assert Tag(r.value.key) == Tag(r'.value.key);
      assert r.value.key == r'.value.key;
    }
  }

  lemma {:induction false} FindsExists(es: set<Entry>, user: UserKey, snapshot: SequenceNumber)
    returns (r: Option<Entry>)
    ensures Finds(es, user, snapshot, r)
    decreases |es|
  {
    if es == {} {
      r := None;
    } else {
      var x :| x in es;
      r := FindsExists(es - {x}, user, snapshot);
      if Visible(x, user, snapshot) && (r.None? || Tag(r.value.key) <= Tag(x.key)) {
        r := Some(x);
      }
    }
  }

  /** The position of the first entry at or after `target`, as Iterator::Seek defines it. */
  function SeekIndex(es: seq<Entry>, target: IKey): (i: nat)
    requires Sorted(es)
    ensures i <= |es|
    ensures forall j :: 0 <= j < i ==> Less(es[j].key, target)
    ensures forall j :: i <= j < |es| ==> !Less(es[j].key, target)
  {
    if es == [] || !Less(es[0].key, target) then 0
    else 1 + SeekIndex(es[1..], target)
  }

  /** MemTable::Get and the SaveValue callback: seek, then check only the user key. */
  function PointLookup(es: seq<Entry>, user: UserKey, snapshot: SequenceNumber): Option<Entry>
    requires Sorted(es)
  {
    var i := SeekIndex(es, LookupKey(user, snapshot));
    if i < |es| && es[i].key.user == user then Some(es[i]) else None
  }

  ghost function EntriesOf(es: seq<Entry>): set<Entry> {
    set e | e in es
  }

  /** Seeking and comparing only the user key finds exactly the newest visible entry. */
  lemma PointLookupFinds(es: seq<Entry>, user: UserKey, snapshot: SequenceNumber)
    requires Sorted(es)
    ensures Finds(EntriesOf(es), user, snapshot, PointLookup(es, user, snapshot))
  {
    var i := SeekIndex(es, LookupKey(user, snapshot));
    forall x | x in es && Visible(x, user, snapshot)
      ensures i < |es| && es[i].key.user == user && Tag(x.key) <= Tag(es[i].key)
    {
      var j :| 0 <= j < |es| && es[j] == x;
      assert !Less(x.key, LookupKey(user, snapshot));
      assert i <= j;
      assert i == j || Less(es[i].key, x.key);
    }
  }
}
