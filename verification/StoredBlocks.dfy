/** Internal keys as bytes (db/dbformat.h, db/dbformat.cc), and a table's data block read
    from its bytes (table/block.cc). */
module StoredBlocks {
  import opened Bytes
  import opened Keys
  import opened Coding
  import opened Bytewise
  import opened BlockFormat
  import opened Blocks
  import opened Tables
  import Builders
  import VersionEdits

  /** AppendInternalKey: the user key, then the packed number and kind. */
  function EncodeKey(k: StoredKey): Bytes {
    k.user + EncodeFixed(8, Tag(Ranked(k)))
  }

  /** The packed number and kind at the end of an internal key. */
  function TagOf(b: Bytes): (n: nat)
    requires |b| >= 8
    ensures n < Two64
  {
    FixedBound(b[|b| - 8..]);
    DecodeFixed(b[|b| - 8..])
  }

  /** ParseInternalKey refuses what is too short or has a kind that does not exist. */
  function ParseKey(b: Bytes): Option<StoredKey> {
    if |b| < 8 || TagOf(b) % 256 > 1 then None
    else Some(StoredKey(b[..|b| - 8], TagOf(b) / 256, if TagOf(b) % 256 == 1 then Put else Deletion))
  }

  lemma {:induction false} FixedBound(s: Bytes)
    requires |s| == 8
    ensures DecodeFixed(s) < Two64
  {
    FixedBelow(s);
    assert Pow256(4) == Two32 && Pow256(8) == 0x1_0000_0000 * Pow256(4);
  }

  lemma {:induction false} TagRoundTrip(k: StoredKey)
    ensures |EncodeKey(k)| == |k.user| + 8 && EncodeKey(k)[..|k.user|] == k.user
    ensures TagOf(EncodeKey(k)) == Tag(Ranked(k))
  {
    var tag := Tag(Ranked(k));
    assert EncodeKey(k)[|k.user|..] == EncodeFixed(8, tag);
    FixedRoundTrip(8, tag);
  }

  lemma KeyRoundTrip(k: StoredKey)
    ensures ParseKey(EncodeKey(k)) == Some(k)
  {
    TagRoundTrip(k);
  }

  /** The internal key with its user key at its place in some order. */
  function Placed(rank: Rank, k: StoredKey): IKey {
    IKey(rank(k.user), k.sequence, k.kind)
  }

  /** The files of a level are ordered by their smallest keys as internal keys are, and only
      files with equivalent ones by their number. */
  lemma FilesGoByKey(rank: Rank, f: VersionEdits.Meta, g: VersionEdits.Meta, a: StoredKey, b: StoredKey)
    requires f.smallest == EncodeKey(a) && g.smallest == EncodeKey(b)
    ensures Builders.FileLess(rank, f, g)
            <==> Less(Placed(rank, a), Placed(rank, b))
                 || (!Less(Placed(rank, b), Placed(rank, a)) && f.number < g.number)
  {
    TagRoundTrip(a);
    TagRoundTrip(b);
  }

  // The order of encoded keys

  /** The position of a user key with a fraction below every continuation of it. */
  function Under(user: Bytes, x: real): real {
    if user == [] then x else (user[0] as real + 1.0 + Under(user[1..], x)) / 257.0
  }

  predicate IsFraction(x: real) {
    0.0 <= x < 1.0 / 257.0
  }

  lemma {:induction false} UnderBounds(user: Bytes, x: real)
    requires IsFraction(x)
    ensures 0.0 <= Under(user, x) < 1.0
    ensures user != [] ==> Under(user, x) >= 1.0 / 257.0
  {
    if user != [] {
      UnderBounds(user[1..], x);
    }
  }

  lemma {:induction false} UnderIsOrder(a: Bytes, x: real, b: Bytes, y: real)
    requires IsFraction(x) && IsFraction(y)
    ensures Under(a, x) < Under(b, y) <==> Position(a) < Position(b) || (a == b && x < y)
  {
    UnderBounds(a, x);
    UnderBounds(b, y);
    if a != [] && b != [] {
      UnderBounds(a[1..], x);
      UnderBounds(b[1..], y);
      if a[0] == b[0] {
        UnderIsOrder(a[1..], x, b[1..], y);
        assert a == [a[0]] + a[1..] && b == [b[0]] + b[1..];
      } else {
        var u, v := Position(a[1..]), Position(b[1..]);
        var p, q := Under(a[1..], x), Under(b[1..], y);
        assert a[0] < b[0] ==> a[0] as real + 1.0 + u < b[0] as real + 1.0 + v;
        assert b[0] < a[0] ==> b[0] as real + 1.0 + v < a[0] as real + 1.0 + u;
        assert a[0] < b[0] ==> a[0] as real + 1.0 + p < b[0] as real + 1.0 + q;
        assert b[0] < a[0] ==> b[0] as real + 1.0 + q < a[0] as real + 1.0 + p;
      }
    }
  }

  /** The larger the tag, the smaller the fraction. */
  function Fraction(tag: nat): (x: real)
    requires tag < Two64
    ensures IsFraction(x)
  {
    (Two64 - 1 - tag) as real / (257.0 * Two64 as real)
  }

  lemma FractionFalls(s: nat, t: nat)
    requires s < Two64 && t < Two64
    ensures Fraction(s) < Fraction(t) <==> s > t
  {
  }

  /** InternalKeyComparator on encoded keys; it is given none that is shorter than a tag. */
  function RankOf(b: Bytes): real {
    if |b| < 8 then 0.0 else Under(b[..|b| - 8], Fraction(TagOf(b)))
  }

  /** Encoded keys are in the order of the keys. */
  lemma RankIsOrder(a: StoredKey, b: StoredKey)
    ensures IsLess(RankOf, EncodeKey(a), EncodeKey(b)) <==> Before(a, b)
  {
    TagRoundTrip(a);
    TagRoundTrip(b);
    var s, t := Tag(Ranked(a)), Tag(Ranked(b));
    UnderIsOrder(a.user, Fraction(s), b.user, Fraction(t));
    FractionFalls(s, t);
    PositionIsOrder(a.user, b.user);
  }

  // A data block

  function ItemOf(e: Stored): Item {
    Item(EncodeKey(e.key), e.value)
  }

  function Items(es: seq<Stored>): (r: seq<Item>)
    ensures |r| == |es| && forall i :: 0 <= i < |es| ==> r[i] == ItemOf(es[i])
  {
    seq(|es|, i requires 0 <= i < |es| => ItemOf(es[i]))
  }

  lemma ItemsAscend(es: seq<Stored>)
    requires Tables.Ascending(es)
    ensures Blocks.Ascending(RankOf, Items(es))
  {
    forall i, j | 0 <= i < j < |es|
      ensures IsLess(RankOf, Items(es)[i].key, Items(es)[j].key)
    {
      assert Before(es[i].key, es[j].key);
      RankIsOrder(es[i].key, es[j].key);
    }
  }

  lemma {:induction false} SeeksStored(es: seq<Stored>, k: StoredKey, at: nat)
    requires Tables.Ascending(es) && AllLess(RankOf, Items(es), at, EncodeKey(k))
    requires at < |es| ==> !IsLess(RankOf, Items(es)[at].key, EncodeKey(k))
    ensures at == SeekStored(es, k)
  {
    if at > 0 {
      assert IsLess(RankOf, Items(es)[at - 1].key, EncodeKey(k));
      RankIsOrder(es[at - 1].key, k);
    }
    if at < |es| {
      RankIsOrder(es[at].key, k);
    }
    SeekIs(es, k, at);
  }

  /** The entry an iterator stands at. */
  method Current(it: BlockIter, ghost e: Stored) returns (r: Stored)
    requires it.Valid() && it.at < |it.layout.items| && it.layout.items[it.at] == ItemOf(e)
    ensures r == e
  {
    KeyRoundTrip(e.key);
    r := Stored(ParseKey(it.key).value, it.data[it.valueStart..it.valueStart + it.valueLength]);
  }

  /** The bytes of a data block that the builder cut, read through a block iterator: it
      stands at the entry that InternalGet hands on, with its key and value. */
  method SeekInBytes(contents: Bytes, k: StoredKey, ghost es: seq<Stored>, ghost interval: nat)
    returns (r: Option<Stored>)
    requires Tables.Ascending(es) && interval >= 1 && contents == Block(Items(es), interval) && |contents| < Two32
    requires forall i :: 0 <= i < |es| ==> FitsItem(ItemOf(es[i]))
    ensures r == var j := SeekStored(es, k); if j < |es| then Some(es[j]) else None
  {
    ItemsAscend(es);
    var it := new BlockIter(RankOf, contents, Items(es), interval);
    it.Seek(EncodeKey(k));
    SeeksStored(es, k, it.at);
    if it.current < it.restarts {
      var e := Current(it, es[it.at]);
      r := Some(e);
    } else {
      r := None;
    }
  }
}
