/** The bundle object: putting, erasing, and reading from a parcel in place. */
module BundleObject {
  import opened ParcelCodec
  import opened PersistableBundle

  /** The first map that has the key loses it; the others keep theirs. */
  function Erased(es: seq<Entry>, key: String16): seq<Entry> {
    if es == [] then [] else if es[0].key == key then es[1..] else [es[0]] + Erased(es[1..], key)
  }

  function Count(es: seq<Entry>, key: String16): nat {
    if es == [] then 0 else (if es[0].key == key then 1 else 0) + Count(es[1..], key)
  }

  function PutInto(es: seq<Entry>, key: String16, v: Value): seq<Entry> { Store(Erased(es, key), Entry(key, v)) }

  lemma {:induction false} ErasedMembers(es: seq<Entry>, key: String16, j: nat)
    requires j < |Erased(es, key)|
    ensures Erased(es, key)[j] in es
  {
    if es[0].key != key && j > 0 { ErasedMembers(es[1..], key, j - 1); }
  }

  lemma {:induction false} ErasedAscends(es: seq<Entry>, key: String16)
    requires Ascending(es)
    ensures Ascending(Erased(es, key))
  {
    if es != [] && es[0].key != key {
      var rest := Erased(es[1..], key);
      ErasedAscends(es[1..], key);
      forall j | 0 <= j < |rest| ensures Below(es[0], rest[j]) {
        ErasedMembers(es[1..], key, j);
        var k :| 0 <= k < |es[1..]| && es[1..][k] == rest[j];
        assert Below(es[0], es[k + 1]);
      }
    }
  }

  lemma {:induction false} ErasedCount(es: seq<Entry>, key: String16, other: String16)
    ensures Count(Erased(es, key), other) == Count(es, other) - if other == key && Count(es, key) > 0 then 1 else 0
  {
    if es != [] && es[0].key != key {
      ErasedCount(es[1..], key, other);
      assert Erased(es, key)[1..] == Erased(es[1..], key);
    }
  }

  ghost predicate NotBefore(es: seq<Entry>, key: String16, i: nat)
    requires i <= |es|
  {
    forall j :: 0 <= j < i ==> es[j].key != key
  }

  lemma {:induction false} ErasedAt(es: seq<Entry>, key: String16, i: nat)
    requires i < |es| && NotBefore(es, key, i) && es[i].key == key
    ensures Erased(es, key) == es[..i] + es[i + 1..] && Count(es, key) > 0
  {
    if i > 0 {
      ErasedAt(es[1..], key, i - 1);
      assert es[..i] + es[i + 1..] == [es[0]] + (es[1..][..i - 1] + es[1..][i..]);
    }
  }

  lemma {:induction false} ErasedNone(es: seq<Entry>, key: String16)
    requires NotBefore(es, key, |es|)
    ensures Erased(es, key) == es && Count(es, key) == 0
  {
    if es != [] { ErasedNone(es[1..], key); }
  }

  /** Is there an entry for this map and key? */
  predicate Has(es: seq<Entry>, slot: nat, key: String16) { Find(es, slot, key).Got? }

  lemma {:induction false} HasNone(es: seq<Entry>, e: Entry)
    requires Ascending(es) && (es == [] || Below(e, es[0]))
    ensures !Has(es, Slot(e.value), e.key)
  {
    if es != [] {
      KeyTotal(e.key, es[0].key);
      if |es| > 1 { Transitive(e, es[0], es[1]); }
      HasNone(es[1..], e);
    }
  }

  lemma {:induction false} StoreCount(es: seq<Entry>, e: Entry, key: String16)
    requires Ascending(es)
    ensures Count(Store(es, e), key) == Count(es, key) + if key == e.key && !Has(es, Slot(e.value), key) then 1 else 0
  {
    if es == [] {
    } else if SamePlace(es[0], e) {
      assert Store(es, e)[1..] == es[1..];
    } else if Below(e, es[0]) {
      assert Store(es, e)[1..] == es;
      HasNone(es, e);
    } else {
      StoreCount(es[1..], e, key);
      assert Store(es, e)[1..] == Store(es[1..], e);
    }
  }

  // ----- in terms of the eleven maps -----

  lemma {:induction false} MapsMember(es: seq<Entry>, slot: nat, key: String16) returns (i: nat)
    requires (slot, key) in Maps(es)
    ensures i < |es| && Slot(es[i].value) == slot && es[i].key == key
  {
    if (Slot(es[0].value), es[0].key) == (slot, key) {
      i := 0;
    } else {
      i := MapsMember(es[1..], slot, key);
      i := i + 1;
    }
  }

  /** The first of the maps that has the key loses it, and nothing else changes; if none has it, nothing does. */
  ghost predicate LosesFirst(m: map<(nat, String16), Value>, m': map<(nat, String16), Value>, key: String16) {
    || (m' == m && forall p :: p in m ==> p.1 != key)
    || exists slot :: IsFirstMap(m, slot, key) && m' == m - {(slot, key)}
  }

  ghost predicate IsFirstMap(m: map<(nat, String16), Value>, slot: nat, key: String16) {
    (slot, key) in m && forall p :: p in m && p.1 == key ==> slot <= p.0
  }

  /** The first entry is below all others, so its place is not taken again and its map comes first. */
  lemma HeadFirst(es: seq<Entry>)
    requires Ascending(es) && es != []
    ensures (Slot(es[0].value), es[0].key) !in Maps(es[1..])
    ensures forall p :: p in Maps(es[1..]) ==> Slot(es[0].value) <= p.0
  {
    forall p | p in Maps(es[1..])
      ensures Slot(es[0].value) <= p.0 && p != (Slot(es[0].value), es[0].key)
    {
      var i := MapsMember(es[1..], p.0, p.1);
      assert Below(es[0], es[i + 1]);
      KeyTotal(es[0].key, es[0].key);
    }
  }

  lemma {:induction false} ErasedMaps(es: seq<Entry>, key: String16)
    requires Ascending(es)
    ensures LosesFirst(Maps(es), Maps(Erased(es, key)), key)
  {
    if es != [] {
      var rest, p, v := es[1..], (Slot(es[0].value), es[0].key), es[0].value;
      HeadFirst(es);
      if es[0].key == key {
        assert IsFirstMap(Maps(es), p.0, key) && Maps(es) - {p} == Maps(rest);
      } else {
        ErasedMaps(rest, key);
        assert Erased(es, key)[1..] == Erased(rest, key);
        FirstLifted(Maps(rest), Maps(Erased(rest, key)), key, p, v);
      }
    }
  }

  lemma FirstLifted(m: map<(nat, String16), Value>, m': map<(nat, String16), Value>, key: String16,
                    p: (nat, String16), v: Value)
    requires LosesFirst(m, m', key) && p.1 != key
    ensures LosesFirst(m[p := v], m'[p := v], key)
  {
    if m' != m || exists q :: q in m && q.1 == key {
      var slot :| IsFirstMap(m, slot, key) && m' == m - {(slot, key)};
      assert IsFirstMap(m[p := v], slot, key);
      assert m'[p := v] == m[p := v] - {(slot, key)};
    }
  }

  /** Put: erase in the first map that has the key, then one assignment in the map of the value's type. */
  ghost predicate PutMaps(m: map<(nat, String16), Value>, m': map<(nat, String16), Value>, key: String16, v: Value) {
    exists m1 :: LosesFirst(m, m1, key) && m' == m1[(Slot(v), key) := v]
  }

  lemma PutIsAssignment(es: seq<Entry>, key: String16, v: Value)
    requires Ascending(es)
    ensures PutMaps(Maps(es), Maps(PutInto(es, key, v)), key, v)
    ensures Find(PutInto(es, key, v), Slot(v), key) == Got(v, 0)
    ensures forall slot, other :: other != key ==> Find(PutInto(es, key, v), slot, other) == Find(es, slot, other)
  {
    var es' := PutInto(es, key, v);
    ErasedMaps(es, key);
    StoreAssigns(Erased(es, key), Entry(key, v));
    FindIsLookup(es', Slot(v), key);
    forall slot, other | other != key ensures Find(es', slot, other) == Find(es, slot, other) {
      FindIsLookup(es', slot, other);
      FindIsLookup(es, slot, other);
      NotFound(es', slot, other);
      NotFound(es, slot, other);
    }
  }

  lemma {:induction false} NotFound(es: seq<Entry>, slot: nat, key: String16)
    ensures Find(es, slot, key).Failed? ==> Find(es, slot, key) == Failed(NotEnoughData)
  {
    if es != [] { NotFound(es[1..], slot, key); }
  }

  /**
   * After a put the key is in one map only, exactly when the erase before it left the key in no map but the one put
   * into; a key that was in at most one map always comes out unique.
   */
  lemma PutUniqueIff(es: seq<Entry>, key: String16, v: Value)
    requires Ascending(es)
    ensures Ascending(PutInto(es, key, v))
    ensures Count(PutInto(es, key, v), key) == 1 <==>
      Count(es, key) <= 1 || (Count(es, key) == 2 && Has(Erased(es, key), Slot(v), key))
    ensures forall other :: other != key ==> Count(PutInto(es, key, v), other) == Count(es, other)
  {
    var rest, e := Erased(es, key), Entry(key, v);
    ErasedAscends(es, key);
    StoreAscends(rest, e);
    ErasedCount(es, key, key);
    StoreCount(rest, e, key);
    HasCount(rest, Slot(v), key);
    forall other | other != key ensures Count(PutInto(es, key, v), other) == Count(es, other) {
      ErasedCount(es, key, other);
      StoreCount(rest, e, other);
    }
  }

  lemma {:induction false} HasCount(es: seq<Entry>, slot: nat, key: String16)
    ensures Has(es, slot, key) ==> Count(es, key) > 0
  {
    if es != [] { HasCount(es[1..], slot, key); }
  }

  // One key in two of the maps.
  const TWICE := Bundle([Entry([], Int(0)), Entry([], LongInt(0))])

  lemma TwiceSize()
    ensures WellFormed(TWICE) && |Encode(TWICE)| <= INT32_MAX
  {
    var e, f := TWICE.entries[0], TWICE.entries[1];
    assert Below(e, f);
    assert TWICE.entries[..1] == [e] && TWICE.entries[..2] == TWICE.entries;
    assert Parts(TWICE) == [EncodeEntry(e), EncodeEntry(f)];
    assert |EncodeEntry(e)| <= 100 && |EncodeEntry(f)| <= 100;
  }

  /** A parcel can bring a key into two maps, and then a put leaves it in two. */
  lemma PutLeavesOther()
    ensures ReadBundle(Encode(TWICE), 0, EMPTY) == Got(TWICE, |Encode(TWICE)|)
    ensures Count(PutInto(TWICE.entries, [], Int(1)), []) == 2
  {
    TwiceSize();
    RoundTrip(Encode(TWICE), 0, TWICE);
    var es, key: String16 := TWICE.entries, [];
    assert es[1..] == [Entry(key, LongInt(0))];
    var r := PutInto(es, key, Int(1));
    assert r == [Entry(key, Int(1)), Entry(key, LongInt(0))];
    assert r[1..] == [Entry(key, LongInt(0))] && r[1..][1..] == [];
    assert Count(r[1..], key) == 1 + Count(r[1..][1..], key);
  }

  datatype Change = Put(key: String16, value: Value) | Erase(key: String16)

  function Changed(es: seq<Entry>, c: Change): seq<Entry> {
    if c.Put? then PutInto(es, c.key, c.value) else Erased(es, c.key)
  }

  function ChangedAll(cs: seq<Change>): seq<Entry> {
    if cs == [] then [] else Changed(ChangedAll(cs[..|cs| - 1]), cs[|cs| - 1])
  }

  ghost predicate AllOnce(es: seq<Entry>) { Ascending(es) && forall key :: Count(es, key) <= 1 }

  lemma ChangedOnce(es: seq<Entry>, c: Change)
    requires AllOnce(es)
    ensures AllOnce(Changed(es, c))
  {
    if c.Put? {
      PutUniqueIff(es, c.key, c.value);
    } else {
      ErasedAscends(es, c.key);
      forall key ensures Count(Erased(es, c.key), key) <= 1 { ErasedCount(es, c.key, key); }
    }
  }

  /** Putting and erasing alone, from an empty bundle, keep every key in at most one map. */
  lemma {:induction false} ChangesKeepOnce(cs: seq<Change>)
    ensures AllOnce(ChangedAll(cs))
  {
    if cs != [] {
      ChangesKeepOnce(cs[..|cs| - 1]);
      ChangedOnce(ChangedAll(cs[..|cs| - 1]), cs[|cs| - 1]);
    }
  }

  class Bundles {
    var bundle: Bundle

    ghost predicate Valid()
      reads this
    {
      Ascending(bundle.entries)
    }

    constructor ()
      ensures Valid() && bundle == EMPTY
    {
      bundle := EMPTY;
    }

    /** Tries the maps in turn and stops at the first that has the key. */
    method Erase(key: String16) returns (erased: nat)
      requires Valid()
      modifies this
      ensures Valid() && bundle.entries == Erased(old(bundle.entries), key)
      ensures erased == if Count(old(bundle.entries), key) > 0 then 1 else 0
      ensures LosesFirst(old(Maps(bundle.entries)), Maps(bundle.entries), key)
    {
      var es := bundle.entries;
      ErasedMaps(es, key);
      ErasedAscends(es, key);
      for i := 0 to |es|
        invariant bundle.entries == es && NotBefore(es, key, i)
      {
        if es[i].key == key {
          ErasedAt(es, key, i);
          bundle := Bundle(es[..i] + es[i + 1..]);
          return 1;
        }
      }
      ErasedNone(es, key);
      erased := 0;
    }

    /** Every putter: erase, then assign in the value's own map. */
    method Put(key: String16, v: Value)
      requires Valid()
      modifies this
      ensures Valid() && bundle.entries == PutInto(old(bundle.entries), key, v)
      ensures Find(bundle.entries, Slot(v), key) == Got(v, 0)
      ensures PutMaps(old(Maps(bundle.entries)), Maps(bundle.entries), key, v)
      ensures forall slot, other :: other != key ==>
        Find(bundle.entries, slot, other) == old(Find(bundle.entries, slot, other))
    {
      PutIsAssignment(bundle.entries, key, v);
      var n := Erase(key);
      StoreAscends(bundle.entries, Entry(key, v));
      bundle := Bundle(Store(bundle.entries, Entry(key, v)));
    }

    /** Reads on top of what the bundle holds; after a failure the contents are not specified. */
    method ReadFromParcel(data: seq<Byte>, pos: nat) returns (r: Read<Bundle>)
      modifies this
      ensures r == ReadBundle(data, pos, old(bundle)) && (r.Got? ==> bundle == r.value)
    {
      r := ReadInto(data, pos, bundle);
      if r.Got? { bundle := r.value; }
    }
  }

  method ReadInto(data: seq<Byte>, pos: nat, into: Bundle) returns (r: Read<Bundle>)
    ensures r == ReadBundle(data, pos, into)
    decreases |data| - pos, 1
  {
    var (length, p) := ReadInt32OrZero(data, pos);
    if length < 0 { return Failed(UnexpectedNull); }
    if length == 0 { return Got(into, p); }
    var magic := ReadInt32(data, p);
    if magic.Failed? { return Failed(magic.status); }
    if magic.value != BUNDLE_MAGIC && magic.value != BUNDLE_MAGIC_NATIVE { return Failed(BadValue); }
    var entries := ReadInt32(data, magic.pos);
    if entries.Failed? { return Failed(entries.status); }
    var n, at, read := entries.value, entries.pos, into;
    while n > 0
      invariant at > pos && ReadEntries(data, at, n, read) == ReadBundle(data, pos, into)
      decreases n
    {
      r := ReadOne(data, at, read);
      if r.Failed? { return; }
      n, at, read := n - 1, r.pos, r.value;
    }
    r := Got(read, at);
  }

  method ReadOne(data: seq<Byte>, pos: nat, into: Bundle) returns (r: Read<Bundle>)
    ensures r == ReadEntry(data, pos, into)
    decreases |data| - pos, 0
  {
    var key := ReadString(data, pos);
    if key.Failed? { return Failed(key.status); }
    var tag := ReadInt32(data, key.pos);
    if tag.Failed? { return Failed(tag.status); }
    var v: Read<Value>;
    if tag.value == 25 {
      var nested := ReadInto(data, tag.pos, Existing(into, key.value));
      v := if nested.Failed? then Failed(nested.status) else Got(Nested(nested.value), nested.pos);
    } else {
      v := ReadFlat(data, tag.pos, tag.value);
    }
    if v.Failed? { return Failed(v.status); }
    r := Got(Bundle(Store(into.entries, Entry(key.value, v.value))), v.pos);
  }
}
