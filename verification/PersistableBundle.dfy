/** Persistable bundles: eleven typed maps, their parcel form, and reading it back. */
module PersistableBundle {
  import opened Basics
  import opened ParcelCodec

  const BUNDLE_MAGIC: int := 0x4C444E42
  const BUNDLE_MAGIC_NATIVE: int := 0x4C444E44

  /** Doubles are kept as their bit patterns. */
  datatype Value =
    | Bool(b: bool) | Int(i: Int32) | LongInt(l: Int64) | Double(d: Int64) | Str(s: String16)
    | Bools(bs: seq<bool>) | Ints(iv: seq<Int32>) | LongInts(ls: seq<Int64>) | Doubles(ds: seq<Int64>)
    | Strs(ss: seq<String16>) | Nested(bundle: Bundle)

  datatype Entry = Entry(key: String16, value: Value)

  /** The eleven ordered maps one after the other, in the order in which they are written. */
  datatype Bundle = Bundle(entries: seq<Entry>)

  const EMPTY := Bundle([])

  /** Which of the eleven maps a value lives in. */
  function Slot(v: Value): nat {
    match v
    case Bool(_) => 0 case Int(_) => 1 case LongInt(_) => 2 case Double(_) => 3 case Str(_) => 4
    case Bools(_) => 5 case Ints(_) => 6 case LongInts(_) => 7 case Doubles(_) => 8
    case Strs(_) => 9 case Nested(_) => 10
  }

  /** The type tag in the parcel. */
  function Tag(v: Value): Int32 {
    match v
    case Bool(_) => 9 case Int(_) => 1 case LongInt(_) => 6 case Double(_) => 8 case Str(_) => 0
    case Bools(_) => 23 case Ints(_) => 18 case LongInts(_) => 19 case Doubles(_) => 28
    case Strs(_) => 14 case Nested(_) => 25
  }

  // ----- the ordered maps -----

  predicate KeyBelow(a: String16, b: String16) {
    if b == [] then false else if a == [] then true
    else a[0] < b[0] || (a[0] == b[0] && KeyBelow(a[1..], b[1..]))
  }

  predicate Below(e: Entry, f: Entry) {
    Slot(e.value) < Slot(f.value) || (Slot(e.value) == Slot(f.value) && KeyBelow(e.key, f.key))
  }

  predicate SamePlace(e: Entry, f: Entry) { Slot(e.value) == Slot(f.value) && e.key == f.key }

  lemma {:induction false} KeyTotal(a: String16, b: String16)
    ensures KeyBelow(a, b) || a == b || KeyBelow(b, a)
    ensures !(KeyBelow(a, b) && KeyBelow(b, a)) && !KeyBelow(a, a)
  {
    if a != [] && b != [] {
      KeyTotal(a[1..], b[1..]);
      KeyTotal(a[1..], a[1..]);
      assert a == [a[0]] + a[1..] && b == [b[0]] + b[1..];
    } else if a != [] {
      KeyTotal(a[1..], a[1..]);
    }
  }

  lemma {:induction false} KeyTransitive(a: String16, b: String16, c: String16)
    requires KeyBelow(a, b) && KeyBelow(b, c)
    ensures KeyBelow(a, c)
  {
    if a != [] && a[0] == b[0] == c[0] { KeyTransitive(a[1..], b[1..], c[1..]); }
  }

  lemma Transitive(e: Entry, f: Entry, g: Entry)
    requires Below(e, f) && Below(f, g)
    ensures Below(e, g)
  {
    if Slot(e.value) == Slot(f.value) == Slot(g.value) { KeyTransitive(e.key, f.key, g.key); }
  }

  ghost predicate Ascending(es: seq<Entry>) { forall i, j :: 0 <= i < j < |es| ==> Below(es[i], es[j]) }

  /** A bundle as the maps hold it: each map in key order, and so all the way down. */
  ghost predicate WellFormed(b: Bundle)
    decreases b
  {
    && Ascending(b.entries)
    && forall i :: 0 <= i < |b.entries| && b.entries[i].value.Nested? ==> WellFormed(b.entries[i].value.bundle)
  }

  /** Assigning to the map the value belongs to. */
  function Store(es: seq<Entry>, e: Entry): seq<Entry> {
    if es == [] then [e]
    else if SamePlace(es[0], e) then [e] + es[1..]
    else if Below(e, es[0]) then [e] + es
    else [es[0]] + Store(es[1..], e)
  }

  /** The eleven maps as one, keyed by map and key. */
  ghost function Maps(es: seq<Entry>): map<(nat, String16), Value> {
    if es == [] then map[] else Maps(es[1..])[(Slot(es[0].value), es[0].key) := es[0].value]
  }

  lemma {:induction false} StoreMembers(es: seq<Entry>, e: Entry, j: nat)
    requires j < |Store(es, e)|
    ensures Store(es, e)[j] == e || Store(es, e)[j] in es
  {
    if es != [] && !SamePlace(es[0], e) && !Below(e, es[0]) && j > 0 {
      StoreMembers(es[1..], e, j - 1);
    }
  }

  /** Storing keeps the order, */
  lemma {:induction false} StoreAscends(es: seq<Entry>, e: Entry)
    requires Ascending(es)
    ensures Ascending(Store(es, e))
  {
    if es != [] {
      var rest := es[1..];
      KeyTotal(es[0].key, e.key);
      if SamePlace(es[0], e) {
        forall j | 0 <= j < |rest| ensures Below(e, rest[j]) { assert Below(es[0], es[j + 1]); }
      } else if Below(e, es[0]) {
        forall j | 0 < j < |es| ensures Below(e, es[j]) { Transitive(e, es[0], es[j]); }
      } else {
        StoreAscends(rest, e);
        forall j | 0 <= j < |Store(rest, e)| ensures Below(es[0], Store(rest, e)[j]) {
          StoreMembers(rest, e, j);
          if Store(rest, e)[j] != e {
            var k :| 0 <= k < |rest| && rest[k] == Store(rest, e)[j];
            assert Below(es[0], es[k + 1]);
          }
        }
      }
    }
  }

  /** and is one assignment to one of the maps. */
  lemma {:induction false} StoreAssigns(es: seq<Entry>, e: Entry)
    ensures Maps(Store(es, e)) == Maps(es)[(Slot(e.value), e.key) := e.value]
  {
    if es != [] {
      StoreAssigns(es[1..], e);
      if SamePlace(es[0], e) {
        assert Store(es, e)[1..] == es[1..];
      } else if Below(e, es[0]) {
        assert Store(es, e)[1..] == es;
      } else {
        assert Store(es, e)[1..] == Store(es[1..], e);
      }
    }
  }

  /** An entry above all others goes to the end. */
  lemma {:induction false} StoreLast(es: seq<Entry>, e: Entry)
    requires forall i :: 0 <= i < |es| ==> Below(es[i], e)
    ensures Store(es, e) == es + [e]
  {
    if es != [] {
      assert Below(es[0], e);
      KeyTotal(es[0].key, e.key);
      StoreLast(es[1..], e);
      assert es == [es[0]] + es[1..];
    }
  }

  /** The value in the place of e, if there is one. */
  function Find(es: seq<Entry>, slot: nat, key: String16): Read<Value> {
    if es == [] then Failed(NotEnoughData)
    else if Slot(es[0].value) == slot && es[0].key == key then Got(es[0].value, 0)
    else Find(es[1..], slot, key)
  }

  lemma {:induction false} FindAbsent(es: seq<Entry>, e: Entry)
    requires forall i :: 0 <= i < |es| ==> Below(es[i], e)
    ensures Find(es, Slot(e.value), e.key).Failed?
  {
    if es != [] {
      assert Below(es[0], e);
      KeyTotal(es[0].key, e.key);
      FindAbsent(es[1..], e);
    }
  }

  // ----- the parcel form -----

  function OfBools(bs: seq<bool>): seq<Int32> { seq(|bs|, i requires 0 <= i < |bs| => if bs[i] then 1 else 0) }

  function ToBools(v: seq<Int32>): seq<bool> { seq(|v|, i requires 0 <= i < |v| => v[i] != 0) }

  function EncodeValue(v: Value): seq<Byte>
    decreases v
  {
    match v
    case Bool(b) => Word(if b then 1 else 0)
    case Int(i) => Word(i)
    case LongInt(l) => Long(l)
    case Double(d) => Long(d)
    case Str(s) => EncodeString(s)
    case Bools(bs) => EncodeWords(OfBools(bs))
    case Ints(iv) => EncodeWords(iv)
    case LongInts(ls) => EncodeLongs(ls)
    case Doubles(ds) => EncodeLongs(ds)
    case Strs(ss) => EncodeStrings(ss)
    case Nested(b) => Encode(b)
  }

  function EncodeEntry(e: Entry): seq<Byte>
    decreases e
  {
    EncodeString(e.key) + Word(Tag(e.value)) + EncodeValue(e.value)
  }

  function Parts(b: Bundle): seq<seq<Byte>>
    decreases b, 0
  {
    seq(|b.entries|, i requires 0 <= i < |b.entries| => EncodeEntry(b.entries[i]))
  }

  function Body(b: Bundle): seq<Byte>
    decreases b, 1
  {
    Word(|b.entries|) + Concat(Parts(b))
  }

  /** An empty bundle is a zero word; any other is preceded by the length of its body and the magic. */
  function Encode(b: Bundle): seq<Byte>
    decreases b, 2
  {
    if b.entries == [] then Word(0) else Word(|Body(b)|) + Word(BUNDLE_MAGIC_NATIVE) + Body(b)
  }

  // ----- reading -----

  function ReadBundle(data: seq<Byte>, pos: nat, into: Bundle): (r: Read<Bundle>)
    ensures r.Got? ==> r.pos >= pos
    decreases |data| - pos, 1
  {
    var (length, p) := ReadInt32OrZero(data, pos);
    if length < 0 then Failed(UnexpectedNull) else ReadInner(data, p, length, into)
  }

  function ReadInner(data: seq<Byte>, pos: nat, length: nat, into: Bundle): (r: Read<Bundle>)
    ensures r.Got? ==> r.pos >= pos
    decreases |data| - pos, 0
  {
    if length == 0 then Got(into, pos)
    else match ReadInt32(data, pos)
      case Failed(s) => Failed(s)
      case Got(magic, p) =>
        if magic != BUNDLE_MAGIC && magic != BUNDLE_MAGIC_NATIVE then Failed(BadValue)
        else match ReadInt32(data, p)
          case Failed(s) => Failed(s)
          case Got(n, q) => ReadEntries(data, q, n, into)
  }

  function ReadEntries(data: seq<Byte>, pos: nat, n: int, into: Bundle): (r: Read<Bundle>)
    ensures r.Got? ==> r.pos >= pos
    decreases |data| - pos, 3
  {
    if n <= 0 then Got(into, pos)
    else match ReadEntry(data, pos, into)
      case Failed(s) => Failed(s)
      case Got(more, p) => ReadEntries(data, p, n - 1, more)
  }

  function ReadEntry(data: seq<Byte>, pos: nat, into: Bundle): (r: Read<Bundle>)
    ensures r.Got? ==> pos < |data| && r.pos > pos
    decreases |data| - pos, 2
  {
    match ReadString(data, pos)
    case Failed(s) => Failed(s)
    case Got(key, p) =>
      match ReadInt32(data, p)
      case Failed(s) => Failed(s)
      case Got(tag, q) =>
        match ReadValue(data, q, tag, Existing(into, key))
        case Failed(s) => Failed(s)
        case Got(v, e) => Got(Bundle(Store(into.entries, Entry(key, v))), e)
  }

  /** A nested bundle is read into the one the key already has. */
  function Existing(into: Bundle, key: String16): Bundle {
    match Find(into.entries, 10, key)
    case Got(Nested(b), _) => b
    case _ => EMPTY
  }

  function ReadValue(data: seq<Byte>, pos: nat, tag: int, existing: Bundle): (r: Read<Value>)
    ensures r.Got? ==> r.pos >= pos
    decreases |data| - pos, 2
  {
    if tag == 25 then
      match ReadBundle(data, pos, existing)
      case Failed(s) => Failed(s)
      case Got(b, p) => Got(Nested(b), p)
    else ReadFlat(data, pos, tag)
  }

  function AsInt(r: Read<Int32>, tag: int): Read<Value> {
    match r
    case Failed(s) => Failed(s)
    case Got(i, p) => Got(if tag == 9 then Bool(i != 0) else Int(i), p)
  }

  function AsLong(r: Read<Int64>, tag: int): Read<Value> {
    match r
    case Failed(s) => Failed(s)
    case Got(l, p) => Got(if tag == 8 then Double(l) else LongInt(l), p)
  }

  function AsString(r: Read<String16>): Read<Value> {
    match r
    case Failed(s) => Failed(s)
    case Got(s, p) => Got(Str(s), p)
  }

  function AsInts(r: Read<seq<Int32>>, tag: int): Read<Value> {
    match r
    case Failed(s) => Failed(s)
    case Got(v, p) => Got(if tag == 23 then Bools(ToBools(v)) else Ints(v), p)
  }

  function AsLongs(r: Read<seq<Int64>>, tag: int): Read<Value> {
    match r
    case Failed(s) => Failed(s)
    case Got(v, p) => Got(if tag == 28 then Doubles(v) else LongInts(v), p)
  }

  function AsStrings(r: Read<seq<String16>>): Read<Value> {
    match r
    case Failed(s) => Failed(s)
    case Got(v, p) => Got(Strs(v), p)
  }

  function ReadFlat(data: seq<Byte>, pos: nat, tag: int): (r: Read<Value>)
    ensures r.Got? ==> r.pos >= pos
  {
    if tag == 0 then AsString(ReadString(data, pos))
    else if tag == 1 || tag == 9 then AsInt(ReadInt32(data, pos), tag)
    else if tag == 6 || tag == 8 then AsLong(ReadInt64(data, pos), tag)
    else if tag == 14 then AsStrings(ReadStrings(data, pos))
    else if tag == 18 || tag == 23 then AsInts(ReadWords(data, pos), tag)
    else if tag == 19 || tag == 28 then AsLongs(ReadLongs(data, pos), tag)
    else Failed(BadType)
  }

  // ----- the round trip -----

  lemma ScalarRoundTrip(data: seq<Byte>, pos: nat, v: Value)
    requires Slot(v) <= 4 && At(data, pos, EncodeValue(v)) && |EncodeValue(v)| <= INT32_MAX
    ensures ReadFlat(data, pos, Tag(v)) == Got(v, pos + |EncodeValue(v)|)
  {
    match v
    case Bool(b) => Int32RoundTrip(data, pos, if b then 1 else 0);
    case Int(i) => Int32RoundTrip(data, pos, i);
    case LongInt(l) => Int64RoundTrip(data, pos, l);
    case Double(d) => Int64RoundTrip(data, pos, d);
    case Str(s) => StringRoundTrip(data, pos, s);
  }

  lemma WordVectorRoundTrip(data: seq<Byte>, pos: nat, v: Value)
    requires (v.Bools? || v.Ints?) && At(data, pos, EncodeValue(v)) && |EncodeValue(v)| <= INT32_MAX
    ensures ReadFlat(data, pos, Tag(v)) == Got(v, pos + |EncodeValue(v)|)
  {
    if v.Bools? {
      VectorWordsRoundTrip(data, pos, OfBools(v.bs));
      assert ToBools(OfBools(v.bs)) == v.bs;
    } else {
      VectorWordsRoundTrip(data, pos, v.iv);
    }
  }

  lemma OtherVectorRoundTrip(data: seq<Byte>, pos: nat, v: Value)
    requires 7 <= Slot(v) <= 9 && At(data, pos, EncodeValue(v)) && |EncodeValue(v)| <= INT32_MAX
    ensures ReadFlat(data, pos, Tag(v)) == Got(v, pos + |EncodeValue(v)|)
  {
    match v
    case LongInts(ls) => VectorLongsRoundTrip(data, pos, ls);
    case Doubles(ds) => VectorLongsRoundTrip(data, pos, ds);
    case Strs(ss) => VectorStringsRoundTrip(data, pos, ss);
  }

  // What reading a bundle on top of another gives: entry by entry, each assigned to the map of its type, where a nested
  // bundle is read on top of the one that has its key already.

  function Overlaid(into: Bundle, b: Bundle): Bundle
    decreases b, |b.entries| + 1
  {
    OverlaidTo(into, b, |b.entries|)
  }

  function OverlaidTo(into: Bundle, b: Bundle, k: nat): Bundle
    requires k <= |b.entries|
    decreases b, k
  {
    if k == 0 then into
    else
      var before, e := OverlaidTo(into, b, k - 1), b.entries[k - 1];
      Bundle(Store(before.entries, Entry(e.key, OverlaidValue(Existing(before, e.key), e.value))))
  }

  function OverlaidValue(existing: Bundle, v: Value): (r: Value)
    ensures Tag(r) == Tag(v) && Slot(r) == Slot(v)
    decreases v
  {
    if v.Nested? then Nested(Overlaid(existing, v.bundle)) else v
  }

  lemma {:induction false} ValueOver(data: seq<Byte>, pos: nat, v: Value, existing: Bundle)
    requires At(data, pos, EncodeValue(v)) && |EncodeValue(v)| <= INT32_MAX
    ensures ReadValue(data, pos, Tag(v), existing) == Got(OverlaidValue(existing, v), pos + |EncodeValue(v)|)
    decreases v
  {
    if v.Nested? { ReadOver(data, pos, v.bundle, existing); }
    else if Slot(v) <= 4 { ScalarRoundTrip(data, pos, v); }
    else if Slot(v) <= 6 { WordVectorRoundTrip(data, pos, v); }
    else { OtherVectorRoundTrip(data, pos, v); }
  }

  lemma ReadEntryIs(data: seq<Byte>, pos: nat, into: Bundle, key: String16, p: nat, q: nat, v: Value, end: nat)
    requires ReadString(data, pos) == Got(key, p) && ReadInt32(data, p) == Got(Tag(v), q)
    requires ReadValue(data, q, Tag(v), Existing(into, key)) == Got(v, end)
    ensures ReadEntry(data, pos, into) == Got(Bundle(Store(into.entries, Entry(key, v))), end)
  {
  }

  lemma {:induction false} EntryOver(data: seq<Byte>, pos: nat, e: Entry, into: Bundle)
    requires At(data, pos, EncodeEntry(e)) && |EncodeEntry(e)| <= INT32_MAX
    ensures ReadEntry(data, pos, into) ==
      Got(Bundle(Store(into.entries, Entry(e.key, OverlaidValue(Existing(into, e.key), e.value)))),
          pos + |EncodeEntry(e)|)
    decreases e
  {
    var key, tag, value := EncodeString(e.key), Word(Tag(e.value)), EncodeValue(e.value);
    var p, q := pos + |key|, pos + |key| + 4;
    AtParts(data, pos, key + tag, value);
    AtParts(data, pos, key, tag);
    StringRoundTrip(data, pos, e.key);
    Int32RoundTrip(data, p, Tag(e.value));
    ValueOver(data, q, e.value, Existing(into, e.key));
    ReadEntryIs(data, pos, into, e.key, p, q, OverlaidValue(Existing(into, e.key), e.value), q + |value|);
  }

  /** The loop over n entries ends like this. */
  ghost predicate Reads(data: seq<Byte>, pos: nat, n: nat, into: Bundle, r: Read<Bundle>) {
    ReadEntries(data, pos, n, into) == r
  }

  lemma OneEntry(data: seq<Byte>, pos: nat, into: Bundle)
    ensures Reads(data, pos, 1, into, ReadEntry(data, pos, into))
  {
  }

  lemma NextEntry(data: seq<Byte>, pos: nat, n: nat, into: Bundle, p: nat, more: Bundle, r: Read<Bundle>)
    requires Reads(data, pos, 1, into, Got(more, p)) && Reads(data, p, n, more, r)
    ensures Reads(data, pos, n + 1, into, r)
  {
    OneEntry(data, pos, into);
  }

  /** Reading at ps[k] turns bs[k] into bs[k + 1] and ends at ps[k + 1]. */
  ghost predicate ReadsOn(data: seq<Byte>, bs: seq<Bundle>, ps: seq<nat>, k: nat)
    requires k + 1 < |ps| && k + 1 < |bs|
  {
    Reads(data, ps[k], 1, bs[k], Got(bs[k + 1], ps[k + 1]))
  }

  /** Entries that are read one after the other are read by the loop. */
  lemma {:induction false} ReadAll(data: seq<Byte>, bs: seq<Bundle>, ps: seq<nat>, n: nat, i: nat)
    requires |ps| == |bs| == n + 1 && i <= n
    requires forall k :: 0 <= k < n ==> ReadsOn(data, bs, ps, k)
    ensures Reads(data, ps[i], n - i, bs[i], Got(bs[n], ps[n]))
    decreases n - i
  {
    if i < n {
      ReadAll(data, bs, ps, n, i + 1);
      assert ReadsOn(data, bs, ps, i);
      NextEntry(data, ps[i], n - (i + 1), bs[i], ps[i + 1], bs[i + 1], Got(bs[n], ps[n]));
    }
  }

  /** Where part k starts. */
  function StartOf(parts: seq<seq<Byte>>, pos: nat, k: nat): nat
    requires k <= |parts|
  {
    pos + |Concat(parts[..k])|
  }

  lemma OverlayNext(into: Bundle, b: Bundle, k: nat)
    requires k < |b.entries|
    ensures var before, e := OverlaidTo(into, b, k), b.entries[k];
      OverlaidTo(into, b, k + 1) ==
        Bundle(Store(before.entries, Entry(e.key, OverlaidValue(Existing(before, e.key), e.value))))
  {
  }

  ghost function Starts(parts: seq<seq<Byte>>, pos: nat): (ps: seq<nat>)
    ensures |ps| == |parts| + 1 && ps[0] == pos && ps[|parts|] == pos + |Concat(parts)|
  {
    assert parts[..0] == [] && parts[..|parts|] == parts;
    seq(|parts| + 1, k requires 0 <= k <= |parts| => StartOf(parts, pos, k))
  }

  ghost function Overlays(into: Bundle, b: Bundle): (bs: seq<Bundle>)
    ensures |bs| == |b.entries| + 1 && bs[0] == into && bs[|b.entries|] == Overlaid(into, b)
  {
    seq(|b.entries| + 1, k requires 0 <= k <= |b.entries| => OverlaidTo(into, b, k))
  }

  lemma {:induction false} EntryAdds(data: seq<Byte>, pos: nat, b: Bundle, into: Bundle, k: nat)
    requires At(data, pos, Concat(Parts(b))) && |Concat(Parts(b))| <= INT32_MAX && k < |b.entries|
    ensures ReadsOn(data, Overlays(into, b), Starts(Parts(b), pos), k)
    decreases b, 1
  {
    PartAt(data, pos, Parts(b), k);
    ConcatNext(Parts(b), k);
    EntryOver(data, StartOf(Parts(b), pos, k), b.entries[k], OverlaidTo(into, b, k));
    OneEntry(data, StartOf(Parts(b), pos, k), OverlaidTo(into, b, k));
    OverlayNext(into, b, k);
  }

  lemma {:induction false} EntriesOver(data: seq<Byte>, pos: nat, b: Bundle, into: Bundle)
    requires At(data, pos, Concat(Parts(b))) && |Concat(Parts(b))| <= INT32_MAX
    ensures Reads(data, pos, |b.entries|, into, Got(Overlaid(into, b), pos + |Concat(Parts(b))|))
    decreases b, 2
  {
    var bs, ps := Overlays(into, b), Starts(Parts(b), pos);
    forall k | 0 <= k < |b.entries| ensures ReadsOn(data, bs, ps, k) {
      EntryAdds(data, pos, b, into, k);
    }
    ReadAll(data, bs, ps, |b.entries|, 0);
  }

  lemma PartsCount(b: Bundle)
    ensures |b.entries| <= |Concat(Parts(b))|
  {
    forall i | 0 <= i < |b.entries| ensures Parts(b)[i] != [] {
      assert |EncodeEntry(b.entries[i])| >= |EncodeString(b.entries[i].key)| >= 4;
    }
    ConcatCount(Parts(b));
  }

  /** The parcel form of a bundle that is not empty, with either of the two magics that readers accept. */
  function EncodeWith(magic: Int32, b: Bundle): seq<Byte> { Word(|Body(b)|) + Word(magic) + Body(b) }

  lemma {:induction false} MagicOver(data: seq<Byte>, pos: nat, magic: Int32, b: Bundle, into: Bundle)
    requires magic in {0x4C444E42, 0x4C444E44} && b.entries != []
    requires At(data, pos, EncodeWith(magic, b)) && |EncodeWith(magic, b)| <= INT32_MAX
    ensures ReadBundle(data, pos, into) == Got(Overlaid(into, b), pos + |EncodeWith(magic, b)|)
    decreases b, 4
  {
    AtParts(data, pos, Word(|Body(b)|) + Word(magic), Body(b));
    AtParts(data, pos, Word(|Body(b)|), Word(magic));
    AtParts(data, pos + 8, Word(|b.entries|), Concat(Parts(b)));
    Int32RoundTrip(data, pos, |Body(b)|);
    Int32RoundTrip(data, pos + 4, magic);
    EntriesOver(data, pos + 12, b, into);
    PartsCount(b);
    Int32RoundTrip(data, pos + 8, |b.entries|);
  }

  /** Reading what was written for b, on top of any bundle, overlays it with b and stops right behind. */
  lemma {:induction false} ReadOver(data: seq<Byte>, pos: nat, b: Bundle, into: Bundle)
    requires At(data, pos, Encode(b)) && |Encode(b)| <= INT32_MAX
    ensures ReadBundle(data, pos, into) == Got(Overlaid(into, b), pos + |Encode(b)|)
    decreases b, 5
  {
    if b.entries == [] {
      Int32RoundTrip(data, pos, 0);
    } else {
      MagicOver(data, pos, 0x4C444E44, b, into);
    }
  }

  /** An entry goes into the maps behind those before it. */
  lemma StoreNext(b: Bundle, i: nat)
    requires Ascending(b.entries) && i < |b.entries|
    ensures Store(b.entries[..i], b.entries[i]) == b.entries[..i + 1]
    ensures b.entries[i].value.Nested? ==> Existing(Bundle(b.entries[..i]), b.entries[i].key) == EMPTY
  {
    var e, before := b.entries[i], b.entries[..i];
    StoreLast(before, e);
    assert before + [e] == b.entries[..i + 1];
    if e.value.Nested? { FindAbsent(before, e); }
  }

  /** On top of nothing a bundle is itself, at any nesting. */
  lemma {:induction false} OverlaidEmpty(b: Bundle, k: nat)
    requires WellFormed(b) && k <= |b.entries|
    ensures OverlaidTo(EMPTY, b, k) == Bundle(b.entries[..k])
    decreases b, k
  {
    if k > 0 {
      var e := b.entries[k - 1];
      OverlaidEmpty(b, k - 1);
      StoreNext(b, k - 1);
      if e.value.Nested? { NestedEmpty(e.value); }
    }
  }

  lemma {:induction false} NestedEmpty(v: Value)
    requires v.Nested? && WellFormed(v.bundle)
    ensures OverlaidValue(EMPTY, v) == v
    decreases v
  {
    var c := v.bundle;
    OverlaidEmpty(c, |c.entries|);
    assert c.entries[..|c.entries|] == c.entries;
  }

  /** Reading what was written gives back the same eleven maps and stops right behind them, with either magic. */
  lemma RoundTrip(data: seq<Byte>, pos: nat, b: Bundle)
    requires WellFormed(b) && At(data, pos, Encode(b)) && |Encode(b)| <= INT32_MAX
    ensures ReadBundle(data, pos, EMPTY) == Got(b, pos + |Encode(b)|)
  {
    ReadOver(data, pos, b, EMPTY);
    OverlaidEmpty(b, |b.entries|);
    assert b.entries[..|b.entries|] == b.entries;
  }

  lemma MagicRoundTrip(data: seq<Byte>, pos: nat, magic: Int32, b: Bundle)
    requires magic in {0x4C444E42, 0x4C444E44} && b.entries != [] && WellFormed(b)
    requires At(data, pos, EncodeWith(magic, b)) && |EncodeWith(magic, b)| <= INT32_MAX
    ensures ReadBundle(data, pos, EMPTY) == Got(b, pos + |EncodeWith(magic, b)|)
  {
    MagicOver(data, pos, magic, b, EMPTY);
    OverlaidEmpty(b, |b.entries|);
    assert b.entries[..|b.entries|] == b.entries;
  }

  // ----- what the overlay means, map by map -----

  /** What a place holds after b was read on top: b's own value, a nested one on top of the nested one there was. */
  ghost function Lookup(m: map<(nat, String16), Value>, m0: map<(nat, String16), Value>, p: (nat, String16)):
    Option<Value>
  {
    if p !in m then (if p in m0 then Some(m0[p]) else None)
    else if p in m0 && m0[p].Nested? then Some(OverlaidValue(m0[p].bundle, m[p]))
    else Some(OverlaidValue(EMPTY, m[p]))
  }

  ghost function Get(m: map<(nat, String16), Value>, p: (nat, String16)): Option<Value> {
    if p in m then Some(m[p]) else None
  }

  /** The places of the first k entries of b hold what b says, the others what they held before. */
  lemma {:induction false} OverlaidMaps(into: Bundle, b: Bundle, k: nat, p: (nat, String16))
    requires k <= |b.entries| && Ascending(b.entries)
    ensures Get(Maps(OverlaidTo(into, b, k).entries), p) == Lookup(Maps(b.entries[..k]), Maps(into.entries), p)
    decreases k
  {
    if k > 0 {
      var before, e := OverlaidTo(into, b, k - 1), b.entries[k - 1];
      OverlaidMaps(into, b, k - 1, p);
      PlaceNew(b.entries, k - 1);
      MapsLast(b.entries[..k - 1], e);
      assert b.entries[..k - 1] + [e] == b.entries[..k];
      OverlayNext(into, b, k - 1);
      OverlaidStep(before, e, Maps(b.entries[..k - 1]), Maps(into.entries), p);
    }
  }

  lemma OverlaidStep(before: Bundle, e: Entry, m: map<(nat, String16), Value>, m0: map<(nat, String16), Value>,
                     p: (nat, String16))
    requires (Slot(e.value), e.key) !in m && Get(Maps(before.entries), p) == Lookup(m, m0, p)
    ensures var x := Entry(e.key, OverlaidValue(Existing(before, e.key), e.value));
      Get(Maps(Store(before.entries, x)), p) == Lookup(m[(Slot(e.value), e.key) := e.value], m0, p)
  {
    StoreAssigns(before.entries, Entry(e.key, OverlaidValue(Existing(before, e.key), e.value)));
    if p == (Slot(e.value), e.key) { OverlaidHere(before, e, m, m0); }
  }

  lemma OverlaidHere(before: Bundle, e: Entry, m: map<(nat, String16), Value>, m0: map<(nat, String16), Value>)
    requires var p := (Slot(e.value), e.key); p !in m && Get(Maps(before.entries), p) == Lookup(m, m0, p)
    ensures var p := (Slot(e.value), e.key);
      Some(OverlaidValue(Existing(before, e.key), e.value)) == Lookup(m[p := e.value], m0, p)
  {
    ExistingIs(before, e.key);
  }

  lemma {:induction false} MapsLast(es: seq<Entry>, e: Entry)
    requires (Slot(e.value), e.key) !in Maps(es)
    ensures Maps(es + [e]) == Maps(es)[(Slot(e.value), e.key) := e.value]
  {
    if es != [] {
      MapsLast(es[1..], e);
      assert (es + [e])[1..] == es[1..] + [e];
    }
  }

  lemma {:induction false} PlaceNew(es: seq<Entry>, k: nat)
    requires Ascending(es) && k < |es|
    ensures (Slot(es[k].value), es[k].key) !in Maps(es[..k])
  {
    FindAbsent(es[..k], es[k]);
    FindIsLookup(es[..k], Slot(es[k].value), es[k].key);
  }

  lemma {:induction false} FindIsLookup(es: seq<Entry>, slot: nat, key: String16)
    ensures Find(es, slot, key).Got? <==> (slot, key) in Maps(es)
    ensures Find(es, slot, key).Got? ==> Find(es, slot, key) == Got(Maps(es)[(slot, key)], 0)
  {
    if es != [] { FindIsLookup(es[1..], slot, key); }
  }

  /** The place of a nested bundle holds a nested bundle. */
  lemma {:induction false} SlotKept(es: seq<Entry>, p: (nat, String16))
    requires p in Maps(es)
    ensures Slot(Maps(es)[p]) == p.0
  {
    if p != (Slot(es[0].value), es[0].key) { SlotKept(es[1..], p); }
  }

  lemma ExistingIs(b: Bundle, key: String16)
    ensures var m := Maps(b.entries);
      Existing(b, key) == if (10, key) in m && m[(10, key)].Nested? then m[(10, key)].bundle else EMPTY
  {
    FindIsLookup(b.entries, 10, key);
    if (10, key) in Maps(b.entries) { SlotKept(b.entries, (10, key)); }
  }
}
