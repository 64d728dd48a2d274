/** Writing a persistable bundle as a value, errors included, and exactly when its whole form arrives. */
module BundleOutput {
  import opened Basics
  import opened ParcelCodec
  import opened ParcelOutput
  import opened PersistableBundle

  function PutValue(memory: nat, o: Out, v: Value): Written
    decreases v
  {
    match v
    case Bool(b) => PutInt(memory, o, Word(if b then 1 else 0))
    case Int(i) => PutInt(memory, o, Word(i))
    case LongInt(l) => PutInt(memory, o, Long(l))
    case Double(d) => PutInt(memory, o, Long(d))
    case Str(s) => PutString(memory, o, s)
    case Bools(bs) => PutVector(memory, o, |bs|, Words(OfBools(bs)), true)
    case Ints(iv) => PutVector(memory, o, |iv|, Words(iv), false)
    case LongInts(ls) => PutVector(memory, o, |ls|, Longs(ls), false)
    case Doubles(ds) => PutVector(memory, o, |ds|, Longs(ds), false)
    case Strs(ss) => PutStrings(memory, o, ss)
    case Nested(b) => PutBundle(memory, o, b)
  }

  function PutEntry(memory: nat, o: Out, e: Entry): Written
    decreases e
  {
    var w := PutKey(memory, o, e);
    if w.status != NoError then w else PutValue(memory, w.out, e.value)
  }

  /** The key and the type tag. */
  function PutKey(memory: nat, o: Out, e: Entry): Written {
    var w := PutString(memory, o, e.key);
    if w.status != NoError then w else PutInt(memory, w.out, Word(Tag(e.value)))
  }

  /** The entries from i on, up to the first that fails. */
  function PutFrom(memory: nat, o: Out, b: Bundle, i: nat): Written
    requires i <= |b.entries|
    decreases b, 0, |b.entries| - i
  {
    if i == |b.entries| then Written(NoError, o)
    else
      var w := PutEntry(memory, o, b.entries[i]);
      if w.status != NoError then w else PutFrom(memory, w.out, b, i + 1)
  }

  function PutInner(memory: nat, o: Out, b: Bundle): Written
    decreases b, 1
  {
    if |b.entries| > INT32_MAX then Written(BadValue, o)
    else
      var w := PutInt(memory, o, Word(|b.entries|));
      if w.status != NoError then w else PutFrom(memory, w.out, b, 0)
  }

  /** The word for the length, and the magic. */
  function PutHeader(memory: nat, o: Out): Written {
    var w := PutInt(memory, o, Word(1));
    if w.status != NoError then w else PutInt(memory, w.out, Word(BUNDLE_MAGIC_NATIVE))
  }

  /** The length goes into the word at `pos`. */
  function Patch(o: Out, pos: nat, length: nat): Out {
    if pos + 4 <= |o.bytes| then o.(bytes := o.bytes[..pos] + Word(length) + o.bytes[pos + 4..]) else o
  }

  function PutBundle(memory: nat, o: Out, b: Bundle): Written
    decreases b, 2
  {
    if b.entries == [] then PutInt(memory, o, Word(0))
    else
      var h := PutHeader(memory, o);
      if h.status != NoError then h
      else
        var w := PutInner(memory, h.out, b);
        var length := |w.out.bytes| - |h.out.bytes|;
        if w.status != NoError then w
        else if length < 0 || length > INT32_MAX then Written(BadValue, w.out)
        else Written(NoError, Patch(w.out, |o.bytes|, length))
  }

  // ----- the pieces, and whether any of them is an empty vector without storage -----

  function ValuePieces(v: Value): seq<nat>
    decreases v
  {
    match v
    case Bool(_) => [4]
    case Int(_) => [4]
    case LongInt(_) => [8]
    case Double(_) => [8]
    case Str(s) => StringPieces(s)
    case Bools(bs) => VectorPieces(Words(OfBools(bs)))
    case Ints(iv) => VectorPieces(Words(iv))
    case LongInts(ls) => VectorPieces(Longs(ls))
    case Doubles(ds) => VectorPieces(Longs(ds))
    case Strs(ss) => StringsPieces(ss)
    case Nested(b) => BundlePieces(b)
  }

  function EntryPieces(e: Entry): seq<nat>
    decreases e
  {
    StringPieces(e.key) + [4] + ValuePieces(e.value)
  }

  function PiecesFrom(b: Bundle, i: nat): seq<nat>
    requires i <= |b.entries|
    decreases b, 0, |b.entries| - i
  {
    if i == |b.entries| then [] else EntryPieces(b.entries[i]) + PiecesFrom(b, i + 1)
  }

  function BundlePieces(b: Bundle): seq<nat>
    decreases b, 1
  {
    if b.entries == [] then [4] else [4] + [4] + ([4] + PiecesFrom(b, 0))
  }

  predicate CleanValue(v: Value)
    decreases v
  {
    match v
    case Ints(iv) => Words(iv) != []
    case LongInts(ls) => Longs(ls) != []
    case Doubles(ds) => Longs(ds) != []
    case Nested(b) => CleanFrom(b, 0)
    case _ => true
  }

  predicate CleanFrom(b: Bundle, i: nat)
    requires i <= |b.entries|
    decreases b, |b.entries| - i
  {
    i == |b.entries| || (CleanValue(b.entries[i].value) && CleanFrom(b, i + 1))
  }

  /** No vector of integers or doubles in it is empty. */
  predicate Clean(b: Bundle) { CleanFrom(b, 0) }

  // ----- exactly when everything arrives -----

  lemma {:induction false} ExactValue(memory: nat, o: Out, v: Value)
    requires Sound(o)
    ensures Exact(memory, o, PutValue(memory, o, v), EncodeValue(v), ValuePieces(v), CleanValue(v))
    decreases v, 0
  {
    match v
    case Bool(b) => ExactInt(memory, o, Word(if b then 1 else 0));
    case Int(i) => ExactInt(memory, o, Word(i));
    case LongInt(l) => ExactInt(memory, o, Long(l));
    case Double(d) => ExactInt(memory, o, Long(d));
    case Str(s) => ExactString(memory, o, s);
    case Bools(bs) => ExactVector(memory, o, |bs|, Words(OfBools(bs)), true);
    case Ints(iv) => ExactVector(memory, o, |iv|, Words(iv), false);
    case LongInts(ls) => ExactVector(memory, o, |ls|, Longs(ls), false);
    case Doubles(ds) => ExactVector(memory, o, |ds|, Longs(ds), false);
    case Strs(ss) => ExactStrings(memory, o, ss);
    case Nested(b) => ExactBundle(memory, o, b);
  }

  lemma ExactKey(memory: nat, o: Out, e: Entry)
    requires Sound(o)
    ensures Exact(memory, o, PutKey(memory, o, e),
                  EncodeString(e.key) + Word(Tag(e.value)), StringPieces(e.key) + [4], true)
  {
    var w, tag := PutString(memory, o, e.key), Word(Tag(e.value));
    ExactString(memory, o, e.key);
    if w.status == NoError { ExactInt(memory, w.out, tag); }
    ExactThen(memory, o, w, PutKey(memory, o, e), EncodeString(e.key), tag, StringPieces(e.key), [4], true, true);
  }

  /** The pieces of a value add up to its form. */
  lemma ValueSum(v: Value)
    ensures Sum(ValuePieces(v)) == |EncodeValue(v)|
    decreases v, 1
  {
    ExactValue(0, Out([], 0, NoError), v);
  }

  lemma {:induction false} ExactEntry(memory: nat, o: Out, e: Entry)
    requires Sound(o)
    ensures Exact(memory, o, PutEntry(memory, o, e), EncodeEntry(e), EntryPieces(e), CleanValue(e.value))
    decreases e, 2
  {
    var w := PutKey(memory, o, e);
    ExactKey(memory, o, e);
    ValueSum(e.value);
    if w.status == NoError { ExactValue(memory, w.out, e.value); }
    ExactThen(memory, o, w, PutEntry(memory, o, e), EncodeString(e.key) + Word(Tag(e.value)), EncodeValue(e.value),
              StringPieces(e.key) + [4], ValuePieces(e.value), true, CleanValue(e.value));
  }

  lemma {:induction false} FromSum(b: Bundle, i: nat)
    requires i <= |b.entries|
    ensures Sum(PiecesFrom(b, i)) == |Concat(Parts(b)[i..])|
    decreases b, 1, |b.entries| - i
  {
    if i < |b.entries| {
      ExactEntry(0, Out([], 0, NoError), b.entries[i]);
      FromSum(b, i + 1);
      RoomSplit(0, 0, 0, EntryPieces(b.entries[i]), PiecesFrom(b, i + 1));
      assert Parts(b)[i..][0] == EncodeEntry(b.entries[i]) && Parts(b)[i..][1..] == Parts(b)[i + 1..];
    }
  }

  lemma {:induction false} ExactFrom(memory: nat, o: Out, b: Bundle, i: nat)
    requires Sound(o) && i <= |b.entries|
    ensures Exact(memory, o, PutFrom(memory, o, b, i), Concat(Parts(b)[i..]), PiecesFrom(b, i), CleanFrom(b, i))
    decreases b, 2, |b.entries| - i
  {
    if i == |b.entries| {
      assert Parts(b)[i..] == [] && o.bytes + [] == o.bytes;
    } else {
      var e := b.entries[i];
      var w := PutEntry(memory, o, e);
      ExactEntry(memory, o, e);
      FromSum(b, i + 1);
      if w.status == NoError { ExactFrom(memory, w.out, b, i + 1); }
      ExactThen(memory, o, w, PutFrom(memory, o, b, i), EncodeEntry(e), Concat(Parts(b)[i + 1..]),
                EntryPieces(e), PiecesFrom(b, i + 1), CleanValue(e.value), CleanFrom(b, i + 1));
      assert Parts(b)[i..][0] == EncodeEntry(e) && Parts(b)[i..][1..] == Parts(b)[i + 1..];
    }
  }

  lemma {:induction false} ExactInner(memory: nat, o: Out, b: Bundle)
    requires Sound(o)
    ensures Exact(memory, o, PutInner(memory, o, b), Body(b), [4] + PiecesFrom(b, 0), Clean(b))
    decreases b, 3
  {
    var n := Word(|b.entries|);
    var w := PutInt(memory, o, n);
    ExactInt(memory, o, n);
    FromSum(b, 0);
    PartsCount(b);
    assert Parts(b)[0..] == Parts(b);
    RoomSplit(memory, o.capacity, |o.bytes|, [4], PiecesFrom(b, 0));
    if |b.entries| > INT32_MAX {
      if Room(memory, o.capacity, |o.bytes|, [4] + PiecesFrom(b, 0)) {
        RoomBound(memory, o.capacity, |o.bytes|, [4] + PiecesFrom(b, 0));
      }
    } else {
      if w.status == NoError { ExactFrom(memory, w.out, b, 0); }
      ExactThen(memory, o, w, PutInner(memory, o, b), n, Concat(Parts(b)), [4], PiecesFrom(b, 0), true, Clean(b));
    }
  }

  lemma ExactHeader(memory: nat, o: Out)
    requires Sound(o)
    ensures Exact(memory, o, PutHeader(memory, o), Word(1) + Word(BUNDLE_MAGIC_NATIVE), [4] + [4], true)
    ensures PutHeader(memory, o).status == NoError ==> |PutHeader(memory, o).out.bytes| == |o.bytes| + 8
  {
    var w := PutInt(memory, o, Word(1));
    ExactInt(memory, o, Word(1));
    if w.status == NoError { ExactInt(memory, w.out, Word(BUNDLE_MAGIC_NATIVE)); }
    ExactThen(memory, o, w, PutHeader(memory, o), Word(1), Word(BUNDLE_MAGIC_NATIVE), [4], [4], true, true);
  }

  /** Patching keeps a writer exact, with the length in the place of the dummy. */
  lemma ExactPatched(memory: nat, o: Out, w: Written, body: seq<Byte>, pieces: seq<nat>, clean: bool)
    requires Exact(memory, o, w, Word(1) + Word(BUNDLE_MAGIC_NATIVE) + body, pieces, clean)
    requires w.status == NoError && |w.out.bytes| >= |o.bytes| + 8
    ensures var length := |w.out.bytes| - (|o.bytes| + 8);
      Exact(memory, o, Written(NoError, Patch(w.out, |o.bytes|, length)),
            Word(|body|) + Word(BUNDLE_MAGIC_NATIVE) + body, pieces, clean)
  {
    var magic := Word(BUNDLE_MAGIC_NATIVE);
    var enc := Word(1) + magic + body;
    if Whole(o, w, enc) {
      assert w.out.bytes == o.bytes + enc;
      assert w.out.bytes[..|o.bytes|] == o.bytes && w.out.bytes[|o.bytes| + 4..] == magic + body;
      assert o.bytes + Word(|body|) + (magic + body) == o.bytes + (Word(|body|) + magic + body);
    }
  }

  /** The whole form arrives with NoError exactly if its pieces have room and no note meets an empty vector. */
  lemma {:induction false} ExactBundle(memory: nat, o: Out, b: Bundle)
    requires Sound(o)
    ensures Exact(memory, o, PutBundle(memory, o, b), Encode(b), BundlePieces(b), Clean(b))
    decreases b, 4
  {
    if b.entries == [] {
      ExactInt(memory, o, Word(0));
    } else {
      var h, pieces := PutHeader(memory, o), [4] + PiecesFrom(b, 0);
      var w := if h.status != NoError then h else PutInner(memory, h.out, b);
      ExactHeader(memory, o);
      ExactInner(memory, o, b);
      if h.status == NoError { ExactInner(memory, h.out, b); }
      ExactThen(memory, o, h, w, Word(1) + Word(BUNDLE_MAGIC_NATIVE), Body(b), [4] + [4], pieces, true, Clean(b));
      if w.status == NoError { ExactPatched(memory, o, w, Body(b), [4] + [4] + pieces, Clean(b)); }
    }
  }

  /** A total that the buffer holds, or that it can grow to, is room enough for any bundle of that size. */
  lemma RoomForBundle(memory: nat, o: Out, b: Bundle)
    requires Sound(o)
    requires |o.bytes| + |Encode(b)| <= o.capacity || |o.bytes| + |Encode(b)| <= Limit(memory)
    ensures Room(memory, o.capacity, |o.bytes|, BundlePieces(b))
  {
    ExactBundle(memory, o, b);
    RoomForTotal(memory, o.capacity, |o.bytes|, BundlePieces(b));
  }

  /** The first write that fails ends everything around it, with its answer and with nothing written after it. */
  lemma FailureEnds(memory: nat, o: Out, b: Bundle, i: nat)
    requires i < |b.entries|
    ensures var e := b.entries[i];
      var key, all := PutString(memory, o, e.key), PutFrom(memory, o, b, i);
      && (key.status != NoError ==> all == key)
      && (key.status == NoError ==>
            var tag := PutInt(memory, key.out, Word(Tag(e.value)));
            && (tag.status != NoError ==> all == tag)
            && (tag.status == NoError ==>
                  var value := PutValue(memory, tag.out, e.value);
                  all == if value.status != NoError then value else PutFrom(memory, value.out, b, i + 1)))
    ensures var h, all := PutHeader(memory, o), PutBundle(memory, o, b);
      && (h.status != NoError ==> all == h)
      && (h.status == NoError && PutInner(memory, h.out, b).status != NoError ==> all == PutInner(memory, h.out, b))
  {
  }
}
