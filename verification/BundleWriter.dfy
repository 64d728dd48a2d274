/** Writing a persistable bundle into a parcel, with the length filled in afterwards, and reading it back. */
module BundleWriter {
  import opened ParcelCodec
  import opened ParcelOutput
  import opened ParcelWriter
  import opened PersistableBundle
  import opened BundleOutput
  import BundleObject

  method WriteValue(p: Parcel, v: Value) returns (r: Status)
    requires p.Valid() && p.dataPos == p.dataSize
    modifies p, p.data
    ensures p.Valid() && p.dataPos == p.dataSize && (p.data == old(p.data) || fresh(p.data))
    ensures Written(r, p.Now()) == PutValue(p.memory, old(p.Now()), v)
    decreases v
  {
    match v
    case Bool(b) => r := p.WriteAligned(Word(if b then 1 else 0));
    case Int(i) => r := p.WriteAligned(Word(i));
    case LongInt(l) => r := p.WriteAligned(Long(l));
    case Double(d) => r := p.WriteAligned(Long(d));
    case Str(s) => r := p.WriteString16(s);
    case Bools(bs) => r := p.WriteVector(|bs|, Words(OfBools(bs)), true);
    case Ints(iv) => r := p.WriteVector(|iv|, Words(iv), false);
    case LongInts(ls) => r := p.WriteVector(|ls|, Longs(ls), false);
    case Doubles(ds) => r := p.WriteVector(|ds|, Longs(ds), false);
    case Strs(ss) => r := p.WriteStrings(ss);
    case Nested(b) => r := WriteToParcel(p, b);
  }

  method WriteEntry(p: Parcel, e: Entry) returns (r: Status)
    requires p.Valid() && p.dataPos == p.dataSize
    modifies p, p.data
    ensures p.Valid() && p.dataPos == p.dataSize && (p.data == old(p.data) || fresh(p.data))
    ensures Written(r, p.Now()) == PutEntry(p.memory, old(p.Now()), e)
    decreases e
  {
    r := p.WriteString16(e.key);
    if r != NoError { return; }
    r := p.WriteAligned(Word(Tag(e.value)));
    if r != NoError { return; }
    r := WriteValue(p, e.value);
  }

  /** `writeToParcelInner`: the number of entries, then each map's entries in turn. */
  method WriteInner(p: Parcel, b: Bundle) returns (r: Status)
    requires p.Valid() && p.dataPos == p.dataSize
    modifies p, p.data
    ensures p.Valid() && p.dataPos == p.dataSize && (p.data == old(p.data) || fresh(p.data))
    ensures Written(r, p.Now()) == PutInner(p.memory, old(p.Now()), b)
    decreases b, 0
  {
    if |b.entries| > INT32_MAX { return BadValue; }
    ghost var whole := PutInner(p.memory, p.Now(), b);
    r := p.WriteAligned(Word(|b.entries|));
    if r != NoError { return; }
    var i := 0;
    while i < |b.entries|
      invariant i <= |b.entries| && r == NoError && p.Valid() && p.dataPos == p.dataSize
      invariant p.data == old(p.data) || fresh(p.data)
      invariant PutFrom(p.memory, p.Now(), b, i) == whole
    {
      r := WriteEntry(p, b.entries[i]);
      if r != NoError { return; }
      i := i + 1;
    }
  }

  /** The length is written into the word at `lengthPos`, nothing else changes, and the parcel goes back to its end. */
  method BackPatch(p: Parcel, lengthPos: nat, length: nat) returns (r: Status)
    requires p.Valid() && p.dataPos == p.dataSize && lengthPos + 4 <= p.dataSize
    modifies p, p.data
    ensures p.Valid() && p.dataPos == p.dataSize && p.data == old(p.data) && r == NoError
    ensures p.Now() == Patch(old(p.Now()), lengthPos, length)
  {
    var endPos := p.dataPos;
    p.dataPos := lengthPos;
    r := p.WriteAligned(Word(length));
    p.dataPos := endPos;
  }

  /** The word kept free for the length, and the magic. */
  method WriteHeader(p: Parcel) returns (r: Status)
    requires p.Valid() && p.dataPos == p.dataSize
    modifies p, p.data
    ensures p.Valid() && p.dataPos == p.dataSize && (p.data == old(p.data) || fresh(p.data))
    ensures Written(r, p.Now()) == PutHeader(p.memory, old(p.Now()))
    ensures r == NoError ==> p.dataSize == old(p.dataSize) + 8
  {
    ExactHeader(p.memory, p.Now());
    r := p.WriteAligned(Word(1));
    if r == NoError { r := p.WriteAligned(Word(BUNDLE_MAGIC_NATIVE)); }
  }

  lemma InnerGrows(memory: nat, h: Out, b: Bundle)
    requires Sound(h) && b.entries != []
    ensures |PutInner(memory, h, b).out.bytes| >= |h.bytes|
  {
    ExactInner(memory, h, b);
  }

  /** `writeToParcel`: the body first, then its length in the word kept free for it. */
  method WriteToParcel(p: Parcel, b: Bundle) returns (r: Status)
    requires p.Valid() && p.dataPos == p.dataSize
    modifies p, p.data
    ensures p.Valid() && p.dataPos == p.dataSize && (p.data == old(p.data) || fresh(p.data))
    ensures Written(r, p.Now()) == PutBundle(p.memory, old(p.Now()), b)
    decreases b, 1
  {
    if b.entries == [] {
      r := p.WriteAligned(Word(0));
      return;
    }
    var lengthPos := p.dataPos;
    r := WriteHeader(p);
    if r != NoError { return; }
    InnerGrows(p.memory, p.Now(), b);
    var startPos := p.dataPos;
    r := WriteInner(p, b);
    if r != NoError { return; }
    var length := p.dataPos - startPos;
    if length > INT32_MAX { return BadValue; }
    r := BackPatch(p, lengthPos, length);
  }

  lemma ReadsBack(before: seq<Byte>, b: Bundle)
    requires WellFormed(b) && |before + Encode(b)| <= INT32_MAX
    ensures ReadBundle(before + Encode(b), |before|, EMPTY) == Got(b, |before + Encode(b)|)
  {
    assert At(before + Encode(b), |before|, Encode(b));
    RoundTrip(before + Encode(b), |before|, b);
  }

  /**
   * Written at the end of any parcel and read back into an empty bundle: the write answers NoError and all of the form
   * is there exactly if its pieces have room and no noted error meets an empty vector, and then the same bundle is read
   * and nothing is left over.
   */
  method WriteAndRead(p: Parcel, b: Bundle) returns (status: Status, r: Read<Bundle>)
    requires p.Valid() && p.dataPos == p.dataSize && WellFormed(b)
    modifies p, p.data
    ensures p.Valid() && (p.data == old(p.data) || fresh(p.data))
    ensures status == NoError && p.contents == old(p.contents) + Encode(b) <==>
      Room(p.memory, old(p.data.Length), old(p.dataSize), BundlePieces(b)) && (Clean(b) || old(p.error) == NoError)
    ensures status == NoError && p.contents == old(p.contents) + Encode(b) ==> r == Got(b, p.dataSize)
  {
    var from := p.dataPos;
    ExactBundle(p.memory, p.Now(), b);
    status := WriteToParcel(p, b);
    r := BundleObject.ReadInto(p.data[..p.dataSize], from, EMPTY);
    if status == NoError && p.contents == old(p.contents) + Encode(b) {
      ReadsBack(old(p.contents), b);
    }
  }
}
