/** The readers accept exactly the byte forms, and the forms are the ones other implementations use. */
module ParcelForms {
  import opened Basics
  import opened ParcelCodec
  import opened PersistableBundle

  // ----- every byte string is the form of what it reads as -----

  lemma WordOf(b: seq<Byte>)
    requires |b| == 4
    ensures Word(Signed(Unsigned(b))) == b
  {
    var u := Unsigned(b);
    WordUnique(u, b);
    if u >= 0x8000_0000 { WordShifted(u); }
  }

  lemma WordUnique(u: nat, b: seq<Byte>)
    requires |b| == 4 && u == Unsigned(b)
    ensures Word(u) == b
  {
    var x1 := b[1] as nat + b[2] as nat * 0x100 + b[3] as nat * 0x1_0000;
    var x2 := b[2] as nat + b[3] as nat * 0x100;
    assert u == b[0] as nat + x1 * 0x100;
    assert u / 0x100 == x1 && x1 / 0x100 == x2 && x2 / 0x100 == b[3] as nat;
    assert u / 0x1_0000 == x2 && u / 0x100_0000 == b[3] as nat;
  }

  lemma WordShifted(u: nat)
    requires u < TWO32
    ensures Word(u - TWO32) == Word(u)
  {
    WordUnsigned(u - TWO32);
    assert (u - TWO32) % TWO32 == u;
    WordUnique(u, Word(u - TWO32));
  }

  lemma LongOf(b: seq<Byte>)
    requires |b| == 8
    ensures Long(UnLong(b)) == b
  {
    var lo, hi := Unsigned(b[..4]), Signed(Unsigned(b[4..]));
    var v := lo + hi * TWO32;
    assert v / TWO32 == hi && v % TWO32 == lo;
    WordUnique(lo, b[..4]);
    WordOf(b[4..]);
    assert b == b[..4] + b[4..];
  }

  lemma {:induction false} HalvesOf(b: seq<Byte>)
    requires |b| % 2 == 0
    ensures Halves(Chars(b)) == b
  {
    if b != [] {
      HalvesOf(b[2..]);
      assert Chars(b)[1..] == Chars(b[2..]);
      assert b == [b[0], b[1]] + b[2..];
    }
  }

  lemma {:induction false} WordsOf(b: seq<Byte>)
    requires |b| % 4 == 0
    ensures Words(UnWords(b)) == b
  {
    if b != [] {
      WordOf(b[..4]);
      WordsOf(b[4..]);
      assert UnWords(b)[1..] == UnWords(b[4..]);
      assert b == b[..4] + b[4..];
    }
  }

  lemma {:induction false} LongsOf(b: seq<Byte>)
    requires |b| % 8 == 0
    ensures Longs(UnLongs(b)) == b
  {
    if b != [] {
      LongOf(b[..8]);
      LongsOf(b[8..]);
      assert UnLongs(b)[1..] == UnLongs(b[8..]);
      assert b == b[..8] + b[8..];
    }
  }

  // ----- what is accepted -----

  lemma Int32Iff(data: seq<Byte>, pos: nat, v: Int32, q: nat)
    ensures ReadInt32(data, pos) == Got(v, q) <==> At(data, pos, Word(v)) && q == pos + 4
    ensures ReadInt32(data, pos).Failed? <==> |data| < pos + 4
    ensures ReadInt32(data, pos).Failed? ==> ReadInt32(data, pos).status == NotEnoughData
  {
    if At(data, pos, Word(v)) { Int32RoundTrip(data, pos, v); }
    if pos + 4 <= |data| { WordOf(data[pos..pos + 4]); }
  }

  /** Reading a string once its length is known. */
  lemma StringRead(data: seq<Byte>, pos: nat, n: nat)
    requires n < INT32_MAX && ReadInt32(data, pos) == Got(n, pos + 4)
    ensures ReadString(data, pos) ==
      if 2 * n + 2 <= INT32_MAX && pos + 4 + Pad(2 * n + 2) <= |data| then
        var c := Chars(data[pos + 4..pos + 4 + (2 * n + 2)]);
        if c[n] == 0 then Got(c[..n], pos + 4 + Pad(2 * n + 2)) else Failed(UnexpectedNull)
      else Failed(UnexpectedNull)
  {
    assert (n + 1) * 2 == 2 * n + 2;
  }

  lemma StringNotRead(data: seq<Byte>, pos: nat)
    requires var size := ReadInt32(data, pos); size.Got? ==> !(0 <= size.value < INT32_MAX)
    ensures ReadString(data, pos) == Failed(UnexpectedNull)
  {
  }

  ghost predicate StringStands(data: seq<Byte>, pos: nat, s: String16) {
    && 2 * |s| + 2 <= INT32_MAX && pos + 4 + Pad(2 * |s| + 2) <= |data|
    && At(data, pos, Word(|s|)) && At(data, pos + 4, Halves(s + [0]))
  }

  /** A string is read exactly where its length, its units and the terminator stand, with room for the padding. */
  lemma StringIff(data: seq<Byte>, pos: nat, s: String16, q: nat)
    ensures ReadString(data, pos) == Got(s, q) <==> StringStands(data, pos, s) && q == pos + 4 + Pad(2 * |s| + 2)
    ensures ReadString(data, pos).Failed? ==> ReadString(data, pos).status == UnexpectedNull
  {
    var size := ReadInt32(data, pos);
    if size.Got? && 0 <= size.value < INT32_MAX {
      var n: nat := size.value;
      StringRead(data, pos, n);
      Int32Iff(data, pos, n, pos + 4);
      if At(data, pos, Word(|s|)) && |s| < INT32_MAX { Int32RoundTrip(data, pos, |s|); }
      if |s| == n && pos + 4 + (2 * n + 2) <= |data| { UnitsIff(data[pos + 4..pos + 4 + (2 * n + 2)], s); }
    } else {
      StringNotRead(data, pos);
      if StringStands(data, pos, s) { Int32RoundTrip(data, pos, |s|); }
    }
  }

  lemma UnitsIff(b: seq<Byte>, s: String16)
    requires |b| == 2 * |s| + 2
    ensures b == Halves(s + [0]) <==> Chars(b)[..|s|] == s && Chars(b)[|s|] == 0
  {
    HalvesIff(b, s + [0]);
    Terminated(Chars(b), s);
  }

  lemma HalvesIff(b: seq<Byte>, t: String16)
    requires |b| % 2 == 0
    ensures b == Halves(t) <==> Chars(b) == t
  {
    HalvesOf(b);
    CharsOf(t);
  }

  lemma Terminated(c: String16, s: String16)
    requires |c| == |s| + 1
    ensures c == s + [0] <==> c[..|s|] == s && c[|s|] == 0
  {
    assert c == c[..|s|] + [c[|s|]];
    assert (s + [0])[..|s|] == s;
  }

  lemma Aligned(n: nat)
    ensures Pad(4 * n) == 4 * n
  {
    assert (4 * n + 3) / 4 == n;
  }

  /** Reading a flat vector once its size is known. */
  function WordsBehind(data: seq<Byte>, pos: nat, n: nat): Read<seq<Int32>> {
    if 4 * n <= INT32_MAX && pos + 4 + 4 * n <= |data| then
      Got(UnWords(data[pos + 4..pos + 4 + 4 * n]), pos + 4 + 4 * n)
    else Failed(BadValue)
  }

  lemma WordsRead(data: seq<Byte>, pos: nat, n: nat)
    requires n <= INT32_MAX && ReadInt32(data, pos) == Got(n, pos + 4)
    ensures ReadWords(data, pos) == WordsBehind(data, pos, n)
  {
    Aligned(n);
  }

  function LongsBehind(data: seq<Byte>, pos: nat, n: nat): Read<seq<Int64>> {
    if 8 * n <= INT32_MAX && pos + 4 + 8 * n <= |data| then
      Got(UnLongs(data[pos + 4..pos + 4 + 8 * n]), pos + 4 + 8 * n)
    else Failed(BadValue)
  }

  lemma LongsRead(data: seq<Byte>, pos: nat, n: nat)
    requires n <= INT32_MAX && ReadInt32(data, pos) == Got(n, pos + 4)
    ensures ReadLongs(data, pos) == LongsBehind(data, pos, n)
  {
    Aligned(2 * n);
    assert 4 * (2 * n) == 8 * n;
  }

  lemma SizeIff(data: seq<Byte>, pos: nat, m: nat)
    requires m <= INT32_MAX
    ensures At(data, pos, Word(m)) <==> ReadInt32(data, pos) == Got(m, pos + 4)
  {
    Int32Iff(data, pos, m, pos + 4);
  }

  /** The size word of a vector of `size` elements, and behind it their bytes. */
  ghost predicate VectorStands(data: seq<Byte>, pos: nat, size: nat, bytes: seq<Byte>) {
    |bytes| <= INT32_MAX && At(data, pos, Word(size)) && At(data, pos + 4, bytes)
  }

  /** The same, as the readers see it. */
  ghost predicate VectorSeen(data: seq<Byte>, pos: nat, size: nat, bytes: seq<Byte>) {
    && |bytes| <= INT32_MAX && ReadInt32(data, pos) == Got(size, pos + 4)
    && pos + 4 + |bytes| <= |data| && data[pos + 4..pos + 4 + |bytes|] == bytes
  }

  lemma StandsIff(data: seq<Byte>, pos: nat, size: nat, bytes: seq<Byte>)
    requires size <= |bytes|
    ensures VectorStands(data, pos, size, bytes) <==> VectorSeen(data, pos, size, bytes)
  {
    if |bytes| <= INT32_MAX { SizeIff(data, pos, size); }
  }

  /** A flat vector is read exactly where its size and its elements stand. */
  lemma WordsIff(data: seq<Byte>, pos: nat, v: seq<Int32>, q: nat)
    ensures ReadWords(data, pos) == Got(v, q) <==>
      VectorStands(data, pos, |v|, Words(v)) && q == pos + 4 + 4 * |v|
  {
    StandsIff(data, pos, |v|, Words(v));
    var r := WordsSeen(data, pos, v, q);
  }

  lemma WordsSeen(data: seq<Byte>, pos: nat, v: seq<Int32>, q: nat) returns (r: Read<seq<Int32>>)
    ensures r == ReadWords(data, pos)
    ensures r == Got(v, q) <==> VectorSeen(data, pos, |v|, Words(v)) && q == pos + 4 + 4 * |v|
  {
    var size := ReadInt32(data, pos);
    if size.Got? && size.value >= 0 {
      WordsRead(data, pos, size.value);
      r := WordsBehind(data, pos, size.value);
      WordsBehindIff(data, pos, size.value, v, q);
    } else {
      r := Failed(if size.Got? then UnexpectedNull else NotEnoughData);
    }
  }

  lemma WordsBehindIff(data: seq<Byte>, pos: nat, n: nat, v: seq<Int32>, q: nat)
    ensures WordsBehind(data, pos, n) == Got(v, q) <==>
      && n == |v| && 4 * n <= INT32_MAX && pos + 4 + 4 * n <= |data|
      && data[pos + 4..pos + 4 + 4 * n] == Words(v) && q == pos + 4 + 4 * n
  {
    if pos + 4 + 4 * n <= |data| { ElementsIff(data[pos + 4..pos + 4 + 4 * n], n, v); }
  }

  lemma ElementsIff(b: seq<Byte>, n: nat, v: seq<Int32>)
    requires |b| == 4 * n
    ensures |UnWords(b)| == n && (b == Words(v) <==> UnWords(b) == v)
  {
    WordsOf(b);
    WordsRoundTrip(v);
  }

  lemma LongsIff(data: seq<Byte>, pos: nat, v: seq<Int64>, q: nat)
    ensures ReadLongs(data, pos) == Got(v, q) <==>
      VectorStands(data, pos, |v|, Longs(v)) && q == pos + 4 + 8 * |v|
  {
    StandsIff(data, pos, |v|, Longs(v));
    var r := LongsSeen(data, pos, v, q);
  }

  lemma LongsSeen(data: seq<Byte>, pos: nat, v: seq<Int64>, q: nat) returns (r: Read<seq<Int64>>)
    ensures r == ReadLongs(data, pos)
    ensures r == Got(v, q) <==> VectorSeen(data, pos, |v|, Longs(v)) && q == pos + 4 + 8 * |v|
  {
    var size := ReadInt32(data, pos);
    if size.Got? && size.value >= 0 {
      LongsRead(data, pos, size.value);
      r := LongsBehind(data, pos, size.value);
      LongsBehindIff(data, pos, size.value, v, q);
    } else {
      r := Failed(if size.Got? then UnexpectedNull else NotEnoughData);
    }
  }

  lemma LongsBehindIff(data: seq<Byte>, pos: nat, n: nat, v: seq<Int64>, q: nat)
    ensures LongsBehind(data, pos, n) == Got(v, q) <==>
      && n == |v| && 8 * n <= INT32_MAX && pos + 4 + 8 * n <= |data|
      && data[pos + 4..pos + 4 + 8 * n] == Longs(v) && q == pos + 4 + 8 * n
  {
    if pos + 4 + 8 * n <= |data| { LongElementsIff(data[pos + 4..pos + 4 + 8 * n], n, v); }
  }

  lemma LongElementsIff(b: seq<Byte>, n: nat, v: seq<Int64>)
    requires |b| == 8 * n
    ensures |UnLongs(b)| == n && (b == Longs(v) <==> UnLongs(b) == v)
  {
    LongsOf(b);
    LongsRoundTrip(v);
  }

  /** Where a string that stands at pos ends. */
  function Behind(pos: nat, s: String16): nat { pos + 4 + Pad(2 * |s| + 2) }

  /** One string after the other, each where the one before it ends. */
  ghost predicate StringsStand(data: seq<Byte>, pos: nat, v: seq<String16>, q: nat)
    decreases |v|
  {
    if v == [] then q == pos else StringStands(data, pos, v[0]) && StringsStand(data, Behind(pos, v[0]), v[1..], q)
  }

  lemma {:induction false} StringsBounds(data: seq<Byte>, pos: nat, v: seq<String16>, q: nat)
    requires StringsStand(data, pos, v, q)
    ensures q >= pos + 8 * |v| && (v != [] ==> q <= |data|)
    decreases |v|
  {
    if v != [] { StringsBounds(data, Behind(pos, v[0]), v[1..], q); }
  }

  ghost predicate StringAt(data: seq<Byte>, pos: nat, s: String16, next: nat) { ReadString(data, pos) == Got(s, next) }

  ghost predicate StringsAt(data: seq<Byte>, pos: nat, v: seq<String16>, q: nat) {
    ReadStringsFrom(data, pos, |v|) == Got(v, q)
  }

  lemma StringsUnfold(data: seq<Byte>, pos: nat, v: seq<String16>, q: nat, next: nat)
    requires v != [] && StringAt(data, pos, v[0], next)
    ensures StringsAt(data, pos, v, q) <==> StringsAt(data, next, v[1..], q)
  {
    var more := ReadStringsFrom(data, next, |v| - 1);
    assert v == [v[0]] + v[1..];
    if more.Got? { assert ([v[0]] + more.value)[1..] == more.value; }
  }

  lemma FirstAt(data: seq<Byte>, pos: nat, v: seq<String16>, q: nat) returns (next: nat)
    requires v != [] && StringsAt(data, pos, v, q)
    ensures StringAt(data, pos, v[0], next)
  {
    next := ReadString(data, pos).pos;
    assert v[0] == ReadString(data, pos).value;
  }

  lemma StringAtIff(data: seq<Byte>, pos: nat, s: String16, next: nat)
    ensures StringAt(data, pos, s, next) <==> StringStands(data, pos, s) && next == Behind(pos, s)
  {
    StringIff(data, pos, s, next);
  }

  lemma {:induction false} StringsFromIff(data: seq<Byte>, pos: nat, v: seq<String16>, q: nat)
    ensures StringsAt(data, pos, v, q) <==> StringsStand(data, pos, v, q)
    decreases |v|
  {
    if v != [] {
      var next := Behind(pos, v[0]);
      StringAtIff(data, pos, v[0], next);
      if StringAt(data, pos, v[0], next) {
        StringsUnfold(data, pos, v, q, next);
        StringsFromIff(data, next, v[1..], q);
      } else if StringsAt(data, pos, v, q) {
        var p := FirstAt(data, pos, v, q);
        StringAtIff(data, pos, v[0], p);
      }
    }
  }

  /** A vector of strings is read exactly where its size and its strings stand. */
  lemma StringsIff(data: seq<Byte>, pos: nat, v: seq<String16>, q: nat)
    ensures ReadStrings(data, pos) == Got(v, q) <==>
      |v| <= INT32_MAX && At(data, pos, Word(|v|)) && StringsStand(data, pos + 4, v, q)
    ensures pos + 4 <= |data| && Signed(Unsigned(data[pos..pos + 4])) > |data| - (pos + 4) ==>
      ReadStrings(data, pos) == Failed(BadValue)
  {
    StringsFromIff(data, pos + 4, v, q);
    if StringsStand(data, pos + 4, v, q) { StringsBounds(data, pos + 4, v, q); }
    if |v| <= INT32_MAX { SizeIff(data, pos, |v|); }
    if ReadStrings(data, pos) == Got(v, q) { StringsLength(data, pos, v, q); }
  }

  lemma StringsLength(data: seq<Byte>, pos: nat, v: seq<String16>, q: nat)
    requires ReadStrings(data, pos) == Got(v, q)
    ensures |v| <= INT32_MAX && ReadInt32(data, pos) == Got(|v|, pos + 4)
  {
    StringsCount(data, pos + 4, ReadInt32(data, pos).value);
  }

  lemma {:induction false} StringsCount(data: seq<Byte>, pos: nat, n: nat)
    ensures ReadStringsFrom(data, pos, n).Got? ==> |ReadStringsFrom(data, pos, n).value| == n
    decreases n
  {
    if n > 0 && ReadString(data, pos).Got? { StringsCount(data, ReadString(data, pos).pos, n - 1); }
  }

  /** Which status a vector that cannot be read gives: no size, a null vector, or elements that are not there. */
  lemma VectorFailures(data: seq<Byte>, pos: nat)
    ensures ReadWords(data, pos).Failed? ==> ReadWords(data, pos).status == FlatFailure(data, pos)
    ensures ReadLongs(data, pos).Failed? ==> ReadLongs(data, pos).status == FlatFailure(data, pos)
    ensures ReadStrings(data, pos).Failed? && ReadStrings(data, pos).status != UnexpectedNull ==>
      ReadStrings(data, pos).status == FlatFailure(data, pos)
  {
    if pos + 4 <= |data| {
      var n := Signed(Unsigned(data[pos..pos + 4]));
      if n >= 0 { StringsFailure(data, pos + 4, n); }
    }
  }

  lemma {:induction false} StringsFailure(data: seq<Byte>, pos: nat, n: nat)
    ensures ReadStringsFrom(data, pos, n).Failed? ==> ReadStringsFrom(data, pos, n).status == UnexpectedNull
    decreases n
  {
    if n > 0 && ReadString(data, pos).Got? { StringsFailure(data, ReadString(data, pos).pos, n - 1); }
  }

  /** The sign of a word is in its last byte. */
  function FlatFailure(data: seq<Byte>, pos: nat): Status {
    if pos + 4 > |data| then NotEnoughData else if data[pos + 3] >= 0x80 then UnexpectedNull else BadValue
  }

  // ----- the forms, byte by byte -----

  /** Words are written least significant byte first, and strings with their terminator, padded to words. */
  lemma WordBytes()
    ensures Word(0x01020304) == [4, 3, 2, 1] && Word(-2) == [0xFE, 0xFF, 0xFF, 0xFF]
    ensures Long(0x0102030405060708) == [8, 7, 6, 5, 4, 3, 2, 1]
  {
  }

  lemma VectorBytes()
    ensures EncodeWords([7]) == [1, 0, 0, 0, 7, 0, 0, 0]
    ensures EncodeLongs([7]) == [1, 0, 0, 0, 7, 0, 0, 0, 0, 0, 0, 0]
    ensures EncodeStrings([[0x6B]]) == [1, 0, 0, 0, 1, 0, 0, 0, 0x6B, 0, 0, 0]
  {
    assert Words([7]) == [7, 0, 0, 0] by { assert [7][1..] == [] && Words([7]) == Word(7) + Words([]); }
    assert Longs([7]) == [7, 0, 0, 0, 0, 0, 0, 0] by { assert [7][1..] == [] && Longs([7]) == Long(7) + Longs([]); }
    assert Strings([[0x6B]]) == [1, 0, 0, 0, 0x6B, 0, 0, 0] by {
      StringBytes();
      var one: String16 := [0x6B];
      assert [one][1..] == [] && Strings([one]) == EncodeString(one) + Strings([]);
    }
    assert Zeros(0) == [] && Word(1) == [1, 0, 0, 0];
  }

  lemma StringBytes()
    ensures EncodeString([0x6B]) == [1, 0, 0, 0, 0x6B, 0, 0, 0]
    ensures EncodeString([0x6B, 0x1234]) == [2, 0, 0, 0, 0x6B, 0, 0x34, 0x12, 0, 0, 0, 0]
  {
    var z: String16 := [0];
    var k: String16 := [0x6B];
    var kz: String16 := [0x6B, 0];
    var kx: String16 := [0x6B, 0x1234, 0];
    assert z[1..] == [] && Halves(z) == [0, 0];
    assert kz[1..] == z && Halves(kz) == [0x6B, 0, 0, 0];
    assert kx[1..] == [0x1234, 0] && kx[1..][1..] == z;
    assert Halves(kx[1..]) == [0x34, 0x12, 0, 0] && Halves(kx) == [0x6B, 0, 0x34, 0x12, 0, 0];
    assert k + [0] == kz && [0x6B, 0x1234] + [0] == kx;
    assert Zeros(2) == [0, 0] && Zeros(0) == [];
  }

  /** The type tags, in the order in which the maps are written and searched. */
  const WRITE_ORDER: seq<int> := [9, 1, 6, 8, 0, 23, 18, 19, 28, 14, 25]

  lemma TagsInOrder(v: Value)
    ensures Slot(v) < 11 && Tag(v) == WRITE_ORDER[Slot(v)]
    ensures v.Bool? == (Tag(v) == 9) && v.Int? == (Tag(v) == 1) && v.LongInt? == (Tag(v) == 6)
    ensures v.Double? == (Tag(v) == 8) && v.Str? == (Tag(v) == 0) && v.Bools? == (Tag(v) == 23)
    ensures v.Ints? == (Tag(v) == 18) && v.LongInts? == (Tag(v) == 19) && v.Doubles? == (Tag(v) == 28)
    ensures v.Strs? == (Tag(v) == 14) && v.Nested? == (Tag(v) == 25)
  {
  }

  /** A bundle with one integer, byte by byte: length and magic, then count, key, tag and value. */
  lemma BundleBytes()
    ensures var b := Bundle([Entry([0x6B], Int(5))]);
      && Encode(b) == [20, 0, 0, 0, 0x44, 0x4E, 0x44, 0x4C] + Body(b)
      && Body(b) == [1, 0, 0, 0, 1, 0, 0, 0, 0x6B, 0, 0, 0, 1, 0, 0, 0, 5, 0, 0, 0]
  {
    BodyBytes();
    HeaderBytes(Body(Bundle([Entry([0x6B], Int(5))])));
  }

  lemma HeaderBytes(body: seq<Byte>)
    requires |body| == 20
    ensures Word(|body|) + Word(BUNDLE_MAGIC_NATIVE) + body == [20, 0, 0, 0, 0x44, 0x4E, 0x44, 0x4C] + body
  {
    assert Word(20) == [20, 0, 0, 0] && Word(BUNDLE_MAGIC_NATIVE) == [0x44, 0x4E, 0x44, 0x4C];
  }

  lemma BodyBytes()
    ensures Body(Bundle([Entry([0x6B], Int(5))])) ==
      [1, 0, 0, 0, 1, 0, 0, 0, 0x6B, 0, 0, 0, 1, 0, 0, 0, 5, 0, 0, 0]
  {
    EntryBytes();
    BodyOfOne(Entry([0x6B], Int(5)));
  }

  lemma BodyOfOne(e: Entry)
    ensures Body(Bundle([e])) == [1, 0, 0, 0] + EncodeEntry(e)
  {
    var b := Bundle([e]);
    assert Concat(Parts(b)) == EncodeEntry(e) by { assert Parts(b) == [EncodeEntry(e)] && Parts(b)[1..] == []; }
    assert Word(1) == [1, 0, 0, 0];
  }

  lemma EntryBytes()
    ensures EncodeEntry(Entry([0x6B], Int(5))) == [1, 0, 0, 0, 0x6B, 0, 0, 0, 1, 0, 0, 0, 5, 0, 0, 0]
  {
    var e := Entry([0x6B], Int(5));
    StringBytes();
    assert Word(1) == [1, 0, 0, 0] && Word(5) == [5, 0, 0, 0];
    assert EncodeEntry(e) == EncodeString([0x6B]) + Word(1) + Word(5);
  }

  // ----- what a bundle is refused for -----

  /** A negative length is null, no length and a length of zero are nothing to read, and anything else needs a magic. */
  lemma BundleFailures(data: seq<Byte>, pos: nat, into: Bundle)
    ensures pos + 4 > |data| ==> ReadBundle(data, pos, into) == Got(into, pos)
    ensures pos + 4 <= |data| && data[pos + 3] >= 0x80 ==> ReadBundle(data, pos, into) == Failed(UnexpectedNull)
    ensures At(data, pos, [0, 0, 0, 0]) ==> ReadBundle(data, pos, into) == Got(into, pos + 4)
    ensures pos + 8 <= |data| && data[pos + 3] < 0x80 && !At(data, pos, [0, 0, 0, 0]) ==>
      data[pos + 4..pos + 8] in {[0x42, 0x4E, 0x44, 0x4C], [0x44, 0x4E, 0x44, 0x4C]}
      || ReadBundle(data, pos, into) == Failed(BadValue)
  {
    if pos + 4 <= |data| { WordOf(data[pos..pos + 4]); }
    if pos + 8 <= |data| { WordOf(data[pos + 4..pos + 8]); }
    assert Word(0) == [0, 0, 0, 0];
    if At(data, pos, [0, 0, 0, 0]) { Int32RoundTrip(data, pos, 0); }
  }

  /** An entry of another type is refused, whatever follows. */
  lemma TypeFailure(data: seq<Byte>, pos: nat, tag: int, existing: Bundle)
    requires tag !in {0, 1, 6, 8, 9, 14, 18, 19, 23, 25, 28}
    ensures ReadValue(data, pos, tag, existing) == Failed(BadType)
  {
  }
}
