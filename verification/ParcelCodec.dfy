/** The bytes a parcel holds for integers, strings and vectors, and how they are read back. */
module ParcelCodec {
  import opened Basics

  type Byte = x: nat | x < 0x100
  type Int32 = x: int | -0x8000_0000 <= x < 0x8000_0000
  type Int64 = x: int | -0x8000_0000_0000_0000 <= x < 0x8000_0000_0000_0000
  type Char16 = x: nat | x < 0x1_0000
  type String16 = seq<Char16>

  const INT32_MAX: nat := 0x7fff_ffff

  datatype Status = NoError | NotEnoughData | NoMemory | BadValue | BadType | UnexpectedNull

  datatype Read<T> = Got(value: T, pos: nat) | Failed(status: Status)

  function Pad(n: nat): nat { (n + 3) / 4 * 4 }

  // ----- integers, least significant byte first -----

  function Word(v: int): (r: seq<Byte>)
    ensures |r| == 4
  {
    [v % 0x100, v / 0x100 % 0x100, v / 0x1_0000 % 0x100, v / 0x100_0000 % 0x100]
  }

  function Unsigned(b: seq<Byte>): (r: nat)
    requires |b| == 4
    ensures r < TWO32
  {
    b[0] as nat + b[1] as nat * 0x100 + b[2] as nat * 0x1_0000 + b[3] as nat * 0x100_0000
  }

  function Signed(u: nat): Int32 requires u < TWO32 { if u < 0x8000_0000 then u else u - TWO32 }

  lemma WordUnsigned(v: int)
    ensures Unsigned(Word(v)) == v % TWO32
  {
    assert v / 0x1_0000 == v / 0x100 / 0x100 && v / 0x100_0000 == v / 0x1_0000 / 0x100;
    var q := v / TWO32;
    assert q == v / 0x100_0000 / 0x100;
    assert v == q * TWO32 + Unsigned(Word(v));
  }

  lemma WordSigned(v: Int32)
    ensures Signed(Unsigned(Word(v))) == v
  {
    WordUnsigned(v);
  }

  function Long(v: int): (r: seq<Byte>)
    ensures |r| == 8
  {
    Word(v % TWO32) + Word(v / TWO32)
  }

  function UnLong(b: seq<Byte>): Int64
    requires |b| == 8
  {
    Unsigned(b[..4]) + Signed(Unsigned(b[4..])) * TWO32
  }

  lemma LongRoundTrip(v: Int64)
    ensures UnLong(Long(v)) == v
  {
    var lo, hi := v % TWO32, v / TWO32;
    assert Long(v)[..4] == Word(lo) && Long(v)[4..] == Word(hi);
    assert Unsigned(Word(lo)) == lo by { WordUnsigned(lo); }
    assert Signed(Unsigned(Word(hi))) == hi by { WordSigned(hi); }
    assert v == lo + hi * TWO32;
  }

  /** The value stands in `data` at pos. */
  ghost predicate At(data: seq<Byte>, pos: nat, bytes: seq<Byte>) {
    pos + |bytes| <= |data| && data[pos..pos + |bytes|] == bytes
  }

  lemma AtParts(data: seq<Byte>, pos: nat, a: seq<Byte>, b: seq<Byte>)
    requires At(data, pos, a + b)
    ensures At(data, pos, a) && At(data, pos + |a|, b)
  {
    var w := data[pos..pos + |a + b|];
    assert w[..|a|] == a && w[|a|..] == b;
    assert data[pos..pos + |a|] == w[..|a|] && data[pos + |a|..pos + |a| + |b|] == w[|a|..];
  }

  // ----- one encoding after the other -----

  lemma PartAt(data: seq<Byte>, pos: nat, parts: seq<seq<Byte>>, k: nat)
    requires k < |parts| && At(data, pos, Concat(parts))
    ensures At(data, pos + |Concat(parts[..k])|, parts[k]) && |parts[k]| <= |Concat(parts)|
  {
    assert parts == parts[..k + 1] + parts[k + 1..];
    ConcatSplit(parts[..k + 1], parts[k + 1..]);
    ConcatNext(parts, k);
    AtParts(data, pos, Concat(parts[..k + 1]), Concat(parts[k + 1..]));
    AtParts(data, pos, Concat(parts[..k]), parts[k]);
  }

  lemma {:induction false} ConcatCount(parts: seq<seq<Byte>>)
    requires forall i :: 0 <= i < |parts| ==> parts[i] != []
    ensures |parts| <= |Concat(parts)|
  {
    if parts != [] { ConcatCount(parts[1..]); }
  }

  // ----- reading integers and raw bytes -----

  function ReadInt32(data: seq<Byte>, pos: nat): Read<Int32> {
    if pos + 4 <= |data| then Got(Signed(Unsigned(data[pos..pos + 4])), pos + 4) else Failed(NotEnoughData)
  }

  /** The form that answers 0 when it cannot read, and stays where it is. */
  function ReadInt32OrZero(data: seq<Byte>, pos: nat): (Int32, nat) {
    match ReadInt32(data, pos)
    case Got(v, p) => (v, p)
    case Failed(_) => (0, pos)
  }

  function ReadInt64(data: seq<Byte>, pos: nat): Read<Int64> {
    if pos + 8 <= |data| then Got(UnLong(data[pos..pos + 8]), pos + 8) else Failed(NotEnoughData)
  }

  lemma Int32RoundTrip(data: seq<Byte>, pos: nat, v: Int32)
    requires At(data, pos, Word(v))
    ensures ReadInt32(data, pos) == Got(v, pos + 4)
  {
    WordSigned(v);
  }

  lemma Int64RoundTrip(data: seq<Byte>, pos: nat, v: Int64)
    requires At(data, pos, Long(v))
    ensures ReadInt64(data, pos) == Got(v, pos + 8)
  {
    LongRoundTrip(v);
  }

  /** Padded raw bytes. */
  function ReadInplace(data: seq<Byte>, pos: nat, len: nat): Read<seq<Byte>> {
    if len <= INT32_MAX && pos + Pad(len) <= |data| then Got(data[pos..pos + len], pos + Pad(len))
    else Failed(NotEnoughData)
  }

  function Zeros(n: nat): seq<Byte> { seq(n, _ => 0) }

  function Padded(b: seq<Byte>): (r: seq<Byte>)
    ensures |r| == Pad(|b|)
  {
    b + Zeros(Pad(|b|) - |b|)
  }

  lemma InplaceRoundTrip(data: seq<Byte>, pos: nat, b: seq<Byte>)
    requires At(data, pos, Padded(b)) && |b| <= INT32_MAX
    ensures ReadInplace(data, pos, |b|) == Got(b, pos + Pad(|b|))
  {
    AtParts(data, pos, b, Zeros(Pad(|b|) - |b|));
  }

  // ----- strings -----

  function Halves(s: String16): (r: seq<Byte>)
    ensures |r| == 2 * |s|
  {
    if s == [] then [] else [s[0] % 0x100, s[0] / 0x100] + Halves(s[1..])
  }

  function Chars(b: seq<Byte>): (s: String16)
    requires |b| % 2 == 0
    ensures |s| == |b| / 2
  {
    if b == [] then [] else [b[0] as nat + b[1] as nat * 0x100] + Chars(b[2..])
  }

  lemma {:induction false} CharsOf(s: String16)
    ensures Chars(Halves(s)) == s
  {
    if s != [] {
      assert Halves(s)[2..] == Halves(s[1..]);
      CharsOf(s[1..]);
      assert s == [s[0]] + s[1..];
    }
  }

  /** Length, then the units and a terminating NUL, padded. */
  function EncodeString(s: String16): seq<Byte> { Word(|s|) + Padded(Halves(s + [0])) }

  function ReadString(data: seq<Byte>, pos: nat): Read<String16> {
    var (size, p) := ReadInt32OrZero(data, pos);
    if 0 <= size < INT32_MAX then
      match ReadInplace(data, p, (size + 1) * 2)
      case Got(b, q) => if Chars(b)[size] == 0 then Got(Chars(b)[..size], q) else Failed(UnexpectedNull)
      case Failed(_) => Failed(UnexpectedNull)
    else Failed(UnexpectedNull)
  }

  lemma StringRoundTrip(data: seq<Byte>, pos: nat, s: String16)
    requires At(data, pos, EncodeString(s)) && |EncodeString(s)| <= INT32_MAX
    ensures ReadString(data, pos) == Got(s, pos + |EncodeString(s)|)
  {
    AtParts(data, pos, Word(|s|), Padded(Halves(s + [0])));
    Int32RoundTrip(data, pos, |s|);
    InplaceRoundTrip(data, pos + 4, Halves(s + [0]));
    CharsOf(s + [0]);
  }

  // ----- vectors -----

  /** The flat element types: booleans and int32 take a word, int64 and doubles two. */
  function Words(v: seq<int>): (r: seq<Byte>)
    ensures |r| == 4 * |v|
  {
    if v == [] then [] else Word(v[0]) + Words(v[1..])
  }

  function UnWords(b: seq<Byte>): (v: seq<Int32>)
    requires |b| % 4 == 0
    ensures |v| == |b| / 4
  {
    if b == [] then [] else [Signed(Unsigned(b[..4]))] + UnWords(b[4..])
  }

  function Longs(v: seq<int>): (r: seq<Byte>)
    ensures |r| == 8 * |v|
  {
    if v == [] then [] else Long(v[0]) + Longs(v[1..])
  }

  function UnLongs(b: seq<Byte>): (v: seq<Int64>)
    requires |b| % 8 == 0
    ensures |v| == |b| / 8
  {
    if b == [] then [] else [UnLong(b[..8])] + UnLongs(b[8..])
  }

  lemma {:induction false} WordsRoundTrip(v: seq<Int32>)
    ensures UnWords(Words(v)) == v
  {
    if v != [] {
      assert Words(v)[..4] == Word(v[0]) && Words(v)[4..] == Words(v[1..]);
      WordSigned(v[0]);
      WordsRoundTrip(v[1..]);
      assert v == [v[0]] + v[1..];
    }
  }

  lemma {:induction false} LongsRoundTrip(v: seq<Int64>)
    ensures UnLongs(Longs(v)) == v
  {
    if v != [] {
      assert Longs(v)[..8] == Long(v[0]) && Longs(v)[8..] == Longs(v[1..]);
      LongRoundTrip(v[0]);
      LongsRoundTrip(v[1..]);
      assert v == [v[0]] + v[1..];
    }
  }

  function EncodeWords(v: seq<int>): seq<Byte> { Word(|v|) + Padded(Words(v)) }

  function EncodeLongs(v: seq<int>): seq<Byte> { Word(|v|) + Padded(Longs(v)) }

  /** The size word of a vector, checked against the bytes that are left. */
  function ReadSize(data: seq<Byte>, pos: nat): Read<nat> {
    match ReadInt32(data, pos)
    case Failed(s) => Failed(s)
    case Got(n, p) => if n < 0 then Failed(UnexpectedNull) else if n > |data| - p then Failed(BadValue) else Got(n, p)
  }

  function ReadWords(data: seq<Byte>, pos: nat): Read<seq<Int32>> {
    match ReadSize(data, pos)
    case Failed(s) => Failed(s)
    case Got(n, p) =>
      match ReadInplace(data, p, 4 * n)
      case Got(b, q) => Got(UnWords(b), q)
      case Failed(_) => Failed(BadValue)
  }

  function ReadLongs(data: seq<Byte>, pos: nat): Read<seq<Int64>> {
    match ReadSize(data, pos)
    case Failed(s) => Failed(s)
    case Got(n, p) =>
      match ReadInplace(data, p, 8 * n)
      case Got(b, q) => Got(UnLongs(b), q)
      case Failed(_) => Failed(BadValue)
  }

  lemma VectorWordsRoundTrip(data: seq<Byte>, pos: nat, v: seq<Int32>)
    requires At(data, pos, EncodeWords(v)) && |EncodeWords(v)| <= INT32_MAX
    ensures ReadWords(data, pos) == Got(v, pos + |EncodeWords(v)|)
  {
    AtParts(data, pos, Word(|v|), Padded(Words(v)));
    Int32RoundTrip(data, pos, |v|);
    InplaceRoundTrip(data, pos + 4, Words(v));
    WordsRoundTrip(v);
  }

  lemma VectorLongsRoundTrip(data: seq<Byte>, pos: nat, v: seq<Int64>)
    requires At(data, pos, EncodeLongs(v)) && |EncodeLongs(v)| <= INT32_MAX
    ensures ReadLongs(data, pos) == Got(v, pos + |EncodeLongs(v)|)
  {
    AtParts(data, pos, Word(|v|), Padded(Longs(v)));
    Int32RoundTrip(data, pos, |v|);
    InplaceRoundTrip(data, pos + 4, Longs(v));
    LongsRoundTrip(v);
  }

  function Strings(v: seq<String16>): seq<Byte> {
    if v == [] then [] else EncodeString(v[0]) + Strings(v[1..])
  }

  function EncodeStrings(v: seq<String16>): seq<Byte> { Word(|v|) + Strings(v) }

  function ReadStringsFrom(data: seq<Byte>, pos: nat, n: nat): (r: Read<seq<String16>>)
    ensures r.Got? ==> r.pos >= pos
    decreases n
  {
    if n == 0 then Got([], pos)
    else match ReadString(data, pos)
      case Failed(s) => Failed(s)
      case Got(s, p) =>
        match ReadStringsFrom(data, p, n - 1)
        case Failed(s) => Failed(s)
        case Got(rest, q) => Got([s] + rest, q)
  }

  function ReadStrings(data: seq<Byte>, pos: nat): Read<seq<String16>> {
    match ReadSize(data, pos)
    case Failed(s) => Failed(s)
    case Got(n, p) => ReadStringsFrom(data, p, n)
  }

  lemma {:induction false} StringsRoundTrip(data: seq<Byte>, pos: nat, v: seq<String16>)
    requires At(data, pos, Strings(v)) && |Strings(v)| <= INT32_MAX
    ensures ReadStringsFrom(data, pos, |v|) == Got(v, pos + |Strings(v)|) && |v| <= |Strings(v)|
    decreases |v|
  {
    if v != [] {
      var first, rest, next := v[0], v[1..], pos + |EncodeString(v[0])|;
      AtParts(data, pos, EncodeString(first), Strings(rest));
      StringRoundTrip(data, pos, first);
      StringsRoundTrip(data, next, rest);
      StringsAgain(data, pos, next, first, rest);
      assert v == [first] + rest;
    }
  }

  lemma StringsAgain(data: seq<Byte>, pos: nat, next: nat, first: String16, rest: seq<String16>)
    requires ReadString(data, pos) == Got(first, next) && ReadStringsFrom(data, next, |rest|).Got?
    ensures ReadStringsFrom(data, pos, |rest| + 1) ==
      Got([first] + ReadStringsFrom(data, next, |rest|).value, ReadStringsFrom(data, next, |rest|).pos)
  {
  }

  lemma VectorStringsRoundTrip(data: seq<Byte>, pos: nat, v: seq<String16>)
    requires At(data, pos, EncodeStrings(v)) && |EncodeStrings(v)| <= INT32_MAX
    ensures ReadStrings(data, pos) == Got(v, pos + |EncodeStrings(v)|)
  {
    AtParts(data, pos, Word(|v|), Strings(v));
    StringsRoundTrip(data, pos + 4, v);
    Int32RoundTrip(data, pos, |v|);
  }
}
