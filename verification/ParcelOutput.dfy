/** Appending to a parcel as a value: what each writer leaves behind and answers, and exactly when all of it arrives. */
module ParcelOutput {
  import opened Basics
  import opened ParcelCodec

  /** The contents of a parcel that is written at its end, the size of its buffer, and the error it has noted. */
  datatype Out = Out(bytes: seq<Byte>, capacity: nat, error: Status)

  datatype Written = Written(status: Status, out: Out)

  predicate Sound(o: Out) { |o.bytes| <= o.capacity <= INT32_MAX }

  /** The capacity asked for when the contents are to be `total` bytes. */
  function Grown(total: nat): nat {
    var want := total * 3 / 2;
    if want < 128 then 128 else want
  }

  /** The largest total for which a buffer can be had with this much memory; none if even the smallest is too large. */
  function Limit(memory: nat): (r: int)
    ensures r <= INT32_MAX
  {
    var max := if memory < INT32_MAX then memory else INT32_MAX;
    if max < 128 then -1 else (2 * max + 1) / 3
  }

  lemma LimitIff(memory: nat, total: nat)
    ensures total <= Limit(memory) <==> Grown(total) <= INT32_MAX && Grown(total) <= memory
  {
  }

  /** n more bytes behind `size` fit the buffer or a larger one that can be had. */
  predicate Fits(memory: nat, capacity: nat, size: nat, n: nat) { size + n <= capacity || size + n <= Limit(memory) }

  /** The capacity after they are written. */
  function Next(capacity: nat, size: nat, n: nat): nat { if size + n <= capacity then capacity else Grown(size + n) }

  /** The error noted after they were not: only refused memory leaves a note. */
  function Noted(memory: nat, o: Out, n: nat): Status {
    var want := Grown(|o.bytes| + n);
    if want <= INT32_MAX && want > memory then NoMemory else o.error
  }

  // ----- the writers -----

  function Add(o: Out, b: seq<Byte>): Out { Out(o.bytes + b, Next(o.capacity, |o.bytes|, |b|), o.error) }

  /** An integer: `writeAligned`. */
  function PutInt(memory: nat, o: Out, b: seq<Byte>): Written {
    if Fits(memory, o.capacity, |o.bytes|, |b|) then Written(NoError, Add(o, b))
    else Written(if Grown(|o.bytes| + |b|) <= INT32_MAX then NoMemory else BadValue, o.(error := Noted(memory, o, |b|)))
  }

  predicate FitsPadded(memory: nat, o: Out, n: nat) {
    n <= INT32_MAX && Fits(memory, o.capacity, |o.bytes|, Pad(n))
  }

  /** Padded bytes: `writeInplace` and the copy. */
  function PutPadded(memory: nat, o: Out, b: seq<Byte>): Out {
    if FitsPadded(memory, o, |b|) then Add(o, Padded(b))
    else if |b| > INT32_MAX then o else o.(error := Noted(memory, o, Pad(|b|)))
  }

  /** The units of a string: where they do not fit, the answer is whatever error is noted, possibly none. */
  function PutUnits(memory: nat, o: Out, b: seq<Byte>): Written {
    var o1 := PutPadded(memory, o, b);
    Written(if FitsPadded(memory, o, |b|) then NoError else o1.error, o1)
  }

  function PutString(memory: nat, o: Out, s: String16): Written {
    var w := PutInt(memory, o, Word(|s|));
    if w.status != NoError then w else PutUnits(memory, w.out, Halves(s + [0]))
  }

  /**
   * The bytes of a flat vector. An empty vector has no storage, and then as where they do not fit the answer is the
   * error that is noted; booleans are copied one by one and answer BadValue where they do not fit.
   */
  function PutFlat(memory: nat, o: Out, b: seq<Byte>, bools: bool): Written {
    var o1 := PutPadded(memory, o, b);
    if |b| > INT32_MAX then Written(BadValue, o)
    else if bools then Written(if FitsPadded(memory, o, |b|) then NoError else BadValue, o1)
    else Written(if FitsPadded(memory, o, |b|) && b != [] then NoError else o1.error, o1)
  }

  /** Nobody looks at the answer of the write of a vector's size. */
  function PutSize(memory: nat, o: Out, count: nat): Out { PutInt(memory, o, Word(count)).out }

  function PutVector(memory: nat, o: Out, count: nat, b: seq<Byte>, bools: bool): Written {
    if count > INT32_MAX then Written(BadValue, o) else PutFlat(memory, PutSize(memory, o, count), b, bools)
  }

  function PutEach(memory: nat, o: Out, v: seq<String16>): Written
    decreases |v|
  {
    if v == [] then Written(NoError, o)
    else
      var w := PutString(memory, o, v[0]);
      if w.status != NoError then w else PutEach(memory, w.out, v[1..])
  }

  function PutStrings(memory: nat, o: Out, v: seq<String16>): Written {
    if |v| > INT32_MAX then Written(BadValue, o) else PutEach(memory, PutSize(memory, o, |v|), v)
  }

  // ----- when everything arrives -----

  /** Pieces of these sizes, one after the other, all fit. */
  predicate Room(memory: nat, capacity: nat, size: nat, pieces: seq<nat>)
    decreases |pieces|
  {
    pieces == [] || (Fits(memory, capacity, size, pieces[0]) &&
      Room(memory, Next(capacity, size, pieces[0]), size + pieces[0], pieces[1..]))
  }

  function Sum(pieces: seq<nat>): nat { if pieces == [] then 0 else pieces[0] + Sum(pieces[1..]) }

  /** The capacity after them. */
  function Last(capacity: nat, size: nat, pieces: seq<nat>): nat
    decreases |pieces|
  {
    if pieces == [] then capacity else Last(Next(capacity, size, pieces[0]), size + pieces[0], pieces[1..])
  }

  lemma {:induction false} RoomSplit(memory: nat, capacity: nat, size: nat, a: seq<nat>, b: seq<nat>)
    ensures Sum(a + b) == Sum(a) + Sum(b)
    ensures Room(memory, capacity, size, a + b) <==>
      Room(memory, capacity, size, a) && Room(memory, Last(capacity, size, a), size + Sum(a), b)
    ensures Last(capacity, size, a + b) == Last(Last(capacity, size, a), size + Sum(a), b)
    decreases |a|
  {
    if a == [] {
      assert a + b == b;
    } else {
      assert (a + b)[1..] == a[1..] + b;
      RoomSplit(memory, Next(capacity, size, a[0]), size + a[0], a[1..], b);
    }
  }

  /** Everything fits when the total does, in the buffer there is or in one that can be had, */
  lemma {:induction false} RoomForTotal(memory: nat, capacity: nat, size: nat, pieces: seq<nat>)
    requires size + Sum(pieces) <= capacity || size + Sum(pieces) <= Limit(memory)
    ensures Room(memory, capacity, size, pieces)
    decreases |pieces|
  {
    if pieces != [] {
      RoomForTotal(memory, Next(capacity, size, pieces[0]), size + pieces[0], pieces[1..]);
    }
  }

  /** and only what the largest possible buffer can hold fits. */
  lemma {:induction false} RoomBound(memory: nat, capacity: nat, size: nat, pieces: seq<nat>)
    requires Room(memory, capacity, size, pieces) && size <= capacity <= INT32_MAX
    ensures size + Sum(pieces) <= INT32_MAX && (size + Sum(pieces) <= capacity || size + Sum(pieces) <= memory)
    decreases |pieces|
  {
    if pieces != [] {
      LimitIff(memory, size + pieces[0]);
      RoomBound(memory, Next(capacity, size, pieces[0]), size + pieces[0], pieces[1..]);
    }
  }

  /**
   * What a writer of the bytes `enc`, in pieces of these sizes, has to do with them: it never adds more, what was there
   * stays, and it answers NoError with all of them added exactly if the pieces have room and, unless `clean`, no error
   * is noted yet.
   */
  ghost predicate Exact(memory: nat, o: Out, w: Written, enc: seq<Byte>, pieces: seq<nat>, clean: bool) {
    && Sound(w.out) && o.bytes <= w.out.bytes && |w.out.bytes| <= |o.bytes| + |enc| && Sum(pieces) == |enc|
    && (Whole(o, w, enc) <==> Room(memory, o.capacity, |o.bytes|, pieces) && (clean || o.error == NoError))
    && (Whole(o, w, enc) ==> w.out == Out(o.bytes + enc, Last(o.capacity, |o.bytes|, pieces), o.error))
  }

  ghost predicate Whole(o: Out, w: Written, enc: seq<Byte>) {
    w.status == NoError && |w.out.bytes| == |o.bytes| + |enc|
  }

  /** One writer after the other, the second only if the first answered NoError. */
  lemma ExactThen(memory: nat, o: Out, w1: Written, w: Written, enc1: seq<Byte>, enc2: seq<Byte>,
                  pieces1: seq<nat>, pieces2: seq<nat>, clean1: bool, clean2: bool)
    requires Exact(memory, o, w1, enc1, pieces1, clean1) && Sum(pieces2) == |enc2|
    requires if w1.status == NoError then Exact(memory, w1.out, w, enc2, pieces2, clean2) else w == w1
    ensures Exact(memory, o, w, enc1 + enc2, pieces1 + pieces2, clean1 && clean2)
  {
    RoomSplit(memory, o.capacity, |o.bytes|, pieces1, pieces2);
    if w1.status == NoError && Whole(o, w1, enc1) {
      Assoc(o.bytes, enc1, enc2);
    }
  }

  lemma ExactInt(memory: nat, o: Out, b: seq<Byte>)
    requires Sound(o) && |b| > 0
    ensures Exact(memory, o, PutInt(memory, o, b), b, [|b|], true)
    ensures Exact(memory, o, Written(NoError, PutInt(memory, o, b).out), b, [|b|], true)
  {
    LimitIff(memory, |o.bytes| + |b|);
  }

  lemma PaddedFits(memory: nat, o: Out, n: nat)
    requires Sound(o)
    ensures FitsPadded(memory, o, n) <==> Fits(memory, o.capacity, |o.bytes|, Pad(n))
  {
  }

  lemma ExactPadded(memory: nat, o: Out, b: seq<Byte>)
    requires Sound(o)
    ensures var o1 := PutPadded(memory, o, b);
      && Sound(o1) && o.bytes <= o1.bytes && |o1.bytes| <= |o.bytes| + Pad(|b|)
      && (FitsPadded(memory, o, |b|) ==> o1 == Add(o, Padded(b)))
      && (!FitsPadded(memory, o, |b|) ==> o1.bytes == o.bytes && Pad(|b|) > 0)
  {
    LimitIff(memory, |o.bytes| + Pad(|b|));
  }

  lemma ExactUnits(memory: nat, o: Out, b: seq<Byte>)
    requires Sound(o)
    ensures Exact(memory, o, PutUnits(memory, o, b), Padded(b), [Pad(|b|)], true)
  {
    ExactPadded(memory, o, b);
    PaddedFits(memory, o, |b|);
  }

  lemma ExactFlat(memory: nat, o: Out, b: seq<Byte>, bools: bool)
    requires Sound(o)
    ensures Exact(memory, o, PutFlat(memory, o, b, bools), Padded(b), [Pad(|b|)], bools || b != [])
  {
    ExactPadded(memory, o, b);
    PaddedFits(memory, o, |b|);
  }

  function StringPieces(s: String16): seq<nat> { [4] + [Pad(2 * |s| + 2)] }

  lemma ExactString(memory: nat, o: Out, s: String16)
    requires Sound(o)
    ensures Exact(memory, o, PutString(memory, o, s), EncodeString(s), StringPieces(s), true)
  {
    var w, units := PutInt(memory, o, Word(|s|)), Halves(s + [0]);
    ExactInt(memory, o, Word(|s|));
    if w.status == NoError { ExactUnits(memory, w.out, units); }
    ExactThen(memory, o, w, PutString(memory, o, s), Word(|s|), Padded(units), [4], [Pad(|units|)], true, true);
  }

  function VectorPieces(b: seq<Byte>): seq<nat> { [4] + [Pad(|b|)] }

  /** A flat vector arrives whole with NoError exactly if both pieces fit and, where it is empty, no error is noted. */
  lemma ExactVector(memory: nat, o: Out, count: nat, b: seq<Byte>, bools: bool)
    requires Sound(o) && count <= |b|
    ensures Exact(memory, o, PutVector(memory, o, count, b, bools),
                  Word(count) + Padded(b), VectorPieces(b), bools || b != [])
  {
    var w := Written(NoError, PutSize(memory, o, count));
    ExactInt(memory, o, Word(count));
    RoomSplit(memory, o.capacity, |o.bytes|, [4], [Pad(|b|)]);
    if count > INT32_MAX {
      var pieces := VectorPieces(b);
      if Room(memory, o.capacity, |o.bytes|, pieces) { RoomBound(memory, o.capacity, |o.bytes|, pieces); }
    } else {
      ExactFlat(memory, w.out, b, bools);
      ExactThen(memory, o, w, PutVector(memory, o, count, b, bools),
                Word(count), Padded(b), [4], [Pad(|b|)], true, bools || b != []);
    }
  }

  function EachPieces(v: seq<String16>): seq<nat> { if v == [] then [] else StringPieces(v[0]) + EachPieces(v[1..]) }

  lemma {:induction false} EachSum(v: seq<String16>)
    ensures Sum(EachPieces(v)) == |Strings(v)| >= |v|
  {
    if v != [] {
      EachSum(v[1..]);
      RoomSplit(0, 0, 0, StringPieces(v[0]), EachPieces(v[1..]));
      assert Sum(StringPieces(v[0])) == 4 + Pad(2 * |v[0]| + 2);
    }
  }

  lemma {:induction false} ExactEach(memory: nat, o: Out, v: seq<String16>)
    requires Sound(o)
    ensures Exact(memory, o, PutEach(memory, o, v), Strings(v), EachPieces(v), true)
    decreases |v|
  {
    if v == [] {
      assert o.bytes + [] == o.bytes;
    } else {
      var w := PutString(memory, o, v[0]);
      ExactString(memory, o, v[0]);
      EachSum(v[1..]);
      if w.status == NoError { ExactEach(memory, w.out, v[1..]); }
      ExactThen(memory, o, w, PutEach(memory, o, v), EncodeString(v[0]), Strings(v[1..]),
                StringPieces(v[0]), EachPieces(v[1..]), true, true);
    }
  }

  function StringsPieces(v: seq<String16>): seq<nat> { [4] + EachPieces(v) }

  lemma ExactStrings(memory: nat, o: Out, v: seq<String16>)
    requires Sound(o)
    ensures Exact(memory, o, PutStrings(memory, o, v), EncodeStrings(v), StringsPieces(v), true)
  {
    var w := Written(NoError, PutSize(memory, o, |v|));
    ExactInt(memory, o, Word(|v|));
    EachSum(v);
    if |v| > INT32_MAX {
      var pieces := StringsPieces(v);
      if Room(memory, o.capacity, |o.bytes|, pieces) { RoomBound(memory, o.capacity, |o.bytes|, pieces); }
    } else {
      ExactEach(memory, w.out, v);
      ExactThen(memory, o, w, PutStrings(memory, o, v), Word(|v|), Strings(v), [4], EachPieces(v), true, true);
    }
  }

  // ----- the answers -----

  /**
   * Half as much again as the contents need, and at least 128 bytes, is asked for when the buffer is full: more than
   * 2^31 - 1 is a bad value, more than there is no memory, and only the latter is noted. What is there stays.
   */
  lemma IntAnswers(memory: nat, o: Out, b: seq<Byte>)
    requires Sound(o)
    ensures var w, total := PutInt(memory, o, b), |o.bytes| + |b|;
      var want := if total * 3 / 2 < 128 then 128 else total * 3 / 2;
      && (w.status == NoError <==> total <= o.capacity || (want <= 0x7FFF_FFFF && want <= memory))
      && (w.status == BadValue <==> total > o.capacity && want > 0x7FFF_FFFF)
      && (w.status == NoMemory <==> total > o.capacity && memory < want <= 0x7FFF_FFFF)
      && (w.status == NoError ==>
            w.out == Out(o.bytes + b, if total <= o.capacity then o.capacity else want, o.error))
      && (w.status != NoError ==> w.out == o.(error := if w.status == NoMemory then NoMemory else o.error))
  {
    LimitIff(memory, |o.bytes| + |b|);
  }

  /** A vector that is not written answers BadValue for booleans or too many bytes, and the noted error otherwise. */
  lemma VectorAnswers(memory: nat, o: Out, count: nat, b: seq<Byte>, bools: bool)
    requires Sound(o)
    ensures var w := PutVector(memory, o, count, b, bools);
      && (count > 0x7FFF_FFFF ==> w == Written(BadValue, o))
      && (w.status != NoError ==>
            w.status == if bools || count > 0x7FFF_FFFF || |b| > 0x7FFF_FFFF then BadValue else w.out.error)
  {
  }

  // ----- what goes missing without an error -----

  /** A string loses its units, and the answer is NoError, exactly when they are too large behind the length word. */
  lemma StringLostIff(memory: nat, o: Out, s: String16)
    requires Sound(o)
    ensures var w := PutString(memory, o, s);
      w.status == NoError && !Whole(o, w, EncodeString(s)) <==>
        && o.error == NoError && Fits(memory, o.capacity, |o.bytes|, 4)
        && !Room(memory, o.capacity, |o.bytes|, StringPieces(s))
        && Grown(|o.bytes| + 4 + Pad(2 * |s| + 2)) > INT32_MAX
  {
    ExactString(memory, o, s);
    RoomSplit(memory, o.capacity, |o.bytes|, [4], [Pad(2 * |s| + 2)]);
    if Fits(memory, o.capacity, |o.bytes|, 4) { UnitsLost(memory, o, s); }
  }

  /** Behind the length word, the answer is NoError for units that fit, and for units no buffer could take. */
  lemma UnitsLost(memory: nat, o: Out, s: String16)
    requires Sound(o) && Fits(memory, o.capacity, |o.bytes|, 4)
    ensures var o1, n := Add(o, Word(|s|)), Pad(2 * |s| + 2);
      PutString(memory, o, s).status == NoError <==>
        Fits(memory, o1.capacity, |o1.bytes|, n) || (o.error == NoError && Grown(|o1.bytes| + n) > INT32_MAX)
  {
    var o1 := Add(o, Word(|s|));
    ExactInt(memory, o, Word(|s|));
    PaddedFits(memory, o1, 2 * |s| + 2);
    LimitIff(memory, |o1.bytes| + Pad(2 * |s| + 2));
  }

  /**
   * A flat vector loses bytes, and the answer is NoError, exactly in two cases: an empty one whose size word did not
   * fit, unless that left a note which only booleans ignore; or integers on a parcel without a note, where the first
   * piece that did not fit was too large for any buffer.
   */
  lemma VectorLostIff(memory: nat, o: Out, count: nat, b: seq<Byte>, bools: bool)
    requires Sound(o) && count <= |b|
    ensures var w := PutVector(memory, o, count, b, bools);
      var sized := Fits(memory, o.capacity, |o.bytes|, 4);
      w.status == NoError && !Whole(o, w, Word(count) + Padded(b)) <==>
        (if b == [] then !sized && (bools || Noted(memory, o, 4) == NoError)
         else
           && !bools && o.error == NoError && |b| <= INT32_MAX
           && !Room(memory, o.capacity, |o.bytes|, VectorPieces(b))
           && Grown(|o.bytes| + 4 + if sized then Pad(|b|) else 0) > INT32_MAX)
  {
    if b == [] { EmptyLost(memory, o, count, bools); } else { FilledLost(memory, o, count, b, bools); }
  }

  lemma EmptyLost(memory: nat, o: Out, count: nat, bools: bool)
    requires Sound(o) && count == 0
    ensures var w := PutVector(memory, o, count, [], bools);
      w.status == NoError && !Whole(o, w, Word(count) + Padded([])) <==>
        !Fits(memory, o.capacity, |o.bytes|, 4) && (bools || Noted(memory, o, 4) == NoError)
  {
    ExactVector(memory, o, count, [], bools);
    ExactInt(memory, o, Word(count));
    RoomSplit(memory, o.capacity, |o.bytes|, [4], [Pad(0)]);
  }

  lemma FilledLost(memory: nat, o: Out, count: nat, b: seq<Byte>, bools: bool)
    requires Sound(o) && count <= |b| && b != []
    ensures var w := PutVector(memory, o, count, b, bools);
      var sized := Fits(memory, o.capacity, |o.bytes|, 4);
      w.status == NoError && !Whole(o, w, Word(count) + Padded(b)) <==>
        && !bools && o.error == NoError && |b| <= INT32_MAX
        && !Room(memory, o.capacity, |o.bytes|, VectorPieces(b))
        && Grown(|o.bytes| + 4 + if sized then Pad(|b|) else 0) > INT32_MAX
  {
    ExactVector(memory, o, count, b, bools);
    ExactInt(memory, o, Word(count));
    RoomSplit(memory, o.capacity, |o.bytes|, [4], [Pad(|b|)]);
    BytesLost(memory, o, count, b, bools);
  }

  lemma BytesLost(memory: nat, o: Out, count: nat, b: seq<Byte>, bools: bool)
    requires Sound(o) && count <= |b| && b != []
    ensures var o1 := PutSize(memory, o, count);
      PutVector(memory, o, count, b, bools).status == NoError <==>
        && |b| <= INT32_MAX
        && (Fits(memory, o1.capacity, |o1.bytes|, Pad(|b|))
            || (!bools && o1.error == NoError && Grown(|o1.bytes| + Pad(|b|)) > INT32_MAX))
  {
    var o1 := PutSize(memory, o, count);
    ExactInt(memory, o, Word(count));
    PaddedFits(memory, o1, |b|);
    LimitIff(memory, |o1.bytes| + Pad(|b|));
  }

  /** The losses happen: a string, a vector of integers, and an empty vector of booleans that leaves no trace. */
  lemma LossesHappen(o: Out, s: String16, v: seq<Int32>)
    requires Sound(o) && |o.bytes| == 0x5000_0000 && o.capacity == 0x5000_0004 && o.error == NoError
    requires |s| == |v| == 0x1000_0000
    ensures forall memory :: PutString(memory, o, s) == Written(NoError, Add(o, Word(|s|)))
    ensures forall memory :: PutVector(memory, o, |v|, Words(v), false) == Written(NoError, Add(o, Word(|v|)))
    ensures PutVector(0, o.(capacity := |o.bytes|), 0, [], true) ==
      Written(NoError, o.(capacity := |o.bytes|, error := NoMemory))
  {
  }

  /** An empty vector of integers is written whole and still answers the error noted before. */
  lemma NoteReturned(memory: nat, o: Out)
    requires Sound(o) && |o.bytes| + 4 <= o.capacity
    ensures PutVector(memory, o, 0, [], false) == Written(o.error, Add(o, Word(0)))
  {
    var o1 := Add(o, Word(0));
    assert PutPadded(memory, o1, []) == o1 by { assert Padded([]) == [] && o1.bytes + [] == o1.bytes; }
  }
}
