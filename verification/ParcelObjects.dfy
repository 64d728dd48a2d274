/** Reading a parcel that holds objects: the lazily sorted table and its search hint against a full scan. */
module ParcelObjects {
  import Codec = ParcelCodec

  /** sizeof(flat_binder_object) */
  const OBJECT_SIZE: nat := 24

  // ----- tables of object offsets -----

  ghost predicate Sorted(s: seq<nat>) { forall i, j :: 0 <= i < j < |s| ==> s[i] <= s[j] }

  /** No two objects overlap; this is a matter of which offsets occur, not of their order. */
  ghost predicate Apart(m: multiset<nat>) {
    && (forall a :: a in m ==> m[a] == 1)
    && forall a, b :: a in m && b in m && a != b ==> a + OBJECT_SIZE <= b || b + OBJECT_SIZE <= a
  }

  /** The full scan: some object overlaps the bytes from pos to upper. */
  ghost predicate Overlaps(m: multiset<nat>, pos: nat, upper: nat) {
    exists o :: o in m && o < upper && pos < o + OBJECT_SIZE
  }

  // ----- insertion sort -----

  /** x put behind the last element that is not above it. */
  function Insert(s: seq<nat>, x: nat): seq<nat> {
    if s == [] || s[|s| - 1] <= x then s + [x] else Insert(s[..|s| - 1], x) + [s[|s| - 1]]
  }

  function InsertionSort(s: seq<nat>): seq<nat> {
    if s == [] then [] else Insert(InsertionSort(s[..|s| - 1]), s[|s| - 1])
  }

  lemma {:induction false} InsertPermutes(s: seq<nat>, x: nat)
    ensures multiset(Insert(s, x)) == multiset(s) + multiset{x}
  {
    if s != [] && s[|s| - 1] > x {
      InsertPermutes(s[..|s| - 1], x);
      assert s == s[..|s| - 1] + [s[|s| - 1]];
    }
  }

  lemma {:induction false} InsertSorts(s: seq<nat>, x: nat)
    requires Sorted(s)
    ensures Sorted(Insert(s, x))
  {
    if s != [] && s[|s| - 1] > x {
      var front, last := s[..|s| - 1], s[|s| - 1];
      InsertSorts(front, x);
      InsertPermutes(front, x);
      forall i | 0 <= i < |Insert(front, x)| ensures Insert(front, x)[i] <= last {
        assert Insert(front, x)[i] in multiset(Insert(front, x));
      }
    }
  }

  /** The result is a sorted permutation. */
  lemma {:induction false} SortSorts(s: seq<nat>)
    ensures Sorted(InsertionSort(s)) && multiset(InsertionSort(s)) == multiset(s)
  {
    if s != [] {
      var front := s[..|s| - 1];
      SortSorts(front);
      InsertSorts(InsertionSort(front), s[|s| - 1]);
      InsertPermutes(InsertionSort(front), s[|s| - 1]);
      assert s == front + [s[|s| - 1]];
    }
  }

  /** Elements above x stay behind it. */
  lemma {:induction false} InsertBelow(s: seq<nat>, x: nat, j: nat)
    requires j <= |s| && forall i :: j <= i < |s| ==> s[i] > x
    ensures Insert(s, x) == Insert(s[..j], x) + s[j..]
    decreases |s|
  {
    if j == |s| {
      assert s[..j] == s;
    } else {
      var front := s[..|s| - 1];
      InsertBelow(front, x, j);
      assert front[..j] == s[..j] && front[j..] + [s[|s| - 1]] == s[j..];
    }
  }

  /** The inner loop: element i moves to its place among those before it. */
  method InsertInPlace(a: array<nat>, i: nat)
    requires i < a.Length
    modifies a
    ensures a[..i + 1] == Insert(old(a[..i]), old(a[i])) && a[i + 1..] == old(a[i + 1..])
  {
    ghost var s := a[..i];
    var temp := a[i];
    var j := i;
    while j > 0 && a[j - 1] > temp
      invariant j <= i
      invariant a[..j] == s[..j] && a[j + 1..i + 1] == s[j..] && a[i + 1..] == old(a[i + 1..])
      invariant forall k :: j <= k < i ==> s[k] > temp
    {
      a[j] := a[j - 1];
      j := j - 1;
    }
    a[j] := temp;
    InsertBelow(s, temp, j);
    assert Insert(s[..j], temp) == s[..j] + [temp] by { assert j > 0 ==> s[..j][j - 1] <= temp; }
    assert a[..i + 1] == a[..j] + [temp] + a[j + 1..i + 1];
  }

  /** The sort of `validateReadData`, on the first n elements. */
  method SortInPlace(a: array<nat>, n: nat)
    requires n <= a.Length
    modifies a
    ensures a[..n] == InsertionSort(old(a[..n])) && a[n..] == old(a[n..])
  {
    ghost var s := a[..n];
    if n == 0 { return; }
    var i := 1;
    assert s[..1] == [s[0]] && InsertionSort([s[0]]) == Insert(InsertionSort([]), s[0]);
    while i < n
      invariant 1 <= i <= n
      invariant a[..i] == InsertionSort(s[..i])
      invariant a[i..] == old(a[i..])
    {
      ghost var before, whole := a[..i], a[i..];
      assert a[i] == whole[0] == old(a[i..])[0] == s[i];
      InsertInPlace(a, i);
      assert s[..i + 1][..i] == s[..i];
      assert a[i + 1..] == whole[1..];
      i := i + 1;
    }
    assert s[..n] == s;
  }

  // ----- the parcel -----

  /** What a read answers; Fatal stands for the abort on a position that does not fit an int32. */
  datatype Answer = Done | Denied | NotEnough | BadValue | NoObject | Fatal

  datatype Op = Read(len: nat) | ReadObject(zero: bool, nullMetaData: bool) | SetPosition(pos: nat)

  /** The simple reader: no hint and no order, one scan over all objects. */
  ghost function ScanPosition(m: multiset<nat>, size: nat, pos: nat, op: Op): nat {
    match op
    case Read(len) => if len <= Codec.INT32_MAX && pos + Codec.Pad(len) <= size then pos + Codec.Pad(len) else pos
    case ReadObject(_, _) => if pos + OBJECT_SIZE <= size then pos + OBJECT_SIZE else pos
    case SetPosition(p) => if p <= Codec.INT32_MAX then p else pos
  }

  ghost function ScanAnswer(m: multiset<nat>, size: nat, pos: nat, op: Op): Answer {
    match op
    case Read(len) =>
      if len > Codec.INT32_MAX then BadValue
      else if pos + Codec.Pad(len) > size then NotEnough
      else if Overlaps(m, pos, pos + Codec.Pad(len)) then Denied else Done
    case ReadObject(zero, nullMetaData) =>
      if pos + OBJECT_SIZE <= size && ((zero && !nullMetaData) || pos in m) then Done else NoObject
    case SetPosition(p) => if p <= Codec.INT32_MAX then Done else Fatal
  }

  /** The answers of the simple reader to a whole sequence of operations. */
  ghost function ScanRun(m: multiset<nat>, size: nat, pos: nat, ops: seq<Op>): seq<Answer>
    decreases |ops|
  {
    if ops == [] then []
    else [ScanAnswer(m, size, pos, ops[0])] + ScanRun(m, size, ScanPosition(m, size, pos, ops[0]), ops[1..])
  }

  /** Where the search forwards from the hint ends: at the first offset not before `pos`, or at the last. */
  ghost predicate IsTurn(s: seq<nat>, hint: nat, pos: nat, t: nat) {
    && t < |s|
    && if hint >= |s| then t == |s| - 1
       else hint <= t && (forall i :: hint <= i < t ==> s[i] < pos) && (t < |s| - 1 ==> s[t] >= pos)
  }

  /** `pos` is met on the way back from there, before anything smaller. */
  ghost predicate MetBack(s: seq<nat>, pos: nat, t: nat)
    requires t < |s|
  {
    exists j :: 0 <= j <= t && s[j] == pos && forall i :: j < i <= t ==> s[i] > pos
  }

  /** What the two searches of `readObject` find in any table, sorted or not. */
  ghost predicate Found(s: seq<nat>, hint: nat, pos: nat) {
    exists t :: IsTurn(s, hint, pos, t) && MetBack(s, pos, t)
  }

  lemma OneTurn(s: seq<nat>, hint: nat, pos: nat, t: nat, u: nat)
    requires IsTurn(s, hint, pos, t) && IsTurn(s, hint, pos, u)
    ensures t == u
  {
  }

  lemma FoundIff(s: seq<nat>, hint: nat, pos: nat, t: nat)
    requires IsTurn(s, hint, pos, t)
    ensures Found(s, hint, pos) <==> MetBack(s, pos, t)
  {
    forall u | IsTurn(s, hint, pos, u) && MetBack(s, pos, u) ensures MetBack(s, pos, t) {
      OneTurn(s, hint, pos, t, u);
    }
  }

  lemma {:induction false} TurnOf(s: seq<nat>, hint: nat, pos: nat) returns (t: nat)
    requires s != []
    ensures IsTurn(s, hint, pos, t)
    decreases |s| - hint
  {
    if hint >= |s| - 1 {
      t := |s| - 1;
    } else if s[hint] >= pos {
      t := hint;
    } else {
      t := TurnOf(s, hint + 1, pos);
    }
  }

  /** In a sorted table, with the hint not past the position, nothing is missed. */
  lemma SortedFinds(s: seq<nat>, hint: nat, pos: nat, t: nat)
    requires Sorted(s) && IsTurn(s, hint, pos, t) && hint <= |s| && forall i :: 0 <= i < hint ==> s[i] < pos
    ensures MetBack(s, pos, t) <==> pos in s
  {
    if pos in s {
      var k :| 0 <= k < |s| && s[k] == pos;
      if k > t { assert s[t] <= s[k]; }
      Met(s, pos, t, if k <= t then k else t);
    }
  }

  lemma {:induction false} Met(s: seq<nat>, pos: nat, t: nat, k: nat)
    requires Sorted(s) && k <= t < |s| && s[k] == pos
    ensures MetBack(s, pos, t)
    decreases t - k
  {
    if !forall i :: k < i <= t ==> s[i] > pos {
      var i :| k < i <= t && s[i] <= pos;
      assert s[k] <= s[i];
      Met(s, pos, t, i);
    }
  }

  /** A table out of order hides an object that is in it. */
  lemma UnsortedMisses()
    ensures 0 in [48, 0] && Apart(multiset([48, 0])) && !Found([48, 0], 0, 0)
  {
    var s := [48, 0];
    FoundIff(s, 0, 0, 0);
    assert multiset(s) == multiset{48, 0};
  }

  class Parcel {
    const dataSize: nat
    const objects: array<nat>
    var objectsSize: nat
    var dataPos: nat
    var nextObjectHint: nat
    var objectsSorted: bool

    ghost function Table(): multiset<nat>
      requires objectsSize <= objects.Length
      reads this, objects
    {
      multiset(objects[..objectsSize])
    }

    /** The flag tells the truth, and in a sorted table every object below the hint has been passed. */
    ghost predicate Valid()
      reads this, objects
    {
      && objectsSize <= objects.Length && nextObjectHint <= objectsSize
      && Apart(Table())
      && (objectsSorted ==> Sorted(objects[..objectsSize]))
      && (Sorted(objects[..objectsSize]) ==>
            forall i :: 0 <= i < nextObjectHint ==> objects[i] + OBJECT_SIZE <= dataPos)
    }

    /** `ipcSetDataReference`: offsets out of order, overlapping or of an unknown type drop the whole table. */
    constructor (dataSize: nat, objects: array<nat>, supported: nat -> bool)
      ensures this.dataSize == dataSize && this.objects == objects && dataPos == 0
      ensures Valid() && Sorted(objects[..objectsSize])
      ensures objectsSize == if Acceptable(objects[..], supported) then objects.Length else 0
    {
      this.dataSize, this.objects := dataSize, objects;
      objectsSize, dataPos, nextObjectHint, objectsSorted := objects.Length, 0, 0, false;
      new;
      var minOffset, i := 0, 0;
      while i < objectsSize
        invariant objectsSize == objects.Length && i <= objectsSize
        invariant forall k :: 0 <= k < i ==> objects[k] + OBJECT_SIZE <= minOffset && supported(objects[k])
        invariant minOffset == if i == 0 then 0 else objects[i - 1] + OBJECT_SIZE
        invariant forall j, k :: 0 <= j < k < i ==> objects[j] + OBJECT_SIZE <= objects[k]
      {
        var offset := objects[i];
        if offset < minOffset || !supported(offset) {
          assert !Acceptable(objects[..], supported);
          objectsSize := 0;
          break;
        }
        minOffset := offset + OBJECT_SIZE;
        i := i + 1;
      }
      InOrderApart(objects[..objectsSize]);
    }

    method SetDataPosition(pos: nat) returns (r: Answer)
      requires Valid()
      modifies `dataPos, `nextObjectHint, `objectsSorted
      ensures Valid() && dataPos == ScanPosition(Table(), dataSize, old(dataPos), SetPosition(pos))
      ensures r == ScanAnswer(Table(), dataSize, old(dataPos), SetPosition(pos))
    {
      if pos > Codec.INT32_MAX { return Fatal; }
      dataPos, nextObjectHint, objectsSorted := pos, 0, false;
      r := Done;
    }

    /** The quick test whether the table is sorted, from its end. */
    method CheckSorted() returns (sorted: bool)
      requires Valid()
      ensures sorted <==> Sorted(objects[..objectsSize])
    {
      if objectsSize == 0 { return true; }
      var curr := objectsSize - 1;
      while curr > 0
        invariant 0 <= curr < objectsSize
        invariant forall i, j :: curr <= i < j < objectsSize ==> objects[i] <= objects[j]
      {
        if objects[curr - 1] > objects[curr] {
          assert objects[..objectsSize][curr - 1] > objects[..objectsSize][curr];
          return false;
        }
        curr := curr - 1;
      }
      sorted := true;
    }

    /** The part under `data_sorted`: only the objects from the hint on are looked at. */
    method CheckFromHint(upper: nat) returns (denied: bool)
      requires Valid() && Sorted(objects[..objectsSize]) && dataPos <= upper
      modifies `nextObjectHint
      ensures Valid() && (denied <==> Overlaps(Table(), dataPos, upper))
    {
      ghost var s := objects[..objectsSize];
      if nextObjectHint < objectsSize && upper > objects[nextObjectHint] {
        var next := nextObjectHint;
        while next < objectsSize && upper > objects[next]
          invariant nextObjectHint <= next <= objectsSize
          invariant forall i :: 0 <= i < next ==> objects[i] + OBJECT_SIZE <= dataPos
        {
          if dataPos < objects[next] + OBJECT_SIZE {
            assert s[next] in multiset(s);
            return true;
          }
          next := next + 1;
        }
        nextObjectHint := next;
      }
      PassedIff(s, nextObjectHint, dataPos, upper);
      denied := false;
    }

    /** `validateReadData`: denies exactly when the full scan does, whatever the order of the table. */
    method ValidateReadData(upper: nat) returns (denied: bool)
      requires Valid() && dataPos <= upper
      modifies `nextObjectHint, `objectsSorted, objects
      ensures Valid() && Table() == old(Table())
      ensures old(Sorted(objects[..objectsSize])) ==> objects[..] == old(objects[..])
      ensures Sorted(objects[..objectsSize])
      ensures denied <==> Overlaps(Table(), dataPos, upper)
    {
      if !(objectsSorted || objectsSize <= 1) {
        var sorted := CheckSorted();
        if !sorted {
          SortSorts(objects[..objectsSize]);
          SortInPlace(objects, objectsSize);
          nextObjectHint := 0;
        }
        objectsSorted := true;
      }
      denied := CheckFromHint(upper);
    }

    /** The check before a read, which a parcel without objects does not need. */
    method Protected(upper: nat) returns (denied: bool)
      requires Valid() && dataPos <= upper
      modifies `nextObjectHint, `objectsSorted, objects
      ensures Valid() && Table() == old(Table())
      ensures old(Sorted(objects[..objectsSize])) ==> objects[..] == old(objects[..])
      ensures denied <==> Overlaps(Table(), dataPos, upper)
    {
      denied := false;
      if objectsSize > 0 { denied := ValidateReadData(upper); }
    }

    /** `read`, `readInplace` and `readAligned` alike; a denied read still moves the position. */
    method ReadBytes(len: nat) returns (r: Answer)
      requires Valid()
      modifies `dataPos, `nextObjectHint, `objectsSorted, objects
      ensures Valid() && Table() == old(Table())
      ensures old(Sorted(objects[..objectsSize])) ==> objects[..] == old(objects[..])
      ensures r == ScanAnswer(Table(), dataSize, old(dataPos), Read(len))
      ensures dataPos == ScanPosition(Table(), dataSize, old(dataPos), Read(len))
      ensures r == BadValue <==> len > 0x7FFF_FFFF
      ensures r == NotEnough <==> len <= 0x7FFF_FFFF && old(dataPos) + (len + 3) / 4 * 4 > dataSize
      ensures r in {Done, Denied} ==> dataPos == old(dataPos) + (len + 3) / 4 * 4 <= dataSize
      ensures r in {Done, Denied} ==>
        (r == Denied <==> exists o :: o in Table() && o < dataPos && old(dataPos) < o + 24)
      ensures r !in {Done, Denied} ==> dataPos == old(dataPos)
    {
      if len > Codec.INT32_MAX { return BadValue; }
      if dataPos + Codec.Pad(len) > dataSize { return NotEnough; }
      var denied := Protected(dataPos + Codec.Pad(len));
      dataPos := dataPos + Codec.Pad(len);
      r := if denied then Denied else Done;
    }

    /** The two searches of `readObject`, forwards from the hint and then backwards. */
    method FindObject(pos: nat) returns (found: bool, at: nat)
      requires Valid() && objectsSize > 0
      ensures found ==> at < objectsSize && objects[at] == pos
      ensures found <==> Found(objects[..objectsSize], nextObjectHint, pos)
    {
      ghost var s := objects[..objectsSize];
      at := nextObjectHint;
      if at < objectsSize {
        while at < objectsSize - 1 && objects[at] < pos
          invariant nextObjectHint <= at < objectsSize
          invariant forall i :: nextObjectHint <= i < at ==> s[i] < pos
        {
          at := at + 1;
        }
      } else {
        at := objectsSize - 1;
      }
      FoundIff(s, nextObjectHint, pos, at);
      if objects[at] == pos { return true, at; }
      ghost var turn := at;
      while at > 0 && objects[at] > pos
        invariant at <= turn < objectsSize
        invariant forall i :: at < i <= turn ==> s[i] > pos
      {
        at := at - 1;
      }
      found := objects[at] == pos;
    }

    /** `readObject`; `zero` says that the bytes there hold no binder and no cookie. */
    method ReadObjectAt(zero: bool, nullMetaData: bool) returns (r: Answer)
      requires Valid()
      modifies `dataPos, `nextObjectHint
      ensures Valid() && dataPos == ScanPosition(Table(), dataSize, old(dataPos), ReadObject(zero, nullMetaData))
      ensures dataPos == old(dataPos) + if old(dataPos) + 24 <= dataSize then 24 else 0
      ensures r ==
        if old(dataPos) + OBJECT_SIZE <= dataSize
           && ((zero && !nullMetaData) || Found(objects[..objectsSize], old(nextObjectHint), old(dataPos)))
        then Done else NoObject
      ensures r == Done ==> ScanAnswer(Table(), dataSize, old(dataPos), ReadObject(zero, nullMetaData)) == Done
      ensures Sorted(objects[..objectsSize]) ==>
        r == ScanAnswer(Table(), dataSize, old(dataPos), ReadObject(zero, nullMetaData))
    {
      var pos := dataPos;
      if pos + OBJECT_SIZE <= dataSize {
        ghost var s := objects[..objectsSize];
        if Sorted(s) { SortedFound(pos); }
        dataPos := pos + OBJECT_SIZE;
        if !nullMetaData && zero { return Done; }
        if objectsSize > 0 {
          var found, at := FindObject(pos);
          if found {
            PassedBy(at);
            nextObjectHint := at + 1;
            return Done;
          }
        }
      }
      r := NoObject;
    }

    lemma PassedBy(at: nat)
      requires objectsSize <= objects.Length && Apart(Table()) && at < objectsSize
      ensures objects[at] in Table()
      ensures Sorted(objects[..objectsSize]) ==> forall i :: 0 <= i <= at ==> objects[i] <= objects[at]
    {
      assert objects[..objectsSize][at] in Table();
      assert Sorted(objects[..objectsSize]) ==> forall i :: 0 <= i <= at ==>
        objects[i] == objects[..objectsSize][i] <= objects[..objectsSize][at];
    }

    lemma SortedFound(pos: nat)
      requires Valid() && Sorted(objects[..objectsSize]) && dataPos == pos
      ensures Found(objects[..objectsSize], nextObjectHint, pos) <==> pos in Table()
    {
      var s := objects[..objectsSize];
      if s != [] {
        var t := TurnOf(s, nextObjectHint, pos);
        FoundIff(s, nextObjectHint, pos, t);
        SortedFinds(s, nextObjectHint, pos, t);
      }
    }

    method Perform(op: Op) returns (r: Answer)
      requires Valid() && (Sorted(objects[..objectsSize]) || !op.ReadObject?)
      modifies this, objects
      ensures Valid() && objectsSize == old(objectsSize) && Table() == old(Table())
      ensures old(Sorted(objects[..objectsSize])) ==> Sorted(objects[..objectsSize])
      ensures r == ScanAnswer(Table(), dataSize, old(dataPos), op)
      ensures dataPos == ScanPosition(Table(), dataSize, old(dataPos), op)
    {
      match op {
        case Read(len) => r := ReadBytes(len);
        case ReadObject(zero, nullMetaData) => r := ReadObjectAt(zero, nullMetaData);
        case SetPosition(pos) => r := SetDataPosition(pos);
      }
    }
  }

  lemma ScanNext(m: multiset<nat>, size: nat, pos: nat, ops: seq<Op>, n: nat, before: seq<Answer>)
    requires n < |ops|
    ensures before + ScanRun(m, size, pos, ops[n..]) ==
      before + [ScanAnswer(m, size, pos, ops[n])]
      + ScanRun(m, size, ScanPosition(m, size, pos, ops[n]), ops[n + 1..])
  {
    assert ops[n..][0] == ops[n] && ops[n..][1..] == ops[n + 1..];
  }

  /**
   * Any sequence of reads, object reads and moves is answered as the simple reader answers it. A table that is not
   * sorted yet is fine as long as no object is read from it.
   */
  method Replay(p: Parcel, ops: seq<Op>) returns (answers: seq<Answer>)
    requires p.Valid()
    requires Sorted(p.objects[..p.objectsSize]) || forall i :: 0 <= i < |ops| ==> !ops[i].ReadObject?
    modifies p, p.objects
    ensures p.Valid() && p.Table() == old(p.Table())
    ensures answers == ScanRun(old(p.Table()), p.dataSize, old(p.dataPos), ops)
  {
    ghost var m, size, was := p.Table(), p.dataSize, p.dataPos;
    answers := [];
    var n := 0;
    while n < |ops|
      invariant n <= |ops| && p.Valid() && p.Table() == m && p.objectsSize == old(p.objectsSize)
      invariant Sorted(p.objects[..p.objectsSize]) || forall i :: 0 <= i < |ops| ==> !ops[i].ReadObject?
      invariant ScanRun(m, size, was, ops) == answers + ScanRun(m, size, p.dataPos, ops[n..])
    {
      ScanNext(m, size, p.dataPos, ops, n, answers);
      var r := p.Perform(ops[n]);
      answers := answers + [r];
      n := n + 1;
    }
  }

  /** Every offset follows the object before it and is of a type the parcel knows. */
  ghost predicate Acceptable(s: seq<nat>, supported: nat -> bool) {
    (forall i, j :: 0 <= i < j < |s| ==> s[i] + OBJECT_SIZE <= s[j]) && forall i :: 0 <= i < |s| ==> supported(s[i])
  }

  lemma InOrderApart(s: seq<nat>)
    requires forall i, j :: 0 <= i < j < |s| ==> s[i] + OBJECT_SIZE <= s[j]
    ensures Apart(multiset(s)) && Sorted(s)
  {
    forall a | a in multiset(s) ensures multiset(s)[a] == 1 {
      Once(s, a);
    }
    forall a, b | a in multiset(s) && b in multiset(s) && a != b
      ensures a + OBJECT_SIZE <= b || b + OBJECT_SIZE <= a
    {
      var i :| 0 <= i < |s| && s[i] == a;
      var j :| 0 <= j < |s| && s[j] == b;
    }
  }

  lemma {:induction false} Once(s: seq<nat>, a: nat)
    requires a in s && forall i, j :: 0 <= i < j < |s| ==> s[i] < s[j]
    ensures multiset(s)[a] == 1
  {
    var last := s[|s| - 1];
    var front := s[..|s| - 1];
    assert s == front + [last];
    if a in front { Once(front, a); }
  }

  /** Objects below the hint end before pos and those from it on start at upper or later: nothing overlaps. */
  lemma PassedIff(s: seq<nat>, hint: nat, pos: nat, upper: nat)
    requires Sorted(s) && hint <= |s|
    requires forall i :: 0 <= i < hint ==> s[i] + OBJECT_SIZE <= pos
    requires hint < |s| ==> upper <= s[hint]
    ensures !Overlaps(multiset(s), pos, upper)
  {
    forall o | o in multiset(s) ensures !(o < upper && pos < o + OBJECT_SIZE) {
      var i :| 0 <= i < |s| && s[i] == o;
    }
  }
}
