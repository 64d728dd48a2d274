/** Writing into a parcel: a buffer that grows by half, each writer proved against ParcelOutput. */
module ParcelWriter {
  import opened Basics
  import opened ParcelCodec
  import opened ParcelOutput

  /** Bytes written over, and where needed beyond the end of, what is there. */
  function Overwrite(s: seq<Byte>, pos: nat, b: seq<Byte>): seq<Byte>
    requires pos <= |s|
  {
    s[..pos] + b + (if pos + |b| < |s| then s[pos + |b|..] else [])
  }

  class Parcel {
    /** How large a buffer the allocator can give. */
    const memory: nat
    var data: array<Byte>
    var dataSize: nat
    var dataPos: nat
    var error: Status
    ghost var contents: seq<Byte>

    ghost predicate Valid()
      reads this, data
    {
      dataPos <= dataSize <= data.Length <= INT32_MAX && contents == data[..dataSize]
    }

    ghost function Now(): Out
      reads this
    {
      Out(contents, data.Length, error)
    }

    /** A single write of n bytes at the position succeeds. */
    ghost predicate Takes(n: nat)
      reads this
    {
      dataPos + n <= data.Length || dataSize + n <= Limit(memory)
    }

    constructor (memory: nat)
      ensures Valid() && Now() == Out([], 0, NoError) && this.memory == memory && fresh(data) && dataPos == dataSize
    {
      this.memory := memory;
      data, dataSize, dataPos, error, contents := new Byte[0], 0, 0, NoError, [];
    }

    /** `continueWrite` as far as growing needs it: a larger buffer with the same contents. */
    method ContinueWrite(desired: nat) returns (r: Status)
      requires Valid() && desired > data.Length
      modifies `data, `error
      ensures Valid()
      ensures r == if desired > INT32_MAX then BadValue else if desired > memory then NoMemory else NoError
      ensures if r == NoError then fresh(data) && data.Length == desired else data == old(data)
      ensures error == if r == NoMemory then NoMemory else old(error)
    {
      if desired > INT32_MAX { return BadValue; }
      if desired > memory {
        error := NoMemory;
        return NoMemory;
      }
      var bigger := new Byte[desired](_ => 0);
      forall i | 0 <= i < dataSize { bigger[i] := data[i]; }
      data := bigger;
      r := NoError;
    }

    method GrowData(len: nat) returns (r: Status)
      requires Valid() && dataPos + len > data.Length
      modifies `data, `error
      ensures Valid()
      ensures var want := Grown(dataSize + len);
        && r == (if want > INT32_MAX then BadValue else if want > memory then NoMemory else NoError)
        && (if r == NoError then fresh(data) && dataPos + len <= data.Length == want else data == old(data))
        && error == (if r == NoMemory then NoMemory else old(error))
    {
      if len > INT32_MAX { return BadValue; }
      var newSize := (dataSize + len) * 3 / 2;
      r := ContinueWrite(if newSize < 128 then 128 else newSize);
    }

    /** Puts the bytes at the position, which the buffer has room for, and moves behind them. */
    method Put(bytes: seq<Byte>)
      requires Valid() && dataPos + |bytes| <= data.Length
      modifies data, `dataPos, `dataSize, `contents
      ensures Valid() && contents == Overwrite(old(contents), old(dataPos), bytes)
      ensures dataPos == old(dataPos) + |bytes|
    {
      var pos := dataPos;
      forall i | 0 <= i < |bytes| { data[pos + i] := bytes[i]; }
      dataPos := pos + |bytes|;
      if dataPos > dataSize { dataSize := dataPos; }
      contents := Overwrite(contents, pos, bytes);
      assert data[..pos] == old(data[..pos]) && data[pos..pos + |bytes|] == bytes;
    }

    /** `writeAligned` for four or eight bytes. */
    method WriteAligned(bytes: seq<Byte>) returns (r: Status)
      requires Valid() && |bytes| <= 8
      modifies this, data
      ensures Valid() && (data == old(data) || fresh(data))
      ensures r == NoError <==> old(Takes(|bytes|))
      ensures r == NoError ==> contents == Overwrite(old(contents), old(dataPos), bytes)
      ensures r != NoError ==> contents == old(contents)
      ensures dataPos == old(dataPos) + if r == NoError then |bytes| else 0
      ensures old(dataPos + |bytes| <= data.Length) ==> data == old(data) && error == old(error)
      ensures old(dataPos == dataSize) ==> dataPos == dataSize && Written(r, Now()) == PutInt(memory, old(Now()), bytes)
    {
      LimitIff(memory, dataSize + |bytes|);
      r := NoError;
      if dataPos + |bytes| > data.Length {
        r := GrowData(|bytes|);
      }
      if r == NoError { Put(bytes); }
    }

    /** `writeInplace` followed by the copy its callers make; the padding is cleared. */
    method WriteInplace(bytes: seq<Byte>) returns (ok: bool)
      requires Valid()
      modifies this, data
      ensures Valid() && (data == old(data) || fresh(data))
      ensures ok <==> |bytes| <= INT32_MAX && old(Takes(Pad(|bytes|)))
      ensures ok ==> contents == Overwrite(old(contents), old(dataPos), Padded(bytes))
      ensures !ok ==> contents == old(contents)
      ensures dataPos == old(dataPos) + if ok then Pad(|bytes|) else 0
      ensures old(dataPos == dataSize) ==> dataPos == dataSize && Now() == PutPadded(memory, old(Now()), bytes)
      ensures old(dataPos == dataSize) ==> (ok <==> FitsPadded(memory, old(Now()), |bytes|))
    {
      if |bytes| > INT32_MAX { return false; }
      var padded := Pad(|bytes|);
      LimitIff(memory, dataSize + padded);
      if dataPos + padded > data.Length {
        var r := GrowData(padded);
        if r != NoError { return false; }
      }
      Put(Padded(bytes));
      ok := true;
    }

    // ----- writers at the end of the parcel -----

    /** A string; where the units do not fit, the answer is whatever error the parcel has noted. */
    method WriteString16(s: String16) returns (r: Status)
      requires Valid() && dataPos == dataSize
      modifies this, data
      ensures Valid() && dataPos == dataSize && (data == old(data) || fresh(data))
      ensures Written(r, Now()) == PutString(memory, old(Now()), s)
    {
      r := WriteAligned(Word(|s|));
      if r == NoError {
        var ok := WriteInplace(Halves(s + [0]));
        if !ok { r := error; }
      }
    }

    /** A vector of flat elements: its size, whose write nobody checks, and its padded bytes. */
    method WriteVector(count: nat, bytes: seq<Byte>, bools: bool) returns (r: Status)
      requires Valid() && dataPos == dataSize
      modifies this, data
      ensures Valid() && dataPos == dataSize && (data == old(data) || fresh(data))
      ensures Written(r, Now()) == PutVector(memory, old(Now()), count, bytes, bools)
    {
      if count > INT32_MAX { return BadValue; }
      r := WriteAligned(Word(count));
      if |bytes| > INT32_MAX { return BadValue; }
      var ok := WriteInplace(bytes);
      r := if bools then (if ok then NoError else BadValue) else if ok && bytes != [] then NoError else error;
    }

    /** A vector of strings; again nobody checks the write of its size. */
    method WriteStrings(v: seq<String16>) returns (r: Status)
      requires Valid() && dataPos == dataSize
      modifies this, data
      ensures Valid() && dataPos == dataSize && (data == old(data) || fresh(data))
      ensures Written(r, Now()) == PutStrings(memory, old(Now()), v)
    {
      if |v| > INT32_MAX { return BadValue; }
      ghost var whole := PutStrings(memory, Now(), v);
      r := WriteAligned(Word(|v|));
      r := NoError;
      var i := 0;
      assert v[0..] == v;
      while i < |v|
        invariant i <= |v| && Valid() && dataPos == dataSize && (data == old(data) || fresh(data))
        invariant r == NoError && PutEach(memory, Now(), v[i..]) == whole
      {
        assert v[i..][0] == v[i] && v[i..][1..] == v[i + 1..];
        r := WriteString16(v[i]);
        if r != NoError { return; }
        i := i + 1;
      }
    }
  }
}
