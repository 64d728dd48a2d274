/** Sending or receiving a list of buffers over a socket that moves some bytes at a time. */
module ScatterGather {
  import opened Basics

  datatype Status = Ok | BadValue | DeadObject | Failed | PollFailed | Running

  /**
   * One round with the socket: how many bytes it is willing to move (negative for an error, of which `again` means try
   * later) and what the wait after it says.
   */
  datatype Round = Round(size: int, again: bool, pollOk: bool, triggered: bool)

  /** The bytes the socket is willing to move in these rounds. */
  function Offered(rounds: seq<Round>): nat {
    if rounds == [] then 0
    else
      var last := rounds[|rounds| - 1].size;
      Offered(rounds[..|rounds| - 1]) + if last > 0 then last else 0
  }

  /** Round j moves less than is left, or says to try later before any wait, and the wait after it went well. */
  ghost predicate GoesOn(rounds: seq<Round>, j: nat, altPoll: bool, total: nat)
    requires j < |rounds|
  {
    var round := rounds[j];
    && round.size != 0 && (round.size < 0 ==> round.again && (altPoll || j == 0))
    && Offered(rounds[..j + 1]) < total && round.pollOk && !(altPoll && round.triggered)
  }

  /** How a transfer of `total` bytes ends in round j if it has not ended before. */
  function StatusAt(rounds: seq<Round>, j: nat, altPoll: bool, total: nat): Status
    requires j < |rounds|
  {
    var round := rounds[j];
    if round.size < 0 && !(round.again && (altPoll || j == 0)) then Failed
    else if round.size == 0 then DeadObject
    else if Offered(rounds[..j + 1]) >= total then Ok
    else if !round.pollOk then PollFailed else DeadObject
  }

  /** The transfer used this many rounds: all but the last went on, and so did the last if there are no more. */
  ghost predicate Ends(rounds: seq<Round>, used: nat, altPoll: bool, total: nat, r: Status) {
    && used <= |rounds|
    && (forall j :: 0 <= j < used - 1 ==> GoesOn(rounds, j, altPoll, total))
    && if r == Running then used == |rounds| && (used > 0 ==> GoesOn(rounds, used - 1, altPoll, total))
       else used > 0 && !GoesOn(rounds, used - 1, altPoll, total) && r == StatusAt(rounds, used - 1, altPoll, total)
  }

  /** What is left when the last buffer is not empty is not empty. */
  lemma ConcatLast<T>(vs: seq<seq<T>>)
    requires vs != [] && vs[|vs| - 1] != []
    ensures |Concat(vs)| >= |vs[|vs| - 1]| > 0
  {
    var front, last := vs[..|vs| - 1], vs[|vs| - 1];
    assert vs == front + [last];
    ConcatSplit(front, [last]);
    assert Concat([last]) == last;
  }

  /** Drops empty buffers from the end. */
  method TrimEnd<T(==)>(iovs: array<seq<T>>, count: nat) returns (n: nat)
    requires count <= iovs.Length
    ensures n <= count && (n > 0 ==> iovs[n - 1] != [])
    ensures Concat(iovs[..n]) == Concat(iovs[..count]) && (n == 0 <==> Concat(iovs[..count]) == [])
  {
    n := count;
    while n > 0 && iovs[n - 1] == []
      invariant n <= count && Concat(iovs[..n]) == Concat(iovs[..count])
    {
      assert iovs[..n] == iovs[..n - 1] + [iovs[n - 1]];
      ConcatSplit(iovs[..n - 1], [iovs[n - 1]]);
      n := n - 1;
    }
    if n > 0 { ConcatLast(iovs[..n]); }
  }

  /** Takes the first `size` bytes off the buffers lo to n, in place. */
  method Advance<T>(iovs: array<seq<T>>, lo: nat, n: nat, size: nat) returns (lo': nat, left: nat)
    requires lo < n <= iovs.Length && iovs[n - 1] != [] && size <= |Concat(iovs[lo..n])|
    modifies iovs
    ensures lo <= lo' <= n && (lo' < n ==> iovs[n - 1] != [])
    ensures left == 0 && Concat(iovs[lo'..n]) == old(Concat(iovs[lo..n]))[size..]
  {
    ghost var all := Concat(iovs[lo..n]);
    lo', left := lo, size;
    while left > 0 && lo' < n
      invariant lo <= lo' <= n && left <= size && (lo' < n ==> iovs[n - 1] != [])
      invariant left <= |Concat(iovs[lo'..n])| && Concat(iovs[lo'..n])[left..] == all[size..]
    {
      var iov := iovs[lo'];
      ghost var rest := iovs[lo' + 1..n];
      assert iovs[lo'..n] == [iov] + rest;
      if left < |iov| {
        iovs[lo'] := iov[left..];
        assert iovs[lo'..n] == [iov[left..]] + rest;
        assert iov[left..] + Concat(rest) == (iov + Concat(rest))[left..];
        left := 0;
        break;
      }
      assert Concat(rest) == (iov + Concat(rest))[|iov|..];
      left := left - |iov|;
      lo' := lo' + 1;
    }
  }

  /** The socket moves up to `offer` bytes of the request, at least one. */
  method MoveSome<T>(iovs: array<seq<T>>, lo: nat, n: nat, offer: nat) returns (lo': nat, moved: seq<T>)
    requires lo < n <= iovs.Length && iovs[n - 1] != [] && offer > 0
    modifies iovs
    ensures lo <= lo' <= n && (lo' < n ==> iovs[n - 1] != [])
    ensures |moved| == Min(offer, |old(Concat(iovs[lo..n]))|) > 0
    ensures moved + Concat(iovs[lo'..n]) == old(Concat(iovs[lo..n])) && (lo' == n <==> Concat(iovs[lo'..n]) == [])
  {
    ConcatLast(iovs[lo..n]);
    var bytes := Concat(iovs[lo..n]);
    var size := if offer > |bytes| then |bytes| else offer;
    var left;
    lo', left := Advance(iovs, lo, n, size);
    moved := bytes[..size];
    assert bytes == moved + bytes[size..];
    if lo' < n { ConcatLast(iovs[lo'..n]); }
  }

  function Min(a: nat, b: nat): nat { if a < b then a else b }

  lemma OfferedNext(rounds: seq<Round>, i: nat)
    requires i < |rounds|
    ensures Offered(rounds[..i + 1]) == Offered(rounds[..i]) + if rounds[i].size > 0 then rounds[i].size else 0
  {
    assert rounds[..i + 1][..i] == rounds[..i];
  }

  /** How a round ends that has `left` bytes to move; Running means there is another. */
  function RoundStatus(round: Round, havePolled: bool, altPoll: bool, left: nat): Status {
    if round.size < 0 && (havePolled || !round.again) then Failed
    else if round.size == 0 then DeadObject
    else if round.size >= left then Ok
    else if !round.pollOk then PollFailed
    else if altPoll && round.triggered then DeadObject else Running
  }

  /** What one more round moves. */
  function Moves(round: Round, left: nat): nat { if round.size > 0 then Min(round.size, left) else 0 }

  /** In terms of the bytes offered so far. */
  lemma RoundEnds(rounds: seq<Round>, i: nat, altPoll: bool, total: nat)
    requires i < |rounds| && Offered(rounds[..i]) < total
    requires forall j :: 0 <= j < i ==> GoesOn(rounds, j, altPoll, total)
    ensures var left := total - Offered(rounds[..i]);
      var r := RoundStatus(rounds[i], !altPoll && i > 0, altPoll, left);
      && (r == Running ==> GoesOn(rounds, i, altPoll, total) && Offered(rounds[..i + 1]) < total)
      && (r != Running ==> Ends(rounds, i + 1, altPoll, total, r))
      && Offered(rounds[..i]) + Moves(rounds[i], left) == Min(Offered(rounds[..i + 1]), total)
  {
    OfferedNext(rounds, i);
  }

  /** One request to the socket, and the wait after it. */
  method OneRound<T>(iovs: array<seq<T>>, lo: nat, n: nat, havePolled: bool, altPoll: bool, round: Round)
    returns (r: Status, lo': nat, moved: seq<T>)
    requires lo < n <= iovs.Length && iovs[n - 1] != []
    modifies iovs
    ensures lo <= lo' <= n && (lo' < n ==> iovs[n - 1] != []) && (r == Ok <==> lo' == n)
    ensures moved + Concat(iovs[lo'..n]) == old(Concat(iovs[lo..n]))
    ensures |moved| == Moves(round, |old(Concat(iovs[lo..n]))|)
    ensures r == RoundStatus(round, havePolled, altPoll, |old(Concat(iovs[lo..n]))|)
  {
    ConcatLast(iovs[lo..n]);
    lo', moved := lo, [];
    if round.size < 0 {
      if havePolled || !round.again { return Failed, lo, []; }
    } else if round.size == 0 {
      return DeadObject, lo, [];
    } else {
      lo', moved := MoveSome(iovs, lo, n, round.size);
      if lo' == n { return Ok, lo', moved; }
    }
    if !round.pollOk { return PollFailed, lo', moved; }
    if altPoll && round.triggered { return DeadObject, lo', moved; }
    r := Running;
  }

  /** The loop: one request a round, until nothing is left or something stops it. */
  method Rounds<T>(iovs: array<seq<T>>, n: nat, altPoll: bool, rounds: seq<Round>)
    returns (r: Status, done: seq<T>, lo: nat, ghost requests: seq<nat>)
    requires 0 < n <= iovs.Length && iovs[n - 1] != []
    modifies iovs
    ensures Ends(rounds, |requests|, altPoll, |old(Concat(iovs[..n]))|, r)
    ensures |done| == Min(Offered(rounds[..|requests|]), |old(Concat(iovs[..n]))|)
    ensures lo <= n && old(Concat(iovs[..n])) == done + Concat(iovs[lo..n])
    ensures r == Ok <==> lo == n
    ensures lo < n ==> iovs[n - 1] != []
    ensures forall i :: 0 <= i < |requests| ==> requests[i] > 0
  {
    done, lo, requests := [], 0, [];
    var havePolled, i := false, 0;
    ghost var total := |Concat(iovs[..n])|;
    assert iovs[0..n] == iovs[..n];
    while i < |rounds|
      invariant i <= |rounds| && lo < n && iovs[n - 1] != [] && |requests| == i
      invariant havePolled <==> !altPoll && i > 0
      invariant |done| == Offered(rounds[..i]) && forall j :: 0 <= j < i ==> GoesOn(rounds, j, altPoll, total)
      invariant old(Concat(iovs[..n])) == done + Concat(iovs[lo..n])
      invariant forall j :: 0 <= j < |requests| ==> requests[j] > 0
    {
      ConcatLast(iovs[lo..n]);
      RoundEnds(rounds, i, altPoll, total);
      requests := requests + [|Concat(iovs[lo..n])|];
      var moved;
      r, lo, moved := OneRound(iovs, lo, n, havePolled, altPoll, rounds[i]);
      Assoc(done, moved, Concat(iovs[lo..n]));
      done := done + moved;
      i := i + 1;
      if r != Running { return; }
      if !altPoll { havePolled := true; }
    }
    if lo < n { ConcatLast(iovs[lo..n]); }
    r := Running;
  }

  /**
   * `interruptableReadOrWrite`. Whatever the socket does, what was moved followed by what is left is the original; the
   * answer is Ok only, and always, when nothing is left; no empty request is made. Running: the rounds given are
   * used up.
   */
  method Transfer<T(==)>(iovs: array<seq<T>>, count: int, triggered: bool, altPoll: bool, rounds: seq<Round>)
    returns (r: Status, done: seq<T>, ghost left: seq<T>, ghost requests: seq<nat>)
    requires count <= iovs.Length
    modifies iovs
    ensures count < 0 ==> r == BadValue
    ensures count >= 0 ==> old(Concat(iovs[..count])) == done + left
    ensures count >= 0 && !triggered ==> (r == Ok <==> left == [])
    ensures triggered && count >= 0 ==> r == DeadObject && done == []
    ensures count >= 0 && !triggered && old(Concat(iovs[..count])) != [] ==>
      var total := |old(Concat(iovs[..count]))|;
      Ends(rounds, |requests|, altPoll, total, r) && |done| == Min(Offered(rounds[..|requests|]), total)
    ensures forall i :: 0 <= i < |requests| ==> requests[i] > 0
  {
    done, left, requests := [], [], [];
    if count < 0 { return BadValue, [], [], []; }
    if triggered { return DeadObject, [], Concat(iovs[..count]), []; }
    var n := TrimEnd(iovs, count);
    if n == 0 { return Ok, [], [], []; }
    var lo;
    r, done, lo, requests := Rounds(iovs, n, altPoll, rounds);
    left := Concat(iovs[lo..n]);
    if lo < n { ConcatLast(iovs[lo..n]); }
  }
}
