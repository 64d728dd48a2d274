/** How server sessions begin and end: the incoming connections of a session and the server's table of sessions. */
module RpcLifecycle {

  /**
   * A server session. `ending` counts listener calls that are due, `ended` those that were made; neither is stored by
   * the source.
   */
  datatype Session = Session(id: nat, maxThreads: nat, maxIncoming: nat, incoming: seq<nat>, ending: nat, ended: nat)

  /** Sessions by the order of their creation, the server's table, and the connections threads still serve. */
  datatype Server = Server(sessions: seq<Session>, table: map<nat, nat>, serving: set<(nat, nat)>, fatal: bool)

  datatype Step =
    | Create(id: nat, maxThreads: nat)
    | Assign(o: nat, conn: nat)
    | Remove(o: nat, conn: nat)
    | Ended(o: nat)

  /** A connection object is new when it is assigned and its thread removes it once; a due listener call is made. */
  ghost predicate Enabled(s: Server, a: Step) {
    match a
    case Create(id, _) => id !in s.table
    case Assign(o, conn) => o < |s.sessions| && forall p :: (p, conn) !in s.serving
    case Remove(o, conn) => o < |s.sessions| && (o, conn) in s.serving
    case Ended(o) => o < |s.sessions| && s.sessions[o].ending > 0
  }

  /** No room, or a connection has gone already. */
  predicate Refuses(x: Session) { |x.incoming| >= x.maxThreads || |x.incoming| < x.maxIncoming }

  function Assigned(x: Session, conn: nat): Session {
    if Refuses(x) then x else x.(incoming := x.incoming + [conn], maxIncoming := |x.incoming| + 1)
  }

  function Without(q: seq<nat>, conn: nat): seq<nat> {
    if q == [] then [] else if q[0] == conn then q[1..] else [q[0]] + Without(q[1..], conn)
  }

  /** The listener is due when the last connection goes. */
  function Removed(x: Session, conn: nat): Session {
    if conn !in x.incoming then x
    else
      var left := Without(x.incoming, conn);
      x.(incoming := left, ending := if left == [] then x.ending + 1 else x.ending)
  }

  /** `onSessionAllIncomingThreadsEnded`: the table must hold exactly this session under its id. */
  function DoEnded(s: Server, o: nat): Server
    requires o < |s.sessions| && s.sessions[o].ending > 0
  {
    var x := s.sessions[o];
    var s1 := s.(sessions := s.sessions[o := x.(ending := x.ending - 1, ended := x.ended + 1)]);
    if x.id !in s.table || s.table[x.id] != o then s1.(fatal := true) else s1.(table := s.table - {x.id})
  }

  ghost function Do(s: Server, a: Step): Server
    requires Enabled(s, a)
  {
    match a
    case Create(id, maxThreads) =>
      s.(sessions := s.sessions + [Session(id, maxThreads, 0, [], 0, 0)], table := s.table[id := |s.sessions|])
    case Assign(o, conn) =>
      var x := s.sessions[o];
      s.(
        sessions := s.sessions[o := Assigned(x, conn)],
        serving := if Refuses(x) then s.serving else s.serving + {(o, conn)})
    case Remove(o, conn) =>
      var x := s.sessions[o];
      s.(sessions := s.sessions[o := Removed(x, conn)], serving := s.serving - {(o, conn)},
         fatal := s.fatal || conn !in x.incoming)
    case Ended(o) => DoEnded(s, o)
  }

  // ----- the invariant, session by session -----

  ghost predicate Distinct(q: seq<nat>) { forall i, j :: 0 <= i < j < |q| ==> q[i] != q[j] }

  /** A session has ended, or is about to be told so, exactly when it once had connections and has none now. */
  ghost predicate SessionOk(x: Session) {
    && |x.incoming| <= x.maxIncoming && (x.maxIncoming <= x.maxThreads || x.maxIncoming == 0) && Distinct(x.incoming)
    && x.ending + x.ended <= 1
    && (x.ending + x.ended == 1 <==> x.maxIncoming > 0 && x.incoming == [])
  }

  /** A session is in the table until its listener call is made. */
  ghost predicate Listed(s: Server, o: nat)
    requires o < |s.sessions|
  {
    s.sessions[o].ended == 0 <==> s.sessions[o].id in s.table && s.table[s.sessions[o].id] == o
  }

  ghost predicate Inv(s: Server) {
    && !s.fatal
    && (forall o :: 0 <= o < |s.sessions| ==> SessionOk(s.sessions[o]) && Listed(s, o))
    && (forall id :: id in s.table ==> s.table[id] < |s.sessions| && s.sessions[s.table[id]].id == id)
    && (forall o: nat, c: nat :: (o, c) in s.serving <==> o < |s.sessions| && c in s.sessions[o].incoming)
  }

  lemma {:induction false} WithoutAt(q: seq<nat>, conn: nat, i: nat)
    requires i < |q| && conn !in q[..i] && q[i] == conn
    ensures Without(q, conn) == q[..i] + q[i + 1..]
  {
    if i > 0 {
      assert q[0] == q[..i][0] && q[1..][..i - 1] == q[..i][1..];
      WithoutAt(q[1..], conn, i - 1);
      assert q[..i] + q[i + 1..] == [q[0]] + (q[1..][..i - 1] + q[1..][i..]);
    }
  }

  lemma OneGone(q: seq<nat>, i: nat)
    requires i < |q|
    ensures multiset(q[..i] + q[i + 1..]) == multiset(q) - multiset{q[i]}
    ensures q[..i] + q[i + 1..] == [] <==> q == [q[i]]
  {
    assert q == q[..i] + [q[i]] + q[i + 1..];
  }

  lemma {:induction false} WithoutMembers(q: seq<nat>, conn: nat)
    requires Distinct(q)
    ensures Distinct(Without(q, conn)) && forall c :: c in Without(q, conn) <==> c in q && c != conn
    ensures |Without(q, conn)| == |q| - if conn in q then 1 else 0
  {
    if q != [] {
      WithoutMembers(q[1..], conn);
      assert q == [q[0]] + q[1..];
      assert q[0] !in q[1..];
      assert forall c :: c in q <==> c == q[0] || c in q[1..];
    }
  }

  lemma CreateKeeps(s: Server, id: nat, maxThreads: nat)
    requires Inv(s) && id !in s.table
    ensures Inv(Do(s, Create(id, maxThreads)))
  {
    var s' := Do(s, Create(id, maxThreads));
    forall o | 0 <= o < |s'.sessions| ensures SessionOk(s'.sessions[o]) && Listed(s', o) {
      if o < |s.sessions| { assert SessionOk(s.sessions[o]) && Listed(s, o); }
    }
    forall o: nat, c: nat ensures (o, c) in s'.serving <==> o < |s'.sessions| && c in s'.sessions[o].incoming {
      assert (o, c) in s.serving <==> o < |s.sessions| && c in s.sessions[o].incoming;
    }
  }

  lemma AssignKeeps(s: Server, o: nat, conn: nat)
    requires Inv(s) && Enabled(s, Assign(o, conn))
    ensures Inv(Do(s, Assign(o, conn)))
  {
    var s' := Do(s, Assign(o, conn));
    assert SessionOk(s.sessions[o]) && (o, conn) !in s.serving;
    forall p | 0 <= p < |s'.sessions| ensures SessionOk(s'.sessions[p]) && Listed(s', p) {
      assert SessionOk(s.sessions[p]) && Listed(s, p);
    }
    forall p: nat, c: nat ensures (p, c) in s'.serving <==> p < |s'.sessions| && c in s'.sessions[p].incoming {
      assert (p, c) in s.serving <==> p < |s.sessions| && c in s.sessions[p].incoming;
    }
  }

  lemma RemoveKeeps(s: Server, o: nat, conn: nat)
    requires Inv(s) && Enabled(s, Remove(o, conn))
    ensures Inv(Do(s, Remove(o, conn)))
  {
    var s' := Do(s, Remove(o, conn));
    var x := s.sessions[o];
    assert SessionOk(x) && conn in x.incoming;
    WithoutMembers(x.incoming, conn);
    forall p | 0 <= p < |s'.sessions| ensures SessionOk(s'.sessions[p]) && Listed(s', p) {
      assert SessionOk(s.sessions[p]) && Listed(s, p);
    }
    forall p: nat, c: nat ensures (p, c) in s'.serving <==> p < |s'.sessions| && c in s'.sessions[p].incoming {
      assert (p, c) in s.serving <==> p < |s.sessions| && c in s.sessions[p].incoming;
    }
  }

  lemma EndedKeeps(s: Server, o: nat)
    requires Inv(s) && Enabled(s, Ended(o))
    ensures Inv(Do(s, Ended(o)))
  {
    var s' := Do(s, Ended(o));
    assert SessionOk(s.sessions[o]) && Listed(s, o);
    forall p | 0 <= p < |s'.sessions| ensures SessionOk(s'.sessions[p]) && Listed(s', p) {
      assert SessionOk(s.sessions[p]) && Listed(s, p);
    }
    forall p: nat, c: nat ensures (p, c) in s'.serving <==> p < |s'.sessions| && c in s'.sessions[p].incoming {
      assert (p, c) in s.serving <==> p < |s.sessions| && c in s.sessions[p].incoming;
    }
  }

  /** No step is fatal: the listener finds its own session in the table, and a served connection is in its list. */
  lemma StepKeeps(s: Server, a: Step)
    requires Inv(s) && Enabled(s, a)
    ensures Inv(Do(s, a))
  {
    match a
    case Create(id, maxThreads) => CreateKeeps(s, id, maxThreads);
    case Assign(o, conn) => AssignKeeps(s, o, conn);
    case Remove(o, conn) => RemoveKeeps(s, o, conn);
    case Ended(o) => EndedKeeps(s, o);
  }

  // ----- runs -----

  ghost predicate Leads(s: Server, a: Step, s': Server) { Enabled(s, a) && s' == Do(s, a) }

  ghost predicate IsRun(ss: seq<Server>, steps: seq<Step>) {
    && |ss| == |steps| + 1 && ss[0] == Server([], map[], {}, false)
    && forall i {:trigger steps[i]} :: 0 <= i < |steps| ==> Leads(ss[i], steps[i], ss[i + 1])
  }

  lemma {:induction false} RunKeeps(ss: seq<Server>, steps: seq<Step>, n: nat)
    requires IsRun(ss, steps) && n < |ss|
    ensures Inv(ss[n])
  {
    if n > 0 {
      RunKeeps(ss, steps, n - 1);
      assert Leads(ss[n - 1], steps[n - 1], ss[n]);
      StepKeeps(ss[n - 1], steps[n - 1]);
    }
  }

  /** A session that lost a connection: it takes no more, */
  ghost predicate Closed(s: Server, o: nat) { o < |s.sessions| && |s.sessions[o].incoming| < s.sessions[o].maxIncoming }

  lemma StaysClosed(s: Server, a: Step, o: nat)
    requires Inv(s) && Enabled(s, a) && Closed(s, o)
    ensures Closed(Do(s, a), o) && |Do(s, a).sessions[o].incoming| <= |s.sessions[o].incoming|
    ensures Do(s, a).sessions[o].ended >= s.sessions[o].ended
    ensures a.Assign? && a.o == o ==> Do(s, a).sessions[o] == s.sessions[o]
  {
    assert SessionOk(s.sessions[o]);
    if a.Remove? && a.o == o { WithoutMembers(s.sessions[o].incoming, a.conn); }
  }

  lemma ClosedNext(ss: seq<Server>, steps: seq<Step>, o: nat, n: nat)
    requires IsRun(ss, steps) && n < |steps| && Closed(ss[n], o)
    ensures Closed(ss[n + 1], o) && |ss[n + 1].sessions[o].incoming| <= |ss[n].sessions[o].incoming|
    ensures ss[n].sessions[o].ended <= ss[n + 1].sessions[o].ended
  {
    RunKeeps(ss, steps, n);
    assert Leads(ss[n], steps[n], ss[n + 1]);
    StaysClosed(ss[n], steps[n], o);
  }

  /** for the rest of the run, and its listener is called at most once in all of it. */
  lemma {:induction false} EndsOnce(ss: seq<Server>, steps: seq<Step>, o: nat, i: nat, j: nat)
    requires IsRun(ss, steps) && i <= j < |ss| && Closed(ss[i], o)
    ensures Closed(ss[j], o) && |ss[j].sessions[o].incoming| <= |ss[i].sessions[o].incoming|
    ensures ss[i].sessions[o].ended <= ss[j].sessions[o].ended <= 1
    decreases j - i
  {
    if i < j {
      EndsOnce(ss, steps, o, i, j - 1);
      ClosedNext(ss, steps, o, j - 1);
    }
    assert ss[j].sessions[o].ended <= 1 by {
      RunKeeps(ss, steps, j);
      assert SessionOk(ss[j].sessions[o]);
    }
  }

  /** No connection of the session has gone in the first n steps. */
  ghost predicate LostNone(steps: seq<Step>, n: nat, o: nat)
    requires n <= |steps|
  {
    forall j :: 0 <= j < n ==> !(steps[j].Remove? && steps[j].o == o)
  }

  lemma {:induction false} OpenIff(ss: seq<Server>, steps: seq<Step>, n: nat, o: nat)
    requires IsRun(ss, steps) && n < |ss| && o < |ss[n].sessions|
    ensures |ss[n].sessions[o].incoming| <= ss[n].sessions[o].maxIncoming
    ensures Closed(ss[n], o) <==> !LostNone(steps, n, o)
  {
    RunKeeps(ss, steps, n);
    assert SessionOk(ss[n].sessions[o]);
    if n > 0 {
      var s, a := ss[n - 1], steps[n - 1];
      RunKeeps(ss, steps, n - 1);
      assert Leads(s, a, ss[n]);
      if o < |s.sessions| {
        OpenIff(ss, steps, n - 1, o);
        OpenStep(s, a, o);
      } else {
        NotYet(ss, steps, n - 1, o);
      }
      assert LostNone(steps, n, o) <==> LostNone(steps, n - 1, o) && !(a.Remove? && a.o == o);
    }
  }

  lemma OpenStep(s: Server, a: Step, o: nat)
    requires Inv(s) && Enabled(s, a) && o < |s.sessions|
    ensures o < |Do(s, a).sessions|
    ensures Closed(Do(s, a), o) <==> Closed(s, o) || (a.Remove? && a.o == o)
  {
    assert SessionOk(s.sessions[o]);
    if a.Remove? && a.o == o { WithoutMembers(s.sessions[o].incoming, a.conn); }
  }

  /** Nothing was removed from a session that does not exist yet. */
  lemma {:induction false} NotYet(ss: seq<Server>, steps: seq<Step>, n: nat, o: nat)
    requires IsRun(ss, steps) && n < |ss| && o >= |ss[n].sessions|
    ensures LostNone(steps, n, o)
  {
    if n > 0 {
      assert Leads(ss[n - 1], steps[n - 1], ss[n]);
      NotYet(ss, steps, n - 1, o);
    }
  }

  /**
   * In every run a new connection is accepted exactly if the session has fewer than its maximum and none has ever
   * gone, and then it is served; a refused one changes nothing.
   */
  lemma AcceptedIff(ss: seq<Server>, steps: seq<Step>, n: nat, o: nat, conn: nat)
    requires IsRun(ss, steps) && n < |ss| && Enabled(ss[n], Assign(o, conn))
    ensures var s, s' := ss[n], Do(ss[n], Assign(o, conn));
      if |s.sessions[o].incoming| < s.sessions[o].maxThreads && LostNone(steps, n, o)
      then s'.sessions[o].incoming == s.sessions[o].incoming + [conn] && (o, conn) in s'.serving
      else s' == s
  {
    OpenIff(ss, steps, n, o);
  }

  // ----- the code -----

  /** Draws a session id that is not taken, giving up after six tries; `drawn` are the random ids. */
  method NewSessionId(table: map<nat, nat>, drawn: seq<nat>) returns (found: bool, id: nat)
    requires |drawn| >= 6
    ensures found <==> exists i :: 0 <= i < 6 && drawn[i] !in table
    ensures found ==> id !in table && id in drawn
  {
    var tries := 0;
    while true
      invariant tries <= 6 && forall i :: 0 <= i < tries ==> drawn[i] in table
      decreases 6 - tries
    {
      if tries > 5 { return false, 0; }
      id := drawn[tries];
      tries := tries + 1;
      if id !in table { return true, id; }
    }
  }

  /** The incoming side of a session. */
  class SessionObject {
    const id: nat
    const maxThreads: nat
    var maxIncoming: nat
    var incoming: seq<nat>

    ghost function Now(ending: nat, ended: nat): Session
      reads this
    {
      Session(id, maxThreads, maxIncoming, incoming, ending, ended)
    }

    constructor (id: nat, maxThreads: nat)
      ensures Now(0, 0) == Session(id, maxThreads, 0, [], 0, 0)
    {
      this.id, this.maxThreads, maxIncoming, incoming := id, maxThreads, 0, [];
    }

    method AssignIncoming(conn: nat) returns (ok: bool)
      modifies this
      ensures Now(0, 0) == Assigned(old(Now(0, 0)), conn) && (ok <==> !Refuses(old(Now(0, 0))))
      ensures ok <==> |old(incoming)| < maxThreads && |old(incoming)| >= old(maxIncoming)
      ensures incoming == (if ok then old(incoming) + [conn] else old(incoming))
    {
      if |incoming| >= maxThreads { return false; }
      if |incoming| < maxIncoming { return false; }
      incoming := incoming + [conn];
      maxIncoming := |incoming|;
      ok := true;
    }

    /** Answers whether it was there, and whether the listener is due. */
    method RemoveIncoming(conn: nat) returns (found: bool, last: bool)
      modifies this
      ensures found <==> conn in old(incoming)
      ensures Now(if last then 1 else 0, 0) == Removed(old(Now(0, 0)), conn)
      ensures last <==> old(incoming) == [conn]
      ensures !found ==> incoming == old(incoming)
      ensures found ==> multiset(incoming) == multiset(old(incoming)) - multiset{conn}
    {
      var q := incoming;
      for i := 0 to |q|
        invariant incoming == q && maxIncoming == old(maxIncoming) && conn !in q[..i]
      {
        if q[i] == conn {
          WithoutAt(q, conn, i);
          OneGone(q, i);
          incoming := q[..i] + q[i + 1..];
          return true, |incoming| == 0;
        }
      }
      assert q[..|q|] == q;
      return false, false;
    }
  }
}
