/** Which thread may use which connection of a session: every interleaving of finding and giving back. */
module RpcConnections {
  datatype Use = Client | ClientAsync | ClientRefcount
  datatype Conn = Out(i: nat) | In(id: nat)
  datatype Guard = Guard(conn: Conn, reentrant: bool)
  datatype Incoming = Incoming(id: nat, tid: nat, allowNested: bool)
  datatype Owner = Free | Held(tid: nat)
  datatype Choice = Reuse(conn: Conn) | Acquire(i: nat) | WouldBlock | Wait

  /**
   * A session's connections, the guards each thread has on its call stack, innermost last, the connection each
   * thread is still setting up, and which thread serves or served each incoming connection there ever was.
   */
  datatype State = State(outgoing: seq<Owner>, incoming: seq<Incoming>, offset: nat,
                         guards: map<nat, seq<Guard>>, adding: map<nat, nat>, served: map<nat, nat>)

  // ----- looking through the connections from the offset on -----

  function Rot(hint: nat, n: nat, j: nat): (i: nat)
    requires hint < n && j < n
    ensures i < n && i == (j + hint) % n
  {
    assert j + hint >= n ==> (j + hint) % n == j + hint - n;
    if j + hint < n then j + hint else j + hint - n
  }

  /** The first place from j on, counted from the hint, that `want` owns; n if there is none. */
  function First(owners: seq<Owner>, hint: nat, want: Owner, j: nat): (r: nat)
    requires j <= |owners| && (owners == [] || hint < |owners|)
    ensures j <= r <= |owners| && (r < |owners| ==> owners[Rot(hint, |owners|, r)] == want)
    decreases |owners| - j
  {
    if j == |owners| || owners[Rot(hint, |owners|, j)] == want then j else First(owners, hint, want, j + 1)
  }

  lemma {:induction false} FirstIsFirst(owners: seq<Owner>, hint: nat, want: Owner, j: nat, k: nat)
    requires j <= k < |owners| && hint < |owners| && owners[Rot(hint, |owners|, k)] == want
    ensures First(owners, hint, want, j) <= k
    decreases k - j
  {
    if j < k && owners[Rot(hint, |owners|, j)] != want { FirstIsFirst(owners, hint, want, j + 1, k); }
  }

  /** Every place is looked at. */
  lemma Found(owners: seq<Owner>, hint: nat, want: Owner, i: nat)
    requires i < |owners| && hint < |owners| && owners[i] == want
    ensures First(owners, hint, want, 0) < |owners|
  {
    var k := if i >= hint then i - hint else i - hint + |owners|;
    assert Rot(hint, |owners|, k) == i;
    FirstIsFirst(owners, hint, want, 0, k);
  }

  function OwnersOf(incoming: seq<Incoming>): (r: seq<Owner>)
    ensures |r| == |incoming|
  {
    seq(|incoming|, i requires 0 <= i < |incoming| => Held(incoming[i].tid))
  }

  /** `findConnection`: the first free connection met before one of the thread's own, and the first of those. */
  method FindConnection(tid: nat, owners: seq<Owner>, hint: nat, wantFree: bool)
    returns (exclusive: nat, available: nat)
    requires owners == [] || hint < |owners|
    ensures var n, je, ja := |owners|, First(owners, hint, Held(tid), 0), First(owners, hint, Free, 0);
      && exclusive == (if je < n then Rot(hint, n, je) else n)
      && available == (if wantFree && ja < je then Rot(hint, n, ja) else n)
  {
    ghost var je, ja := First(owners, hint, Held(tid), 0), First(owners, hint, Free, 0);
    var n := |owners|;
    exclusive, available := n, n;
    var i := 0;
    while i < n
      invariant i <= n && exclusive == n
      invariant je == First(owners, hint, Held(tid), i) && ja <= n
      invariant available == (if wantFree && ja < i then Rot(hint, n, ja) else n)
      invariant ja >= i ==> ja == First(owners, hint, Free, i)
    {
      var at := (i + hint) % n;
      assert at == Rot(hint, n, i);
      if wantFree && available == n && owners[at] == Free {
        available := at;
      } else if owners[at] == Held(tid) {
        exclusive := at;
        return;
      }
      i := i + 1;
    }
  }

  // ----- the steps -----

  function Stack(s: State, t: nat): seq<Guard> { if t in s.guards then s.guards[t] else [] }

  ghost predicate Sound(s: State) { s.offset < |s.outgoing| || (s.outgoing == [] && s.offset == 0) }

  function OwnIn(s: State, t: nat, use: Use): nat {
    if use == ClientAsync then |s.incoming| else First(OwnersOf(s.incoming), 0, Held(t), 0)
  }

  /** One round of `find` with the lock held. */
  function Choose(s: State, t: nat, use: Use): Choice
    requires Sound(s)
  {
    var n := |s.outgoing|;
    var je, ja, ji := First(s.outgoing, s.offset, Held(t), 0), First(s.outgoing, s.offset, Free, 0), OwnIn(s, t, use);
    if ji < |s.incoming| && (s.incoming[ji].allowNested || (use == ClientRefcount && ja >= je)) then
      Reuse(In(s.incoming[ji].id))
    else if je < n then Reuse(Out(Rot(s.offset, n, je)))
    else if ja < n then Acquire(Rot(s.offset, n, ja))
    else if n == 0 then WouldBlock else Wait
  }

  function NextOffset(s: State, t: nat, use: Use): nat
    requires Sound(s)
  {
    var n := |s.outgoing|;
    var je, ja := First(s.outgoing, s.offset, Held(t), 0), First(s.outgoing, s.offset, Free, 0);
    if use == ClientAsync && (je < n || ja < n) then (s.offset + 1) % n else s.offset
  }

  function Push(s: State, t: nat, g: Guard): State { s.(guards := s.guards[t := Stack(s, t) + [g]]) }

  function DoFind(s: State, t: nat, use: Use): State
    requires Sound(s)
  {
    var s1 := s.(offset := NextOffset(s, t, use));
    match Choose(s, t, use)
    case Reuse(c) => Push(s1, t, Guard(c, true))
    case Acquire(i) =>
      if i < |s.outgoing| then Push(s1.(outgoing := s.outgoing[i := Held(t)]), t, Guard(Out(i), false)) else s1
    case _ => s1
  }

  /** A reentrant guard gives nothing back: an outer one still uses the connection. */
  function DoRelease(s: State, t: nat): State
    requires Stack(s, t) != []
  {
    var st := Stack(s, t);
    var g := st[|st| - 1];
    var s1 := s.(guards := s.guards[t := st[..|st| - 1]]);
    if !g.reentrant && g.conn.Out? && g.conn.i < |s.outgoing| then s1.(outgoing := s.outgoing[g.conn.i := Free]) else s1
  }

  datatype Step =
    | Find(t: nat, use: Use)
    | Release(t: nat)
    | AddBegin(t: nat)
    | AddEnd(t: nat)
    | AddIncoming(id: nat, t: nat)
    | DropIncoming(k: nat)
    | SetNested(k: nat, allow: bool)

  /** A thread that sets up a connection holds no guard and looks for none; an incoming connection is a new one. */
  ghost predicate Enabled(s: State, a: Step) {
    match a
    case Find(t, _) => t !in s.adding
    case Release(t) => Stack(s, t) != []
    case AddBegin(t) => Stack(s, t) == [] && t !in s.adding
    case AddEnd(t) => t in s.adding
    case AddIncoming(id, _) => id !in s.served
    case DropIncoming(k) => k < |s.incoming|
    case SetNested(k, _) => k < |s.incoming|
  }

  ghost function Do(s: State, a: Step): State
    requires Sound(s) && Enabled(s, a)
  {
    match a
    case Find(t, use) => DoFind(s, t, use)
    case Release(t) => DoRelease(s, t)
    case AddBegin(t) => s.(outgoing := s.outgoing + [Held(t)], adding := s.adding[t := |s.outgoing|])
    case AddEnd(t) =>
      var i := s.adding[t];
      s.(outgoing := if i < |s.outgoing| then s.outgoing[i := Free] else s.outgoing, adding := s.adding - {t})
    case AddIncoming(id, t) => s.(incoming := s.incoming + [Incoming(id, t, false)], served := s.served[id := t])
    case DropIncoming(k) => s.(incoming := s.incoming[..k] + s.incoming[k + 1..])
    case SetNested(k, allow) => s.(incoming := s.incoming[k := s.incoming[k].(allowNested := allow)])
  }

  // ----- the invariant, thread by thread -----

  /** The connection thread t owns according to its stack or its set-up; n if none. */
  ghost predicate Owns(s: State, t: nat, i: nat) {
    Guard(Out(i), false) in Stack(s, t) || (t in s.adding && s.adding[t] == i)
  }

  /** The table says exactly what the stacks say. */
  ghost predicate Agrees(s: State) {
    forall t: nat, i: nat :: i < |s.outgoing| ==> (s.outgoing[i] == Held(t) <==> Owns(s, t, i))
  }

  /** At most one guard on a stack owns, it is an outgoing one, and reentrant outgoing guards sit above it. */
  ghost predicate StackOk(st: seq<Guard>, n: nat) {
    && (forall k :: 0 <= k < |st| ==> (st[k].conn.Out? ==> st[k].conn.i < n) && (!st[k].reentrant ==> st[k].conn.Out?))
    && (forall j, k :: 0 <= j < k < |st| ==> st[j].reentrant || st[k].reentrant)
    && (forall k :: 0 <= k < |st| && st[k].reentrant && st[k].conn.Out? ==> Guard(st[k].conn, false) in st[..k])
  }

  ghost predicate Inv(s: State) {
    && Sound(s) && Agrees(s)
    && (forall t :: StackOk(Stack(s, t), |s.outgoing|))
    && (forall t :: t in s.adding ==> s.adding[t] < |s.outgoing| && Stack(s, t) == [])
  }

  lemma PushOk(st: seq<Guard>, n: nat, g: Guard)
    requires StackOk(st, n) && (g.conn.Out? ==> g.conn.i < n) && (!g.reentrant ==> g.conn.Out?)
    requires !g.reentrant ==> forall k :: 0 <= k < |st| ==> st[k].reentrant
    requires g.reentrant && g.conn.Out? ==> Guard(g.conn, false) in st
    ensures StackOk(st + [g], n) && forall h :: h in st + [g] <==> h in st || h == g
  {
    var st' := st + [g];
    forall k | 0 <= k < |st'| && st'[k].reentrant && st'[k].conn.Out? ensures Guard(st'[k].conn, false) in st'[..k] {
      assert st'[..k] == st[..k];
    }
  }

  /** A push by t leaves the stacks of the others alone. */
  lemma PushStacks(s: State, t: nat, g: Guard)
    ensures forall u :: Stack(Push(s, t, g), u) == if u == t then Stack(s, t) + [g] else Stack(s, u)
  {
  }

  lemma PushOwns(s: State, s1: State, t: nat, g: Guard)
    requires s1.guards == s.guards && s1.adding == s.adding
    ensures forall u, k :: Owns(Push(s1, t, g), u, k) <==> Owns(s, u, k) || (u == t && g == Guard(Out(k), false))
  {
    PushStacks(s1, t, g);
    forall u: nat ensures Stack(s1, u) == Stack(s, u) { }
  }

  /** A thread that finds none of its own owns none. */
  lemma OwnsNone(s: State, t: nat)
    requires Inv(s) && t !in s.adding && First(s.outgoing, s.offset, Held(t), 0) == |s.outgoing|
    ensures forall k :: 0 <= k < |Stack(s, t)| ==> Stack(s, t)[k].reentrant
  {
    var st := Stack(s, t);
    forall k | 0 <= k < |st| ensures st[k].reentrant {
      if !st[k].reentrant {
        var i := st[k].conn.i;
        assert st[k] == Guard(Out(i), false);
        assert Owns(s, t, i);
        Found(s.outgoing, s.offset, Held(t), i);
      }
    }
  }

  lemma ReuseKeeps(s: State, t: nat, c: Conn, offset: nat)
    requires Inv(s) && t !in s.adding && Sound(s.(offset := offset))
    requires c.Out? ==> c.i < |s.outgoing| && s.outgoing[c.i] == Held(t)
    ensures Inv(Push(s.(offset := offset), t, Guard(c, true)))
  {
    var s' := Push(s.(offset := offset), t, Guard(c, true));
    if c.Out? { assert Owns(s, t, c.i); }
    PushOk(Stack(s, t), |s.outgoing|, Guard(c, true));
    PushStacks(s.(offset := offset), t, Guard(c, true));
    forall u: nat ensures StackOk(Stack(s', u), |s'.outgoing|) { assert StackOk(Stack(s, u), |s.outgoing|); }
    PushOwns(s, s.(offset := offset), t, Guard(c, true));
  }

  lemma AcquireKeeps(s: State, t: nat, i: nat, offset: nat)
    requires Inv(s) && t !in s.adding && Sound(s.(offset := offset))
    requires i < |s.outgoing| && s.outgoing[i] == Free && First(s.outgoing, s.offset, Held(t), 0) == |s.outgoing|
    ensures Inv(Push(s.(offset := offset, outgoing := s.outgoing[i := Held(t)]), t, Guard(Out(i), false)))
  {
    var s1 := s.(offset := offset, outgoing := s.outgoing[i := Held(t)]);
    var s' := Push(s1, t, Guard(Out(i), false));
    OwnsNone(s, t);
    PushOk(Stack(s, t), |s.outgoing|, Guard(Out(i), false));
    PushStacks(s1, t, Guard(Out(i), false));
    forall u: nat ensures StackOk(Stack(s', u), |s'.outgoing|) { assert StackOk(Stack(s, u), |s.outgoing|); }
    PushOwns(s, s1, t, Guard(Out(i), false));
    forall u: nat, k: nat | k < |s'.outgoing| ensures s'.outgoing[k] == Held(u) <==> Owns(s', u, k) {
      assert s.outgoing[k] == Held(u) <==> Owns(s, u, k);
    }
  }

  lemma OffsetSound(s: State, t: nat, use: Use)
    requires Sound(s)
    ensures Sound(s.(offset := NextOffset(s, t, use)))
  {
  }

  lemma FindKeeps(s: State, t: nat, use: Use)
    requires Inv(s) && t !in s.adding
    ensures Inv(DoFind(s, t, use))
  {
    var offset := NextOffset(s, t, use);
    OffsetSound(s, t, use);
    match Choose(s, t, use)
    case Reuse(c) => ReuseKeeps(s, t, c, offset);
    case Acquire(i) => AcquireKeeps(s, t, i, offset);
    case WouldBlock => SameOwners(s, s.(offset := offset));
    case Wait => SameOwners(s, s.(offset := offset));
  }

  /** Only owners and stacks matter. */
  lemma SameOwners(s: State, s': State)
    requires Inv(s) && Sound(s') && s'.outgoing == s.outgoing && s'.guards == s.guards && s'.adding == s.adding
    ensures Inv(s')
  {
    forall t: nat ensures Stack(s', t) == Stack(s, t) { }
    forall t: nat, i: nat | i < |s'.outgoing| ensures s'.outgoing[i] == Held(t) <==> Owns(s', t, i) {
      assert Owns(s, t, i) <==> Owns(s', t, i);
    }
  }

  lemma PopOk(st: seq<Guard>, n: nat)
    requires StackOk(st, n) && st != []
    ensures StackOk(st[..|st| - 1], n)
    ensures var g := st[|st| - 1]; !g.reentrant ==> g !in st[..|st| - 1]
    ensures forall h :: h in st <==> h in st[..|st| - 1] || h == st[|st| - 1]
  {
    var front := st[..|st| - 1];
    forall k | 0 <= k < |front| && front[k].reentrant && front[k].conn.Out?
      ensures Guard(front[k].conn, false) in front[..k]
    {
      assert front[..k] == st[..k];
    }
    assert st == front + [st[|st| - 1]];
  }

  /** After a guard is gone the stack owns what it owned before, less what the guard owned. */
  lemma ReleaseKeeps(s: State, t: nat)
    requires Inv(s) && Stack(s, t) != []
    ensures Inv(DoRelease(s, t))
  {
    var st := Stack(s, t);
    var g, s' := st[|st| - 1], DoRelease(s, t);
    PopOk(st, |s.outgoing|);
    forall u: nat ensures Stack(s', u) == if u == t then st[..|st| - 1] else Stack(s, u) { }
    forall u: nat, i: nat | i < |s'.outgoing| ensures s'.outgoing[i] == Held(u) <==> Owns(s', u, i) {
      assert s.outgoing[i] == Held(u) <==> Owns(s, u, i);
      if u == t && !g.reentrant {
        assert t !in s.adding;
      } else if !g.reentrant && i == g.conn.i {
        assert Owns(s, t, i);
      }
    }
  }

  lemma AddBeginKeeps(s: State, t: nat)
    requires Inv(s) && Enabled(s, AddBegin(t))
    ensures Inv(Do(s, AddBegin(t)))
  {
    var s' := Do(s, AddBegin(t));
    forall u: nat ensures Stack(s', u) == Stack(s, u) && StackOk(Stack(s, u), |s'.outgoing|) {
      assert StackOk(Stack(s, u), |s.outgoing|);
    }
    forall u: nat, i: nat | i < |s'.outgoing| ensures s'.outgoing[i] == Held(u) <==> Owns(s', u, i) {
      assert StackOk(Stack(s, u), |s.outgoing|);
      if i < |s.outgoing| {
        assert s.outgoing[i] == Held(u) <==> Owns(s, u, i);
      }
    }
  }

  lemma AddEndKeeps(s: State, t: nat)
    requires Inv(s) && Enabled(s, AddEnd(t))
    ensures Inv(Do(s, AddEnd(t)))
  {
    var s' := Do(s, AddEnd(t));
    forall u: nat ensures Stack(s', u) == Stack(s, u) { }
    forall u: nat, i: nat | i < |s'.outgoing| ensures s'.outgoing[i] == Held(u) <==> Owns(s', u, i) {
      assert s.outgoing[i] == Held(u) <==> Owns(s, u, i);
      if i == s.adding[t] { assert Owns(s, t, i); }
    }
  }

  lemma StepKeeps(s: State, a: Step)
    requires Inv(s) && Enabled(s, a)
    ensures Inv(Do(s, a))
  {
    match a
    case Find(t, use) => FindKeeps(s, t, use);
    case Release(t) => ReleaseKeeps(s, t);
    case AddBegin(t) => AddBeginKeeps(s, t);
    case AddEnd(t) => AddEndKeeps(s, t);
    case _ => SameOwners(s, Do(s, a));
  }

  const START := State([], [], 0, map[], map[], map[])

  /** A run: each step was allowed and led to the next state. */
  ghost predicate IsRun(ss: seq<State>, steps: seq<Step>) {
    && |ss| == |steps| + 1 && ss[0] == START
    && forall i {:trigger steps[i]} :: 0 <= i < |steps| ==> Leads(ss[i], steps[i], ss[i + 1])
  }

  ghost predicate Leads(s: State, a: Step, s': State) { Sound(s) && Enabled(s, a) && s' == Do(s, a) }

  lemma {:induction false} RunKeeps(ss: seq<State>, steps: seq<Step>, n: nat)
    requires IsRun(ss, steps) && n < |ss|
    ensures Inv(ss[n])
  {
    if n > 0 {
      RunKeeps(ss, steps, n - 1);
      assert Leads(ss[n - 1], steps[n - 1], ss[n]);
      StepKeeps(ss[n - 1], steps[n - 1]);
    }
  }

  // ----- what the invariant means -----

  /** A guard anywhere on a stack, reentrant or not, means its thread owns the connection. */
  lemma GuardOwns(s: State, t: nat, i: nat, reentrant: bool)
    requires Inv(s) && Guard(Out(i), reentrant) in Stack(s, t)
    ensures i < |s.outgoing| && s.outgoing[i] == Held(t)
  {
    var st := Stack(s, t);
    var k :| 0 <= k < |st| && st[k] == Guard(Out(i), reentrant);
    assert StackOk(st, |s.outgoing|);
    if reentrant {
      assert Guard(Out(i), false) in st[..k];
      assert Guard(Out(i), false) in st;
    }
    assert Owns(s, t, i);
  }

  /** No two threads have guards on the same outgoing connection, */
  lemma Exclusive(s: State, t: nat, u: nat, i: nat, r: bool, q: bool)
    requires Inv(s) && Guard(Out(i), r) in Stack(s, t) && Guard(Out(i), q) in Stack(s, u)
    ensures t == u
  {
    GuardOwns(s, t, i, r);
    GuardOwns(s, u, i, q);
  }

  /** and no thread owns two outgoing connections. */
  lemma OwnsOne(s: State, t: nat, i: nat, j: nat)
    requires Inv(s) && i < |s.outgoing| && j < |s.outgoing| && s.outgoing[i] == Held(t) && s.outgoing[j] == Held(t)
    ensures i == j
  {
    assert Owns(s, t, i) && Owns(s, t, j);
    assert StackOk(Stack(s, t), |s.outgoing|);
    var st := Stack(s, t);
    if Guard(Out(i), false) in st && Guard(Out(j), false) in st {
      var a :| 0 <= a < |st| && st[a] == Guard(Out(i), false);
      var b :| 0 <= b < |st| && st[b] == Guard(Out(j), false);
    }
  }

  /** Giving back a reentrant guard changes no owner; giving back the owning one frees just that connection. */
  lemma ReleaseFrees(s: State, t: nat, i: nat)
    requires Inv(s) && Stack(s, t) != [] && i < |s.outgoing|
    ensures var g := Stack(s, t)[|Stack(s, t)| - 1];
      DoRelease(s, t).outgoing[i] == if g == Guard(Out(i), false) then Free else s.outgoing[i]
    ensures DoRelease(s, t).outgoing[i] == Free && s.outgoing[i] != Free ==>
      forall u, r :: Guard(Out(i), r) !in Stack(DoRelease(s, t), u)
  {
    var st := Stack(s, t);
    var g, s' := st[|st| - 1], DoRelease(s, t);
    assert StackOk(st, |s.outgoing|);
    ReleaseKeeps(s, t);
    forall u, r | Guard(Out(i), r) in Stack(s', u) ensures s'.outgoing[i] == Held(u) {
      GuardOwns(s', u, i, r);
    }
  }

  /** A thread has to wait exactly when every outgoing connection belongs to some other thread and it has no way in. */
  lemma WaitsIff(s: State, t: nat, use: Use)
    requires Inv(s)
    ensures Choose(s, t, use) in {Wait, WouldBlock} <==>
      && (forall i :: 0 <= i < |s.outgoing| ==> s.outgoing[i].Held? && s.outgoing[i].tid != t)
      && (OwnIn(s, t, use) == |s.incoming| || (!s.incoming[OwnIn(s, t, use)].allowNested && use != ClientRefcount))
    ensures Choose(s, t, use) == WouldBlock ==> s.outgoing == []
  {
    var n := |s.outgoing|;
    var je, ja := First(s.outgoing, s.offset, Held(t), 0), First(s.outgoing, s.offset, Free, 0);
    forall i | 0 <= i < n ensures (s.outgoing[i] == Held(t) ==> je < n) && (s.outgoing[i] == Free ==> ja < n) {
      if s.outgoing[i] == Held(t) { Found(s.outgoing, s.offset, Held(t), i); }
      if s.outgoing[i] == Free { Found(s.outgoing, s.offset, Free, i); }
    }
    if je < n { assert s.outgoing[Rot(s.offset, n, je)] == Held(t); }
    if ja < n { assert s.outgoing[Rot(s.offset, n, ja)] == Free; }
  }

  // ----- whose connection is chosen -----

  /** The first incoming connection that thread t serves. */
  ghost predicate FirstOwn(s: State, t: nat, k: nat) {
    k < |s.incoming| && s.incoming[k].tid == t && forall j :: 0 <= j < k ==> s.incoming[j].tid != t
  }

  /** Going round from the offset, a free outgoing connection is met before one of the thread's own. */
  ghost predicate FreeMet(s: State, t: nat)
    requires Sound(s)
  {
    exists j :: 0 <= j < |s.outgoing| && MeetsFree(s, t, j)
  }

  ghost predicate MeetsFree(s: State, t: nat, j: nat)
    requires Sound(s) && j < |s.outgoing|
  {
    s.outgoing[At(s, j)] == Free && forall i :: 0 <= i < j ==> s.outgoing[At(s, i)] != Held(t)
  }

  /** The j-th connection from the offset on. */
  function At(s: State, j: nat): (i: nat)
    requires Sound(s) && j < |s.outgoing|
    ensures i < |s.outgoing|
  {
    (s.offset + j) % |s.outgoing|
  }

  lemma {:induction false} NoneBefore(owners: seq<Owner>, hint: nat, want: Owner, j: nat, k: nat)
    requires hint < |owners| && j <= |owners| && j <= k < First(owners, hint, want, j)
    ensures owners[Rot(hint, |owners|, k)] != want
    decreases k - j
  {
    if j < k { NoneBefore(owners, hint, want, j + 1, k); }
  }

  lemma FreeMetIff(s: State, t: nat)
    requires Sound(s)
    ensures FreeMet(s, t) <==> First(s.outgoing, s.offset, Free, 0) < First(s.outgoing, s.offset, Held(t), 0)
  {
    var je, ja := First(s.outgoing, s.offset, Held(t), 0), First(s.outgoing, s.offset, Free, 0);
    if ja < je {
      forall i | 0 <= i < ja ensures s.outgoing[At(s, i)] != Held(t) {
        NoneBefore(s.outgoing, s.offset, Held(t), 0, i);
      }
      assert MeetsFree(s, t, ja);
    }
    if FreeMet(s, t) {
      var j :| 0 <= j < |s.outgoing| && MeetsFree(s, t, j);
      FirstIsFirst(s.outgoing, s.offset, Free, 0, j);
      if je <= j { assert s.outgoing[At(s, je)] == Held(t); }
    }
  }

  lemma OwnInIs(s: State, t: nat, use: Use)
    requires use != ClientAsync
    ensures var ji := OwnIn(s, t, use); ji <= |s.incoming| && (ji < |s.incoming| ==> FirstOwn(s, t, ji))
    ensures OwnIn(s, t, use) == |s.incoming| ==> forall k :: 0 <= k < |s.incoming| ==> s.incoming[k].tid != t
  {
    var owners, ji := OwnersOf(s.incoming), OwnIn(s, t, use);
    forall k | 0 <= k < ji ensures s.incoming[k].tid != t {
      NoneBefore(owners, 0, Held(t), 0, k);
    }
  }

  /**
   * A thread goes over an incoming connection exactly if it serves one (the first counts), the call is not
   * asynchronous, and either calls may be nested in that connection or it is only about references and no free
   * outgoing connection comes first. In every other case, and for every other connection, it does not.
   */
  lemma IncomingIff(s: State, t: nat, use: Use, id: nat)
    requires Sound(s)
    ensures Choose(s, t, use) == Reuse(In(id)) <==>
      exists k: nat :: FirstOwn(s, t, k) && s.incoming[k].id == id && MayNest(s, t, use, k)
  {
    FreeMetIff(s, t);
    if use != ClientAsync {
      OwnInIs(s, t, use);
      var ji := OwnIn(s, t, use);
      forall k: nat | FirstOwn(s, t, k) ensures k == ji { }
      if ji < |s.incoming| { assert MayNest(s, t, use, ji) <==> Choose(s, t, use) == Reuse(In(s.incoming[ji].id)); }
    }
  }

  ghost predicate MayNest(s: State, t: nat, use: Use, k: nat)
    requires Sound(s) && k < |s.incoming|
  {
    use != ClientAsync && (s.incoming[k].allowNested || (use == ClientRefcount && !FreeMet(s, t)))
  }

  /** An outgoing connection that is reused is the thread's own; one that is taken is free, and it had none. */
  lemma OutgoingChosen(s: State, t: nat, use: Use)
    requires Sound(s)
    ensures var c := Choose(s, t, use);
      && (c.Reuse? && c.conn.Out? ==> c.conn.i < |s.outgoing| && s.outgoing[c.conn.i] == Held(t))
      && (c.Acquire? ==>
            && c.i < |s.outgoing| && s.outgoing[c.i] == Free
            && (forall i :: 0 <= i < |s.outgoing| ==> s.outgoing[i] != Held(t))
            && exists j :: 0 <= j < |s.outgoing| && c.i == At(s, j) && IsFirstFree(s, j))
  {
    var je, ja := First(s.outgoing, s.offset, Held(t), 0), First(s.outgoing, s.offset, Free, 0);
    if Choose(s, t, use).Acquire? {
      forall i | 0 <= i < |s.outgoing| ensures s.outgoing[i] != Held(t) {
        if s.outgoing[i] == Held(t) { Found(s.outgoing, s.offset, Held(t), i); }
      }
      forall i | 0 <= i < ja ensures s.outgoing[At(s, i)] != Free {
        NoneBefore(s.outgoing, s.offset, Free, 0, i);
      }
      assert Choose(s, t, use).i == At(s, ja) && IsFirstFree(s, ja);
    }
  }

  ghost predicate IsFirstFree(s: State, j: nat)
    requires Sound(s) && j < |s.outgoing|
  {
    s.outgoing[At(s, j)] == Free && forall i :: 0 <= i < j ==> s.outgoing[At(s, i)] != Free
  }

  /** Some outgoing connection is free or the thread's own. */
  ghost predicate Usable(s: State, t: nat) {
    exists i :: 0 <= i < |s.outgoing| && (s.outgoing[i] == Free || s.outgoing[i] == Held(t))
  }

  lemma UsableIff(s: State, t: nat)
    requires Sound(s)
    ensures Usable(s, t) <==>
      First(s.outgoing, s.offset, Held(t), 0) < |s.outgoing| || First(s.outgoing, s.offset, Free, 0) < |s.outgoing|
  {
    if Usable(s, t) {
      var i :| 0 <= i < |s.outgoing| && (s.outgoing[i] == Free || s.outgoing[i] == Held(t));
      Found(s.outgoing, s.offset, s.outgoing[i], i);
    }
  }

  /** Only an asynchronous call moves the offset, by one, and only if a connection is free or the thread's own. */
  lemma OffsetMoves(s: State, t: nat, use: Use)
    requires Sound(s)
    ensures NextOffset(s, t, use) ==
      if use != ClientAsync || !Usable(s, t) then s.offset
      else if s.offset + 1 == |s.outgoing| then 0 else s.offset + 1
  {
    UsableIff(s, t);
  }

  /** The thread serves the connection, and may use it for this. */
  ghost predicate Serves(incoming: seq<Incoming>, t: nat, use: Use, id: nat) {
    exists k :: 0 <= k < |incoming| && incoming[k].id == id && incoming[k].tid == t
                && use != ClientAsync && (incoming[k].allowNested || use == ClientRefcount)
  }

  lemma ChosenServes(s: State, t: nat, use: Use, id: nat)
    requires Sound(s) && Choose(s, t, use) == Reuse(In(id))
    ensures Serves(s.incoming, t, use, id)
  {
    IncomingIff(s, t, use, id);
  }

  // ----- incoming connections are not shared either -----

  /** The record of who serves which connection, and guards on incoming ones only at the thread that serves them. */
  ghost predicate InOk(s: State) {
    && (forall x :: x in s.incoming ==> x.id in s.served && s.served[x.id] == x.tid)
    && (forall t, id, r :: Guard(In(id), r) in Stack(s, t) ==> id in s.served && s.served[id] == t)
  }

  lemma InPushed(s: State, s1: State, t: nat, g: Guard)
    requires InOk(s) && s1.guards == s.guards && s1.incoming == s.incoming && s1.served == s.served
    requires g.conn.In? ==> g.conn.id in s.served && s.served[g.conn.id] == t
    ensures InOk(Push(s1, t, g))
  {
    forall u, id, r | Guard(In(id), r) in Stack(Push(s1, t, g), u) ensures id in s.served && s.served[id] == u {
      assert Guard(In(id), r) in Stack(s, u) || (u == t && g == Guard(In(id), r));
    }
  }

  lemma FindKeepsIn(s: State, t: nat, use: Use)
    requires Sound(s) && InOk(s)
    ensures InOk(DoFind(s, t, use))
  {
    var s1 := s.(offset := NextOffset(s, t, use));
    match Choose(s, t, use)
    case Reuse(c) =>
      if c.In? {
        ChosenServes(s, t, use, c.id);
      }
      InPushed(s, s1, t, Guard(c, true));
    case Acquire(i) =>
      if i < |s.outgoing| { InPushed(s, s1.(outgoing := s.outgoing[i := Held(t)]), t, Guard(Out(i), false)); }
    case _ => SameIn(s, s1);
  }

  lemma SameIn(s: State, s': State)
    requires InOk(s) && s'.incoming == s.incoming && s'.served == s.served
    requires forall t, g :: g in Stack(s', t) ==> g in Stack(s, t)
    ensures InOk(s')
  {
  }

  lemma StepKeepsIn(s: State, a: Step)
    requires Sound(s) && InOk(s) && Enabled(s, a)
    ensures InOk(Do(s, a))
  {
    var s' := Do(s, a);
    match a
    case Find(t, use) => FindKeepsIn(s, t, use);
    case Release(t) => SameIn(s, s');
    case AddBegin(t) => SameIn(s, s');
    case AddEnd(t) => SameIn(s, s');
    case AddIncoming(id, t) => SameStacks(s, s');
    case DropIncoming(k) =>
      assert forall x :: x in s'.incoming ==> x in s.incoming;
      SameStacks(s, s');
    case SetNested(k, allow) =>
      forall x | x in s'.incoming ensures x.id in s.served && s.served[x.id] == x.tid {
        assert x in s.incoming || x == s.incoming[k].(allowNested := allow);
        assert s.incoming[k] in s.incoming;
      }
      SameStacks(s, s');
  }

  lemma SameStacks(s: State, s': State)
    requires s'.guards == s.guards
    ensures forall t :: Stack(s', t) == Stack(s, t)
  {
  }

  lemma {:induction false} RunKeepsIn(ss: seq<State>, steps: seq<Step>, n: nat)
    requires IsRun(ss, steps) && n < |ss|
    ensures InOk(ss[n])
  {
    if n > 0 {
      RunKeepsIn(ss, steps, n - 1);
      assert Leads(ss[n - 1], steps[n - 1], ss[n]);
      StepKeepsIn(ss[n - 1], steps[n - 1]);
    }
  }

  /** In every run two threads never have guards on the same connection, whichever way it was made. */
  lemma NeverShared(ss: seq<State>, steps: seq<Step>, n: nat, t: nat, u: nat, c: Conn, r: bool, q: bool)
    requires IsRun(ss, steps) && n < |ss| && Guard(c, r) in Stack(ss[n], t) && Guard(c, q) in Stack(ss[n], u)
    ensures t == u
  {
    RunKeeps(ss, steps, n);
    RunKeepsIn(ss, steps, n);
    if c.Out? { Exclusive(ss[n], t, u, c.i, r, q); }
  }

  // ----- the session object -----

  class Connections {
    var outgoing: seq<Owner>
    var incoming: seq<Incoming>
    var outgoingOffset: nat
    ghost var guards: map<nat, seq<Guard>>
    ghost var adding: map<nat, nat>
    ghost var served: map<nat, nat>

    ghost function Now(): State
      reads this
    {
      State(outgoing, incoming, outgoingOffset, guards, adding, served)
    }

    constructor ()
      ensures Now() == START && Inv(Now())
    {
      outgoing, incoming, outgoingOffset, guards, adding, served := [], [], 0, map[], map[], map[];
    }

    /** What a round of `find` settles on, and the offset for the next. */
    method Pick(tid: nat, use: Use) returns (r: Choice, offset: nat)
      requires Sound(Now())
      ensures r == Choose(Now(), tid, use) && offset == NextOffset(Now(), tid, use)
      ensures r.Reuse? && r.conn.In? ==> Serves(incoming, tid, use, r.conn.id)
      ensures r.Reuse? && r.conn.Out? ==> r.conn.i < |outgoing| && outgoing[r.conn.i] == Held(tid)
      ensures r.Acquire? ==> r.i < |outgoing| && outgoing[r.i] == Free
    {
      var n := |outgoing|;
      var exclusive, available := FindConnection(tid, outgoing, outgoingOffset, true);
      offset := outgoingOffset;
      if use == ClientAsync && (exclusive < n || available < n) {
        offset := (outgoingOffset + 1) % n;
      }
      r := if exclusive < n then Reuse(Out(exclusive)) else if available < n then Acquire(available)
           else if n == 0 then WouldBlock else Wait;
      if use != ClientAsync {
        var own, _ := FindConnection(tid, OwnersOf(incoming), 0, false);
        if own < |incoming| && (incoming[own].allowNested || (use == ClientRefcount && available == n)) {
          r := Reuse(In(incoming[own].id));
        }
      }
    }

    /** One round of `ExclusiveConnection::find`; on Wait the thread sleeps and comes back for another. */
    method FindOne(tid: nat, use: Use) returns (r: Choice)
      requires Inv(Now()) && Enabled(Now(), Find(tid, use))
      modifies this
      ensures Now() == Do(old(Now()), Find(tid, use)) && Inv(Now())
      ensures r == Choose(old(Now()), tid, use)
      ensures r.Reuse? && r.conn.In? ==> Serves(incoming, tid, use, r.conn.id)
      ensures r.Reuse? && r.conn.Out? ==> r.conn.i < |outgoing| && old(outgoing)[r.conn.i] == Held(tid)
      ensures r.Acquire? ==> r.i < |outgoing| && old(outgoing)[r.i] == Free && outgoing[r.i] == Held(tid)
    {
      ghost var s := Now();
      FindKeeps(s, tid, use);
      var offset;
      r, offset := Pick(tid, use);
      outgoingOffset := offset;
      if r.Reuse? {
        guards := guards[tid := Stack(s, tid) + [Guard(r.conn, true)]];
      } else if r.Acquire? {
        outgoing := outgoing[r.i := Held(tid)];
        guards := guards[tid := Stack(s, tid) + [Guard(Out(r.i), false)]];
      }
    }

    /** `~ExclusiveConnection` of the thread's innermost guard. */
    method GiveBack(tid: nat, guard: Guard)
      requires Inv(Now()) && Enabled(Now(), Release(tid)) && guard == Stack(Now(), tid)[|Stack(Now(), tid)| - 1]
      modifies this
      ensures Now() == Do(old(Now()), Release(tid)) && Inv(Now())
    {
      ghost var s := Now();
      ReleaseKeeps(s, tid);
      assert StackOk(Stack(s, tid), |s.outgoing|);
      guards := guards[tid := Stack(s, tid)[..|Stack(s, tid)| - 1]];
      if !guard.reentrant {
        outgoing := outgoing[guard.conn.i := Free];
      }
    }

    /** The two locked parts of `addOutgoingConnection`, around the sending of the init message. */
    method BeginAdd(tid: nat) returns (i: nat)
      requires Inv(Now()) && Enabled(Now(), AddBegin(tid))
      modifies this
      ensures Now() == Do(old(Now()), AddBegin(tid)) && Inv(Now()) && adding[tid] == i
    {
      AddBeginKeeps(Now(), tid);
      i := |outgoing|;
      outgoing := outgoing + [Held(tid)];
      adding := adding[tid := i];
    }

    method EndAdd(tid: nat, i: nat)
      requires Inv(Now()) && Enabled(Now(), AddEnd(tid)) && adding[tid] == i
      modifies this
      ensures Now() == Do(old(Now()), AddEnd(tid)) && Inv(Now())
    {
      AddEndKeeps(Now(), tid);
      outgoing := outgoing[i := Free];
      adding := adding - {tid};
    }
  }
}
