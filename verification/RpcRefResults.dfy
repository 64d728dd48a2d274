/** What the reference protocol promises over whole runs when nothing is given up, and which checks can fail. */
module RpcRefResults {
  import opened Basics
  import opened RpcWire
  import opened RpcNodes
  import opened RpcRefProtocol

  // ----- when references are lost -----

  /** A DEC_STRONG loses references exactly when the amount does not fit its 32-bit field. */
  lemma SendDecLosesIff(h: Half, o: Half, a: WireAddress, target: nat)
    requires SendDec(h, o, a, target).Next?
    ensures SendDec(h, o, a, target).h.leaked == h.leaked
    ensures SendDec(h, o, a, target).o.leaked == o.leaked <==> Recd(h.ep, a) - target < TWO32
  {
    if Recd(h.ep, a) > target {
      var lost: nat := Recd(h.ep, a) - target - (Recd(h.ep, a) - target) % TWO32;
      assert lost == 0 <==> Recd(h.ep, a) - target < TWO32;
      assert o.leaked[a := o.leaked[a] + lost][a] == o.leaked[a] + lost;
      if lost == 0 { assert o.leaked[a := o.leaked[a]] == o.leaked; }
    }
  }

  lemma AckLosesNone(h: Half, o: Half, i: nat)
    requires DoAck(h, o, i).Next? && forall a :: Recd(h.ep, a) < TWO32
    ensures DoAck(h, o, i).h.leaked == h.leaked && DoAck(h, o, i).o.leaked == o.leaked
  {
    var a := o.wire[i].addr;
    var r := ProcessDec(h.ep, a, o.wire[i].amount, a in h.held);
    var h', o' := h.(ep := r.e), o.(wire := RemoveAt(o.wire, i));
    assert Recd(r.e, a) <= Recd(h.ep, a);
    if SendDec(h', o', a, 0).Next? { SendDecLosesIff(h', o', a, 0); }
  }

  /** Counts that fit the amount of a DEC_STRONG, and a step that destroys no parcel. */
  ghost predicate Careful(h: Half, act: Action) {
    !act.AbandonUnsent? && !act.AbandonUnread? && forall a :: Recd(h.ep, a) < TWO32
  }

  lemma LosesNone(h: Half, o: Half, act: Action)
    requires Act(h, o, act).Next? && Careful(h, act)
    ensures Act(h, o, act).h.leaked == h.leaked && Act(h, o, act).o.leaked == o.leaked
  {
    match act
    case FlushSend(a) => SendDecLosesIff(h.(flushing := h.flushing - multiset{a}), o, a, 0);
    case Trim(a, target) => SendDecLosesIff(h, o, a, target);
    case Drop(a) =>
      if !(a in h.ep.nodes && h.ep.nodes[a].sentRef) { SendDecLosesIff(h.(held := h.held - {a}), o, a, 0); }
    case Ack(i) => AckLosesNone(h, o, i);
    case _ =>
  }

  ghost predicate CarefulStep(s: Sys, st: Step) { Careful(if st.onServer then s.server else s.client, st.act) }

  /** A run that destroys no parcel with references in it, while counts fit 32 bits, loses nothing. */
  lemma {:induction false} NothingLost(tr: seq<Sys>, steps: seq<Step>, i: nat)
    requires IsRun(tr, steps) && i < |tr|
    requires forall j {:trigger steps[j]} :: 0 <= j < i ==> CarefulStep(tr[j], steps[j])
    ensures tr[i].client.leaked == multiset{} && tr[i].server.leaked == multiset{}
  {
    if i > 0 {
      NothingLost(tr, steps, i - 1);
      var s, st := tr[i - 1], steps[i - 1];
      assert CarefulStep(s, st) && Leads(s, st, tr[i]);
      if st.onServer { LosesNone(s.server, s.client, st.act); } else { LosesNone(s.client, s.server, st.act); }
    }
  }

  /** References that left h and are still under way: in parcels, in messages, or in DEC_STRONG messages back. */
  ghost function UnderWay(h: Half, o: Half, a: WireAddress): nat {
    h.outbox[a] + RefsOn(h.wire, a) + o.inbox[a] + DecsOn(o.wire, a)
  }

  /** Conservation without slack: in such a run, sent is received plus under way, for each address and both ways. */
  lemma ExactConservation(tr: seq<Sys>, steps: seq<Step>, i: nat, a: WireAddress)
    requires IsRun(tr, steps) && i < |tr|
    requires forall j {:trigger steps[j]} :: 0 <= j < i ==> CarefulStep(tr[j], steps[j])
    ensures var c, v := tr[i].client, tr[i].server;
      Sent(c.ep, a) == Recd(v.ep, a) + UnderWay(c, v, a) && Sent(v.ep, a) == Recd(c.ep, a) + UnderWay(v, c, a)
  {
    NothingLost(tr, steps, i);
    Conservation(tr, steps, i, a);
  }

  // ----- when no step is fatal -----

  /** Each address has at most one flush pending at this side. */
  ghost predicate Alone(h: Half) {
    && (forall t :: t in h.toFlush ==> h.toFlush[t] == 1 && h.flushing[t.addr] == 0)
    && (forall t, u :: t in h.toFlush && u in h.toFlush && t != u ==> t.addr != u.addr)
    && (forall a :: h.flushing[a] <= 1)
  }

  ghost predicate Awaits(h: Half, a: WireAddress) { a in h.ep.nodes && h.ep.nodes[a].timesRecd > 0 }

  /** The node a flush is pending for has received references to give back. */
  ghost predicate Owed(h: Half) {
    && (forall t :: t in h.toFlush ==> Awaits(h, t.addr) && h.ep.nodes[t.addr].binder == LocalBinder(t.id))
    && (forall a :: a in h.flushing ==> Awaits(h, a))
  }

  /** The node of an own object survives what is done to other nodes, and any acknowledgement. */
  ghost predicate Survives(h: Half, h': Half, c: WireAddress)
    requires Awaits(h, c)
  {
    Awaits(h', c) && h'.ep.nodes[c].binder == h.ep.nodes[c].binder
  }

  lemma DecSurvives(h: Half, o: Half, a: WireAddress, target: nat, c: WireAddress)
    requires SendDec(h, o, a, target).Next? && Awaits(h, c) && a != c
    ensures Survives(h, SendDec(h, o, a, target).h, c)
  {
  }

  lemma AckSurvives(h: Half, o: Half, i: nat, c: WireAddress)
    requires DoAck(h, o, i).Next? && Awaits(h, c) && h.ep.nodes[c].binder.LocalBinder?
    ensures Survives(h, DoAck(h, o, i).h, c)
  {
    var a := o.wire[i].addr;
    var e := ProcessDec(h.ep, a, o.wire[i].amount, a in h.held).e;
    assert Survives(h, h.(ep := e), c);
    if SendDec(h.(ep := e), o.(wire := RemoveAt(o.wire, i)), a, 0).Next? && a != c {
      DecSurvives(h.(ep := e), o.(wire := RemoveAt(o.wire, i)), a, 0, c);
    }
  }

  lemma ReadSurvives(h: Half, o: Half, a: WireAddress, c: WireAddress)
    requires DoRead(h, o, a).Next? && Awaits(h, c)
    ensures Survives(h, DoRead(h, o, a).h, c)
  {
  }

  /** A local binder's node with received references stays, unless they are flushed. */
  lemma Stays(h: Half, o: Half, act: Action, c: WireAddress)
    requires Awaits(h, c) && h.ep.nodes[c].binder.LocalBinder? && c !in h.held && act != FlushSend(c)
    requires Act(h, o, act).Next?
    ensures Survives(h, Act(h, o, act).h, c)
  {
    match act
    case Read(a) => ReadSurvives(h, o, a, c);
    case Trim(a, target) => DecSurvives(h, o, a, target, c);
    case Drop(a) =>
      if !(a in h.ep.nodes && h.ep.nodes[a].sentRef) { DecSurvives(h.(held := h.held - {a}), o, a, 0, c); }
    case FlushSend(a) => DecSurvives(h.(flushing := h.flushing - multiset{a}), o, a, 0, c);
    case Ack(i) => AckSurvives(h, o, i, c);
    case _ =>
  }

  lemma OwnNode(forServer: bool, h: Half, o: Half, c: WireAddress)
    requires PairInv(forServer, h, o, {}) && CreatedBy(forServer, c)
    ensures c !in h.held && (c in h.ep.nodes ==> h.ep.nodes[c].binder.LocalBinder?)
  {
    assert Fit(forServer, c, ViewOf(h, o, c), ViewOf(o, h, c));
  }

  /** What was owed at an address is still owed there. */
  lemma OwedStays(forServer: bool, h: Half, o: Half, act: Action, c: WireAddress)
    requires PairInv(forServer, h, o, {}) && Awaits(h, c) && act != FlushSend(c)
    requires c in h.flushing || exists t :: t in h.toFlush && t.addr == c
    requires Act(h, o, act).Next?
    ensures Survives(h, Act(h, o, act).h, c)
  {
    assert CreatedBy(forServer, c);
    OwnNode(forServer, h, o, c);
    Stays(h, o, act, c);
  }

  lemma StepFlushes(h: Half, o: Half, act: Action)
    requires Act(h, o, act).Next? && !act.Read? && !act.FlushCheck?
    ensures var h' := Act(h, o, act).h;
      h'.toFlush == h.toFlush && h'.flushing == if act.FlushSend? then h.flushing - multiset{act.addr} else h.flushing
  {
  }

  lemma OwedKeeps(forServer: bool, h: Half, o: Half, act: Action)
    requires PairInv(forServer, h, o, {}) && Owed(h) && Alone(h)
    requires Act(h, o, act).Next?
    ensures Owed(Act(h, o, act).h)
  {
    match act
    case Read(a) => OwedRead(forServer, h, o, a);
    case FlushCheck(t) => OwedCheck(h, o, t);
    case _ => OwedRest(forServer, h, o, act);
  }

  lemma OwedRest(forServer: bool, h: Half, o: Half, act: Action)
    requires PairInv(forServer, h, o, {}) && Owed(h) && Alone(h)
    requires Act(h, o, act).Next? && !act.Read? && !act.FlushCheck?
    ensures Owed(Act(h, o, act).h)
  {
    var h' := Act(h, o, act).h;
    StepFlushes(h, o, act);
    forall t | t in h'.toFlush ensures Awaits(h', t.addr) && h'.ep.nodes[t.addr].binder == LocalBinder(t.id) {
      OwedStays(forServer, h, o, act, t.addr);
    }
    forall a | a in h'.flushing ensures Awaits(h', a) {
      assert h.flushing[a] <= 1;
      OwedStays(forServer, h, o, act, a);
    }
  }

  lemma OwedCheck(h: Half, o: Half, t: Token)
    requires Owed(h) && DoFlushCheck(h, o, t).Next?
    ensures Owed(DoFlushCheck(h, o, t).h)
  {
    var h' := DoFlushCheck(h, o, t).h;
    assert forall u :: u in h'.toFlush ==> u in h.toFlush;
    assert forall a :: a in h'.flushing ==> a in h.flushing || a == t.addr;
    assert forall a :: Awaits(h, a) ==> Awaits(h', a);
  }

  lemma OwedRead(forServer: bool, h: Half, o: Half, a: WireAddress)
    requires PairInv(forServer, h, o, {}) && Owed(h) && DoRead(h, o, a).Next?
    ensures Owed(DoRead(h, o, a).h)
  {
    var h' := DoRead(h, o, a).h;
    forall t | t in h'.toFlush ensures Awaits(h', t.addr) && h'.ep.nodes[t.addr].binder == LocalBinder(t.id) {
      if t in h.toFlush { OwedStays(forServer, h, o, Read(a), t.addr); }
    }
    forall c | c in h'.flushing ensures Awaits(h', c) {
      OwedStays(forServer, h, o, Read(a), c);
    }
  }

  /** The other side's table and flushes are out of reach of a step. */
  lemma OwedOther(h: Half, o: Half, act: Action)
    requires Owed(o) && Act(h, o, act).Next?
    ensures Owed(Act(h, o, act).o)
  {
    var o' := Act(h, o, act).o;
    assert o'.ep == o.ep && o'.toFlush == o.toFlush && o'.flushing == o.flushing;
    assert forall a :: Awaits(o, a) ==> Awaits(o', a);
  }

  ghost predicate BothOwed(s: Sys) { Owed(s.client) && Owed(s.server) }

  ghost predicate Calm(s: Sys) { Alone(s.client) && Alone(s.server) }

  lemma OwedStep(s: Sys, st: Step, s': Sys)
    requires Inv(s) && Calm(s) && Leads(s, st, s') && BothOwed(s)
    ensures BothOwed(s')
  {
    if st.onServer {
      Turn(false, s.client, s.server);
      OwedKeeps(true, s.server, s.client, st.act);
      OwedOther(s.server, s.client, st.act);
    } else {
      OwedKeeps(false, s.client, s.server, st.act);
      OwedOther(s.client, s.server, st.act);
    }
  }

  /** No address ever had two flushes pending at one side, in the first n states. */
  ghost predicate CalmBefore(tr: seq<Sys>, n: nat)
    requires n <= |tr|
  {
    forall j :: 0 <= j < n ==> Calm(tr[j])
  }

  lemma OwedFirst(tr: seq<Sys>, steps: seq<Step>)
    requires IsRun(tr, steps)
    ensures BothOwed(tr[0])
  {
  }

  lemma OwedNext(tr: seq<Sys>, steps: seq<Step>, i: nat)
    requires IsRun(tr, steps) && i < |steps| && Inv(tr[i])
    requires Calm(tr[i]) && BothOwed(tr[i])
    ensures BothOwed(tr[i + 1])
  {
    OwedStep(tr[i], steps[i], tr[i + 1]);
  }

  /** While that is so, every pending flush has something to return. */
  lemma {:induction false} FlushesAreOwed(tr: seq<Sys>, steps: seq<Step>, i: nat)
    requires IsRun(tr, steps) && i < |tr| && CalmBefore(tr, i)
    ensures BothOwed(tr[i])
  {
    if i == 0 {
      OwedFirst(tr, steps);
    } else {
      FlushesAreOwed(tr, steps, i - 1);
      RunKeeps(tr, steps, i - 1);
      OwedNext(tr, steps, i - 1);
    }
  }

  /** Then no step at either side, whichever is tried next, fails or is fatal. */
  lemma NoneFatal(tr: seq<Sys>, steps: seq<Step>, i: nat, act: Action)
    requires IsRun(tr, steps) && i < |tr| && CalmBefore(tr, i)
    ensures var r := Act(tr[i].client, tr[i].server, act); !r.Fatal? && !r.Failed?
    ensures var r := Act(tr[i].server, tr[i].client, act); !r.Fatal? && !r.Failed?
  {
    FlushesAreOwed(tr, steps, i);
    RunKeeps(tr, steps, i);
    Turn(false, tr[i].client, tr[i].server);
    ActKeeps(false, tr[i].client, tr[i].server, act);
    ActKeeps(true, tr[i].server, tr[i].client, act);
  }

  // ----- checks outside the counting steps -----

  /**
   * What the other fatal checks on the node table ask for: a proxy is listed under its own address, every node's
   * binder is still owned when the session ends, and a proxy somebody holds has a node to transact on.
   */
  ghost predicate ChecksHold(h: Half, a: WireAddress) {
    && (a in h.ep.nodes && h.ep.nodes[a].binder.RpcProxy? ==> h.ep.nodes[a].binder.address == a)
    && (a in h.ep.nodes ==> Promote(h.ep.nodes[a], a in h.held).Some?)
    && (a in h.held ==> a in h.ep.nodes)
  }

  lemma PairChecks(forServer: bool, h: Half, o: Half, a: WireAddress)
    requires PairInv(forServer, h, o, {})
    ensures ChecksHold(h, a)
  {
    assert Fit(forServer, a, ViewOf(h, o, a), ViewOf(o, h, a)) && Strong(ViewOf(h, o, a));
    if CreatedBy(forServer, a) { NodeIff(forServer, h, o, a); }
  }

  lemma AlwaysChecked(tr: seq<Sys>, steps: seq<Step>, i: nat, a: WireAddress)
    requires IsRun(tr, steps) && i < |tr|
    ensures ChecksHold(tr[i].client, a) && ChecksHold(tr[i].server, a)
  {
    RunKeeps(tr, steps, i);
    Turn(false, tr[i].client, tr[i].server);
    PairChecks(false, tr[i].client, tr[i].server, a);
    PairChecks(true, tr[i].server, tr[i].client, a);
  }

  // ----- addresses nobody has handed out -----

  /**
   * An unknown address that claims to be of this side's own making should be turned away. It is, at a client; a server
   * compares the masked option with 1, takes it for a remote object and makes a proxy.
   */
  lemma RejectsIff(e: Endpoint, a: WireAddress, alive: bool)
    requires !e.terminated && !HasUnknownOption(a) && a !in e.nodes
    ensures Entering(e, a, alive).status == BadValue <==> !e.forServer && ForServerMask(a) == 0
    ensures CreatedBy(!e.forServer, a) ==> Entering(e, a, alive).status == Ok
    ensures CreatedBy(e.forServer, a) ==> (Entering(e, a, alive).status == BadValue <==> !e.forServer)
  {
  }

  lemma ServerTakesOwn()
    ensures var e, a := Endpoint(0, true, map[], false), MakeAddress(true, 5);
      CreatedBy(true, a) && Entering(e, a, false).status == Ok && Entering(e, a, false).binder == Some(RpcProxy(0, a))
  {
    var a := MakeAddress(true, 5);
    assert !HasUnknownOption(a) && ForServerMask(a) == 2;
  }
}
