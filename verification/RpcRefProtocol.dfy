/**
 * Two endpoints of one session exchanging references and DEC_STRONG messages over unordered
 * connections. A step is one critical section of one thread, so a run is any interleaving.
 */
module RpcRefProtocol {
  import opened Basics
  import opened RpcWire
  import opened RpcNodes

  /** A message: a transaction or reply carrying references, or a DEC_STRONG. */
  datatype Packet = Transfer(refs: multiset<WireAddress>) | DecStrong(addr: WireAddress, amount: nat)

  /** A thread that read local binder `id` from address `addr` and has yet to flush it. */
  datatype Token = Token(addr: WireAddress, id: nat)

  /** One endpoint together with what left it or reached it and is not yet in a node table. */
  datatype Half = Half(
    ep: Endpoint,
    outbox: multiset<WireAddress>,   // references written into parcels not sent yet
    wire: seq<Packet>,               // messages sent by this side and not received yet
    inbox: multiset<WireAddress>,    // references received and not read from their parcel yet
    held: set<WireAddress>,          // proxies that code outside RpcState holds strongly
    leaked: multiset<WireAddress>,   // references that left this side and can never be returned
    toFlush: multiset<Token>,        // threads about to enter flushExcessBinderRefs
    flushing: multiset<WireAddress>) // threads between its check and sendDecStrongToTarget

  function Fresh(forServer: bool): Half
  {
    Half(Endpoint(0, forServer, map[], false), multiset{}, [], multiset{}, {}, multiset{}, multiset{}, multiset{})
  }

  // ----- steps: side h acts, side o is the other one -----

  /** What a step does: a new pair of states, nothing (not enabled), an error exit, or a fatal check. */
  datatype Outcome = Next(h: Half, o: Half) | Disabled | Failed | Fatal

  function RemoveAt(w: seq<Packet>, i: nat): seq<Packet>
    requires i < |w|
  {
    w[..i] + w[i + 1..]
  }

  /** Sending a dec-strong; what its 32-bit field cannot carry is lost to the other side. */
  function SendDec(h: Half, o: Half, a: WireAddress, target: nat): Outcome
  {
    var r := DecTo(h.ep, a, target);
    match r.outcome
    case DecFatal => Fatal
    case DecStatus(st) => if st == Ok then Next(h, o) else Failed
    case DecSend(amount) =>
      var lost: nat := Recd(h.ep, a) - target - amount;
      Next(h.(ep := r.e, wire := h.wire + [DecStrong(a, amount)]), o.(leaked := o.leaked[a := o.leaked[a] + lost]))
  }

  /** `onBinderLeaving`: the caller holds `b`, so a proxy is one of those held. */
  ghost function DoLeave(h: Half, o: Half, b: Binder, a: WireAddress): Outcome
  {
    if b.RpcProxy? && b.address !in h.held then Disabled
    else if MayLeave(h.ep, b, a) then Next(h.(ep := Leaving(h.ep, b, a), outbox := h.outbox + multiset{a}), o)
    else if b.RpcProxy? && b.session == h.ep.session && !Knows(h.ep, b) then Fatal
    else Disabled
  }

  function DoPost(h: Half, o: Half, refs: multiset<WireAddress>): Outcome
  {
    if refs <= h.outbox then Next(h.(outbox := h.outbox - refs, wire := h.wire + [Transfer(refs)]), o) else Disabled
  }

  /** A parcel is destroyed before it was sent. */
  function DoAbandonUnsent(h: Half, o: Half, refs: multiset<WireAddress>): Outcome
  {
    if refs <= h.outbox then Next(h.(outbox := h.outbox - refs, leaked := h.leaked + refs), o) else Disabled
  }

  /** Any message of the other side may be the next to arrive. */
  function DoDeliver(h: Half, o: Half, i: nat): Outcome
  {
    if i < |o.wire| && o.wire[i].Transfer?
    then Next(h.(inbox := h.inbox + o.wire[i].refs), o.(wire := RemoveAt(o.wire, i))) else Disabled
  }

  /** A received parcel is destroyed before all its binders were read. */
  function DoAbandonUnread(h: Half, o: Half, refs: multiset<WireAddress>): Outcome
  {
    if refs <= h.inbox then Next(h.(inbox := h.inbox - refs), o.(leaked := o.leaked + refs)) else Disabled
  }

  /** `onBinderEntering`, for a transaction target or a binder inside a parcel. */
  function DoRead(h: Half, o: Half, a: WireAddress): Outcome
  {
    var r := Entering(h.ep, a, a in h.held);
    if a !in h.inbox then Disabled
    else if r.status != Ok || r.binder == None || r.binder.value.KernelProxy? then Failed
    else
      var h' := h.(ep := r.e, inbox := h.inbox - multiset{a});
      match r.binder.value
      case LocalBinder(id) => Next(h'.(toFlush := h.toFlush + multiset{Token(a, id)}), o)
      case _ => Next(h'.(held := h.held + {a}), o)
  }

  /** First half of `flushExcessBinderRefs`, under the lock. */
  function DoFlushCheck(h: Half, o: Half, t: Token): Outcome
  {
    if t !in h.toFlush then Disabled
    else if t.addr !in h.ep.nodes || h.ep.nodes[t.addr].binder != LocalBinder(t.id)
            || h.ep.nodes[t.addr].timesSent == 0 then Fatal
    else
      var h' := h.(toFlush := h.toFlush - multiset{t});
      Next(if h.ep.nodes[t.addr].timesRecd != 0 then h'.(flushing := h.flushing + multiset{t.addr}) else h', o)
  }

  /** Its second half, after the lock was given up and taken again. */
  function DoFlushSend(h: Half, o: Half, a: WireAddress): Outcome
  {
    if a !in h.flushing then Disabled else SendDec(h.(flushing := h.flushing - multiset{a}), o, a, 0)
  }

  /** The holder of a proxy keeps `target` of the references received. */
  function DoTrim(h: Half, o: Half, a: WireAddress, target: nat): Outcome
  {
    if a in h.held && 1 <= target <= Recd(h.ep, a) then SendDec(h, o, a, target) else Disabled
  }

  /** The last outside reference to a proxy goes; the proxy dies unless the node itself owns it. */
  function DoDrop(h: Half, o: Half, a: WireAddress): Outcome
  {
    var h' := h.(held := h.held - {a});
    if a !in h.held then Disabled
    else if a in h.ep.nodes && h.ep.nodes[a].sentRef then Next(h', o)
    else SendDec(h', o, a, 0)
  }

  /** `processDecStrong`; releasing the strong reference of a proxy nobody else holds destroys it. */
  function DoAck(h: Half, o: Half, i: nat): Outcome
  {
    if !(i < |o.wire| && o.wire[i].DecStrong?) then Disabled
    else
      var a := o.wire[i].addr;
      var r := ProcessDec(h.ep, a, o.wire[i].amount, a in h.held);
      match r.outcome
      case AckFatal => Fatal
      case AckDone(released) =>
        var h', o' := h.(ep := r.e), o.(wire := RemoveAt(o.wire, i));
        if released && h.ep.nodes[a].binder.RpcProxy? && a !in h.held then SendDec(h', o', a, 0) else Next(h', o')
      case _ => Failed
  }

  datatype Action =
    | Leave(binder: Binder, addr: WireAddress)
    | Post(refs: multiset<WireAddress>)
    | AbandonUnsent(refs: multiset<WireAddress>)
    | Deliver(i: nat)
    | AbandonUnread(refs: multiset<WireAddress>)
    | Read(addr: WireAddress)
    | FlushCheck(token: Token)
    | FlushSend(addr: WireAddress)
    | Trim(addr: WireAddress, target: nat)
    | Drop(addr: WireAddress)
    | Ack(i: nat)

  ghost function Act(h: Half, o: Half, act: Action): Outcome
  {
    match act
    case Leave(b, a) => DoLeave(h, o, b, a)
    case Post(refs) => DoPost(h, o, refs)
    case AbandonUnsent(refs) => DoAbandonUnsent(h, o, refs)
    case Deliver(i) => DoDeliver(h, o, i)
    case AbandonUnread(refs) => DoAbandonUnread(h, o, refs)
    case Read(a) => DoRead(h, o, a)
    case FlushCheck(t) => DoFlushCheck(h, o, t)
    case FlushSend(a) => DoFlushSend(h, o, a)
    case Trim(a, target) => DoTrim(h, o, a, target)
    case Drop(a) => DoDrop(h, o, a)
    case Ack(i) => DoAck(h, o, i)
  }

  // ----- runs -----

  datatype Sys = Sys(client: Half, server: Half)

  datatype Step = Step(onServer: bool, act: Action)

  ghost predicate Leads(s: Sys, st: Step, s': Sys)
  {
    if st.onServer then Act(s.server, s.client, st.act) == Next(s'.server, s'.client)
    else Act(s.client, s.server, st.act) == Next(s'.client, s'.server)
  }

  /** Every state is the initial one or follows from the one before by an enabled step. */
  ghost predicate IsRun(tr: seq<Sys>, steps: seq<Step>)
  {
    && |tr| == |steps| + 1
    && tr[0] == Sys(Fresh(false), Fresh(true))
    && forall i {:trigger steps[i]} :: 0 <= i < |steps| ==> Leads(tr[i], steps[i], tr[i + 1])
  }

  // ----- counting what is on the wire -----

  ghost function RefsOn(w: seq<Packet>, a: WireAddress): nat
  {
    if w == [] then 0
    else RefsOn(w[..|w| - 1], a) + if w[|w| - 1].Transfer? then w[|w| - 1].refs[a] else 0
  }

  ghost function DecsOn(w: seq<Packet>, a: WireAddress): nat
  {
    if w == [] then 0
    else
      var p := w[|w| - 1];
      DecsOn(w[..|w| - 1], a) + if p.DecStrong? && p.addr == a then p.amount else 0
  }

  lemma {:induction false} Appended(w: seq<Packet>, p: Packet)
    ensures forall a :: RefsOn(w + [p], a) == RefsOn(w, a) + if p.Transfer? then p.refs[a] else 0
    ensures forall a :: DecsOn(w + [p], a) == DecsOn(w, a) + if p.DecStrong? && p.addr == a then p.amount else 0
  {
    assert (w + [p])[..|w|] == w;
  }

  lemma {:induction false} Removed(w: seq<Packet>, i: nat)
    requires i < |w|
    ensures forall a :: RefsOn(w, a) == RefsOn(RemoveAt(w, i), a) + if w[i].Transfer? then w[i].refs[a] else 0
    ensures forall a ::
      DecsOn(w, a) == DecsOn(RemoveAt(w, i), a) + if w[i].DecStrong? && w[i].addr == a then w[i].amount else 0
  {
    var n := |w| - 1;
    if i == n {
      assert RemoveAt(w, i) == w[..n];
    } else {
      Removed(w[..n], i);
      var r := RemoveAt(w, i);
      assert r[..|r| - 1] == RemoveAt(w[..n], i);
      assert r[|r| - 1] == w[n];
    }
  }

  // ----- the invariant -----

  /** References that left h and are counted by neither table any more. */
  ghost function Flow(h: Half, o: Half, a: WireAddress): nat
  {
    h.outbox[a] + RefsOn(h.wire, a) + o.inbox[a] + DecsOn(o.wire, a) + h.leaked[a]
  }

  /** Everything the invariant says about one address at one side depends on this much of the state. */
  datatype View = View(node: Option<RefNode>, held: bool, flow: nat) {
    function Sent(): nat { if node.Some? then node.value.timesSent else 0 }
    function Recd(): nat { if node.Some? then node.value.timesRecd else 0 }
  }

  ghost function ViewOf(h: Half, o: Half, a: WireAddress): View
  {
    View(if a in h.ep.nodes then Some(h.ep.nodes[a]) else None, a in h.held, Flow(h, o, a))
  }

  /** Reference conservation: what one side counts as sent is held by the other or on its way. */
  ghost predicate Balanced(v: View, w: View) { v.Sent() == w.Recd() + v.flow }

  /** A node is counted, owns its binder exactly while it is sent, and is local exactly at its creator. */
  ghost predicate NodeOk(forServer: bool, a: WireAddress, v: View)
  {
    && (v.held ==> v.node.Some? && CreatedBy(!forServer, a))
    && (v.node.Some? ==>
          var n := v.node.value;
          && (n.sentRef <==> n.timesSent > 0)
          && n.timesSent + n.timesRecd > 0
          && if CreatedBy(forServer, a) then n.binder.LocalBinder?
             else CreatedBy(!forServer, a) && n.binder == RpcProxy(0, a) && n.timesRecd > 0)
  }

  /** A proxy node is strongly held, by the node or from outside. */
  ghost predicate Strong(v: View)
  {
    v.node.Some? && v.node.value.binder.RpcProxy? ==> v.held || v.node.value.sentRef
  }

  /** The two views of one address fit together, up to the strength of the first. */
  ghost predicate Fit(forServer: bool, a: WireAddress, v: View, w: View)
  {
    NodeOk(forServer, a, v) && NodeOk(!forServer, a, w) && Balanced(v, w) && Balanced(w, v) && Strong(w)
  }

  /** A DEC_STRONG whose amount was cut down to zero leaves a leak behind. */
  ghost predicate ZeroDecLeaks(h: Half, o: Half)
  {
    forall p :: p in h.wire && p.DecStrong? && p.amount == 0 ==> o.leaked[p.addr] > 0
  }

  ghost predicate TableOk(e: Endpoint, forServer: bool)
  {
    e.session == 0 && !e.terminated && e.forServer == forServer && Injective(e)
  }

  /** Only addresses of its own objects are flushed by a side. */
  ghost predicate FlushesOwn(h: Half, forServer: bool)
  {
    && (forall t :: t in h.toFlush ==> CreatedBy(forServer, t.addr))
    && (forall a :: a in h.flushing ==> CreatedBy(forServer, a))
  }

  ghost predicate Frame(forServer: bool, h: Half, o: Half)
  {
    && TableOk(h.ep, forServer) && TableOk(o.ep, !forServer)
    && FlushesOwn(h, forServer) && FlushesOwn(o, !forServer)
    && ZeroDecLeaks(h, o) && ZeroDecLeaks(o, h)
  }

  /** The invariant, where the proxies in `dying` may be waiting for their last dec-strong. */
  ghost predicate PairInv(forServer: bool, h: Half, o: Half, dying: set<WireAddress>)
  {
    && Frame(forServer, h, o)
    && (forall a :: Fit(forServer, a, ViewOf(h, o, a), ViewOf(o, h, a)))
    && (forall a :: a !in dying ==> Strong(ViewOf(h, o, a)))
  }

  ghost predicate Inv(s: Sys) { PairInv(false, s.client, s.server, {}) }

  lemma Turn(forServer: bool, h: Half, o: Half)
    requires PairInv(forServer, h, o, {})
    ensures PairInv(!forServer, o, h, {})
  {
    forall a ensures Fit(!forServer, a, ViewOf(o, h, a), ViewOf(h, o, a)) {
      assert Fit(forServer, a, ViewOf(h, o, a), ViewOf(o, h, a));
      assert Strong(ViewOf(h, o, a));
    }
    forall a ensures Strong(ViewOf(o, h, a)) {
      assert Fit(forServer, a, ViewOf(h, o, a), ViewOf(o, h, a));
    }
  }

  /** A step that leaves the view of every address but one alone keeps the invariant if it does so there. */
  lemma LocalKeeps(forServer: bool, h: Half, o: Half, h': Half, o': Half, dying: set<WireAddress>, a: WireAddress)
    requires PairInv(forServer, h, o, dying) && dying <= {a}
    requires Frame(forServer, h', o')
    requires forall c :: c != a ==> ViewOf(h', o', c) == ViewOf(h, o, c) && ViewOf(o', h', c) == ViewOf(o, h, c)
    requires Fit(forServer, a, ViewOf(h', o', a), ViewOf(o', h', a)) && Strong(ViewOf(h', o', a))
    ensures PairInv(forServer, h', o', {})
  {
    forall c
      ensures Fit(forServer, c, ViewOf(h', o', c), ViewOf(o', h', c)) && Strong(ViewOf(h', o', c))
    {
      if c != a {
        assert Fit(forServer, c, ViewOf(h, o, c), ViewOf(o, h, c));
        assert Strong(ViewOf(h, o, c));
      }
    }
  }

  // ----- sending a reference -----

  lemma LeaveTable(e: Endpoint, b: Binder, a: WireAddress)
    requires TableOk(e, e.forServer) && MayLeave(e, b, a)
    ensures TableOk(Leaving(e, b, a), e.forServer)
  {
    assert a !in e.nodes ==> forall c :: c in e.nodes ==> e.nodes[c].binder != b;
  }

  lemma LeaveViews(h: Half, o: Half, b: Binder, a: WireAddress)
    requires MayLeave(h.ep, b, a)
    ensures
      var h' := h.(ep := Leaving(h.ep, b, a), outbox := h.outbox + multiset{a});
      var v := ViewOf(h, o, a);
      && (forall c :: ViewOf(o, h', c) == ViewOf(o, h, c))
      && (forall c :: c != a ==> ViewOf(h', o, c) == ViewOf(h, o, c))
      && ViewOf(h', o, a) == v.(
           flow := v.flow + 1,
           node := Some(if v.node.Some? then v.node.value.(timesSent := v.Sent() + 1, sentRef := true)
                        else RefNode(b, true, 1, 0)))
  {
  }

  lemma LeaveKeeps(forServer: bool, h: Half, o: Half, b: Binder, a: WireAddress)
    requires PairInv(forServer, h, o, {}) && MayLeave(h.ep, b, a)
    requires b.RpcProxy? ==> b.address in h.held
    ensures PairInv(forServer, DoLeave(h, o, b, a).h, o, {})
  {
    var h' := DoLeave(h, o, b, a).h;
    LeaveViews(h, o, b, a);
    LeaveTable(h.ep, b, a);
    assert Fit(forServer, a, ViewOf(h, o, a), ViewOf(o, h, a)) && Strong(ViewOf(h, o, a));
    LocalKeeps(forServer, h, o, h', o, {}, a);
  }

  /** A held proxy is always known, under its own address. */
  lemma LeaveNotFatal(forServer: bool, h: Half, o: Half, b: Binder, a: WireAddress)
    requires PairInv(forServer, h, o, {})
    ensures !DoLeave(h, o, b, a).Fatal?
  {
    if b.RpcProxy? && b.address in h.held {
      assert Fit(forServer, b.address, ViewOf(h, o, b.address), ViewOf(o, h, b.address));
    }
  }

  // ----- moving references between parcels and the wire -----

  lemma SameViewsKeep(forServer: bool, h: Half, o: Half, h': Half, o': Half)
    requires PairInv(forServer, h, o, {}) && Frame(forServer, h', o')
    requires forall c :: ViewOf(h', o', c) == ViewOf(h, o, c) && ViewOf(o', h', c) == ViewOf(o, h, c)
    ensures PairInv(forServer, h', o', {})
  {
    var a := WireAddress(0, 0);
    assert Fit(forServer, a, ViewOf(h, o, a), ViewOf(o, h, a)) && Strong(ViewOf(h, o, a));
    LocalKeeps(forServer, h, o, h', o', {}, a);
  }

  lemma PostView(h: Half, o: Half, refs: multiset<WireAddress>, c: WireAddress)
    requires refs <= h.outbox
    ensures var h' := DoPost(h, o, refs).h; ViewOf(h', o, c) == ViewOf(h, o, c) && ViewOf(o, h', c) == ViewOf(o, h, c)
  {
    var h' := DoPost(h, o, refs).h;
    Appended(h.wire, Transfer(refs));
    assert h'.outbox[c] + refs[c] == h.outbox[c];
  }

  lemma PostKeeps(forServer: bool, h: Half, o: Half, refs: multiset<WireAddress>)
    requires PairInv(forServer, h, o, {}) && refs <= h.outbox
    ensures PairInv(forServer, DoPost(h, o, refs).h, o, {})
  {
    var h' := DoPost(h, o, refs).h;
    assert Frame(forServer, h', o) by {
      assert forall p :: p in h'.wire && p.DecStrong? ==> p in h.wire;
    }
    forall c ensures ViewOf(h', o, c) == ViewOf(h, o, c) && ViewOf(o, h', c) == ViewOf(o, h, c) {
      PostView(h, o, refs, c);
    }
    SameViewsKeep(forServer, h, o, h', o);
  }

  lemma AbandonUnsentKeeps(forServer: bool, h: Half, o: Half, refs: multiset<WireAddress>)
    requires PairInv(forServer, h, o, {}) && refs <= h.outbox
    ensures PairInv(forServer, DoAbandonUnsent(h, o, refs).h, o, {})
  {
    SameViewsKeep(forServer, h, o, DoAbandonUnsent(h, o, refs).h, o);
  }

  lemma DeliverKeeps(forServer: bool, h: Half, o: Half, i: nat)
    requires PairInv(forServer, h, o, {}) && i < |o.wire| && o.wire[i].Transfer?
    ensures PairInv(forServer, DoDeliver(h, o, i).h, DoDeliver(h, o, i).o, {})
  {
    Removed(o.wire, i);
    SameViewsKeep(forServer, h, o, DoDeliver(h, o, i).h, DoDeliver(h, o, i).o);
  }

  lemma AbandonUnreadKeeps(forServer: bool, h: Half, o: Half, refs: multiset<WireAddress>)
    requires PairInv(forServer, h, o, {}) && refs <= h.inbox
    ensures PairInv(forServer, DoAbandonUnread(h, o, refs).h, DoAbandonUnread(h, o, refs).o, {})
  {
    SameViewsKeep(forServer, h, o, DoAbandonUnread(h, o, refs).h, DoAbandonUnread(h, o, refs).o);
  }

  // ----- receiving a reference -----

  /** A proxy is listed under its own address only. */
  lemma NotListed(forServer: bool, h: Half, o: Half, a: WireAddress)
    requires PairInv(forServer, h, o, {}) && a !in h.ep.nodes
    ensures !Knows(h.ep, RpcProxy(0, a))
  {
    forall c | c in h.ep.nodes ensures h.ep.nodes[c].binder != RpcProxy(0, a) {
      assert Fit(forServer, c, ViewOf(h, o, c), ViewOf(o, h, c));
    }
  }

  lemma ReadTable(forServer: bool, h: Half, o: Half, a: WireAddress)
    requires PairInv(forServer, h, o, {}) && Entering(h.ep, a, a in h.held).status == Ok
    ensures TableOk(Entering(h.ep, a, a in h.held).e, forServer)
  {
    var e' := Entering(h.ep, a, a in h.held).e;
    if a !in h.ep.nodes { NotListed(forServer, h, o, a); }
    InjectiveStored(h.ep, a, e'.nodes[a]);
    assert e' == h.ep.(nodes := h.ep.nodes[a := e'.nodes[a]]);
  }

  /** A reference in the inbox is always accepted, and yields a strong binder of the right kind. */
  lemma ReadSucceeds(forServer: bool, h: Half, o: Half, a: WireAddress)
    requires PairInv(forServer, h, o, {}) && a in h.inbox
    ensures var r := Entering(h.ep, a, a in h.held);
      && r.status == Ok && r.binder.Some?
      && (if CreatedBy(forServer, a) then a in h.ep.nodes && r.binder.value.LocalBinder?
          else CreatedBy(!forServer, a) && r.binder.value == RpcProxy(0, a))
  {
    var v, w := ViewOf(h, o, a), ViewOf(o, h, a);
    assert Fit(forServer, a, v, w) && Strong(v);
    assert w.flow > 0;
  }

  lemma ReadViews(h: Half, o: Half, a: WireAddress)
    requires a in h.inbox && DoRead(h, o, a).Next?
    ensures
      var h', v, w := DoRead(h, o, a).h, ViewOf(h, o, a), ViewOf(o, h, a);
      && (forall c :: c != a ==> ViewOf(h', o, c) == ViewOf(h, o, c) && ViewOf(o, h', c) == ViewOf(o, h, c))
      && w.flow > 0 && ViewOf(o, h', a) == w.(flow := w.flow - 1)
      && ViewOf(h', o, a).node == Some(if v.node.Some? then v.node.value.(timesRecd := v.Recd() + 1)
                                      else RefNode(RpcProxy(h.ep.session, a), false, 0, 1))
      && ViewOf(h', o, a).flow == v.flow
  {
  }

  lemma ReadKeeps(forServer: bool, h: Half, o: Half, a: WireAddress)
    requires PairInv(forServer, h, o, {}) && a in h.inbox
    ensures DoRead(h, o, a).Next?
    ensures PairInv(forServer, DoRead(h, o, a).h, o, {})
  {
    ReadSucceeds(forServer, h, o, a);
    ReadTable(forServer, h, o, a);
    ReadViews(h, o, a);
    var h' := DoRead(h, o, a).h;
    assert Fit(forServer, a, ViewOf(h, o, a), ViewOf(o, h, a)) && Strong(ViewOf(h, o, a));
    LocalKeeps(forServer, h, o, h', o, {}, a);
  }

  // ----- giving references back -----

  /** When may side h lower its count of `a` to `target`? The node must stay held unless it goes. */
  ghost predicate MayDec(forServer: bool, h: Half, o: Half, a: WireAddress, target: nat, dying: set<WireAddress>)
  {
    && a in h.ep.nodes && target <= h.ep.nodes[a].timesRecd
    && PairInv(forServer, h, o, dying)
    && (if dying == {} then h.ep.nodes[a].binder.LocalBinder? || target > 0
        else dying == {a} && target == 0 && h.ep.nodes[a].timesSent == 0 && a !in h.held
             && CreatedBy(!forServer, a))
  }

  lemma DecViews(h: Half, o: Half, a: WireAddress, target: nat)
    requires a in h.ep.nodes && !h.ep.terminated && target < h.ep.nodes[a].timesRecd
    requires h.ep.nodes[a].sentRef <==> h.ep.nodes[a].timesSent > 0
    ensures var r, n := SendDec(h, o, a, target), h.ep.nodes[a];
      && r.Next?
      && (forall c :: c != a ==> ViewOf(r.h, r.o, c) == ViewOf(h, o, c) && ViewOf(r.o, r.h, c) == ViewOf(o, h, c))
      && ViewOf(r.o, r.h, a) == ViewOf(o, h, a).(flow := Flow(o, h, a) + n.timesRecd - target)
      && ViewOf(r.h, r.o, a) == ViewOf(h, o, a).(
           node := if n.timesSent == 0 && target == 0 then None else Some(n.(timesRecd := target)))
  {
    var p := DecStrong(a, (h.ep.nodes[a].timesRecd - target) % TWO32);
    Appended(h.wire, p);
  }

  lemma DecFrame(forServer: bool, h: Half, o: Half, a: WireAddress, target: nat)
    requires Frame(forServer, h, o) && DecTo(h.ep, a, target).outcome.DecSend?
    ensures var r := SendDec(h, o, a, target); Frame(forServer, r.h, r.o)
  {
    var r := SendDec(h, o, a, target);
    assert forall c :: c in r.h.ep.nodes ==> c in h.ep.nodes && r.h.ep.nodes[c].binder == h.ep.nodes[c].binder;
  }

  lemma SendDecKeeps(forServer: bool, h: Half, o: Half, a: WireAddress, target: nat, dying: set<WireAddress>)
    requires MayDec(forServer, h, o, a, target, dying)
    ensures SendDec(h, o, a, target).Next?
    ensures PairInv(forServer, SendDec(h, o, a, target).h, SendDec(h, o, a, target).o, {})
  {
    var v, w := ViewOf(h, o, a), ViewOf(o, h, a);
    assert Fit(forServer, a, v, w);
    assert a !in dying ==> Strong(v);
    if target < h.ep.nodes[a].timesRecd {
      DecViews(h, o, a, target);
      DecFrame(forServer, h, o, a, target);
      var r := SendDec(h, o, a, target);
      LocalKeeps(forServer, h, o, r.h, r.o, dying, a);
    }
  }

  /** The check of a flush is fatal exactly when the node it was told about is gone. */
  lemma FlushCheckKeeps(forServer: bool, h: Half, o: Half, t: Token)
    requires PairInv(forServer, h, o, {}) && t in h.toFlush
    ensures var r := DoFlushCheck(h, o, t);
      && !r.Failed? && (r.Next? ==> PairInv(forServer, r.h, r.o, {}))
      && (r.Fatal? <==> !(t.addr in h.ep.nodes && h.ep.nodes[t.addr].binder == LocalBinder(t.id)))
  {
    assert Fit(forServer, t.addr, ViewOf(h, o, t.addr), ViewOf(o, h, t.addr));
    var r := DoFlushCheck(h, o, t);
    if r.Next? {
      assert Frame(forServer, r.h, r.o);
      assert r.o == o && r.h.ep == h.ep && r.h.held == h.held && r.h.outbox == h.outbox && r.h.wire == h.wire;
      SameViewsKeep(forServer, h, o, r.h, r.o);
    }
  }

  /** Its dec-strong is fatal exactly when the node went while the lock was free. */
  lemma FlushSendKeeps(forServer: bool, h: Half, o: Half, a: WireAddress)
    requires PairInv(forServer, h, o, {}) && a in h.flushing
    ensures var r := DoFlushSend(h, o, a);
      && !r.Failed? && (r.Next? ==> PairInv(forServer, r.h, r.o, {}))
      && (r.Fatal? <==> a !in h.ep.nodes)
  {
    var h' := h.(flushing := h.flushing - multiset{a});
    assert CreatedBy(forServer, a);
    SameViewsKeep(forServer, h, o, h', o);
    if a in h.ep.nodes {
      assert Fit(forServer, a, ViewOf(h, o, a), ViewOf(o, h, a));
      SendDecKeeps(forServer, h', o, a, 0, {});
    }
  }

  lemma DropKeeps(forServer: bool, h: Half, o: Half, a: WireAddress)
    requires PairInv(forServer, h, o, {}) && a in h.held
    ensures var r := DoDrop(h, o, a); r.Next? && PairInv(forServer, r.h, r.o, {})
  {
    var h' := h.(held := h.held - {a});
    assert Fit(forServer, a, ViewOf(h, o, a), ViewOf(o, h, a));
    forall c
      ensures Fit(forServer, c, ViewOf(h', o, c), ViewOf(o, h', c))
      ensures c != a || h.ep.nodes[a].sentRef ==> Strong(ViewOf(h', o, c))
    {
      assert Fit(forServer, c, ViewOf(h, o, c), ViewOf(o, h, c)) && Strong(ViewOf(h, o, c));
      assert ViewOf(o, h', c) == ViewOf(o, h, c);
    }
    assert PairInv(forServer, h', o, {a});
    if !h.ep.nodes[a].sentRef {
      SendDecKeeps(forServer, h', o, a, 0, {a});
    }
  }

  /** What `processDecStrong` does to a table it succeeds on. */
  lemma AckViews(h: Half, o: Half, i: nat)
    requires i < |o.wire| && o.wire[i].DecStrong?
    requires o.wire[i].addr in h.ep.nodes && h.ep.nodes[o.wire[i].addr].sentRef
    requires o.wire[i].amount <= h.ep.nodes[o.wire[i].addr].timesSent
    ensures
      var a, k := o.wire[i].addr, o.wire[i].amount;
      var n := h.ep.nodes[a];
      var r := ProcessDec(h.ep, a, k, a in h.held);
      var h', o' := h.(ep := r.e), o.(wire := RemoveAt(o.wire, i));
      && r.outcome == AckDone(n.timesSent == k)
      && Flow(h, o, a) >= k
      && (forall c :: c != a ==> ViewOf(h', o', c) == ViewOf(h, o, c) && ViewOf(o', h', c) == ViewOf(o, h, c))
      && ViewOf(o', h', a) == ViewOf(o, h, a)
      && ViewOf(h', o', a) == View(
           if n.timesSent == k && n.timesRecd == 0 then None
           else Some(n.(timesSent := n.timesSent - k, sentRef := n.timesSent > k)),
           a in h.held, Flow(h, o, a) - k)
  {
    Removed(o.wire, i);
  }

  /** A DEC_STRONG always finds a node that was sent often enough and still owns its binder. */
  lemma AckSucceeds(forServer: bool, h: Half, o: Half, i: nat)
    requires PairInv(forServer, h, o, {}) && i < |o.wire| && o.wire[i].DecStrong?
    ensures var a := o.wire[i].addr;
      a in h.ep.nodes && h.ep.nodes[a].sentRef && h.ep.nodes[a].timesSent >= o.wire[i].amount
  {
    var a := o.wire[i].addr;
    Removed(o.wire, i);
    assert o.wire[i] in o.wire;
    assert Fit(forServer, a, ViewOf(h, o, a), ViewOf(o, h, a));
  }

  lemma AckFrame(forServer: bool, h: Half, o: Half, i: nat)
    requires Frame(forServer, h, o) && i < |o.wire| && o.wire[i].DecStrong?
    ensures
      var a := o.wire[i].addr;
      var r := ProcessDec(h.ep, a, o.wire[i].amount, a in h.held);
      Frame(forServer, h.(ep := r.e), o.(wire := RemoveAt(o.wire, i)))
  {
    var a := o.wire[i].addr;
    var r := ProcessDec(h.ep, a, o.wire[i].amount, a in h.held);
    assert forall c :: c in r.e.nodes ==> c in h.ep.nodes && r.e.nodes[c].binder == h.ep.nodes[c].binder;
    assert forall p :: p in RemoveAt(o.wire, i) ==> p in o.wire;
  }

  lemma DyingKeeps(forServer: bool, h: Half, o: Half, h': Half, o': Half, a: WireAddress)
    requires PairInv(forServer, h, o, {})
    requires Frame(forServer, h', o')
    requires forall c :: c != a ==> ViewOf(h', o', c) == ViewOf(h, o, c) && ViewOf(o', h', c) == ViewOf(o, h, c)
    requires Fit(forServer, a, ViewOf(h', o', a), ViewOf(o', h', a))
    ensures PairInv(forServer, h', o', {a})
  {
    forall c
      ensures Fit(forServer, c, ViewOf(h', o', c), ViewOf(o', h', c)) && (c != a ==> Strong(ViewOf(h', o', c)))
    {
      if c != a {
        assert Fit(forServer, c, ViewOf(h, o, c), ViewOf(o, h, c));
        assert Strong(ViewOf(h, o, c));
      }
    }
  }

  /** Is the proxy at `a` destroyed by this message? */
  ghost predicate DiesOn(h: Half, p: Packet)
  {
    && p.DecStrong? && p.addr in h.ep.nodes && h.ep.nodes[p.addr].timesSent == p.amount
    && h.ep.nodes[p.addr].binder.RpcProxy? && p.addr !in h.held
  }

  lemma AckFits(forServer: bool, h: Half, o: Half, i: nat, h': Half, o': Half)
    requires PairInv(forServer, h, o, {}) && i < |o.wire| && o.wire[i].DecStrong?
    requires h' == h.(ep := ProcessDec(h.ep, o.wire[i].addr, o.wire[i].amount, o.wire[i].addr in h.held).e)
    requires o' == o.(wire := RemoveAt(o.wire, i))
    ensures DiesOn(h, o.wire[i]) ==> MayDec(forServer, h', o', o.wire[i].addr, 0, {o.wire[i].addr})
    ensures !DiesOn(h, o.wire[i]) ==> PairInv(forServer, h', o', {})
  {
    var a := o.wire[i].addr;
    AckSucceeds(forServer, h, o, i);
    AckViews(h, o, i);
    AckFrame(forServer, h, o, i);
    assert Fit(forServer, a, ViewOf(h, o, a), ViewOf(o, h, a)) && Strong(ViewOf(h, o, a));
    DyingKeeps(forServer, h, o, h', o', a);
    if !DiesOn(h, o.wire[i]) {
      LocalKeeps(forServer, h, o, h', o', {}, a);
    }
  }

  lemma AckKeeps(forServer: bool, h: Half, o: Half, i: nat)
    requires PairInv(forServer, h, o, {}) && i < |o.wire| && o.wire[i].DecStrong?
    ensures var r := DoAck(h, o, i); r.Next? && PairInv(forServer, r.h, r.o, {})
  {
    var a := o.wire[i].addr;
    AckSucceeds(forServer, h, o, i);
    var r := ProcessDec(h.ep, a, o.wire[i].amount, a in h.held);
    var h', o' := h.(ep := r.e), o.(wire := RemoveAt(o.wire, i));
    AckFits(forServer, h, o, i, h', o');
    if DiesOn(h, o.wire[i]) {
      SendDecKeeps(forServer, h', o', a, 0, {a});
    }
  }

  // ----- main results -----

  /** A step of a flush that finds its node gone, or reused for another binder. */
  ghost predicate LateFlush(h: Half, act: Action)
  {
    match act
    case FlushCheck(t) => t in h.toFlush && !(t.addr in h.ep.nodes && h.ep.nodes[t.addr].binder == LocalBinder(t.id))
    case FlushSend(a) => a in h.flushing && a !in h.ep.nodes
    case _ => false
  }

  /** Every step keeps the invariant, none takes an error exit, and only a late flush is fatal. */
  lemma ActKeeps(forServer: bool, h: Half, o: Half, act: Action)
    requires PairInv(forServer, h, o, {})
    ensures var r := Act(h, o, act);
      !r.Failed? && (r.Fatal? <==> LateFlush(h, act)) && (r.Next? ==> PairInv(forServer, r.h, r.o, {}))
  {
    match act
    case FlushCheck(t) => if t in h.toFlush { FlushCheckKeeps(forServer, h, o, t); }
    case FlushSend(a) => if a in h.flushing { FlushSendKeeps(forServer, h, o, a); }
    case _ => if Passes(act) { PassKeeps(forServer, h, o, act); } else { GiveBackKeeps(forServer, h, o, act); }
  }

  lemma GiveBackKeeps(forServer: bool, h: Half, o: Half, act: Action)
    requires PairInv(forServer, h, o, {}) && (act.Trim? || act.Drop? || act.Ack?)
    ensures var r := Act(h, o, act); !r.Failed? && !r.Fatal? && (r.Next? ==> PairInv(forServer, r.h, r.o, {}))
  {
    match act
    case Trim(a, target) =>
      if a in h.held && 1 <= target <= Recd(h.ep, a) { SendDecKeeps(forServer, h, o, a, target, {}); }
    case Drop(a) => if a in h.held { DropKeeps(forServer, h, o, a); }
    case Ack(i) => if i < |o.wire| && o.wire[i].DecStrong? { AckKeeps(forServer, h, o, i); }
  }

  /** The steps that pass references on. */
  ghost predicate Passes(act: Action) {
    act.Leave? || act.Post? || act.AbandonUnsent? || act.Deliver? || act.AbandonUnread? || act.Read?
  }

  lemma PassKeeps(forServer: bool, h: Half, o: Half, act: Action)
    requires PairInv(forServer, h, o, {}) && Passes(act)
    ensures var r := Act(h, o, act); !r.Failed? && !r.Fatal? && (r.Next? ==> PairInv(forServer, r.h, r.o, {}))
  {
    match act
    case Leave(b, a) =>
      LeaveNotFatal(forServer, h, o, b, a);
      if DoLeave(h, o, b, a).Next? { LeaveKeeps(forServer, h, o, b, a); }
    case Post(refs) => if refs <= h.outbox { PostKeeps(forServer, h, o, refs); }
    case AbandonUnsent(refs) => if refs <= h.outbox { AbandonUnsentKeeps(forServer, h, o, refs); }
    case Deliver(i) => if i < |o.wire| && o.wire[i].Transfer? { DeliverKeeps(forServer, h, o, i); }
    case AbandonUnread(refs) => if refs <= h.inbox { AbandonUnreadKeeps(forServer, h, o, refs); }
    case Read(a) => if a in h.inbox { ReadKeeps(forServer, h, o, a); }
  }

  lemma StepKeeps(s: Sys, st: Step, s': Sys)
    requires Inv(s) && Leads(s, st, s')
    ensures Inv(s')
  {
    if st.onServer {
      Turn(false, s.client, s.server);
      ActKeeps(true, s.server, s.client, st.act);
      Turn(true, s'.server, s'.client);
    } else {
      ActKeeps(false, s.client, s.server, st.act);
    }
  }

  lemma FirstKeeps(tr: seq<Sys>, steps: seq<Step>)
    requires IsRun(tr, steps)
    ensures Inv(tr[0])
  {
  }

  lemma NextKeeps(tr: seq<Sys>, steps: seq<Step>, i: nat)
    requires IsRun(tr, steps) && i < |steps| && Inv(tr[i])
    ensures Inv(tr[i + 1])
  {
    StepKeeps(tr[i], steps[i], tr[i + 1]);
  }

  /** The invariant holds in every state of every run. */
  lemma {:induction false} RunKeeps(tr: seq<Sys>, steps: seq<Step>, i: nat)
    requires IsRun(tr, steps) && i < |tr|
    ensures Inv(tr[i])
  {
    if i == 0 {
      FirstKeeps(tr, steps);
    } else {
      RunKeeps(tr, steps, i - 1);
      NextKeeps(tr, steps, i - 1);
    }
  }

  /** Sent by one side equals received by the other plus everything under way between them. */
  ghost predicate Conserved(s: Sys, a: WireAddress)
  {
    && Sent(s.client.ep, a) == Recd(s.server.ep, a) + Flow(s.client, s.server, a)
    && Sent(s.server.ep, a) == Recd(s.client.ep, a) + Flow(s.server, s.client, a)
  }

  lemma PairConserves(forServer: bool, h: Half, o: Half, a: WireAddress)
    requires PairInv(forServer, h, o, {})
    ensures Sent(h.ep, a) == Recd(o.ep, a) + Flow(h, o, a)
  {
    assert Fit(forServer, a, ViewOf(h, o, a), ViewOf(o, h, a));
  }

  /** Every state of every run conserves references. */
  lemma Conservation(tr: seq<Sys>, steps: seq<Step>, i: nat, a: WireAddress)
    requires IsRun(tr, steps) && i < |tr|
    ensures Conserved(tr[i], a)
  {
    RunKeeps(tr, steps, i);
    PairConserves(false, tr[i].client, tr[i].server, a);
    Turn(false, tr[i].client, tr[i].server);
    PairConserves(true, tr[i].server, tr[i].client, a);
  }

  /**
   * The creator of an object has its node exactly as long as the other side has a proxy or a
   * reference is under way to it (or was lost), and then the node keeps the object alive.
   */
  lemma NodeIff(forServer: bool, h: Half, o: Half, a: WireAddress)
    requires PairInv(forServer, h, o, {}) && CreatedBy(forServer, a)
    ensures a in h.ep.nodes <==> a in o.ep.nodes || Flow(h, o, a) > 0
    ensures a in h.ep.nodes ==> h.ep.nodes[a].sentRef && h.ep.nodes[a].binder.LocalBinder?
    ensures a in o.held || Flow(o, h, a) > 0 ==> a in o.ep.nodes
    ensures a in o.ep.nodes ==> o.ep.nodes[a].timesRecd > 0 && (a in o.held || o.ep.nodes[a].sentRef)
  {
    assert Fit(forServer, a, ViewOf(h, o, a), ViewOf(o, h, a));
  }

  /** No premature free: while a proxy lives or a reference is under way either way, the owner holds the object. */
  lemma NoPrematureFree(tr: seq<Sys>, steps: seq<Step>, i: nat, a: WireAddress, forServer: bool)
    requires IsRun(tr, steps) && i < |tr| && CreatedBy(forServer, a)
    ensures
      var h, o := if forServer then tr[i].server else tr[i].client, if forServer then tr[i].client else tr[i].server;
      && (a in o.held || a in o.ep.nodes || Flow(h, o, a) > 0 || Flow(o, h, a) > 0 <==> a in h.ep.nodes)
      && (a in h.ep.nodes ==> h.ep.nodes[a].sentRef && h.ep.nodes[a].binder.LocalBinder?)
  {
    RunKeeps(tr, steps, i);
    Turn(false, tr[i].client, tr[i].server);
    var c, v := tr[i].client, tr[i].server;
    if forServer { NodeIff(true, v, c, a); } else { NodeIff(false, c, v, a); }
  }

  /** The second half of a flush is fatal exactly when the other side has let go of everything meanwhile. */
  lemma LateFlushIff(forServer: bool, h: Half, o: Half, a: WireAddress)
    requires PairInv(forServer, h, o, {}) && a in h.flushing
    ensures Act(h, o, FlushSend(a)).Fatal? <==> a !in o.ep.nodes && Flow(h, o, a) == 0
  {
    ActKeeps(forServer, h, o, FlushSend(a));
    NodeIff(forServer, h, o, a);
  }
}
