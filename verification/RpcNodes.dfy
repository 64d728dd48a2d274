/** Reference counting of one endpoint, as functions from the old node table to the new one. */
module RpcNodes {
  import opened Basics
  import opened RpcWire

  /** What a strong pointer may refer to: a local object, a proxy of some RPC session, or a kernel proxy. */
  datatype Binder =
    | LocalBinder(id: nat)
    | RpcProxy(session: nat, address: WireAddress)
    | KernelProxy(handle: int)

  /** A status code, or Abort where a fatal check would end the process. */
  datatype Status = Ok | BadValue | DeadObject | InvalidOperation | NoMemory | Abort

  /** The counting part of a BinderNode; `sentRef` says whether the node owns a strong reference. */
  datatype RefNode = RefNode(binder: Binder, sentRef: bool, timesSent: nat, timesRecd: nat)

  datatype Endpoint = Endpoint(
    session: nat,
    forServer: bool,
    nodes: map<WireAddress, RefNode>,
    terminated: bool)

  const MAX_NODES: nat := 100000

  function Sent(e: Endpoint, a: WireAddress): nat { if a in e.nodes then e.nodes[a].timesSent else 0 }

  function Recd(e: Endpoint, a: WireAddress): nat { if a in e.nodes then e.nodes[a].timesRecd else 0 }

  ghost predicate Knows(e: Endpoint, b: Binder) { exists a :: a in e.nodes && e.nodes[a].binder == b }

  /** No binder is listed under two addresses. */
  ghost predicate Injective(e: Endpoint)
  {
    forall a, c :: a in e.nodes && c in e.nodes && e.nodes[a].binder == e.nodes[c].binder ==> a == c
  }

  /** Storing a node under its own binder, or under one that is new, lists no binder twice. */
  lemma InjectiveStored(e: Endpoint, a: WireAddress, n: RefNode)
    requires Injective(e)
    requires if a in e.nodes then n.binder == e.nodes[a].binder else !Knows(e, n.binder)
    ensures Injective(e.(nodes := e.nodes[a := n]))
  {
  }

  /** The sending side may be handed a local binder or a proxy of its own session, nothing else. */
  predicate Sendable(e: Endpoint, b: Binder)
  {
    match b
    case LocalBinder(_) => true
    case RpcProxy(s, _) => s == e.session
    case KernelProxy(_) => false
  }

  /** `onBinderLeaving` may answer `a`: a known binder keeps its address, a new one gets an unused one. */
  ghost predicate MayLeave(e: Endpoint, b: Binder, a: WireAddress)
  {
    && !e.terminated && Sendable(e, b)
    && if Knows(e, b) then
         a in e.nodes && e.nodes[a].binder == b
       else
         b.LocalBinder? && |e.nodes| <= MAX_NODES && a !in e.nodes && CreatedBy(e.forServer, a)
  }

  /** The table after one more send of `b` under address `a`. */
  function Leaving(e: Endpoint, b: Binder, a: WireAddress): Endpoint
  {
    if a in e.nodes then
      e.(nodes := e.nodes[a := e.nodes[a].(timesSent := e.nodes[a].timesSent + 1, sentRef := true)])
    else
      e.(nodes := e.nodes[a := RefNode(b, true, 1, 0)])
  }

  /** Turning the weak pointer of a node into a strong one; `alive` says that someone outside holds it. */
  function Promote(n: RefNode, alive: bool): Option<Binder>
  {
    if n.sentRef || alive then Some(n.binder) else None
  }

  datatype EnterResult = EnterResult(e: Endpoint, status: Status, binder: Option<Binder>)

  /** `onBinderEntering`. The test on FOR_SERVER compares a mask (0 or 2) with a truth value (0 or 1). */
  function Entering(e: Endpoint, a: WireAddress, alive: bool): EnterResult
  {
    if HasUnknownOption(a) then EnterResult(e, BadValue, None)
    else if e.terminated then EnterResult(e, DeadObject, None)
    else if a in e.nodes then
      var n := e.nodes[a];
      EnterResult(e.(nodes := e.nodes[a := n.(timesRecd := n.timesRecd + 1)]), Ok, Promote(n, alive))
    else if ForServerMask(a) == (if e.forServer then 1 else 0) then EnterResult(e, BadValue, None)
    else
      var proxy := RpcProxy(e.session, a);
      EnterResult(e.(nodes := e.nodes[a := RefNode(proxy, false, 0, 1)]), Ok, Some(proxy))
  }

  /** `tryEraseNode`: drops the strong reference when nothing is sent, and the node when nothing is left. */
  function TryErase(e: Endpoint, a: WireAddress): Endpoint
    requires a in e.nodes
  {
    var n := e.nodes[a];
    if n.timesSent != 0 then e
    else if n.timesRecd != 0 then e.(nodes := e.nodes[a := n.(sentRef := false)])
    else e.(nodes := e.nodes - {a})
  }

  /** Does `tryEraseNode` hand back a strong reference? */
  predicate Releases(n: RefNode) { n.timesSent == 0 && n.sentRef }

  datatype DecOutcome = DecFatal | DecStatus(status: Status) | DecSend(amount: nat)

  datatype DecResult = DecResult(e: Endpoint, outcome: DecOutcome)

  /** `sendDecStrongToTarget`; the amount goes into a 32-bit field. */
  function DecTo(e: Endpoint, a: WireAddress, target: nat): DecResult
  {
    if e.terminated then DecResult(e, DecStatus(DeadObject))
    else if a !in e.nodes then DecResult(e, DecFatal)
    else
      var n := e.nodes[a];
      if n.timesRecd < target then DecResult(e, DecFatal)
      else if n.timesRecd == target then DecResult(e, DecStatus(Ok))
      else
        var n' := n.(timesRecd := target);
        var e' := e.(nodes := e.nodes[a := n']);
        if Releases(n') then DecResult(e', DecFatal)
        else DecResult(TryErase(e', a), DecSend((n.timesRecd - target) % TWO32))
  }

  datatype AckOutcome = AckUnknown | AckDeleted | AckTooMany | AckFatal | AckDone(released: bool)

  datatype AckResult = AckResult(e: Endpoint, outcome: AckOutcome)

  /** `processDecStrong`. */
  function ProcessDec(e: Endpoint, a: WireAddress, amount: nat, alive: bool): AckResult
  {
    if a !in e.nodes then AckResult(e, AckUnknown)
    else
      var n := e.nodes[a];
      if Promote(n, alive) == None then AckResult(e, AckDeleted)
      else if n.timesSent < amount then AckResult(e, AckTooMany)
      else if !n.sentRef then AckResult(e, AckFatal)
      else
        var n' := n.(timesSent := n.timesSent - amount);
        AckResult(TryErase(e.(nodes := e.nodes[a := n']), a), AckDone(Releases(n')))
  }

  // ----- what the operations do to the counts -----

  /** The tables agree on all addresses but one. */
  ghost predicate SameElsewhere(e: Endpoint, e': Endpoint, a: WireAddress) {
    && e'.session == e.session && e'.forServer == e.forServer && e'.terminated == e.terminated
    && forall c :: c != a ==> (c in e'.nodes <==> c in e.nodes) && (c in e.nodes ==> e'.nodes[c] == e.nodes[c])
  }

  /** Sending adds one to what was sent and makes the node own its binder. */
  lemma LeavingCounts(e: Endpoint, b: Binder, a: WireAddress)
    requires MayLeave(e, b, a)
    ensures var e' := Leaving(e, b, a);
      && SameElsewhere(e, e', a) && a in e'.nodes && e'.nodes[a].binder == b && e'.nodes[a].sentRef
      && Sent(e', a) == Sent(e, a) + 1 && Recd(e', a) == Recd(e, a)
    ensures a !in e.nodes ==> b.LocalBinder? && !Knows(e, b) && |e.nodes| <= 100000
    ensures b.LocalBinder? || (b.RpcProxy? && b.session == e.session)
  {
  }

  /**
   * Entering takes its exits in this order: options other than the two known ones, a session that has ended, and an
   * unknown address that a client should have made itself. Otherwise one more reference was received, and the binder is
   * the node's, if it can still be had, or a new proxy.
   */
  lemma EnteringCounts(e: Endpoint, a: WireAddress, alive: bool)
    ensures var r := Entering(e, a, alive);
      && (r.status == BadValue <==>
            a.options >= 4 || (!e.terminated && a !in e.nodes && !e.forServer && a.options in {0, 1}))
      && (r.status == DeadObject <==> a.options < 4 && e.terminated)
      && r.status in {Ok, BadValue, DeadObject}
      && (r.status != Ok ==> r.e == e && r.binder == None)
      && (r.status == Ok ==>
            && SameElsewhere(e, r.e, a) && a in r.e.nodes
            && Recd(r.e, a) == Recd(e, a) + 1 && Sent(r.e, a) == Sent(e, a)
            && (a in e.nodes ==>
                  && r.e.nodes[a].sentRef == e.nodes[a].sentRef && r.e.nodes[a].binder == e.nodes[a].binder
                  && r.binder == if e.nodes[a].sentRef || alive then Some(e.nodes[a].binder) else None)
            && (a !in e.nodes ==>
                  !r.e.nodes[a].sentRef && Some(r.e.nodes[a].binder) == r.binder == Some(RpcProxy(e.session, a))))
  {
  }

  /** Giving back down to `target`: fatal for a node that is missing or has less, and what is sent was received. */
  lemma DecToCounts(e: Endpoint, a: WireAddress, target: nat)
    ensures var r := DecTo(e, a, target);
      && (r.outcome == DecStatus(DeadObject) <==> e.terminated)
      && (r.outcome == DecStatus(Ok) <==> !e.terminated && a in e.nodes && Recd(e, a) == target)
      && (r.outcome == DecFatal <==>
            && !e.terminated
            && (a in e.nodes && Recd(e, a) >= target ==>
                  Recd(e, a) > target && Sent(e, a) == 0 && e.nodes[a].sentRef))
      && (r.outcome.DecStatus? ==> r.e == e)
      && (r.outcome.DecSend? ==>
            && r.outcome.amount == (Recd(e, a) - target) % 0x1_0000_0000
            && SameElsewhere(e, r.e, a) && Recd(r.e, a) == target && Sent(r.e, a) == Sent(e, a)
            && (a in r.e.nodes <==> target + Sent(e, a) > 0)
            && (a in r.e.nodes ==>
                  r.e.nodes[a].binder == e.nodes[a].binder && r.e.nodes[a].sentRef == e.nodes[a].sentRef))
  {
  }

  /**
   * Taking back `amount`: ignored for an unknown address or more than was sent, an error for a binder that is gone, and
   * otherwise the node lets go of its binder with the last one and of itself when nothing is received either.
   */
  lemma ProcessDecCounts(e: Endpoint, a: WireAddress, amount: nat, alive: bool)
    ensures var r := ProcessDec(e, a, amount, alive);
      && (r.outcome == AckUnknown <==> a !in e.nodes)
      && (r.outcome == AckDeleted <==> a in e.nodes && !e.nodes[a].sentRef && !alive)
      && (r.outcome == AckTooMany <==> a in e.nodes && (e.nodes[a].sentRef || alive) && Sent(e, a) < amount)
      && (r.outcome == AckFatal <==> a in e.nodes && !e.nodes[a].sentRef && alive && Sent(e, a) >= amount)
      && (!r.outcome.AckDone? ==> r.e == e)
      && (r.outcome.AckDone? ==>
            && r.outcome.released == (Sent(e, a) == amount)
            && SameElsewhere(e, r.e, a) && Sent(r.e, a) == Sent(e, a) - amount && Recd(r.e, a) == Recd(e, a)
            && (a in r.e.nodes <==> Sent(e, a) - amount + Recd(e, a) > 0)
            && (a in r.e.nodes ==>
                  && r.e.nodes[a].binder == e.nodes[a].binder
                  && (r.e.nodes[a].sentRef <==> Sent(e, a) > amount)))
  {
  }
}
