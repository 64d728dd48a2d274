/** The node table of a session as the object the source has, proved against RpcNodes and RpcOneway. */
module RpcStateObject {
  import opened Basics
  import opened RpcWire
  import opened RpcNodes
  import RpcOneway
  import RpcRefProtocol

  type Call = RpcOneway.Call

  datatype BinderNode = BinderNode(refs: RefNode, async: RpcOneway.AsyncNode)

  const NEW_ASYNC := RpcOneway.AsyncNode(0, [])

  /** The counting part of a node table. */
  function Refs(m: map<WireAddress, BinderNode>): map<WireAddress, RefNode> { map a | a in m :: m[a].refs }

  lemma RefsStored(m: map<WireAddress, BinderNode>, a: WireAddress, n: BinderNode)
    ensures Refs(m[a := n]) == Refs(m)[a := n.refs]
    ensures |Refs(m)| == |m|
  {
    assert Refs(m).Keys == m.Keys;
  }

  lemma RefsErased(m: map<WireAddress, BinderNode>, a: WireAddress)
    ensures Refs(m - {a}) == Refs(m) - {a}
  {
  }

  /** The id tried after `id`. */
  function NextId(id: nat): nat { if id >= TWO32 - 1 then 0 else id + 1 }

  /** The id tried after k failures when the search starts at `start`. */
  function Tried(start: nat, k: nat): nat { (start + k) % TWO32 }

  /** Pigeonhole: k addresses in a row that are all taken are k different keys. */
  lemma {:induction false} TakenBound(forServer: bool, start: nat, k: nat, keys: set<WireAddress>)
    requires k <= TWO32
    requires forall j :: 0 <= j < k ==> MakeAddress(forServer, Tried(start, j)) in keys
    ensures k <= |keys|
  {
    if k > 0 {
      var last := MakeAddress(forServer, Tried(start, k - 1));
      forall j | 0 <= j < k - 1 ensures MakeAddress(forServer, Tried(start, j)) in keys - {last} {
        TriedDiffers(start, j, k - 1);
      }
      TakenBound(forServer, start, k - 1, keys - {last});
    }
  }

  lemma TriedDiffers(start: nat, i: nat, j: nat)
    requires i < j < TWO32
    ensures Tried(start, i) != Tried(start, j)
  {
  }

  lemma TriedNext(start: nat, k: nat)
    ensures NextId(Tried(start, k)) == Tried(start, k + 1) && Tried(start, k) < TWO32
  {
  }

  /** The answer tells how the protocol's step ends for whoever has this table and still has to flush the token. */
  ghost predicate ChecksFlush(e: Endpoint, t: RpcRefProtocol.Token, status: Status, send: bool) {
    forall h: RpcRefProtocol.Half, o {:trigger RpcRefProtocol.DoFlushCheck(h, o, t)} ::
      h.ep == e && t in h.toFlush ==>
      match RpcRefProtocol.DoFlushCheck(h, o, t)
      case Fatal => status == Abort && !send
      case Next(h', o') =>
        && status == Ok && o' == o
        && h' == h.(
             toFlush := h.toFlush - multiset{t},
             flushing := h.flushing + if send then multiset{t.addr} else multiset{})
      case _ => false
  }

  /** What other threads do while a oneway call executes: deliver calls, and process DEC_STRONG for the same binder. */
  datatype Meanwhile = Meanwhile(calls: seq<Call>, acks: seq<nat>)

  class RpcState {
    const session: nat
    const forServer: bool
    var nodeForAddress: map<WireAddress, BinderNode>
    var nextId: nat
    var terminated: bool

    constructor (session: nat, forServer: bool)
      ensures Valid() && Table() == Endpoint(session, forServer, map[], false)
    {
      this.session, this.forServer := session, forServer;
      nodeForAddress, nextId, terminated := map[], 0, false;
    }

    /** The counting part of the table. */
    ghost function Table(): Endpoint
      reads this
    {
      Endpoint(session, forServer, Refs(nodeForAddress), terminated)
    }

    ghost predicate Valid()
      reads this
    {
      && nextId < TWO32
      && Injective(Table())
      && (forall a :: a in nodeForAddress && nodeForAddress[a].refs.binder.RpcProxy? ==>
            nodeForAddress[a].refs.binder.address == a)
      && (forall a :: a in nodeForAddress ==> WellSized(a))
      && (terminated ==> nodeForAddress == map[])
    }

    /** The search for a binder in the table. */
    method Find(b: Binder) returns (found: bool, addr: WireAddress)
      ensures found <==> Knows(Table(), b)
      ensures found ==> addr in nodeForAddress && nodeForAddress[addr].refs.binder == b
    {
      var todo := nodeForAddress.Keys;
      addr := WireAddress(0, 0);
      while todo != {}
        invariant todo <= nodeForAddress.Keys
        invariant forall a :: a in nodeForAddress && a !in todo ==> nodeForAddress[a].refs.binder != b
        decreases todo
      {
        var a :| a in todo;
        if nodeForAddress[a].refs.binder == b {
          assert Table().nodes[a].binder == b;
          return true, a;
        }
        todo := todo - {a};
      }
      assert forall a :: a in Table().nodes ==> Table().nodes[a] == nodeForAddress[a].refs;
      found := false;
    }

    /** The search for an unused address; it ends within one try more than the table has nodes. */
    method FreshAddress() returns (addr: WireAddress, ghost tries: nat)
      requires Valid() && |nodeForAddress| <= MAX_NODES
      modifies `nextId
      ensures addr !in nodeForAddress && CreatedBy(forServer, addr) && addr.options == if forServer then 3 else 1
      ensures 1 <= tries <= |nodeForAddress| + 1
      ensures addr.address == Tried(old(nextId), tries - 1) && nextId == Tried(old(nextId), tries)
      ensures forall j :: 0 <= j < tries - 1 ==> MakeAddress(forServer, Tried(old(nextId), j)) in nodeForAddress
    {
      ghost var start := nextId;
      tries := 0;
      assert Tried(start, 0) == start;
      while true
        invariant tries <= |nodeForAddress|
        invariant nextId == Tried(start, tries)
        invariant forall j :: 0 <= j < tries ==> MakeAddress(forServer, Tried(start, j)) in nodeForAddress
        decreases |nodeForAddress| - tries
      {
        addr := MakeAddress(forServer, nextId);
        TriedNext(start, tries);
        nextId := NextId(nextId);
        tries := tries + 1;
        if addr !in nodeForAddress {
          return;
        }
        TakenBound(forServer, start, tries, nodeForAddress.Keys);
      }
    }

    /** Counting changes no node's oneway state, and new nodes start at number 0. */
    twostate predicate AsyncKept()
      reads this
    {
      forall c :: c in nodeForAddress ==>
        nodeForAddress[c].async == if c in old(nodeForAddress) then old(nodeForAddress[c].async) else NEW_ASYNC
    }

    /** Stores the counts of a node; a node that is new starts without oneway calls. */
    method Store(a: WireAddress, n: RefNode)
      requires Valid() && !terminated && WellSized(a) && (n.binder.RpcProxy? ==> n.binder.address == a)
      requires if a in nodeForAddress then n.binder == nodeForAddress[a].refs.binder else !Knows(Table(), n.binder)
      modifies `nodeForAddress
      ensures Valid() && AsyncKept()
      ensures Table() == old(Table()).(nodes := old(Table()).nodes[a := n])
      ensures nodeForAddress.Keys == old(nodeForAddress).Keys + {a} && nodeForAddress[a].refs == n
    {
      var node := BinderNode(n, if a in nodeForAddress then nodeForAddress[a].async else NEW_ASYNC);
      ghost var before, table := nodeForAddress, Table();
      assert Injective(table.(nodes := table.nodes[a := n])) by { InjectiveStored(table, a, n); }
      assert Refs(before[a := node]) == table.nodes[a := n] by { RefsStored(before, a, node); }
      nodeForAddress := nodeForAddress[a := node];
    }

    method OnBinderLeaving(b: Binder) returns (status: Status, addr: WireAddress)
      requires Valid()
      modifies this
      ensures Valid() && AsyncKept()
      ensures !Sendable(old(Table()), b) ==> status == InvalidOperation
      ensures Sendable(old(Table()), b) && old(terminated) ==> status == DeadObject
      ensures Sendable(old(Table()), b) && !old(terminated) ==>
        status == if old(Knows(Table(), b)) then Ok else if b.RpcProxy? then Abort
                  else if |old(nodeForAddress)| > MAX_NODES then NoMemory else Ok
      ensures status == Ok ==> MayLeave(old(Table()), b, addr) && Table() == Leaving(old(Table()), b, addr)
      ensures status == InvalidOperation <==> b.KernelProxy? || (b.RpcProxy? && b.session != session)
      ensures status == DeadObject <==> old(terminated) && (b.LocalBinder? || (b.RpcProxy? && b.session == session))
      ensures status == Abort ==> b.RpcProxy? && b.session == session
      ensures status == NoMemory ==> b.LocalBinder? && |old(nodeForAddress)| > 100000
      ensures status != Ok ==> nodeForAddress == old(nodeForAddress) && nextId == old(nextId)
      ensures terminated == old(terminated)
    {
      addr := WireAddress(0, 0);
      match b {
        case LocalBinder(_) =>
        case RpcProxy(s, _) => if s != session { return InvalidOperation, addr; }
        case KernelProxy(_) => return InvalidOperation, addr;
      }
      if terminated { return DeadObject, addr; }
      var found, a := Find(b);
      if found {
        var n := nodeForAddress[a].refs;
        Store(a, n.(timesSent := n.timesSent + 1, sentRef := true));
        return Ok, a;
      }
      if b.RpcProxy? { return Abort, addr; }
      if |nodeForAddress| > MAX_NODES { return NoMemory, addr; }
      ghost var tries;
      addr, tries := FreshAddress();
      RefsStored(nodeForAddress, addr, BinderNode(RefNode(b, true, 1, 0), NEW_ASYNC));
      Store(addr, RefNode(b, true, 1, 0));
      status := Ok;
    }

    /** `alive` is what the promotion of the node's weak pointer finds outside the table. */
    method OnBinderEntering(a: WireAddress, alive: bool) returns (status: Status, out: Option<Binder>)
      requires Valid() && WellSized(a)
      modifies `nodeForAddress
      ensures Valid() && AsyncKept()
      ensures EnterResult(Table(), status, out) == Entering(old(Table()), a, alive)
    {
      if HasUnknownOption(a) { return BadValue, None; }
      if terminated { return DeadObject, None; }
      if a in nodeForAddress {
        var n := nodeForAddress[a].refs;
        out := if n.sentRef || alive then Some(n.binder) else None;
        Store(a, n.(timesRecd := n.timesRecd + 1));
        return Ok, out;
      }
      if ForServerMask(a) == (if forServer then 1 else 0) { return BadValue, None; }
      var proxy := RpcProxy(session, a);
      Store(a, RefNode(proxy, false, 0, 1));
      return Ok, Some(proxy);
    }

    /** `flushExcessBinderRefs` up to the point where it gives up the lock is the step FlushCheck of the protocol. */
    method FlushCheck(a: WireAddress, binder: Binder) returns (status: Status, send: bool)
      requires Valid()
      ensures !binder.LocalBinder? ==> status == Ok && !send
      ensures binder.LocalBinder? && terminated ==> status == DeadObject && !send
      ensures binder.LocalBinder? && !terminated ==>
        ChecksFlush(Table(), RpcRefProtocol.Token(a, binder.id), status, send)
      ensures status == Abort <==>
        && binder.LocalBinder? && !terminated
        && (a in nodeForAddress ==> nodeForAddress[a].refs.binder != binder || nodeForAddress[a].refs.timesSent == 0)
    {
      if !binder.LocalBinder? { return Ok, false; }
      if terminated { return DeadObject, false; }
      if a !in nodeForAddress { return Abort, false; }
      var n := nodeForAddress[a].refs;
      if n.binder != binder || n.timesSent <= 0 { return Abort, false; }
      return Ok, n.timesRecd != 0;
    }

    /** Would erasing drop oneway calls that still wait? */
    ghost predicate DropsCalls(a: WireAddress, after: Endpoint)
      reads this
    {
      a in nodeForAddress && a !in after.nodes && nodeForAddress[a].async.todo != []
    }

    /** `tryEraseNode`; false where its fatal check fails. */
    method TryEraseNode(a: WireAddress) returns (ok: bool, released: bool)
      requires Valid() && a in nodeForAddress
      modifies `nodeForAddress
      ensures Valid() && AsyncKept() && nodeForAddress.Keys <= old(nodeForAddress).Keys
      ensures released == Releases(old(Table()).nodes[a])
      ensures ok <==> !old(DropsCalls(a, TryErase(Table(), a)))
      ensures ok ==> Table() == TryErase(old(Table()), a)
    {
      var n := nodeForAddress[a].refs;
      ok, released := true, n.timesSent == 0 && n.sentRef;
      if n.timesSent == 0 {
        Store(a, n.(sentRef := false));
        if n.timesRecd == 0 {
          if nodeForAddress[a].async.todo != [] { return false, released; }
          RefsErased(nodeForAddress, a);
          nodeForAddress := nodeForAddress - {a};
          assert Table().nodes == old(Table()).nodes - {a};
        }
      }
    }

    /** `sendDecStrongToTarget`; DecSend carries the amount of the message to send. */
    method SendDecStrongToTarget(a: WireAddress, target: nat) returns (outcome: DecOutcome)
      requires Valid()
      modifies `nodeForAddress
      ensures Valid() && AsyncKept()
      ensures var r := DecTo(old(Table()), a, target);
        if r.outcome.DecSend? && old(DropsCalls(a, DecTo(Table(), a, target).e)) then outcome == DecFatal
        else outcome == r.outcome && (!outcome.DecFatal? ==> Table() == r.e)
    {
      if terminated { return DecStatus(DeadObject); }
      if a !in nodeForAddress { return DecFatal; }
      var n := nodeForAddress[a].refs;
      if n.timesRecd < target { return DecFatal; }
      if n.timesRecd == target { return DecStatus(Ok); }
      Store(a, n.(timesRecd := target));
      var ok, released := TryEraseNode(a);
      if released || !ok { return DecFatal; }
      return DecSend((n.timesRecd - target) % TWO32);
    }

    /** `processDecStrong`. */
    method ProcessDecStrong(a: WireAddress, amount: nat, alive: bool) returns (outcome: AckOutcome)
      requires Valid()
      modifies `nodeForAddress
      ensures Valid() && AsyncKept()
      ensures var r := ProcessDec(old(Table()), a, amount, alive);
        if r.outcome.AckDone? && old(DropsCalls(a, ProcessDec(Table(), a, amount, alive).e)) then outcome == AckFatal
        else outcome == r.outcome && (!outcome.AckFatal? ==> Table() == r.e)
    {
      if a !in nodeForAddress { return AckUnknown; }
      var n := nodeForAddress[a].refs;
      if !(n.sentRef || alive) { return AckDeleted; }
      if n.timesSent < amount { return AckTooMany; }
      if !n.sentRef { return AckFatal; }
      Store(a, n.(timesSent := n.timesSent - amount));
      var ok, released := TryEraseNode(a);
      return if ok then AckDone(released) else AckFatal;
    }

    /** The oneway state of one node changes, everything else in the table stays. */
    method StoreAsync(a: WireAddress, n: RpcOneway.AsyncNode)
      requires Valid() && a in nodeForAddress
      modifies `nodeForAddress
      ensures Valid() && Table() == old(Table())
      ensures nodeForAddress == old(nodeForAddress)[a := old(nodeForAddress)[a].(async := n)]
    {
      RefsStored(nodeForAddress, a, nodeForAddress[a].(async := n));
      assert Refs(nodeForAddress)[a := nodeForAddress[a].refs] == Refs(nodeForAddress);
      nodeForAddress := nodeForAddress[a := nodeForAddress[a].(async := n)];
    }

    /** The number a oneway transaction is sent with. */
    method TransactNumber(a: WireAddress) returns (status: Status, number: nat)
      requires Valid()
      modifies `nodeForAddress
      ensures Valid() && Table() == old(Table())
      ensures status == Ok <==>
        !terminated && a in old(nodeForAddress) && RpcOneway.Progress(old(nodeForAddress)[a].async).Some?
      ensures status == Ok ==>
        && number == old(nodeForAddress)[a].async.number
        && nodeForAddress == old(nodeForAddress)[
             a := old(nodeForAddress)[a].(async := RpcOneway.Progress(old(nodeForAddress)[a].async).value)]
      ensures status != Ok ==> nodeForAddress == old(nodeForAddress)
      ensures status == Abort <==> !terminated && a !in old(nodeForAddress)
      ensures !terminated && a in old(nodeForAddress) ==>
        var n := old(nodeForAddress)[a].async.number;
        (status == Ok <==> n < 0xFFFF_FFFF_FFFF_FFFF) && (status == Ok ==> nodeForAddress[a].async.number == n + 1)
    {
      number := 0;
      if terminated { return DeadObject, 0; }
      if a !in nodeForAddress { return Abort, 0; }
      var n := nodeForAddress[a].async;
      if n.number >= RpcOneway.MAX_NUMBER { return DeadObject, 0; }
      StoreAsync(a, n.(number := n.number + 1));
      return Ok, n.number;
    }

    /** A oneway call arrived for the local binder at `a`. */
    method Receive(a: WireAddress, c: Call) returns (v: RpcOneway.Verdict)
      requires Valid() && a in nodeForAddress
      modifies `nodeForAddress
      ensures Valid() && Table() == old(Table())
      ensures var d := RpcOneway.Arrive(old(nodeForAddress)[a].async, c);
        v == d.verdict && nodeForAddress == old(nodeForAddress)[a := old(nodeForAddress)[a].(async := d.node)]
      ensures var n := old(nodeForAddress)[a].async;
        v == if c.number == n.number then RpcOneway.Run(c)
             else if |n.todo| < 9999 then RpcOneway.Wait else RpcOneway.Terminate
    {
      var n := nodeForAddress[a].async;
      RpcOneway.PushAt(n.todo, c);
      if c.number == n.number {
        assert nodeForAddress == nodeForAddress[a := nodeForAddress[a].(async := n)];
        return RpcOneway.Run(c);
      }
      StoreAsync(a, n.(todo := RpcOneway.Push(n.todo, c)));
      var waiting := |nodeForAddress[a].async.todo|;
      return if waiting >= RpcOneway.TERMINATE_LEVEL then RpcOneway.Terminate else RpcOneway.Wait;
    }

    /** A oneway call of the binder at `a` has run; its node may be gone by now. */
    method Done(a: WireAddress) returns (v: RpcOneway.Verdict)
      requires Valid()
      modifies `nodeForAddress
      ensures Valid() && Table() == old(Table())
      ensures a !in old(nodeForAddress) ==> v == RpcOneway.Wait && nodeForAddress == old(nodeForAddress)
      ensures a in old(nodeForAddress) ==> var d := RpcOneway.Finish(old(nodeForAddress)[a].async);
        v == d.verdict && nodeForAddress == old(nodeForAddress)[a := old(nodeForAddress)[a].(async := d.node)]
    {
      if a !in nodeForAddress { return RpcOneway.Wait; }
      var n := nodeForAddress[a].async;
      if n.number >= RpcOneway.MAX_NUMBER {
        assert nodeForAddress == nodeForAddress[a := nodeForAddress[a].(async := n)];
        return RpcOneway.Terminate;
      }
      var n' := n.(number := n.number + 1);
      if n'.todo == [] || n'.todo[0].number != n'.number {
        StoreAsync(a, n');
        return RpcOneway.Wait;
      }
      StoreAsync(a, n'.(todo := n'.todo[1..]));
      return RpcOneway.Run(n'.todo[0]);
    }

    /** Other threads deliver these calls while one call is being executed. */
    method ReceiveAll(a: WireAddress, calls: seq<Call>) returns (ok: bool)
      requires Valid() && a in nodeForAddress
      requires forall i :: 0 <= i < |calls| ==> calls[i].number > nodeForAddress[a].async.number
      modifies `nodeForAddress
      ensures Valid() && Table() == old(Table()) && a in nodeForAddress
      ensures nodeForAddress[a].async.number == old(nodeForAddress)[a].async.number
      ensures |nodeForAddress[a].async.todo| <= |old(nodeForAddress)[a].async.todo| + |calls|
      ensures forall d :: d in nodeForAddress[a].async.todo ==> d in old(nodeForAddress)[a].async.todo || d in calls
    {
      ok := true;
      for i := 0 to |calls|
        invariant Valid() && Table() == old(Table()) && a in nodeForAddress
        invariant nodeForAddress[a].async.number == old(nodeForAddress)[a].async.number
        invariant |nodeForAddress[a].async.todo| <= |old(nodeForAddress)[a].async.todo| + i
        invariant forall d :: d in nodeForAddress[a].async.todo ==> d in old(nodeForAddress)[a].async.todo || d in calls
      {
        RpcOneway.PushMembers(nodeForAddress[a].async.todo, calls[i]);
        RpcOneway.PushAt(nodeForAddress[a].async.todo, calls[i]);
        var v := Receive(a, calls[i]);
        if v == RpcOneway.Terminate { return false; }
      }
    }

    /** Other threads take back references to the binder meanwhile, whose last one takes the node along. */
    method AckAll(a: WireAddress, acks: seq<nat>) returns (ok: bool)
      requires Valid() && a in nodeForAddress
      modifies `nodeForAddress
      ensures Valid()
      ensures a in nodeForAddress ==> nodeForAddress[a].async == old(nodeForAddress)[a].async
      ensures acks == [] ==> ok && nodeForAddress == old(nodeForAddress)
    {
      ok := true;
      for i := 0 to |acks|
        invariant Valid() && (acks == [] ==> nodeForAddress == old(nodeForAddress))
        invariant a in nodeForAddress ==> nodeForAddress[a].async == old(nodeForAddress)[a].async
      {
        if a in nodeForAddress {
          var r := ProcessDecStrong(a, acks[i], true);
          if r.AckFatal? { return false; }
        }
      }
    }

    /** All that others do while one call executes. */
    method Await(a: WireAddress, m: Meanwhile) returns (ok: bool)
      requires Valid() && a in nodeForAddress
      requires forall i :: 0 <= i < |m.calls| ==> m.calls[i].number > nodeForAddress[a].async.number
      modifies `nodeForAddress
      ensures Valid() && (m.acks == [] ==> Table() == old(Table()) && a in nodeForAddress)
      ensures a in nodeForAddress ==> var n, n0 := nodeForAddress[a].async, old(nodeForAddress)[a].async;
        && n.number == n0.number && |n.todo| <= |n0.todo| + |m.calls|
        && forall d :: d in n.todo ==> d in n0.todo || d in m.calls
    {
      ok := ReceiveAll(a, m.calls);
      if ok { ok := AckAll(a, m.acks); }
    }

    /**
     * The thread that runs call `c` goes on with the calls that are ready behind it, while other threads do
     * `during[k]` as its k-th call executes. What it runs has consecutive numbers.
     */
    method DrainOneway(a: WireAddress, c: Call, during: seq<Meanwhile>) returns (ran: seq<Call>, ok: bool)
      requires Valid() && a in nodeForAddress && nodeForAddress[a].async.number == c.number
      requires forall k, i :: 0 <= k < |during| && 0 <= i < |during[k].calls| ==>
        during[k].calls[i].number > c.number + k
      modifies `nodeForAddress
      ensures Valid()
      ensures (forall k :: 0 <= k < |during| ==> during[k].acks == []) ==>
        Table() == old(Table()) && a in nodeForAddress
      ensures ran != [] && ran[0] == c
      ensures forall k :: 0 <= k < |ran| ==> ran[k].number == c.number + k
      ensures forall k :: 1 <= k < |ran| ==>
        ran[k] in old(nodeForAddress)[a].async.todo || exists j :: 0 <= j < |during| && ran[k] in during[j].calls
      ensures ok && a in nodeForAddress ==> var n := nodeForAddress[a].async;
        n.number == c.number + |ran| && (n.todo != [] ==> n.todo[0].number != n.number)
    {
      ran, ok := [c], true;
      ghost var todo0 := nodeForAddress[a].async.todo;
      ghost var quiet := forall k :: 0 <= k < |during| ==> during[k].acks == [];
      while true
        invariant Valid() && a in nodeForAddress && (quiet ==> Table() == old(Table()))
        invariant |ran| > 0 && ran[0] == c && nodeForAddress[a].async.number == c.number + |ran| - 1
        invariant forall k :: 0 <= k < |ran| ==> ran[k].number == c.number + k
        invariant forall d :: d in nodeForAddress[a].async.todo || d in ran[1..] ==>
          d in todo0 || exists j :: 0 <= j < |during| && d in during[j].calls
        decreases |nodeForAddress[a].async.todo| + Total(during, |ran| - 1)
      {
        var k := |ran| - 1;
        if k < |during| {
          ok := Await(a, during[k]);
          if !ok { return; }
        }
        var v := Done(a);
        match v {
          case Terminate => ok := false; return;
          case Wait => return;
          case Run(d) =>
            ran := ran + [d];
        }
      }
    }

    /**
     * `clear`: the session is over and every node is forgotten; `held` are the proxies somebody still holds. False
     * where a node's binder is not owned any more, which is fatal. After termination there is nothing left to clear.
     */
    method Clear(held: set<WireAddress>) returns (ok: bool)
      requires Valid()
      modifies `terminated, `nodeForAddress
      ensures terminated
      ensures ok <==> forall a :: a in old(nodeForAddress) ==> Promote(old(nodeForAddress)[a].refs, a in held).Some?
      ensures ok ==> Valid() && nodeForAddress == map[]
    {
      if terminated { return true; }
      terminated := true;
      var todo := nodeForAddress.Keys;
      while todo != {}
        invariant todo <= nodeForAddress.Keys && nodeForAddress == old(nodeForAddress) && terminated
        invariant forall a :: a in nodeForAddress && a !in todo ==> Promote(nodeForAddress[a].refs, a in held).Some?
        decreases todo
      {
        var a :| a in todo;
        if Promote(nodeForAddress[a].refs, a in held).None? { return false; }
        todo := todo - {a};
      }
      nodeForAddress := map[];
      return true;
    }
  }

  /** How many calls are still to be delivered from the k-th execution on. */
  ghost function Total(during: seq<Meanwhile>, k: nat): nat
    decreases |during| - k
  {
    if k >= |during| then 0 else |during[k].calls| + Total(during, k + 1)
  }
}
