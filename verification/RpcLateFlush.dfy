/** A concrete run of the reference protocol in which a flush comes too late and aborts the process. */
module RpcLateFlush {
  import opened Basics
  import opened RpcWire
  import opened RpcNodes
  import opened RpcRefProtocol

  const A := WireAddress(3, 0)

  function TheBinder(forServer: bool): Binder { if forServer then LocalBinder(7) else RpcProxy(0, A) }

  function Times(k: nat): multiset<WireAddress> { multiset{}[A := k] }

  /** A side that knows nothing but the object at A, which the server created. */
  function Simple(forServer: bool, sent: nat, recd: nat, out: nat, wire: seq<Packet>, inbox: nat,
                  toFlush: nat, flushing: nat): Half
  {
    Half(
      Endpoint(0, forServer,
               if sent + recd == 0 then map[] else map[A := RefNode(TheBinder(forServer), sent > 0, sent, recd)],
               false),
      Times(out), wire, Times(inbox), if forServer || recd == 0 then {} else {A}, multiset{},
      multiset{}[Token(A, 7) := toFlush], Times(flushing))
  }

  lemma SimpleLeave(fs: bool, s: nat, r: nat, o: Half)
    requires fs || r > 0
    ensures Act(Simple(fs, s, r, 0, [], 0, 0, 0), o, Leave(TheBinder(fs), A))
         == Next(Simple(fs, s + 1, r, 1, [], 0, 0, 0), o)
  {
    var h := Simple(fs, s, r, 0, [], 0, 0, 0);
    if s + r > 0 { assert A in h.ep.nodes; }
    assert h.ep.nodes[A := RefNode(TheBinder(fs), true, s + 1, r)] == Simple(fs, s + 1, r, 1, [], 0, 0, 0).ep.nodes;
  }

  /** One reference sent and read by the other side. */
  lemma SimpleCarry(fs: bool, s: nat, r: nat, o: Half, inb: nat)
    requires o.inbox == Times(inb)
    ensures
      var h := Simple(fs, s, r, 0, [Transfer(Times(1))], 0, 0, 0);
      && Act(Simple(fs, s, r, 1, [], 0, 0, 0), o, Post(Times(1))) == Next(h, o)
      && Act(o, h, Deliver(0)) == Next(o.(inbox := Times(inb + 1)), Simple(fs, s, r, 0, [], 0, 0, 0))
  {
  }

  lemma SimpleRead(fs: bool, s: nat, r: nat, tf: nat, o: Half)
    requires if fs then s > 0 else s + r == 0 && tf == 0
    ensures Act(Simple(fs, s, r, 0, [], 1, tf, 0), o, Read(A))
         == Next(Simple(fs, s, r + 1, 0, [], 0, if fs then tf + 1 else 0, 0), o)
  {
    var h' := Act(Simple(fs, s, r, 0, [], 1, tf, 0), o, Read(A)).h;
    assert h'.ep.nodes == map[A := RefNode(TheBinder(fs), s > 0, s, r + 1)];
  }

  lemma SimpleFlushCheck(s: nat, r: nat, tf: nat, fl: nat, o: Half)
    requires s > 0 && r > 0 && tf > 0
    ensures Act(Simple(true, s, r, 0, [], 0, tf, fl), o, FlushCheck(Token(A, 7)))
         == Next(Simple(true, s, r, 0, [], 0, tf - 1, fl + 1), o)
  {
  }

  lemma SimpleFlushSend(s: nat, r: nat, tf: nat, fl: nat, o: Half)
    requires s > 0 && 0 < r < TWO32 && fl > 0
    ensures Act(Simple(true, s, r, 0, [], 0, tf, fl), o, FlushSend(A))
         == Next(Simple(true, s, 0, 0, [DecStrong(A, r)], 0, tf, fl - 1), o)
  {
    var r := Act(Simple(true, s, r, 0, [], 0, tf, fl), o, FlushSend(A));
    assert r.h.ep.nodes == map[A := RefNode(LocalBinder(7), true, s, 0)];
    assert r.o.leaked == o.leaked;
  }

  lemma SimpleAck(fs: bool, s: nat, r: nat, tf: nat, fl: nat, o: Half)
    requires s > 0 && (fs ==> r == 0) && (!fs ==> r > 0)
    requires o.wire == [DecStrong(A, s)]
    ensures Act(Simple(fs, s, r, 0, [], 0, tf, fl), o, Ack(0))
         == Next(Simple(fs, 0, r, 0, [], 0, tf, fl), o.(wire := []))
  {
    var h' := Act(Simple(fs, s, r, 0, [], 0, tf, fl), o, Ack(0)).h;
    assert h'.ep.nodes == Simple(fs, 0, r, 0, [], 0, tf, fl).ep.nodes;
  }

  lemma SimpleDrop(o: Half)
    ensures Act(Simple(false, 0, 1, 0, [], 0, 0, 0), o, Drop(A))
         == Next(Simple(false, 0, 0, 0, [DecStrong(A, 1)], 0, 0, 0), o)
  {
    var r := Act(Simple(false, 0, 1, 0, [], 0, 0, 0), o, Drop(A));
    assert r.h.ep.nodes == map[] && r.h.held == {};
    assert r.o.leaked == o.leaked;
  }

  ghost predicate Reachable(s: Sys) { exists tr, steps :: IsRun(tr, steps) && tr[|tr| - 1] == s }

  lemma Extend(s: Sys, st: Step, s': Sys)
    requires Reachable(s) && Leads(s, st, s')
    ensures Reachable(s')
  {
    var tr, steps :| IsRun(tr, steps) && tr[|tr| - 1] == s;
    var tr', steps' := tr + [s'], steps + [st];
    assert forall i :: 0 <= i < |tr| ==> tr'[i] == tr[i];
    assert IsRun(tr', steps');
  }

  /** One side sends its binder once more and the other side reads it. */
  lemma Send(fs: bool, s: nat, r: nat, s2: nat, r2: nat, tf: nat)
    requires fs || r > 0
    requires if fs then s2 + r2 == 0 && tf == 0 else s2 > 0
    requires Reachable(Pair(fs, Simple(fs, s, r, 0, [], 0, 0, 0), Simple(!fs, s2, r2, 0, [], 0, tf, 0)))
    ensures Reachable(Pair(fs, Simple(fs, s + 1, r, 0, [], 0, 0, 0),
                           Simple(!fs, s2, r2 + 1, 0, [], 0, if fs then 0 else tf + 1, 0)))
  {
    var o := Simple(!fs, s2, r2, 0, [], 0, tf, 0);
    var o1 := Simple(!fs, s2, r2, 0, [], 1, tf, 0);
    var o2 := Simple(!fs, s2, r2 + 1, 0, [], 0, if fs then 0 else tf + 1, 0);
    var h, h1 := Simple(fs, s, r, 0, [], 0, 0, 0), Simple(fs, s + 1, r, 1, [], 0, 0, 0);
    var h2, h3 := Simple(fs, s + 1, r, 0, [Transfer(Times(1))], 0, 0, 0), Simple(fs, s + 1, r, 0, [], 0, 0, 0);
    SimpleLeave(fs, s, r, o);
    Extend(Pair(fs, h, o), Step(fs, Leave(TheBinder(fs), A)), Pair(fs, h1, o));
    SimpleCarry(fs, s + 1, r, o, 0);
    Extend(Pair(fs, h1, o), Step(fs, Post(Times(1))), Pair(fs, h2, o));
    Extend(Pair(fs, h2, o), Step(!fs, Deliver(0)), Pair(fs, h3, o1));
    SimpleRead(!fs, s2, r2, tf, h3);
    Extend(Pair(fs, h3, o1), Step(!fs, Read(A)), Pair(fs, h3, o2));
  }

  function Pair(forServer: bool, h: Half, o: Half): Sys { if forServer then Sys(o, h) else Sys(h, o) }

  /** Two threads of the server have read its binder and passed, or not yet passed, the check of the flush. */
  lemma BothReading()
    ensures Reachable(Sys(Simple(false, 2, 1, 0, [], 0, 0, 0), Simple(true, 1, 2, 0, [], 0, 1, 1)))
    ensures Reachable(Sys(Simple(false, 2, 1, 0, [], 0, 0, 0), Simple(true, 1, 2, 0, [], 0, 0, 2)))
  {
    var c0, v0 := Simple(false, 0, 0, 0, [], 0, 0, 0), Simple(true, 0, 0, 0, [], 0, 0, 0);
    assert c0 == Fresh(false) && v0 == Fresh(true);
    assert IsRun([Sys(c0, v0)], []);
    assert [Sys(c0, v0)][0] == Sys(c0, v0);
    Send(true, 0, 0, 0, 0, 0);
    Send(false, 0, 1, 1, 0, 0);
    Send(false, 1, 1, 1, 1, 1);
    var c := Simple(false, 2, 1, 0, [], 0, 0, 0);
    var st := Step(true, FlushCheck(Token(A, 7)));
    SimpleFlushCheck(1, 2, 2, 0, c);
    Extend(Sys(c, Simple(true, 1, 2, 0, [], 0, 2, 0)), st, Sys(c, Simple(true, 1, 2, 0, [], 0, 1, 1)));
    SimpleFlushCheck(1, 2, 1, 1, c);
    Extend(Sys(c, Simple(true, 1, 2, 0, [], 0, 1, 1)), st, Sys(c, Simple(true, 1, 2, 0, [], 0, 0, 2)));
  }

  /** One of them returns all references, the client lets go, and the node is gone under the other thread. */
  lemma OneFlushes(tf: nat, fl: nat)
    requires Reachable(Sys(Simple(false, 2, 1, 0, [], 0, 0, 0), Simple(true, 1, 2, 0, [], 0, tf, fl))) && fl > 0
    ensures Reachable(Sys(Simple(false, 0, 0, 0, [], 0, 0, 0), Simple(true, 0, 0, 0, [], 0, tf, fl - 1)))
  {
    var c2, c1 := Simple(false, 2, 1, 0, [], 0, 0, 0), Simple(false, 0, 1, 0, [], 0, 0, 0);
    var cd, c0 := Simple(false, 0, 0, 0, [DecStrong(A, 1)], 0, 0, 0), Simple(false, 0, 0, 0, [], 0, 0, 0);
    var v2, vd := Simple(true, 1, 2, 0, [], 0, tf, fl), Simple(true, 1, 0, 0, [DecStrong(A, 2)], 0, tf, fl - 1);
    var v1, v0 := Simple(true, 1, 0, 0, [], 0, tf, fl - 1), Simple(true, 0, 0, 0, [], 0, tf, fl - 1);
    SimpleFlushSend(1, 2, tf, fl, c2);
    Extend(Sys(c2, v2), Step(true, FlushSend(A)), Sys(c2, vd));
    SimpleAck(false, 2, 1, 0, 0, vd);
    Extend(Sys(c2, vd), Step(false, Ack(0)), Sys(c1, v1));
    SimpleDrop(v1);
    Extend(Sys(c1, v1), Step(false, Drop(A)), Sys(cd, v1));
    SimpleAck(true, 1, 0, tf, fl - 1, cd);
    Extend(Sys(cd, v1), Step(true, Ack(0)), Sys(c0, v0));
  }

  /**
   * Two threads read the same local binder; one flushes, the other side drops its proxy, and the second thread aborts
   * on an unknown address: in the check of `flushExcessBinderRefs` if it had not passed it yet, in the send otherwise.
   */
  lemma LateFlushHappens()
    ensures exists s :: Reachable(s) && Act(s.server, s.client, FlushCheck(Token(A, 7))).Fatal?
    ensures exists s :: Reachable(s) && Act(s.server, s.client, FlushSend(A)).Fatal?
  {
    BothReading();
    OneFlushes(1, 1);
    OneFlushes(0, 2);
    var c := Simple(false, 0, 0, 0, [], 0, 0, 0);
    var s, s' := Sys(c, Simple(true, 0, 0, 0, [], 0, 1, 0)), Sys(c, Simple(true, 0, 0, 0, [], 0, 0, 1));
    assert Act(s.server, s.client, FlushCheck(Token(A, 7))).Fatal? && Act(s'.server, s'.client, FlushSend(A)).Fatal?;
    assert Reachable(s) && Reachable(s');
  }
}
