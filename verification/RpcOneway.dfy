/**
 * Oneway calls to one binder. Sends are numbered by the sender's node; messages travel over several
 * connections and may arrive in any order and on any thread; the receiver's node decides which call runs.
 */
module RpcOneway {
  import opened Basics

  /** A oneway transaction: its number and its payload. */
  datatype Call = Call(number: nat, data: int)

  /** `AsyncTodo::operator<`, turned around so that the top of a priority queue is the lowest number. */
  predicate Less(a: Call, b: Call) { a.number > b.number }

  /** The queue is kept with its top first, and no number is queued twice. */
  ghost predicate Ascending(q: seq<Call>) { forall i, j :: 0 <= i < j < |q| ==> Less(q[j], q[i]) }

  /** The place of a new element: before the first one that is less. */
  function Place(q: seq<Call>, c: Call, i: nat): (k: nat)
    requires i <= |q|
    requires forall j :: 0 <= j < i ==> !Less(q[j], c)
    ensures i <= k <= |q|
    ensures forall j :: 0 <= j < k ==> !Less(q[j], c)
    ensures k < |q| ==> Less(q[k], c)
    decreases |q| - i
  {
    if i == |q| || Less(q[i], c) then i else Place(q, c, i + 1)
  }

  function Push(q: seq<Call>, c: Call): seq<Call>
  {
    var k := Place(q, c, 0);
    q[..k] + [c] + q[k..]
  }

  lemma PushAt(q: seq<Call>, c: Call)
    ensures var k, r := Place(q, c, 0), Push(q, c);
      && |r| == |q| + 1
      && forall i :: 0 <= i < |r| ==> r[i] == if i < k then q[i] else if i == k then c else q[i - 1]
  {
  }

  lemma PushMembers(q: seq<Call>, c: Call)
    ensures forall d :: d in Push(q, c) <==> d in q || d == c
  {
    var k := Place(q, c, 0);
    assert q == q[..k] + q[k..];
  }

  lemma PushAscends(q: seq<Call>, c: Call)
    requires Ascending(q) && forall d :: d in q ==> d.number != c.number
    ensures Ascending(Push(q, c))
  {
    var k, r := Place(q, c, 0), Push(q, c);
    PushAt(q, c);
    forall i, j | 0 <= i < j < |r| ensures Less(r[j], r[i]) {
      if i < k && j == k {
        assert q[i] in q;
      } else if i == k && j > k + 1 {
        assert Less(q[j - 1], q[k]);
      }
    }
  }

  /** The part of a BinderNode that orders oneway calls. */
  datatype AsyncNode = AsyncNode(number: nat, todo: seq<Call>)

  const MAX_NUMBER: nat := 0xFFFF_FFFF_FFFF_FFFF
  const TERMINATE_LEVEL: nat := 10000

  /** `nodeProgressAsyncNumber`; None means that the session is shut down. */
  function Progress(n: AsyncNode): Option<AsyncNode>
  {
    if n.number >= MAX_NUMBER then None else Some(n.(number := n.number + 1))
  }

  datatype Verdict = Run(call: Call) | Wait | Terminate

  datatype Decision = Decision(node: AsyncNode, verdict: Verdict)

  /** A oneway call was received: run it now, or queue it until the ones before it have run. */
  function Arrive(n: AsyncNode, c: Call): Decision
  {
    if c.number == n.number then Decision(n, Run(c))
    else
      var n' := n.(todo := Push(n.todo, c));
      Decision(n', if |n'.todo| >= TERMINATE_LEVEL then Terminate else Wait)
  }

  /** A oneway call has run: move on, and take the next call if it is already there. */
  function Finish(n: AsyncNode): Decision
  {
    match Progress(n)
    case None => Decision(n, Terminate)
    case Some(n') =>
      if n'.todo != [] && n'.todo[0].number == n'.number
      then Decision(n'.(todo := n'.todo[1..]), Run(n'.todo[0]))
      else Decision(n', Wait)
  }

  // ----- the whole system -----

  datatype Sys = Sys(
    sent: seq<Call>,       // everything the sender numbered, in that order
    flight: set<Call>,     // on some connection
    node: AsyncNode,       // at the receiver
    running: set<Call>,    // being executed by some thread of the receiver
    started: seq<Call>)    // in the order in which execution began

  const INIT := Sys([], {}, AsyncNode(0, []), {}, [])

  datatype Step = Send(data: int) | Receive(call: Call) | Done(call: Call)

  function Begin(s: Sys, d: Decision): Sys
  {
    match d.verdict
    case Run(c) => s.(node := d.node, running := s.running + {c}, started := s.started + [c])
    case _ => s.(node := d.node)
  }

  /** One critical section; None when it is not enabled or shuts the session down. */
  function Apply(s: Sys, st: Step): Option<Sys>
  {
    match st
    case Send(data) =>
      // the sender's own node has counted as many calls as it sent
      if |s.sent| >= MAX_NUMBER then None
      else var c := Call(|s.sent|, data); Some(s.(sent := s.sent + [c], flight := s.flight + {c}))
    case Receive(c) =>
      if c !in s.flight || Arrive(s.node, c).verdict == Terminate then None
      else Some(Begin(s.(flight := s.flight - {c}), Arrive(s.node, c)))
    case Done(c) =>
      if c !in s.running || Finish(s.node).verdict == Terminate then None
      else Some(Begin(s.(running := s.running - {c}), Finish(s.node)))
  }

  ghost predicate IsRun(tr: seq<Sys>, steps: seq<Step>)
  {
    && |tr| == |steps| + 1 && tr[0] == INIT
    && forall i {:trigger steps[i]} :: 0 <= i < |steps| ==> Apply(tr[i], steps[i]) == Some(tr[i + 1])
  }

  // ----- the invariant -----

  /** A call that is somewhere is one that was sent, and its number tells which. */
  ghost predicate Genuine(s: Sys, c: Call) { c.number < |s.sent| && c == s.sent[c.number] }

  ghost predicate Inv(s: Sys)
  {
    && (forall i :: 0 <= i < |s.sent| ==> s.sent[i].number == i)
    && (forall c :: c in s.flight ==> Genuine(s, c) && c.number >= s.node.number)
    && (forall c :: c in s.node.todo ==> Genuine(s, c) && c.number > s.node.number)
    && (forall c :: c in s.running ==> Genuine(s, c) && c.number == s.node.number)
    && Ascending(s.node.todo)
    // a call is in one place only, and every call not run yet is somewhere
    && (forall c :: c in s.flight ==> c !in s.node.todo && c !in s.running)
    && s.node.number <= |s.sent|
    && (forall i :: s.node.number <= i < |s.sent| ==>
          s.sent[i] in s.flight || s.sent[i] in s.node.todo || s.sent[i] in s.running)
    // execution began exactly in sending order
    && s.started == s.sent[..s.node.number + if s.running == {} then 0 else 1]
  }

  lemma SendKeeps(s: Sys, data: int)
    requires Inv(s) && Apply(s, Send(data)).Some?
    ensures Inv(Apply(s, Send(data)).value)
  {
    var s' := Apply(s, Send(data)).value;
    assert forall i :: 0 <= i < |s.sent| ==> s'.sent[i] == s.sent[i];
    assert s'.sent[..|s.started|] == s.sent[..|s.started|];
    assert forall c :: Genuine(s, c) ==> Genuine(s', c) && c != s'.sent[|s.sent|];
  }

  lemma QueueKeeps(s: Sys, c: Call)
    requires Inv(s) && c in s.flight && c.number != s.node.number
    ensures Inv(s.(flight := s.flight - {c}, node := s.node.(todo := Push(s.node.todo, c))))
  {
    PushMembers(s.node.todo, c);
    PushAscends(s.node.todo, c);
  }

  /** Execution of the call whose turn it is begins. */
  lemma BeginKeeps(s: Sys, c: Call)
    requires Inv(s) && s.running == {} && c.number == s.node.number && c in s.flight
    ensures Inv(s.(flight := s.flight - {c}, running := {c}, started := s.started + [c]))
  {
    assert s.sent[..c.number] + [c] == s.sent[..c.number + 1];
  }

  /** Nothing is running when the call with the node's number arrives. */
  lemma TurnIsFree(s: Sys, c: Call)
    requires Inv(s) && c in s.flight && c.number == s.node.number
    ensures s.running == {}
  {
    assert forall d :: d in s.running ==> d == c;
  }

  lemma ReceiveKeeps(s: Sys, c: Call)
    requires Inv(s) && Apply(s, Receive(c)).Some?
    ensures Inv(Apply(s, Receive(c)).value)
  {
    if c.number == s.node.number {
      TurnIsFree(s, c);
      BeginKeeps(s, c);
      assert s.running + {c} == {c};
    } else {
      QueueKeeps(s, c);
    }
  }

  lemma RunsAlone(s: Sys, c: Call)
    requires Inv(s) && c in s.running
    ensures s.running == {c}
  {
    assert forall d :: d in s.running ==> d == c;
  }

  /** The call that finished is gone, and the top of the queue runs now if its turn has come. */
  lemma DoneIs(s: Sys, c: Call)
    requires s.running == {c} && Apply(s, Done(c)).Some?
    ensures var s', q := Apply(s, Done(c)).value, s.node.todo;
      && s'.flight == s.flight && s'.sent == s.sent && s'.node.number == s.node.number + 1
      && if q != [] && q[0].number == s.node.number + 1 then s'.node.todo == q[1..] && s'.running == {q[0]}
         else s'.node.todo == q && s'.running == {}
  {
    assert s.running - {c} == {};
  }

  lemma IdleKeeps(s: Sys, c: Call)
    requires Inv(s) && s.running == {c} && (s.node.todo == [] || s.node.todo[0].number != s.node.number + 1)
    ensures Inv(s.(node := s.node.(number := s.node.number + 1), running := {}))
  {
    var n, q := s.node.number + 1, s.node.todo;
    assert forall i :: 0 <= i < |q| ==> q[i] in q && q[i].number > n;
    assert forall d :: d in s.flight ==> d != c;
  }

  lemma NextKeeps(s: Sys, c: Call)
    requires Inv(s) && s.running == {c} && s.node.todo != [] && s.node.todo[0].number == s.node.number + 1
    ensures var q := s.node.todo;
      Inv(s.(node := AsyncNode(s.node.number + 1, q[1..]), running := {q[0]}, started := s.started + [q[0]]))
  {
    var n, q := s.node.number + 1, s.node.todo;
    assert forall i :: 0 <= i < |q| ==> q[i] in q;
    assert s.sent[..n] + [q[0]] == s.sent[..n + 1];
    assert forall d :: d in q <==> d == q[0] || d in q[1..] by { assert q == [q[0]] + q[1..]; }
    assert forall d :: d in s.flight ==> d != c;
  }

  /** Finishing leaves a state in which nothing runs, except that the next call may sit on top of the queue. */
  lemma DoneKeeps(s: Sys, c: Call)
    requires Inv(s) && Apply(s, Done(c)).Some?
    ensures Inv(Apply(s, Done(c)).value)
  {
    RunsAlone(s, c);
    var q := s.node.todo;
    assert s.running - {c} == {};
    if q != [] && q[0].number == s.node.number + 1 {
      NextKeeps(s, c);
      assert {} + {q[0]} == {q[0]};
    } else {
      IdleKeeps(s, c);
    }
  }

  lemma {:induction false} RunKeeps(tr: seq<Sys>, steps: seq<Step>, i: nat)
    requires IsRun(tr, steps) && i < |tr|
    ensures Inv(tr[i])
  {
    if i > 0 {
      RunKeeps(tr, steps, i - 1);
      match steps[i - 1]
      case Send(data) => SendKeeps(tr[i - 1], data);
      case Receive(c) => ReceiveKeeps(tr[i - 1], c);
      case Done(c) => DoneKeeps(tr[i - 1], c);
    }
  }

  /**
   * In every state of every run the calls that began are the first ones sent, in sending order and
   * once each; at most one runs; and the queue holds only calls whose turn has not come.
   */
  lemma OnewayOrder(tr: seq<Sys>, steps: seq<Step>, i: nat)
    requires IsRun(tr, steps) && i < |tr|
    ensures var s := tr[i];
      && s.started <= s.sent
      && (forall k :: 0 <= k < |s.started| ==> s.started[k].number == k)
      && (forall c, d :: c in s.running && d in s.running ==> c == d)
      && (forall c :: c in s.running ==> s.started != [] && c == s.started[|s.started| - 1])
      && (forall c :: c in s.node.todo ==> c.number > s.node.number && c !in s.started)
  {
    RunKeeps(tr, steps, i);
    var s := tr[i];
    assert forall c :: c in s.started ==> c.number < |s.started|;
  }

  /** The call whose turn it is is never stuck in the queue; once nothing travels or runs, all have run. */
  lemma NothingIsStuck(tr: seq<Sys>, steps: seq<Step>, i: nat)
    requires IsRun(tr, steps) && i < |tr|
    ensures var s := tr[i];
      && (s.node.number < |s.sent| ==> s.sent[s.node.number] in s.flight || s.sent[s.node.number] in s.running)
      && (s.flight == {} && s.running == {} ==> s.node.todo == [] && s.started == s.sent)
  {
    RunKeeps(tr, steps, i);
    var s := tr[i];
    if s.node.todo != [] { assert s.node.todo[0] in s.node.todo; }
  }

  // ----- nothing comes to a halt -----

  /** A call in its turn is always taken; one out of turn is queued exactly while fewer than 9999 wait. */
  lemma ReceiveEnabledIff(s: Sys, c: Call)
    requires c in s.flight
    ensures Apply(s, Receive(c)).Some? <==> c.number == s.node.number || |s.node.todo| < 9999
    ensures Apply(s, Receive(c)).Some? ==> var s' := Apply(s, Receive(c)).value;
      && s'.flight == s.flight - {c} && s'.sent == s.sent && s'.node.number == s.node.number
      && (c.number == s.node.number ==>
            s'.started == s.started + [c] && s'.running == s.running + {c} && s'.node.todo == s.node.todo)
      && (c.number != s.node.number ==>
            && s'.started == s.started && s'.running == s.running
            && |s'.node.todo| == |s.node.todo| + 1 && forall d :: d in s'.node.todo <==> d in s.node.todo || d == c)
  {
    PushAt(s.node.todo, c);
    PushMembers(s.node.todo, c);
  }

  /** A running call can always finish, as 2^64 - 1 calls are never exceeded. */
  lemma DoneEnabled(s: Sys, c: Call)
    requires Inv(s) && c in s.running && |s.sent| <= 0xFFFF_FFFF_FFFF_FFFF
    ensures Apply(s, Done(c)).Some?
  {
  }

  lemma {:induction false} SentWithin(tr: seq<Sys>, steps: seq<Step>, i: nat)
    requires IsRun(tr, steps) && i < |tr|
    ensures |tr[i].sent| <= 0xFFFF_FFFF_FFFF_FFFF
  {
    if i > 0 {
      SentWithin(tr, steps, i - 1);
      assert Apply(tr[i - 1], steps[i - 1]) == Some(tr[i]);
    }
  }

  /** The step that moves the order on: the call whose turn it is is executed, or done. */
  function Forward(s: Sys): Step
    requires s.node.number < |s.sent|
  {
    var c := s.sent[s.node.number];
    if c in s.running then Done(c) else Receive(c)
  }

  lemma ForwardEnabled(s: Sys)
    requires Inv(s) && |s.sent| <= 0xFFFF_FFFF_FFFF_FFFF && s.node.number < |s.sent|
    ensures Apply(s, Forward(s)).Some?
    ensures var s' := Apply(s, Forward(s)).value; Inv(s') && s'.sent == s.sent && Left(s') < Left(s)
  {
    var c := s.sent[s.node.number];
    if c in s.running {
      DoneEnabled(s, c);
      DoneKeeps(s, c);
      RunsAlone(s, c);
      DoneIs(s, c);
    } else {
      TurnTravels(s);
      ReceiveEnabledIff(s, c);
      ReceiveKeeps(s, c);
      TurnIsFree(s, c);
      assert s.running + {c} == {c};
    }
  }

  /** The call whose turn it is is not queued. */
  lemma TurnTravels(s: Sys)
    requires Inv(s) && s.node.number < |s.sent| && s.sent[s.node.number] !in s.running
    ensures s.sent[s.node.number] in s.flight
  {
  }

  /** How much is left to do: a call that runs is nearer to its end than one that has not begun. */
  function Left(s: Sys): int { 2 * (|s.sent| - s.node.number) - |s.running| }

  /**
   * In every state of every run in which calls are left there is a step that does not send and can be taken, so the
   * session is not stuck however many calls wait.
   */
  lemma SomeStepEnabled(tr: seq<Sys>, steps: seq<Step>, i: nat)
    requires IsRun(tr, steps) && i < |tr| && (tr[i].started != tr[i].sent || tr[i].running != {})
    ensures exists st: Step :: !st.Send? && Apply(tr[i], st).Some?
  {
    var s := tr[i];
    RunKeeps(tr, steps, i);
    SentWithin(tr, steps, i);
    if s.running != {} {
      var c :| c in s.running;
      DoneEnabled(s, c);
    } else {
      assert s.sent[..|s.sent|] == s.sent;
      ForwardEnabled(s);
      assert !Forward(s).Send?;
    }
  }

  /** Every step but a send uses up some of this, so that without sends each run ends. */
  function Weight(s: Sys): nat { 3 * |s.flight| + 2 * |s.node.todo| + |s.running| }

  lemma WeightFalls(s: Sys, st: Step)
    requires Inv(s) && !st.Send? && Apply(s, st).Some?
    ensures Weight(Apply(s, st).value) < Weight(s)
  {
    match st
    case Receive(c) => ReceiveEnabledIff(s, c);
    case Done(c) =>
      RunsAlone(s, c);
      DoneIs(s, c);
  }

  ghost predicate Leads(s: Sys, steps: seq<Step>, s': Sys)
    decreases |steps|
  {
    if steps == [] then s == s'
    else Apply(s, steps[0]).Some? && Leads(Apply(s, steps[0]).value, steps[1..], s')
  }

  /** From every such state all calls that were sent can be run to their end, each in its turn. */
  lemma {:induction false} AllCanRun(s: Sys) returns (steps: seq<Step>, s': Sys)
    requires Inv(s) && |s.sent| <= 0xFFFF_FFFF_FFFF_FFFF
    ensures Leads(s, steps, s') && forall i :: 0 <= i < |steps| ==> !steps[i].Send?
    ensures s'.sent == s.sent && s'.started == s.sent && s'.running == {} && s'.flight == {} && s'.node.todo == []
    decreases Left(s) + 1
  {
    if s.node.number == |s.sent| {
      steps, s' := [], s;
      AllDone(s);
    } else {
      ForwardEnabled(s);
      OneRuns(s);
      steps, s' := AllCanRun(Apply(s, Forward(s)).value);
      steps := [Forward(s)] + steps;
    }
  }

  lemma OneRuns(s: Sys)
    requires Inv(s)
    ensures |s.running| <= 1 && (s.node.number == |s.sent| ==> s.running == {}) && Left(s) >= 0
  {
    if s.running != {} {
      var c :| c in s.running;
      assert s.running == {c} by { assert forall d :: d in s.running ==> d == c; }
    }
  }

  lemma AllDone(s: Sys)
    requires Inv(s) && s.node.number == |s.sent|
    ensures s.started == s.sent && s.running == {} && s.flight == {} && s.node.todo == []
  {
    OneRuns(s);
    assert s.sent[..|s.sent|] == s.sent;
    TopQueued(s.node.todo);
  }

  lemma TopQueued(q: seq<Call>)
    ensures q == [] || q[0] in q
  {
  }
}
