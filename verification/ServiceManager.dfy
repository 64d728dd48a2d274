/** The service manager: handing services out, telling them about clients, and taking them back. */
module ServiceManager {

  /** A registered service; `reg` numbers the registrations, it is not stored by the source. */
  datatype Service = Service(binder: nat, allowIsolated: bool, hasClients: bool, guarantee: bool, pid: nat, reg: nat)

  /** What happened to a registration, in order. */
  datatype Event =
    | Handed(reg: nat)
    | Sent(reg: nat, clients: bool, to: seq<nat>)
    | Passed(reg: nat, recorded: bool, told: bool)
    | Unregistered(reg: nat)

  datatype Manager = Manager(services: map<string, Service>, clientCallbacks: map<string, seq<nat>>,
                             watchers: map<string, seq<nat>>, nextReg: nat, trace: seq<Event>, failed: bool)

  datatype Status = Ok | Security | IllegalArgument | IllegalState | NullPointer | Unsupported

  /** What the caller and the system answer when a service is added. */
  datatype AddRequest = AddRequest(binder: nat, isNull: bool, allowIsolated: bool, pid: nat,
                                   isApp: bool, canAdd: bool, validName: bool, declared: bool, linked: bool)

  // ----- operations -----

  function Log(m: Manager, e: Event): Manager { m.(trace := m.trace + [e]) }

  /** The answer of `tryGetService`. */
  function Granted(m: Manager, name: string, isolated: bool, canFind: bool): bool {
    name in m.services && (m.services[name].allowIsolated || !isolated) && canFind
  }

  function DoGet(m: Manager, name: string, isolated: bool, canFind: bool): Manager {
    if Granted(m, name, isolated, canFind) then
      var s := m.services[name];
      Log(m.(services := m.services[name := s.(guarantee := true)]), Handed(s.reg))
    else m
  }

  function AddStatus(r: AddRequest): Status {
    if r.isApp then Security else if !r.canAdd then Security else if r.isNull then IllegalArgument
    else if !r.validName then IllegalArgument else if !r.declared then IllegalArgument
    else if !r.linked then IllegalState else Ok
  }

  /** A new registration replaces an old one; watchers are handed the binder at once. */
  function DoAdd(m: Manager, name: string, r: AddRequest): Manager {
    if AddStatus(r) != Ok then m
    else
      var watched := name in m.watchers && m.watchers[name] != [];
      var s := Service(r.binder, r.allowIsolated, false, watched, r.pid, m.nextReg);
      var m1 := m.(services := m.services[name := s], nextReg := m.nextReg + 1);
      if watched then Log(m1, Handed(s.reg)) else m1
  }

  /** `sendClientCallbackNotifications`; `failed` stands for its two checks. */
  function Send(m: Manager, name: string, clients: bool): Manager {
    if name !in m.services then m
    else
      var s := m.services[name];
      if clients == s.hasClients || name !in m.clientCallbacks then m.(failed := true)
      else
        Log(m.(services := m.services[name := s.(hasClients := clients)]),
            Sent(s.reg, clients, m.clientCallbacks[name]))
  }

  /** `handleServiceClientCallback` answers -1 without these. */
  predicate Counted(m: Manager, name: string, count: int) {
    name in m.services && name in m.clientCallbacks && count != -1
  }

  /** The guarantee is used up: a client nobody has a record of is announced. */
  function UseGuarantee(m: Manager, name: string, has: bool): (r: Manager)
    requires name in m.services
    ensures name in r.services
  {
    var s := m.services[name];
    if !s.guarantee then m
    else
      var m1 := if !s.hasClients && !has then Send(m, name, true) else m;
      m1.(services := m1.services[name := m1.services[name].(guarantee := false)])
  }

  function Announce(m: Manager, name: string, has: bool): (r: Manager)
    requires name in m.services
    ensures name in r.services
  {
    var m1 := if has && !m.services[name].hasClients then Send(m, name, true) else m;
    if !has && m1.services[name].hasClients then Send(m1, name, false) else m1
  }

  function Handle(m: Manager, name: string, count: int, interval: bool): Manager {
    if !Counted(m, name, count) then m
    else
      var m1 := UseGuarantee(m, name, count > 1);
      if interval then Pass(m, Announce(m1, name, count > 1), name) else m1
  }

  /** Notes that an interval pass over the service has ended, and whether it started with telling of clients. */
  function Pass(before: Manager, m: Manager, name: string): Manager
    requires name in before.services
  {
    var s, n := before.services[name], |before.trace|;
    var told := n < |m.trace| && m.trace[n].Sent? && m.trace[n].reg == s.reg && m.trace[n].clients;
    Log(m, Passed(s.reg, s.hasClients, told))
  }

  function UnregisterStatus(
    m: Manager, name: string, binder: nat, isNull: bool, pid: nat, canAdd: bool, count: int
  ): Status
  {
    if isNull then NullPointer else if !canAdd then Security else if name !in m.services then IllegalState
    else if m.services[name].pid != pid then Unsupported
    else if m.services[name].binder != binder then IllegalState
    else if m.services[name].guarantee then IllegalState
    else
      var clients := if Counted(m, name, count) then count else -1;
      if clients < 0 || clients > 2 then IllegalState else Ok
  }

  /** The checks of `tryUnregisterService` before it counts clients. */
  predicate Asks(m: Manager, name: string, binder: nat, isNull: bool, pid: nat, canAdd: bool) {
    && !isNull && canAdd && name in m.services && m.services[name].pid == pid
    && m.services[name].binder == binder && !m.services[name].guarantee
  }

  function DoUnregister(
    m: Manager, name: string, binder: nat, isNull: bool, pid: nat, canAdd: bool, count: int
  ): Manager
  {
    if !Asks(m, name, binder, isNull, pid, canAdd) then m
    else
      var m1 := Handle(m, name, count, false);
      if name !in m1.services then m1
      else if UnregisterStatus(m, name, binder, isNull, pid, canAdd, count) != Ok then
        m1.(services := m1.services[name := m1.services[name].(guarantee := true)])
      else Log(m1.(services := m1.services - {name}), Unregistered(m1.services[name].reg))
  }

  function Keep(cs: seq<nat>, who: nat): seq<nat> {
    if cs == [] then [] else (if cs[0] == who then [] else [cs[0]]) + Keep(cs[1..], who)
  }

  function KeepAll(m: map<string, seq<nat>>, who: nat): map<string, seq<nat>> {
    map n | n in m && Keep(m[n], who) != [] :: Keep(m[n], who)
  }

  lemma {:induction false} KeepMembers(cs: seq<nat>, who: nat)
    ensures forall c :: c in Keep(cs, who) <==> c in cs && c != who
    ensures multiset(Keep(cs, who)) == multiset(cs)[who := 0]
  {
    if cs != [] {
      KeepMembers(cs[1..], who);
      assert cs == [cs[0]] + cs[1..];
    }
  }

  /** Exactly the listeners of others are left. */
  lemma ListenersLeft(m: map<string, seq<nat>>, who: nat)
    ensures forall n, c :: (n in KeepAll(m, who) && c in KeepAll(m, who)[n]) <==> n in m && c in m[n] && c != who
    ensures forall n :: n in KeepAll(m, who) ==> KeepAll(m, who)[n] != []
  {
    forall n | n in m ensures forall c :: c in Keep(m[n], who) <==> c in m[n] && c != who {
      KeepMembers(m[n], who);
    }
  }

  function DoDied(m: Manager, who: nat): Manager {
    m.(services := map n | n in m.services && m.services[n].binder != who :: m.services[n],
       watchers := KeepAll(m.watchers, who), clientCallbacks := KeepAll(m.clientCallbacks, who))
  }

  datatype Step =
    | Get(name: string, isolated: bool, canFind: bool)
    | Add(name: string, request: AddRequest)
    | Interval(name: string, count: int)
    | TryUnregister(name: string, binder: nat, isNull: bool, pid: nat, canAdd: bool, count: int)
    | Died(who: nat)
    | ChangeListeners(clientCallbacks: map<string, seq<nat>>, watchers: map<string, seq<nat>>)

  /** Any request with any answer of the access checks and the driver; listeners may come and go. */
  function Do(m: Manager, a: Step): Manager {
    match a
    case Get(name, isolated, canFind) => DoGet(m, name, isolated, canFind)
    case Add(name, r) => DoAdd(m, name, r)
    case Interval(name, count) => Handle(m, name, count, true)
    case TryUnregister(name, binder, isNull, pid, canAdd, count) =>
      DoUnregister(m, name, binder, isNull, pid, canAdd, count)
    case Died(who) => DoDied(m, who)
    case ChangeListeners(c, w) => m.(clientCallbacks := c, watchers := w)
  }

  // ----- the invariant -----

  /** The values sent to a registration, in order. */
  function Values(tr: seq<Event>, reg: nat): seq<bool> {
    if tr == [] then []
    else
      var last := tr[|tr| - 1];
      Values(tr[..|tr| - 1], reg) + if last.Sent? && last.reg == reg then [last.clients] else []
  }

  /** The first tells of clients, and each of the others differs from the one before. */
  ghost predicate Alternates(vs: seq<bool>) {
    (vs != [] ==> vs[0]) && forall i :: 0 < i < |vs| ==> vs[i] != vs[i - 1]
  }

  function Last(vs: seq<bool>): bool { vs != [] && vs[|vs| - 1] }

  /** Every time the registration was handed out before `end`, a pass has since found or told it that it has clients. */
  ghost predicate CoveredTo(tr: seq<Event>, reg: nat, end: nat)
    requires end <= |tr|
  {
    forall i :: 0 <= i < end && tr[i] == Handed(reg) ==> CoveredFrom(tr, reg, i, end)
  }

  ghost predicate CoveredFrom(tr: seq<Event>, reg: nat, i: nat, end: nat)
    requires end <= |tr|
  {
    exists k :: i < k < end && tr[k].Passed? && tr[k].reg == reg && (tr[k].recorded || tr[k].told)
  }

  ghost predicate Covered(tr: seq<Event>, reg: nat) { CoveredTo(tr, reg, |tr|) }

  ghost predicate TraceOk(tr: seq<Event>, nextReg: nat) {
    && (forall i :: 0 <= i < |tr| ==> tr[i].reg < nextReg)
    && (forall r :: Alternates(Values(tr, r)))
    && (forall i :: 0 <= i < |tr| && tr[i].Unregistered? ==> CoveredTo(tr, tr[i].reg, i))
  }

  /** The record of a service says what was sent last. */
  ghost predicate Sane(m: Manager) {
    && !m.failed && TraceOk(m.trace, m.nextReg)
    && (forall n :: n in m.services ==> m.services[n].reg < m.nextReg)
    && (forall n :: n in m.services ==> m.services[n].hasClients == Last(Values(m.trace, m.services[n].reg)))
    && (forall n, n' :: n in m.services && n' in m.services && n != n' ==> m.services[n].reg != m.services[n'].reg)
  }

  /** A service without the guarantee has nothing outstanding. */
  ghost predicate AllCovered(m: Manager) {
    forall n :: n in m.services && !m.services[n].guarantee ==> Covered(m.trace, m.services[n].reg)
  }

  ghost predicate Inv(m: Manager) { Sane(m) && AllCovered(m) }

  // ----- one more event -----

  lemma LogValues(tr: seq<Event>, e: Event, r: nat)
    ensures Values(tr + [e], r) == Values(tr, r) + if e.Sent? && e.reg == r then [e.clients] else []
  {
    assert (tr + [e])[..|tr|] == tr;
  }

  lemma LogCoveredTo(tr: seq<Event>, e: Event, r: nat, end: nat)
    requires end <= |tr| && CoveredTo(tr, r, end)
    ensures CoveredTo(tr + [e], r, end)
  {
    var tr' := tr + [e];
    forall i: nat | i < end && tr'[i] == Handed(r) ensures CoveredFrom(tr', r, i, end) {
      assert tr[i] == Handed(r);
      var k :| i < k < end && tr[k].Passed? && tr[k].reg == r && (tr[k].recorded || tr[k].told);
      assert tr'[k] == tr[k];
    }
  }

  lemma LogCovered(tr: seq<Event>, e: Event, r: nat)
    requires Covered(tr, r) && e != Handed(r)
    ensures Covered(tr + [e], r)
  {
    var tr' := tr + [e];
    LogCoveredTo(tr, e, r, |tr|);
    forall i: nat | i < |tr'| && tr'[i] == Handed(r) ensures CoveredFrom(tr', r, i, |tr'|) {
      assert CoveredFrom(tr', r, i, |tr|);
    }
  }

  /** Events other than handing out leave nothing uncovered. */
  lemma {:induction false} MoreCovered(tr: seq<Event>, es: seq<Event>, r: nat)
    requires Covered(tr, r) && forall i :: 0 <= i < |es| ==> !es[i].Handed?
    ensures Covered(tr + es, r)
    decreases |es|
  {
    if es == [] {
      assert tr + es == tr;
    } else {
      LogCovered(tr, es[0], r);
      MoreCovered(tr + [es[0]], es[1..], r);
      assert tr + [es[0]] + es[1..] == tr + es;
    }
  }

  lemma LogTrace(tr: seq<Event>, e: Event, nextReg: nat)
    requires TraceOk(tr, nextReg) && e.reg < nextReg
    requires e.Sent? ==> e.clients != Last(Values(tr, e.reg))
    requires e.Unregistered? ==> Covered(tr, e.reg)
    ensures TraceOk(tr + [e], nextReg)
  {
    var tr' := tr + [e];
    forall r ensures Alternates(Values(tr', r)) {
      LogValues(tr, e, r);
      assert Alternates(Values(tr, r));
    }
    forall i: nat | i < |tr'| && tr'[i].Unregistered? ensures CoveredTo(tr', tr'[i].reg, i) {
      LogCoveredTo(tr, e, tr'[i].reg, i);
    }
  }

  /** A service gets new flags, and an event about it is logged. */
  lemma UpdateKeeps(m: Manager, name: string, s: Service, e: Event)
    requires Sane(m) && name in m.services && s.reg == m.services[name].reg == e.reg
    requires e.Sent? ==> e.clients == s.hasClients != m.services[name].hasClients
    requires !e.Sent? ==> s.hasClients == m.services[name].hasClients
    requires !e.Unregistered?
    ensures Sane(Log(m.(services := m.services[name := s]), e))
  {
    var m' := Log(m.(services := m.services[name := s]), e);
    LogTrace(m.trace, e, m.nextReg);
    forall n | n in m'.services
      ensures m'.services[n].hasClients == Last(Values(m'.trace, m'.services[n].reg))
    {
      UpdatedValue(m, name, s, e, n);
    }
  }

  lemma UpdatedValue(m: Manager, name: string, s: Service, e: Event, n: string)
    requires Sane(m) && name in m.services && n in m.services && s.reg == m.services[name].reg == e.reg
    requires e.Sent? ==> e.clients == s.hasClients
    requires !e.Sent? ==> s.hasClients == m.services[name].hasClients
    ensures var after := m.services[name := s][n]; after.hasClients == Last(Values(m.trace + [e], after.reg))
  {
    LogValues(m.trace, e, m.services[n].reg);
    assert n != name ==> m.services[n].reg != e.reg;
  }

  lemma NoteKeeps(m: Manager, name: string, e: Event)
    requires Sane(m) && name in m.services && e.reg == m.services[name].reg && !e.Sent? && !e.Unregistered?
    ensures Sane(Log(m, e))
  {
    assert m.services[name := m.services[name]] == m.services;
    UpdateKeeps(m, name, m.services[name], e);
  }

  /** Told once, told right: the checks of the notification hold. */
  lemma SendKeeps(m: Manager, name: string, clients: bool)
    requires Sane(m) && name in m.services && name in m.clientCallbacks && clients != m.services[name].hasClients
    ensures var s, m' := m.services[name], Send(m, name, clients);
      && Sane(m') && m'.services == m.services[name := s.(hasClients := clients)]
      && m'.trace == m.trace + [Sent(s.reg, clients, m.clientCallbacks[name])]
      && m'.clientCallbacks == m.clientCallbacks
  {
    var s := m.services[name];
    var e := Sent(s.reg, clients, m.clientCallbacks[name]);
    UpdateKeeps(m, name, s.(hasClients := clients), e);
  }

  /** The guarantee may change without any event. */
  lemma GuaranteeKeeps(m: Manager, name: string, guarantee: bool)
    requires Sane(m) && name in m.services
    ensures Sane(m.(services := m.services[name := m.services[name].(guarantee := guarantee)]))
  {
  }

  /** The service after its guarantee is used up. */
  function Spent(s: Service, has: bool): Service {
    s.(guarantee := false, hasClients := s.hasClients || (s.guarantee && !has))
  }

  lemma UseGuaranteeIs(m: Manager, name: string, has: bool)
    requires !m.failed && name in m.services && name in m.clientCallbacks
    ensures var s, m1 := m.services[name], UseGuarantee(m, name, has);
      && !m1.failed && m1.clientCallbacks == m.clientCallbacks && m1.services == m.services[name := Spent(s, has)]
      && m1.trace == m.trace +
           (if s.guarantee && !s.hasClients && !has then [Sent(s.reg, true, m.clientCallbacks[name])] else [])
  {
    var s := m.services[name];
    if s.guarantee {
      var s1 := if !s.hasClients && !has then s.(hasClients := true) else s;
      assert s1.(guarantee := false) == Spent(s, has);
      assert m.services[name := s1][name := Spent(s, has)] == m.services[name := Spent(s, has)];
    } else {
      assert m.services[name := s] == m.services;
    }
  }

  lemma UseGuaranteeKeeps(m: Manager, name: string, has: bool)
    requires Sane(m) && name in m.services && name in m.clientCallbacks
    ensures Sane(UseGuarantee(m, name, has))
  {
    var s := m.services[name];
    if s.guarantee && !s.hasClients && !has {
      SendKeeps(m, name, true);
      GuaranteeKeeps(Send(m, name, true), name, false);
    } else if s.guarantee {
      GuaranteeKeeps(m, name, false);
    }
  }

  lemma AnnounceIs(m: Manager, name: string, has: bool)
    requires !m.failed && name in m.services && name in m.clientCallbacks
    ensures var s, m1 := m.services[name], Announce(m, name, has);
      && m1.services == m.services[name := s.(hasClients := has)]
      && m1.trace == m.trace + (if has == s.hasClients then [] else [Sent(s.reg, has, m.clientCallbacks[name])])
  {
    var s := m.services[name];
    if has == s.hasClients {
      assert m.services[name := s.(hasClients := has)] == m.services;
    }
  }

  lemma AnnounceKeeps(m: Manager, name: string, has: bool)
    requires Sane(m) && name in m.services && name in m.clientCallbacks
    ensures Sane(Announce(m, name, has))
  {
    if has != m.services[name].hasClients { SendKeeps(m, name, has); }
  }

  /** The event that closes a pass covers all that came before. */
  lemma PassCovers(tr: seq<Event>, e: Event)
    requires e.Passed? && (e.recorded || e.told)
    ensures Covered(tr + [e], e.reg)
  {
    forall i: nat | i < |tr + [e]| && (tr + [e])[i] == Handed(e.reg)
      ensures CoveredFrom(tr + [e], e.reg, i, |tr + [e]|)
    {
      assert (tr + [e])[|tr|] == e;
    }
  }

  /** What a pass sends: first of a client nobody knew of, then what the count says now. */
  function PassEvents(s: Service, has: bool, to: seq<nat>): seq<Event> {
    (if s.guarantee && !s.hasClients && !has then [Sent(s.reg, true, to)] else [])
    + (if has == Spent(s, has).hasClients then [] else [Sent(s.reg, has, to)])
  }

  lemma PassIs(m: Manager, name: string, has: bool)
    requires !m.failed && name in m.services && name in m.clientCallbacks
    ensures var s, m2 := m.services[name], Announce(UseGuarantee(m, name, has), name, has);
      && m2.services == m.services[name := s.(guarantee := false, hasClients := has)]
      && m2.trace == m.trace + PassEvents(s, has, m.clientCallbacks[name])
  {
    var s, m1 := m.services[name], UseGuarantee(m, name, has);
    UseGuaranteeIs(m, name, has);
    AnnounceIs(m1, name, has);
    MapTwice(m.services, name, Spent(s, has), s.(guarantee := false, hasClients := has));
  }

  /** A service after its references were counted: the guarantee is gone, and a pass records what the count says. */
  function Counts(s: Service, count: int, interval: bool): Service {
    s.(guarantee := false,
       hasClients := if interval then count > 1 else s.hasClients || (s.guarantee && count <= 1))
  }

  lemma HandleIs(m: Manager, name: string, count: int, interval: bool)
    requires !m.failed && name in m.services && name in m.clientCallbacks && count != -1
    ensures Handle(m, name, count, interval).services == m.services[name := Counts(m.services[name], count, interval)]
  {
    PassIs(m, name, count > 1);
    UseGuaranteeIs(m, name, count > 1);
  }

  lemma PassSane(m: Manager, name: string, has: bool)
    requires Sane(m) && name in m.services && name in m.clientCallbacks
    ensures Sane(Announce(UseGuarantee(m, name, has), name, has))
  {
    UseGuaranteeIs(m, name, has);
    UseGuaranteeKeeps(m, name, has);
    AnnounceKeeps(UseGuarantee(m, name, has), name, has);
  }

  lemma MapTwice(m: map<string, Service>, name: string, s: Service, s': Service)
    ensures m[name := s][name := s'] == m[name := s']
  {
  }

  lemma PassCoverage(tr: seq<Event>, es: seq<Event>, e: Event, r: nat)
    requires (e.Passed? && e.reg == r && (e.recorded || e.told)) || Covered(tr, r)
    requires !e.Handed? && forall i :: 0 <= i < |es| ==> !es[i].Handed?
    ensures Covered(tr + es + [e], r)
  {
    if Covered(tr, r) {
      MoreCovered(tr, es + [e], r);
      assert tr + (es + [e]) == tr + es + [e];
    } else {
      PassCovers(tr + es, e);
    }
  }

  /** The event at the end of a pass tells of the guaranteed client. */
  lemma PassEnds(m: Manager, name: string, count: int) returns (es: seq<Event>, e: Event)
    requires !m.failed && Counted(m, name, count)
    ensures Handle(m, name, count, true) == Log(Announce(UseGuarantee(m, name, count > 1), name, count > 1), e)
    ensures es == PassEvents(m.services[name], count > 1, m.clientCallbacks[name])
    ensures e.Passed? && e.reg == m.services[name].reg && (m.services[name].guarantee ==> e.recorded || e.told)
  {
    var s, m2 := m.services[name], Announce(UseGuarantee(m, name, count > 1), name, count > 1);
    es := PassEvents(s, count > 1, m.clientCallbacks[name]);
    PassIs(m, name, count > 1);
    e := Pass(m, m2, name).trace[|m2.trace|];
    assert es != [] ==> m2.trace[|m.trace|] == es[0];
  }

  lemma PassStaysSane(m: Manager, name: string, count: int)
    requires Sane(m) && Counted(m, name, count)
    ensures Sane(Handle(m, name, count, true))
  {
    var m2 := Announce(UseGuarantee(m, name, count > 1), name, count > 1);
    var es, e := PassEnds(m, name, count);
    PassIs(m, name, count > 1);
    PassSane(m, name, count > 1);
    NoteKeeps(m2, name, e);
  }

  /** After a pass nothing is outstanding for the service it looked at. */
  lemma PassStaysCovered(m: Manager, name: string, count: int)
    requires !m.failed && AllCovered(m) && Counted(m, name, count)
    ensures AllCovered(Handle(m, name, count, true))
  {
    var s, m3 := m.services[name], Handle(m, name, count, true);
    var es, e := PassEnds(m, name, count);
    PassIs(m, name, count > 1);
    forall n | n in m3.services && !m3.services[n].guarantee ensures Covered(m3.trace, m3.services[n].reg) {
      if n != name { assert m3.services[n] == m.services[n]; }
      PassCoverage(m.trace, es, e, m3.services[n].reg);
    }
  }

  /** A service with the guarantee may be handed out. */
  lemma HandedKeeps(m: Manager, name: string)
    requires Inv(m) && name in m.services && m.services[name].guarantee
    ensures Inv(Log(m, Handed(m.services[name].reg)))
  {
    var s := m.services[name];
    var e := Handed(s.reg);
    NoteKeeps(m, name, e);
    forall n | n in m.services && !m.services[n].guarantee ensures Covered(m.trace + [e], m.services[n].reg) {
      LogCovered(m.trace, e, m.services[n].reg);
    }
  }

  lemma GetKeeps(m: Manager, name: string, isolated: bool, canFind: bool)
    requires Inv(m)
    ensures Inv(DoGet(m, name, isolated, canFind))
  {
    if Granted(m, name, isolated, canFind) {
      GuaranteeKeeps(m, name, true);
      HandedKeeps(m.(services := m.services[name := m.services[name].(guarantee := true)]), name);
    }
  }

  /** A registration number that was never used has no history. */
  lemma {:induction false} NoHistory(tr: seq<Event>, r: nat)
    requires forall i :: 0 <= i < |tr| ==> tr[i].reg < r
    ensures Values(tr, r) == [] && Covered(tr, r)
  {
    if tr != [] { NoHistory(tr[..|tr| - 1], r); }
  }

  lemma FreshKeeps(m: Manager, name: string, s: Service)
    requires Inv(m) && s.reg == m.nextReg && !s.hasClients
    ensures Inv(m.(services := m.services[name := s], nextReg := m.nextReg + 1))
  {
    NoHistory(m.trace, s.reg);
    var m1 := m.(services := m.services[name := s], nextReg := m.nextReg + 1);
    assert TraceOk(m1.trace, m1.nextReg);
    assert forall n :: n in m1.services && n != name ==> n in m.services && m1.services[n] == m.services[n];
  }

  lemma AddKeeps(m: Manager, name: string, r: AddRequest)
    requires Inv(m)
    ensures Inv(DoAdd(m, name, r))
  {
    if AddStatus(r) == Ok {
      var s := DoAdd(m, name, r).services[name];
      FreshKeeps(m, name, s);
      if s.guarantee { HandedKeeps(m.(services := m.services[name := s], nextReg := m.nextReg + 1), name); }
    }
  }

  lemma UnregisterKeeps(m: Manager, name: string, binder: nat, isNull: bool, pid: nat, canAdd: bool, count: int)
    requires Inv(m)
    ensures Inv(DoUnregister(m, name, binder, isNull, pid, canAdd, count))
  {
    if Asks(m, name, binder, isNull, pid, canAdd) {
      var s, m1 := m.services[name], Handle(m, name, count, false);
      assert m1 == m;
      if UnregisterStatus(m, name, binder, isNull, pid, canAdd, count) != Ok {
        GuaranteeKeeps(m, name, true);
      } else {
        RemoveKeeps(m, name);
      }
    }
  }

  lemma RemoveKeeps(m: Manager, name: string)
    requires Inv(m) && name in m.services && !m.services[name].guarantee
    ensures Inv(Log(m.(services := m.services - {name}), Unregistered(m.services[name].reg)))
  {
    var e := Unregistered(m.services[name].reg);
    var m' := Log(m.(services := m.services - {name}), e);
    LogTrace(m.trace, e, m.nextReg);
    forall n | n in m'.services
      ensures m'.services[n].hasClients == Last(Values(m'.trace, m'.services[n].reg))
      ensures !m'.services[n].guarantee ==> Covered(m'.trace, m'.services[n].reg)
    {
      LogValues(m.trace, e, m'.services[n].reg);
      if !m'.services[n].guarantee { LogCovered(m.trace, e, m'.services[n].reg); }
    }
  }

  lemma StepKeeps(m: Manager, a: Step)
    requires Inv(m)
    ensures Inv(Do(m, a))
  {
    match a
    case Get(name, isolated, canFind) => GetKeeps(m, name, isolated, canFind);
    case Add(name, r) => AddKeeps(m, name, r);
    case Interval(name, count) =>
      if Counted(m, name, count) {
        PassStaysSane(m, name, count);
        PassStaysCovered(m, name, count);
      }
    case TryUnregister(name, binder, isNull, pid, canAdd, count) =>
      UnregisterKeeps(m, name, binder, isNull, pid, canAdd, count);
    case Died(who) =>
    case ChangeListeners(c, w) =>
  }

  // ----- runs -----

  const START := Manager(map[], map[], map[], 0, [], false)

  function Run(steps: seq<Step>): Manager {
    if steps == [] then START else Do(Run(steps[..|steps| - 1]), steps[|steps| - 1])
  }

  lemma {:induction false} RunKeeps(steps: seq<Step>)
    ensures Inv(Run(steps))
  {
    if steps != [] {
      RunKeeps(steps[..|steps| - 1]);
      StepKeeps(Run(steps[..|steps| - 1]), steps[|steps| - 1]);
    }
  }

  /**
   * Between handing a registration out and taking it back there is an interval pass in which the service was already
   * on record as having clients or was told that it has.
   */
  lemma AnnouncedBeforeRemoval(steps: seq<Step>, i: nat, j: nat)
    requires i < j < |Run(steps).trace|
    requires Run(steps).trace[i].Handed? && Run(steps).trace[j] == Unregistered(Run(steps).trace[i].reg)
    ensures exists k :: i < k < j && var e := Run(steps).trace[k];
      e.Passed? && e.reg == Run(steps).trace[i].reg && (e.recorded || e.told)
  {
    RunKeeps(steps);
    var tr := Run(steps).trace;
    assert CoveredTo(tr, tr[j].reg, j);
    assert CoveredFrom(tr, tr[j].reg, i, j);
  }

  /** What a registration is told strictly alternates, beginning with clients; neither check ever fails. */
  lemma ToldInTurns(steps: seq<Step>, reg: nat, i: nat)
    requires i < |Values(Run(steps).trace, reg)|
    ensures var vs := Values(Run(steps).trace, reg); vs[0] && (i > 0 ==> vs[i] != vs[i - 1])
    ensures !Run(steps).failed
  {
    RunKeeps(steps);
    assert Alternates(Values(Run(steps).trace, reg));
  }

  // ----- the guarantee as its caller sees it -----

  function RunFrom(m: Manager, steps: seq<Step>): Manager
    decreases |steps|
  {
    if steps == [] then m else RunFrom(Do(m, steps[0]), steps[1..])
  }

  /** A pass over the name in which the driver could count its references. */
  predicate PassOver(a: Step, name: string) { a.Interval? && a.name == name && a.count != -1 }

  /** The registration, if it is still there, is under this name and carries the guarantee. */
  ghost predicate Guarded(m: Manager, name: string, reg: nat) {
    reg < m.nextReg && forall n :: n in m.services && m.services[n].reg == reg ==> n == name && m.services[n].guarantee
  }

  lemma GuardedPass(m: Manager, n: string, count: int, name: string, reg: nat)
    requires !m.failed && Guarded(m, name, reg) && Counted(m, n, count) && n != name
    ensures var m' := Handle(m, n, count, true);
      && Guarded(m', name, reg) && m.trace <= m'.trace
      && forall i :: |m.trace| <= i < |m'.trace| ==> m'.trace[i] != Unregistered(reg)
  {
    PassIs(m, n, count > 1);
    var es, e := PassEnds(m, n, count);
    assert forall i :: 0 <= i < |es| ==> es[i].Sent?;
    assert Handle(m, n, count, true).trace == m.trace + es + [e];
  }

  lemma GuardedStep(m: Manager, a: Step, name: string, reg: nat)
    requires Sane(m) && Guarded(m, name, reg) && !PassOver(a, name)
    ensures Guarded(Do(m, a), name, reg)
    ensures m.trace <= Do(m, a).trace
    ensures forall i :: |m.trace| <= i < |Do(m, a).trace| ==> Do(m, a).trace[i] != Unregistered(reg)
  {
    match a
    case Interval(n, count) => if Counted(m, n, count) { GuardedPass(m, n, count, name, reg); }
    case TryUnregister(n, binder, isNull, pid, canAdd, count) =>
      if Asks(m, n, binder, isNull, pid, canAdd) { assert Handle(m, n, count, false) == m; }
    case _ =>
  }

  lemma {:induction false} GuardedRun(m: Manager, steps: seq<Step>, name: string, reg: nat)
    requires Inv(m) && Guarded(m, name, reg)
    requires forall i :: 0 <= i < |steps| ==> !PassOver(steps[i], name)
    ensures var m' := RunFrom(m, steps);
      && Guarded(m', name, reg) && m.trace <= m'.trace
      && forall i :: |m.trace| <= i < |m'.trace| ==> m'.trace[i] != Unregistered(reg)
    decreases |steps|
  {
    if steps != [] {
      GuardedStep(m, steps[0], name, reg);
      StepKeeps(m, steps[0]);
      GuardedRun(Do(m, steps[0]), steps[1..], name, reg);
    }
  }

  /**
   * The law on calls: once a service was handed out, its owner cannot take the registration back, whatever is asked of
   * the manager in between, before an interval pass has looked at it and could count its references.
   */
  lemma KeptUntilPass(m: Manager, name: string, isolated: bool, canFind: bool, steps: seq<Step>)
    requires Inv(m) && name in m.services && (m.services[name].allowIsolated || !isolated) && canFind
    requires forall i :: 0 <= i < |steps| ==> !PassOver(steps[i], name)
    ensures var m1 := Do(m, Get(name, isolated, canFind));
      var m', reg := RunFrom(m1, steps), m.services[name].reg;
      && m1.trace == m.trace + [Handed(reg)] && m1.trace <= m'.trace
      && (forall i :: |m.trace| <= i < |m'.trace| ==> m'.trace[i] != Unregistered(reg))
      && forall n, binder, isNull, pid, canAdd, count :: n in m'.services && m'.services[n].reg == reg ==>
           UnregisterStatus(m', n, binder, isNull, pid, canAdd, count) != Ok
  {
    var m1, reg := Do(m, Get(name, isolated, canFind)), m.services[name].reg;
    GetKeeps(m, name, isolated, canFind);
    assert Guarded(m1, name, reg);
    GuardedRun(m1, steps, name, reg);
  }

  /** The same for a service that was handed to its watchers when it was added. */
  lemma WatchedUntilPass(m: Manager, name: string, r: AddRequest, steps: seq<Step>)
    requires Inv(m) && AddStatus(r) == Ok && name in m.watchers && m.watchers[name] != []
    requires forall i :: 0 <= i < |steps| ==> !PassOver(steps[i], name)
    ensures var m1 := Do(m, Add(name, r));
      var m', reg := RunFrom(m1, steps), m.nextReg;
      && m1.trace == m.trace + [Handed(reg)] && name in m1.services && m1.services[name].reg == reg
      && (forall i :: |m.trace| <= i < |m'.trace| ==> m'.trace[i] != Unregistered(reg))
      && forall n, binder, isNull, pid, canAdd, count :: n in m'.services && m'.services[n].reg == reg ==>
           UnregisterStatus(m', n, binder, isNull, pid, canAdd, count) != Ok
  {
    var m1, reg := Do(m, Add(name, r)), m.nextReg;
    AddKeeps(m, name, r);
    assert Guarded(m1, name, reg);
    GuardedRun(m1, steps, name, reg);
  }
}
