/** The service manager as an object, each method proved against the steps of ServiceManager. */
module ServiceManagerObject {
  import opened Basics
  import opened ServiceManager

  class Object {
    var services: map<string, Service>
    var clientCallbacks: map<string, seq<nat>>
    var watchers: map<string, seq<nat>>
    var nextReg: nat
    ghost var trace: seq<Event>

    ghost function Now(): Manager
      reads this
    {
      Manager(services, clientCallbacks, watchers, nextReg, trace, false)
    }

    constructor ()
      ensures Now() == START
    {
      services, clientCallbacks, watchers, nextReg, trace := map[], map[], map[], 0, [];
    }

    method TryGetService(name: string, isolated: bool, canFind: bool) returns (out: Option<nat>)
      modifies this
      ensures Now() == DoGet(old(Now()), name, isolated, canFind)
      ensures out == if Granted(old(Now()), name, isolated, canFind) then Some(old(services)[name].binder) else None
      ensures out.Some? <==> name in old(services) && (old(services)[name].allowIsolated || !isolated) && canFind
      ensures out.Some? ==>
        && out == Some(services[name].binder) && services[name].guarantee
        && services == old(services)[name := old(services)[name].(guarantee := true)]
        && trace == old(trace) + [Handed(services[name].reg)]
      ensures out.None? ==> Now() == old(Now())
    {
      out := None;
      if name in services {
        if !services[name].allowIsolated && isolated { return None; }
        out := Some(services[name].binder);
      }
      if !canFind { return None; }
      if out.Some? {
        trace := trace + [Handed(services[name].reg)];
        services := services[name := services[name].(guarantee := true)];
      }
    }

    method AddService(name: string, r: AddRequest) returns (status: Status)
      modifies this
      ensures Now() == DoAdd(old(Now()), name, r) && status == AddStatus(r)
      ensures status == Security <==> r.isApp || !r.canAdd
      ensures status == IllegalArgument <==> !r.isApp && r.canAdd && (r.isNull || !r.validName || !r.declared)
      ensures status == Ok <==>
        !r.isApp && r.canAdd && !r.isNull && r.validName && r.declared && r.linked
      ensures status in {Ok, Security, IllegalArgument, IllegalState}
      ensures status != Ok ==> Now() == old(Now())
      ensures status == Ok ==>
        var watched := name in watchers && watchers[name] != [];
        && services == old(services)[name := Service(r.binder, r.allowIsolated, false, watched, r.pid, old(nextReg))]
        && trace == old(trace) + (if watched then [Handed(old(nextReg))] else []) && nextReg == old(nextReg) + 1
    {
      if r.isApp || !r.canAdd { return Security; }
      if r.isNull || !r.validName || !r.declared { return IllegalArgument; }
      if !r.linked { return IllegalState; }
      var reg := nextReg;
      services := services[name := NewService(r, reg)];
      nextReg := nextReg + 1;
      if name in watchers && watchers[name] != [] {
        services := services[name := services[name].(guarantee := true)];
        trace := trace + [Handed(reg)];
        assert services == old(services)[name := NewService(r, reg).(guarantee := true)];
      }
      status := Ok;
    }

    /**
     * The two checks are what the method asks for, of a name that is registered; every listener is called once, in
     * order. A name that is not registered is left alone.
     */
    method SendClientCallbackNotifications(name: string, clients: bool) returns (calls: seq<(nat, nat, bool)>)
      requires name in services ==> clients != services[name].hasClients && name in clientCallbacks
      modifies this
      ensures Now() == Send(old(Now()), name, clients)
      ensures name !in services ==> calls == [] && Now() == old(Now())
      ensures name in services ==> |calls| == |clientCallbacks[name]| && forall i :: 0 <= i < |calls| ==>
        calls[i] == (clientCallbacks[name][i], services[name].binder, clients)
    {
      if name !in services { return []; }
      var to := clientCallbacks[name];
      calls := [];
      for i := 0 to |to|
        invariant |calls| == i && forall j :: 0 <= j < i ==> calls[j] == (to[j], services[name].binder, clients)
      {
        calls := calls + [(to[i], services[name].binder, clients)];
      }
      trace := trace + [Sent(services[name].reg, clients, to)];
      services := services[name := services[name].(hasClients := clients)];
    }

    /** A client nobody has a record of is announced, and the guarantee is used up. */
    method SpendGuarantee(name: string, has: bool)
      requires Sane(Now()) && name in services && name in clientCallbacks
      modifies this
      ensures Now() == UseGuarantee(old(Now()), name, has) && Sane(Now()) && name in services
    {
      UseGuaranteeKeeps(Now(), name, has);
      if services[name].guarantee {
        if !services[name].hasClients && !has {
          var calls := SendClientCallbackNotifications(name, true);
        }
        services := services[name := services[name].(guarantee := false)];
      }
    }

    /** On an interval the service is told what the count says, if it has not been told already. */
    method AnnounceCount(name: string, has: bool)
      requires Sane(Now()) && name in services && name in clientCallbacks
      modifies this
      ensures Now() == Announce(old(Now()), name, has) && Sane(Now())
    {
      AnnounceKeeps(Now(), name, has);
      if has && !services[name].hasClients {
        var calls := SendClientCallbackNotifications(name, true);
      }
      if !has && services[name].hasClients {
        var calls := SendClientCallbackNotifications(name, false);
      }
    }

    /** `count` is the driver's answer; the result is what the caller sees. */
    method HandleServiceClientCallback(name: string, count: int, interval: bool) returns (r: int)
      requires Sane(Now())
      modifies this
      ensures Now() == Handle(old(Now()), name, count, interval) && Sane(Now())
      ensures if name in old(services) && name in old(clientCallbacks) && count != -1
        then r == count && services == old(services)[name := Counts(old(services)[name], count, interval)]
        else r == -1 && Now() == old(Now())
    {
      if name !in services || name !in clientCallbacks { return -1; }
      if count == -1 { return -1; }
      ghost var m := Now();
      HandleIs(m, name, count, interval);
      SpendGuarantee(name, count > 1);
      if interval {
        PassStaysSane(m, name, count);
        AnnounceCount(name, count > 1);
        trace := Pass(m, Now(), name).trace;
      }
      r := count;
    }

    method TryUnregisterService(name: string, binder: nat, isNull: bool, pid: nat, canAdd: bool, count: int)
      returns (status: Status)
      requires Inv(Now())
      modifies this
      ensures Now() == DoUnregister(old(Now()), name, binder, isNull, pid, canAdd, count) && Inv(Now())
      ensures status == UnregisterStatus(old(Now()), name, binder, isNull, pid, canAdd, count)
      ensures status == NullPointer <==> isNull
      ensures status == Security <==> !isNull && !canAdd
      ensures status == Unsupported <==> !isNull && canAdd && name in old(services) && old(services)[name].pid != pid
      ensures status == Ok <==>
        && !isNull && canAdd && name in old(services) && old(services)[name].pid == pid
        && old(services)[name].binder == binder && !old(services)[name].guarantee
        && name in clientCallbacks && 0 <= count <= 2
      ensures status in {Ok, NullPointer, Security, Unsupported, IllegalState}
      ensures status == Ok ==>
        services == old(services) - {name} && trace == old(trace) + [Unregistered(old(services)[name].reg)]
      ensures status != Ok ==> trace == old(trace)
      ensures status != Ok ==>
        var asked := !isNull && canAdd && name in old(services) && old(services)[name].pid == pid
          && old(services)[name].binder == binder;
        services == if asked then old(services)[name := old(services)[name].(guarantee := true)] else old(services)
    {
      UnregisterKeeps(Now(), name, binder, isNull, pid, canAdd, count);
      if isNull { return NullPointer; }
      if !canAdd { return Security; }
      if name !in services { return IllegalState; }
      if services[name].pid != pid { return Unsupported; }
      if services[name].binder != binder { return IllegalState; }
      if services[name].guarantee { return IllegalState; }
      var clients := HandleServiceClientCallback(name, count, false);
      if clients < 0 || clients > 2 {
        services := services[name := services[name].(guarantee := true)];
        return IllegalState;
      }
      trace := trace + [Unregistered(services[name].reg)];
      services := services - {name};
      status := Ok;
    }

    /** Services of the dead binder go, and so do its listeners. */
    method BinderDied(who: nat)
      modifies this
      ensures Now() == DoDied(old(Now()), who)
      ensures forall n :: n in services <==> n in old(services) && old(services)[n].binder != who
      ensures forall n :: n in services ==> services[n] == old(services)[n]
      ensures forall n, c :: (n in watchers && c in watchers[n]) <==>
        n in old(watchers) && c in old(watchers)[n] && c != who
      ensures forall n, c :: (n in clientCallbacks && c in clientCallbacks[n]) <==>
        n in old(clientCallbacks) && c in old(clientCallbacks)[n] && c != who
    {
      var left := services.Keys;
      var kept: map<string, Service> := map[];
      while left != {}
        invariant left <= services.Keys
        invariant kept == map n | n in services.Keys - left && services[n].binder != who :: services[n]
        decreases left
      {
        var n :| n in left;
        left := left - {n};
        if services[n].binder != who { kept := kept[n := services[n]]; }
      }
      services := kept;
      watchers := DropListener(watchers, who);
      clientCallbacks := DropListener(clientCallbacks, who);
      ListenersLeft(old(watchers), who);
      ListenersLeft(old(clientCallbacks), who);
    }
  }

  function NewService(r: AddRequest, reg: nat): Service {
    Service(r.binder, r.allowIsolated, false, false, r.pid, reg)
  }

  /** One listener list without the dead binder. */
  method DropFrom(cs: seq<nat>, who: nat) returns (r: seq<nat>)
    ensures r == Keep(cs, who)
  {
    r := [];
    var i := 0;
    assert cs[0..] == cs;
    while i < |cs|
      invariant i <= |cs| && r + Keep(cs[i..], who) == Keep(cs, who)
    {
      assert cs[i..][0] == cs[i] && cs[i..][1..] == cs[i + 1..];
      if cs[i] != who { r := r + [cs[i]]; }
      i := i + 1;
    }
  }

  /** Names whose list becomes empty disappear. */
  method DropListener(m: map<string, seq<nat>>, who: nat) returns (r: map<string, seq<nat>>)
    ensures r == KeepAll(m, who)
  {
    var left := m.Keys;
    r := map[];
    while left != {}
      invariant left <= m.Keys
      invariant r == map n | n in m.Keys - left && Keep(m[n], who) != [] :: Keep(m[n], who)
      decreases left
    {
      var n :| n in left;
      left := left - {n};
      var cs := DropFrom(m[n], who);
      if cs != [] { r := r[n := cs]; }
    }
  }
}
