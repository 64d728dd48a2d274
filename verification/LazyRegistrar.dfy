/** The lazy registrar of a process: it unregisters all of its services or none, while others use the manager. */
module LazyRegistrar {
  import opened Basics
  import opened ServiceManager

  datatype Entry = Entry(service: nat, allowIsolated: bool, clients: bool, registered: bool)

  datatype Outcome = Exited | Kept | Aborted

  /**
   * What others do before our calls for a name, to unregister it and to add it again, and what the manager will see
   * and decide for it.
   */
  datatype World = World(others: map<string, seq<Step>>, again: map<string, seq<Step>>, counts: map<string, int>,
                         mayUnregister: set<string>, mayAdd: set<string>)

  /** Steps of other processes that change no binding: looking services up, and the manager's own passes. */
  ghost predicate Quiet(steps: seq<Step>) {
    forall i :: 0 <= i < |steps| ==> steps[i].Get? || steps[i].Interval?
  }

  ghost predicate Harmless(w: World) {
    (forall n :: n in w.others ==> Quiet(w.others[n])) && (forall n :: n in w.again ==> Quiet(w.again[n]))
  }

  /** The same names, each with the binder and the process it had. */
  ghost predicate SameServices(a: map<string, Service>, b: map<string, Service>) {
    a.Keys == b.Keys && forall n :: n in a ==> a[n].binder == b[n].binder && a[n].pid == b[n].pid
  }

  lemma SendSame(m: Manager, name: string, clients: bool)
    ensures SameServices(m.services, Send(m, name, clients).services)
  {
  }

  lemma HandleSame(m: Manager, name: string, count: int, interval: bool)
    ensures SameServices(m.services, Handle(m, name, count, interval).services)
  {
    if Counted(m, name, count) {
      var has := count > 1;
      var m1 := UseGuarantee(m, name, has);
      SendSame(m, name, true);
      assert SameServices(m.services, m1.services);
      SendSame(m1, name, true);
      var m2 := if has && !m1.services[name].hasClients then Send(m1, name, true) else m1;
      SendSame(m2, name, false);
      assert SameServices(m1.services, Announce(m1, name, has).services);
    }
  }

  /** Unregistering removes the one name or changes no binding. */
  lemma UnregisterEffect(m: Manager, name: string, binder: nat, pid: nat, canAdd: bool, count: int)
    ensures var m' := DoUnregister(m, name, binder, false, pid, canAdd, count);
      if UnregisterStatus(m, name, binder, false, pid, canAdd, count) == Ok
      then m'.services == m.services - {name} else SameServices(m.services, m'.services)
  {
    if Asks(m, name, binder, false, pid, canAdd) {
      assert Handle(m, name, count, false) == m;
    }
  }

  function After(m: Manager, steps: seq<Step>): Manager
    decreases |steps|
  {
    if steps == [] then m else After(Do(m, steps[0]), steps[1..])
  }

  lemma {:induction false} AfterSame(m: Manager, steps: seq<Step>)
    requires Quiet(steps)
    ensures SameServices(m.services, After(m, steps).services)
    decreases |steps|
  {
    if steps != [] {
      var m1 := Do(m, steps[0]);
      if steps[0].Interval? { HandleSame(m, steps[0].name, steps[0].count, true); }
      assert SameServices(m.services, m1.services);
      AfterSame(m1, steps[1..]);
    }
  }

  // ----- when the manager lets a service go -----

  /** The service is there, nobody is about to be told of a client, and it can be counted. */
  ghost predicate Idle(m: Manager, n: string) {
    n in m.services && !m.services[n].guarantee && n in m.clientCallbacks
  }

  lemma SendIdle(m: Manager, name: string, clients: bool, n: string)
    requires Idle(m, n)
    ensures Idle(Send(m, name, clients), n)
  {
  }

  lemma HandleIdle(m: Manager, name: string, count: int, n: string)
    requires Idle(m, n)
    ensures Idle(Handle(m, name, count, true), n)
  {
    if Counted(m, name, count) {
      var has := count > 1;
      var m1 := UseGuarantee(m, name, has);
      SendIdle(m, name, true, n);
      assert Idle(m1, n);
      SendIdle(m1, name, true, n);
      var m2 := if has && !m1.services[name].hasClients then Send(m1, name, true) else m1;
      SendIdle(m2, name, false, n);
    }
  }

  /** Nobody asks for the name. */
  ghost predicate NotAsked(steps: seq<Step>, n: string) {
    forall i :: 0 <= i < |steps| ==> !(steps[i].Get? && steps[i].name == n)
  }

  lemma {:induction false} AfterIdle(m: Manager, steps: seq<Step>, n: string)
    requires Quiet(steps) && NotAsked(steps, n) && Idle(m, n)
    ensures Idle(After(m, steps), n)
    decreases |steps|
  {
    if steps != [] {
      if steps[0].Interval? { HandleIdle(m, steps[0].name, steps[0].count, n); }
      AfterIdle(Do(m, steps[0]), steps[1..], n);
    }
  }

  /** The manager will let go of all these names: access is granted, no more than two references, nobody asks. */
  ghost predicate LetsGo(w: World, names: seq<string>) {
    forall n :: n in names ==>
      && n in w.mayUnregister && n in w.counts && 0 <= w.counts[n] <= 2
      && forall x :: x in w.others ==> NotAsked(w.others[x], n)
  }

  class Registrar {
    const pid: nat
    /** The registered services in the order of their names. */
    const names: seq<string>
    var entries: map<string, Entry>
    var numConnected: nat
    var forcePersist: bool
    /** What the callback for active services was last told. */
    var previous: Option<bool>
    /** The service manager, a process of its own. */
    var manager: Manager

    ghost predicate Valid()
      reads this
    {
      && (forall n :: n in entries <==> n in names)
      && (forall i, j :: 0 <= i < j < |names| ==> names[i] != names[j])
    }

    /** A process with the services it has registered so far. */
    constructor (manager: Manager, pid: nat, names: seq<string>, entries: map<string, Entry>)
      requires forall n :: n in entries <==> n in names
      requires forall i, j :: 0 <= i < j < |names| ==> names[i] != names[j]
      ensures Valid() && this.manager == manager && this.pid == pid && this.names == names && this.entries == entries
    {
      this.manager, this.pid, this.names, this.entries := manager, pid, names, entries;
      numConnected, forcePersist, previous := 0, false, None;
    }

    /** The manager has our binder under the name, as ours. */
    ghost predicate Home(n: string)
      reads this
    {
      && n in entries && n in manager.services
      && manager.services[n].binder == entries[n].service && manager.services[n].pid == pid
    }

    ghost predicate AllHome()
      reads this
    {
      forall n :: n in names ==> Home(n) && entries[n].registered
    }

    /** The services themselves never change, only their flags. */
    ghost predicate SameEntries(a: map<string, Entry>, b: map<string, Entry>) {
      a.Keys == b.Keys && forall n :: n in a ==> a[n].service == b[n].service && a[n].clients == b[n].clients
    }

    /** The call to `tryUnregisterService` for one name, after whatever others did before it. */
    method AskUnregister(n: string, w: World) returns (status: Status)
      requires n in entries && Harmless(w)
      modifies `manager
      ensures forall x :: old(Home(x)) && (x == n ==> status != Ok) ==> Home(x)
      ensures forall x :: x in manager.services ==> x in old(manager).services && (x == n ==> status != Ok)
      ensures n in names && LetsGo(w, names) && old(Idle(manager, n)) && old(Home(n)) ==> status == Ok
      ensures forall x :: x in names && x != n && LetsGo(w, names) && old(Idle(manager, x)) ==> Idle(manager, x)
    {
      var others := if n in w.others then w.others[n] else [];
      var canAdd, count := n in w.mayUnregister, if n in w.counts then w.counts[n] else -1;
      AfterSame(manager, others);
      var m := After(manager, others);
      forall x | x in names && LetsGo(w, names) && Idle(manager, x) ensures Idle(m, x) {
        AfterIdle(manager, others, x);
      }
      UnregisterEffect(m, n, entries[n].service, pid, canAdd, count);
      status := UnregisterStatus(m, n, entries[n].service, false, pid, canAdd, count);
      manager := DoUnregister(m, n, entries[n].service, false, pid, canAdd, count);
    }

    /** The flag is right: a registered name is home, any other is not taken. */
    ghost predicate Settled(n: string)
      reads this
    {
      n in entries && if entries[n].registered then Home(n) else n !in manager.services
    }

    /** The names from the i-th on are registered, and the manager has no reason to keep any of them. */
    ghost predicate IdleFrom(i: nat)
      reads this
    {
      forall j :: i <= j < |names| ==> Home(names[j]) && entries[names[j]].registered && Idle(manager, names[j])
    }

    ghost predicate AllSettled()
      reads this
    {
      forall n :: n in names ==> Settled(n)
    }

    /** One round of the unregistering loop. */
    method UnregisterOne(i: nat, w: World) returns (ok: bool)
      requires Valid() && i < |names| && Harmless(w) && AllSettled()
      modifies `entries, `manager
      ensures Valid() && AllSettled()
      ensures var n := names[i];
        entries == if ok then old(entries)[n := old(entries)[n].(registered := false)] else old(entries)
      ensures LetsGo(w, names) && old(IdleFrom(i)) ==> ok && IdleFrom(i + 1)
    {
      var n := names[i];
      var status := AskUnregister(n, w);
      ok := status == Ok;
      if ok { entries := entries[n := entries[n].(registered := false)]; }
    }

    /** Up to the first service that cannot be unregistered. */
    method TryUnregisterLocked(w: World) returns (ok: bool)
      requires Valid() && Harmless(w) && AllSettled()
      modifies `entries, `manager
      ensures Valid() && SameEntries(old(entries), entries) && AllSettled()
      ensures ok ==> forall n :: n in names ==> !entries[n].registered
      ensures old(IdleFrom(0)) && LetsGo(w, names) ==> ok
    {
      var i := 0;
      ghost var easy := IdleFrom(0) && LetsGo(w, names);
      while i < |names|
        invariant i <= |names| && Valid() && SameEntries(old(entries), entries) && AllSettled()
        invariant forall j :: 0 <= j < i ==> !entries[names[j]].registered
        invariant easy ==> IdleFrom(i)
      {
        ok := UnregisterOne(i, w);
        if !ok { return; }
        i := i + 1;
      }
      ok := true;
    }

    /**
     * `addService` as this process calls it, after whatever others did before; a name it has registered before needs
     * no new callback.
     */
    method RegisterAgain(n: string, w: World) returns (ok: bool)
      requires n in entries && Harmless(w)
      modifies `manager
      ensures ok <==> n in w.mayAdd
      ensures forall x :: old(Home(x)) ==> Home(x)
      ensures forall x :: x in manager.services ==> x in old(manager).services || (x == n && ok)
      ensures ok ==> Home(n)
    {
      var others := if n in w.again then w.again[n] else [];
      AfterSame(manager, others);
      var e, may := entries[n], n in w.mayAdd;
      var r := AddRequest(e.service, false, e.allowIsolated, pid, false, may, true, true, true);
      manager := DoAdd(After(manager, others), n, r);
      ok := AddStatus(r) == Ok;
    }

    /** One round of the loop that registers again. */
    method RegisterOne(n: string, w: World) returns (ok: bool)
      requires n in entries && Harmless(w)
      modifies `entries, `manager
      ensures ok <==> n in w.mayAdd
      ensures forall x :: old(Settled(x)) ==> Settled(x)
      ensures entries == if ok then old(entries)[n := old(entries)[n].(registered := true)] else old(entries)
    {
      ok := RegisterAgain(n, w);
      if ok { entries := entries[n := entries[n].(registered := true)]; }
    }

    method ReRegisterLocked(w: World) returns (ok: bool)
      requires Valid() && Harmless(w) && AllSettled()
      modifies `entries, `manager
      ensures Valid() && SameEntries(old(entries), entries)
      ensures ok ==> AllHome()
      ensures !ok ==> exists n :: n in names && n !in w.mayAdd
    {
      var i := 0;
      while i < |names|
        invariant i <= |names| && Valid() && SameEntries(old(entries), entries)
        invariant AllSettled()
        invariant forall j :: 0 <= j < i ==> entries[names[j]].registered
      {
        if !entries[names[i]].registered {
          ok := RegisterOne(names[i], w);
          if !ok { return; }
        }
        i := i + 1;
      }
      ok := true;
    }

    /** All or nothing: the process exits with none of its names left, or every name has its own binder again. */
    method TryShutdownLocked(w: World) returns (r: Outcome)
      requires Valid() && Harmless(w) && AllHome()
      modifies `entries, `manager
      ensures Valid() && SameEntries(old(entries), entries)
      ensures r == Exited ==> forall n :: n in names ==> n !in manager.services
      ensures r == Kept ==> AllHome()
      ensures r == Aborted ==> exists n :: n in names && n !in w.mayAdd
      ensures old(IdleFrom(0)) && LetsGo(w, names) ==> r == Exited
    {
      var gone := TryUnregisterLocked(w);
      if gone { return Exited; }
      var back := ReRegisterLocked(w);
      r := if back then Kept else Aborted;
    }

    /** The cached number of services with clients. */
    method Recount()
      requires Valid()
      modifies `numConnected
      ensures numConnected == Connected(names, entries)
    {
      numConnected := 0;
      var i := 0;
      assert names[..0] == [];
      while i < |names|
        invariant i <= |names| && numConnected == Connected(names[..i], entries)
      {
        assert names[..i + 1][..i] == names[..i];
        if entries[names[i]].clients { numConnected := numConnected + 1; }
        i := i + 1;
      }
      assert names[..i] == names;
    }

    /** Is the callback told, and does it answer that it takes care of things? */
    ghost predicate Handled(callback: Option<bool>)
      reads this
    {
      callback == Some(true) && previous != Some(numConnected != 0)
    }

    /**
     * No shutdown while a service has clients, the process is told to stay, or the callback for active services (if
     * one is set: what it would answer) takes care of the change it has not been told yet.
     */
    method MaybeTryShutdownLocked(w: World, callback: Option<bool>) returns (r: Outcome)
      requires Valid() && Harmless(w) && AllHome() && numConnected == Connected(names, entries)
      modifies `entries, `manager, `previous
      ensures Valid() && SameEntries(old(entries), entries)
      ensures previous == if !forcePersist && callback.Some? then Some(numConnected != 0) else old(previous)
      ensures forcePersist || numConnected != 0 || old(Handled(callback)) ==>
        r == Kept && manager == old(manager) && entries == old(entries)
      ensures r == Exited ==> forall n :: n in names ==> !old(entries)[n].clients && n !in manager.services
      ensures r == Kept ==> AllHome()
      ensures !forcePersist && numConnected == 0 && !old(Handled(callback)) && old(IdleFrom(0)) && LetsGo(w, names) ==>
        r == Exited
    {
      if forcePersist { return Kept; }
      var handled := false;
      if callback.Some? {
        var has := numConnected != 0;
        if Some(has) != previous {
          handled := callback.value;
          previous := Some(has);
        }
      }
      if handled || numConnected != 0 { return Kept; }
      ConnectedNone(names, entries);
      r := TryShutdownLocked(w);
    }

    /** The manager reports on one of our services; a second report of the same is fatal. */
    method OnClients(n: string, clients: bool, w: World, callback: Option<bool>) returns (r: Outcome)
      requires Valid() && n in names && Harmless(w) && AllHome()
      modifies `entries, `manager, `numConnected, `previous
      ensures Valid()
      ensures old(entries)[n].clients == clients ==> r == Aborted && entries == old(entries)
      ensures old(entries)[n].clients != clients ==>
        SameEntries(old(entries)[n := old(entries)[n].(clients := clients)], entries)
      ensures old(entries)[n].clients != clients && !forcePersist && callback.Some? ==>
        (previous == Some(true) <==> exists x :: x in names && entries[x].clients)
      ensures r == Exited ==> !forcePersist && (callback == Some(true) ==> old(previous) == Some(false))
      ensures r == Exited ==> forall x :: x in names ==> !entries[x].clients && x !in manager.services
      ensures r == Kept ==> AllHome()
    {
      if entries[n].clients == clients { return Aborted; }
      entries := entries[n := entries[n].(clients := clients)];
      Recount();
      ConnectedNone(names, entries);
      r := MaybeTryShutdownLocked(w, callback);
    }
  }

  /** How many of the names have clients. */
  ghost function Connected(names: seq<string>, entries: map<string, Entry>): nat
    requires forall n :: n in names ==> n in entries
  {
    if names == [] then 0
    else Connected(names[..|names| - 1], entries) + if entries[names[|names| - 1]].clients then 1 else 0
  }

  lemma {:induction false} ConnectedNone(names: seq<string>, entries: map<string, Entry>)
    requires forall n :: n in names ==> n in entries
    ensures Connected(names, entries) == 0 <==> forall n :: n in names ==> !entries[n].clients
  {
    if names != [] {
      ConnectedNone(names[..|names| - 1], entries);
      assert names == names[..|names| - 1] + [names[|names| - 1]];
    }
  }
}
