/** Counting binder proxies per uid in a packed word, with a limit that has hysteresis. */
module ProxyCount {
  const FLAG: nat := 0x8000_0000
  const WORD: nat := 0x1_0000_0000

  /** The limit flag is the top bit, the count the rest. */
  predicate Flagged(v: nat) { v % WORD >= FLAG }

  function Count(v: nat): nat { v % FLAG }

  function SetFlag(v: nat): nat { if Flagged(v) then v else v + FLAG }

  function ClearFlag(v: nat): nat { if Flagged(v) then v - FLAG else v }

  function Increment(v: nat): nat { (v + 1) % WORD }

  lemma Packed(v: nat)
    requires v < WORD
    ensures Count(v) == if Flagged(v) then v - FLAG else v
    ensures Count(SetFlag(v)) == Count(ClearFlag(v)) == Count(v)
    ensures Flagged(SetFlag(v)) && !Flagged(ClearFlag(v)) && SetFlag(v) < WORD && ClearFlag(v) < WORD
  {
  }

  /** One more proxy is one more on the count, and leaves the flag, exactly while the count has room. */
  lemma IncrementIff(v: nat)
    requires v < WORD
    ensures Count(Increment(v)) == Count(v) + 1 && (Flagged(Increment(v)) <==> Flagged(v)) <==> Count(v) < FLAG - 1
    ensures Increment(v) < WORD && Count(v) == v % 0x8000_0000 && (Flagged(v) <==> v >= 0x8000_0000)
  {
    Packed(v);
  }

  /** What the limit machinery did for a uid, in order. */
  datatype Event = Limit(uid: int, count: nat) | Cleared(uid: int)

  /**
   * The two maps, the live proxies by the uid they were counted for, and the history. A proxy counted for a negative
   * uid is never counted back, so for those `alive` is the number ever created.
   */
  datatype Tracker = Tracker(
    tracking: map<int, nat>, lastCallback: map<int, nat>, alive: map<int, nat>, trace: seq<Event>)

  function Get(m: map<int, nat>, uid: int): nat { if uid in m then m[uid] else 0 }

  /** Does creating a proxy now call the limit callback? */
  predicate Calls(t: Tracker, uid: int, high: nat) {
    var v, last := Get(t.tracking, uid), Get(t.lastCallback, uid);
    if Flagged(v) then Count(v) > last && Count(v) - last > high else Count(v) >= high
  }

  function DoCreate(t: Tracker, uid: int, high: nat): Tracker {
    var v := Get(t.tracking, uid);
    var t1 := if Calls(t, uid, high) then
        t.(tracking := t.tracking[uid := SetFlag(v)], lastCallback := t.lastCallback[uid := Count(v)],
           trace := t.trace + [Limit(uid, Count(v))])
      else t;
    t1.(
      tracking := t1.tracking[uid := Increment(Get(t1.tracking, uid))],
      alive := t.alive[uid := Get(t.alive, uid) + 1])
  }

  /** The tracking part of the destructor of a proxy counted for `uid`. */
  function DoDestroy(t: Tracker, uid: int, low: nat): Tracker {
    if uid < 0 then t
    else
      var t0 := t.(alive := if uid in t.alive && t.alive[uid] > 0 then t.alive[uid := t.alive[uid] - 1] else t.alive);
      var v := Get(t.tracking, uid);
      if Count(v) == 0 then t0.(tracking := t.tracking[uid := v])
      else
        var clears := Flagged(v) && Count(v) <= low;
        var w := (if clears then ClearFlag(v) else v) - 1;
        t0.(tracking := if w == 0 then t.tracking - {uid} else t.tracking[uid := w],
            lastCallback := if clears then t.lastCallback - {uid} else t.lastCallback,
            trace := if clears then t.trace + [Cleared(uid)] else t.trace)
  }

  // ----- the invariant -----

  /** The last thing that happened to a uid before position n; -1 if nothing. */
  function Latest(tr: seq<Event>, uid: int, n: nat): (k: int)
    requires n <= |tr|
    ensures -1 <= k < n && (k >= 0 ==> tr[k].uid == uid)
  {
    if n == 0 then -1 else if tr[n - 1].uid == uid then n - 1 else Latest(tr, uid, n - 1)
  }

  /** A limit callback that follows another without the flag being cleared comes with more than `high` new proxies. */
  ghost predicate Spaced(tr: seq<Event>, high: nat) {
    forall i :: 0 <= i < |tr| && tr[i].Limit? ==> SpacedAt(tr, high, i)
  }

  ghost predicate SpacedAt(tr: seq<Event>, high: nat, i: nat)
    requires i < |tr| && tr[i].Limit?
  {
    var k := Latest(tr, tr[i].uid, i);
    k >= 0 && tr[k].Limit? ==> tr[i].count > tr[k].count + high
  }

  ghost predicate UidOk(t: Tracker, uid: int, high: nat, low: nat) {
    var v := Get(t.tracking, uid);
    && v < WORD && Count(v) == Get(t.alive, uid)
    && (Flagged(v) ==> Count(v) >= low) && (!Flagged(v) ==> Count(v) <= high)
    && (Flagged(v) <==> Marked(t.trace, uid))
    && (Flagged(v) ==> uid in t.lastCallback && t.lastCallback[uid] == t.trace[Latest(t.trace, uid, |t.trace|)].count)
  }

  /** The last event of the uid is a limit callback. */
  ghost predicate Marked(tr: seq<Event>, uid: int) {
    var k := Latest(tr, uid, |tr|);
    k >= 0 && tr[k].Limit?
  }

  ghost predicate Inv(t: Tracker, high: nat, low: nat) {
    (forall uid :: UidOk(t, uid, high, low)) && Spaced(t.trace, high)
  }

  lemma {:induction false} LatestPrefix(tr: seq<Event>, e: Event, uid: int, n: nat)
    requires n <= |tr|
    ensures Latest(tr + [e], uid, n) == Latest(tr, uid, n)
  {
    if n > 0 && tr[n - 1].uid != uid { LatestPrefix(tr, e, uid, n - 1); }
  }

  /** An event of a uid is its latest, and changes no other's. */
  lemma LatestMore(tr: seq<Event>, e: Event, uid: int)
    ensures Latest(tr + [e], uid, |tr + [e]|) == if e.uid == uid then |tr| else Latest(tr, uid, |tr|)
  {
    LatestPrefix(tr, e, uid, |tr|);
  }

  lemma {:induction false} LatestIsLast(tr: seq<Event>, uid: int, n: nat, j: nat)
    requires j < n <= |tr| && tr[j].uid == uid
    ensures Latest(tr, uid, n) >= j
  {
    if tr[n - 1].uid != uid { LatestIsLast(tr, uid, n - 1, j); }
  }

  lemma SpacedMore(tr: seq<Event>, e: Event, high: nat)
    requires Spaced(tr, high)
    requires e.Limit? && Marked(tr, e.uid) ==> e.count > tr[Latest(tr, e.uid, |tr|)].count + high
    ensures Spaced(tr + [e], high)
  {
    var tr' := tr + [e];
    forall i: nat | i < |tr'| && tr'[i].Limit? ensures SpacedAt(tr', high, i) {
      LatestPrefix(tr, e, tr'[i].uid, i);
      if i < |tr| { assert SpacedAt(tr, high, i); }
    }
  }

  /** Uids are independent. */
  lemma OtherUid(t: Tracker, t': Tracker, uid: int, other: int, high: nat, low: nat)
    requires UidOk(t, other, high, low) && other != uid
    requires Get(t'.tracking, other) == Get(t.tracking, other) && Get(t'.alive, other) == Get(t.alive, other)
    requires other in t.lastCallback ==> other in t'.lastCallback && t'.lastCallback[other] == t.lastCallback[other]
    requires t'.trace == t.trace ||
      (|t'.trace| == |t.trace| + 1 && t'.trace[..|t.trace|] == t.trace && t'.trace[|t.trace|].uid == uid)
    ensures UidOk(t', other, high, low)
  {
    if t'.trace != t.trace {
      var e := t'.trace[|t.trace|];
      assert t'.trace == t.trace + [e];
      LatestMore(t.trace, e, other);
    }
  }

  lemma CreateOwn(t: Tracker, uid: int, high: nat, low: nat)
    requires Inv(t, high, low) && high > low >= 1 && Get(t.alive, uid) < FLAG - 1
    ensures UidOk(DoCreate(t, uid, high), uid, high, low) && Spaced(DoCreate(t, uid, high).trace, high)
  {
    assert UidOk(t, uid, high, low);
    var v := Get(t.tracking, uid);
    Packed(v);
    IncrementIff(v);
    IncrementIff(SetFlag(v));
    if Calls(t, uid, high) {
      var e := Limit(uid, Count(v));
      LatestMore(t.trace, e, uid);
      SpacedMore(t.trace, e, high);
    }
  }

  lemma CreateKeeps(t: Tracker, uid: int, high: nat, low: nat)
    requires Inv(t, high, low) && high > low >= 1 && Get(t.alive, uid) < FLAG - 1
    ensures Inv(DoCreate(t, uid, high), high, low)
  {
    CreateOwn(t, uid, high, low);
    var t' := DoCreate(t, uid, high);
    forall other ensures UidOk(t', other, high, low) {
      assert UidOk(t, other, high, low);
      if other != uid { OtherUid(t, t', uid, other, high, low); }
    }
  }

  lemma DestroyOwn(t: Tracker, uid: int, high: nat, low: nat)
    requires Inv(t, high, low) && uid >= 0 && high > low >= 1 && Get(t.alive, uid) > 0
    ensures UidOk(DoDestroy(t, uid, low), uid, high, low) && Spaced(DoDestroy(t, uid, low).trace, high)
  {
    assert UidOk(t, uid, high, low);
    var v := Get(t.tracking, uid);
    Packed(v);
    Packed(v - 1);
    Packed(ClearFlag(v) - 1);
    if Flagged(v) && Count(v) <= low {
      LatestMore(t.trace, Cleared(uid), uid);
      SpacedMore(t.trace, Cleared(uid), high);
    }
  }

  lemma DestroyKeeps(t: Tracker, uid: int, high: nat, low: nat)
    requires Inv(t, high, low) && high > low >= 1 && uid >= 0 && Get(t.alive, uid) > 0
    ensures Inv(DoDestroy(t, uid, low), high, low)
  {
    DestroyOwn(t, uid, high, low);
    var t' := DoDestroy(t, uid, low);
    forall other ensures UidOk(t', other, high, low) {
      assert UidOk(t, other, high, low);
      if other != uid { OtherUid(t, t', uid, other, high, low); }
    }
  }

  // ----- runs -----

  datatype Step = Create(uid: int) | Destroy(uid: int)

  /** Only a proxy that is alive is destroyed, and fewer than 2^31 - 1 are alive for a uid. */
  ghost predicate Enabled(t: Tracker, a: Step) {
    match a
    case Create(uid) => Get(t.alive, uid) < FLAG - 1
    case Destroy(uid) => Get(t.alive, uid) > 0
  }

  function Do(t: Tracker, a: Step, high: nat, low: nat): Tracker {
    match a
    case Create(uid) => DoCreate(t, uid, high)
    case Destroy(uid) => DoDestroy(t, uid, low)
  }

  ghost predicate Leads(t: Tracker, a: Step, t': Tracker, high: nat, low: nat) {
    Enabled(t, a) && t' == Do(t, a, high, low)
  }

  ghost predicate IsRun(ts: seq<Tracker>, steps: seq<Step>, high: nat, low: nat) {
    && |ts| == |steps| + 1 && ts[0] == Tracker(map[], map[], map[], [])
    && forall i {:trigger steps[i]} :: 0 <= i < |steps| ==> Leads(ts[i], steps[i], ts[i + 1], high, low)
  }

  lemma {:induction false} RunKeeps(ts: seq<Tracker>, steps: seq<Step>, high: nat, low: nat, n: nat)
    requires IsRun(ts, steps, high, low) && high > low >= 1 && n < |ts|
    ensures Inv(ts[n], high, low)
  {
    if n > 0 {
      RunKeeps(ts, steps, high, low, n - 1);
      var t, a := ts[n - 1], steps[n - 1];
      assert Leads(t, a, ts[n], high, low);
      if a.Create? { CreateKeeps(t, a.uid, high, low); } else if a.uid >= 0 { DestroyKeeps(t, a.uid, high, low); }
    }
  }

  /** In every state of a run the masked count is the number of live proxies, and the flag lags between the marks. */
  lemma CountIsAlive(ts: seq<Tracker>, steps: seq<Step>, high: nat, low: nat, n: nat, uid: int)
    requires IsRun(ts, steps, high, low) && high > low >= 1 && n < |ts|
    ensures var v := Get(ts[n].tracking, uid);
      && Count(v) == Get(ts[n].alive, uid)
      && (Flagged(v) ==> Count(v) >= low) && (!Flagged(v) ==> Count(v) <= high)
  {
    RunKeeps(ts, steps, high, low, n);
    assert UidOk(ts[n], uid, high, low);
  }

  lemma {:induction false} SpacedApart(tr: seq<Event>, high: nat, i: nat, j: nat)
    requires Spaced(tr, high) && i < j < |tr| && tr[i].Limit? && tr[j].Limit? && tr[i].uid == tr[j].uid
    requires forall k :: i < k < j ==> tr[k] != Cleared(tr[i].uid)
    ensures tr[j].count > tr[i].count + high
    decreases j
  {
    LatestIsLast(tr, tr[j].uid, j, i);
    var k := Latest(tr, tr[j].uid, j);
    assert SpacedAt(tr, high, j);
    if i < k {
      assert tr[k] != Cleared(tr[i].uid);
      SpacedApart(tr, high, i, k);
    }
  }

  /** Between two callbacks for a uid the count grew by more than the high mark, or the flag was cleared. */
  lemma CallbacksSpaced(ts: seq<Tracker>, steps: seq<Step>, high: nat, low: nat, n: nat, i: nat, j: nat)
    requires IsRun(ts, steps, high, low) && high > low >= 1 && n < |ts|
    requires var tr := ts[n].trace; i < j < |tr| && tr[i].Limit? && tr[j].Limit? && tr[i].uid == tr[j].uid
    ensures var tr := ts[n].trace;
      tr[j].count > tr[i].count + high || exists k :: i < k < j && tr[k] == Cleared(tr[i].uid)
  {
    RunKeeps(ts, steps, high, low, n);
    var tr := ts[n].trace;
    if forall k :: i < k < j ==> tr[k] != Cleared(tr[i].uid) { SpacedApart(tr, high, i, j); }
  }

  /** How many proxies the last callback for a uid reported, if the flag was not cleared since; -1 otherwise. */
  ghost function LastReported(tr: seq<Event>, uid: int): int {
    var k := Latest(tr, uid, |tr|);
    if k >= 0 && tr[k].Limit? then tr[k].count else -1
  }

  /**
   * In every state of every run, creating a proxy calls back exactly if the uid has at least `high` proxies and no
   * callback stands, or more than `high` beyond what the standing one reported; and it reports the number there is.
   */
  lemma CallsExactly(ts: seq<Tracker>, steps: seq<Step>, high: nat, low: nat, n: nat, uid: int)
    requires IsRun(ts, steps, high, low) && high > low >= 1 && n < |ts|
    ensures var t := ts[n];
      var last, t' := LastReported(t.trace, uid), DoCreate(t, uid, high);
      t'.trace ==
        if (if last < 0 then Get(t.alive, uid) >= high else Get(t.alive, uid) > last + high)
        then t.trace + [Limit(uid, Get(t.alive, uid))] else t.trace
  {
    RunKeeps(ts, steps, high, low, n);
    assert UidOk(ts[n], uid, high, low);
    Packed(Get(ts[n].tracking, uid));
  }

  /** And destroying one clears the flag exactly if a callback stands and no more than `low` proxies are left. */
  lemma ClearsExactly(ts: seq<Tracker>, steps: seq<Step>, high: nat, low: nat, n: nat, uid: int)
    requires IsRun(ts, steps, high, low) && high > low >= 1 && n < |ts|
    ensures var t := ts[n];
      DoDestroy(t, uid, low).trace ==
        if uid >= 0 && LastReported(t.trace, uid) >= 0 && 0 < Get(t.alive, uid) <= low
        then t.trace + [Cleared(uid)] else t.trace
  {
    RunKeeps(ts, steps, high, low, n);
    assert UidOk(ts[n], uid, high, low);
    Packed(Get(ts[n].tracking, uid));
  }

  // ----- the code -----

  class ProxyTracker {
    const high: nat
    const low: nat
    var trackingMap: map<int, nat>
    var lastLimitCallbackMap: map<int, nat>
    ghost var alive: map<int, nat>
    ghost var trace: seq<Event>

    ghost function Now(): Tracker
      reads this
    {
      Tracker(trackingMap, lastLimitCallbackMap, alive, trace)
    }

    constructor (high: nat, low: nat)
      ensures Now() == Tracker(map[], map[], map[], []) && this.high == high && this.low == low
    {
      this.high, this.low := high, low;
      trackingMap, lastLimitCallbackMap, alive, trace := map[], map[], map[], [];
    }

    /** The counting part of `create`; answers whether the limit callback is called. */
    method Created(uid: int) returns (called: bool)
      modifies this
      ensures Now() == DoCreate(old(Now()), uid, high) && called == Calls(old(Now()), uid, high)
    {
      var v := Get(trackingMap, uid);
      called := false;
      if Flagged(v) {
        var count, last := Count(v), Get(lastLimitCallbackMap, uid);
        if count > last && count - last > high {
          called := true;
          trackingMap := trackingMap[uid := v];
          lastLimitCallbackMap := lastLimitCallbackMap[uid := count];
          trace := trace + [Limit(uid, count)];
        }
      } else if Count(v) >= high {
        called := true;
        trackingMap := trackingMap[uid := SetFlag(v)];
        lastLimitCallbackMap := lastLimitCallbackMap[uid := Count(v)];
        trace := trace + [Limit(uid, Count(v))];
      }
      trackingMap := trackingMap[uid := Increment(Get(trackingMap, uid))];
      alive := alive[uid := Get(alive, uid) + 1];
    }

    /** The counting part of the destructor of a live proxy. */
    method Destroyed(uid: int)
      requires Get(alive, uid) > 0
      modifies this
      ensures Now() == DoDestroy(old(Now()), uid, low)
    {
      if uid >= 0 {
        alive := alive[uid := Get(alive, uid) - 1];
        var v := Get(trackingMap, uid);
        if Count(v) == 0 {
          trackingMap := trackingMap[uid := v];
        } else {
          var w := v;
          if Flagged(v) && Count(v) <= low {
            w := ClearFlag(v);
            lastLimitCallbackMap := lastLimitCallbackMap - {uid};
            trace := trace + [Cleared(uid)];
          }
          w := w - 1;
          trackingMap := if w == 0 then trackingMap - {uid} else trackingMap[uid := w];
        }
      }
    }
  }
}
