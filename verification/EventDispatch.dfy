/**
 What event_base_loop does with an event base: how long it may sleep, which timeouts have run out,
 and one callback at a time.
 */
module EventDispatch {
  import opened Events
  import opened EventQueues
  import opened Lists
  import opened EventLoop
  import opened Options
  import MinHeap

  /**
    event_add_nolock_, with a time that is `absolute` or an interval. `answer` is what the event map
    says to the event: -1, 0 or 1.
   */
  method Add(base: EventBase, id: nat, tv: Option<Tv>, absolute: bool, now: Tv, answer: int) returns (r: int)
    requires base.Ok() && id < |base.evs| && base.evs[id].timerOf < 0 && base.evs[id].isEvent
    requires tv.Some? ==> GoodArgs(tv.value, absolute, now, |base.timers|)
    requires tv.Some? && absolute && Repeats(base.evs[id]) ==> Code(tv.value) == Code(base.evs[id].ioTimeout)
    modifies base
    ensures base.Ok() && |base.evs| == |old(base.evs)| && base.timers == old(base.timers)
    ensures r == if old(base.evs)[id].finalizing || (answer == -1 && Asks(old(base.evs)[id])) then -1 else 0
    ensures r == -1 ==> base.evs == old(base.evs)
    ensures r == 0 ==> base.evs[id] == Added(old(base.evs)[id], tv, absolute, now, |base.timers|)
    ensures forall x :: 0 <= x < |base.evs| && x != id && old(base.evs)[x].timerOf < 0 ==>
      base.evs[x] == old(base.evs)[x]
  {
    if base.evs[id].finalizing {
      return -1;
    }
    if Asks(base.evs[id]) {
      if answer == -1 {
        return -1;
      }
      TimersFrame(base.evs, base.lists, base.timers, id, base.evs[id].(inserted := true));
      base.InsertInserted(id);
    }
    if tv.Some? {
      base.AddTimeout(id, tv.value, absolute, now);
    }
    r := 0;
  }

  /** An event that was added: in the event map if it had to ask for that, and with its timeout, if one was given */
  function Added(e: Ev, tv: Option<Tv>, absolute: bool, now: Tv, n: nat): Ev {
    var e' := if Asks(e) then e.(inserted := true) else e;
    if tv.Some? then Scheduled(e', tv.value, absolute, now, n) else e'
  }

  /** The event map is asked to add the event. */
  predicate Asks(e: Ev) {
    e.io && !e.inserted && !e.active && !e.later
  }

  // ---------- sleeping ----------

  lemma {:induction false} NoneActive(base: EventBase, id: nat)
    requires base.Valid() && base.countActive == 0 && id < |base.evs|
    ensures !base.evs[id].active && !base.evs[id].later
  {
    var p := base.evs[id].pri;
    TotalAtLeast(base.active, p);
    assert base.active[p] == [] && base.later == [];
    NothingHeld(base.evs, Act(p), id);
    NothingHeld(base.evs, Lat, id);
  }

  lemma {:induction false} TotalAtLeast(qs: seq<seq<nat>>, p: nat)
    requires p < |qs|
    ensures Total(qs) >= |qs[p]|
  {
    if p > 0 {
      TotalAtLeast(qs[1..], p - 1);
    }
  }

  /** With nothing active, a pending timeout is in the heap or behind a timer that is there and not later. */
  lemma {:induction false} Covered(base: EventBase, id: nat) returns (t: nat)
    requires base.Ok() && base.countActive == 0 && id < |base.evs| && base.evs[id].timeout
    ensures t < |base.evs| && base.heap.idx[t] != -1 && !Later(base.evs[t].deadline, Masked(base.evs[id].deadline))
  {
    assert TimeFlags(base.evs[id], id, base.timers);
    t := id;
    if Code(base.evs[id].deadline) != 0 {
      t := BehindTimer(base, id);
      NoneActive(base, t);
    }
  }

  /** The timer of the list that an event is in: active, or in the heap and not later than the event. */
  lemma {:induction false} BehindTimer(base: EventBase, id: nat) returns (t: nat)
    requires base.Ok() && id < |base.evs| && base.evs[id].timeout && Code(base.evs[id].deadline) != 0
    ensures 0 <= Code(base.evs[id].deadline) - COMMON < |base.timers|
    ensures t == base.timers[Code(base.evs[id].deadline) - COMMON] < |base.evs|
    ensures || base.evs[t].active
            || (base.heap.idx[t] != -1 && !Later(base.evs[t].deadline, Masked(base.evs[id].deadline)))
  {
    assert TimeFlags(base.evs[id], id, base.timers);
    var i := Code(base.evs[id].deadline) - COMMON;
    var q := base.lists[i];
    t := base.timers[i];
    assert Holds(q, base.evs, Lst(i)) && Belongs(base.evs[id], Lst(i));
    var k := PlaceOf(q, id);
    MaskedOrder(q, base.evs, i);
    assert TimerOk(base.evs, q, t) && TimeFlags(base.evs[t], t, base.timers);
  }

  /** evutil_timersub */
  function TimerSub(a: Tv, b: Tv): Tv
    requires b.usec < MILLION
  {
    if a.usec >= b.usec then Tv(a.sec - b.sec, a.usec - b.usec) else Tv(a.sec - b.sec - 1, a.usec + MILLION - b.usec)
  }

  const ZERO := Tv(0, 0)

  /**
    timeout_next, which event_base_loop asks when nothing is active: how long to sleep, or None for
    ever. No pending timeout is slept past: with one that is not over yet, the sleep ends by its
    deadline, and with one that is over there is no sleep at all.
   */
  method TimeoutNext(base: EventBase, now: Tv) returns (sleep: Option<Tv>)
    requires base.Ok() && base.countActive == 0 && now.usec < MILLION
    ensures sleep.None? ==> forall id :: 0 <= id < |base.evs| ==> !base.evs[id].timeout
    ensures sleep.Some? ==> sleep.value.sec >= 0 && sleep.value.usec < MILLION
    ensures sleep.Some? ==> forall id :: 0 <= id < |base.evs| && base.evs[id].timeout ==>
      sleep.value == ZERO || !Later(TimerAdd(now, sleep.value), Masked(base.evs[id].deadline))
    ensures sleep.Some? && sleep.value != ZERO ==>
      exists id :: 0 <= id < |base.evs| && base.evs[id].timeout && TimerAdd(now, sleep.value) == base.evs[id].deadline
    ensures sleep == Some(ZERO) ==>
      exists id :: 0 <= id < |base.evs| && base.evs[id].timeout && !Later(base.evs[id].deadline, now)
  {
    if base.heap.n == 0 {
      forall id | 0 <= id < |base.evs|
        ensures !base.evs[id].timeout
      {
        if base.evs[id].timeout {
          var t := Covered(base, id);
          assert false;
        }
      }
      return None;
    }
    var top := base.heap.p[0];
    assert TimeFlags(base.evs[top], top, base.timers) && base.heap.idx[top] == 0;
    if !Later(base.evs[top].deadline, now) {
      return Some(ZERO);
    }
    sleep := Some(TimerSub(base.evs[top].deadline, now));
    assert TimerAdd(now, sleep.value) == base.evs[top].deadline;
    forall id | 0 <= id < |base.evs| && base.evs[id].timeout
      ensures !Later(base.evs[top].deadline, Masked(base.evs[id].deadline))
    {
      var t := Covered(base, id);
      MinHeap.TopIsEarliest(base.heap, base.evs, base.heap.idx[t]);
    }
  }

  // ---------- timeouts that have run out ----------

  /**
    timeout_process: the events of the heap whose deadline has come are made active. An event that
    has run out and is still pending afterwards is in the list of a common timeout whose timer is
    active.
   */
  method TimeoutProcess(base: EventBase, now: Tv)
    requires base.Ok()
    modifies base
    ensures base.Ok() && |base.evs| == |old(base.evs)| && base.timers == old(base.timers)
    ensures forall id :: 0 <= id < |base.evs| && base.evs[id].timeout && !Later(Masked(base.evs[id].deadline), now) ==>
      && 0 <= Code(base.evs[id].deadline) - COMMON < |base.timers|
      && base.timers[Code(base.evs[id].deadline) - COMMON] < |base.evs|
      && base.evs[base.timers[Code(base.evs[id].deadline) - COMMON]].active
    ensures forall id :: 0 <= id < |base.evs| ==> base.evs[id] == Expired(old(base.evs)[id], now)
  {
    hide Holds, Sorted, MinHeap.Ordered;
    ghost var evs0 := base.evs;
    while base.heap.n > 0
      invariant base.Ok() && |base.evs| == |evs0| && base.timers == old(base.timers)
      invariant forall id :: 0 <= id < |base.evs| ==>
        base.evs[id] == evs0[id] || base.evs[id] == Expired(evs0[id], now)
      invariant forall id :: 0 <= id < |base.evs| ==> (Due(base.evs[id], now) ==> base.evs[id] == evs0[id])
      decreases base.heap.n
    {
      var top := base.heap.p[0];
      if Later(base.evs[top].deadline, now) {
        break;
      }
      TimeUp(base, top, now);
    }
    forall id | 0 <= id < |base.evs|
      ensures !Due(base.evs[id], now)
    {
      if Due(base.evs[id], now) {
        MinHeap.TopIsEarliest(base.heap, base.evs, base.heap.idx[id]);
        assert false;
      }
    }
    forall id | 0 <= id < |base.evs| && base.evs[id].timeout && !Later(Masked(base.evs[id].deadline), now)
      ensures Code(base.evs[id].deadline) != 0 && base.evs[base.timers[Code(base.evs[id].deadline) - COMMON]].active
    {
      var t := BehindTimer(base, id);
    }
  }

  /** In the heap with a deadline that has come. */
  predicate Due(e: Ev, now: Tv) {
    e.timeout && Code(e.deadline) == 0 && !Later(e.deadline, now)
  }

  function Expired(e: Ev, now: Tv): Ev {
    if Due(e, now) then Activated(Idle(e), true) else e
  }

  method TimeUp(base: EventBase, id: nat, ghost now: Tv)
    requires base.Ok() && id < |base.evs| && Due(base.evs[id], now)
    modifies base
    ensures base.Ok() && base.evs == old(base.evs)[id := Expired(old(base.evs)[id], now)]
    ensures base.timers == old(base.timers) && base.heap.n == old(base.heap.n) - 1
  {
    hide ActiveOk, MinHeap.Ok, Sum, Sorted;
    ghost var evs0 := base.evs;
    assert TimeFlags(base.evs[id], id, base.timers);
    UpdateTwice(evs0, id, Idle(evs0[id]), Activated(Idle(evs0[id]), true));
    base.Del(id, false);
    base.MakeActive(id, true);
  }
}
