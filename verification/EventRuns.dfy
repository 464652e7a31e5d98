/**
 Running callbacks, making callbacks active that were put off, and common timeouts.
 */
module EventRuns {
  import opened Events
  import opened EventQueues
  import opened Lists
  import opened EventLoop
  import opened EventDispatch
  import opened Options
  import MinHeap

  /** One event of a common timeout has run out: the body of the loop of common_timeout_callback. */
  method Fire(base: EventBase, i: nat)
    requires base.Valid() && i < |base.lists| && base.lists[i] != [] && TimersBut(base.evs, base.lists, base.timers, i)
    modifies base
    ensures base.Valid() && base.timers == old(base.timers) && TimersBut(base.evs, base.lists, base.timers, i)
    ensures |base.lists| == |old(base.lists)| && base.lists[i] == old(base.lists)[i][1..]
    ensures old(base.lists)[i][0] < |old(base.evs)|
    ensures base.evs == (var id := old(base.lists)[i][0]; old(base.evs)[id := Activated(Idle(old(base.evs)[id]), true)])
  {
    var id := base.lists[i][0];
    ghost var evs0, lists0 := base.evs, base.lists;
    assert Holds(base.lists[i], base.evs, Lst(i)) && Belongs(base.evs[id], Lst(i));
    assert TimeFlags(base.evs[id], id, base.timers);
    ghost var e := Activated(Idle(evs0[id]), true);
    TimersAfterDel(evs0, lists0, base.timers, id, e, i);
    UpdateTwice(evs0, id, Idle(evs0[id]), e);
    base.Del(id, false);
    base.MakeActive(id, true);
    assert base.lists == MinusAll(lists0, id);
  }

  /**
    The first `n` events of a list had run out and are active because of it; no other event, the
    timers of common timeouts aside, has changed.
   */
  ghost predicate Fired(was: seq<Ev>, evs: seq<Ev>, q: seq<nat>, n: nat, now: Tv)
    requires n <= |q|
  {
    && |evs| == |was|
    && (forall k :: 0 <= k < n ==>
          && q[k] < |was| && was[q[k]].timerOf < 0 && !Later(Masked(was[q[k]].deadline), now)
          && evs[q[k]] == Activated(Idle(was[q[k]]), true))
    && (forall x :: 0 <= x < |was| && x !in q[..n] && was[x].timerOf < 0 ==> evs[x] == was[x])
  }

  lemma {:induction false} FiredMore(was: seq<Ev>, evs: seq<Ev>, q: seq<nat>, n: nat, now: Tv)
    requires n < |q| && NoDup(q) && Fired(was, evs, q, n, now) && q[n] < |was| && was[q[n]].timerOf < 0
    requires !Later(Masked(evs[q[n]].deadline), now)
    ensures Fired(was, evs[q[n] := Activated(Idle(evs[q[n]]), true)], q, n + 1, now)
  {
    hide Later, Masked, Activated, Idle;
    assert q[..n + 1] == q[..n] + [q[n]];
    assert q[n] !in q[..n];
  }

  lemma {:induction false} FiredTimer(was: seq<Ev>, evs: seq<Ev>, q: seq<nat>, n: nat, now: Tv, t: nat, e: Ev)
    requires n <= |q| && Fired(was, evs, q, n, now) && t < |was| && was[t].timerOf >= 0
    ensures Fired(was, evs[t := e], q, n, now)
  {
  }

  lemma {:induction false} ListFacts(evs: seq<Ev>, heap: MinHeap.Heap, lists: seq<seq<nat>>, timers: seq<nat>, i: nat)
    requires TimeOk(evs, heap, lists, timers) && i < |lists|
    ensures NoDup(lists[i]) && forall k :: 0 <= k < |lists[i]| ==> lists[i][k] < |evs| && evs[lists[i][k]].timerOf < 0
    ensures timers[i] < |evs| && evs[timers[i]].timerOf == i
  {
    assert Holds(lists[i], evs, Lst(i));
    forall k | 0 <= k < |lists[i]|
      ensures lists[i][k] < |evs| && evs[lists[i][k]].timerOf < 0
    {
      assert TimeFlags(evs[lists[i][k]], lists[i][k], timers) && Belongs(evs[lists[i][k]], Lst(i));
    }
  }

  lemma {:induction false} ListOf(base: EventBase, i: nat)
    requires base.Valid() && i < |base.lists|
    ensures NoDup(base.lists[i]) && forall k :: 0 <= k < |base.lists[i]| ==>
      base.lists[i][k] < |base.evs| && base.evs[base.lists[i][k]].timerOf < 0
    ensures |base.timers| == |base.lists| && base.timers[i] < |base.evs| && base.evs[base.timers[i]].timerOf == i
  {
    ListFacts(base.evs, base.heap, base.lists, base.timers, i);
  }

  /** The loop of common_timeout_callback */
  method FireAll(base: EventBase, i: nat, now: Tv) returns (ghost n: nat)
    requires base.Valid() && i < |base.lists| && TimersBut(base.evs, base.lists, base.timers, i)
    modifies base
    ensures base.Valid() && base.timers == old(base.timers) && |base.evs| == |old(base.evs)|
    ensures |base.lists| == |old(base.lists)|
    ensures TimersBut(base.evs, base.lists, base.timers, i)
    ensures n <= |old(base.lists)[i]| && base.lists[i] == old(base.lists)[i][n..]
    ensures Fired(old(base.evs), base.evs, old(base.lists)[i], n, now)
    ensures base.lists[i] != [] ==>
      base.lists[i][0] < |base.evs| && Later(Masked(base.evs[base.lists[i][0]].deadline), now)
  {
    n := 0;
    ghost var evs0, q := base.evs, base.lists[i];
    assert Fired(evs0, base.evs, q, n, now);
    hide *;
    ListOf(base, i);
    while base.lists[i] != []
      invariant base.Valid() && base.timers == old(base.timers) && |base.evs| == |evs0|
      invariant |base.lists| == |old(base.lists)|
      invariant TimersBut(base.evs, base.lists, base.timers, i)
      invariant n <= |q| && base.lists[i] == q[n..] && Fired(evs0, base.evs, q, n, now)
      decreases |base.lists[i]|
    {
      ListOf(base, i);
      if Later(Masked(base.evs[base.lists[i][0]].deadline), now) {
        break;
      }
      assert base.lists[i][0] == q[n];
      FiredMore(evs0, base.evs, q, n, now);
      Fire(base, i);
      n := n + 1;
    }
  }

  /**
    common_timeout_callback, run by the timer of list `i`, which is idle: the events that have run out
    become active, no others.
   */
  method CommonTimeoutCallback(base: EventBase, i: nat, now: Tv) returns (ghost n: nat)
    requires base.Valid() && i < |base.lists| && TimersBut(base.evs, base.lists, base.timers, i) && now.usec < MILLION
    modifies base
    ensures base.Ok() && base.timers == old(base.timers) && |base.evs| == |old(base.evs)|
    ensures |base.lists| == |old(base.lists)|
    ensures forall k :: 0 <= k < |base.lists[i]| ==>
      base.lists[i][k] < |base.evs| && Later(Masked(base.evs[base.lists[i][k]].deadline), now)
    ensures n <= |old(base.lists)[i]| && base.lists[i] == old(base.lists)[i][n..]
    ensures Fired(old(base.evs), base.evs, old(base.lists)[i], n, now)
  {
    hide MinHeap.Ok, Sum, Scheduled, Fired, ActiveOk, Activated, Idle, GoodDelay, Code;
    ghost var evs0, q := base.evs, base.lists[i];
    ListOf(base, i);
    n := FireAll(base, i, now);
    if base.lists[i] != [] {
      ghost var t, evs1 := base.timers[i], base.evs;
      base.Schedule(i, now);
      FiredTimer(evs0, evs1, q, n, now, t, base.evs[t]);
      assert Holds(base.lists[i], base.evs, Lst(i)) && Sorted(base.lists[i], base.evs);
      MaskedOrder(base.lists[i], base.evs, i);
    }
  }

  /** The time event_persist_closure adds a repeating event for again, without its mark */
  function NextRun(e: Ev, now: Tv): Tv {
    var delay := Masked(e.ioTimeout);
    var runAt := TimerAdd(if e.resTimeout then Masked(e.deadline) else now, delay);
    if Later(now, runAt) then TimerAdd(now, delay) else runAt
  }

  /** The same with the mark of its common timeout, if any */
  function MarkedRun(e: Ev, now: Tv): Tv {
    var runAt := NextRun(e, now);
    runAt.(usec := runAt.usec + (e.ioTimeout.usec - Masked(e.ioTimeout).usec))
  }

  /**
    When a repeating event is due next, in microseconds: one interval after it was due, if it ran
    because it was due and that is not past; otherwise one interval from now.
   */
  function DueNext(e: Ev, now: Tv): int {
    var due, interval := Micros(Masked(e.deadline)), Micros(Masked(e.ioTimeout));
    if e.resTimeout && due + interval >= Micros(now) then due + interval else Micros(now) + interval
  }

  lemma {:induction false} NextRunIsDue(e: Ev, now: Tv, n: nat)
    requires n <= MAX_COMMON_TIMEOUTS && now.usec < MILLION && GoodTime(e.deadline, n) && GoodDelay(e.ioTimeout)
    ensures Micros(NextRun(e, now)) == DueNext(e, now)
  {
    hide TimerAdd, Micros;
    var due, interval := Masked(e.deadline), Masked(e.ioTimeout);
    TimerAddIsSum(due, interval);
    TimerAddIsSum(now, interval);
    LaterIsMore(now, TimerAdd(due, interval));
    LaterIsMore(now, TimerAdd(now, interval));
    NotNegative(interval);
  }

  lemma {:induction false} NotNegative(tv: Tv)
    requires tv.sec >= 0
    ensures Micros(tv) >= 0
  {
  }

  /**
    event_persist_closure: a repeating event is added again before its callback is run, to the event
    map as well if it is no longer there. When the map refuses, nothing changes.
   */
  method PersistClosure(base: EventBase, id: nat, now: Tv, answer: int)
    requires base.Ok() && id < |base.evs| && base.evs[id].timerOf < 0 && Repeats(base.evs[id])
    requires !base.evs[id].finalizing
    requires now.usec < MILLION
    modifies base
    ensures base.Ok() && |base.evs| == |old(base.evs)| && base.timers == old(base.timers)
    ensures old(base.evs)[id].ioTimeout == ZERO || (answer == -1 && Asks(old(base.evs)[id])) ==>
      base.evs == old(base.evs)
    ensures old(base.evs)[id].ioTimeout != ZERO && !(answer == -1 && Asks(old(base.evs)[id])) ==>
      && base.evs[id] == Added(old(base.evs)[id], Some(MarkedRun(old(base.evs)[id], now)), true, now, |base.timers|)
      && base.evs[id].inserted == (old(base.evs)[id].inserted || Asks(old(base.evs)[id]))
      && base.evs[id].timeout && Micros(Masked(base.evs[id].deadline)) == DueNext(old(base.evs)[id], now)
      && Code(base.evs[id].deadline) == Code(old(base.evs)[id].ioTimeout)
      && !Later(now, Masked(base.evs[id].deadline))
    ensures forall x :: 0 <= x < |base.evs| && x != id && old(base.evs)[x].timerOf < 0 ==>
      base.evs[x] == old(base.evs)[x]
  {
    var e := base.evs[id];
    if e.ioTimeout != ZERO {
      assert TimeFlags(e, id, base.timers);
      NextRunGood(e, now, |base.timers|);
      NextRunIsDue(e, now, |base.timers|);
      var _ := Add(base, id, Some(MarkedRun(e, now)), true, now, answer);
    }
  }

  /** The mark put on the next time is that of the request; the next time is never in the past. */
  lemma {:induction false} NextRunGood(e: Ev, now: Tv, n: nat)
    requires n <= MAX_COMMON_TIMEOUTS && now.usec < MILLION
    requires GoodTime(e.deadline, n) && Code(e.ioTimeout) == Code(e.deadline) && GoodDelay(e.ioTimeout)
    ensures var runAt, tv := NextRun(e, now), MarkedRun(e, now);
            && runAt.usec < MILLION && !Later(now, runAt)
            && Masked(tv) == runAt && Code(tv) == Code(e.ioTimeout) && GoodArgs(tv, true, now, n)
  {
  }

  /** The head of an active queue leaves it: the beginning of the loop of event_process_active_single_queue. */
  method TakeFirst(base: EventBase, p: nat) returns (id: nat)
    requires base.Ok() && p < |base.active| && base.active[p] != []
    modifies base
    ensures base.Valid() && base.timers == old(base.timers)
    ensures id == old(base.active)[p][0] < |old(base.evs)|
    ensures base.evs == old(base.evs)[id := Taken(old(base.evs)[id])]
    ensures old(base.evs)[id].timerOf >= 0 ==> base.lists == old(base.lists)
    ensures TimersBut(base.evs, base.lists, base.timers, base.evs[id].timerOf)
  {
    id := base.active[p][0];
    ghost var evs0, lists0 := base.evs, base.lists;
    assert Holds(base.active[p], base.evs, Act(p)) && Belongs(base.evs[id], Act(p));
    assert TimeFlags(base.evs[id], id, base.timers);
    assert TimersBut(evs0, lists0, base.timers, base.evs[id].timerOf);
    var e := base.evs[id];
    if e.isEvent && !e.persist && !e.finalizing {
      TimersAfterDel(evs0, lists0, base.timers, id, Idle(e), e.timerOf);
      if e.timerOf >= 0 {
        TimerInNoList(base.evs, base.heap, base.lists, base.timers, id);
      }
      base.Del(id, false);
    } else {
      TimersFrame(base.evs, base.lists, base.timers, id, e.(active := false));
      base.RemoveActive(id);
    }
  }

  lemma {:induction false} TimerInNoList(
      evs: seq<Ev>, heap: MinHeap.Heap, lists: seq<seq<nat>>, timers: seq<nat>, id: nat)
    requires TimeOk(evs, heap, lists, timers) && id < |evs| && evs[id].timerOf >= 0
    ensures MinusAll(lists, id) == lists
  {
    assert TimeFlags(evs[id], id, timers);
    forall i | 0 <= i < |lists|
      ensures Minus(lists[i], id) == lists[i]
    {
      ListFacts(evs, heap, lists, timers, i);
      MinusAbsent(lists[i], id);
    }
  }

  /** What is left of the flags of a callback that is about to run */
  function Taken(e: Ev): Ev {
    if e.isEvent && !e.persist && !e.finalizing then Idle(e) else e.(active := false)
  }

  /** The callback after it has been taken and, if it repeats and the event map does not refuse it, been added again */
  function Ran(e: Ev, now: Tv, n: nat, answer: int): Ev {
    var t := Taken(e);
    if Repeats(t) && !t.finalizing && t.ioTimeout != ZERO && !(answer == -1 && Asks(t))
    then Added(t, Some(MarkedRun(t, now)), true, now, n) else t
  }

  /**
    A repeating event whose timeout has run out has left the event map and the timeouts. When its
    callback is run it is in all of them again, with a deadline that is not past, exactly if it waits
    for no file descriptor or the event map takes it; otherwise it is pending nowhere.
   */
  lemma {:induction false} RepeatsAfterTimeout(e: Ev, id: nat, timers: seq<nat>, now: Tv, answer: int)
    requires TimeFlags(e, id, timers) && e.timeout && Repeats(e) && e.ioTimeout != ZERO
    requires |timers| <= MAX_COMMON_TIMEOUTS && now.usec < MILLION
    ensures var fired := Activated(Idle(e), true);
            var again := Ran(fired, now, |timers|, answer);
            && !fired.timeout && !fired.inserted && fired.active && !again.active
            && again.timeout == (!e.io || answer != -1)
            && again.inserted == (e.io && answer != -1)
            && (again.timeout ==> !Later(now, Masked(again.deadline)))
            && (again.timeout ==>
                  var due, interval := Micros(Masked(e.deadline)), Micros(Masked(e.ioTimeout));
                  Micros(Masked(again.deadline)) ==
                  if due + interval >= Micros(now) then due + interval else Micros(now) + interval)
  {
    var t := Taken(Activated(Idle(e), true));
    NextRunGood(t, now, |timers|);
    NextRunIsDue(t, now, |timers|);
    hide NextRun, Micros, TimerAdd;
  }

  /** An event after its timeout has run out and its callback was run again and again, at these times */
  function Served(e: Ev, times: seq<Tv>, n: nat): Ev
    decreases |times|
  {
    if times == [] then e
    else
      var k := |times| - 1;
      Ran(Activated(Idle(Served(e, times[..k], n)), true), times[k], n, 0)
  }

  /**
    A repeating event that is always served before it is due once more keeps its rhythm: run number k
    is due after k intervals.
   */
  lemma {:induction false} KeepsRhythm(e: Ev, id: nat, timers: seq<nat>, times: seq<Tv>)
    requires TimeFlags(e, id, timers) && e.timeout && Repeats(e) && e.ioTimeout != ZERO && e.timerOf < 0
    requires |timers| <= MAX_COMMON_TIMEOUTS && forall k :: 0 <= k < |times| ==> InTime(e, times[k], k)
    ensures var s := Served(e, times, |timers|);
            && s.timeout && TimeFlags(s, id, timers) && SameEvent(s, e)
            && Micros(Masked(s.deadline)) == Micros(Masked(e.deadline)) + |times| * Micros(Masked(e.ioTimeout))
    decreases |times|
  {
    if times == [] {
      assert |times| * Micros(Masked(e.ioTimeout)) == 0;
    } else {
      var k := |times| - 1;
      var interval := Micros(Masked(e.ioTimeout));
      KeepsRhythm(e, id, timers, times[..k]);
      assert InTime(e, times[k], k);
      assert (k + 1) * interval == k * interval + interval;
      ServedOnce(Served(e, times[..k], |timers|), id, timers, times[k]);
      hide Ran, Micros, Masked;
    }
  }

  /** The time is no later than when the event is due for the time after next, counted from `k` runs on. */
  predicate InTime(e: Ev, time: Tv, k: nat) {
    time.usec < MILLION && Micros(time) <= Micros(Masked(e.deadline)) + (k + 1) * Micros(Masked(e.ioTimeout))
  }

  predicate SameEvent(s: Ev, e: Ev) {
    Repeats(s) == Repeats(e) && s.ioTimeout == e.ioTimeout && s.timerOf == e.timerOf
  }

  lemma {:induction false} ServedOnce(e: Ev, id: nat, timers: seq<nat>, time: Tv)
    requires TimeFlags(e, id, timers) && e.timeout && Repeats(e) && e.ioTimeout != ZERO && e.timerOf < 0
    requires |timers| <= MAX_COMMON_TIMEOUTS && time.usec < MILLION
    requires Micros(time) <= Micros(Masked(e.deadline)) + Micros(Masked(e.ioTimeout))
    ensures var s := Ran(Activated(Idle(e), true), time, |timers|, 0);
            && s.timeout && TimeFlags(s, id, timers) && SameEvent(s, e)
            && Micros(Masked(s.deadline)) == Micros(Masked(e.deadline)) + Micros(Masked(e.ioTimeout))
  {
    RepeatsAfterTimeout(e, id, timers, time, 0);
    NextRunGood(Taken(Activated(Idle(e), true)), time, |timers|);
    hide NextRun, Micros, TimerAdd;
  }

  lemma {:induction false} FiredBefore(was: seq<Ev>, evs: seq<Ev>, q: seq<nat>, n: nat, now: Tv, t: nat, e: Ev)
    requires n <= |q| && t < |was| && was[t].timerOf >= 0 && e.timerOf >= 0 && Fired(was[t := e], evs, q, n, now)
    ensures Fired(was, evs, q, n, now)
  {
    forall k | 0 <= k < n
      ensures q[k] < |was| && q[k] != t
    {
      assert was[t := e][q[k]].timerOf < 0;
    }
  }

  /**
    One turn of event_process_active_single_queue, up to the user's callback: the first callback of
    a queue is taken, the callback of a common timeout is run, a repeating event is set again.
   */
  method RunOne(base: EventBase, p: nat, now: Tv, answer: int) returns (id: nat)
    requires base.Ok() && p < |base.active| && base.active[p] != [] && now.usec < MILLION
    modifies base
    ensures base.Ok() && |base.evs| == |old(base.evs)| && base.timers == old(base.timers)
    ensures id == old(base.active)[p][0] < |base.evs|
    ensures old(base.evs)[id].timerOf < 0 ==> base.evs[id] == Ran(old(base.evs)[id], now, |base.timers|, answer)
    ensures old(base.evs)[id].timerOf < 0 ==>
      forall x :: 0 <= x < |base.evs| && x != id && old(base.evs)[x].timerOf < 0 ==> base.evs[x] == old(base.evs)[x]
    ensures var i := old(base.evs)[id].timerOf;
            i >= 0 ==>
              && i < |old(base.lists)| == |base.lists|
              && exists n :: 0 <= n <= |old(base.lists)[i]| && base.lists[i] == old(base.lists)[i][n..]
                             && Fired(old(base.evs), base.evs, old(base.lists)[i], n, now)
  {
    ghost var evs0 := base.evs;
    id := TakeFirst(base, p);
    if base.evs[id].timerOf >= 0 {
      assert TimeFlags(base.evs[id], id, base.timers);
      ghost var n := CommonTimeoutCallback(base, base.evs[id].timerOf, now);
      FiredBefore(evs0, base.evs, old(base.lists)[evs0[id].timerOf], n, now, id, Taken(evs0[id]));
    } else if Repeats(base.evs[id]) && !base.evs[id].finalizing {
      PersistClosure(base, id, now, answer);
    }
  }

  // ---------- callbacks that were put off ----------

  /** The first callback that was put off goes to the end of its active queue; no counter changes. */
  lemma {:induction false} Promote(evs: seq<Ev>, active: seq<seq<nat>>, later: seq<nat>, n: int)
    requires ActiveOk(evs, active, later, n) && later != []
    ensures later[0] < |evs| && evs[later[0]].later && evs[later[0]].pri < |active|
    ensures var id := later[0];
            var e := evs[id].(later := false, active := true);
            ActiveOk(evs[id := e], active[e.pri := active[e.pri] + [id]], later[1..], n)
  {
    hide Total;
    var id := later[0];
    assert Belongs(evs[id], Lat);
    var e1 := evs[id].(later := false);
    var e := e1.(active := true);
    MinusAt(later, 0);
    hide ActiveOk, Holds;
    LaterTake(evs, active, later, n, id, e1);
    UpdateTwice(evs, id, e1, e);
    assert later[..0] + later[1..] == later[1..];
    ActivePut(evs[id := e1], active, later[1..], n - 1, id, e);
  }

  function Promoted(e: Ev): Ev {
    if e.later then e.(later := false, active := true) else e
  }

  /** event_queue_make_later_events_active */
  method MakeLaterActive(base: EventBase)
    requires base.Ok()
    modifies base`evs, base`active, base`later
    ensures base.Ok() && base.later == [] && |base.evs| == |old(base.evs)|
    ensures forall id :: 0 <= id < |base.evs| ==> base.evs[id] == Promoted(old(base.evs)[id])
  {
    ghost var evs0 := base.evs;
    while base.later != []
      invariant base.Ok() && |base.evs| == |evs0|
      invariant forall id :: 0 <= id < |base.evs| ==> Promoted(base.evs[id]) == Promoted(evs0[id])
      decreases |base.later|
    {
      PromoteFirst(base);
    }
    forall id | 0 <= id < |base.evs|
      ensures !base.evs[id].later
    {
      NothingHeld(base.evs, Lat, id);
    }
  }

  method PromoteFirst(base: EventBase)
    requires base.Ok() && base.later != []
    modifies base`evs, base`active, base`later
    ensures base.Ok() && base.later == old(base.later)[1..] && old(base.later)[0] < |old(base.evs)|
    ensures base.evs == (var id := old(base.later)[0]; old(base.evs)[id := Promoted(old(base.evs)[id])])
  {
    var id := base.later[0];
    Promote(base.evs, base.active, base.later, base.countActive);
    var e := base.evs[id].(later := false, active := true);
    SumUpdate(base.evs, id, e);
    TimeFrame(base.evs, base.heap, base.lists, base.timers, id, e);
    TimersFrame(base.evs, base.lists, base.timers, id, e);
    base.later := base.later[1..];
    base.active := base.active[e.pri := base.active[e.pri] + [id]];
    base.evs := base.evs[id := e];
  }

  // ---------- new events and new common timeouts ----------

  /** A callback as event_assign or event_deferred_cb_init_ leaves it */
  predicate Blank(e: Ev) {
    && !e.inserted && !e.timeout && !e.active && !e.later && !e.finalizing && !e.resTimeout
    && e.deadline == ZERO && e.ioTimeout == ZERO
  }

  lemma {:induction false} SumAppend(evs: seq<Ev>, e: Ev)
    ensures Sum(evs + [e]) == Sum(evs) + Weight(e)
  {
    if evs != [] {
      SumAppend(evs[1..], e);
      assert (evs + [e])[1..] == evs[1..] + [e];
    } else {
      assert [e][1..] == [];
    }
  }

  lemma {:induction false} HoldsAppend(q: seq<nat>, evs: seq<Ev>, w: Which, e: Ev)
    requires Holds(q, evs, w) && !Belongs(e, w)
    ensures Holds(q, evs + [e], w)
  {
    var evs' := evs + [e];
    forall id | 0 <= id < |evs'| && Belongs(evs'[id], w)
      ensures id in q
    {
      assert id < |evs| && evs'[id] == evs[id];
    }
  }

  lemma {:induction false} HeapAppend(h: MinHeap.Heap, evs: seq<Ev>, e: Ev)
    requires MinHeap.Ok(h, evs)
    ensures MinHeap.Ok(h.(idx := h.idx + [-1]), evs + [e])
  {
    var h', evs' := h.(idx := h.idx + [-1]), evs + [e];
    forall i | 0 < i < h.n
      ensures MinHeap.Le(h'.p, evs', MinHeap.Parent(i), i)
    {
      assert MinHeap.Le(h.p, evs, MinHeap.Parent(i), i);
    }
  }

  lemma {:induction false} ActiveAppend(evs: seq<Ev>, active: seq<seq<nat>>, later: seq<nat>, n: int, e: Ev)
    requires ActiveOk(evs, active, later, n) && Blank(e) && e.pri < |active|
    ensures ActiveOk(evs + [e], active, later, n)
  {
    forall p | 0 <= p < |active|
      ensures Holds(active[p], evs + [e], Act(p))
    {
      HoldsAppend(active[p], evs, Act(p), e);
    }
    HoldsAppend(later, evs, Lat, e);
  }

  /** One more callback, and perhaps one more list, which it is the timer of */
  lemma {:induction false} TimeAppend(evs: seq<Ev>, heap: MinHeap.Heap, lists: seq<seq<nat>>, timers: seq<nat>, e: Ev)
    requires TimeOk(evs, heap, lists, timers) && Blank(e)
    requires || e.timerOf < 0
             || (e.timerOf == |timers| < MAX_COMMON_TIMEOUTS && e.isEvent && e.internal && !e.persist && !e.io)
    ensures var t := e.timerOf >= 0;
            TimeOk(evs + [e], heap.(idx := heap.idx + [-1]),
                   if t then lists + [[]] else lists, if t then timers + [|evs|] else timers)
  {
    var evs' := evs + [e];
    var lists' := if e.timerOf >= 0 then lists + [[]] else lists;
    var timers' := if e.timerOf >= 0 then timers + [|evs|] else timers;
    HeapAppend(heap, evs, e);
    forall i | 0 <= i < |lists'|
      ensures Holds(lists'[i], evs', Lst(i)) && Sorted(lists'[i], evs')
    {
      if i < |lists| {
        assert lists'[i] == lists[i];
        HoldsAppend(lists[i], evs, Lst(i), e);
      } else {
        NoneYet(evs, timers, e, i);
      }
    }
    forall x | 0 <= x < |evs'|
      ensures TimeFlags(evs'[x], x, timers')
    {
      assert x < |evs| ==> evs'[x] == evs[x] && TimeFlags(evs[x], x, timers);
    }
  }

  lemma {:induction false} NoneYet(evs: seq<Ev>, timers: seq<nat>, e: Ev, i: nat)
    requires (forall id :: 0 <= id < |evs| ==> TimeFlags(evs[id], id, timers)) && Blank(e) && i == |timers|
    ensures Holds([], evs + [e], Lst(i))
  {
    var evs' := evs + [e];
    forall id | 0 <= id < |evs'|
      ensures !Belongs(evs'[id], Lst(i))
    {
      assert id < |evs| ==> evs'[id] == evs[id] && TimeFlags(evs[id], id, timers);
    }
  }

  /** event_assign and event_deferred_cb_init_ */
  method Assign(base: EventBase, e: Ev)
    requires base.Ok() && Blank(e) && e.timerOf < 0 && e.pri < |base.active|
    modifies base`evs, base`heap
    ensures base.Ok() && base.evs == old(base.evs) + [e]
  {
    SumAppend(base.evs, e);
    ActiveAppend(base.evs, base.active, base.later, base.countActive, e);
    TimeAppend(base.evs, base.heap, base.lists, base.timers, e);
    TimersAppend(base.evs, base.heap, base.lists, base.timers, e);
    base.heap := base.heap.(idx := base.heap.idx + [-1]);
    base.evs := base.evs + [e];
  }

  lemma {:induction false} TimersAppend(evs: seq<Ev>, heap: MinHeap.Heap, lists: seq<seq<nat>>, timers: seq<nat>, e: Ev)
    requires TimeOk(evs, heap, lists, timers) && TimersOk(evs, lists, timers)
    ensures TimersOk(evs + [e], lists, timers) && TimersOk(evs + [e], lists + [[]], timers + [|evs|])
  {
    forall i | 0 <= i < |lists|
      ensures TimerOk(evs + [e], lists[i], timers[i])
    {
      assert TimerOk(evs, lists[i], timers[i]) && Holds(lists[i], evs, Lst(i));
    }
  }

  /** The duration without its mark, and with less than a second (or exactly a million) of microseconds */
  function Normal(d: Tv, n: nat): Tv {
    if d.usec <= MILLION then d
    else
      var usec := if IsCommon(d, n) then d.usec % MASK_SIZE else d.usec;
      Tv(d.sec + usec / MILLION, usec % MILLION)
  }

  function Mark(d: Tv, n: nat): Tv {
    d.(usec := d.usec + (COMMON + n) * MASK_SIZE)
  }

  /** A common timeout has this duration. */
  ghost predicate Has(durations: seq<Tv>, d: Tv) {
    exists i :: 0 <= i < |durations| && Masked(durations[i]) == d
  }

  /**
    event_base_init_common_timeout: the marked duration that events are to be added with. There is
    none exactly when 256 durations are in use and this is not one of them.
   */
  method InitCommonTimeout(base: EventBase, duration: Tv) returns (r: Option<Tv>)
    requires base.Ok() && |base.active| > 0 && duration.sec >= 0
    modifies base
    ensures base.Ok() && old(base.durations) <= base.durations && old(base.evs) <= base.evs
    ensures r.Some? ==>
      && r.value in base.durations && IsCommon(r.value, |base.timers|)
      && Masked(r.value) == Normal(duration, |old(base.timers)|)
      && forall now: Tv :: now.usec < MILLION ==> GoodArgs(r.value, false, now, |base.timers|)
    ensures var had := Has(old(base.durations), Normal(duration, |old(base.timers)|));
            && (r.None? <==> |old(base.timers)| == MAX_COMMON_TIMEOUTS && !had)
            && |base.durations| == |old(base.durations)| + (if r.Some? && !had then 1 else 0)
            && (had || r.None? ==> base.evs == old(base.evs))
  {
    hide Masked, Code, Normal, IsCommon;
    var n := |base.timers|;
    var d := Normal(duration, n);
    var durations := base.durations;
    assert |durations| == n && forall i :: 0 <= i < n ==> Code(durations[i]) == COMMON + i && GoodDelay(durations[i]);
    for i := 0 to n
      invariant base.Ok() && unchanged(base) && forall j :: 0 <= j < i ==> Masked(durations[j]) != d
    {
      SameDuration(d, durations[i]);
      if d.sec == durations[i].sec && d.usec == Masked(durations[i]).usec {
        CommonCodes(durations[i], n);
        CommonGood(durations[i], n);
        return Some(durations[i]);
      }
    }
    if n == MAX_COMMON_TIMEOUTS {
      return None;
    }
    NormalSmall(duration, n);
    NewCommon(base, d);
    MarkGood(d, n);
    r := Some(base.durations[n]);
    CommonCodes(r.value, n + 1);
    CommonGood(r.value, n + 1);
  }

  lemma {:induction false} SameDuration(d: Tv, tv: Tv)
    ensures d.sec == tv.sec && d.usec == Masked(tv).usec <==> Masked(tv) == d
  {
  }

  lemma {:induction false} CommonGood(tv: Tv, n: nat)
    requires n <= MAX_COMMON_TIMEOUTS && COMMON <= Code(tv) < COMMON + n && GoodDelay(tv)
    ensures forall now: Tv :: now.usec < MILLION ==> GoodArgs(tv, false, now, n)
  {
  }

  lemma {:induction false} NormalSmall(d: Tv, n: nat)
    requires d.sec >= 0
    ensures Normal(d, n).usec <= MILLION && Normal(d, n).sec >= 0
  {
  }

  lemma {:induction false} MarkGood(d: Tv, n: nat)
    requires d.usec <= MILLION
    ensures Masked(Mark(d, n)) == d && Code(Mark(d, n)) == COMMON + n
  {
  }

  method NewCommon(base: EventBase, d: Tv)
    requires base.Ok() && |base.active| > 0 && d.sec >= 0 && d.usec <= MILLION && |base.timers| < MAX_COMMON_TIMEOUTS
    modifies base
    ensures base.Ok() && base.durations == old(base.durations) + [Mark(d, |old(base.timers)|)]
    ensures old(base.evs) <= base.evs
  {
    hide TimersOk, ActiveOk, Sum, Masked, Code;
    var n := |base.timers|;
    var t := Ev(true, true, false, false, false, n, 0, false, false, false, false, false, false, ZERO, ZERO);
    var evs, lists, timers := base.evs + [t], base.lists + [[]], base.timers + [|base.evs|];
    var durations := base.durations + [Mark(d, n)];
    var heap := base.heap.(idx := base.heap.idx + [-1]);
    SumAppend(base.evs, t);
    ActiveAppend(base.evs, base.active, base.later, base.countActive, t);
    TimeAppend(base.evs, base.heap, base.lists, base.timers, t);
    assert TimeOk(evs, heap, lists, timers);
    TimersAppend(base.evs, base.heap, base.lists, base.timers, t);
    DurationsAppend(base.durations, d);
    base.evs, base.heap, base.lists, base.timers, base.durations := evs, heap, lists, timers, durations;
  }

  lemma {:induction false} DurationsAppend(durations: seq<Tv>, d: Tv)
    requires d.sec >= 0 && d.usec <= MILLION
    requires forall i :: 0 <= i < |durations| ==> Code(durations[i]) == COMMON + i && GoodDelay(durations[i])
    ensures var ds := durations + [Mark(d, |durations|)];
            forall i :: 0 <= i < |ds| ==> Code(ds[i]) == COMMON + i && GoodDelay(ds[i])
  {
    MarkGood(d, |durations|);
  }
}
