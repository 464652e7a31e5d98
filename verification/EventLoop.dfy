/**
 The event base: adding, deleting, activating and cancelling events and callbacks, timeouts, and
 running callbacks.
 */
module EventLoop {
  import opened Events
  import opened EventQueues
  import opened Lists
  import MinHeap

  // ---------- the steps on the queues, as facts about values ----------

  lemma {:induction false} ActivePut(evs: seq<Ev>, active: seq<seq<nat>>, later: seq<nat>, n: int, id: nat, e: Ev)
    requires ActiveOk(evs, active, later, n) && id < |evs| && !evs[id].active && !evs[id].later
    requires e.active && !e.later && e.pri == evs[id].pri
    ensures ActiveOk(evs[id := e], active[e.pri := active[e.pri] + [id]], later, n + 1)
  {
    var p := e.pri;
    var q := active[p];
    TotalUpdate(active, p, q + [id]);
    HoldsInsert(q, evs, Act(p), id, e, |q|);
    assert q[..|q|] + [id] + q[|q|..] == q + [id];
    forall x | 0 <= x < |active| && x != p
      ensures Holds(active[x], evs[id := e], Act(x))
    {
      HoldsFrame(active[x], evs, Act(x), id, e);
    }
    HoldsFrame(later, evs, Lat, id, e);
  }

  lemma {:induction false} ActiveTake(evs: seq<Ev>, active: seq<seq<nat>>, later: seq<nat>, n: int, id: nat, e: Ev)
    requires ActiveOk(evs, active, later, n) && id < |evs| && evs[id].active
    requires !e.active && !e.later && e.pri == evs[id].pri
    ensures ActiveOk(evs[id := e], active[e.pri := Minus(active[e.pri], id)], later, n - 1)
  {
    var p := e.pri;
    HoldsRemove(active[p], evs, Act(p), id, e);
    TotalUpdate(active, p, Minus(active[p], id));
    forall x | 0 <= x < |active| && x != p
      ensures Holds(active[x], evs[id := e], Act(x))
    {
      HoldsFrame(active[x], evs, Act(x), id, e);
    }
    HoldsFrame(later, evs, Lat, id, e);
  }

  lemma {:induction false} LaterPut(evs: seq<Ev>, active: seq<seq<nat>>, later: seq<nat>, n: int, id: nat, e: Ev)
    requires ActiveOk(evs, active, later, n) && id < |evs| && !evs[id].active && !evs[id].later
    requires !e.active && e.later && e.pri == evs[id].pri
    ensures ActiveOk(evs[id := e], active, later + [id], n + 1)
  {
    HoldsInsert(later, evs, Lat, id, e, |later|);
    assert later[..|later|] + [id] + later[|later|..] == later + [id];
    forall x | 0 <= x < |active|
      ensures Holds(active[x], evs[id := e], Act(x))
    {
      HoldsFrame(active[x], evs, Act(x), id, e);
    }
  }

  lemma {:induction false} LaterTake(evs: seq<Ev>, active: seq<seq<nat>>, later: seq<nat>, n: int, id: nat, e: Ev)
    requires ActiveOk(evs, active, later, n) && id < |evs| && evs[id].later
    requires !e.active && !e.later && e.pri == evs[id].pri
    ensures ActiveOk(evs[id := e], active, Minus(later, id), n - 1)
  {
    HoldsRemove(later, evs, Lat, id, e);
    forall x | 0 <= x < |active|
      ensures Holds(active[x], evs[id := e], Act(x))
    {
      HoldsFrame(active[x], evs, Act(x), id, e);
    }
  }

  /** Like TimeFrame, but `id` may enter or leave list number `i`, whose new contents are `q`. */
  lemma {:induction false} ListChanged(evs: seq<Ev>, heap: MinHeap.Heap, lists: seq<seq<nat>>, timers: seq<nat>,
                                       id: nat, e: Ev, i: nat, q: seq<nat>)
    requires TimeOk(evs, heap, lists, timers) && id < |evs| && i < |lists|
    requires e.timerOf == evs[id].timerOf && TimeFlags(e, id, timers)
    requires heap.idx[id] == -1 && !(e.timeout && Code(e.deadline) == 0)
    requires Holds(q, evs[id := e], Lst(i)) && Sorted(q, evs[id := e])
    requires forall k :: 0 <= k < |lists| && k != i ==> !Belongs(evs[id], Lst(k)) && !Belongs(e, Lst(k))
    ensures TimeOk(evs[id := e], heap, lists[i := q], timers)
  {
    HeapFrame(heap, evs, id, e);
    var evs' := evs[id := e];
    forall k | 0 <= k < |lists| && k != i
      ensures Holds(lists[k], evs', Lst(k)) && Sorted(lists[k], evs')
    {
      HoldsFrame(lists[k], evs, Lst(k), id, e);
      SortedFrame(lists[k], evs, id, e);
    }
    forall x | 0 <= x < |evs'|
      ensures TimeFlags(evs'[x], x, timers)
    {
      assert TimeFlags(evs[x], x, timers);
    }
  }

  lemma {:induction false} SortedFrame(q: seq<nat>, evs: seq<Ev>, id: nat, e: Ev)
    requires Sorted(q, evs) && id < |evs| && id !in q
    ensures Sorted(q, evs[id := e])
  {
  }

  /** The place in a sorted list found from its end */
  lemma {:induction false} SortedInsert(q: seq<nat>, evs: seq<Ev>, id: nat, e: Ev, k: nat)
    requires Sorted(q, evs) && id < |evs| && id !in q && k <= |q| && forall a :: 0 <= a < |q| ==> q[a] < |evs|
    requires k > 0 ==> !Later(evs[q[k - 1]].deadline, e.deadline)
    requires forall a :: k <= a < |q| ==> Later(evs[q[a]].deadline, e.deadline)
    ensures Sorted(q[..k] + [id] + q[k..], evs[id := e])
  {
    var q' := q[..k] + [id] + q[k..];
    assert forall a :: 0 <= a < |q'| ==> q'[a] == if a < k then q[a] else if a == k then id else q[a - 1];
    forall a | 0 <= a < k
      ensures !Later(evs[q[a]].deadline, e.deadline)
    {
      assert a < k - 1 ==> !Later(evs[q[a]].deadline, evs[q[k - 1]].deadline);
    }
  }

  lemma {:induction false} SortedMinus(q: seq<nat>, evs: seq<Ev>, id: nat, e: Ev)
    requires Sorted(q, evs) && id < |evs| && NoDup(q)
    ensures Sorted(Minus(q, id), evs[id := e])
  {
    MinusHas(q, id);
    if id in q {
      var k := PlaceOf(q, id);
      MinusAt(q, k);
    } else {
      MinusAbsent(q, id);
    }
  }

  lemma {:induction false} HeapChanged(evs: seq<Ev>, heap: MinHeap.Heap, lists: seq<seq<nat>>, timers: seq<nat>,
                                       id: nat, e: Ev, heap': MinHeap.Heap)
    requires TimeOk(evs, heap, lists, timers) && id < |evs|
    requires e.timerOf == evs[id].timerOf && TimeFlags(e, id, timers)
    requires MinHeap.Ok(heap', evs[id := e]) && (heap'.idx[id] != -1 <==> e.timeout && Code(e.deadline) == 0)
    requires forall x :: 0 <= x < |evs| && x != id ==> (heap'.idx[x] == -1 <==> heap.idx[x] == -1)
    requires forall k :: 0 <= k < |lists| ==> !Belongs(evs[id], Lst(k)) && !Belongs(e, Lst(k))
    ensures TimeOk(evs[id := e], heap', lists, timers)
  {
    var evs' := evs[id := e];
    forall k | 0 <= k < |lists|
      ensures Holds(lists[k], evs', Lst(k)) && Sorted(lists[k], evs')
    {
      HoldsFrame(lists[k], evs, Lst(k), id, e);
      SortedFrame(lists[k], evs, id, e);
    }
    forall x | 0 <= x < |evs'|
      ensures TimeFlags(evs'[x], x, timers)
    {
      assert TimeFlags(evs[x], x, timers);
    }
  }

  // ---------- the event base ----------

  class EventBase {
    var evs: seq<Ev>                // all callbacks, by number
    var active: seq<seq<nat>>       // activequeues
    var later: seq<nat>             // active_later_queue
    var heap: MinHeap.Heap          // timeheap
    var lists: seq<seq<nat>>        // common_timeout_queues: the events of each
    var timers: seq<nat>            // and its internal timer
    var durations: seq<Tv>          // and its duration
    var count: int                  // event_count
    var countActive: int            // event_count_active

    ghost predicate Valid()
      reads this
    {
      && ActiveOk(evs, active, later, countActive)
      && TimeOk(evs, heap, lists, timers)
      && count == Sum(evs)
      && |durations| == |timers|
      && forall i :: 0 <= i < |durations| ==> Code(durations[i]) == COMMON + i && GoodDelay(durations[i])
    }

    /** event_base_new and event_base_priority_init */
    constructor (priorities: nat)
      ensures Ok() && evs == [] && |active| == priorities
    {
      evs, later, lists, timers, durations := [], [], [], [], [];
      active := seq(priorities, _ => []);
      heap := MinHeap.Heap([], 0, []);
      count, countActive := 0, 0;
      new;
      TotalOfNone(active);
    }

    /** What every operation keeps: Valid, and the timers of the common timeouts are set. */
    ghost predicate Ok()
      reads this
    {
      Valid() && TimersOk(evs, lists, timers)
    }

    /** event_queue_insert_inserted */
    method InsertInserted(id: nat)
      requires Valid() && id < |evs| && !evs[id].inserted
      modifies this`evs, this`count
      ensures Valid() && evs == old(evs)[id := old(evs)[id].(inserted := true)]
    {
      hide ActiveOk, TimeOk, Sum;
      var e := evs[id].(inserted := true);
      SumUpdate(evs, id, e);
      TimeFrame(evs, heap, lists, timers, id, e);
      ActiveFrame(evs, active, later, countActive, id, e);
      count := count + if e.internal then 0 else 1;
      evs := evs[id := e];
    }

    /** event_queue_remove_inserted */
    method RemoveInserted(id: nat)
      requires Valid() && id < |evs| && evs[id].inserted
      modifies this`evs, this`count
      ensures Valid() && evs == old(evs)[id := old(evs)[id].(inserted := false)]
    {
      hide ActiveOk, TimeOk, Sum;
      var e := evs[id].(inserted := false);
      SumUpdate(evs, id, e);
      TimeFrame(evs, heap, lists, timers, id, e);
      ActiveFrame(evs, active, later, countActive, id, e);
      count := count - if e.internal then 0 else 1;
      evs := evs[id := e];
    }

    /** event_queue_insert_active */
    method InsertActive(id: nat)
      requires Valid() && id < |evs| && !evs[id].later
      modifies this`evs, this`count, this`countActive, this`active
      ensures Valid() && evs == old(evs)[id := old(evs)[id].(active := true)] && |active| == |old(active)|
      ensures active == if old(evs)[id].active then old(active)
                        else old(active)[evs[id].pri := old(active)[evs[id].pri] + [id]]
    {
      hide TimeOk, Sum, Total, Holds;
      if evs[id].active {
        assert evs == evs[id := evs[id].(active := true)];
        return;
      }
      var e := evs[id].(active := true);
      SumUpdate(evs, id, e);
      TimeFrame(evs, heap, lists, timers, id, e);
      ActivePut(evs, active, later, countActive, id, e);
      count := count + if e.internal then 0 else 1;
      countActive := countActive + 1;
      active := active[e.pri := active[e.pri] + [id]];
      evs := evs[id := e];
    }

    /** event_queue_remove_active */
    method RemoveActive(id: nat)
      requires Valid() && id < |evs| && evs[id].active
      modifies this`evs, this`count, this`countActive, this`active
      ensures Valid() && evs == old(evs)[id := old(evs)[id].(active := false)] && |active| == |old(active)|
      ensures active == old(active)[evs[id].pri := Minus(old(active)[evs[id].pri], id)]
    {
      hide TimeOk, Sum, Total, Holds;
      var e := evs[id].(active := false);
      SumUpdate(evs, id, e);
      TimeFrame(evs, heap, lists, timers, id, e);
      ActiveTake(evs, active, later, countActive, id, e);
      count := count - if e.internal then 0 else 1;
      countActive := countActive - 1;
      active := active[e.pri := Minus(active[e.pri], id)];
      evs := evs[id := e];
    }

    /** event_queue_insert_active_later */
    method InsertLater(id: nat)
      requires Valid() && id < |evs| && evs[id].timerOf < 0
      modifies this`evs, this`count, this`countActive, this`later
      ensures Valid()
      ensures if old(evs)[id].active || old(evs)[id].later then evs == old(evs) && later == old(later)
              else evs == old(evs)[id := old(evs)[id].(later := true)] && later == old(later) + [id]
    {
      hide TimeOk, Sum, Total, Holds;
      if evs[id].active || evs[id].later {
        return;
      }
      var e := evs[id].(later := true);
      SumUpdate(evs, id, e);
      TimeFrame(evs, heap, lists, timers, id, e);
      LaterPut(evs, active, later, countActive, id, e);
      count := count + if e.internal then 0 else 1;
      countActive := countActive + 1;
      later := later + [id];
      evs := evs[id := e];
    }

    /** event_queue_remove_active_later */
    method RemoveLater(id: nat)
      requires Valid() && id < |evs| && evs[id].later
      modifies this`evs, this`count, this`countActive, this`later
      ensures Valid() && evs == old(evs)[id := old(evs)[id].(later := false)] && later == Minus(old(later), id)
    {
      hide TimeOk, Sum, Total, Holds;
      var e := evs[id].(later := false);
      SumUpdate(evs, id, e);
      TimeFrame(evs, heap, lists, timers, id, e);
      LaterTake(evs, active, later, countActive, id, e);
      count := count - if e.internal then 0 else 1;
      countActive := countActive - 1;
      later := Minus(later, id);
      evs := evs[id := e];
    }

    /** event_queue_remove_timeout */
    method RemoveTimeout(id: nat)
      requires Valid() && id < |evs| && evs[id].timeout
      modifies this`evs, this`count, this`heap, this`lists
      ensures Valid() && evs == old(evs)[id := old(evs)[id].(timeout := false)]
      ensures lists == MinusAll(old(lists), id)
      ensures heap.n == old(heap.n) - if Code(evs[id].deadline) == 0 then 1 else 0
    {
      hide ActiveOk, Sum, MinHeap.Ok, NoDup, Sorted, Minus;
      var e := evs[id].(timeout := false);
      SumUpdate(evs, id, e);
      ActiveFrame(evs, active, later, countActive, id, e);
      CommonCodes(e.deadline, |timers|);
      OthersLack(evs, heap, lists, timers, id);
      if IsCommon(e.deadline, |timers|) {
        var i := CommonIndex(e.deadline);
        HoldsRemove(lists[i], evs, Lst(i), id, e);
        SortedMinus(lists[i], evs, id, e);
        ListChanged(evs, heap, lists, timers, id, e, i, Minus(lists[i], id));
        lists := lists[i := Minus(lists[i], id)];
      } else {
        var h := MinHeap.Erase(heap, id, evs);
        HeapFrame(h, evs, id, e);
        HeapChanged(evs, heap, lists, timers, id, e, h);
        heap := h;
      }
      count := count - if e.internal then 0 else 1;
      evs := evs[id := e];
    }

    /** insert_common_timeout_inorder: the place, searched from the end */
    method PlaceInOrder(q: seq<nat>, id: nat) returns (k: nat)
      requires id < |evs| && forall a :: 0 <= a < |q| ==> q[a] < |evs|
      ensures k <= |q| && (k > 0 ==> !Later(evs[q[k - 1]].deadline, evs[id].deadline))
      ensures forall a :: k <= a < |q| ==> Later(evs[q[a]].deadline, evs[id].deadline)
    {
      k := |q|;
      while k > 0 && Later(evs[q[k - 1]].deadline, evs[id].deadline)
        invariant k <= |q| && forall a :: k <= a < |q| ==> Later(evs[q[a]].deadline, evs[id].deadline)
      {
        k := k - 1;
      }
    }

    /** event_queue_insert_timeout; ev_timeout has just been set */
    method InsertTimeout(id: nat)
      requires Valid() && id < |evs| && !evs[id].timeout && TimeFlags(evs[id].(timeout := true), id, timers)
      modifies this`evs, this`count, this`heap, this`lists
      ensures Valid() && evs == old(evs)[id := old(evs)[id].(timeout := true)] && |lists| == |old(lists)|
      ensures forall i :: 0 <= i < |lists| ==>
        if Code(evs[id].deadline) != COMMON + i then lists[i] == old(lists)[i]
        else Inserted(lists[i], old(lists)[i], id)
    {
      hide ActiveOk, Sum, MinHeap.Ok, NoDup, Sorted;
      var e := evs[id].(timeout := true);
      SumUpdate(evs, id, e);
      ActiveFrame(evs, active, later, countActive, id, e);
      CommonCodes(e.deadline, |timers|);
      if IsCommon(e.deadline, |timers|) {
        var i := CommonIndex(e.deadline);
        var q := lists[i];
        assert Holds(q, evs, Lst(i)) && !Belongs(evs[id], Lst(i));
        var k := PlaceInOrder(q, id);
        HoldsInsert(q, evs, Lst(i), id, e, k);
        SortedInsert(q, evs, id, e, k);
        ListChanged(evs, heap, lists, timers, id, e, i, q[..k] + [id] + q[k..]);
        lists := lists[i := q[..k] + [id] + q[k..]];
        assert Inserted(lists[i], q, id);
      } else {
        HeapFrame(heap, evs, id, e);
        var h := MinHeap.Push(heap, id, evs[id := e]);
        HeapChanged(evs, heap, lists, timers, id, e, h);
        heap := h;
      }
      count := count + if e.internal then 0 else 1;
      evs := evs[id := e];
    }

    /** event_del_nolock_ */
    method Del(id: nat, evenIfFinalizing: bool)
      requires Valid() && id < |evs|
      modifies this`evs, this`active, this`later, this`heap, this`lists, this`count, this`countActive
      ensures Valid()
      ensures if old(evs)[id].finalizing && !evenIfFinalizing then
                && evs == old(evs) && lists == old(lists) && heap == old(heap)
                && active == old(active) && later == old(later)
              else
                && evs == old(evs)[id := Idle(old(evs)[id])]
                && lists == MinusAll(old(lists), id) && active == MinusAll(old(active), id)
                && later == Minus(old(later), id)
                && heap.n == old(heap.n) - if old(evs)[id].timeout && Code(evs[id].deadline) == 0 then 1 else 0
      ensures old(TimersOk(evs, lists, timers)) && old(evs)[id].timerOf < 0 ==> TimersOk(evs, lists, timers)
    {
      if !evs[id].finalizing || evenIfFinalizing {
        if TimersOk(evs, lists, timers) && evs[id].timerOf < 0 {
          TimersAfterDel(evs, lists, timers, id, Idle(evs[id]), -1);
        }
        MakeIdle(id);
      }
    }

    /** The body of event_del_nolock_ */
    method MakeIdle(id: nat)
      requires Valid() && id < |evs|
      modifies this`evs, this`active, this`later, this`heap, this`lists, this`count, this`countActive
      ensures Valid() && evs == old(evs)[id := Idle(old(evs)[id])]
      ensures lists == MinusAll(old(lists), id) && active == MinusAll(old(active), id) && later == Minus(old(later), id)
      ensures heap.n == old(heap.n) - if old(evs)[id].timeout && Code(evs[id].deadline) == 0 then 1 else 0
    {
      hide *;
      ghost var evs0 := evs;
      ghost var e1, e2 := evs[id].(timeout := false), Idle(evs[id]);
      IdleInTwo(evs[id]);
      UpdateTwice(evs0, id, e1, e2);
      DropTimeout(id);
      assert evs[id] == e1;
      DropRest(id);
      assert evs == evs0[id := e2];
    }

    method DropRest(id: nat)
      requires Valid() && id < |evs|
      modifies this`evs, this`count, this`countActive, this`active, this`later
      ensures Valid() && evs == old(evs)[id := old(evs)[id].(active := false, later := false, inserted := false)]
      ensures active == MinusAll(old(active), id) && later == Minus(old(later), id)
    {
      hide *;
      ghost var evs0 := evs;
      ghost var e := evs[id].(active := false, later := false);
      DropActive(id);
      DropInserted(id);
      UpdateTwice(evs0, id, e, e.(inserted := false));
    }

    method DropInserted(id: nat)
      requires Valid() && id < |evs|
      modifies this`evs, this`count
      ensures Valid() && evs == old(evs)[id := old(evs)[id].(inserted := false)]
    {
      hide *;
      if evs[id].inserted {
        RemoveInserted(id);
      } else {
        assert evs == evs[id := evs[id].(inserted := false)];
      }
    }

    method DropTimeout(id: nat)
      requires Valid() && id < |evs|
      modifies this`evs, this`count, this`heap, this`lists
      ensures Valid() && evs == old(evs)[id := old(evs)[id].(timeout := false)]
      ensures lists == MinusAll(old(lists), id)
      ensures heap.n == old(heap.n) - if old(evs)[id].timeout && Code(evs[id].deadline) == 0 then 1 else 0
    {
      hide ActiveOk, Sum, MinHeap.Ok;
      OthersLack(evs, heap, lists, timers, id);
      if evs[id].timeout {
        RemoveTimeout(id);
      } else {
        assert evs == evs[id := evs[id].(timeout := false)];
      }
    }

    method DropActive(id: nat)
      requires Valid() && id < |evs|
      modifies this`evs, this`count, this`countActive, this`active, this`later
      ensures Valid() && evs == old(evs)[id := old(evs)[id].(active := false, later := false)]
      ensures active == MinusAll(old(active), id)
      ensures later == Minus(old(later), id)
    {
      hide TimeOk, Sum, Total;
      ActiveLack(evs, active, later, countActive, id);
      if evs[id].active {
        RemoveActive(id);
      } else if evs[id].later {
        RemoveLater(id);
      } else {
        assert evs == evs[id := evs[id].(active := false, later := false)];
      }
    }

    /** event_callback_activate_nolock_ */
    method Activate(id: nat) returns (r: int)
      requires Valid() && id < |evs|
      modifies this`evs, this`active, this`later, this`count, this`countActive
      ensures Valid() && r == if old(evs)[id].finalizing || old(evs)[id].active || old(evs)[id].later then 0 else 1
      ensures if old(evs)[id].finalizing then evs == old(evs) && active == old(active) && later == old(later)
              else evs == old(evs)[id := old(evs)[id].(active := true, later := false)]
      ensures old(TimersOk(evs, lists, timers)) ==> TimersOk(evs, lists, timers)
    {
      hide Valid, TimersOk, TimerOk;
      if evs[id].finalizing {
        return 0;
      }
      ghost var evs0 := evs;
      ghost var e := evs[id].(active := true, later := false);
      TimersFrame(evs, lists, timers, id, e);
      UpdateTwice(evs0, id, evs[id].(later := false), e);
      if evs[id].later {
        RemoveLater(id);
        InsertActive(id);
        return 0;
      } else if evs[id].active {
        assert evs == evs[id := e];
        return 0;
      }
      InsertActive(id);
      r := 1;
    }

    /** event_active_nolock_ with the reason EV_TIMEOUT (`timedOut`) or another one */
    method MakeActive(id: nat, timedOut: bool)
      requires Valid() && id < |evs|
      modifies this`evs, this`active, this`later, this`count, this`countActive
      ensures Valid()
      ensures if old(evs)[id].finalizing then evs == old(evs)
              else evs == old(evs)[id := Activated(old(evs)[id], timedOut)]
      ensures old(TimersOk(evs, lists, timers)) ==> TimersOk(evs, lists, timers)
    {
      assert !(evs[id].active && evs[id].later);
      hide Valid, TimersOk;
      if evs[id].finalizing {
        return;
      }
      ghost var evs0 := evs;
      var e := Reason(evs[id], timedOut);
      SetOther(id, e);
      if e.active {
        return;
      }
      UpdateTwice(evs0, id, e, Activated(evs0[id], timedOut));
      var _ := Activate(id);
    }

    /** A change to fields that no queue and no counter looks at */
    method SetOther(id: nat, e: Ev)
      requires Valid() && id < |evs| && e == evs[id].(resTimeout := e.resTimeout)
      modifies this`evs
      ensures Valid() && evs == old(evs)[id := e]
      ensures old(TimersOk(evs, lists, timers)) ==> TimersOk(evs, lists, timers)
    {
      hide ActiveOk, TimeOk, Sum, TimersOk;
      SumUpdate(evs, id, e);
      TimeFrame(evs, heap, lists, timers, id, e);
      ActiveFrame(evs, active, later, countActive, id, e);
      TimersFrame(evs, lists, timers, id, e);
      evs := evs[id := e];
    }

    /** event_active_later_nolock_ and event_callback_activate_later_nolock_ */
    method MakeActiveLater(id: nat, timedOut: bool)
      requires Valid() && id < |evs| && evs[id].timerOf < 0
      modifies this`evs, this`later, this`count, this`countActive
      ensures Valid()
      ensures evs == old(evs)[id := var e := Reason(old(evs)[id], timedOut); if e.active then e else e.(later := true)]
      ensures old(TimersOk(evs, lists, timers)) ==> TimersOk(evs, lists, timers)
    {
      hide Valid, TimersOk;
      ghost var evs0 := evs;
      var e := Reason(evs[id], timedOut);
      SetOther(id, e);
      if !e.active && !e.later {
        TimersFrame(evs, lists, timers, id, e.(later := true));
        UpdateTwice(evs0, id, e, e.(later := true));
        InsertLater(id);
      }
    }

    /** event_callback_cancel_nolock_ */
    method Cancel(id: nat, evenIfFinalizing: bool)
      requires Valid() && id < |evs| && evs[id].timerOf < 0
      modifies this`evs, this`active, this`later, this`heap, this`lists, this`count, this`countActive
      ensures Valid()
      ensures if old(evs)[id].finalizing && !evenIfFinalizing then evs == old(evs)
              else if old(evs)[id].isEvent then evs == old(evs)[id := Idle(old(evs)[id])]
              else evs == old(evs)[id := old(evs)[id].(active := false, later := false)]
      ensures old(TimersOk(evs, lists, timers)) ==> TimersOk(evs, lists, timers)
    {
      hide ActiveOk, Sum, MinHeap.Ok, TimersOk;
      if evs[id].finalizing && !evenIfFinalizing {
        return;
      }
      if evs[id].isEvent {
        Del(id, evenIfFinalizing);
      } else {
        TimersFrame(evs, lists, timers, id, evs[id].(active := false, later := false));
        DropActive(id);
      }
    }

    /** ev_timeout, and ev_io_timeout of a repeating event, of an event that is in no timeout queue */
    method SetDeadline(id: nat, d: Tv, io: Tv)
      requires Valid() && id < |evs| && !evs[id].timeout && RepeatOk(evs[id].(deadline := d, ioTimeout := io), |timers|)
      modifies this`evs
      ensures Valid() && evs == old(evs)[id := old(evs)[id].(deadline := d, ioTimeout := io)]
    {
      var e := evs[id].(deadline := d, ioTimeout := io);
      SumUpdate(evs, id, e);
      ActiveFrame(evs, active, later, countActive, id, e);
      HeapFrame(heap, evs, id, e);
      assert TimeFlags(evs[id], id, timers);
      HeapChanged(evs, heap, lists, timers, id, e, heap);
      evs := evs[id := e];
    }

    /** The part of event_add_nolock_ that takes the event out of the timeout queues, and out of the active queue. */
    method Unschedule(id: nat)
      requires Valid() && id < |evs|
      modifies this`evs, this`active, this`heap, this`lists, this`count, this`countActive
      ensures Valid() && evs == old(evs)[id := Unscheduled(old(evs)[id])]
      ensures lists == MinusAll(old(lists), id)
    {
      hide Valid;
      ghost var evs0 := evs;
      ghost var e1 := evs[id].(timeout := false);
      UpdateTwice(evs0, id, e1, e1.(active := false));
      DropTimeout(id);
      assert evs[id] == e1;
      if evs[id].active && evs[id].resTimeout {
        RemoveActive(id);
      }
    }

    /** The part of event_add_nolock_ that sets a timeout, up to event_queue_insert_timeout. */
    method SetTimeout(id: nat, tv: Tv, absolute: bool, now: Tv)
      requires Valid() && id < |evs| && evs[id].isEvent && !evs[id].finalizing
      requires GoodArgs(tv, absolute, now, |timers|) && (evs[id].timerOf >= 0 ==> Code(tv) == 0)
      requires absolute && Repeats(evs[id]) ==> Code(tv) == Code(evs[id].ioTimeout)
      modifies this`evs, this`active, this`heap, this`lists, this`count, this`countActive
      ensures Valid() && evs == old(evs)[id := Scheduled(old(evs)[id], tv, absolute, now, |timers|)]
      ensures Relisted(lists, old(lists), id, evs[id].deadline)
    {
      hide Valid, NewDeadline, Masked, Code, Scheduled, Unscheduled, TimeFlags, RepeatOk, GoodArgs, GoodTime;
      hide Minus, Inserted, Repeats;
      FlagsOk(this, id);
      ScheduledOk(evs[id], id, tv, absolute, now, timers);
      DeadlineGood(tv, absolute, now, |timers|);
      ghost var evs0, lists0, e3 := evs, lists, Scheduled(evs[id], tv, absolute, now, |timers|);
      var d := NewDeadline(tv, absolute, now, |timers|);
      var io := if Repeats(evs[id]) && !absolute then tv else evs[id].ioTimeout;
      ghost var e1 := Unscheduled(evs[id]);
      ghost var e2 := e1.(deadline := d, ioTimeout := io);
      UpdateTwice(evs0, id, e1, e2);
      UpdateTwice(evs0, id, e2, e3);
      Unschedule(id);
      SetDeadline(id, d, io);
      InsertTimeout(id);
    }

    /** common_timeout_schedule: the timer of a list is set to the deadline of its head. */
    method Schedule(i: nat, now: Tv)
      requires Valid() && i < |lists| && lists[i] != [] && TimersBut(evs, lists, timers, i) && now.usec < MILLION
      modifies this`evs, this`active, this`heap, this`lists, this`count, this`countActive
      ensures Ok() && lists == old(lists)
      ensures var d := Masked(old(evs)[lists[i][0]].deadline);
              evs == old(evs)[timers[i] := Scheduled(old(evs)[timers[i]], d, true, now, |timers|)]
    {
      var t, head := timers[i], lists[i][0];
      ghost var evs0, lists0 := evs, lists;
      assert Holds(lists[i], evs, Lst(i)) && Belongs(evs[head], Lst(i)) && TimeFlags(evs[t], t, timers)
        && TimeFlags(evs[head], head, timers);
      OthersLack(evs, heap, lists, timers, t);
      SetTimeout(t, Masked(evs[head].deadline), true, now);
      assert lists == lists0;
      TimersAfterSchedule(evs0, evs, lists, timers, i);
    }

    /** The part of event_add_nolock_ that deals with a timeout */
    method AddTimeout(id: nat, tv: Tv, absolute: bool, now: Tv)
      requires Ok() && id < |evs| && evs[id].timerOf < 0 && evs[id].isEvent && !evs[id].finalizing
      requires GoodArgs(tv, absolute, now, |timers|)
      requires absolute && Repeats(evs[id]) ==> Code(tv) == Code(evs[id].ioTimeout)
      modifies this`evs, this`active, this`heap, this`lists, this`count, this`countActive
      ensures Ok() && |evs| == |old(evs)|
      ensures evs[id] == Scheduled(old(evs)[id], tv, absolute, now, |timers|)
      ensures forall x :: 0 <= x < |evs| && x != id && old(evs)[x].timerOf < 0 ==> evs[x] == old(evs)[x]
      ensures (forall i :: 0 <= i < |lists| && lists[i] != [] ==> lists[i][0] != id) ==> evs == old(evs)[id := evs[id]]
    {
      hide ActiveOk, Sum, NewDeadline, Masked, MinHeap.Ok, TimerAdd, Relisted, Minus, Holds;
      ghost var evs0, lists0 := evs, lists;
      SetTimeout(id, tv, absolute, now);
      DeadlineGood(tv, absolute, now, |timers|);
      CommonCodes(tv, |timers|);
      TimersAfterSet(evs0, lists0, timers, id, evs[id], lists);
      if IsCommon(tv, |timers|) {
        var i := CommonIndex(evs[id].deadline);
        if id == lists[i][0] {
          Schedule(i, now);
        }
      }
    }
  }

  /** `q` with one more element somewhere. */
  ghost predicate Inserted(q': seq<nat>, q: seq<nat>, id: nat) {
    exists k :: 0 <= k <= |q| && q' == q[..k] + [id] + q[k..]
  }

  /** evutil_timeradd */
  function TimerAdd(a: Tv, b: Tv): Tv {
    if a.usec + b.usec >= MILLION then Tv(a.sec + b.sec + 1, a.usec + b.usec - MILLION)
    else Tv(a.sec + b.sec, a.usec + b.usec)
  }

  /** A time in microseconds */
  function Micros(tv: Tv): int {
    tv.sec * MILLION + tv.usec
  }

  lemma {:induction false} TimerAddIsSum(a: Tv, b: Tv)
    ensures Micros(TimerAdd(a, b)) == Micros(a) + Micros(b)
    ensures a.usec < MILLION && b.usec <= MILLION ==> TimerAdd(a, b).usec < MILLION
  {
  }

  lemma {:induction false} LaterIsMore(a: Tv, b: Tv)
    requires a.usec < MILLION && b.usec < MILLION
    ensures Later(a, b) <==> Micros(a) > Micros(b)
  {
  }

  /** ev_timeout as event_add_nolock_ computes it; the mark of a common timeout is put back at the end. */
  function NewDeadline(tv: Tv, absolute: bool, now: Tv, n: nat): Tv {
    if absolute then tv
    else if IsCommon(tv, n) then var d := TimerAdd(now, Masked(tv)); d.(usec := d.usec + (tv.usec - Masked(tv).usec))
    else TimerAdd(now, tv)
  }

  /** A normalised time, or one that event_base_init_common_timeout gave; a normalised clock. */
  predicate GoodArgs(tv: Tv, absolute: bool, now: Tv, n: nat) {
    && n <= MAX_COMMON_TIMEOUTS && now.usec < MILLION
    && (Code(tv) == 0 || COMMON <= Code(tv) < COMMON + n)
    && if absolute then GoodTime(tv, n) else GoodDelay(tv)
  }

  /** The new deadline is as far from `now` as asked for, and is marked as the request was. */
  lemma {:induction false} DeadlineGood(tv: Tv, absolute: bool, now: Tv, n: nat)
    requires GoodArgs(tv, absolute, now, n)
    ensures var d := NewDeadline(tv, absolute, now, n);
            && GoodTime(d, n) && Code(d) == Code(tv)
            && Masked(d) == (if absolute then Masked(tv) else TimerAdd(now, Masked(tv)))
            && Micros(Masked(d)) == Micros(Masked(tv)) + if absolute then 0 else Micros(now)
  {
  }

  function Unscheduled(e: Ev): Ev {
    e.(timeout := false, active := e.active && !e.resTimeout)
  }

  /** An event after it was added with a timeout; if it was active because of its old timeout, it no longer is. */
  function Scheduled(e: Ev, tv: Tv, absolute: bool, now: Tv, n: nat): Ev {
    Unscheduled(e).(timeout := true, deadline := NewDeadline(tv, absolute, now, n),
                    ioTimeout := if Repeats(e) && !absolute then tv else e.ioTimeout)
  }

  lemma {:induction false} FlagsOk(base: EventBase, id: nat)
    requires base.Valid() && id < |base.evs|
    ensures TimeFlags(base.evs[id], id, base.timers)
  {
  }

  lemma {:induction false} ScheduledOk(e: Ev, id: nat, tv: Tv, absolute: bool, now: Tv, timers: seq<nat>)
    requires TimeFlags(e, id, timers) && e.isEvent && !e.finalizing && GoodArgs(tv, absolute, now, |timers|)
    requires (e.timerOf >= 0 ==> Code(tv) == 0) && (absolute && Repeats(e) ==> Code(tv) == Code(e.ioTimeout))
    ensures var e3 := Scheduled(e, tv, absolute, now, |timers|);
            var e2 := Unscheduled(e).(deadline := NewDeadline(tv, absolute, now, |timers|),
                                      ioTimeout := if Repeats(e) && !absolute then tv else e.ioTimeout);
            && e3 == e2.(timeout := true) && !e2.timeout
            && TimeFlags(e3, id, timers) && RepeatOk(e2, |timers|)
            && e3.deadline == NewDeadline(tv, absolute, now, |timers|)
  {
    DeadlineGood(tv, absolute, now, |timers|);
  }

  /** The event went from the list it was in, if any, to the one its new deadline names, if any. */
  ghost predicate Relisted(lists': seq<seq<nat>>, lists: seq<seq<nat>>, id: nat, d: Tv) {
    |lists'| == |lists| && forall i :: 0 <= i < |lists| ==>
      if Code(d) != COMMON + i then lists'[i] == Minus(lists[i], id) else Inserted(lists'[i], Minus(lists[i], id), id)
  }

  /** The timers of all lists but number `i` are as they should be. */
  ghost predicate TimersBut(evs: seq<Ev>, lists: seq<seq<nat>>, timers: seq<nat>, i: int) {
    |lists| == |timers| && forall k :: 0 <= k < |lists| && k != i ==> TimerOk(evs, lists[k], timers[k])
  }

  /** Only the timer of list `i` changed, and it is set to the deadline of the head. */
  lemma {:induction false} TimersAfterSchedule(
      evs: seq<Ev>, evs': seq<Ev>, lists: seq<seq<nat>>, timers: seq<nat>, i: nat)
    requires TimersBut(evs, lists, timers, i) && i < |lists| && lists[i] != [] && lists[i][0] < |evs| && |evs'| == |evs|
    requires forall k :: 0 <= k < |timers| ==> timers[k] < |evs| && evs[timers[k]].timerOf == k
    requires forall k :: 0 <= k < |lists| ==> Holds(lists[k], evs, Lst(k))
    requires forall k :: 0 <= k < |timers| && evs[timers[k]].timeout ==> Code(evs[timers[k]].deadline) == 0
    requires evs' == evs[timers[i] := evs'[timers[i]]] && evs'[timers[i]].timeout
    requires evs'[timers[i]].deadline == Masked(evs[lists[i][0]].deadline)
    ensures TimersOk(evs', lists, timers)
  {
    forall k | 0 <= k < |lists|
      ensures TimerOk(evs', lists[k], timers[k])
    {
      if lists[k] != [] {
        assert Belongs(evs[lists[k][0]], Lst(k));
        assert lists[k][0] != timers[i];
        assert k != i ==> TimerOk(evs, lists[k], timers[k]);
      }
    }
  }

  /** An event that is no timer got a new deadline: only the list it now heads may need its timer set. */
  lemma {:induction false} TimersAfterSet(
      evs: seq<Ev>, lists: seq<seq<nat>>, timers: seq<nat>, id: nat, e: Ev, lists': seq<seq<nat>>)
    requires TimersOk(evs, lists, timers) && id < |evs| && evs[id].timerOf < 0
    requires Relisted(lists', lists, id, e.deadline)
    requires forall i :: 0 <= i < |lists| ==> Holds(lists[i], evs, Lst(i)) && Sorted(lists[i], evs)
    requires forall i :: 0 <= i < |timers| ==> timers[i] < |evs| && evs[timers[i]].timerOf == i
    ensures forall i :: 0 <= i < |lists'| && !(Code(e.deadline) == COMMON + i && lists'[i][0] == id) ==>
      TimerOk(evs[id := e], lists'[i], timers[i])
    ensures forall i :: 0 <= i < |lists'| && Code(e.deadline) == COMMON + i ==> lists'[i] != []
  {
    TimersAfterDel(evs, lists, timers, id, evs[id], -1);
    var gone := MinusAll(lists, id);
    forall i | 0 <= i < |lists'|
      ensures Code(e.deadline) == COMMON + i ==> lists'[i] != []
      ensures !(Code(e.deadline) == COMMON + i && lists'[i][0] == id) ==> TimerOk(evs[id := e], lists'[i], timers[i])
    {
      assert TimerOk(evs[id := evs[id]], gone[i], timers[i]);
      MinusHas(lists[i], id);
      assert id !in gone[i];
      if Code(e.deadline) == COMMON + i {
        var k :| 0 <= k <= |gone[i]| && lists'[i] == gone[i][..k] + [id] + gone[i][k..];
        assert k > 0 ==> lists'[i][0] == gone[i][0];
      }
    }
  }

  /** ev_res after another reason */
  function Reason(e: Ev, timedOut: bool): Ev {
    e.(resTimeout := timedOut || ((e.active || e.later) && e.resTimeout))
  }

  function Activated(e: Ev, timedOut: bool): Ev {
    Reason(e, timedOut).(active := true, later := false)
  }

  /** A change that takes no deadline away keeps the timers, unless an active timer becomes inactive. */
  lemma {:induction false} TimersFrame(evs: seq<Ev>, lists: seq<seq<nat>>, timers: seq<nat>, id: nat, e: Ev)
    requires id < |evs| && e.deadline == evs[id].deadline && e.timeout == evs[id].timeout
    requires id in timers ==> (evs[id].active ==> e.active)
    ensures TimersOk(evs, lists, timers) ==> TimersOk(evs[id := e], lists, timers)
  {
    if TimersOk(evs, lists, timers) {
      forall i | 0 <= i < |lists|
        ensures TimerOk(evs[id := e], lists[i], timers[i])
      {
        assert TimerOk(evs, lists[i], timers[i]);
      }
    }
  }

  lemma {:induction false} UpdateTwice(evs: seq<Ev>, id: nat, a: Ev, b: Ev)
    requires id < |evs|
    ensures evs[id := a][id := b] == evs[id := b] && evs[id := a][id] == a
  {
  }

  /** All lists without an event */
  ghost function MinusAll(lists: seq<seq<nat>>, id: nat): (r: seq<seq<nat>>)
    ensures |r| == |lists| && forall i :: 0 <= i < |r| ==> r[i] == Minus(lists[i], id)
  {
    seq(|lists|, i requires 0 <= i < |lists| => Minus(lists[i], id))
  }

  lemma {:induction false} IdleInTwo(e: Ev)
    ensures e.(timeout := false).(active := false, later := false, inserted := false) == Idle(e)
    ensures Idle(e).deadline == e.deadline
  {
  }

  function Idle(e: Ev): Ev {
    e.(timeout := false, active := false, later := false, inserted := false)
  }

  /** Callbacks are not in the active queues of other priorities. */
  lemma {:induction false} ActiveLack(evs: seq<Ev>, active: seq<seq<nat>>, later: seq<nat>, n: int, id: nat)
    requires ActiveOk(evs, active, later, n) && id < |evs|
    ensures forall p :: 0 <= p < |active| && !Belongs(evs[id], Act(p)) ==> Minus(active[p], id) == active[p]
    ensures !evs[id].later ==> Minus(later, id) == later
  {
    forall p | 0 <= p < |active| && !Belongs(evs[id], Act(p))
      ensures Minus(active[p], id) == active[p]
    {
      assert Holds(active[p], evs, Act(p));
      MinusAbsent(active[p], id);
    }
    if !evs[id].later {
      MinusAbsent(later, id);
    }
  }

  /** The head of a list without one of its events is the old head or comes after it. */
  lemma {:induction false} MinusHead(q: seq<nat>, id: nat)
    requires Minus(q, id) != []
    ensures q != [] && (Minus(q, id)[0] == q[0] || (|q| > 1 && Minus(q, id)[0] == q[1]))
  {
  }

  lemma {:induction false} TimersAfterDel(evs: seq<Ev>, lists: seq<seq<nat>>, timers: seq<nat>,
                                          id: nat, e: Ev, but: int)
    requires TimersBut(evs, lists, timers, but) && id < |evs| && (evs[id].timerOf < 0 || evs[id].timerOf == but)
    requires e.deadline == evs[id].deadline
    requires forall i :: 0 <= i < |lists| ==> Holds(lists[i], evs, Lst(i)) && Sorted(lists[i], evs)
    requires forall i :: 0 <= i < |timers| ==> timers[i] < |evs| && evs[timers[i]].timerOf == i
    ensures TimersBut(evs[id := e], MinusAll(lists, id), timers, but)
  {
    var lists' := MinusAll(lists, id);
    forall i | 0 <= i < |lists'| && i != but
      ensures TimerOk(evs[id := e], lists'[i], timers[i])
    {
      assert TimerOk(evs, lists[i], timers[i]);
      if lists'[i] != [] {
        MinusHead(lists[i], id);
        MaskedOrder(lists[i], evs, i);
      }
    }
  }

  /** In a list of one common timeout the masked deadlines are in the order of the deadlines. */
  lemma {:induction false} MaskedOrder(q: seq<nat>, evs: seq<Ev>, i: nat)
    requires Holds(q, evs, Lst(i)) && Sorted(q, evs)
    ensures forall a, b :: 0 <= a <= b < |q| ==> !Later(Masked(evs[q[a]].deadline), Masked(evs[q[b]].deadline))
  {
    forall a, b | 0 <= a <= b < |q|
      ensures !Later(Masked(evs[q[a]].deadline), Masked(evs[q[b]].deadline))
    {
      assert Belongs(evs[q[a]], Lst(i)) && Belongs(evs[q[b]], Lst(i));
    }
  }

  /** An event is not in the lists of other common timeouts; one in the heap is in none. */
  lemma {:induction false} OthersLack(evs: seq<Ev>, heap: MinHeap.Heap, lists: seq<seq<nat>>, timers: seq<nat>, id: nat)
    requires TimeOk(evs, heap, lists, timers) && id < |evs|
    ensures forall i :: 0 <= i < |lists| && !Belongs(evs[id], Lst(i)) ==> Minus(lists[i], id) == lists[i]
  {
    forall i | 0 <= i < |lists| && !Belongs(evs[id], Lst(i))
      ensures Minus(lists[i], id) == lists[i]
    {
      assert Holds(lists[i], evs, Lst(i));
      MinusAbsent(lists[i], id);
    }
  }
}
