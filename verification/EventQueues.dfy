/**
 The queues of an event base: active callbacks by priority, callbacks to be made active later,
 the heap of timeouts and the lists of common timeouts, kept in step with the flags of each
 callback and with the counters.
 */
module EventQueues {
  import opened Events
  import opened Lists
  import MinHeap

  // ---------- times ----------

  const MASK_SIZE := 0x100000         // tv_usec & MICROSECONDS_MASK is the remainder by this
  const MILLION := 1000000
  const COMMON := 0x500               // the bits above, for common timeout number 0
  const MAX_COMMON_TIMEOUTS := 256

  function Code(tv: Tv): nat { tv.usec / MASK_SIZE }
  function Masked(tv: Tv): Tv { tv.(usec := tv.usec % MASK_SIZE) }

  /** is_common_timeout, with `n` common timeouts in use */
  predicate IsCommon(tv: Tv, n: nat) {
    Code(tv) / 0x100 == 5 && Code(tv) % 0x100 < n
  }

  function CommonIndex(tv: Tv): nat { Code(tv) % 0x100 }

  /** A deadline that is plain or belongs to one of the `n` common timeouts. */
  predicate GoodTime(tv: Tv, n: nat) {
    Masked(tv).usec < MILLION && (Code(tv) == 0 || COMMON <= Code(tv) < COMMON + n)
  }

  lemma {:induction false} CommonCodes(tv: Tv, n: nat)
    requires (Code(tv) == 0 || COMMON <= Code(tv) < COMMON + n) && n <= MAX_COMMON_TIMEOUTS
    ensures IsCommon(tv, n) <==> Code(tv) != 0
    ensures IsCommon(tv, n) ==> Code(tv) == COMMON + CommonIndex(tv)
  {
  }

  // ---------- queues ----------

  datatype Which = Act(pri: nat) | Lat | Lst(i: nat)

  /** The flags and the deadline put a callback into this queue. */
  ghost predicate Belongs(e: Ev, w: Which) {
    match w
    case Act(p) => e.active && e.pri == p
    case Lat => e.later
    case Lst(i) => e.timeout && Code(e.deadline) == COMMON + i
  }

  /** The queue holds exactly the callbacks that belong to it, each once. */
  ghost predicate Holds(q: seq<nat>, evs: seq<Ev>, w: Which) {
    && NoDup(q)
    && (forall k :: 0 <= k < |q| ==> q[k] < |evs| && Belongs(evs[q[k]], w))
    && (forall id :: 0 <= id < |evs| && Belongs(evs[id], w) ==> id in q)
  }

  lemma {:induction false} NothingHeld(evs: seq<Ev>, w: Which, id: nat)
    requires Holds([], evs, w) && id < |evs|
    ensures !Belongs(evs[id], w)
  {
  }

  lemma {:induction false} HoldsFrame(q: seq<nat>, evs: seq<Ev>, w: Which, id: nat, e: Ev)
    requires Holds(q, evs, w) && id < |evs| && (Belongs(evs[id], w) <==> Belongs(e, w))
    ensures Holds(q, evs[id := e], w)
  {
  }

  lemma {:induction false} InsertHas(q: seq<nat>, id: nat, k: nat)
    requires NoDup(q) && id !in q && k <= |q|
    ensures var q' := q[..k] + [id] + q[k..]; NoDup(q') && forall x :: x in q' <==> x == id || x in q
  {
    var q' := q[..k] + [id] + q[k..];
    assert forall a :: 0 <= a < |q'| ==> q'[a] == if a < k then q[a] else if a == k then id else q[a - 1];
    assert q == q[..k] + q[k..];
  }

  lemma {:induction false} HoldsInsert(q: seq<nat>, evs: seq<Ev>, w: Which, id: nat, e: Ev, k: nat)
    requires Holds(q, evs, w) && id < |evs| && !Belongs(evs[id], w) && Belongs(e, w) && k <= |q|
    ensures Holds(q[..k] + [id] + q[k..], evs[id := e], w)
  {
    hide Belongs;
    assert id !in q;
    InsertHas(q, id, k);
    var q', evs' := q[..k] + [id] + q[k..], evs[id := e];
    forall a | 0 <= a < |q'|
      ensures q'[a] < |evs'| && Belongs(evs'[q'[a]], w)
    {
      assert q'[a] in q';
      assert q'[a] == id || q'[a] in q;
    }
  }

  lemma {:induction false} HoldsRemove(q: seq<nat>, evs: seq<Ev>, w: Which, id: nat, e: Ev)
    requires Holds(q, evs, w) && id < |evs| && Belongs(evs[id], w) && !Belongs(e, w)
    ensures Holds(Minus(q, id), evs[id := e], w) && |Minus(q, id)| == |q| - 1
  {
    MinusHas(q, id);
    var q' := Minus(q, id);
    forall k | 0 <= k < |q'|
      ensures q'[k] < |evs| && Belongs(evs[id := e][q'[k]], w)
    {
      assert q'[k] in q' && q'[k] in q;
    }
  }

  // ---------- sums ----------

  /** How much a callback adds to event_count. */
  function Weight(e: Ev): nat {
    if e.internal then 0
    else
      (if e.inserted then 1 else 0) + (if e.timeout then 1 else 0)
      + (if e.active then 1 else 0) + (if e.later then 1 else 0)
  }

  ghost function Sum(evs: seq<Ev>): nat {
    if evs == [] then 0 else Weight(evs[0]) + Sum(evs[1..])
  }

  lemma {:induction false} SumUpdate(evs: seq<Ev>, id: nat, e: Ev)
    requires id < |evs|
    ensures Sum(evs[id := e]) == Sum(evs) - Weight(evs[id]) + Weight(e)
  {
    if id > 0 {
      SumUpdate(evs[1..], id - 1, e);
      assert evs[id := e][1..] == evs[1..][id - 1 := e];
    } else {
      assert evs[id := e][1..] == evs[1..];
    }
  }

  // ---------- the invariant ----------

  /** Active queues */
  ghost predicate ActiveOk(evs: seq<Ev>, active: seq<seq<nat>>, later: seq<nat>, countActive: int) {
    && (forall p :: 0 <= p < |active| ==> Holds(active[p], evs, Act(p)))
    && Holds(later, evs, Lat)
    && countActive == Total(active) + |later|
    && (forall id :: 0 <= id < |evs| ==> !(evs[id].active && evs[id].later) && evs[id].pri < |active|)
  }

  /** Sorted by deadline; the marks of all deadlines in a list are the same. */
  ghost predicate Sorted(q: seq<nat>, evs: seq<Ev>) {
    forall a, b :: 0 <= a < b < |q| && q[a] < |evs| && q[b] < |evs| ==> !Later(evs[q[a]].deadline, evs[q[b]].deadline)
  }

  predicate GoodDelay(tv: Tv) {
    tv.sec >= 0 && Masked(tv).usec <= MILLION
  }

  /** The time a repeating event repeats after and its deadline name the same common timeout, or none. */
  ghost predicate RepeatOk(e: Ev, n: nat) {
    Repeats(e) ==> Code(e.ioTimeout) == Code(e.deadline) && GoodTime(e.deadline, n) && GoodDelay(e.ioTimeout)
  }

  ghost predicate TimeFlags(e: Ev, id: nat, timers: seq<nat>) {
    && RepeatOk(e, |timers|)
    && (e.timeout ==> e.isEvent && !e.finalizing && GoodTime(e.deadline, |timers|))
    && (e.timerOf >= 0 ==>
          && e.timerOf < |timers| && timers[e.timerOf] == id
          && e.isEvent && e.internal && !e.persist && !e.io && !e.finalizing && !e.later
          && (e.timeout ==> Code(e.deadline) == 0))
  }

  /** Timeouts: those of common timeouts are in their lists, in order, all others in the heap. */
  ghost predicate TimeOk(evs: seq<Ev>, heap: MinHeap.Heap, lists: seq<seq<nat>>, timers: seq<nat>) {
    && |lists| == |timers| <= MAX_COMMON_TIMEOUTS
    && MinHeap.Ok(heap, evs)
    && (forall id :: 0 <= id < |evs| ==> (heap.idx[id] != -1 <==> evs[id].timeout && Code(evs[id].deadline) == 0))
    && (forall i :: 0 <= i < |lists| ==> Holds(lists[i], evs, Lst(i)) && Sorted(lists[i], evs))
    && (forall id :: 0 <= id < |evs| ==> TimeFlags(evs[id], id, timers))
    && (forall i :: 0 <= i < |timers| ==> timers[i] < |evs| && evs[timers[i]].timerOf == i)
  }

  /** The timer of a list that is not empty is active, or in the heap no later than the head of the list. */
  ghost predicate TimerOk(evs: seq<Ev>, q: seq<nat>, t: nat) {
    q != [] && q[0] < |evs| && t < |evs| ==>
      evs[t].active || (evs[t].timeout && !Later(evs[t].deadline, Masked(evs[q[0]].deadline)))
  }

  ghost predicate TimersOk(evs: seq<Ev>, lists: seq<seq<nat>>, timers: seq<nat>) {
    |lists| == |timers| && forall i :: 0 <= i < |lists| ==> TimerOk(evs, lists[i], timers[i])
  }

  /** Nothing that the timeout queues look at differs. */
  ghost predicate SameTime(e: Ev, e': Ev) {
    && e'.timeout == e.timeout && e'.deadline == e.deadline && e'.timerOf == e.timerOf && e'.isEvent == e.isEvent
    && e'.signal == e.signal && e'.ioTimeout == e.ioTimeout && e'.internal == e.internal && e'.persist == e.persist
    && e'.io == e.io && e'.finalizing == e.finalizing
    && (e.timerOf >= 0 && e'.later ==> e.later)
  }

  lemma {:induction false} HeapFrame(heap: MinHeap.Heap, evs: seq<Ev>, id: nat, e: Ev)
    requires MinHeap.Ok(heap, evs) && id < |evs| && (heap.idx[id] == -1 || e.deadline == evs[id].deadline)
    ensures MinHeap.Ok(heap, evs[id := e])
  {
    var evs' := evs[id := e];
    forall i | 0 < i < heap.n
      ensures MinHeap.Le(heap.p, evs', MinHeap.Parent(i), i)
    {
      assert MinHeap.Le(heap.p, evs, MinHeap.Parent(i), i);
      assert heap.idx[heap.p[i]] == i && heap.idx[heap.p[MinHeap.Parent(i)]] == MinHeap.Parent(i);
    }
  }

  lemma {:induction false} TimeFrame(
      evs: seq<Ev>, heap: MinHeap.Heap, lists: seq<seq<nat>>, timers: seq<nat>, id: nat, e: Ev)
    requires TimeOk(evs, heap, lists, timers) && id < |evs| && SameTime(evs[id], e)
    ensures TimeOk(evs[id := e], heap, lists, timers)
  {
    HeapFrame(heap, evs, id, e);
    var evs' := evs[id := e];
    forall i | 0 <= i < |lists|
      ensures Holds(lists[i], evs', Lst(i)) && Sorted(lists[i], evs')
    {
      HoldsFrame(lists[i], evs, Lst(i), id, e);
    }
    forall x | 0 <= x < |evs'|
      ensures TimeFlags(evs'[x], x, timers)
    {
      assert TimeFlags(evs[x], x, timers);
    }
  }

  lemma {:induction false} ActiveFrame(
      evs: seq<Ev>, active: seq<seq<nat>>, later: seq<nat>, countActive: int, id: nat, e: Ev)
    requires ActiveOk(evs, active, later, countActive) && id < |evs|
    requires e.active == evs[id].active && e.later == evs[id].later && e.pri == evs[id].pri
    ensures ActiveOk(evs[id := e], active, later, countActive)
  {
    forall p | 0 <= p < |active|
      ensures Holds(active[p], evs[id := e], Act(p))
    {
      HoldsFrame(active[p], evs, Act(p), id, e);
    }
    HoldsFrame(later, evs, Lat, id, e);
  }
}
