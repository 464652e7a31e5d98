/**
 The binary heap of pending timeouts; each event knows its place in it.
 */
module MinHeap {
  import opened Events

  /** min_heap_t, of which `n` places are in use, and min_heap_idx of every event. */
  datatype Heap = Heap(p: seq<nat>, n: nat, idx: seq<int>)

  function Parent(i: nat): nat
    requires i > 0
  {
    (i - 1) / 2
  }

  /** Places and indices belong together. */
  ghost predicate Indexed(h: Heap, evs: seq<Ev>) {
    && h.n <= |h.p| && |h.idx| == |evs|
    && (forall i :: 0 <= i < h.n ==> h.p[i] < |evs| && h.idx[h.p[i]] == i)
    && (forall e :: 0 <= e < |evs| && h.idx[e] != -1 ==> 0 <= h.idx[e] < h.n && h.p[h.idx[e]] == e)
  }

  /** The event at place `a` is not later than the one at place `b`. */
  ghost predicate Le(p: seq<nat>, evs: seq<Ev>, a: nat, b: nat) {
    a < |p| && b < |p| && p[a] < |evs| && p[b] < |evs| && !Later(evs[p[a]].deadline, evs[p[b]].deadline)
  }

  ghost predicate Ordered(h: Heap, evs: seq<Ev>) {
    forall i :: 0 < i < h.n ==> Le(h.p, evs, Parent(i), i)
  }

  ghost predicate Ok(h: Heap, evs: seq<Ev>) {
    Indexed(h, evs) && Ordered(h, evs)
  }

  /** Ordered but for the event at `hole`, which may belong further up. */
  ghost predicate MayRise(h: Heap, evs: seq<Ev>, hole: nat) {
    forall i :: 0 < i < h.n ==>
      && (i != hole ==> Le(h.p, evs, Parent(i), i))
      && (Parent(i) == hole > 0 ==> Le(h.p, evs, Parent(hole), i))
  }

  /** Ordered but for the event at `hole`, which may belong further down. */
  ghost predicate MayFall(h: Heap, evs: seq<Ev>, hole: nat) {
    forall i :: 0 < i < h.n ==>
      && (Parent(i) != hole ==> Le(h.p, evs, Parent(i), i))
      && (Parent(i) == hole > 0 ==> Le(h.p, evs, Parent(hole), i))
  }

  /** The heap with event `e` at place `i`. */
  function Put(h: Heap, i: nat, e: nat): Heap
    requires i < |h.p| && e < |h.idx|
  {
    h.(p := h.p[i := e], idx := h.idx[e := i])
  }

  /** The top is the earliest of all. */
  lemma {:induction false} TopIsEarliest(h: Heap, evs: seq<Ev>, i: nat)
    requires Ok(h, evs) && i < h.n
    ensures Le(h.p, evs, 0, i)
    decreases i
  {
    assert h.p[i] < |evs| && h.p[0] < |evs|;
    if i > 0 {
      TopIsEarliest(h, evs, Parent(i));
      assert Le(h.p, evs, Parent(i), i);
    }
  }

  /** Moving the parent of the hole down into it */
  lemma {:induction false} Rise(h: Heap, evs: seq<Ev>, hole: nat, e: nat)
    requires Indexed(h, evs) && MayRise(h, evs, hole) && 0 < hole < h.n && h.p[hole] == e
    requires Later(evs[h.p[Parent(hole)]].deadline, evs[e].deadline)
    ensures var h' := Put(Put(h, hole, h.p[Parent(hole)]), Parent(hole), e);
            Indexed(h', evs) && MayRise(h', evs, Parent(hole))
  {
    var up := Parent(hole);
    var h' := Put(Put(h, hole, h.p[up]), up, e);
    assert forall i :: 0 <= i < h.n && i != up && i != hole ==> h'.p[i] == h.p[i];
    forall i | 0 < i < h.n
      ensures i != up ==> Le(h'.p, evs, Parent(i), i)
      ensures Parent(i) == up > 0 ==> Le(h'.p, evs, Parent(up), i)
    {
      assert i != hole ==> Le(h.p, evs, Parent(i), i);
      assert up > 0 ==> Le(h.p, evs, Parent(up), up);
    }
  }

  /** min_heap_shift_up_. The event is at the hole all the time; the source writes it there at the end. */
  method ShiftUp(h: Heap, hole: nat, e: nat, evs: seq<Ev>) returns (r: Heap)
    requires hole < h.n <= |h.p| && e < |h.idx| && Indexed(Put(h, hole, e), evs) && MayRise(Put(h, hole, e), evs, hole)
    ensures Ok(r, evs) && r.n == h.n && |r.p| == |h.p|
    ensures forall x :: 0 <= x < |evs| ==> (r.idx[x] == -1 <==> Put(h, hole, e).idx[x] == -1)
  {
    r := Put(h, hole, e);
    var at := hole;
    while at > 0 && Later(evs[r.p[Parent(at)]].deadline, evs[e].deadline)
      invariant r.n == h.n && |r.p| == |h.p| && 0 <= at < r.n && e < |r.idx| && r.p[at] == e
      invariant Indexed(r, evs) && MayRise(r, evs, at)
      invariant forall x :: 0 <= x < |evs| ==> (r.idx[x] == -1 <==> Put(h, hole, e).idx[x] == -1)
    {
      var up := Parent(at);
      Rise(r, evs, at, e);
      r := Put(Put(r, at, r.p[up]), up, e);
      at := up;
    }
    RisenIsOrdered(r, evs, at);
  }

  lemma {:induction false} RisenIsOrdered(h: Heap, evs: seq<Ev>, at: nat)
    requires Indexed(h, evs) && MayRise(h, evs, at) && at < h.n && (at > 0 ==> Le(h.p, evs, Parent(at), at))
    ensures Ok(h, evs)
  {
  }

  /** Moving the earlier child of the hole up into it */
  lemma {:induction false} Fall(h: Heap, evs: seq<Ev>, hole: nat, child: nat, e: nat)
    requires Indexed(h, evs) && MayFall(h, evs, hole) && hole < h.n && h.p[hole] == e
    requires 0 < child < h.n && Parent(child) == hole && Later(evs[e].deadline, evs[h.p[child]].deadline)
    requires forall i :: 0 < i < h.n && Parent(i) == hole ==> Le(h.p, evs, child, i)
    ensures var h' := Put(Put(h, hole, h.p[child]), child, e);
            Indexed(h', evs) && MayFall(h', evs, child)
  {
    var h' := Put(Put(h, hole, h.p[child]), child, e);
    assert forall i :: 0 <= i < h.n && i != child && i != hole ==> h'.p[i] == h.p[i];
    forall i | 0 < i < h.n
      ensures Parent(i) != child ==> Le(h'.p, evs, Parent(i), i)
      ensures Parent(i) == child ==> Le(h'.p, evs, Parent(child), i)
    {
      assert Parent(i) != hole ==> Le(h.p, evs, Parent(i), i);
      assert Parent(i) == hole > 0 ==> Le(h.p, evs, Parent(hole), i);
      assert Parent(i) == hole ==> Le(h.p, evs, child, i);
      assert hole > 0 ==> Le(h.p, evs, Parent(hole), child);
    }
  }

  lemma {:induction false} FallenIsOrdered(h: Heap, evs: seq<Ev>, at: nat)
    requires Indexed(h, evs) && MayFall(h, evs, at) && at < h.n
    requires forall i :: 0 < i < h.n && Parent(i) == at ==> Le(h.p, evs, at, i)
    ensures Ok(h, evs)
  {
  }

  /** The earlier of the children of a place that has one */
  method MinChild(h: Heap, evs: seq<Ev>, hole: nat) returns (c: nat)
    requires Indexed(h, evs) && 2 * (hole + 1) <= h.n
    ensures hole < c < h.n && Parent(c) == hole
    ensures forall i :: 0 < i < h.n && Parent(i) == hole ==> Le(h.p, evs, c, i)
  {
    c := 2 * (hole + 1);
    assert forall i :: 0 < i < h.n && Parent(i) == hole ==> i == c || i == c - 1;
    if c == h.n || Later(evs[h.p[c]].deadline, evs[h.p[c - 1]].deadline) {
      c := c - 1;
    }
  }

  /** min_heap_shift_down_ */
  method ShiftDown(h: Heap, hole: nat, e: nat, evs: seq<Ev>) returns (r: Heap)
    requires hole < h.n <= |h.p| && e < |h.idx| && Indexed(Put(h, hole, e), evs) && MayFall(Put(h, hole, e), evs, hole)
    ensures Ok(r, evs) && r.n == h.n && |r.p| == |h.p|
    ensures forall x :: 0 <= x < |evs| ==> (r.idx[x] == -1 <==> Put(h, hole, e).idx[x] == -1)
  {
    r := Put(h, hole, e);
    var at := hole;
    while 2 * (at + 1) <= r.n
      invariant r.n == h.n && |r.p| == |h.p| && 0 <= at < r.n && e < |r.idx| && r.p[at] == e
      invariant Indexed(r, evs) && MayFall(r, evs, at)
      invariant forall x :: 0 <= x < |evs| ==> (r.idx[x] == -1 <==> Put(h, hole, e).idx[x] == -1)
      decreases r.n - at
    {
      var c := MinChild(r, evs, at);
      if !Later(evs[e].deadline, evs[r.p[c]].deadline) {
        FallenIsOrdered(r, evs, at);
        return;
      }
      Fall(r, evs, at, c, e);
      r := Put(Put(r, at, r.p[c]), c, e);
      at := c;
    }
    FallenIsOrdered(r, evs, at);
  }

  /** min_heap_reserve_ */
  function Reserve(h: Heap, n: nat): (r: Heap)
    requires h.n <= |h.p|
    ensures |r.p| >= n && r.n == h.n && r.idx == h.idx && r.n <= |r.p| && r.p[..r.n] == h.p[..h.n]
  {
    if |h.p| >= n then h
    else
      var a := if |h.p| > 0 then |h.p| * 2 else 8;
      var a' := if a < n then n else a;
      h.(p := h.p + seq(a' - |h.p|, _ => 0))
  }

  /** min_heap_push_ */
  method Push(h: Heap, e: nat, evs: seq<Ev>) returns (r: Heap)
    requires Ok(h, evs) && e < |evs| && h.idx[e] == -1
    ensures Ok(r, evs) && r.n == h.n + 1
    ensures forall x :: 0 <= x < |evs| && x != e ==> (r.idx[x] == -1 <==> h.idx[x] == -1)
    ensures r.idx[e] != -1
  {
    var g := Reserve(h, h.n + 1);
    assert forall i :: 0 <= i < h.n ==> g.p[i] == g.p[..g.n][i] == h.p[i];
    g := g.(n := h.n + 1);
    PushedMayRise(h, Put(g, h.n, e), evs, e);
    r := ShiftUp(g, h.n, e, evs);
  }

  lemma {:induction false} PushedMayRise(h: Heap, g: Heap, evs: seq<Ev>, e: nat)
    requires Ok(h, evs) && e < |evs| && h.idx[e] == -1
    requires g.n == h.n + 1 <= |g.p| && g.idx == h.idx[e := h.n] && g.p[h.n] == e
    requires forall i :: 0 <= i < h.n ==> g.p[i] == h.p[i]
    ensures Indexed(g, evs) && MayRise(g, evs, h.n)
  {
    forall i | 0 < i < g.n
      ensures i != h.n ==> Le(g.p, evs, Parent(i), i)
      ensures Parent(i) != h.n
    {
      assert i < h.n ==> Le(h.p, evs, Parent(i), i);
    }
  }

  /** min_heap_erase_ of an event that is in the heap */
  method Erase(h: Heap, e: nat, evs: seq<Ev>) returns (r: Heap)
    requires Ok(h, evs) && e < |evs| && h.idx[e] != -1
    ensures Ok(r, evs) && r.n == h.n - 1
    ensures forall x :: 0 <= x < |evs| && x != e ==> (r.idx[x] == -1 <==> h.idx[x] == -1)
    ensures r.idx[e] == -1
  {
    var at := h.idx[e];
    var last := h.p[h.n - 1];
    var g := h.(n := h.n - 1, idx := h.idx[e := -1]);
    if at == g.n {
      LastGone(h, g, evs, e);
      return g;
    }
    Replaced(h, Put(g, at, last), evs, e);
    if at > 0 && Later(evs[g.p[Parent(at)]].deadline, evs[last].deadline) {
      r := ShiftUp(g, at, last, evs);
    } else {
      r := ShiftDown(g, at, last, evs);
    }
  }

  lemma {:induction false} LastGone(h: Heap, g: Heap, evs: seq<Ev>, e: nat)
    requires Ok(h, evs) && e < |evs| && h.n > 0 && h.idx[e] == h.n - 1 && g == h.(n := h.n - 1, idx := h.idx[e := -1])
    ensures Ok(g, evs)
  {
    forall i | 0 < i < g.n
      ensures Le(g.p, evs, Parent(i), i)
    {
      assert Le(h.p, evs, Parent(i), i);
    }
  }

  lemma {:induction false} ReplacedIndexed(h: Heap, g: Heap, evs: seq<Ev>, e: nat)
    requires Indexed(h, evs) && e < |evs| && 0 <= h.idx[e] < h.n - 1
    requires g == Put(h.(n := h.n - 1, idx := h.idx[e := -1]), h.idx[e], h.p[h.n - 1])
    ensures Indexed(g, evs) && g.idx[e] == -1
    ensures forall x :: 0 <= x < |evs| && x != e ==> (g.idx[x] == -1 <==> h.idx[x] == -1)
  {
  }

  /** The last event put where another one was: it may have to move one way, not both. */
  lemma {:induction false} Replaced(h: Heap, g: Heap, evs: seq<Ev>, e: nat)
    requires Ok(h, evs) && e < |evs| && 0 <= h.idx[e] < h.n - 1
    requires g == Put(h.(n := h.n - 1, idx := h.idx[e := -1]), h.idx[e], h.p[h.n - 1])
    ensures Indexed(g, evs) && g.idx[e] == -1
    ensures forall x :: 0 <= x < |evs| && x != e ==> (g.idx[x] == -1 <==> h.idx[x] == -1)
    ensures var at := h.idx[e];
            if at > 0 && Later(evs[h.p[Parent(at)]].deadline, evs[h.p[h.n - 1]].deadline)
            then MayRise(g, evs, at) else MayFall(g, evs, at)
  {
    ReplacedIndexed(h, g, evs, e);
    ReplacedOrder(h, g, evs, h.idx[e]);
  }

  lemma {:induction false} ReplacedOrder(h: Heap, g: Heap, evs: seq<Ev>, at: nat)
    requires h.n <= |h.p| && Ordered(h, evs) && at < h.n - 1
    requires g.p == h.p[at := h.p[h.n - 1]] && g.n == h.n - 1 && h.p[h.n - 1] < |evs|
    requires at > 0 ==> h.p[Parent(at)] < |evs|
    ensures if at > 0 && Later(evs[h.p[Parent(at)]].deadline, evs[h.p[h.n - 1]].deadline)
            then MayRise(g, evs, at) else MayFall(g, evs, at)
  {
    assert forall i :: 0 <= i < h.n - 1 && i != at ==> g.p[i] == h.p[i];
    forall i | 0 < i < g.n
      ensures i != at && Parent(i) != at ==> Le(g.p, evs, Parent(i), i)
      ensures Parent(i) == at > 0 ==> Le(g.p, evs, Parent(at), i)
    {
      assert Le(h.p, evs, Parent(i), i);
      assert at > 0 ==> Le(h.p, evs, Parent(at), at);
    }
    if at > 0 && Later(evs[h.p[Parent(at)]].deadline, evs[h.p[h.n - 1]].deadline) {
      forall i | 0 < i < g.n && Parent(i) == at
        ensures Le(g.p, evs, at, i)
      {
        assert Le(g.p, evs, Parent(at), i);
      }
    }
  }
}
