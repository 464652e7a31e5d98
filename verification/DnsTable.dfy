/**
 The requests of a resolver: those in flight, in buckets by transaction id, and those waiting.
 */
module DnsTable {
  import opened Lists
  import opened Numbers

  const NO_ID: nat := 0xffff
  const MOST_IN_FLIGHT := 65000

  /**
    struct request. `ns` is the number of its nameserver or -1, `tx` is tx_count; `timer` says that its
    timeout_event is set, and `sent` counts all transmissions over the whole life of the request.
   */
  datatype Req = Req(id: nat, ns: int, tx: nat, reissues: nat, transmitMe: bool, timer: bool, sent: nat)

  /** struct nameserver; `up` is its state, `inflight` its requests_inflight. */
  datatype Server = Server(up: bool, choked: bool, inflight: int, timedout: int)

  type Reqs = map<nat, Req>

  /** REQ_HEAD: the bucket of a transaction id */
  function Slot(id: nat, n: nat): (i: nat)
    requires n > 0
    ensures i < n
  {
    id % n
  }

  // ---------- buckets ----------

  ghost predicate InBucket(reqs: Reqs, heads: seq<seq<nat>>, flying: set<nat>, i: nat, k: nat)
    requires i < |heads|
  {
    k in heads[i] <==> k in flying && k in reqs && Slot(reqs[k].id, |heads|) == i
  }

  /** Every request in flight is in the bucket of its id, once, and nothing else is in a bucket. */
  ghost predicate FlightOk(reqs: Reqs, heads: seq<seq<nat>>, flying: set<nat>) {
    && |heads| > 0
    && (forall i :: 0 <= i < |heads| ==> NoDup(heads[i]))
    && (forall i, k {:trigger InBucket(reqs, heads, flying, i, k)} :: 0 <= i < |heads| && 0 <= k ==>
          InBucket(reqs, heads, flying, i, k))
    && Total(heads) == |flying|
    && flying <= reqs.Keys
  }

  lemma {:induction false} FlightFrame(reqs: Reqs, heads: seq<seq<nat>>, flying: set<nat>, k: nat, r: Req)
    requires FlightOk(reqs, heads, flying) && k in reqs && r.id == reqs[k].id
    ensures FlightOk(reqs[k := r], heads, flying)
  {
    hide Slot, Total;
    var reqs' := reqs[k := r];
    forall i, x | 0 <= i < |heads| && 0 <= x
      ensures InBucket(reqs', heads, flying, i, x)
    {
      assert InBucket(reqs, heads, flying, i, x);
    }
  }

  lemma {:induction false} FlightInsert(reqs: Reqs, heads: seq<seq<nat>>, flying: set<nat>, k: nat, r: Req)
    requires FlightOk(reqs, heads, flying) && k !in flying
    ensures var i := Slot(r.id, |heads|); FlightOk(reqs[k := r], heads[i := heads[i] + [k]], flying + {k})
  {
    var i, reqs', flying' := Slot(r.id, |heads|), reqs[k := r], flying + {k};
    var heads' := heads[i := heads[i] + [k]];
    TotalUpdate(heads, i, heads[i] + [k]);
    hide Slot, Total;
    assert InBucket(reqs, heads, flying, i, k);
    forall j, x | 0 <= j < |heads'| && 0 <= x
      ensures InBucket(reqs', heads', flying', j, x)
    {
      assert InBucket(reqs, heads, flying, j, x);
    }
  }

  lemma {:induction false} FlightRemove(reqs: Reqs, heads: seq<seq<nat>>, flying: set<nat>, k: nat)
    requires FlightOk(reqs, heads, flying) && k in flying
    ensures k in reqs && |heads| > 0
    ensures var i := Slot(reqs[k].id, |heads|); FlightOk(reqs - {k}, heads[i := Minus(heads[i], k)], flying - {k})
  {
    var i, reqs', flying' := Slot(reqs[k].id, |heads|), reqs - {k}, flying - {k};
    var heads' := heads[i := Minus(heads[i], k)];
    TotalUpdate(heads, i, Minus(heads[i], k));
    MinusHas(heads[i], k);
    assert InBucket(reqs, heads, flying, i, k);
    hide Slot, Total, Minus;
    forall j, x | 0 <= j < |heads'| && 0 <= x
      ensures InBucket(reqs', heads', flying', j, x)
    {
      assert InBucket(reqs, heads, flying, j, x);
    }
  }

  // ---------- ids ----------

  /** Ids in flight differ from each other and from 0xffff. */
  ghost predicate IdsOk(reqs: Reqs, flying: set<nat>) {
    && flying <= reqs.Keys
    && (forall k :: k in flying ==> reqs[k].id < NO_ID)
    && (forall k, l :: k in flying && l in flying && k != l ==> reqs[k].id != reqs[l].id)
  }

  ghost predicate Free(reqs: Reqs, flying: set<nat>, id: nat)
    requires flying <= reqs.Keys
  {
    id < NO_ID && forall k :: k in flying ==> reqs[k].id != id
  }

  ghost function IdsOf(reqs: Reqs, flying: set<nat>): set<nat>
    requires flying <= reqs.Keys
  {
    set k | k in flying :: reqs[k].id
  }

  lemma {:induction false} IdsOfSize(reqs: Reqs, flying: set<nat>)
    requires flying <= reqs.Keys
    ensures |IdsOf(reqs, flying)| <= |flying|
    decreases |flying|
  {
    if flying != {} {
      var k :| k in flying;
      var rest := flying - {k};
      IdsOfSize(reqs, rest);
      assert IdsOf(reqs, flying) == IdsOf(reqs, rest) + {reqs[k].id};
    } else {
      assert IdsOf(reqs, flying) == {};
    }
  }

  /** With no more than 65000 requests in flight a free id can always be found. */
  lemma {:induction false} FreeIdExists(reqs: Reqs, flying: set<nat>)
    requires flying <= reqs.Keys && |flying| <= MOST_IN_FLIGHT
    ensures exists id :: Free(reqs, flying, id)
  {
    BelowSize(NO_ID);
    IdsOfSize(reqs, flying);
    var all, used := Below(NO_ID), IdsOf(reqs, flying);
    hide Below;
    if all <= used {
      SubsetSize(all, used);
      assert false;
    }
    var id :| id in all && id !in used;
    assert Free(reqs, flying, id);
  }

  /** What a source of random ids gives, draw by draw: every id turns up again and again. */
  type Draws = f: nat -> nat | FairDraws(f) witness (RoundIsFair(); Round)

  ghost predicate FairDraws(f: nat -> nat) {
    forall id: nat, n: nat :: id < NO_ID ==> TurnsUp(f, id, n)
  }

  ghost predicate TurnsUp(f: nat -> nat, id: nat, n: nat) {
    exists m: nat :: n <= m && f(m) == id
  }

  function Round(n: nat): nat {
    n % NO_ID
  }

  lemma {:induction false} RoundIsFair()
    ensures FairDraws(Round)
  {
    forall id: nat, n: nat | id < NO_ID
      ensures TurnsUp(Round, id, n)
    {
      var m := (n / NO_ID + 1) * NO_ID + id;
      assert Round(m) == id;
    }
  }

  // ---------- nameservers ----------

  ghost function Assigned(reqs: Reqs, flying: set<nat>, s: int): set<nat> {
    set k | k in flying && k in reqs && reqs[k].ns == s
  }

  /** Every server counts the requests in flight that are assigned to it. */
  ghost predicate CountsOk(reqs: Reqs, flying: set<nat>, servers: seq<Server>) {
    && (forall k :: k in flying && k in reqs ==> 0 <= reqs[k].ns < |servers|)
    && (forall s :: 0 <= s < |servers| ==> servers[s].inflight == |Assigned(reqs, flying, s)|)
  }

  lemma {:induction false} CountsFrame(reqs: Reqs, flying: set<nat>, servers: seq<Server>, k: nat, r: Req)
    requires CountsOk(reqs, flying, servers) && k in reqs && r.ns == reqs[k].ns
    ensures CountsOk(reqs[k := r], flying, servers)
  {
    forall s | 0 <= s < |servers|
      ensures Assigned(reqs[k := r], flying, s) == Assigned(reqs, flying, s)
    {
    }
  }

  /** A request that is not in flight counts for nothing. */
  lemma {:induction false} CountsOther(reqs: Reqs, flying: set<nat>, servers: seq<Server>, k: nat, r: Req)
    requires CountsOk(reqs, flying, servers) && k !in flying
    ensures CountsOk(reqs[k := r], flying, servers) && CountsOk(reqs - {k}, flying, servers)
  {
    forall s | 0 <= s < |servers|
      ensures Assigned(reqs[k := r], flying, s) == Assigned(reqs, flying, s) == Assigned(reqs - {k}, flying, s)
    {
    }
  }

  lemma {:induction false} CountsServer(reqs: Reqs, flying: set<nat>, servers: seq<Server>, s: nat, v: Server)
    requires CountsOk(reqs, flying, servers) && s < |servers| && v.inflight == servers[s].inflight
    ensures CountsOk(reqs, flying, servers[s := v])
  {
  }

  lemma {:induction false} AssignedInsert(reqs: Reqs, flying: set<nat>, k: nat, r: Req, s: int)
    requires k !in flying
    ensures Assigned(reqs[k := r], flying + {k}, s) == Assigned(reqs, flying, s) + if s == r.ns then {k} else {}
    ensures k !in Assigned(reqs, flying, s)
  {
  }

  lemma {:induction false} CountsInsert(reqs: Reqs, flying: set<nat>, servers: seq<Server>, k: nat, r: Req)
    requires CountsOk(reqs, flying, servers) && k !in flying && 0 <= r.ns < |servers|
    ensures var v := servers[r.ns].(inflight := servers[r.ns].inflight + 1);
            CountsOk(reqs[k := r], flying + {k}, servers[r.ns := v])
  {
    hide Assigned;
    var reqs', flying' := reqs[k := r], flying + {k};
    forall s | 0 <= s < |servers|
      ensures |Assigned(reqs', flying', s)| == |Assigned(reqs, flying, s)| + if s == r.ns then 1 else 0
    {
      AssignedInsert(reqs, flying, k, r, s);
    }
  }

  lemma {:induction false} CountsRemove(reqs: Reqs, flying: set<nat>, servers: seq<Server>, k: nat)
    requires CountsOk(reqs, flying, servers) && k in flying && k in reqs
    ensures var n := reqs[k].ns;
            && 0 <= n < |servers| && servers[n].inflight > 0
            && CountsOk(reqs - {k}, flying - {k}, servers[n := servers[n].(inflight := servers[n].inflight - 1)])
  {
    var n, reqs', flying' := reqs[k].ns, reqs - {k}, flying - {k};
    forall s | 0 <= s < |servers|
      ensures Assigned(reqs', flying', s) ==
              if s == n then Assigned(reqs, flying, s) - {k} else Assigned(reqs, flying, s)
    {
    }
    assert k in Assigned(reqs, flying, n);
  }

  /** The counts after a request went from server `n` to server `s` */
  function Moved(servers: seq<Server>, n: nat, s: nat): (r: seq<Server>)
    requires n < |servers| && s < |servers|
    ensures |r| == |servers|
  {
    var servers1 := servers[n := servers[n].(inflight := servers[n].inflight - 1)];
    servers1[s := servers1[s].(inflight := servers1[s].inflight + 1)]
  }

  /** request_swap_ns */
  lemma {:induction false} CountsSwap(reqs: Reqs, flying: set<nat>, servers: seq<Server>, k: nat, s: nat)
    requires CountsOk(reqs, flying, servers) && k in flying && k in reqs && s < |servers| && reqs[k].ns != s
    ensures 0 <= reqs[k].ns < |servers| && servers[reqs[k].ns].inflight > 0
    ensures CountsOk(reqs[k := reqs[k].(ns := s)], flying, Moved(servers, reqs[k].ns, s))
  {
    CountsRemove(reqs, flying, servers, k);
    var n := reqs[k].ns;
    var servers1 := servers[n := servers[n].(inflight := servers[n].inflight - 1)];
    CountsInsert(reqs - {k}, flying - {k}, servers1, k, reqs[k].(ns := s));
    assert (reqs - {k})[k := reqs[k].(ns := s)] == reqs[k := reqs[k].(ns := s)];
    assert flying - {k} + {k} == flying;
  }

  ghost function Ups(servers: seq<Server>): nat {
    if servers == [] then 0 else (if servers[0].up then 1 else 0) + Ups(servers[1..])
  }

  lemma {:induction false} UpsUpdate(servers: seq<Server>, s: nat, v: Server)
    requires s < |servers|
    ensures Ups(servers[s := v]) == Ups(servers) - (if servers[s].up then 1 else 0) + (if v.up then 1 else 0)
  {
    if s > 0 {
      UpsUpdate(servers[1..], s - 1, v);
      assert servers[s := v][1..] == servers[1..][s - 1 := v];
    } else {
      assert servers[s := v][1..] == servers[1..];
    }
  }

  lemma {:induction false} SomeUp(servers: seq<Server>, s: nat)
    requires s < |servers| && servers[s].up
    ensures Ups(servers) > 0
  {
    if s > 0 {
      SomeUp(servers[1..], s - 1);
    }
  }

  lemma {:induction false} NoneUp(servers: seq<Server>)
    requires forall s :: 0 <= s < |servers| ==> !servers[s].up
    ensures Ups(servers) == 0
  {
    if servers != [] {
      NoneUp(servers[1..]);
    }
  }

  // ---------- waiting and transmitting ----------

  /** The waiting requests have no server and were never sent; there are no others than these and those in flight. */
  ghost predicate WaitOk(reqs: Reqs, waiting: seq<nat>, flying: set<nat>) {
    && NoDup(waiting)
    && (forall i :: 0 <= i < |waiting| ==>
          waiting[i] in reqs && waiting[i] !in flying && reqs[waiting[i]].ns == -1 && reqs[waiting[i]].tx == 0)
    && (forall k :: k in reqs ==> k in flying || k in waiting)
  }

  /** What limits the transmissions of a request */
  ghost predicate TxOk(r: Req, maxReissues: nat, maxTx: nat) {
    r.tx <= maxTx && (r.transmitMe ==> r.tx < maxTx) && r.reissues <= maxReissues && r.sent <= r.reissues * maxTx + r.tx
  }

  ghost predicate AllTxOk(reqs: Reqs, maxReissues: nat, maxTx: nat) {
    forall k :: k in reqs ==> TxOk(reqs[k], maxReissues, maxTx)
  }

  /** No request in flight is forgotten: it is marked to be sent, or its timer is set. */
  ghost predicate Watched(reqs: Reqs, flying: set<nat>) {
    forall k :: k in flying && k in reqs ==> reqs[k].transmitMe || reqs[k].timer
  }

  /** No request is ever transmitted more often than this. */
  lemma {:induction false} SentBound(r: Req, maxReissues: nat, maxTx: nat)
    requires TxOk(r, maxReissues, maxTx)
    ensures r.sent <= (maxReissues + 1) * maxTx
  {
    TimesGrows(r.reissues, maxReissues, maxTx);
    assert (maxReissues + 1) * maxTx == maxReissues * maxTx + maxTx;
  }

  /** A reissue starts the count of transmissions anew. */
  lemma {:induction false} ReissueTx(r: Req, maxReissues: nat, maxTx: nat)
    requires TxOk(r, maxReissues, maxTx) && r.reissues < maxReissues && maxTx >= 1
    ensures TxOk(r.(reissues := r.reissues + 1, tx := 0, transmitMe := true), maxReissues, maxTx)
  {
    assert (r.reissues + 1) * maxTx == r.reissues * maxTx + maxTx;
  }
}
