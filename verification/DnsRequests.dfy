/**
 The resolver: submitting requests, answers, timeouts, failing nameservers, and the size of the table.
 */
module DnsRequests {
  import opened Lists
  import opened DnsTable

  /** What a reply says: an answer, NOTIMPL or REFUSED, SERVFAIL, or any other error */
  datatype Answer = Good | BadServer | ServerFailed | OtherError

  class DnsBase {
    const maxReissues: nat
    const maxTx: nat                 // global_max_retransmits
    const maxTimeouts: nat           // global_max_nameserver_timeout
    const draws: Draws               // the random ids, in the order of the draws
    var drawn: nat                   // how many of them have been drawn
    const socket: nat -> int         // the answers of evdns_request_transmit_to, in the order of the calls
    var tries: nat                   // how many of them have been given
    var reqs: Reqs
    var heads: seq<seq<nat>>         // req_heads
    var waiting: seq<nat>            // req_waiting_head
    var servers: seq<Server>
    var serverHead: nat
    var good: int                    // global_good_nameservers
    var inflight: int                // global_requests_inflight
    var nWaiting: int                // global_requests_waiting
    var maxInflight: int             // global_max_requests_inflight
    ghost var flying: set<nat>       // the requests in flight

    ghost predicate Valid()
      reads this
    {
      && FlightOk(reqs, heads, flying) && IdsOk(reqs, flying) && CountsOk(reqs, flying, servers)
      && WaitOk(reqs, waiting, flying) && AllTxOk(reqs, maxReissues, maxTx) && Watched(reqs, flying)
      && inflight == |flying| <= MOST_IN_FLIGHT && nWaiting == |waiting| && 1 <= maxInflight <= MOST_IN_FLIGHT
      && good == Ups(servers) && serverHead < |servers| + (if servers == [] then 1 else 0) && maxTx >= 1
    }

    /** evdns_base_new, with the size of the table and the limits it sets */
    constructor (maxReissues: nat, maxTx: nat, maxTimeouts: nat, draws: Draws, socket: nat -> int)
      requires maxTx >= 1
      ensures Valid() && reqs == map[] && servers == []
    {
      this.maxReissues, this.maxTx, this.maxTimeouts, this.draws, drawn := maxReissues, maxTx, maxTimeouts, draws, 0;
      this.socket, tries := socket, 0;
      reqs, waiting, servers, serverHead := map[], [], [], 0;
      heads := seq(13, _ => []);
      good, inflight, nWaiting, maxInflight := 0, 0, 0, 64;
      flying := {};
      new;
      TotalOfNone(heads);
    }

    /** nameserver_pick: a server that is up if there is one; any if there is none; -1 only without servers */
    method Pick() returns (s: int)
      requires Valid()
      modifies this`serverHead
      ensures Valid() && -1 <= s < |servers| && (s == -1 <==> servers == []) && (good > 0 ==> servers[s].up)
      ensures servers == [] ==> serverHead == old(serverHead)
      ensures servers != [] && good == 0 ==> s == serverHead == (old(serverHead) + 1) % |servers|
      ensures good > 0 ==> NextUp(servers, old(serverHead), s) && serverHead == (s + 1) % |servers|
    {
      if servers == [] {
        return -1;
      }
      if good == 0 {
        serverHead := (serverHead + 1) % |servers|;
        return serverHead;
      }
      ghost var start := serverHead;
      var tried := 0;
      while true
        invariant 0 <= tried < |servers| && serverHead < |servers| && serverHead == Around(start, tried, |servers|)
        invariant forall d :: 0 <= d < tried ==> !servers[Around(start, d, |servers|)].up
        decreases |servers| - tried
      {
        if servers[serverHead].up {
          s := serverHead;
          serverHead := (serverHead + 1) % |servers|;
          return;
        }
        AroundNext(start, tried, |servers|);
        serverHead := (serverHead + 1) % |servers|;
        tried := tried + 1;
        if tried == |servers| {
          AllAround(servers, start);
          assert false;
        }
      }
    }

    /** A change to the counts of a request */
    method SetReq(k: nat, r: Req)
      requires Valid() && k in flying && k in reqs && r.id == reqs[k].id && r.ns == reqs[k].ns
      requires TxOk(r, maxReissues, maxTx)
      requires r.transmitMe || r.timer
      modifies this`reqs
      ensures Valid() && reqs == old(reqs)[k := r]
    {
      FlightFrame(reqs, heads, flying, k, r);
      CountsFrame(reqs, flying, servers, k, r);
      TxSet(reqs, k, r, maxReissues, maxTx);
      WatchedSet(reqs, flying, k, r);
      hide FlightOk, CountsOk, Ups, TxOk, AllTxOk, Watched;
      reqs := reqs[k := r];
    }

    /** A change to a server that is not to its count */
    method SetServer(s: nat, v: Server)
      requires Valid() && s < |servers| && v.inflight == servers[s].inflight
      modifies this`servers, this`good
      ensures Valid() && servers == old(servers)[s := v]
      ensures good == old(good) - (if old(servers)[s].up then 1 else 0) + (if v.up then 1 else 0)
    {
      UpsUpdate(servers, s, v);
      CountsServer(reqs, flying, servers, s, v);
      hide FlightOk, CountsOk, Ups, IdsOk, WaitOk, AllTxOk, Watched;
      good := good - (if servers[s].up then 1 else 0) + (if v.up then 1 else 0);
      servers := servers[s := v];
    }

    /** request_swap_ns; the assertion in it holds. */
    method SwapNs(k: nat, s: int)
      requires Valid() && k in flying && -1 <= s < |servers|
      modifies this`reqs, this`servers
      ensures Valid() && |servers| == |old(servers)| && SameState(old(servers), servers)
      ensures reqs == old(reqs)[k := old(reqs)[k].(ns := if s == -1 then old(reqs)[k].ns else s)]
    {
      hide FlightOk, CountsOk, IdsOk, WaitOk, AllTxOk, TxOk, Watched, Ups, Free, Slot, Minus, Moved;
      FlyingFacts(this, k);
      if s == -1 || reqs[k].ns == s {
        assert reqs == reqs[k := reqs[k].(ns := reqs[k].ns)];
        return;
      }
      Swapped(reqs, heads, flying, servers, waiting, k, s, maxReissues, maxTx);
      assert servers[reqs[k].ns].inflight > 0;
      servers := Moved(servers, reqs[k].ns, s);
      reqs := reqs[k := reqs[k].(ns := s)];
    }

    /** A request that has not gone out leaves a server that failed. */
    method MoveOne(k: nat, s: nat)
      requires Valid() && k in flying && k in reqs && s < |servers| && !servers[s].up && good > 0
      modifies this`reqs, this`servers, this`serverHead
      ensures Valid() && k in reqs && reqs == old(reqs)[k := old(reqs)[k].(ns := reqs[k].ns)]
      ensures SameState(old(servers), servers)
      ensures reqs[k].tx == 0 ==> reqs[k].ns != s
      ensures Moves(old(reqs), reqs, s, old(servers))
    {
      hide FlightOk, CountsOk, IdsOk, WaitOk, AllTxOk, Watched, Ups;
      if reqs[k].tx == 0 && reqs[k].ns == s {
        var p := Pick();
        SwapNs(k, p);
      } else {
        assert reqs == reqs[k := reqs[k].(ns := reqs[k].ns)];
      }
    }

    /** The requests of one bucket that have not gone out leave a server that failed. */
    method MoveBucket(i: nat, s: nat)
      requires Valid() && i < |heads| && s < |servers| && !servers[s].up && good > 0
      modifies this`reqs, this`servers, this`serverHead
      ensures Valid() && Moves(old(reqs), reqs, s, old(servers)) && SameState(old(servers), servers)
      ensures Left(reqs, heads[i], s)
      ensures forall j :: 0 <= j < |heads| && Left(old(reqs), heads[j], s) ==> Left(reqs, heads[j], s)
    {
      hide FlightOk, CountsOk, IdsOk, WaitOk, AllTxOk, Watched, Ups;
      ghost var reqs0, servers0 := reqs, servers;
      for n := 0 to |heads[i]|
        invariant Valid() && Moves(reqs0, reqs, s, servers0) && SameState(servers0, servers)
        invariant Left(reqs, heads[i][..n], s)
        invariant forall j :: 0 <= j < |heads| && Left(reqs0, heads[j], s) ==> Left(reqs, heads[j], s)
      {
        KeyInFlight(reqs, heads, flying, i, n);
        ghost var reqs1, servers1 := reqs, servers;
        MoveOne(heads[i][n], s);
        MovesTrans(reqs0, reqs1, reqs, s, servers0, servers1);
        LeftMore(reqs1, reqs, heads[i][n], s, heads, heads[i], n);
        SameStateOn(servers0, servers1, servers);
        hide Valid, Left, Moves, SameState;
      }
      assert heads[i][..|heads[i]|] == heads[i];
    }

    /** The loop of nameserver_failed over all requests in flight */
    method MoveAll(s: nat)
      requires Valid() && s < |servers| && !servers[s].up && good > 0
      modifies this`reqs, this`servers, this`serverHead
      ensures Valid() && Moves(old(reqs), reqs, s, old(servers)) && SameState(old(servers), servers)
      ensures forall k :: k in flying && k in reqs && reqs[k].tx == 0 ==> reqs[k].ns != s
    {
      hide FlightOk, CountsOk, IdsOk, WaitOk, AllTxOk, Watched, Ups;
      ghost var reqs0, servers0 := reqs, servers;
      for i := 0 to |heads|
        invariant Valid() && Moves(reqs0, reqs, s, servers0) && SameState(servers0, servers)
        invariant forall j :: 0 <= j < i ==> Left(reqs, heads[j], s)
      {
        ghost var reqs1, servers1 := reqs, servers;
        MoveBucket(i, s);
        MovesTrans(reqs0, reqs1, reqs, s, servers0, servers1);
        SameStateOn(servers0, servers1, servers);
        hide Valid, Left, Moves, SameState;
      }
      FlyingLeft(reqs, heads, flying, s);
    }

    /** nameserver_failed: with another server up, no request that has not gone out stays with this one. */
    method Failed(s: nat)
      requires Valid() && s < |servers|
      modifies this`reqs, this`servers, this`serverHead, this`good
      ensures Valid() && Moves(old(reqs), reqs, s, servers)
      ensures |servers| == |old(servers)| && FailedState(old(servers), servers, s)
      ensures !old(servers)[s].up ==> unchanged(this)
      ensures good == 0 ==> reqs == old(reqs)
      ensures old(servers)[s].up && good > 0 ==>
        forall k :: k in flying && k in reqs && reqs[k].tx == 0 ==> reqs[k].ns != s
    {
      if !servers[s].up {
        return;
      }
      hide FlightOk, CountsOk, IdsOk, WaitOk, AllTxOk, Watched, Ups;
      SetServer(s, servers[s].(up := false));
      if good > 0 {
        ghost var reqs1, servers1 := reqs, servers;
        MoveAll(s);
        MovesServers(reqs1, reqs, s, servers1, servers);
      }
    }

    /** nameserver_up */
    method Up(s: nat)
      requires Valid() && s < |servers|
      modifies this`servers, this`good
      ensures Valid() && |servers| == |old(servers)| && servers[s].up
      ensures servers[s] == if old(servers)[s].up then old(servers)[s] else old(servers)[s].(up := true, timedout := 0)
      ensures forall i :: 0 <= i < |servers| && i != s ==> servers[i] == old(servers)[i]
    {
      if !servers[s].up {
        SetServer(s, servers[s].(up := true, timedout := 0));
      }
    }

    /** evdns_nameserver_add_impl_, for the table: one more server, up and without requests */
    method AddServer()
      requires Valid()
      modifies this`servers, this`good
      ensures Valid() && servers == old(servers) + [Server(true, false, 0, 0)]
    {
      var v := Server(true, false, 0, 0);
      UpsAppend(servers, v);
      CountsAppend(reqs, flying, servers, v);
      hide FlightOk, CountsOk, IdsOk, WaitOk, AllTxOk, Watched, Ups;
      servers, good := servers + [v], good + 1;
    }

    /** One call of evdns_request_transmit_to */
    method Ask() returns (answer: int)
      requires Valid()
      modifies this`tries
      ensures Valid() && answer == socket(old(tries)) && tries == old(tries) + 1
    {
      hide FlightOk, CountsOk, IdsOk, WaitOk, AllTxOk, Watched, Ups;
      answer := socket(tries);
      tries := tries + 1;
    }

    /**
      evdns_request_transmit; the socket answers 1 to try later, 2 for an error, anything else when
      the request went out.
     */
    method Transmit(k: nat)
      requires Valid() && k in flying && k in reqs && reqs[k].tx < maxTx
      modifies this`reqs, this`servers, this`serverHead, this`good, this`tries
      ensures Valid() && |servers| == |old(servers)| && reqs.Keys == old(reqs.Keys) && 0 <= old(reqs)[k].ns < |servers|
      ensures forall x :: x in reqs && x != k ==>
        reqs[x] == old(reqs)[x] || MovedFrom(old(reqs)[x], reqs[x], old(reqs)[k].ns, servers)
      ensures Settled(reqs[k], servers) && AllProgressed(old(reqs), reqs) && 0 <= reqs[k].ns < |servers|
      ensures NoErrors(socket, old(tries), tries) ==> SameUps(old(servers), servers) && reqs[k].ns == old(reqs)[k].ns
      ensures AllSent(socket, old(tries), tries) ==> servers == old(servers)
      ensures var was := old(reqs)[k];
              var choked := old(servers)[was.ns].choked;
              && tries == old(tries) + (if choked then 0 else 1)
              && (choked ==> reqs == old(reqs)[k := was.(transmitMe := true)] && servers == old(servers))
              && (!choked && socket(old(tries)) == 1 ==>
                    && reqs == old(reqs)[k := was.(transmitMe := true)]
                    && servers == old(servers)[was.ns := old(servers)[was.ns].(choked := true)])
              && (!choked && socket(old(tries)) == 2 ==>
                    reqs[k] == Transmitted(was).(ns := reqs[k].ns) && FailedState(old(servers), servers, was.ns))
              && (!choked && socket(old(tries)) != 1 && socket(old(tries)) != 2 ==>
                    reqs == old(reqs)[k := Transmitted(was)] && servers == old(servers))
    {
      hide FlightOk, CountsOk, IdsOk, WaitOk, Ups, AllTxOk, Watched, Valid, TxOk, FailedState;
      FlyingFacts(this, k);
      TxMarked(reqs[k], maxReissues, maxTx);
      SetReq(k, reqs[k].(transmitMe := true));
      if servers[reqs[k].ns].choked {
        return;
      }
      var sent := Ask();
      if sent == 1 {
        SetServer(reqs[k].ns, servers[reqs[k].ns].(choked := true));
        return;
      }
      GoesOut(k, sent == 2);
    }

    /** The request was handed to the socket, which may have answered with an error. */
    method GoesOut(k: nat, error: bool)
      requires Valid() && k in flying && k in reqs && reqs[k].tx < maxTx
      modifies this`reqs, this`servers, this`serverHead, this`good
      ensures Valid() && |servers| == |old(servers)| && reqs.Keys == old(reqs.Keys)
      ensures reqs[k] == Transmitted(old(reqs)[k]).(ns := reqs[k].ns)
      ensures forall x :: x in reqs && x != k ==>
        reqs[x] == old(reqs)[x] || MovedFrom(old(reqs)[x], reqs[x], old(reqs)[k].ns, servers)
      ensures 0 <= reqs[k].ns < |servers|
      ensures !error ==> reqs == old(reqs)[k := Transmitted(old(reqs)[k])] && servers == old(servers)
      ensures error ==> old(reqs)[k].ns >= 0 && FailedState(old(servers), servers, old(reqs)[k].ns)
    {
      hide FlightOk, CountsOk, IdsOk, WaitOk, Ups, AllTxOk, Watched, Valid, TxOk, FailedState;
      FlyingFacts(this, k);
      TxOnce(reqs[k], maxReissues, maxTx);
      if error {
        Failed(reqs[k].ns);
      }
      FlyingFacts(this, k);
      TxOnce(reqs[k], maxReissues, maxTx);
      SetReq(k, Transmitted(reqs[k]));
    }

    /** A request is tried if it is marked. */
    method Flush(k: nat, ghost since: nat, ghost was: Reqs)
      requires Valid() && k in flying && k in reqs && since <= tries
      requires NoErrors(socket, since, tries) ==> Flushing(was, reqs)
      modifies this`reqs, this`servers, this`serverHead, this`good, this`tries
      ensures Valid() && |servers| == |old(servers)| && reqs.Keys == old(reqs.Keys) && old(tries) <= tries
      ensures AllProgressed(old(reqs), reqs)
      ensures NoErrors(socket, since, tries) ==>
        && Flushing(was, reqs) && k in reqs && Settled(reqs[k], servers)
        && StillSettled(old(reqs), old(servers), reqs, servers)
      ensures AllSent(socket, old(tries), tries) ==> servers == old(servers)
    {
      hide *;
      FlyingFacts(this, k);
      ghost var reqs0, servers0, tries0 := reqs, servers, tries;
      if reqs[k].transmitMe {
        TxMarked(reqs[k], maxReissues, maxTx);
        Transmit(k);
        if NoErrors(socket, since, tries) {
          StillNoErrors(socket, since, tries0, tries);
          FlushStep(was, reqs0, servers0, reqs, servers, k);
        }
      } else {
        NotMarked(reqs, servers, k);
      }
    }

    /** The marked requests of one bucket are tried. */
    method FlushBucket(i: nat, ghost since: nat, ghost was: Reqs)
      requires Valid() && i < |heads| && since <= tries && (NoErrors(socket, since, tries) ==> Flushing(was, reqs))
      modifies this`reqs, this`servers, this`serverHead, this`good, this`tries
      ensures Valid() && |servers| == |old(servers)| && reqs.Keys == old(reqs.Keys) && old(tries) <= tries
      ensures AllProgressed(old(reqs), reqs)
      ensures NoErrors(socket, since, tries) ==>
        && Flushing(was, reqs) && AllSettled(reqs, servers, heads[i])
        && StillSettled(old(reqs), old(servers), reqs, servers)
      ensures AllSent(socket, old(tries), tries) ==> servers == old(servers)
    {
      hide Flushing, AllSent, NoErrors;
      ghost var reqs0, servers0, tries0 := reqs, servers, tries;
      for n := 0 to |heads[i]|
        invariant Valid() && |servers| == |servers0| && reqs.Keys == reqs0.Keys && tries0 <= tries
        invariant AllProgressed(reqs0, reqs)
        invariant NoErrors(socket, since, tries) ==>
          && Flushing(was, reqs) && AllSettled(reqs, servers, heads[i][..n])
          && StillSettled(reqs0, servers0, reqs, servers)
        invariant AllSent(socket, tries0, tries) ==> servers == servers0
      {
        KeyInFlight(reqs, heads, flying, i, n);
        hide Valid, Flushing, AllSettled, Settled, StillSettled, AllProgressed, SameUps, AllSent;
        ghost var reqs1, servers1, tries1 := reqs, servers, tries;
        Flush(heads[i][n], since, was);
        SentParts(socket, tries0, tries1, tries);
        ProgressedTrans(reqs0, reqs1, reqs);
        if NoErrors(socket, since, tries) {
          StillNoErrors(socket, since, tries1, tries);
          SettledMore(reqs1, servers1, reqs, servers, heads[i], n);
          StillSettledTrans(reqs0, servers0, reqs1, servers1, reqs, servers);
        }
      }
      assert heads[i][..|heads[i]|] == heads[i];
    }

    /**
      evdns_transmit: as long as no socket reports an error, a marked request goes out at most once,
      nothing else changes, and afterwards only requests whose server is choked are still marked.
     */
    method TransmitAll()
      requires Valid()
      modifies this`reqs, this`servers, this`serverHead, this`good, this`tries
      ensures Valid() && |servers| == |old(servers)| && reqs.Keys == old(reqs.Keys) && old(tries) <= tries
      ensures AllProgressed(old(reqs), reqs)
      ensures NoErrors(socket, old(tries), tries) ==>
        && Flushing(old(reqs), reqs) && SameUps(old(servers), servers)
        && InFlightSettled(reqs, flying, servers)
      ensures AllSent(socket, old(tries), tries) ==> servers == old(servers)
    {
      ghost var reqs0, servers0, tries0 := reqs, servers, tries;
      for i := 0 to |heads|
        invariant Valid() && |servers| == |old(servers)| && reqs.Keys == reqs0.Keys && tries0 <= tries
        invariant AllProgressed(reqs0, reqs)
        invariant NoErrors(socket, tries0, tries) ==>
          && Flushing(reqs0, reqs) && SameUps(servers0, servers)
          && forall j :: 0 <= j < i ==> AllSettled(reqs, servers, heads[j])
        invariant AllSent(socket, tries0, tries) ==> servers == servers0
      {
        ghost var reqs1, servers1, tries1 := reqs, servers, tries;
        FlushBucket(i, tries0, reqs0);
        SentParts(socket, tries0, tries1, tries);
        ProgressedTrans(reqs0, reqs1, reqs);
        if NoErrors(socket, tries0, tries) {
          StillNoErrors(socket, tries0, tries1, tries);
          BucketsStillSettled(reqs1, servers1, reqs, servers, heads, i);
          SameUpsTrans(servers0, servers1, servers);
        }
        hide Valid, Flushing, AllSettled, Settled, StillSettled, AllProgressed, SameUps, AllSent;
      }
      if NoErrors(socket, tries0, tries) {
        FlyingSettled(reqs, servers, heads, flying);
      }
    }

    /** request_find_from_trans_id: only one bucket is looked at, and that is enough. */
    method Find(id: nat) returns (found: bool, k: nat)
      requires Valid()
      ensures found ==> k in flying && k in reqs && reqs[k].id == id
      ensures !found ==> forall x :: x in flying && x in reqs ==> reqs[x].id != id
    {
      var i := Slot(id, |heads|);
      found, k := false, 0;
      for n := 0 to |heads[i]|
        invariant forall m :: 0 <= m < n ==> heads[i][m] in reqs && reqs[heads[i][m]].id != id
      {
        KeyInFlight(reqs, heads, flying, i, n);
        if reqs[heads[i][n]].id == id {
          return true, heads[i][n];
        }
      }
      BucketHas(reqs, heads, flying, i);
    }

    /** transaction_id_pick: ids are drawn until one is free; there is a free one, so it turns up. */
    method PickId() returns (id: nat)
      requires Valid()
      modifies this`drawn
      ensures Valid() && Free(reqs, flying, id) && old(drawn) < drawn && id == draws(drawn - 1)
      ensures forall n :: old(drawn) <= n < drawn - 1 ==> !Free(reqs, flying, draws(n))
    {
      FreeIdExists(reqs, flying);
      assert flying <= reqs.Keys;
      ghost var goal: nat :| Free(reqs, flying, goal);
      assert TurnsUp(draws, goal, drawn);
      ghost var last: nat :| drawn <= last && draws(last) == goal;
      hide FlightOk, CountsOk, IdsOk, WaitOk, AllTxOk, Watched, Ups;
      while true
        invariant Valid() && old(drawn) <= drawn <= last && flying <= reqs.Keys
        invariant forall n :: old(drawn) <= n < drawn ==> !Free(reqs, flying, draws(n))
        decreases last - drawn
      {
        id := draws(drawn);
        drawn := drawn + 1;
        if id < NO_ID {
          var found, k := Find(id);
          if !found {
            return;
          }
        }
      }
    }

    /** A request enters the table of those in flight: its place, the counters, its server's count. */
    method Enter(k: nat, r: Req)
      requires Valid() && k !in reqs && inflight < maxInflight && Free(reqs, flying, r.id) && 0 <= r.ns < |servers|
      requires TxOk(r, maxReissues, maxTx) && r.transmitMe
      modifies this`reqs, this`heads, this`servers, this`inflight, this`flying
      ensures Valid() && reqs == old(reqs)[k := r] && flying == old(flying) + {k} && SameState(old(servers), servers)
      ensures |servers| == |old(servers)|
    {
      hide FlightOk, CountsOk, IdsOk, WaitOk, AllTxOk, TxOk, Watched, Ups, Free, Slot, Minus, Moved;
      Entered(reqs, heads, flying, servers, waiting, k, r, maxReissues, maxTx);
      var i := Slot(r.id, |heads|);
      heads := heads[i := heads[i] + [k]];
      servers := servers[r.ns := servers[r.ns].(inflight := servers[r.ns].inflight + 1)];
      inflight := inflight + 1;
      flying := flying + {k};
      reqs := reqs[k := r];
    }

    /** A request leaves the table of those in flight and is freed. */
    method Leave(k: nat)
      requires Valid() && k in flying && k in reqs
      modifies this`reqs, this`heads, this`servers, this`inflight, this`flying
      ensures Valid() && reqs == old(reqs) - {k} && flying == old(flying) - {k} && |servers| == |old(servers)|
      ensures SameUps(old(servers), servers)
    {
      hide FlightOk, CountsOk, IdsOk, WaitOk, AllTxOk, TxOk, Watched, Ups, Free, Slot, Minus, Moved;
      LeftTable(reqs, heads, flying, servers, waiting, k, maxReissues, maxTx);
      var i, s := Slot(reqs[k].id, |heads|), reqs[k].ns;
      heads := heads[i := Minus(heads[i], k)];
      servers := servers[s := servers[s].(inflight := servers[s].inflight - 1)];
      inflight := inflight - 1;
      flying := flying - {k};
      reqs := reqs - {k};
    }

    /** A request joins the waiting queue. */
    method Wait(k: nat, r: Req)
      requires Valid() && k !in reqs && r.ns == -1 && r.tx == 0 && TxOk(r, maxReissues, maxTx)
      modifies this`reqs, this`waiting, this`nWaiting
      ensures Valid() && reqs == old(reqs)[k := r] && waiting == old(waiting) + [k]
    {
      FlightOther(reqs, heads, flying, k, r);
      CountsOther(reqs, flying, servers, k, r);
      WaitMore(reqs, waiting, flying, k, r);
      TxSet(reqs, k, r, maxReissues, maxTx);
      WatchedSet(reqs, flying, k, r);
      hide FlightOk, CountsOk, Ups, TxOk, WaitOk, AllTxOk, Watched;
      waiting, nWaiting := waiting + [k], nWaiting + 1;
      reqs := reqs[k := r];
    }

    /** A request leaves the waiting queue and is freed. */
    method Unwait(k: nat)
      requires Valid() && k in waiting
      modifies this`reqs, this`waiting, this`nWaiting
      ensures Valid() && k in old(reqs) && k !in flying && reqs == old(reqs) - {k}
      ensures waiting == Minus(old(waiting), k) && nWaiting == old(nWaiting) - 1
    {
      var n := PlaceOf(waiting, k);
      FlightOther(reqs, heads, flying, k, reqs[k]);
      CountsOther(reqs, flying, servers, k, reqs[k]);
      MinusHas(waiting, k);
      WaitMinus(reqs, waiting, flying, k);
      WatchedSet(reqs, flying, k, reqs[k]);
      hide FlightOk, CountsOk, Ups, TxOk, WaitOk, Minus, Watched;
      waiting, nWaiting := Minus(waiting, k), nWaiting - 1;
      reqs := reqs - {k};
    }

    /** request_new and request_submit: straight into flight if there is room and a server, otherwise waiting */
    method Submit(k: nat)
      requires Valid() && k !in reqs
      modifies this
      ensures Valid() && reqs.Keys == old(reqs.Keys) + {k} && |servers| == |old(servers)|
      ensures maxInflight == old(maxInflight) && AllProgressed(old(reqs), reqs)
      ensures k in flying <==> old(inflight) < maxInflight && servers != []
      ensures k !in flying ==> waiting == old(waiting) + [k] && servers == old(servers) && flying == old(flying)
      ensures k in flying ==> Settled(reqs[k], servers) && waiting == old(waiting) && flying == old(flying) + {k}
      ensures k in flying && NoErrors(socket, old(tries), tries) && old(good) > 0 ==>
        NextUp(old(servers), old(serverHead), reqs[k].ns) && SameUps(old(servers), servers)
    {
      hide FlightOk, CountsOk, IdsOk, WaitOk, Ups, AllTxOk, Watched, Valid, TxOk;
      hide NextUp, Free, NoErrors, Settled, Progressed;
      NotFlying(this, k);
      ProgressedOther(reqs, k, Req(0, -1, 0, 0, false, false, 0));
      if inflight < maxInflight {
        var id := PickId();
        var s := Pick();
        if s != -1 {
          Launch(k, id, s);
        } else {
          FreshTx(id, -1, maxReissues, maxTx);
          ProgressedOther(reqs, k, Req(id, -1, 0, 0, false, false, 0));
          Wait(k, Req(id, -1, 0, 0, false, false, 0));
        }
      } else {
        FreshTx(NO_ID, -1, maxReissues, maxTx);
        ProgressedOther(reqs, k, Req(NO_ID, -1, 0, 0, false, false, 0));
        Wait(k, Req(NO_ID, -1, 0, 0, false, false, 0));
      }
    }

    /** A new request goes into flight. */
    method Launch(k: nat, id: nat, s: nat)
      requires Valid() && k !in reqs && inflight < maxInflight && Free(reqs, flying, id) && s < |servers| && maxTx >= 1
      modifies this`reqs, this`heads, this`servers, this`inflight, this`flying, this`serverHead, this`good, this`tries
      ensures Valid() && reqs.Keys == old(reqs.Keys) + {k} && flying == old(flying) + {k} && |servers| == |old(servers)|
      ensures Settled(reqs[k], servers) && AllProgressed(old(reqs), reqs)
      ensures NoErrors(socket, old(tries), tries) ==>
        SameUps(old(servers), servers) && reqs[k].id == id && reqs[k].ns == s
    {
      hide FlightOk, CountsOk, IdsOk, WaitOk, Ups, AllTxOk, Watched, Valid, TxOk;
      hide FailedState, Settled, Free, NoErrors, MovedFrom;
      ghost var reqs0, servers0 := reqs, servers;
      FreshTx(id, s, maxReissues, maxTx);
      Enter(k, Req(id, s, 0, 0, true, false, 0));  // the mark is the first thing evdns_request_transmit sets
      ProgressedOther(reqs0, k, reqs[k]);
      ghost var reqs1, servers1 := reqs, servers;
      StateUps(servers0, servers1);
      Transmit(k);
      ProgressedTrans(reqs0, reqs1, reqs);
      if NoErrors(socket, old(tries), tries) {
        SameUpsTrans(servers0, servers1, servers);
      }
    }

    /** The first waiting request goes into flight with server `s`. */
    method Promote(s: nat)
      requires Valid() && s < |servers| && inflight < maxInflight && waiting != []
      modifies this
      ensures Valid() && reqs.Keys == old(reqs.Keys) && |servers| == |old(servers)| && maxInflight == old(maxInflight)
      ensures waiting == old(waiting)[1..] && flying == old(flying) + {old(waiting)[0]} && old(tries) <= tries
      ensures old(waiting)[0] in reqs && Settled(reqs[old(waiting)[0]], servers) && AllProgressed(old(reqs), reqs)
      ensures NoErrors(socket, old(tries), tries) ==>
        SameUps(old(servers), servers) && reqs[old(waiting)[0]].ns == s
    {
      hide FlightOk, CountsOk, IdsOk, WaitOk, Ups, AllTxOk, Watched, Valid, TxOk;
      hide Settled, Free, NoErrors, Minus, MovedFrom;
      WaitingFacts(this);
      MinusAt(waiting, 0);
      assert waiting[..0] + waiting[1..] == waiting[1..];
      ghost var reqs0, servers0 := reqs, servers;
      var k := waiting[0];
      var r := reqs[k];
      Unwait(k);
      var id := PickId();
      TxSame(r, id, s, maxReissues, maxTx);
      Enter(k, r.(id := id, ns := s, transmitMe := true));  // as in Launch
      assert reqs == reqs0[k := reqs[k]];
      ProgressedSet(reqs0, k, reqs[k]);
      ghost var reqs1, servers1 := reqs, servers;
      StateUps(servers0, servers1);
      Transmit(k);
      hide AllProgressed, SameUps, SameState;
      ProgressedTrans(reqs0, reqs1, reqs);
      if NoErrors(socket, old(tries), tries) {
        SameUpsTrans(servers0, servers1, servers);
      }
    }

    /** evdns_requests_pump_waiting_queue: afterwards nothing waits while there is room and a server. */
    method Pump()
      requires Valid()
      modifies this
      ensures Valid() && reqs.Keys == old(reqs.Keys) && |servers| == |old(servers)| && maxInflight == old(maxInflight)
      ensures inflight < maxInflight && servers != [] ==> waiting == []
      ensures old(flying) <= flying && old(tries) <= tries && AllProgressed(old(reqs), reqs)
      ensures IsTail(waiting, old(waiting))
      ensures NoErrors(socket, old(tries), tries) ==> SameUps(old(servers), servers)
      ensures NoErrors(socket, old(tries), tries) && |waiting| < |old(waiting)| ==>
        InFlightSettled(reqs, flying, servers)
    {
      ghost var reqs0, servers0, tries0, waiting0 := reqs, servers, tries, waiting;
      ProgressedSelf(reqs);
      StateUps(servers, servers);
      hide *;
      WaitCount(this);
      TailSelf(waiting);
      while inflight < maxInflight && nWaiting > 0
        invariant Valid() && reqs.Keys == reqs0.Keys && |servers| == |servers0|
        invariant maxInflight == old(maxInflight) && AllProgressed(reqs0, reqs)
        invariant old(flying) <= flying && tries0 <= tries
        invariant nWaiting == |waiting| && IsTail(waiting, waiting0)
        invariant NoErrors(socket, tries0, tries) ==> SameUps(servers0, servers)
        invariant NoErrors(socket, tries0, tries) && |waiting| < |waiting0| ==>
          InFlightSettled(reqs, flying, servers)
        decreases nWaiting
      {
        TailNext(waiting, waiting0);
        var more := PumpOne(reqs0, servers0, tries0);
        if !more {
          return;
        }
        WaitCount(this);
      }
    }

    /** One turn of evdns_requests_pump_waiting_queue */
    method PumpOne(ghost reqs0: Reqs, ghost servers0: seq<Server>, ghost tries0: nat) returns (more: bool)
      requires Valid() && inflight < maxInflight && waiting != [] && tries0 <= tries
      requires reqs.Keys == reqs0.Keys && AllProgressed(reqs0, reqs)
      requires NoErrors(socket, tries0, tries) ==> SameUps(servers0, servers)
      modifies this
      ensures Valid() && reqs.Keys == reqs0.Keys && |servers| == |old(servers)| && maxInflight == old(maxInflight)
      ensures old(flying) <= flying && old(tries) <= tries && AllProgressed(reqs0, reqs)
      ensures more <==> servers != []
      ensures !more ==> unchanged(this)
      ensures more ==> waiting == old(waiting)[1..]
      ensures more && NoErrors(socket, tries0, tries) ==>
        SameUps(servers0, servers) && InFlightSettled(reqs, flying, servers)
    {
      hide *;
      var s := Pick();
      if s == -1 {
        return false;
      }
      more := true;
      ghost var reqs1, servers1, tries1 := reqs, servers, tries;
      Promote(s);
      ghost var reqs2, servers2, tries2 := reqs, servers, tries;
      ProgressedTrans(reqs0, reqs1, reqs2);
      TransmitAll();
      ProgressedTrans(reqs0, reqs2, reqs);
      if NoErrors(socket, tries0, tries) {
        StillNoErrors(socket, tries0, tries2, tries);
        StillNoErrors(socket, tries0, tries1, tries2);
        LateNoErrors(socket, tries0, tries1, tries2);
        LateNoErrors(socket, tries0, tries2, tries);
        SameUpsTrans(servers0, servers1, servers2);
        SameUpsTrans(servers0, servers2, servers);
      }
    }

    /** request_finished, and evdns_cancel_request */
    method Finish(k: nat)
      requires Valid() && k in reqs
      modifies this
      ensures Valid() && reqs.Keys == old(reqs.Keys) - {k} && |servers| == |old(servers)|
      ensures maxInflight == old(maxInflight) && AllProgressed(old(reqs), reqs)
      ensures inflight < maxInflight && servers != [] ==> waiting == []
      ensures old(tries) <= tries && (NoErrors(socket, old(tries), tries) ==> SameUps(old(servers), servers))
    {
      assert reqs[k].ns != -1 <==> k in flying by {
        assert k !in flying ==> k in waiting;
      }
      assert k !in flying ==> k in waiting;
      ghost var reqs0, servers0 := reqs, servers;
      ProgressedLess(reqs, k);
      StateUps(servers, servers);
      hide FlightOk, CountsOk, IdsOk, WaitOk, AllTxOk, Watched, Ups, AllProgressed, SameUps, NoErrors;
      if reqs[k].ns != -1 {
        Leave(k);
      } else {
        Unwait(k);
      }
      ghost var reqs1, servers1 := reqs, servers;
      Pump();
      ProgressedTrans(reqs0, reqs1, reqs);
      if NoErrors(socket, old(tries), tries) {
        SameUpsTrans(servers0, servers1, servers);
      }
    }

    /** evdns_request_timeout_callback: the request goes out again, or is given up when it went out often enough. */
    method Timeout(k: nat)
      requires Valid() && k in flying && k in reqs
      modifies this
      ensures Valid() && |servers| == |old(servers)| && maxInflight == old(maxInflight)
      ensures old(reqs)[k].tx < maxTx ==> Blamed(old(servers), servers, maxTimeouts)
      ensures AllProgressed(old(reqs), reqs)
      ensures old(reqs)[k].tx >= maxTx ==> 0 <= old(reqs)[k].ns < |servers| && !servers[old(reqs)[k].ns].up
      ensures reqs.Keys == if old(reqs)[k].tx >= maxTx then old(reqs.Keys) - {k} else old(reqs.Keys)
      ensures old(reqs)[k].tx < maxTx && reqs[k].tx > 0 && old(good) > 0 && NoErrors(socket, old(tries), tries) ==>
        NextUp(old(servers), old(serverHead), reqs[k].ns)
      ensures old(reqs)[k].tx < maxTx ==> SentOrMarked(reqs[k], old(reqs)[k])
      ensures old(reqs)[k].tx < maxTx && reqs[k].transmitMe ==> SomeChoked(old(servers)) || socket(old(tries)) == 1
    {
      assert 0 <= reqs[k].ns < |servers|;
      hide FlightOk, CountsOk, IdsOk, WaitOk, AllTxOk, Watched, Ups;
      if reqs[k].tx >= maxTx {
        var s := reqs[k].ns;
        ghost var reqs0 := reqs;
        Finish(k);
        ghost var reqs1 := reqs;
        Failed(s);
        MovesProgress(reqs1, reqs, s, servers);
        ProgressedTrans(reqs0, reqs1, reqs);
      } else {
        Retry(k);
      }
    }

    /** The second half of evdns_request_timeout_callback */
    method Retry(k: nat)
      requires Valid() && k in flying && k in reqs && reqs[k].tx < maxTx
      modifies this`reqs, this`servers, this`serverHead, this`good, this`tries
      ensures Valid() && Blamed(old(servers), servers, maxTimeouts) && reqs.Keys == old(reqs.Keys)
      ensures SentOrMarked(reqs[k], old(reqs)[k]) && AllProgressed(old(reqs), reqs)
      ensures reqs[k].tx > 0 && old(good) > 0 && NoErrors(socket, old(tries), tries) ==>
        NextUp(old(servers), old(serverHead), reqs[k].ns)
      ensures reqs[k].transmitMe ==> SomeChoked(old(servers)) || socket(old(tries)) == 1
    {
      hide *;
      Again(k);
      FlyingFacts(this, k);
      ghost var reqs0, servers0 := reqs, servers;
      var s := reqs[k].ns;
      Blame(s);
      BlamedAfter(old(servers), servers0, servers, s, maxTimeouts);
      SentOrMarkedMoves(old(reqs)[k], reqs0, reqs, k, s, servers);
      MovesProgress(reqs0, reqs, s, servers);
      ProgressedTrans(old(reqs), reqs0, reqs);
    }

    /** The request goes out again, to the server that is next. */
    method Again(k: nat)
      requires Valid() && k in flying && k in reqs && reqs[k].tx < maxTx
      modifies this`reqs, this`servers, this`serverHead, this`good, this`tries
      ensures Valid() && reqs.Keys == old(reqs.Keys) && SameTimeouts(old(servers), servers)
      ensures SentOrMarked(reqs[k], old(reqs)[k]) && AllProgressed(old(reqs), reqs)
      ensures reqs[k].transmitMe ==> SomeChoked(old(servers)) || socket(old(tries)) == 1
      ensures old(good) > 0 && NoErrors(socket, old(tries), tries) ==>
        NextUp(old(servers), old(serverHead), reqs[k].ns)
    {
      hide FlightOk, CountsOk, IdsOk, WaitOk, Ups, AllTxOk, Watched, Valid, TxOk;
      hide NextUp, NoErrors, MovedFrom, Settled, Progressed;
      ghost var reqs0 := reqs;
      FlyingFacts(this, k);
      TxMarked(reqs[k], maxReissues, maxTx);
      SetReq(k, reqs[k].(transmitMe := true, timer := false));  // as in Launch
      var p := Pick();
      SwapNs(k, p);
      assert reqs == reqs0[k := reqs[k]];
      ProgressedSet(reqs0, k, reqs[k]);
      ghost var reqs1 := reqs;
      Transmit(k);
      ProgressedTrans(reqs0, reqs1, reqs);
    }

    /** A request to the server timed out: the server fails when that happened too often. */
    method Blame(s: nat)
      requires Valid() && s < |servers|
      modifies this`reqs, this`servers, this`serverHead, this`good
      ensures Valid() && Moves(old(reqs), reqs, s, servers) && |servers| == |old(servers)|
      ensures if old(servers)[s].timedout + 1 > maxTimeouts then servers[s].timedout == 0 && !servers[s].up
              else servers == old(servers)[s := old(servers)[s].(timedout := old(servers)[s].timedout + 1)]
    {
      hide FlightOk, CountsOk, IdsOk, WaitOk, Ups, AllTxOk, Watched, Valid, TxOk;
      var timedout := servers[s].timedout + 1;
      if timedout > maxTimeouts {
        SetServer(s, servers[s].(timedout := 0));
        Failed(s);
      } else {
        SetServer(s, servers[s].(timedout := timedout));
      }
    }

    /** request_reissue: 0 if the request goes to another server, 1 if there is no point */
    method Reissue(k: nat) returns (r: int)
      requires Valid() && k in flying && k in reqs && reqs[k].reissues < maxReissues
      modifies this`reqs, this`servers, this`serverHead
      ensures Valid() && |servers| == |old(servers)| && reqs.Keys == old(reqs.Keys) && (r == 0 || r == 1)
      ensures r == 0 ==>
        && reqs[k].ns != old(reqs)[k].ns && reqs[k].tx == 0 && reqs[k].transmitMe
        && reqs[k].reissues == old(reqs)[k].reissues + 1
      ensures r == 1 ==> reqs[k] == old(reqs)[k]
      ensures good > 0 && !servers[old(reqs)[k].ns].up ==> r == 0
      ensures r == 0 && good > 0 ==> 0 <= reqs[k].ns < |servers| && servers[reqs[k].ns].up
      ensures SameState(old(servers), servers) && forall x :: x in reqs && x != k ==> reqs[x] == old(reqs)[x]
    {
      hide Valid, FlightOk, CountsOk, IdsOk, WaitOk, AllTxOk, Watched, Ups, TxOk, NextUp;
      FlyingFacts(this, k);
      var last := reqs[k].ns;
      var p := Pick();
      SwapNs(k, p);
      FlyingFacts(this, k);
      ReissueTx(reqs[k], maxReissues, maxTx);
      if reqs[k].ns == last {
        return 1;
      }
      SetReq(k, reqs[k].(reissues := reqs[k].reissues + 1, tx := 0, transmitMe := true));
      r := 0;
    }

    /** The server of a request fails, and the request goes to another one. */
    method FailOver(k: nat) returns (r: int)
      requires Valid() && k in flying && k in reqs && reqs[k].reissues < maxReissues
      modifies this`reqs, this`servers, this`serverHead, this`good
      ensures Valid() && |servers| == |old(servers)| && reqs.Keys == old(reqs.Keys) && (r == 0 || r == 1)
      ensures r == 0 ==> reqs[k].tx == 0 && reqs[k].transmitMe && reqs[k].reissues == old(reqs)[k].reissues + 1
      ensures 0 <= old(reqs)[k].ns < |servers| && !servers[old(reqs)[k].ns].up
      ensures OthersProgressed(old(reqs), reqs, k)
      ensures old(reqs)[k].tx > 0 && AnotherUp(old(servers), old(reqs)[k].ns) ==>
        r == 0 && 0 <= reqs[k].ns < |servers| && servers[reqs[k].ns].up && reqs[k].ns != old(reqs)[k].ns
    {
      hide FlightOk, CountsOk, IdsOk, WaitOk, AllTxOk, Watched, Ups, NextUp, TxOk;
      FlyingFacts(this, k);
      ghost var reqs0, servers0, s := reqs, servers, reqs[k].ns;
      Failed(reqs[k].ns);
      MovesProgress(reqs0, reqs, s, servers);
      FlyingFacts(this, k);
      if AnotherUp(servers0, s) {
        ghost var i :| 0 <= i < |servers0| && i != s && servers0[i].up;
        SomeUp(servers, i);
      }
      r := Reissue(k);
    }

    /** A request is answered: its server works, and it is finished. */
    method Done(k: nat)
      requires Valid() && k in flying && k in reqs
      modifies this
      ensures Valid() && reqs.Keys == old(reqs.Keys) - {k} && |servers| == |old(servers)|
      ensures maxInflight == old(maxInflight) && AllProgressed(old(reqs), reqs) && 0 <= old(reqs)[k].ns < |servers|
      ensures NoErrors(socket, old(tries), tries) ==> servers[old(reqs)[k].ns].up
    {
      hide FlightOk, CountsOk, IdsOk, WaitOk, AllTxOk, Watched, Ups, AllProgressed, NoErrors, Valid;
      FlyingFacts(this, k);
      Up(reqs[k].ns);
      Finish(k);
    }

    /** A server has refused: the request goes to another one, or is given up. */
    method Refused(k: nat)
      requires Valid() && k in flying && k in reqs
      modifies this
      ensures Valid() && |servers| == |old(servers)| && maxInflight == old(maxInflight)
      ensures old(reqs.Keys) - {k} <= reqs.Keys <= old(reqs.Keys) && OthersProgressed(old(reqs), reqs, k)
      ensures k in reqs ==>
        && reqs[k].reissues == old(reqs)[k].reissues + 1 && reqs[k].tx == 0 && reqs[k].transmitMe
        && 0 <= old(reqs)[k].ns < |servers| && !servers[old(reqs)[k].ns].up
      ensures old(reqs)[k].reissues >= maxReissues ==> k !in reqs
      ensures old(reqs)[k].reissues < maxReissues && old(reqs)[k].tx > 0 && AnotherUp(old(servers), old(reqs)[k].ns) ==>
        && k in reqs && k in flying && 0 <= reqs[k].ns < |servers| && servers[reqs[k].ns].up
        && reqs[k].ns != old(reqs)[k].ns
    {
      hide *;
      ghost var reqs0 := reqs;
      ProgressedSelf(reqs);
      OthersToo(reqs, reqs, k);
      if reqs[k].reissues < maxReissues {
        var r := FailOver(k);
        if r == 0 {
          return;
        }
      }
      ghost var reqs1 := reqs;
      Finish(k);
      OthersTrans(reqs0, reqs1, reqs, k);
    }

    /** reply_handle, without a search list */
    method Reply(k: nat, answer: Answer)
      requires Valid() && k in flying && k in reqs
      modifies this
      ensures Valid() && |servers| == |old(servers)| && maxInflight == old(maxInflight)
      ensures old(reqs.Keys) - {k} <= reqs.Keys <= old(reqs.Keys) && OthersProgressed(old(reqs), reqs, k)
      ensures answer == Good || answer == OtherError ==> reqs.Keys == old(reqs.Keys) - {k}
      ensures (answer == Good || answer == OtherError) && NoErrors(socket, old(tries), tries) ==>
        0 <= old(reqs)[k].ns < |servers| && servers[old(reqs)[k].ns].up
      ensures answer == BadServer && k in reqs ==>
        && reqs[k].reissues == old(reqs)[k].reissues + 1 && reqs[k].tx == 0 && reqs[k].transmitMe
        && 0 <= old(reqs)[k].ns < |servers| && !servers[old(reqs)[k].ns].up
      ensures answer == BadServer && old(reqs)[k].reissues >= maxReissues ==> k !in reqs
      ensures answer == BadServer && old(reqs)[k].reissues < maxReissues && old(reqs)[k].tx > 0
              && AnotherUp(old(servers), old(reqs)[k].ns) ==>
        && k in reqs && k in flying && 0 <= reqs[k].ns < |servers| && servers[reqs[k].ns].up
        && reqs[k].ns != old(reqs)[k].ns
      ensures answer == ServerFailed ==> (k in reqs <==> old(reqs)[k].tx < maxTx)
      ensures answer == ServerFailed && k in reqs ==> SentOrMarked(reqs[k], old(reqs)[k])
    {
      hide *;
      ghost var reqs0 := reqs;
      match answer {
        case ServerFailed =>
          Timeout(k);
          OthersToo(reqs0, reqs, k);
        case BadServer =>
          Refused(k);
        case Good =>
          Done(k);
          OthersToo(reqs0, reqs, k);
        case OtherError =>
          Done(k);
          OthersToo(reqs0, reqs, k);
      }
    }

    /** evdns_base_set_max_requests_inflight: all requests in flight go to the buckets of a new table. */
    method SetMaxInflight(n: int)
      requires Valid() && n <= MOST_IN_FLIGHT
      modifies this`heads, this`maxInflight
      ensures Valid() && maxInflight == (if n < 1 then 1 else n) && |heads| == (maxInflight + 4) / 5
    {
      var m := if n < 1 then 1 else n;
      var table := Rehash(reqs, heads, (m + 4) / 5, flying);
      hide FlightOk, CountsOk, IdsOk, WaitOk, AllTxOk, Watched, Ups;
      heads := table;
      maxInflight := m;
    }
  }

  lemma {:induction false} NothingMoved(reqs: Reqs, heads: seq<seq<nat>>)
    requires |heads| > 0 && (forall i :: 0 <= i < |heads| ==> heads[i] == []) && Total(heads) == 0
    ensures FlightOk(reqs, heads, {})
  {
    hide Slot, Total;
    forall i, k | 0 <= i < |heads| && 0 <= k
      ensures InBucket(reqs, heads, {}, i, k)
    {
      assert heads[i] == [];
    }
  }

  /** The requests of one bucket go to the buckets of the new table. */
  method RehashBucket(reqs: Reqs, q: seq<nat>, table: seq<seq<nat>>, ghost moved: set<nat>)
    returns (r: seq<seq<nat>>, ghost moved': set<nat>)
    requires FlightOk(reqs, table, moved) && NoDup(q) && forall b :: 0 <= b < |q| ==> q[b] in reqs && q[b] !in moved
    ensures |r| == |table| && FlightOk(reqs, r, moved') && forall k :: k in moved' <==> k in moved || k in q
  {
    r, moved' := table, moved;
    for b := 0 to |q|
      invariant |r| == |table| && FlightOk(reqs, r, moved')
      invariant forall k :: k in moved' <==> k in moved || k in q[..b]
    {
      assert q[b] !in q[..b];
      FlightInsert(reqs, r, moved', q[b], reqs[q[b]]);
      assert reqs[q[b] := reqs[q[b]]] == reqs;
      var j := Slot(reqs[q[b]].id, |r|);
      hide FlightOk, Slot;
      r := r[j := r[j] + [q[b]]];
      moved' := moved' + {q[b]};
    }
    assert q[..|q|] == q;
  }

  lemma {:induction false} BucketHas(reqs: Reqs, heads: seq<seq<nat>>, flying: set<nat>, i: nat)
    requires FlightOk(reqs, heads, flying) && i < |heads|
    ensures NoDup(heads[i])
    ensures forall k: nat :: k in heads[i] <==> k in flying && k in reqs && Slot(reqs[k].id, |heads|) == i
  {
    hide Slot;
    forall k: nat
      ensures k in heads[i] <==> k in flying && k in reqs && Slot(reqs[k].id, |heads|) == i
    {
      assert InBucket(reqs, heads, flying, i, k);
    }
  }

  /** The same requests in a table of another size */
  method Rehash(reqs: Reqs, heads: seq<seq<nat>>, count: nat, ghost flying: set<nat>) returns (r: seq<seq<nat>>)
    requires FlightOk(reqs, heads, flying) && count > 0
    ensures |r| == count && FlightOk(reqs, r, flying)
  {
    r := seq(count, _ => []);
    ghost var moved: set<nat> := {};
    TotalOfNone(r);
    NothingMoved(reqs, r);
    var n := |heads|;
    assert n > 0;
    for i := 0 to n
      invariant |r| == count && FlightOk(reqs, r, moved)
      invariant forall k: nat :: k in moved <==> k in flying && k in reqs && Slot(reqs[k].id, n) < i
    {
      BucketHas(reqs, heads, flying, i);
      hide FlightOk, Slot, NoDup;
      r, moved := RehashBucket(reqs, heads[i], r, moved);
    }
    assert moved == flying;
  }

  /** The table with one more request in flight */
  lemma {:induction false} Entered(
      reqs: Reqs, heads: seq<seq<nat>>, flying: set<nat>, servers: seq<Server>, waiting: seq<nat>, k: nat, r: Req,
      maxReissues: nat, maxTx: nat)
    requires FlightOk(reqs, heads, flying) && IdsOk(reqs, flying) && CountsOk(reqs, flying, servers)
    requires WaitOk(reqs, waiting, flying)
    requires AllTxOk(reqs, maxReissues, maxTx) && Watched(reqs, flying)
    requires k !in reqs && Free(reqs, flying, r.id) && 0 <= r.ns < |servers| && TxOk(r, maxReissues, maxTx)
    requires r.transmitMe
    ensures k !in flying && |heads| > 0
    ensures var i, reqs', flying' := Slot(r.id, |heads|), reqs[k := r], flying + {k};
            var v := servers[r.ns].(inflight := servers[r.ns].inflight + 1);
            && FlightOk(reqs', heads[i := heads[i] + [k]], flying') && IdsOk(reqs', flying')
            && CountsOk(reqs', flying', servers[r.ns := v]) && Ups(servers[r.ns := v]) == Ups(servers)
            && WaitOk(reqs', waiting, flying') && AllTxOk(reqs', maxReissues, maxTx) && Watched(reqs', flying')
  {
    assert k !in flying && |heads| > 0;
    hide *;
    FlightInsert(reqs, heads, flying, k, r);
    CountsInsert(reqs, flying, servers, k, r);
    IdsInsert(reqs, flying, k, r);
    UpsUpdate(servers, r.ns, servers[r.ns].(inflight := servers[r.ns].inflight + 1));
    WaitEnter(reqs, waiting, flying, k, r);
    TxSet(reqs, k, r, maxReissues, maxTx);
    WatchedSet(reqs, flying, k, r);
  }

  /** The table without one of the requests in flight */
  lemma {:induction false} LeftTable(
      reqs: Reqs, heads: seq<seq<nat>>, flying: set<nat>, servers: seq<Server>, waiting: seq<nat>, k: nat,
      maxReissues: nat, maxTx: nat)
    requires FlightOk(reqs, heads, flying) && IdsOk(reqs, flying) && CountsOk(reqs, flying, servers)
    requires WaitOk(reqs, waiting, flying)
    requires AllTxOk(reqs, maxReissues, maxTx) && Watched(reqs, flying) && k in flying
    ensures k in reqs && |heads| > 0 && 0 <= reqs[k].ns < |servers|
    ensures var i, s, reqs', flying' := Slot(reqs[k].id, |heads|), reqs[k].ns, reqs - {k}, flying - {k};
            var v := servers[s].(inflight := servers[s].inflight - 1);
            && FlightOk(reqs', heads[i := Minus(heads[i], k)], flying') && IdsOk(reqs', flying')
            && CountsOk(reqs', flying', servers[s := v]) && Ups(servers[s := v]) == Ups(servers)
            && WaitOk(reqs', waiting, flying') && AllTxOk(reqs', maxReissues, maxTx) && Watched(reqs', flying')
  {
    FlightRemove(reqs, heads, flying, k);
    assert 0 <= reqs[k].ns < |servers| && (reqs[k].transmitMe || reqs[k].timer);
    TableLess(reqs, flying, k, maxReissues, maxTx);
    hide *;
    CountsRemove(reqs, flying, servers, k);
    UpsUpdate(servers, reqs[k].ns, servers[reqs[k].ns].(inflight := servers[reqs[k].ns].inflight - 1));
    WaitLeave(reqs, waiting, flying, k);
    WatchedSet(reqs, flying, k, reqs[k]);
  }

  lemma {:induction false} TableLess(reqs: Reqs, flying: set<nat>, k: nat, maxReissues: nat, maxTx: nat)
    requires IdsOk(reqs, flying) && AllTxOk(reqs, maxReissues, maxTx)
    ensures IdsOk(reqs - {k}, flying - {k}) && AllTxOk(reqs - {k}, maxReissues, maxTx)
  {
  }

  /** The table with a request that has another server */
  lemma {:induction false} Swapped(
      reqs: Reqs, heads: seq<seq<nat>>, flying: set<nat>, servers: seq<Server>, waiting: seq<nat>, k: nat, s: nat,
      maxReissues: nat, maxTx: nat)
    requires FlightOk(reqs, heads, flying) && IdsOk(reqs, flying) && CountsOk(reqs, flying, servers)
    requires WaitOk(reqs, waiting, flying)
    requires AllTxOk(reqs, maxReissues, maxTx) && Watched(reqs, flying) && k in flying && s < |servers| && k in reqs
    requires reqs[k].ns != s
    ensures 0 <= reqs[k].ns < |servers| && servers[reqs[k].ns].inflight > 0
    ensures var servers', reqs' := Moved(servers, reqs[k].ns, s), reqs[k := reqs[k].(ns := s)];
            && FlightOk(reqs', heads, flying) && IdsOk(reqs', flying)
            && CountsOk(reqs', flying, servers') && Ups(servers') == Ups(servers) && SameState(servers, servers')
            && WaitOk(reqs', waiting, flying) && AllTxOk(reqs', maxReissues, maxTx) && Watched(reqs', flying)
  {
    assert 0 <= reqs[k].ns < |servers| && (reqs[k].transmitMe || reqs[k].timer) && TxOk(reqs[k], maxReissues, maxTx);
    var r := reqs[k].(ns := s);
    assert TxOk(r, maxReissues, maxTx);
    IdsWaitFrame(reqs, waiting, flying, k, r);
    CountsSwap(reqs, flying, servers, k, s);
    hide *;
    FlightFrame(reqs, heads, flying, k, r);
    UpsMoved(servers, reqs[k].ns, s);
    TxSet(reqs, k, r, maxReissues, maxTx);
    WatchedSet(reqs, flying, k, r);
  }

  lemma {:induction false} IdsWaitFrame(reqs: Reqs, waiting: seq<nat>, flying: set<nat>, k: nat, r: Req)
    requires IdsOk(reqs, flying) && WaitOk(reqs, waiting, flying) && k in flying && r.id == reqs[k].id
    ensures IdsOk(reqs[k := r], flying) && WaitOk(reqs[k := r], waiting, flying)
  {
  }

  lemma {:induction false} IdsInsert(reqs: Reqs, flying: set<nat>, k: nat, r: Req)
    requires IdsOk(reqs, flying) && k !in flying && Free(reqs, flying, r.id)
    ensures IdsOk(reqs[k := r], flying + {k})
  {
  }

  lemma {:induction false} FlightOther(reqs: Reqs, heads: seq<seq<nat>>, flying: set<nat>, k: nat, r: Req)
    requires FlightOk(reqs, heads, flying) && k !in flying
    ensures FlightOk(reqs[k := r], heads, flying) && FlightOk(reqs - {k}, heads, flying)
  {
    hide Slot, Total;
    var more, less := reqs[k := r], reqs - {k};
    forall i, x | 0 <= i < |heads| && 0 <= x
      ensures InBucket(more, heads, flying, i, x) && InBucket(less, heads, flying, i, x)
    {
      assert InBucket(reqs, heads, flying, i, x);
    }
  }

  lemma {:induction false} FreshTx(id: nat, s: int, maxReissues: nat, maxTx: nat)
    requires maxTx >= 1
    ensures TxOk(Req(id, s, 0, 0, false, false, 0), maxReissues, maxTx)
    ensures TxOk(Req(id, s, 0, 0, true, false, 0), maxReissues, maxTx)
  {
  }

  lemma {:induction false} TxMarked(r: Req, maxReissues: nat, maxTx: nat)
    requires TxOk(r, maxReissues, maxTx) && r.tx < maxTx
    ensures TxOk(r.(transmitMe := true), maxReissues, maxTx)
    ensures TxOk(r.(transmitMe := true, timer := false), maxReissues, maxTx)
    ensures Transmitted(r.(transmitMe := true)) == Transmitted(r)
  {
  }

  lemma {:induction false} TxOnce(r: Req, maxReissues: nat, maxTx: nat)
    requires TxOk(r, maxReissues, maxTx) && r.tx < maxTx
    ensures TxOk(Transmitted(r), maxReissues, maxTx)
    ensures Transmitted(r).id == r.id && Transmitted(r).ns == r.ns
  {
  }

  lemma {:induction false} FlyingFacts(base: DnsBase, k: nat)
    requires base.Valid() && k in base.flying
    ensures base.maxTx >= 1 && k in base.reqs && 0 <= base.reqs[k].ns < |base.servers|
    ensures base.reqs[k].id < NO_ID && TxOk(base.reqs[k], base.maxReissues, base.maxTx)
    ensures base.reqs[k].transmitMe || base.reqs[k].timer
  {
  }

  lemma {:induction false} NotFlying(base: DnsBase, k: nat)
    requires base.Valid() && k !in base.reqs
    ensures base.maxTx >= 1 && k !in base.flying
  {
  }

  /** The first ones of the queue are gone. */
  ghost predicate IsTail(q: seq<nat>, whole: seq<nat>) {
    |q| <= |whole| && q == whole[|whole| - |q|..]
  }

  lemma {:induction false} TailSelf(q: seq<nat>)
    ensures IsTail(q, q)
  {
  }

  lemma {:induction false} TailNext(q: seq<nat>, whole: seq<nat>)
    requires IsTail(q, whole) && q != []
    ensures IsTail(q[1..], whole)
  {
  }

  lemma {:induction false} WaitCount(base: DnsBase)
    requires base.Valid()
    ensures base.nWaiting == |base.waiting|
  {
  }

  lemma {:induction false} WaitingFacts(base: DnsBase)
    requires base.Valid() && base.waiting != []
    ensures base.maxTx >= 1 && base.waiting[0] in base.reqs
    ensures base.reqs[base.waiting[0]].ns == -1
    ensures NoDup(base.waiting) && base.waiting[0] !in base.flying && base.reqs[base.waiting[0]].tx == 0
    ensures TxOk(base.reqs[base.waiting[0]], base.maxReissues, base.maxTx)
  {
  }

  lemma {:induction false} TxSame(r: Req, id: nat, s: int, maxReissues: nat, maxTx: nat)
    requires TxOk(r, maxReissues, maxTx) && r.tx < maxTx
    ensures TxOk(r.(id := id, ns := s, transmitMe := true), maxReissues, maxTx)
  {
  }

  lemma {:induction false} TxSet(reqs: Reqs, k: nat, r: Req, maxReissues: nat, maxTx: nat)
    requires AllTxOk(reqs, maxReissues, maxTx) && TxOk(r, maxReissues, maxTx)
    ensures AllTxOk(reqs[k := r], maxReissues, maxTx)
  {
    hide TxOk;
  }

  lemma {:induction false} WatchedSet(reqs: Reqs, flying: set<nat>, k: nat, r: Req)
    requires Watched(reqs, flying) && (k in flying ==> r.transmitMe || r.timer)
    ensures Watched(reqs[k := r], flying) && Watched(reqs - {k}, flying) && Watched(reqs - {k}, flying - {k})
    ensures r.transmitMe || r.timer ==> Watched(reqs[k := r], flying + {k})
  {
  }

  lemma {:induction false} WaitEnter(reqs: Reqs, waiting: seq<nat>, flying: set<nat>, k: nat, r: Req)
    requires WaitOk(reqs, waiting, flying) && k !in reqs
    ensures WaitOk(reqs[k := r], waiting, flying + {k})
  {
  }

  lemma {:induction false} WaitLeave(reqs: Reqs, waiting: seq<nat>, flying: set<nat>, k: nat)
    requires WaitOk(reqs, waiting, flying) && k in flying
    ensures WaitOk(reqs - {k}, waiting, flying - {k})
  {
  }

  lemma {:induction false} WaitMore(reqs: Reqs, waiting: seq<nat>, flying: set<nat>, k: nat, r: Req)
    requires WaitOk(reqs, waiting, flying) && k !in reqs && k !in flying && r.ns == -1 && r.tx == 0
    ensures WaitOk(reqs[k := r], waiting + [k], flying)
  {
  }

  lemma {:induction false} WaitMinus(reqs: Reqs, waiting: seq<nat>, flying: set<nat>, k: nat)
    requires WaitOk(reqs, waiting, flying) && k in waiting
    ensures WaitOk(reqs - {k}, Minus(waiting, k), flying)
  {
    MinusHas(waiting, k);
    var q := Minus(waiting, k);
    forall i | 0 <= i < |q|
      ensures q[i] in reqs - {k} && q[i] !in flying && reqs[q[i]].ns == -1 && reqs[q[i]].tx == 0
    {
      assert q[i] in q && q[i] in waiting;
    }
  }

  // ---------- evdns_transmit ----------

  /** None of these answers was an error. */
  ghost predicate NoErrors(socket: nat -> int, since: nat, upto: nat) {
    forall n :: since <= n < upto ==> socket(n) != 2
  }

  /** Every request is as before, or was marked and has gone out. */
  ghost predicate Flushing(was: Reqs, reqs: Reqs) {
    && reqs.Keys == was.Keys
    && forall k :: k in reqs ==> reqs[k] == was[k] || (was[k].transmitMe && reqs[k] == Transmitted(was[k]))
  }

  /** The request is not marked, or its server is choked. */
  ghost predicate Settled(r: Req, servers: seq<Server>) {
    r.transmitMe ==> 0 <= r.ns < |servers| && servers[r.ns].choked
  }

  ghost predicate SomeChoked(servers: seq<Server>) {
    exists s :: 0 <= s < |servers| && servers[s].choked
  }

  ghost predicate InFlightSettled(reqs: Reqs, flying: set<nat>, servers: seq<Server>) {
    forall k :: k in flying && k in reqs ==> Settled(reqs[k], servers)
  }

  ghost predicate AllSettled(reqs: Reqs, servers: seq<Server>, q: seq<nat>) {
    forall b :: 0 <= b < |q| && q[b] in reqs ==> Settled(reqs[q[b]], servers)
  }

  ghost predicate StillSettled(reqs: Reqs, servers: seq<Server>, reqs': Reqs, servers': seq<Server>) {
    && reqs'.Keys == reqs.Keys && SameUps(servers, servers')
    && forall k :: k in reqs && Settled(reqs[k], servers) ==> Settled(reqs'[k], servers')
  }

  /** The same servers are up. */
  ghost predicate SameUps(servers: seq<Server>, servers': seq<Server>) {
    |servers'| == |servers| && forall i :: 0 <= i < |servers| ==> servers'[i].up == servers[i].up
  }

  lemma {:induction false} SameUpsTrans(a: seq<Server>, b: seq<Server>, c: seq<Server>)
    requires SameUps(a, b) && SameUps(b, c)
    ensures SameUps(a, c)
  {
  }

  lemma {:induction false} StillNoErrors(socket: nat -> int, since: nat, mid: nat, upto: nat)
    requires NoErrors(socket, since, upto) && since <= mid <= upto
    ensures NoErrors(socket, since, mid) && (mid < upto ==> socket(mid) != 2)
  {
  }

  /** The socket took everything. */
  ghost predicate AllSent(socket: nat -> int, since: nat, upto: nat) {
    forall t :: since <= t < upto ==> socket(t) != 1 && socket(t) != 2
  }

  lemma {:induction false} SentParts(socket: nat -> int, since: nat, mid: nat, upto: nat)
    requires since <= mid <= upto
    ensures AllSent(socket, since, upto) ==> AllSent(socket, since, mid) && AllSent(socket, mid, upto)
  {
  }

  lemma {:induction false} LateNoErrors(socket: nat -> int, since: nat, mid: nat, upto: nat)
    requires NoErrors(socket, since, upto) && since <= mid <= upto
    ensures NoErrors(socket, mid, upto)
  {
  }

  lemma {:induction false} NotMarked(reqs: Reqs, servers: seq<Server>, k: nat)
    requires k in reqs && !reqs[k].transmitMe
    ensures Settled(reqs[k], servers) && StillSettled(reqs, servers, reqs, servers) && AllProgressed(reqs, reqs)
  {
  }

  /** What one try does when there is no error */
  lemma {:induction false} FlushStep(
      was: Reqs, reqs: Reqs, servers: seq<Server>, reqs': Reqs, servers': seq<Server>, k: nat)
    requires Flushing(was, reqs) && k in reqs && reqs[k].transmitMe && 0 <= reqs[k].ns < |servers|
    requires
      || (reqs' == reqs[k := Transmitted(reqs[k])] && servers' == servers)
      || (&& reqs' == reqs[k := reqs[k].(transmitMe := true)]
          && servers' == servers[reqs[k].ns := servers[reqs[k].ns].(choked := true)])
      || (reqs' == reqs[k := reqs[k].(transmitMe := true)] && servers' == servers && servers[reqs[k].ns].choked)
    ensures Flushing(was, reqs') && Settled(reqs'[k], servers') && StillSettled(reqs, servers, reqs', servers')
  {
    assert reqs[k].(transmitMe := true) == reqs[k];
  }

  lemma {:induction false} SettledMore(
      reqs: Reqs, servers: seq<Server>, reqs': Reqs, servers': seq<Server>, q: seq<nat>, n: nat)
    requires n < |q| && AllSettled(reqs, servers, q[..n]) && StillSettled(reqs, servers, reqs', servers')
    requires q[n] in reqs' && Settled(reqs'[q[n]], servers')
    ensures AllSettled(reqs', servers', q[..n + 1])
  {
    hide Settled;
    var q' := q[..n + 1];
    forall b | 0 <= b < |q'| && q'[b] in reqs'
      ensures Settled(reqs'[q'[b]], servers')
    {
      assert b < n ==> q[..n][b] == q'[b];
    }
  }

  lemma {:induction false} StillSettledTrans(
      a: Reqs, servers: seq<Server>, b: Reqs, servers': seq<Server>, c: Reqs, servers'': seq<Server>)
    requires StillSettled(a, servers, b, servers') && StillSettled(b, servers', c, servers'')
    ensures StillSettled(a, servers, c, servers'')
  {
    hide Settled;
  }

  lemma {:induction false} BucketsStillSettled(
      reqs: Reqs, servers: seq<Server>, reqs': Reqs, servers': seq<Server>, heads: seq<seq<nat>>, i: nat)
    requires i < |heads| && (forall j :: 0 <= j < i ==> AllSettled(reqs, servers, heads[j]))
    requires StillSettled(reqs, servers, reqs', servers') && AllSettled(reqs', servers', heads[i])
    ensures SameUps(servers, servers') && forall j :: 0 <= j <= i ==> AllSettled(reqs', servers', heads[j])
  {
    hide Settled;
  }

  lemma {:induction false} FlyingSettled(reqs: Reqs, servers: seq<Server>, heads: seq<seq<nat>>, flying: set<nat>)
    requires FlightOk(reqs, heads, flying) && forall j :: 0 <= j < |heads| ==> AllSettled(reqs, servers, heads[j])
    ensures InFlightSettled(reqs, flying, servers)
  {
    hide Settled;
    forall k | k in flying && k in reqs
      ensures Settled(reqs[k], servers)
    {
      var i := Slot(reqs[k].id, |heads|);
      assert InBucket(reqs, heads, flying, i, k);
      var b := PlaceOf(heads[i], k);
    }
  }

  /** A request has at most been sent more often, been moved to another server, or got an id and a server of its own. */
  ghost predicate Progressed(was: Req, r: Req) {
    && r.reissues == was.reissues && r.tx - was.tx == r.sent - was.sent >= 0
    && (was.ns != -1 ==> r.id == was.id && r.ns != -1)
  }

  ghost predicate AllProgressed(was: Reqs, reqs: Reqs) {
    forall k :: k in was && k in reqs ==> Progressed(was[k], reqs[k])
  }

  ghost predicate OthersProgressed(was: Reqs, reqs: Reqs, k: nat) {
    forall x :: x in was && x in reqs && x != k ==> Progressed(was[x], reqs[x])
  }

  lemma {:induction false} OthersToo(a: Reqs, b: Reqs, k: nat)
    requires AllProgressed(a, b)
    ensures OthersProgressed(a, b, k)
  {
  }

  lemma {:induction false} OthersTrans(a: Reqs, b: Reqs, c: Reqs, k: nat)
    requires OthersProgressed(a, b, k) && AllProgressed(b, c) && forall x :: x in a && x in c ==> x in b
    ensures OthersProgressed(a, c, k)
  {
  }

  lemma {:induction false} ProgressedTrans(a: Reqs, b: Reqs, c: Reqs)
    requires AllProgressed(a, b) && AllProgressed(b, c) && forall k :: k in a && k in c ==> k in b
    ensures AllProgressed(a, c)
  {
  }

  lemma {:induction false} ProgressedOther(reqs: Reqs, k: nat, r: Req)
    requires k !in reqs
    ensures AllProgressed(reqs, reqs[k := r]) && AllProgressed(reqs, reqs)
  {
  }

  lemma {:induction false} ProgressedSelf(reqs: Reqs)
    ensures AllProgressed(reqs, reqs)
  {
  }

  lemma {:induction false} ProgressedLess(reqs: Reqs, k: nat)
    ensures AllProgressed(reqs, reqs - {k})
  {
  }

  lemma {:induction false} ProgressedSet(reqs: Reqs, k: nat, r: Req)
    requires k in reqs && Progressed(reqs[k], r)
    ensures AllProgressed(reqs, reqs[k := r])
  {
  }

  lemma {:induction false} StateUps(a: seq<Server>, b: seq<Server>)
    requires SameState(a, b)
    ensures SameUps(a, b)
  {
  }

  lemma {:induction false} MovesProgress(a: Reqs, b: Reqs, s: int, servers: seq<Server>)
    requires Moves(a, b, s, servers)
    ensures AllProgressed(a, b)
  {
  }

  /** Once more sent, or marked to be sent, perhaps with another server */
  ghost predicate SentOrMarked(r: Req, was: Req) {
    r == Transmitted(was).(ns := r.ns) || r == was.(transmitMe := true, timer := false, ns := r.ns)
  }

  /** A request that has just gone out */
  function Transmitted(r: Req): Req {
    r.(tx := r.tx + 1, sent := r.sent + 1, transmitMe := false, timer := true)
  }

  lemma {:induction false} UpsAppend(servers: seq<Server>, v: Server)
    ensures Ups(servers + [v]) == Ups(servers) + if v.up then 1 else 0
  {
    if servers != [] {
      UpsAppend(servers[1..], v);
      assert (servers + [v])[1..] == servers[1..] + [v];
    } else {
      assert [v][1..] == [];
    }
  }

  lemma {:induction false} CountsAppend(reqs: Reqs, flying: set<nat>, servers: seq<Server>, v: Server)
    requires CountsOk(reqs, flying, servers) && v.inflight == 0
    ensures CountsOk(reqs, flying, servers + [v])
  {
    assert Assigned(reqs, flying, |servers|) == {};
  }

  /** Some requests that have not gone out were moved from server `s` to one that is up; nothing else has changed. */
  ghost predicate Moves(reqs: Reqs, reqs': Reqs, s: int, servers: seq<Server>) {
    reqs'.Keys == reqs.Keys && forall k :: k in reqs ==> reqs'[k] == reqs[k] || MovedFrom(reqs[k], reqs'[k], s, servers)
  }

  ghost predicate MovedFrom(r: Req, r': Req, s: int, servers: seq<Server>) {
    r.tx == 0 && r.ns == s && 0 <= r'.ns < |servers| && servers[r'.ns].up && r' == r.(ns := r'.ns)
  }

  lemma {:induction false} MovesServers(reqs: Reqs, reqs': Reqs, s: int, a: seq<Server>, b: seq<Server>)
    requires Moves(reqs, reqs', s, a) && SameState(a, b)
    ensures Moves(reqs, reqs', s, b)
  {
  }

  /** At most the counts of servers have changed. */
  ghost predicate SameState(servers: seq<Server>, servers': seq<Server>) {
    && |servers'| == |servers|
    && forall i :: 0 <= i < |servers| ==> servers'[i] == servers[i].(inflight := servers'[i].inflight)
  }

  /** The server is down; otherwise at most the counts of servers have changed. */
  ghost predicate FailedState(servers: seq<Server>, servers': seq<Server>, s: nat) {
    && |servers'| == |servers|
    && forall i :: 0 <= i < |servers| ==>
         servers'[i] == servers[i].(inflight := servers'[i].inflight, up := i != s && servers[i].up)
  }

  /** One server has one more timeout on its account, or is down and starts again at none. */
  ghost predicate Blamed(servers: seq<Server>, servers': seq<Server>, maxTimeouts: nat) {
    && |servers'| == |servers|
    && exists s :: 0 <= s < |servers| &&
         if servers[s].timedout + 1 > maxTimeouts then servers'[s].timedout == 0 && !servers'[s].up
         else servers'[s].timedout == servers[s].timedout + 1
  }

  ghost predicate SameTimeouts(servers: seq<Server>, servers': seq<Server>) {
    |servers'| == |servers| && forall i :: 0 <= i < |servers| ==> servers'[i].timedout == servers[i].timedout
  }

  lemma {:induction false} BlamedAfter(a: seq<Server>, b: seq<Server>, c: seq<Server>, s: nat, maxTimeouts: nat)
    requires SameTimeouts(a, b) && s < |b| && |c| == |b|
    requires if b[s].timedout + 1 > maxTimeouts then c[s].timedout == 0 && !c[s].up
             else c == b[s := b[s].(timedout := b[s].timedout + 1)]
    ensures Blamed(a, c, maxTimeouts)
  {
    assert a[s].timedout == b[s].timedout;
  }

  lemma {:induction false} SentOrMarkedMoves(was: Req, reqs: Reqs, reqs': Reqs, k: nat, s: int, servers: seq<Server>)
    requires Moves(reqs, reqs', s, servers) && k in reqs && SentOrMarked(reqs[k], was)
    ensures SentOrMarked(reqs'[k], was) && reqs'[k].transmitMe == reqs[k].transmitMe && reqs'.Keys == reqs.Keys
    ensures reqs'[k].tx == reqs[k].tx && (reqs[k].tx > 0 ==> reqs'[k].ns == reqs[k].ns)
  {
  }

  lemma {:induction false} MovesTrans(a: Reqs, b: Reqs, c: Reqs, s: int, servers: seq<Server>, servers': seq<Server>)
    requires Moves(a, b, s, servers) && Moves(b, c, s, servers') && SameState(servers, servers')
    ensures Moves(a, c, s, servers)
  {
    forall k | k in a
      ensures c[k] == a[k] || MovedFrom(a[k], c[k], s, servers)
    {
      assert b[k] == a[k] || MovedFrom(a[k], b[k], s, servers);
      assert c[k] == b[k] || MovedFrom(b[k], c[k], s, servers');
    }
  }

  lemma {:induction false} SameStateOn(a: seq<Server>, b: seq<Server>, c: seq<Server>)
    requires SameState(a, b) && SameState(b, c)
    ensures SameState(a, c)
  {
  }

  /** No request of the list that has not gone out is with server `s`. */
  ghost predicate Left(reqs: Reqs, q: seq<nat>, s: nat) {
    forall b :: 0 <= b < |q| && q[b] in reqs && reqs[q[b]].tx == 0 ==> reqs[q[b]].ns != s
  }

  lemma {:induction false} LeftMore(reqs: Reqs, reqs': Reqs, k: nat, s: nat, heads: seq<seq<nat>>, q: seq<nat>, n: nat)
    requires reqs'.Keys == reqs.Keys && n < |q| && q[n] == k && k in reqs && Left(reqs, q[..n], s)
    requires reqs'[k] == reqs[k].(ns := reqs'[k].ns)
    requires forall x :: x in reqs && x != k ==> reqs'[x] == reqs[x]
    requires reqs'[k].tx == 0 ==> reqs'[k].ns != s
    ensures Left(reqs', q[..n + 1], s)
    ensures forall j :: 0 <= j < |heads| && Left(reqs, heads[j], s) ==> Left(reqs', heads[j], s)
  {
    var q' := q[..n + 1];
    forall b | 0 <= b < |q'| && q'[b] in reqs' && reqs'[q'[b]].tx == 0
      ensures reqs'[q'[b]].ns != s
    {
      assert b < n ==> q[..n][b] == q'[b];
    }
  }

  lemma {:induction false} FlyingLeft(reqs: Reqs, heads: seq<seq<nat>>, flying: set<nat>, s: nat)
    requires FlightOk(reqs, heads, flying) && forall j :: 0 <= j < |heads| ==> Left(reqs, heads[j], s)
    ensures forall k :: k in flying && k in reqs && reqs[k].tx == 0 ==> reqs[k].ns != s
  {
    forall k | k in flying && k in reqs && reqs[k].tx == 0
      ensures reqs[k].ns != s
    {
      var i := Slot(reqs[k].id, |heads|);
      assert InBucket(reqs, heads, flying, i, k);
      var b := PlaceOf(heads[i], k);
    }
  }

  lemma {:induction false} KeyInFlight(reqs: Reqs, heads: seq<seq<nat>>, flying: set<nat>, i: nat, n: nat)
    requires FlightOk(reqs, heads, flying) && i < |heads| && n < |heads[i]|
    ensures heads[i][n] in flying && heads[i][n] in reqs
  {
    assert InBucket(reqs, heads, flying, i, heads[i][n]);
  }

  lemma {:induction false} UpsMoved(servers: seq<Server>, n: nat, s: nat)
    requires n < |servers| && s < |servers|
    ensures Ups(Moved(servers, n, s)) == Ups(servers)
    ensures SameState(servers, Moved(servers, n, s))
  {
    var v := servers[n].(inflight := servers[n].inflight - 1);
    UpsUpdate(servers, n, v);
    var servers1 := servers[n := v];
    UpsUpdate(servers1, s, servers1[s].(inflight := servers1[s].inflight + 1));
  }

  /** A server other than `s` is up. */
  ghost predicate AnotherUp(servers: seq<Server>, s: int) {
    exists i :: 0 <= i < |servers| && i != s && servers[i].up
  }

  /** The first server that is up, from `start` on around the circle */
  ghost predicate NextUp(servers: seq<Server>, start: nat, s: int) {
    exists d :: && 0 <= d < |servers| && start < |servers| && s == Around(start, d, |servers|) && servers[s].up
                && forall c :: 0 <= c < d ==> !servers[Around(start, c, |servers|)].up
  }

  /** The server `d` places after `start` on the circle */
  function Around(start: nat, d: nat, n: nat): (i: nat)
    requires start < n && d <= n
    ensures i < n
  {
    if start + d < n then start + d else start + d - n
  }

  lemma {:induction false} AroundNext(start: nat, d: nat, n: nat)
    requires start < n && d < n
    ensures (Around(start, d, n) + 1) % n == Around(start, d + 1, n)
  {
    var i := Around(start, d, n);
    if i + 1 < n {
      assert (i + 1) % n == i + 1;
    } else {
      assert i + 1 == n;
      assert n % n == 0;
    }
  }

  lemma {:induction false} AllAround(servers: seq<Server>, start: nat)
    requires start < |servers| && forall d :: 0 <= d < |servers| ==> !servers[Around(start, d, |servers|)].up
    ensures Ups(servers) == 0
  {
    forall s | 0 <= s < |servers|
      ensures !servers[s].up
    {
      var d := if s >= start then s - start else s - start + |servers|;
      assert Around(start, d, |servers|) == s;
    }
    NoneUp(servers);
  }

  /** In every state that can be reached, no request has been sent more than (reissues + 1) * retransmits times. */
  lemma {:induction false} SentAtMost(base: DnsBase, k: nat)
    requires base.Valid() && k in base.reqs
    ensures base.reqs[k].sent <= (base.maxReissues + 1) * base.maxTx
  {
    assert TxOk(base.reqs[k], base.maxReissues, base.maxTx);
    SentBound(base.reqs[k], base.maxReissues, base.maxTx);
  }

  /** The lists are as long as the counters say, and each server has as many requests as it counts. */
  lemma {:induction false} CountersAreSizes(base: DnsBase)
    requires base.Valid()
    ensures base.inflight == Total(base.heads) <= MOST_IN_FLIGHT && base.nWaiting == |base.waiting|
    ensures forall s :: 0 <= s < |base.servers| ==> base.servers[s].inflight == |Assigned(base.reqs, base.flying, s)|
    ensures exists id :: Free(base.reqs, base.flying, id)
  {
    FreeIdExists(base.reqs, base.flying);
  }
}
