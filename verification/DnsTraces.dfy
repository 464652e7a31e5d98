/**
 Whole runs of the resolver: what each step does to the requests, and that none is lost, confused
 with another or answered twice.
 */
module DnsTraces {
  import opened DnsTable
  import opened DnsRequests

  datatype Step =
    | SubmitStep(k: nat)
    | CancelStep(k: nat)
    | ReplyStep(id: nat, answer: Answer)
    | TimeoutStep(k: nat)
    | FailStep(s: nat)
    | UpStep(s: nat)
    | AddServerStep
    | ReadyStep(s: nat)
    | ResizeStep(n: int)

  datatype Shot = Shot(reqs: Reqs, servers: seq<Server>, maxInflight: int)

  ghost function Now(base: DnsBase): Shot
    reads base
  {
    Shot(base.reqs, base.servers, base.maxInflight)
  }

  /** The request in flight that a reply with this id is for */
  predicate IsFor(reqs: Reqs, k: nat, id: nat) {
    k in reqs && reqs[k].ns != -1 && reqs[k].id == id
  }

  /** What a step does to the requests and to the servers it names */
  ghost predicate Stepped(z: Shot, step: Step, z': Shot, maxTx: nat) {
    match step
    case SubmitStep(k) => z'.reqs.Keys == z.reqs.Keys + {k} && AllProgressed(z.reqs, z'.reqs)
    case CancelStep(k) => z'.reqs.Keys == z.reqs.Keys - {k} && AllProgressed(z.reqs, z'.reqs)
    case ReplyStep(id, answer) => Answered(z, id, answer, z')
    case TimeoutStep(k) =>
      && z'.reqs.Keys == (if RunsOut(z.reqs, k, maxTx) then z.reqs.Keys - {k} else z.reqs.Keys)
      && AllProgressed(z.reqs, z'.reqs)
      && (IsOut(z.reqs, k) && z.reqs[k].tx < maxTx ==> k in z'.reqs && SentOrMarked(z'.reqs[k], z.reqs[k]))
    case FailStep(s) =>
      && z'.reqs.Keys == z.reqs.Keys && AllProgressed(z.reqs, z'.reqs) && |z'.servers| == |z.servers|
      && (s < |z.servers| ==> !z'.servers[s].up)
    case UpStep(s) =>
      z'.reqs == z.reqs && |z'.servers| == |z.servers| && (s < |z.servers| ==> z'.servers[s].up)
    case AddServerStep => z'.reqs == z.reqs && z'.servers == z.servers + [Server(true, false, 0, 0)]
    case ReadyStep(s) => z'.reqs.Keys == z.reqs.Keys && AllProgressed(z.reqs, z'.reqs)
    case ResizeStep(n) =>
      z' == z.(maxInflight := if n > MOST_IN_FLIGHT then z.maxInflight else if n < 1 then 1 else n)
  }

  /** The request is in flight and its timer is set. */
  predicate IsOut(reqs: Reqs, k: nat) {
    k in reqs && reqs[k].ns != -1 && reqs[k].timer
  }

  /** The request has been sent as often as it may be, and its time is over. */
  predicate RunsOut(reqs: Reqs, k: nat, maxTx: nat) {
    IsOut(reqs, k) && reqs[k].tx >= maxTx
  }

  /** A reply changes nothing but the request it is for, and an answer ends that. */
  ghost predicate Answered(z: Shot, id: nat, answer: Answer, z': Shot) {
    && (forall k :: IsFor(z.reqs, k, id) ==>
          && z.reqs.Keys - {k} <= z'.reqs.Keys <= z.reqs.Keys && OthersProgressed(z.reqs, z'.reqs, k)
          && (answer == Good || answer == OtherError ==> k !in z'.reqs))
    && ((forall k :: !IsFor(z.reqs, k, id)) ==> z' == z)
  }

  /** One step; one that names a request or server that is not there does nothing. */
  method Do(base: DnsBase, step: Step)
    requires base.Valid()
    modifies base
    ensures base.Valid() && Stepped(old(Now(base)), step, Now(base), base.maxTx)
    ensures step.ReadyStep? && step.s < |old(base.servers)| && NoErrors(base.socket, old(base.tries), base.tries) ==>
      InFlightSettled(base.reqs, base.flying, base.servers)
    ensures step.ReadyStep? && step.s < |old(base.servers)| && AllSent(base.socket, old(base.tries), base.tries) ==>
      base.servers == old(base.servers)[step.s := old(base.servers)[step.s].(choked := false)]
  {
    ProgressedSelf(base.reqs);
    match step {
      case SubmitStep(k) =>
        if k !in base.reqs {
          hide *;
          base.Submit(k);
        }
      case CancelStep(k) =>
        if k in base.reqs {
          base.Finish(k);
        }
      case ReplyStep(id, answer) =>
        Receive(base, id, answer);
      case TimeoutStep(k) =>
        if IsOut(base.reqs, k) {
          WithServerInFlight(base, k);
          base.Timeout(k);
        }
      case FailStep(s) =>
        if s < |base.servers| {
          base.Failed(s);
          MovesProgress(old(base.reqs), base.reqs, s, base.servers);
        }
      case UpStep(s) =>
        if s < |base.servers| {
          base.Up(s);
        }
      case AddServerStep =>
        base.AddServer();
      case ReadyStep(s) =>
        if s < |base.servers| {
          base.SetServer(s, base.servers[s].(choked := false));
          base.TransmitAll();
        }
      case ResizeStep(n) =>
        if n <= MOST_IN_FLIGHT {
          base.SetMaxInflight(n);
        }
    }
  }

  lemma {:induction false} WithServerInFlight(base: DnsBase, k: nat)
    requires base.Valid() && k in base.reqs
    ensures base.reqs[k].ns != -1 <==> k in base.flying
  {
    assert k !in base.flying ==> k in base.waiting;
  }

  /** A reply is for the request in flight with its id, if there is one. */
  method Receive(base: DnsBase, id: nat, answer: Answer)
    requires base.Valid()
    modifies base
    ensures base.Valid() && Answered(old(Now(base)), id, answer, Now(base))
  {
    var found, k := base.Find(id);
    OnlyOne(base, id);
    hide *;
    if found {
      base.Reply(k, answer);
    }
  }

  /** No two requests in flight have the same id. */
  lemma {:induction false} OnlyOne(base: DnsBase, id: nat)
    requires base.Valid()
    ensures forall k, x :: IsFor(base.reqs, k, id) && IsFor(base.reqs, x, id) ==> k == x
    ensures forall k :: IsFor(base.reqs, k, id) ==> k in base.flying
    ensures forall k :: k in base.flying && k in base.reqs && base.reqs[k].id == id ==> IsFor(base.reqs, k, id)
  {
    forall k | k in base.reqs
      ensures base.reqs[k].ns != -1 <==> k in base.flying
    {
      WithServerInFlight(base, k);
    }
  }

  /** A run, step by step */
  ghost predicate Trace(zs: seq<Shot>, steps: seq<Step>, maxTx: nat) {
    |zs| == |steps| + 1 && forall i :: 0 <= i < |steps| ==> StepAt(zs, steps, i, maxTx)
  }

  ghost predicate StepAt(zs: seq<Shot>, steps: seq<Step>, i: nat, maxTx: nat)
    requires i < |steps| < |zs|
  {
    Stepped(zs[i], steps[i], zs[i + 1], maxTx)
  }

  method Run(base: DnsBase, steps: seq<Step>) returns (ghost zs: seq<Shot>)
    requires base.Valid()
    modifies base
    ensures base.Valid() && Trace(zs, steps, base.maxTx) && zs[0] == old(Now(base)) && zs[|steps|] == Now(base)
  {
    zs := [Now(base)];
    for i := 0 to |steps|
      invariant base.Valid() && Trace(zs, steps[..i], base.maxTx)
      invariant zs[0] == old(Now(base)) && zs[i] == Now(base)
    {
      hide *;
      ghost var zs0 := zs;
      Do(base, steps[i]);
      assert steps[..i + 1] == steps[..i] + [steps[i]];
      TraceMore(zs0, steps[..i], steps[i], Now(base), base.maxTx);
      zs := zs + [Now(base)];
    }
    assert steps[..|steps|] == steps;
  }

  lemma {:induction false} TraceMore(zs: seq<Shot>, steps: seq<Step>, step: Step, z: Shot, maxTx: nat)
    requires Trace(zs, steps, maxTx) && Stepped(zs[|steps|], step, z, maxTx)
    ensures Trace(zs + [z], steps + [step], maxTx)
  {
    hide Stepped;
    forall i | 0 <= i <= |steps|
      ensures StepAt(zs + [z], steps + [step], i, maxTx)
    {
      assert i < |steps| ==> StepAt(zs, steps, i, maxTx);
    }
  }

  // ---------- what becomes of a request ----------

  /** A step that may end request `k` or send it to another server: its own timeout, its cancellation, a reply to it */
  predicate Concerns(z: Shot, step: Step, k: nat) {
    match step
    case CancelStep(x) => x == k
    case TimeoutStep(x) => x == k
    case ReplyStep(id, _) => IsFor(z.reqs, k, id)
    case _ => false
  }

  lemma {:induction false} UnconcernedStep(z: Shot, step: Step, z': Shot, maxTx: nat, k: nat)
    requires Stepped(z, step, z', maxTx) && k in z.reqs && !Concerns(z, step, k)
    ensures k in z'.reqs && Progressed(z.reqs[k], z'.reqs[k])
  {
    if step.ReplyStep? && exists x :: IsFor(z.reqs, x, step.id) {
      var x :| IsFor(z.reqs, x, step.id);
      assert x != k && k in z.reqs.Keys - {x};
    }
  }

  /**
    A request stays until a step concerns it. Once it is in flight it is in flight to some server,
    under the same id, so that a reply with that id is for it.
   */
  lemma {:induction false} NeverLost(zs: seq<Shot>, steps: seq<Step>, maxTx: nat, k: nat, i: nat, j: nat)
    requires Trace(zs, steps, maxTx) && i <= j <= |steps| && k in zs[i].reqs
    requires forall n :: i <= n < j ==> !Concerns(zs[n], steps[n], k)
    ensures k in zs[j].reqs && zs[j].reqs[k].reissues == zs[i].reqs[k].reissues
    ensures zs[j].reqs[k].tx >= zs[i].reqs[k].tx
    ensures zs[i].reqs[k].ns != -1 ==> IsFor(zs[j].reqs, k, zs[i].reqs[k].id)
    decreases j - i
  {
    hide Stepped, Concerns;
    if i < j {
      assert StepAt(zs, steps, i, maxTx);
      UnconcernedStep(zs[i], steps[i], zs[i + 1], maxTx, k);
      NeverLost(zs, steps, maxTx, k, i + 1, j);
    }
  }

  lemma {:induction false} GoneStep(z: Shot, step: Step, z': Shot, maxTx: nat, k: nat)
    requires Stepped(z, step, z', maxTx) && k !in z.reqs && step != SubmitStep(k)
    ensures k !in z'.reqs
  {
    if step.ReplyStep? && exists x :: IsFor(z.reqs, x, step.id) {
      var x :| IsFor(z.reqs, x, step.id);
    }
  }

  /** A request that is over stays over, and no reply is for it, until it is made again. */
  lemma {:induction false} OverIsOver(zs: seq<Shot>, steps: seq<Step>, maxTx: nat, k: nat, i: nat, j: nat)
    requires Trace(zs, steps, maxTx) && i <= j <= |steps| && k !in zs[i].reqs
    requires forall n :: i <= n < j ==> steps[n] != SubmitStep(k)
    ensures forall n :: i <= n <= j ==> k !in zs[n].reqs
    decreases j - i
  {
    hide Stepped;
    if i < j {
      assert StepAt(zs, steps, i, maxTx);
      GoneStep(zs[i], steps[i], zs[i + 1], maxTx, k);
      OverIsOver(zs, steps, maxTx, k, i + 1, j);
    }
  }

  /** A request is answered at most once: between two answers to it, it was made anew. */
  lemma {:induction false} AnsweredOnce(zs: seq<Shot>, steps: seq<Step>, maxTx: nat, k: nat, i: nat, j: nat)
    requires Trace(zs, steps, maxTx) && i < j < |steps| && steps[i].ReplyStep? && steps[i].answer == Good
    requires IsFor(zs[i].reqs, k, steps[i].id) && steps[j].ReplyStep? && IsFor(zs[j].reqs, k, steps[j].id)
    ensures exists n :: i < n < j && steps[n] == SubmitStep(k)
  {
    assert StepAt(zs, steps, i, maxTx);
    assert k !in zs[i + 1].reqs;
    if forall n :: i < n < j ==> steps[n] != SubmitStep(k) {
      OverIsOver(zs, steps, maxTx, k, i + 1, j);
    }
  }
}
