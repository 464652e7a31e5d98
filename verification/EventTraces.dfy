/**
 Whole runs of an event base: what each step does to each event, and what follows for when callbacks run.
 */
module EventTraces {
  import opened Events
  import opened EventQueues
  import opened Lists
  import opened EventLoop
  import opened EventDispatch
  import opened EventRuns
  import opened Options

  datatype Step =
    | AssignStep(e: Ev)
    | CommonStep(duration: Tv)
    | AddStep(id: nat, tv: Option<Tv>, now: Tv, answer: int)
    | DelStep(id: nat)
    | ActiveStep(id: nat, timedOut: bool)
    | LaterStep(id: nat)
    | CancelStep(id: nat)
    | PromoteStep
    | RunStep(pri: nat, now: Tv, answer: int)
    | TimeoutStep(now: Tv)

  /** What the source asks of its callers: events of this base, not the timers it keeps for itself, and good times. */
  predicate Allowed(base: EventBase, s: Step)
    reads base
  {
    match s
    case AssignStep(e) => Blank(e) && e.timerOf < 0 && e.pri < |base.active|
    case CommonStep(d) => d.sec >= 0 && |base.active| > 0
    case AddStep(id, tv, now, answer) =>
      && id < |base.evs| && base.evs[id].timerOf < 0 && base.evs[id].isEvent
      && (tv.Some? ==> GoodArgs(tv.value, false, now, |base.timers|))
    case DelStep(id) => id < |base.evs| && base.evs[id].timerOf < 0
    case ActiveStep(id, _) => id < |base.evs|
    case LaterStep(id) => id < |base.evs| && base.evs[id].timerOf < 0
    case CancelStep(id) => id < |base.evs| && base.evs[id].timerOf < 0
    case PromoteStep => true
    case RunStep(p, now, _) => p < |base.active| && base.active[p] != [] && now.usec < MILLION
    case TimeoutStep(now) => true
  }

  /** What the next step is decided by */
  datatype Shot = Shot(evs: seq<Ev>, active: seq<seq<nat>>, lists: seq<seq<nat>>, timers: seq<nat>)

  ghost function Now(base: EventBase): Shot
    reads base
  {
    Shot(base.evs, base.active, base.lists, base.timers)
  }

  /** What a step makes of an event of the user's */
  ghost predicate Moved(z: Shot, s: Step, x: nat, e: Ev, e': Ev) {
    match s
    case AssignStep(_) => e' == e
    case CommonStep(_) => e' == e
    case AddStep(id, tv, now, answer) =>
      e' == if id != x || e.finalizing || (answer == -1 && Asks(e)) then e else Added(e, tv, false, now, |z.timers|)
    case DelStep(id) => e' == if id != x || e.finalizing then e else Idle(e)
    case ActiveStep(id, timedOut) => e' == if id != x || e.finalizing then e else Activated(e, timedOut)
    case LaterStep(id) =>
      e' == if id != x then e else var r := Reason(e, false); if r.active then r else r.(later := true)
    case CancelStep(id) =>
      e' == if id != x || e.finalizing then e
            else if e.isEvent then Idle(e) else e.(active := false, later := false)
    case PromoteStep => e' == Promoted(e)
    case RunStep(p, now, answer) =>
      if Runs(z, p, x) then e' == Ran(e, now, |z.timers|, answer) else e' == e || Fires(z, p, x, e, now, e')
    case TimeoutStep(now) => e' == Expired(e, now)
  }

  /** It is the turn of callback `x`. */
  ghost predicate Runs(z: Shot, p: nat, x: nat) {
    p < |z.active| && z.active[p] != [] && z.active[p][0] == x < |z.evs| && z.evs[x].active
  }

  /** It is the turn of a common timeout, and `x` is in its list and has run out. */
  ghost predicate Fires(z: Shot, p: nat, x: nat, e: Ev, now: Tv, e': Ev) {
    && p < |z.active| && z.active[p] != [] && z.active[p][0] < |z.evs|
    && (var i := z.evs[z.active[p][0]].timerOf; 0 <= i < |z.lists| && x in z.lists[i])
    && e.timeout && !Later(Masked(e.deadline), now) && e' == Activated(Idle(e), true)
  }

  ghost predicate Stepped(z: Shot, s: Step, z': Shot) {
    && |z.evs| <= |z'.evs| && (s.AssignStep? ==> z'.evs == z.evs + [s.e])
    && forall x :: 0 <= x < |z.evs| && z.evs[x].timerOf < 0 ==> Moved(z, s, x, z.evs[x], z'.evs[x])
  }

  method Do(base: EventBase, s: Step)
    requires base.Ok() && Allowed(base, s)
    modifies base
    ensures base.Ok() && Stepped(old(Now(base)), s, Now(base))
  {
    match s {
      case AssignStep(e) => Assign(base, e);
      case CommonStep(d) => var _ := InitCommonTimeout(base, d);
      case AddStep(id, tv, now, answer) => var _ := Add(base, id, tv, false, now, answer);
      case DelStep(id) => base.Del(id, false);
      case ActiveStep(id, timedOut) => base.MakeActive(id, timedOut);
      case LaterStep(id) => base.MakeActiveLater(id, false);
      case CancelStep(id) => base.Cancel(id, false);
      case PromoteStep => MakeLaterActive(base);
      case RunStep(p, now, answer) => DoRun(base, p, now, answer);
      case TimeoutStep(now) => TimeoutProcess(base, now);
    }
  }

  method DoRun(base: EventBase, p: nat, now: Tv, answer: int)
    requires base.Ok() && Allowed(base, RunStep(p, now, answer))
    modifies base
    ensures base.Ok() && Stepped(old(Now(base)), RunStep(p, now, answer), Now(base))
  {
    ghost var z := Now(base);
    assert Holds(base.active[p], base.evs, Act(p));
    assert Belongs(base.evs[base.active[p][0]], Act(p));
    assert forall i, k :: 0 <= i < |base.lists| && 0 <= k < |base.lists[i]| ==> InList(z, i, k);
    hide *;
    var id := RunOne(base, p, now, answer);
    AfterRun(z, p, now, answer, Now(base));
  }

  /** The lists hold events with timeouts. */
  ghost predicate InList(z: Shot, i: nat, k: nat)
    requires i < |z.lists| && k < |z.lists[i]|
  {
    z.lists[i][k] < |z.evs| && z.evs[z.lists[i][k]].timeout
  }

  lemma {:induction false} AfterRun(z: Shot, p: nat, now: Tv, answer: int, z': Shot)
    requires p < |z.active| && z.active[p] != [] && z.active[p][0] < |z.evs| == |z'.evs|
    requires z.evs[z.active[p][0]].active
    requires forall i, k :: 0 <= i < |z.lists| && 0 <= k < |z.lists[i]| ==> InList(z, i, k)
    requires var id := z.active[p][0];
             if z.evs[id].timerOf < 0 then
               && z'.evs[id] == Ran(z.evs[id], now, |z.timers|, answer)
               && forall x :: 0 <= x < |z.evs| && x != id && z.evs[x].timerOf < 0 ==> z'.evs[x] == z.evs[x]
             else
               var i := z.evs[id].timerOf;
               && i < |z.lists|
               && exists n :: 0 <= n <= |z.lists[i]| && Fired(z.evs, z'.evs, z.lists[i], n, now)
    ensures Stepped(z, RunStep(p, now, answer), z')
  {
    var id := z.active[p][0];
    forall x | 0 <= x < |z.evs| && z.evs[x].timerOf < 0
      ensures Moved(z, RunStep(p, now, answer), x, z.evs[x], z'.evs[x])
    {
      hide Ran, Idle, Activated, Masked, Later;
      if z.evs[id].timerOf >= 0 {
        var i := z.evs[id].timerOf;
        var n :| 0 <= n <= |z.lists[i]| && Fired(z.evs, z'.evs, z.lists[i], n, now);
        if x in z.lists[i][..n] {
          var k :| 0 <= k < n && z.lists[i][k] == x;
          assert InList(z, i, k);
        }
      }
    }
  }

  /** A run, step by step */
  ghost predicate Trace(zs: seq<Shot>, steps: seq<Step>) {
    |zs| == |steps| + 1 && forall k :: 0 <= k < |steps| ==> StepAt(zs, steps, k)
  }

  ghost predicate StepAt(zs: seq<Shot>, steps: seq<Step>, k: nat)
    requires k < |steps| < |zs|
  {
    Stepped(zs[k], steps[k], zs[k + 1])
  }

  /** Any run, as long as the callers keep to what is asked of them */
  method Run(base: EventBase, steps: seq<Step>) returns (done: nat, ghost zs: seq<Shot>)
    requires base.Ok()
    modifies base
    ensures base.Ok() && done <= |steps| && (done < |steps| ==> !Allowed(base, steps[done]))
    ensures Trace(zs, steps[..done]) && zs[0] == old(Now(base)) && zs[done] == Now(base)
  {
    done, zs := 0, [Now(base)];
    while done < |steps| && Allowed(base, steps[done])
      invariant base.Ok() && done <= |steps|
      invariant Trace(zs, steps[..done]) && zs[0] == old(Now(base)) && zs[done] == Now(base)
    {
      hide Stepped;
      ghost var zs0 := zs;
      Do(base, steps[done]);
      zs := zs + [Now(base)];
      assert steps[..done + 1] == steps[..done] + [steps[done]];
      TraceMore(zs0, steps[..done], steps[done], Now(base));
      done := done + 1;
    }
  }

  lemma {:induction false} TraceMore(zs: seq<Shot>, steps: seq<Step>, s: Step, z: Shot)
    requires Trace(zs, steps) && Stepped(zs[|steps|], s, z)
    ensures Trace(zs + [z], steps + [s])
  {
    hide Stepped;
    forall k | 0 <= k <= |steps|
      ensures StepAt(zs + [z], steps + [s], k)
    {
      assert k < |steps| ==> StepAt(zs, steps, k);
    }
  }

  // ---------- when callbacks run ----------

  /** The event is neither pending nor active. */
  predicate Quiet(e: Ev) {
    e == Idle(e)
  }

  /** A step that asks for event `x` */
  predicate AsksFor(s: Step, x: nat) {
    (s.AddStep? || s.ActiveStep? || s.LaterStep?) && s.id == x
  }

  ghost predicate RunsAt(zs: seq<Shot>, steps: seq<Step>, k: nat, x: nat)
    requires k < |steps| < |zs|
  {
    steps[k].RunStep? && Runs(zs[k], steps[k].pri, x)
  }

  /** `x` is an event of the user's, now and from here on. */
  ghost predicate IsUsers(z: Shot, x: nat) {
    x < |z.evs| && z.evs[x].timerOf < 0
  }

  /** What an event is does not change. */
  predicate SameKind(e: Ev, e': Ev) {
    && e'.timerOf == e.timerOf && e'.persist == e.persist && e'.isEvent == e.isEvent
    && e'.finalizing == e.finalizing
  }

  lemma {:induction false} AddedKind(e: Ev, tv: Option<Tv>, absolute: bool, now: Tv, n: nat)
    ensures SameKind(e, Added(e, tv, absolute, now, n))
  {
    hide NewDeadline, Asks, Repeats;
    var e1 := if Asks(e) then e.(inserted := true) else e;
    assert SameKind(e, e1);
    if tv.Some? {
      ScheduledKind(e1, tv.value, absolute, now, n);
    }
    hide Scheduled;
  }

  lemma {:induction false} ScheduledKind(e: Ev, tv: Tv, absolute: bool, now: Tv, n: nat)
    ensures SameKind(e, Scheduled(e, tv, absolute, now, n))
  {
    hide NewDeadline, Repeats;
    assert SameKind(e, Unscheduled(e));
    hide Unscheduled;
  }

  lemma {:induction false} RanKind(e: Ev, now: Tv, n: nat, answer: int)
    ensures SameKind(e, Ran(e, now, n, answer))
  {
    hide Added, MarkedRun, Asks, Repeats, Taken;
    var t := Taken(e);
    TakenKind(e);
    AddedKind(t, Some(MarkedRun(t, now)), true, now, n);
  }

  lemma {:induction false} TakenKind(e: Ev)
    ensures SameKind(e, Taken(e))
  {
  }

  lemma {:induction false} MovedKind(z: Shot, s: Step, x: nat, e: Ev, e': Ev)
    requires Moved(z, s, x, e, e')
    ensures SameKind(e, e')
  {
    hide Added, Ran, Runs, Expired, Promoted, Activated, Idle, Reason, SameKind;
    PlainKinds(e, if s.ActiveStep? then s.timedOut else true, if s.TimeoutStep? then s.now else ZERO);
    match s {
      case AddStep(_, tv, now, _) => AddedKind(e, tv, false, now, |z.timers|);
      case RunStep(_, now, answer) => RanKind(e, now, |z.timers|, answer);
      case _ =>
    }
  }

  lemma {:induction false} PlainKinds(e: Ev, timedOut: bool, now: Tv)
    ensures SameKind(e, e) && SameKind(e, Idle(e)) && SameKind(e, e.(active := false, later := false))
    ensures SameKind(e, Activated(e, timedOut)) && SameKind(e, Activated(Idle(e), true))
    ensures SameKind(e, Reason(e, false)) && SameKind(e, Reason(e, false).(later := true))
    ensures SameKind(e, Promoted(e)) && SameKind(e, Expired(e, now))
  {
    hide Due, Reason, Activated;
    assert SameKind(e, Idle(e));
    ActivatedKind(e, timedOut);
    ActivatedKind(Idle(e), true);
    ActivatedKind(e, false);
    hide Idle;
  }

  lemma {:induction false} ActivatedKind(e: Ev, timedOut: bool)
    ensures SameKind(e, Reason(e, timedOut)) && SameKind(e, Activated(e, timedOut))
  {
    assert SameKind(e, Reason(e, timedOut));
    hide Reason;
  }

  lemma {:induction false} StillUsers(z: Shot, s: Step, z': Shot, x: nat)
    requires Stepped(z, s, z') && IsUsers(z, x)
    ensures IsUsers(z', x) && Moved(z, s, x, z.evs[x], z'.evs[x]) && SameKind(z.evs[x], z'.evs[x])
  {
    hide Moved;
    MovedKind(z, s, x, z.evs[x], z'.evs[x]);
  }

  lemma {:induction false} QuietStep(z: Shot, s: Step, z': Shot, x: nat)
    requires Stepped(z, s, z') && IsUsers(z, x) && Quiet(z.evs[x]) && !AsksFor(s, x)
    ensures IsUsers(z', x) && Quiet(z'.evs[x]) && !(s.RunStep? && Runs(z, s.pri, x))
  {
    StillUsers(z, s, z', x);
  }

  /**
    An event that is not pending stays so, and its callback is not run, for as long as nobody adds
    or activates it: after event_del, or after a one-shot event has run.
   */
  lemma {:induction false} QuietUntilAsked(zs: seq<Shot>, steps: seq<Step>, x: nat, i: nat, j: nat)
    requires Trace(zs, steps) && i <= j <= |steps| && IsUsers(zs[i], x) && Quiet(zs[i].evs[x])
    requires forall k :: i <= k < j ==> !AsksFor(steps[k], x)
    ensures IsUsers(zs[j], x) && Quiet(zs[j].evs[x])
    ensures forall k :: i <= k < j ==> !RunsAt(zs, steps, k, x)
    decreases j - i
  {
    hide Stepped, Runs, Quiet;
    if i < j {
      assert StepAt(zs, steps, i);
      QuietStep(zs[i], steps[i], zs[i + 1], x);
      QuietUntilAsked(zs, steps, x, i + 1, j);
    }
  }

  /** An event that is deleted does not run before it is asked for again, whatever state it was in. */
  lemma {:induction false} NoRunAfterDel(zs: seq<Shot>, steps: seq<Step>, x: nat, i: nat, j: nat)
    requires Trace(zs, steps) && i < j <= |steps| && IsUsers(zs[i], x) && !zs[i].evs[x].finalizing
    requires steps[i] == DelStep(x) && forall k :: i < k < j ==> !AsksFor(steps[k], x)
    ensures forall k :: i < k < j ==> !RunsAt(zs, steps, k, x)
  {
    assert StepAt(zs, steps, i);
    StillUsers(zs[i], steps[i], zs[i + 1], x);
    hide Stepped;
    QuietUntilAsked(zs, steps, x, i + 1, j);
  }

  /** Between two runs of a one-shot event somebody asks for it. */
  lemma {:induction false} OneRunPerAsk(zs: seq<Shot>, steps: seq<Step>, x: nat, i: nat, j: nat)
    requires Trace(zs, steps) && i < j < |steps| && RunsAt(zs, steps, i, x) && RunsAt(zs, steps, j, x)
    requires IsUsers(zs[i], x) && zs[i].evs[x].isEvent && !zs[i].evs[x].persist && !zs[i].evs[x].finalizing
    ensures exists k :: i < k < j && AsksFor(steps[k], x)
  {
    assert StepAt(zs, steps, i);
    StillUsers(zs[i], steps[i], zs[i + 1], x);
    hide Stepped, Runs;
    if forall k :: i < k < j ==> !AsksFor(steps[k], x) {
      QuietUntilAsked(zs, steps, x, i + 1, j + 1);
    }
  }

  /** A persistent event without a timeout, in the event map */
  predicate Watching(e: Ev) {
    e.isEvent && e.persist && e.inserted && !e.timeout && e.ioTimeout == ZERO
  }

  lemma {:induction false} WatchingStep(z: Shot, s: Step, z': Shot, x: nat)
    requires Stepped(z, s, z') && IsUsers(z, x) && Watching(z.evs[x])
    requires !((s.AddStep? || s.DelStep? || s.CancelStep?) && s.id == x)
    ensures IsUsers(z', x) && Watching(z'.evs[x])
  {
    StillUsers(z, s, z', x);
    hide Added, Runs, Masked, Later;
  }

  /** A persistent event stays in the event map however often it runs, until somebody deletes it or sets it anew. */
  lemma {:induction false} PersistentStays(zs: seq<Shot>, steps: seq<Step>, x: nat, i: nat, j: nat)
    requires Trace(zs, steps) && i <= j <= |steps| && IsUsers(zs[i], x) && Watching(zs[i].evs[x])
    requires forall k :: i <= k < j ==>
      !((steps[k].AddStep? || steps[k].DelStep? || steps[k].CancelStep?) && steps[k].id == x)
    ensures IsUsers(zs[j], x) && Watching(zs[j].evs[x])
    decreases j - i
  {
    hide Stepped, Watching;
    if i < j {
      assert StepAt(zs, steps, i);
      WatchingStep(zs[i], steps[i], zs[i + 1], x);
      PersistentStays(zs, steps, x, i + 1, j);
    }
  }
}
