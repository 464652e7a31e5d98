/**
 Token buckets, and the rate limit of one bufferevent.
 */
module RateLimit {
  import opened Numbers
  import opened Options

  /** The rate and the burst of one direction; ev_token_bucket_cfg_new makes no others. */
  datatype RawRate = Rate(rate: nat, max: nat)
  type Rate = r: RawRate | 1 <= r.rate <= r.max < TWO_63 witness Rate(1, 1)

  predicate IsSsize(x: int) {
    -TWO_63 <= x < TWO_63
  }

  /** A 64-bit number read as signed */
  function AsSsize(x: int): int {
    (x + TWO_63) % TWO_64 - TWO_63
  }

  /** The unsigned difference of two 32-bit tick numbers */
  function TicksSince(now: nat, last: nat): nat {
    (now - last) % TWO_32
  }

  /** The room in a bucket, as the unsigned subtraction gives it */
  function RoomIn(limit: int, r: Rate): nat {
    (r.max - limit) % TWO_64
  }

  /** ev_token_bucket_update_ on one direction: the test by division, so that nothing overflows */
  function Refill(limit: int, r: Rate, n: nat): int
    requires 0 < n
  {
    if RoomIn(limit, r) / n < r.rate then r.max else AsSsize(limit + n * r.rate)
  }

  function Min(a: int, b: int): int {
    if a < b then a else b
  }

  lemma {:induction false} DivLess(a: nat, n: nat, b: nat)
    requires n > 0
    ensures a / n < b <==> a < n * b
  {
    var q, m := a / n, a % n;
    assert a == q * n + m && 0 <= m < n;
    if q < b {
      TimesGrows(q + 1, b, n);
      assert (q + 1) * n == q * n + n;
    } else {
      TimesGrows(b, q, n);
    }
    assert n * b == b * n;
  }

  /**
    The update that avoids overflow is the plain one, limit + n * rate cut at the burst, exactly
    when the bucket holds no more than the burst, or the ticks would refill even what the
    unsigned subtraction then takes for the room.
   */
  lemma {:induction false} RefillIsMin(limit: int, r: Rate, n: nat)
    requires IsSsize(limit) && 0 < n < TWO_31
    ensures Refill(limit, r, n) == Min(r.max, limit + n * r.rate) <==> limit <= r.max || n * r.rate >= RoomIn(limit, r)
  {
    var room, x := RoomIn(limit, r), n * r.rate;
    DivLess(room, n, r.rate);
    assert x >= 0;
    if limit <= r.max {
      assert room == r.max - limit;
    } else {
      assert room == r.max - limit + TWO_64;
      if x <= room {
        WrapsToMax(limit, r.max, x, room);
      }
    }
  }

  lemma {:induction false} WrapsToMax(limit: int, max: nat, x: nat, room: nat)
    requires IsSsize(limit) && limit > max && room == max - limit + TWO_64 && x <= room
    ensures AsSsize(limit + x) == max <==> x == room
  {
  }

  /** A bucket that overflowed by negative charges is not cut back: the update leaves it too full. */
  lemma {:induction false} OverfullGrows()
    ensures var r := Rate(10, 100); Refill(200, r, 1) == 210 && Min(r.max, 200 + 10) == 100
  {
  }

  // ---------- no more than burst + rate * ticks ----------

  datatype Bucket = Bucket(limit: int, last: nat)

  /** One ev_token_bucket_update_, and how many ticks it credited. */
  function Update(b: Bucket, r: Rate, now: nat): (Bucket, nat) {
    var n := TicksSince(now, b.last);
    if n == 0 || n >= TWO_31 then (b, 0) else (Bucket(Refill(b.limit, r, n), now), n)
  }

  /** Ticks are counted across the wrap of the clock; one that seems to go back, by 2^31 ticks or fewer, is ignored. */
  lemma {:induction false} UpdateByDistance(b: Bucket, r: Rate, d: nat)
    requires b.last < TWO_32 && d < TWO_32
    ensures var now := (b.last + d) % TWO_32;
            Update(b, r, now) == if 0 < d < TWO_31 then (Bucket(Refill(b.limit, r, d), now), d) else (b, 0)
  {
    hide Refill;
    var now := (b.last + d) % TWO_32;
    assert now == if b.last + d < TWO_32 then b.last + d else b.last + d - TWO_32;
    assert TicksSince(now, b.last) == d;
  }

  datatype Act = Tick(now: nat) | Charge(bytes: nat)

  /** What bufferevent_get_rlim_max_ offers of the bucket. */
  function Offered(b: Bucket): nat {
    if b.limit < 0 then 0 else b.limit
  }

  /** A run: the bucket afterwards, the bytes charged, the ticks credited. */
  function Run(b: Bucket, r: Rate, acts: seq<Act>): (Bucket, nat, nat)
    decreases |acts|
  {
    if acts == [] then (b, 0, 0)
    else
      var (b', charged, credited) := Run(b, r, acts[..|acts| - 1]);
      match acts[|acts| - 1]
      case Tick(now) => var (b'', n) := Update(b', r, now); (b'', charged, credited + n)
      case Charge(bytes) => (b'.(limit := b'.limit - bytes), charged + bytes, credited)
  }

  /** No charge is larger than what is offered when it is made. */
  ghost predicate Fair(b: Bucket, r: Rate, acts: seq<Act>)
    decreases |acts|
  {
    acts == [] ||
    (Fair(b, r, acts[..|acts| - 1]) &&
     match acts[|acts| - 1]
     case Tick(_) => true
     case Charge(bytes) => bytes <= Offered(Run(b, r, acts[..|acts| - 1]).0))
  }

  lemma {:induction false} UpdateBounds(b: Bucket, r: Rate, now: nat)
    requires IsSsize(b.limit) && b.limit <= r.max
    ensures var (b', n) := Update(b, r, now); b.limit <= b'.limit <= r.max && b'.limit <= b.limit + n * r.rate
  {
    var n := TicksSince(now, b.last);
    if 0 < n < TWO_31 {
      RefillIsMin(b.limit, r, n);
      assert n * r.rate >= 0;
    }
  }

  lemma {:induction false} MoreTicks(rate: nat, a: nat, b: nat)
    ensures rate * (a + b) == rate * a + b * rate
  {
  }

  /** Over any span the bytes charged are at most the burst and the rate times the ticks credited. */
  lemma {:induction false} NeverMore(b: Bucket, r: Rate, acts: seq<Act>)
    requires IsSsize(b.limit) && b.limit <= r.max && Fair(b, r, acts)
    ensures var (b', charged, credited) := Run(b, r, acts);
            && charged <= r.max + r.rate * credited
            && charged + b'.limit <= b.limit + r.rate * credited
            && Min(b.limit, 0) <= b'.limit <= r.max
    decreases |acts|
  {
    hide Update, Refill;
    if acts != [] {
      var front := acts[..|acts| - 1];
      NeverMore(b, r, front);
      var (b1, charged, credited) := Run(b, r, front);
      match acts[|acts| - 1] {
        case Tick(now) =>
          UpdateBounds(b1, r, now);
          var n := Update(b1, r, now).1;
          MoreTicks(r.rate, credited, n);
        case Charge(bytes) =>
      }
    }
  }

  /** The clock goes forward, in steps of fewer than 2^31 ticks, and may wrap; `times` is the time without the wraps. */
  ghost predicate Forward(start: nat, acts: seq<Act>, times: seq<nat>) {
    |times| == |acts| + 1 && times[0] == start && forall i :: 0 <= i < |acts| ==> ForwardAt(acts, times, i)
  }

  ghost predicate ForwardAt(acts: seq<Act>, times: seq<nat>, i: nat)
    requires i < |acts| < |times|
  {
    match acts[i]
    case Tick(now) => times[i] <= times[i + 1] < times[i] + TWO_31 && now == times[i + 1] % TWO_32
    case Charge(_) => times[i + 1] == times[i]
  }

  /** As long as the clock goes forward, the ticks credited are the time that has passed. */
  lemma {:induction false} CreditedIsElapsed(b: Bucket, r: Rate, acts: seq<Act>, times: seq<nat>)
    requires b.last < TWO_32 && Forward(b.last, acts, times)
    ensures var (b', _, credited) := Run(b, r, acts);
            credited == times[|acts|] - b.last && b'.last == times[|acts|] % TWO_32
    decreases |acts|
  {
    hide Update, Refill;
    if acts != [] {
      var k := |acts| - 1;
      FrontForward(b.last, acts, times);
      CreditedIsElapsed(b, r, acts[..k], times[..k + 1]);
      var b1 := Run(b, r, acts[..k]).0;
      if acts[k].Tick? {
        var d := times[k + 1] - times[k];
        Passed(times[k], d);
        UpdateByDistance(b1, r, d);
      }
    }
  }

  lemma {:induction false} FrontForward(start: nat, acts: seq<Act>, times: seq<nat>)
    requires acts != [] && Forward(start, acts, times)
    ensures var k := |acts| - 1; Forward(start, acts[..k], times[..k + 1]) && ForwardAt(acts, times, k)
  {
    var front, before := acts[..|acts| - 1], times[..|acts|];
    forall i | 0 <= i < |front|
      ensures ForwardAt(front, before, i)
    {
      assert ForwardAt(acts, times, i);
    }
  }

  lemma {:induction false} Passed(time: nat, d: nat)
    ensures (time % TWO_32 + d) % TWO_32 == (time + d) % TWO_32
  {
  }

  /** So over any time the bytes charged are at most the burst and the rate times that time. */
  lemma {:induction false} NeverMoreThanTime(b: Bucket, r: Rate, acts: seq<Act>, times: seq<nat>)
    requires IsSsize(b.limit) && b.limit <= r.max && Fair(b, r, acts) && b.last < TWO_32 && Forward(b.last, acts, times)
    ensures Run(b, r, acts).1 <= r.max + r.rate * (times[|acts|] - b.last)
  {
    NeverMore(b, r, acts);
    CreditedIsElapsed(b, r, acts, times);
    hide Run, Fair;
  }

  // ---------- the limit of one bufferevent ----------

  /**
    A bucket that is not empty is not empty after `n` ticks either. Only one that negative charges
    filled beyond its burst may fail this.
   */
  predicate Stays(limit: int, r: Rate, n: nat) {
    || n == 0 || n >= TWO_31
    || limit <= r.max || limit + n * r.rate < TWO_63 || limit + n * r.rate > TWO_64
  }

  lemma {:induction false} RefillIsSsize(limit: int, r: Rate, n: nat)
    requires 0 < n
    ensures IsSsize(Refill(limit, r, n))
  {
    hide RoomIn;
  }

  /** The update leaves something in a bucket exactly under Stays. */
  lemma {:induction false} RefillPositive(limit: int, r: Rate, n: nat)
    requires 0 < limit < TWO_63 && 0 < n < TWO_31
    ensures Refill(limit, r, n) > 0 <==> Stays(limit, r, n)
  {
    hide AsSsize;
    var x := n * r.rate;
    assert x > 0;
    if limit <= r.max {
      RefillIsMin(limit, r, n);
    } else {
      DivLess(RoomIn(limit, r), n, r.rate);
      WrapsPositive(limit, r.max, x);
    }
  }

  lemma {:induction false} WrapsPositive(limit: int, max: nat, x: nat)
    requires 0 < max < limit < TWO_63
    ensures (max - limit) % TWO_64 == max - limit + TWO_64
    ensures x <= max - limit + TWO_64 ==> (AsSsize(limit + x) > 0 <==> limit + x < TWO_63 || limit + x > TWO_64)
  {
  }

  /** A bucket as full as can be, with a burst of one, becomes as empty as can be. */
  lemma {:induction false} OverfullTurnsNegative()
    ensures !Stays(TWO_63 - 1, Rate(1, 1), 1) && Refill(TWO_63 - 1, Rate(1, 1), 1) == -TWO_63
  {
  }

  /** One direction of a bufferevent: its bucket, and whether BEV_SUSPEND_BW is set. */
  datatype Half = Half(limit: int, suspended: bool)

  /** struct ev_token_bucket_cfg, which does not change once it is made; `addr` stands for the pointer to it. */
  datatype Cfg = Cfg(addr: nat, read: Rate, write: Rate)

  /** The direction will be suspended if its bucket is empty after `n` ticks. */
  predicate Keeps(h: Half, r: Rate, n: nat) {
    h.suspended || Stays(h.limit, r, n)
  }

  datatype LimiterState = LimiterState(cfg: Option<Cfg>, read: Half, write: Half, last: nat, refillPending: bool)

  class Limiter {
    var cfg: Option<Cfg>
    var read: Half
    var write: Half
    var last: nat                   // last_updated
    var refillPending: bool         // refill_bucket_event is pending

    /** An empty bucket suspends, and a suspension waits for a refill. */
    ghost predicate Valid()
      reads this
    {
      && IsSsize(read.limit) && IsSsize(write.limit)
      && (cfg.Some? && read.limit <= 0 ==> read.suspended)
      && (cfg.Some? && write.limit <= 0 ==> write.suspended)
      && (read.suspended || write.suspended ==> cfg.Some? && refillPending)
      && (cfg.None? ==> !refillPending)
    }

    function Now(): LimiterState
      reads this
    {
      LimiterState(cfg, read, write, last, refillPending)
    }

    constructor ()
      ensures Valid() && Now() == LimiterState(None, Half(0, false), Half(0, false), 0, false)
    {
      cfg, read, write, last, refillPending := None, Half(0, false), Half(0, false), 0, false;
    }

    /** What a tick does to the buckets does not empty one that is in use. */
    predicate KeepsUntil(now: nat)
      requires cfg.Some?
      reads this
    {
      Keeps(read, cfg.value.read, TicksSince(now, last)) && Keeps(write, cfg.value.write, TicksSince(now, last))
    }

    /** ev_token_bucket_update_: an overfull bucket can come out empty; exactly then the invariant fails. */
    method UpdateBuckets(now: nat)
      requires IsSsize(read.limit) && IsSsize(write.limit) && cfg.Some?
      modifies this`read, this`write, this`last
      ensures old(Valid()) ==> (Valid() <==> old(KeepsUntil(now)))
      ensures IsSsize(read.limit) && IsSsize(write.limit)
      ensures read.suspended == old(read.suspended) && write.suspended == old(write.suspended)
      ensures old(read.limit) > 0 ==>
        (read.limit > 0 <==> Stays(old(read.limit), cfg.value.read, TicksSince(now, old(last))))
      ensures old(write.limit) > 0 ==>
        (write.limit > 0 <==> Stays(old(write.limit), cfg.value.write, TicksSince(now, old(last))))
      ensures Bucket(read.limit, last) == Update(Bucket(old(read.limit), old(last)), cfg.value.read, now).0
      ensures Bucket(write.limit, last) == Update(Bucket(old(write.limit), old(last)), cfg.value.write, now).0
    {
      var n := TicksSince(now, last);
      if n == 0 || n >= TWO_31 {
        return;
      }
      RefillIsSsize(read.limit, cfg.value.read, n);
      RefillIsSsize(write.limit, cfg.value.write, n);
      if read.limit > 0 {
        RefillPositive(read.limit, cfg.value.read, n);
      }
      if write.limit > 0 {
        RefillPositive(write.limit, cfg.value.write, n);
      }
      hide Refill, Stays, TicksSince;
      read := read.(limit := Refill(read.limit, cfg.value.read, n));
      write := write.(limit := Refill(write.limit, cfg.value.write, n));
      last := now;
    }

    /** The bucket's part of bufferevent_get_rlim_max_ */
    method Max(now: nat, writing: bool) returns (max: nat)
      requires Valid() && cfg.Some?
      modifies this`read, this`write, this`last
      ensures Valid() <==> old(KeepsUntil(now))
      ensures read.suspended == old(read.suspended) && write.suspended == old(write.suspended)
      ensures max == Offered(Bucket(if writing then write.limit else read.limit, last))
      ensures Bucket(read.limit, last) == Update(Bucket(old(read.limit), old(last)), cfg.value.read, now).0
      ensures Bucket(write.limit, last) == Update(Bucket(old(write.limit), old(last)), cfg.value.write, now).0
    {
      if now != last {
        UpdateBuckets(now);
      }
      var limit := if writing then write.limit else read.limit;
      max := if limit < 0 then 0 else limit;
    }

    /** bufferevent_decrement_read_buckets_ and bufferevent_decrement_write_buckets_ */
    method Decrement(bytes: int, writing: bool)
      requires Valid() && cfg.Some? && IsSsize((if writing then write else read).limit - bytes)
      modifies this`read, this`write, this`refillPending
      ensures Valid()
      ensures var (mine, was, other) := if writing then (write, old(write), read) else (read, old(read), write);
              && mine.limit == was.limit - bytes && (mine.suspended <==> mine.limit <= 0)
              && (refillPending <==> mine.limit <= 0 || (old(refillPending) && (other.suspended || !was.suspended)))
      ensures if writing then read == old(read) else write == old(write)
    {
      var half, other := if writing then write else read, if writing then read else write;
      half := half.(limit := half.limit - bytes);
      if half.limit <= 0 {
        half := half.(suspended := true);
        refillPending := true;
      } else if half.suspended {
        if !other.suspended {
          refillPending := false;
        }
        half := half.(suspended := false);
      }
      if writing {
        write := half;
      } else {
        read := half;
      }
    }

    /** bufferevent_decrement_read_limit and bufferevent_decrement_write_limit */
    method DecrementLimit(decr: int, writing: bool)
      requires Valid() && cfg.Some? && IsSsize((if writing then write else read).limit - decr)
      modifies this`read, this`write, this`refillPending
      ensures Valid()
      ensures var (mine, was, other) := if writing then (write, old(write), read) else (read, old(read), write);
              && mine == Half(was.limit - decr, if was.limit > 0 && was.limit - decr <= 0 then true
                                                else if was.limit <= 0 && was.limit - decr > 0 then false
                                                else was.suspended)
              && (refillPending <==>
                    || (was.limit > 0 && was.limit - decr <= 0)
                    || (old(refillPending) && (other.suspended || was.limit > 0 || was.limit - decr <= 0)))
      ensures if writing then read == old(read) else write == old(write)
    {
      var half, other := if writing then write else read, if writing then read else write;
      var was := half.limit;
      half := half.(limit := half.limit - decr);
      if was > 0 && half.limit <= 0 {
        half := half.(suspended := true);
        refillPending := true;
      } else if was <= 0 && half.limit > 0 {
        if !other.suspended {
          refillPending := false;
        }
        half := half.(suspended := false);
      }
      if writing {
        write := half;
      } else {
        read := half;
      }
    }

    /** bev_refill_callback_: the refill event has fired and is no longer pending. */
    method RefillCallback(now: nat)
      requires Valid() && refillPending
      modifies this
      ensures (Valid() <==> old(KeepsUntil(now))) && cfg == old(cfg)
      ensures read.suspended <==> old(read.suspended) && read.limit <= 0
      ensures write.suspended <==> old(write.suspended) && write.limit <= 0
      ensures refillPending <==> read.suspended || write.suspended
      ensures Bucket(read.limit, last) == Update(Bucket(old(read.limit), old(last)), cfg.value.read, now).0
      ensures Bucket(write.limit, last) == Update(Bucket(old(write.limit), old(last)), cfg.value.write, now).0
    {
      refillPending := false;
      var again := false;
      UpdateBuckets(now);
      if read.suspended {
        if read.limit > 0 {
          read := read.(suspended := false);
        } else {
          again := true;
        }
      }
      if write.suspended {
        if write.limit > 0 {
          write := write.(suspended := false);
        } else {
          again := true;
        }
      }
      if again {
        refillPending := true;
      }
    }

    /** bufferevent_set_rate_limit */
    method SetRateLimit(newCfg: Option<Cfg>, now: nat)
      requires Valid() && (cfg.Some? && newCfg.Some? && cfg.value.addr == newCfg.value.addr ==> cfg == newCfg)
      modifies this
      ensures Valid() && cfg == newCfg
      ensures newCfg.Some? && newCfg != old(cfg) ==>
        && read == SetHalf(old(read), newCfg.value.read, old(cfg).Some?)
        && write == SetHalf(old(write), newCfg.value.write, old(cfg).Some?)
        && last == (if old(cfg).Some? then old(last) else now)
        && (refillPending <==> read.suspended || write.suspended)
      ensures newCfg.Some? && newCfg == old(cfg) ==> unchanged(this)
      ensures newCfg.None? ==>
        && read == old(read).(suspended := false) && write == old(write).(suspended := false)
        && last == old(last) && !refillPending
    {
      if newCfg.None? {
        cfg, read, write, refillPending := None, read.(suspended := false), write.(suspended := false), false;
        return;
      }
      if cfg.Some? && cfg.value.addr == newCfg.value.addr {
        return;
      }
      var reinit := cfg.Some?;
      if !reinit {
        last := now;
      }
      cfg := newCfg;
      refillPending := false;
      read := SetHalf(read, newCfg.value.read, reinit);
      write := SetHalf(write, newCfg.value.write, reinit);
      if read.suspended || write.suspended {
        refillPending := true;
      }
    }
  }

  /** ev_token_bucket_init_ on one direction; a new configuration only clips, and what is left decides. */
  function SetHalf(h: Half, r: Rate, reinit: bool): Half {
    var limit := if !reinit then r.rate else Min(h.limit, r.max);
    Half(limit, limit <= 0)
  }

  /**
    A first configuration grants one tick. A new one takes away what is more than its burst and
    nothing else, so that changing configurations never gains anything.
   */
  lemma {:induction false} NewConfigGainsNothing(h: Half, r: Rate, r': Rate)
    ensures SetHalf(h, r, false).limit == r.rate
    ensures var h1 := SetHalf(h, r, true);
            && h1.limit <= h.limit && h1.limit <= r.max && (h.limit <= r.max ==> h1.limit == h.limit)
            && (h.limit > r.max ==> h1.limit == r.max) && (h1.suspended <==> h1.limit <= 0)
            && SetHalf(h1, r', true) == SetHalf(h, if r'.max < r.max then r' else r, true)
  {
  }

  // ---------- runs ----------

  datatype Step =
    | AskStep(now: nat, writing: bool)
    | ChargeStep(bytes: int, writing: bool)
    | LimitStep(decr: int, writing: bool)
    | RefillStep(now: nat)
    | ConfigStep(cfg: Option<Cfg>, now: nat)

  /** A limit is in force where one is used, no charge overflows, and no tick empties an overfull bucket. */
  predicate Allowed(l: Limiter, s: Step)
    reads l
  {
    match s
    case AskStep(now, _) => l.cfg.Some? && l.KeepsUntil(now)
    case ChargeStep(bytes, writing) => l.cfg.Some? && IsSsize((if writing then l.write else l.read).limit - bytes)
    case LimitStep(decr, writing) => l.cfg.Some? && IsSsize((if writing then l.write else l.read).limit - decr)
    case RefillStep(now) => l.cfg.Some? && l.refillPending && l.KeepsUntil(now)
    case ConfigStep(cfg, _) => l.cfg.Some? && cfg.Some? && l.cfg.value.addr == cfg.value.addr ==> l.cfg == cfg
  }

  /** A limiter after a step */
  function Next(x: LimiterState, s: Step): LimiterState {
    match s
    case AskStep(now, _) => Ticked(x, now)
    case ChargeStep(bytes, writing) =>
      var mine, other := if writing then x.write else x.read, if writing then x.read else x.write;
      var limit := mine.limit - bytes;
      With(x, Half(limit, limit <= 0), writing,
           limit <= 0 || (x.refillPending && (other.suspended || !mine.suspended)))
    case LimitStep(decr, writing) =>
      var mine, other := if writing then x.write else x.read, if writing then x.read else x.write;
      var limit := mine.limit - decr;
      if mine.limit > 0 && limit <= 0 then With(x, Half(limit, true), writing, true)
      else if mine.limit <= 0 && limit > 0 then With(x, Half(limit, false), writing, x.refillPending && other.suspended)
      else With(x, mine.(limit := limit), writing, x.refillPending)
    case RefillStep(now) =>
      var y := Ticked(x, now);
      var read := y.read.(suspended := y.read.suspended && y.read.limit <= 0);
      var write := y.write.(suspended := y.write.suspended && y.write.limit <= 0);
      y.(read := read, write := write, refillPending := read.suspended || write.suspended)
    case ConfigStep(None, _) =>
      x.(cfg := None, read := x.read.(suspended := false), write := x.write.(suspended := false),
         refillPending := false)
    case ConfigStep(Some(cfg), now) =>
      if x.cfg == Some(cfg) then x
      else
        var read, write := SetHalf(x.read, cfg.read, x.cfg.Some?), SetHalf(x.write, cfg.write, x.cfg.Some?);
        LimiterState(Some(cfg), read, write, if x.cfg.Some? then x.last else now, read.suspended || write.suspended)
  }

  function With(x: LimiterState, half: Half, writing: bool, pending: bool): LimiterState {
    if writing then x.(write := half, refillPending := pending) else x.(read := half, refillPending := pending)
  }

  /** Both buckets brought up to date */
  function Ticked(x: LimiterState, now: nat): LimiterState {
    if x.cfg.None? then x
    else
      var read := Update(Bucket(x.read.limit, x.last), x.cfg.value.read, now).0;
      var write := Update(Bucket(x.write.limit, x.last), x.cfg.value.write, now).0;
      x.(read := x.read.(limit := read.limit), write := x.write.(limit := write.limit), last := read.last)
  }

  function NextAll(x: LimiterState, steps: seq<Step>): LimiterState {
    if steps == [] then x else Next(NextAll(x, steps[..|steps| - 1]), steps[|steps| - 1])
  }

  method Do(l: Limiter, s: Step)
    requires l.Valid() && Allowed(l, s)
    modifies l
    ensures l.Valid() && l.Now() == Next(old(l.Now()), s)
  {
    hide Update, Stays, TicksSince, IsSsize;
    match s {
      case AskStep(now, writing) => var _ := l.Max(now, writing);
      case ChargeStep(bytes, writing) => l.Decrement(bytes, writing);
      case LimitStep(decr, writing) => l.DecrementLimit(decr, writing);
      case RefillStep(now) => l.RefillCallback(now);
      case ConfigStep(cfg, now) => l.SetRateLimit(cfg, now);
    }
  }

  /** In any run, until a step that is not allowed, an empty bucket suspends and a suspension waits for a refill. */
  method RunSteps(l: Limiter, steps: seq<Step>) returns (done: nat)
    requires l.Valid()
    modifies l
    ensures l.Valid() && done <= |steps| && (done < |steps| ==> !Allowed(l, steps[done]))
    ensures l.Now() == NextAll(old(l.Now()), steps[..done])
  {
    done := 0;
    while done < |steps| && Allowed(l, steps[done])
      invariant l.Valid() && done <= |steps| && l.Now() == NextAll(old(l.Now()), steps[..done])
    {
      hide Next;
      assert steps[..done + 1][..done] == steps[..done];
      Do(l, steps[done]);
      done := done + 1;
    }
  }

  /** At a time, someone wants to move so many bytes. */
  datatype Wish = Wish(now: nat, bytes: nat, writing: bool)

  /** What was moved in one direction */
  function MovedBy(wishes: seq<Wish>, moved: seq<nat>, writing: bool): nat
    requires |moved| == |wishes|
  {
    if wishes == [] then 0
    else
      var k := |wishes| - 1;
      MovedBy(wishes[..k], moved[..k], writing) + if wishes[k].writing == writing then moved[k] else 0
  }

  /** What serving a wish does to the bucket of one direction */
  function ActsFor(w: Wish, n: nat, writing: bool): seq<Act> {
    if w.writing == writing then [Tick(w.now), Charge(n)] else [Tick(w.now)]
  }

  function ActsOf(wishes: seq<Wish>, moved: seq<nat>, writing: bool): seq<Act>
    requires |moved| == |wishes|
  {
    if wishes == [] then []
    else
      var k := |wishes| - 1;
      ActsOf(wishes[..k], moved[..k], writing) + ActsFor(wishes[k], moved[k], writing)
  }

  /** The acts so far lead from bucket `b` to `now`, are fair, and charged `total`. */
  ghost predicate Ledger(b: Bucket, r: Rate, acts: seq<Act>, now: Bucket, total: nat) {
    IsSsize(b.limit) && b.limit <= r.max && Fair(b, r, acts) && Run(b, r, acts).0 == now && Run(b, r, acts).1 == total
  }

  lemma {:induction false} LedgerTick(b: Bucket, r: Rate, acts: seq<Act>, now: Bucket, total: nat, tick: nat)
    requires Ledger(b, r, acts, now, total)
    ensures Ledger(b, r, acts + [Tick(tick)], Update(now, r, tick).0, total)
  {
    hide Update;
    assert (acts + [Tick(tick)])[..|acts|] == acts;
  }

  lemma {:induction false} LedgerCharge(b: Bucket, r: Rate, acts: seq<Act>, now: Bucket, total: nat, bytes: nat)
    requires Ledger(b, r, acts, now, total) && bytes <= Offered(now)
    ensures Ledger(b, r, acts + [Charge(bytes)], now.(limit := now.limit - bytes), total + bytes)
  {
    hide Update;
    assert (acts + [Charge(bytes)])[..|acts|] == acts;
  }

  lemma {:induction false} LedgerBounds(b: Bucket, r: Rate, acts: seq<Act>, now: Bucket, total: nat)
    requires Ledger(b, r, acts, now, total)
    ensures IsSsize(now.limit) && now.limit <= r.max
    ensures var (b', charged, credited) := Run(b, r, acts);
            b' == now && charged == total && charged <= r.max + r.rate * credited
  {
    NeverMore(b, r, acts);
    hide Run;
  }

  /** A bufferevent asks how much it may move, moves no more than it wants, and is charged for that. */
  method ServeOne(l: Limiter, w: Wish, ghost b: Bucket, ghost c: Bucket, ghost ins: seq<Act>, ghost outs: seq<Act>,
                  ghost r: nat, ghost s: nat)
    returns (n: nat, ghost ins': seq<Act>, ghost outs': seq<Act>)
    requires l.Valid() && l.cfg.Some?
    requires Ledger(b, l.cfg.value.read, ins, Bucket(l.read.limit, l.last), r)
    requires Ledger(c, l.cfg.value.write, outs, Bucket(l.write.limit, l.last), s)
    modifies l
    ensures l.Valid() && l.cfg == old(l.cfg) && n <= w.bytes
    ensures n < w.bytes ==> (if w.writing then l.write.limit else l.read.limit) <= 0
    ensures ins' == ins + ActsFor(w, n, false) && outs' == outs + ActsFor(w, n, true)
    ensures Ledger(b, l.cfg.value.read, ins', Bucket(l.read.limit, l.last), if w.writing then r else r + n)
    ensures Ledger(c, l.cfg.value.write, outs', Bucket(l.write.limit, l.last), if w.writing then s + n else s)
  {
    hide Ledger, Update, TicksSince;
    LedgerBounds(b, l.cfg.value.read, ins, Bucket(l.read.limit, l.last), r);
    LedgerBounds(c, l.cfg.value.write, outs, Bucket(l.write.limit, l.last), s);
    LedgerTick(b, l.cfg.value.read, ins, Bucket(l.read.limit, l.last), r, w.now);
    LedgerTick(c, l.cfg.value.write, outs, Bucket(l.write.limit, l.last), s, w.now);
    ins', outs' := ins + [Tick(w.now)], outs + [Tick(w.now)];
    var max := l.Max(w.now, w.writing);
    n := if w.bytes < max then w.bytes else max;
    if w.writing {
      LedgerCharge(c, l.cfg.value.write, outs', Bucket(l.write.limit, l.last), s, n);
      outs' := outs' + [Charge(n)];
    } else {
      LedgerCharge(b, l.cfg.value.read, ins', Bucket(l.read.limit, l.last), r, n);
      ins' := ins' + [Charge(n)];
    }
    l.Decrement(n, w.writing);
  }

  lemma {:induction false} MovedMore(wishes: seq<Wish>, moved: seq<nat>, n: nat, writing: bool)
    requires |moved| < |wishes|
    ensures var i := |moved|;
            MovedBy(wishes[..i + 1], moved + [n], writing)
            == MovedBy(wishes[..i], moved, writing) + if wishes[i].writing == writing then n else 0
    ensures var i := |moved|;
            ActsOf(wishes[..i + 1], moved + [n], writing)
            == ActsOf(wishes[..i], moved, writing) + ActsFor(wishes[i], n, writing)
  {
    var i := |moved|;
    assert wishes[..i + 1][..i] == wishes[..i] && (moved + [n])[..i] == moved;
  }

  /**
    A bufferevent that moves no more than bufferevent_get_rlim_max_ offers and is charged for what
    it moved: in each direction that is at most the burst and the rate times the ticks credited.
   */
  method Serve(l: Limiter, wishes: seq<Wish>) returns (moved: seq<nat>)
    requires l.Valid() && l.cfg.Some? && l.read.limit <= l.cfg.value.read.max && l.write.limit <= l.cfg.value.write.max
    modifies l
    ensures l.Valid() && l.cfg == old(l.cfg) && |moved| == |wishes|
    ensures forall i :: 0 <= i < |wishes| ==> moved[i] <= wishes[i].bytes
    ensures var acts := ActsOf(wishes, moved, false);
            var (b, charged, credited) := Run(Bucket(old(l.read.limit), old(l.last)), l.cfg.value.read, acts);
            && b == Bucket(l.read.limit, l.last) && charged == MovedBy(wishes, moved, false)
            && charged <= l.cfg.value.read.max + l.cfg.value.read.rate * credited
    ensures var acts := ActsOf(wishes, moved, true);
            var (b, charged, credited) := Run(Bucket(old(l.write.limit), old(l.last)), l.cfg.value.write, acts);
            && b == Bucket(l.write.limit, l.last) && charged == MovedBy(wishes, moved, true)
            && charged <= l.cfg.value.write.max + l.cfg.value.write.rate * credited
  {
    moved := [];
    ghost var b, c := Bucket(l.read.limit, l.last), Bucket(l.write.limit, l.last);
    NothingMoved(b, l.cfg.value.read, wishes, false);
    NothingMoved(c, l.cfg.value.write, wishes, true);
    hide *;
    for i := 0 to |wishes|
      invariant l.Valid() && l.cfg == old(l.cfg) && l.cfg.Some? && |moved| == i
      invariant forall k :: 0 <= k < i ==> moved[k] <= wishes[k].bytes
      invariant Booked(b, l.cfg.value.read, wishes[..i], moved, false, Bucket(l.read.limit, l.last))
      invariant Booked(c, l.cfg.value.write, wishes[..i], moved, true, Bucket(l.write.limit, l.last))
    {
      moved := ServeNext(l, wishes, moved, b, c);
    }
    assert wishes[..|wishes|] == wishes;
    AllBooked(b, l.cfg.value.read, wishes, moved, false, Bucket(l.read.limit, l.last));
    AllBooked(c, l.cfg.value.write, wishes, moved, true, Bucket(l.write.limit, l.last));
  }

  /** What the wishes did to the bucket of one direction and what was moved in it are in the books. */
  ghost predicate Booked(b: Bucket, r: Rate, wishes: seq<Wish>, moved: seq<nat>, writing: bool, now: Bucket)
    requires |moved| == |wishes|
  {
    Ledger(b, r, ActsOf(wishes, moved, writing), now, MovedBy(wishes, moved, writing))
  }

  lemma {:induction false} AllBooked(
      b: Bucket, r: Rate, wishes: seq<Wish>, moved: seq<nat>, writing: bool, now: Bucket)
    requires |moved| == |wishes| && Booked(b, r, wishes, moved, writing, now)
    ensures var (b', charged, credited) := Run(b, r, ActsOf(wishes, moved, writing));
            b' == now && charged == MovedBy(wishes, moved, writing) && charged <= r.max + r.rate * credited
  {
    LedgerBounds(b, r, ActsOf(wishes, moved, writing), now, MovedBy(wishes, moved, writing));
    hide Run;
  }

  method ServeNext(l: Limiter, wishes: seq<Wish>, moved: seq<nat>, ghost b: Bucket, ghost c: Bucket)
    returns (moved': seq<nat>)
    requires l.Valid() && l.cfg.Some? && |moved| < |wishes|
    requires Booked(b, l.cfg.value.read, wishes[..|moved|], moved, false, Bucket(l.read.limit, l.last))
    requires Booked(c, l.cfg.value.write, wishes[..|moved|], moved, true, Bucket(l.write.limit, l.last))
    modifies l
    ensures l.Valid() && l.cfg == old(l.cfg) && |moved'| == |moved| + 1
    ensures moved'[..|moved|] == moved && moved'[|moved|] <= wishes[|moved|].bytes
    ensures Booked(b, l.cfg.value.read, wishes[..|moved'|], moved', false, Bucket(l.read.limit, l.last))
    ensures Booked(c, l.cfg.value.write, wishes[..|moved'|], moved', true, Bucket(l.write.limit, l.last))
  {
    hide Run, Fair, Ledger, MovedBy, ActsOf, ActsFor;
    ghost var so := wishes[..|moved|];
    var n;
    ghost var ins, outs;
    n, ins, outs := ServeOne(l, wishes[|moved|], b, c, ActsOf(so, moved, false), ActsOf(so, moved, true),
                             MovedBy(so, moved, false), MovedBy(so, moved, true));
    MovedMore(wishes, moved, n, false);
    MovedMore(wishes, moved, n, true);
    moved' := moved + [n];
  }

  lemma {:induction false} NothingMoved(b: Bucket, r: Rate, wishes: seq<Wish>, writing: bool)
    requires IsSsize(b.limit) && b.limit <= r.max
    ensures Booked(b, r, wishes[..0], [], writing, b)
  {
  }
}
