/**
 Rate-limit groups. Suspending and unsuspending a group tries to lock each member and passes over
 those whose lock is held elsewhere; which those are is free in every call.
 */
module RateGroup {
  import opened Lists
  import opened Numbers
  import opened Options
  import opened RateLimit

  /** One direction of a group; `flagged` are the bufferevents that carry BEV_SUSPEND_BW_GROUP. */
  datatype Side = Side(limit: int, suspended: bool, pending: bool, flagged: set<nat>)

  /** No member is left behind: one that carries the flag is in a suspended group, or will be looked at again. */
  ghost predicate SideOk(s: Side, members: seq<nat>) {
    && IsSsize(s.limit)
    && (s.pending ==> !s.suspended)
    && forall i :: 0 <= i < |members| && members[i] in s.flagged ==> s.suspended || s.pending
  }

  ghost function Locked(members: seq<nat>, locks: set<nat>): set<nat> {
    set m | m in members && m in locks
  }

  ghost function Unlocked(members: seq<nat>, locks: set<nat>): set<nat> {
    set m | m in members && m !in locks
  }

  /** The members whose lock is free carry the flag. */
  ghost function Stopped(s: Side, members: seq<nat>, locks: set<nat>): Side {
    s.(suspended := true, pending := false, flagged := s.flagged + Unlocked(members, locks))
  }

  /** The members whose lock is free do not carry the flag; for the others there will be another pass. */
  ghost function Released(s: Side, members: seq<nat>, locks: set<nat>): Side {
    s.(suspended := false, pending := Locked(members, locks) != {}, flagged := s.flagged - Unlocked(members, locks))
  }

  /** A group that is stopped stops every member that is not locked elsewhere, and one that is released releases it. */
  lemma {:induction false} EveryMember(s: Side, members: seq<nat>, locks: set<nat>, m: nat)
    requires m in members
    ensures m !in locks ==> m in Stopped(s, members, locks).flagged && m !in Released(s, members, locks).flagged
    ensures m in locks ==>
      && (m in Stopped(s, members, locks).flagged <==> m in s.flagged)
      && (m in Released(s, members, locks).flagged <==> m in s.flagged) && Released(s, members, locks).pending
  {
    assert m in locks ==> m in Locked(members, locks);
    assert m !in locks ==> m in Unlocked(members, locks);
  }

  /** Nobody else is touched. */
  lemma {:induction false} NobodyElse(s: Side, members: seq<nat>, locks: set<nat>, m: nat)
    requires m !in members
    ensures m in Stopped(s, members, locks).flagged <==> m in s.flagged
    ensures m in Released(s, members, locks).flagged <==> m in s.flagged
  {
  }

  /** bev_group_suspend_reading_ and bev_group_suspend_writing_ */
  method Suspend(s: Side, members: seq<nat>, locks: set<nat>) returns (r: Side)
    ensures r == Stopped(s, members, locks)
  {
    r := s.(suspended := true, pending := false);
    for i := 0 to |members|
      invariant r == s.(suspended := true, pending := false, flagged := s.flagged + Unlocked(members[..i], locks))
    {
      if members[i] !in locks {
        r := r.(flagged := r.flagged + {members[i]});
      }
      assert members[..i + 1] == members[..i] + [members[i]];
    }
    assert members[..|members|] == members;
  }

  /** What an unsuspend pass does to one member. */
  function Visit(s: Side, again: bool, m: nat, locks: set<nat>): (Side, bool) {
    if m !in locks then (s.(flagged := s.flagged - {m}), again) else (s, true)
  }

  ghost predicate Passed(s: Side, again: bool, s0: Side, visited: seq<nat>, locks: set<nat>) {
    && s == s0.(suspended := false, flagged := s0.flagged - Unlocked(visited, locks))
    && (again <==> Locked(visited, locks) != {})
  }

  lemma {:induction false} VisitStep(s: Side, again: bool, s0: Side, visited: seq<nat>, locks: set<nat>, m: nat)
    requires Passed(s, again, s0, visited, locks)
    ensures var (s', again') := Visit(s, again, m, locks); Passed(s', again', s0, visited + [m], locks)
  {
    var visited' := visited + [m];
    assert Unlocked(visited', locks) == Unlocked(visited, locks) + (if m in locks then {} else {m});
    assert Locked(visited', locks) == Locked(visited, locks) + (if m in locks then {m} else {});
  }

  /**
    bev_group_unsuspend_reading_ and bev_group_unsuspend_writing_: the members are visited from a
    random one on to the end, then from the beginning up to it, so each of them exactly once.
   */
  method Unsuspend(s: Side, members: seq<nat>, locks: set<nat>, first: nat) returns (r: Side, ghost visited: seq<nat>)
    requires members == [] || first < |members|
    ensures multiset(visited) == multiset(members)
    ensures r == Released(s, members, locks)
  {
    visited := [];
    r := s.(suspended := false);
    var again := false;
    assert Unlocked([], locks) == {} && Locked([], locks) == {};
    if members != [] {
      var i := first;
      while i < |members|
        invariant first <= i <= |members| && visited == members[first..i] && Passed(r, again, s, visited, locks)
      {
        VisitStep(r, again, s, visited, locks, members[i]);
        var v := Visit(r, again, members[i], locks);
        r, again := v.0, v.1;
        visited := visited + [members[i]];
        i := i + 1;
      }
      i := 0;
      while i < first
        invariant 0 <= i <= first && visited == members[first..] + members[..i] && Passed(r, again, s, visited, locks)
      {
        VisitStep(r, again, s, visited, locks, members[i]);
        var v := Visit(r, again, members[i], locks);
        r, again := v.0, v.1;
        visited := visited + [members[i]];
        i := i + 1;
      }
      Rotated(members, first, locks);
    }
    r := r.(pending := again);
  }

  lemma {:induction false} Rotated(members: seq<nat>, k: nat, locks: set<nat>)
    requires k <= |members|
    ensures var v := members[k..] + members[..k];
            && multiset(v) == multiset(members)
            && Unlocked(v, locks) == Unlocked(members, locks) && Locked(v, locks) == Locked(members, locks)
  {
    assert members == members[..k] + members[k..];
    var v := members[k..] + members[..k];
    assert multiset(v) == multiset(members);
    assert forall m: nat :: m in v <==> m in multiset(v);
    assert forall m: nat :: m in members <==> m in multiset(members);
  }

  lemma {:induction false} SuspendedOk(s: Side, members: seq<nat>)
    requires s.suspended && !s.pending && IsSsize(s.limit)
    ensures SideOk(s, members)
  {
  }

  lemma {:induction false} ReleasedOk(s: Side, members: seq<nat>, locks: set<nat>)
    requires IsSsize(s.limit)
    ensures SideOk(Released(s, members, locks), members)
  {
    var r := Released(s, members, locks);
    forall i | 0 <= i < |members| && members[i] in r.flagged
      ensures r.pending
    {
      assert members[i] !in Unlocked(members, locks);
      assert members[i] in Locked(members, locks);
    }
  }

  /** What a charge does to one direction: an empty bucket stops the group, any other releases it. */
  ghost function Charged(s: Side, bytes: int, members: seq<nat>, locks: set<nat>): Side {
    var s' := s.(limit := s.limit - bytes);
    if s'.limit <= 0 then Stopped(s', members, locks) else if s.suspended then Released(s', members, locks) else s'
  }

  /** The same for a change from outside, which only looks at a crossing of zero */
  ghost function Changed(s: Side, decr: int, members: seq<nat>, locks: set<nat>): Side {
    var s' := s.(limit := s.limit - decr);
    if s.limit > 0 && s'.limit <= 0 then Stopped(s', members, locks)
    else if s.limit <= 0 && s'.limit > 0 then Released(s', members, locks)
    else s'
  }

  /** What a refill does to one direction, after its bucket is filled: a pass that is due, or enough, releases it. */
  ghost function Refilled(s: Side, members: seq<nat>, locks: set<nat>, minShare: nat): Side {
    if s.pending || (s.suspended && s.limit >= minShare) then Released(s, members, locks) else s
  }

  /**
    With no lock held elsewhere, a charge that empties the bucket stops every member, and one that
    does not stops none.
   */
  lemma {:induction false} ChargeDecides(s: Side, bytes: int, members: seq<nat>, m: nat)
    requires SideOk(s, members) && !s.pending && m in members
    ensures m in Charged(s, bytes, members, {}).flagged <==> s.limit - bytes <= 0
    ensures Charged(s, bytes, members, {}).suspended <==> s.limit - bytes <= 0
  {
    EveryMember(s.(limit := s.limit - bytes), members, {}, m);
    hide Stopped, Released;
  }

  /** So does a change of the limit, where the group is suspended exactly if its bucket is empty. */
  lemma {:induction false} ChangeDecides(s: Side, decr: int, members: seq<nat>, m: nat)
    requires SideOk(s, members) && !s.pending && m in members
    requires (s.suspended <==> s.limit <= 0) && (m in s.flagged <==> s.suspended)
    ensures m in Changed(s, decr, members, {}).flagged <==> s.limit - decr <= 0
    ensures Changed(s, decr, members, {}).suspended <==> s.limit - decr <= 0
  {
    EveryMember(s.(limit := s.limit - decr), members, {}, m);
    hide Stopped, Released;
  }

  /** With no lock held elsewhere, a refill to the minimal share releases every member for good. */
  lemma {:induction false} RefillReleases(s: Side, members: seq<nat>, minShare: nat, m: nat)
    requires SideOk(s, members) && m in members
    ensures var r := Refilled(s, members, {}, minShare);
            && (s.limit >= minShare || s.pending ==> m !in r.flagged && !r.suspended && !r.pending)
            && (s.limit < minShare && !s.pending ==> r == s)
  {
    EveryMember(s, members, {}, m);
    assert Locked(members, {}) == {};
    hide Stopped, Locked, Unlocked;
  }

  datatype GroupState = GroupState(
    members: seq<nat>, read: Side, write: Side, readRate: Rate, writeRate: Rate,
    last: nat, minShare: nat, configured: nat)

  class Group {
    var readRate: Rate
    var writeRate: Rate
    var last: nat
    var read: Side
    var write: Side
    var members: seq<nat>
    var minShare: nat
    var configuredMinShare: nat

    ghost predicate Valid()
      reads this
    {
      && SideOk(read, members) && SideOk(write, members) && NoDup(members)
      && minShare <= readRate.rate && minShare <= writeRate.rate && configuredMinShare < TWO_63
    }

    ghost function Now(): GroupState
      reads this
    {
      GroupState(members, read, write, readRate, writeRate, last, minShare, configuredMinShare)
    }

    /** bufferevent_rate_limit_group_new */
    constructor (readRate: Rate, writeRate: Rate, now: nat)
      ensures Valid()
      ensures Now() == GroupState([], Side(readRate.rate, false, false, {}), Side(writeRate.rate, false, false, {}),
                                             readRate, writeRate, now, Min(Min(64, readRate.rate), writeRate.rate), 64)
    {
      this.readRate, this.writeRate, last, members := readRate, writeRate, now, [];
      read, write := Side(readRate.rate, false, false, {}), Side(writeRate.rate, false, false, {});
      configuredMinShare := 64;
      minShare := Min(Min(64, readRate.rate), writeRate.rate);
    }

    /** bufferevent_rate_limit_group_set_min_share */
    method SetMinShare(share: nat) returns (r: int)
      requires Valid()
      modifies this`minShare, this`configuredMinShare
      ensures Valid() && r == if share >= TWO_63 then -1 else 0
      ensures r == 0 ==> configuredMinShare == share && minShare == Min(Min(share, readRate.rate), writeRate.rate)
      ensures r == -1 ==> unchanged(this)
    {
      if share >= TWO_63 {
        return -1;
      }
      configuredMinShare := share;
      var s := share;
      if s > readRate.rate {
        s := readRate.rate;
      }
      if s > writeRate.rate {
        s := writeRate.rate;
      }
      minShare := s;
      r := 0;
    }

    /** One direction after a charge: empty suspends, otherwise a suspension ends. */
    method Settle(s: Side, bytes: int, members: seq<nat>, locks: set<nat>, first: nat) returns (r: Side)
      requires SideOk(s, members) && IsSsize(s.limit - bytes) && (members == [] || first < |members|)
      ensures r == Charged(s, bytes, members, locks) && SideOk(r, members)
      ensures r.limit == s.limit - bytes && (r.suspended <==> r.limit <= 0)
    {
      r := s.(limit := s.limit - bytes);
      if r.limit <= 0 {
        r := Suspend(r, members, locks);
        SuspendedOk(r, members);
      } else if r.suspended {
        ReleasedOk(r, members, locks);
        ghost var visited;
        r, visited := Unsuspend(r, members, locks, first);
      }
    }

    /** The group's part of bufferevent_decrement_read_buckets_ and bufferevent_decrement_write_buckets_ */
    method Decrement(bytes: int, writing: bool, locks: set<nat>, first: nat)
      requires Valid() && (members == [] || first < |members|)
      requires IsSsize((if writing then write else read).limit - bytes)
      modifies this`read, this`write
      ensures Valid()
      ensures var (mine, was) := if writing then (write, old(write)) else (read, old(read));
              && mine == Charged(was, bytes, members, locks)
              && mine.limit == was.limit - bytes && (mine.suspended <==> mine.limit <= 0)
      ensures if writing then read == old(read) else write == old(write)
    {
      hide Charged, SideOk;
      if writing {
        write := Settle(write, bytes, members, locks, first);
      } else {
        read := Settle(read, bytes, members, locks, first);
      }
    }

    /** The group's part of bufferevent_get_rlim_max_: one that was passed over finds out here. */
    method Share(id: nat, writing: bool) returns (share: nat)
      requires Valid() && id in members
      modifies this`read, this`write
      ensures Valid()
      ensures var (mine, was) := if writing then (write, old(write)) else (read, old(read));
              && mine == (if was.suspended then was.(flagged := was.flagged + {id}) else was)
              && share == Portion(was, |members|, minShare)
      ensures if writing then read == old(read) else write == old(write)
    {
      var s := if writing then write else read;
      if s.suspended {
        share := 0;
        if writing {
          write := s.(flagged := s.flagged + {id});
        } else {
          read := s.(flagged := s.flagged + {id});
        }
      } else {
        var q := Quotient(s.limit, |members|);
        share := if q < minShare then minShare else q;
      }
    }

    /** bufferevent_add_to_rate_limit_group of a bufferevent that is in no group and carries no flag of one */
    method AddMember(id: nat)
      requires Valid() && id !in members && id !in read.flagged && id !in write.flagged
      modifies this`members, this`read, this`write
      ensures Valid() && members == [id] + old(members)
      ensures read == old(if read.suspended then read.(flagged := read.flagged + {id}) else read)
      ensures write == old(if write.suspended then write.(flagged := write.flagged + {id}) else write)
    {
      members := [id] + members;
      if read.suspended {
        read := read.(flagged := read.flagged + {id});
      }
      if write.suspended {
        write := write.(flagged := write.flagged + {id});
      }
    }

    /** bufferevent_remove_from_rate_limit_group_internal_ of the member at place `k` */
    method RemoveMember(k: nat, unsuspend: bool)
      requires Valid() && k < |members|
      modifies this`members, this`read, this`write
      ensures Valid() && members == old(members[..k] + members[k + 1..])
      ensures read == if unsuspend then old(read).(flagged := old(read).flagged - {old(members[k])}) else old(read)
      ensures write == if unsuspend then old(write).(flagged := old(write).flagged - {old(members[k])}) else old(write)
    {
      var id := members[k];
      members := members[..k] + members[k + 1..];
      if unsuspend {
        read := read.(flagged := read.flagged - {id});
        write := write.(flagged := write.flagged - {id});
      }
    }

    /** bufferevent_rate_limit_group_decrement_read and _write */
    method DecrementLimit(decr: int, writing: bool, locks: set<nat>, first: nat)
      requires Valid() && (members == [] || first < |members|)
      requires IsSsize((if writing then write else read).limit - decr)
      modifies this`read, this`write
      ensures Valid()
      ensures var (mine, was) := if writing then (write, old(write)) else (read, old(read));
              mine == Changed(was, decr, members, locks) && mine.limit == was.limit - decr
      ensures if writing then read == old(read) else write == old(write)
    {
      var was := if writing then write else read;
      var s := was.(limit := was.limit - decr);
      if (was.limit > 0) != (s.limit > 0) {
        if s.limit > 0 {
          ReleasedOk(s, members, locks);
          ghost var visited;
          s, visited := Unsuspend(s, members, locks, first);
        } else {
          s := Suspend(s, members, locks);
          SuspendedOk(s, members);
        }
      }
      if writing {
        write := s;
      } else {
        read := s;
      }
    }

    /** bufferevent_rate_limit_group_set_cfg */
    method SetCfg(newRead: Rate, newWrite: Rate)
      requires Valid()
      modifies this
      ensures Valid() && readRate == newRead && writeRate == newWrite && members == old(members) && last == old(last)
      ensures read == old(read).(limit := Min(old(read).limit, newRead.max))
      ensures write == old(write).(limit := Min(old(write).limit, newWrite.max))
      ensures minShare == Min(Min(configuredMinShare, newRead.rate), newWrite.rate)
      ensures configuredMinShare == old(configuredMinShare)
    {
      readRate, writeRate := newRead, newWrite;
      if read.limit > newRead.max {
        read := read.(limit := newRead.max);
      }
      if write.limit > newWrite.max {
        write := write.(limit := newWrite.max);
      }
      minShare := 0;
      var _ := SetMinShare(configuredMinShare);
    }

    /** One direction of bev_group_refill_callback_ after its bucket was updated */
    method AfterRefill(s: Side, locks: set<nat>, first: nat) returns (r: Side)
      requires Valid() && SideOk(s, members) && (members == [] || first < |members|)
      ensures SideOk(r, members) && r == Refilled(s, members, locks, minShare)
      ensures r.limit == s.limit && (r.suspended <==> s.suspended && s.limit < minShare)
    {
      r := s;
      if s.pending || (s.suspended && s.limit >= minShare) {
        ReleasedOk(s, members, locks);
        ghost var visited;
        r, visited := Unsuspend(s, members, locks, first);
      }
    }

    /** bev_group_refill_callback_ */
    method RefillCallback(now: nat, locks: set<nat>, firstRead: nat, firstWrite: nat)
      requires Valid() && (members == [] || (firstRead < |members| && firstWrite < |members|))
      modifies this`read, this`write, this`last
      ensures Valid()
      ensures Bucket(read.limit, last) == Update(Bucket(old(read.limit), old(last)), readRate, now).0
      ensures Bucket(write.limit, last) == Update(Bucket(old(write.limit), old(last)), writeRate, now).0
      ensures read == Refilled(old(read).(limit := read.limit), members, locks, minShare)
      ensures write == Refilled(old(write).(limit := write.limit), members, locks, minShare)
      ensures read.suspended <==> old(read.suspended) && read.limit < minShare
      ensures write.suspended <==> old(write.suspended) && write.limit < minShare
    {
      var n := TicksSince(now, last);
      if 0 < n < TWO_31 {
        RefillIsSsize(read.limit, readRate, n);
        RefillIsSsize(write.limit, writeRate, n);
        read := read.(limit := Refill(read.limit, readRate, n));
        write := write.(limit := Refill(write.limit, writeRate, n));
        last := now;
      }
      hide Refill;
      read := AfterRefill(read, locks, firstRead);
      write := AfterRefill(write, locks, firstWrite);
    }

    /**
      A group that is not charged is released in time: after `n` ticks, at least one, that together
      bring what is missing to the minimal share, neither direction is suspended, whatever locks
      were held elsewhere when the refill callback ran.
     */
    method QuietTicks(n: nat, locks: seq<set<nat>>, first: seq<nat>)
      requires Valid() && last < TWO_32 && 0 < n == |locks| == |first|
      requires members == [] || forall i :: 0 <= i < n ==> first[i] < |members|
      requires read.limit <= readRate.max && write.limit <= writeRate.max
      requires n * readRate.rate >= minShare - read.limit && n * writeRate.rate >= minShare - write.limit
      modifies this`read, this`write, this`last
      ensures Valid() && !read.suspended && !write.suspended
      ensures read.limit == Level(old(read.limit), readRate, n) && write.limit == Level(old(write.limit), writeRate, n)
    {
      ghost var r0, w0 := read.limit, write.limit;
      assert IsSsize(r0) && IsSsize(w0);
      hide Update, Level, Refill, TicksSince, SideOk;
      LevelStarts(r0, readRate);
      LevelStarts(w0, writeRate);
      for i := 0 to n
        invariant Valid() && last < TWO_32
        invariant read.limit == Level(r0, readRate, i) && write.limit == Level(w0, writeRate, i)
        invariant i > 0 && read.limit >= minShare ==> !read.suspended
        invariant i > 0 && write.limit >= minShare ==> !write.suspended
      {
        var now := (last + 1) % TWO_32;
        OneTick(read.limit, last, readRate, r0, i);
        OneTick(write.limit, last, writeRate, w0, i);
        RefillCallback(now, locks[i], first[i], first[i]);
      }
      LevelEnough(r0, readRate, n, minShare);
      LevelEnough(w0, writeRate, n, minShare);
    }
  }

  /** A bucket after `i` ticks without a charge */
  ghost function Level(start: int, r: Rate, i: nat): int {
    Min(r.max, start + i * r.rate)
  }

  lemma {:induction false} LevelStarts(start: int, r: Rate)
    requires start <= r.max
    ensures Level(start, r, 0) == start
  {
    assert 0 * r.rate == 0;
  }

  lemma {:induction false} LevelEnough(start: int, r: Rate, n: nat, share: nat)
    requires n * r.rate >= share - start && share <= r.rate
    ensures Level(start, r, n) >= share
  {
  }

  /** One refill callback a tick later raises the level by one step. */
  lemma {:induction false} OneTick(limit: int, last: nat, r: Rate, start: int, i: nat)
    requires IsSsize(start) && limit == Level(start, r, i) && start <= r.max && last < TWO_32
    ensures var now := (last + 1) % TWO_32; Update(Bucket(limit, last), r, now).0 == Bucket(Level(start, r, i + 1), now)
  {
    assert TicksSince((last + 1) % TWO_32, last) == 1;
    assert i * r.rate >= 0;
    RefillIsMin(limit, r, 1);
    assert (i + 1) * r.rate == i * r.rate + r.rate;
  }

  /**
    What a group leaves to one of its `n` members: nothing while it is suspended, otherwise at least
    the minimal share
   */
  function Portion(s: Side, n: nat, minShare: nat): nat
    requires n > 0
  {
    if s.suspended then 0 else if Quotient(s.limit, n) < minShare then minShare else Quotient(s.limit, n)
  }

  /** The limit is divided among the members, unless that is less than the minimal share. */
  lemma {:induction false} PortionDivides(s: Side, n: nat, minShare: nat)
    requires n > 0
    ensures var p := Portion(s, n, minShare);
            if s.suspended then p == 0
            else if s.limit >= n * minShare then n * p <= s.limit < n * p + n else p == minShare
  {
    if s.limit >= 0 {
      assert s.limit == n * (s.limit / n) + s.limit % n;
      if s.limit >= n * minShare {
        TimesGrows(s.limit / n + 1, minShare, n);
        assert n * minShare == minShare * n && (s.limit / n + 1) * n == n * (s.limit / n) + n;
      } else {
        TimesGrows(minShare, s.limit / n, n);
        assert n * minShare == minShare * n && s.limit / n * n == n * (s.limit / n);
      }
    }
  }

  /** C division of a signed number */
  function Quotient(a: int, n: nat): int
    requires n > 0
  {
    if a >= 0 then a / n else -(-a / n)
  }

  // ---------- a bufferevent with a limit of its own and a group ----------

  /**
    bufferevent_get_rlim_max_: the limit of its own, if there is one, takes the place of the largest
    single operation, and the share of the group is no more than an upper bound.
   */
  method RlimMax(l: Limiter, g: Group?, id: nat, now: nat, writing: bool, single: nat) returns (max: nat)
    requires l.Valid() && (g != null ==> g.Valid() && id in g.members)
    modifies l, g
    ensures l.cfg == old(l.cfg) && (g != null ==> g.Valid() && g.members == old(g.members))
    ensures l.Valid() <==> old(l.cfg.Some? ==> l.KeepsUntil(now))
    ensures var own := if l.cfg.None? then single else if writing then l.write.limit else l.read.limit;
            max == if own <= 0 then 0
                   else if g == null then own
                   else Min(own, Portion(old(if writing then g.write else g.read), |g.members|, g.minShare))
    ensures l.cfg.Some? ==>
      && Bucket(l.read.limit, l.last) == Update(Bucket(old(l.read.limit), old(l.last)), l.cfg.value.read, now).0
      && Bucket(l.write.limit, l.last) == Update(Bucket(old(l.write.limit), old(l.last)), l.cfg.value.write, now).0
  {
    hide Update, SideOk, Quotient;
    var soFar: int := single;
    if l.cfg.Some? {
      var _ := l.Max(now, writing);
      soFar := if writing then l.write.limit else l.read.limit;
    }
    if g != null {
      var share := g.Share(id, writing);
      if soFar > share {
        soFar := share;
      }
    }
    max := if soFar < 0 then 0 else soFar;
  }

  // ---------- runs ----------

  datatype Step =
    | ChargeStep(bytes: int, writing: bool, locks: set<nat>, first: nat)
    | LimitStep(decr: int, writing: bool, locks: set<nat>, first: nat)
    | ShareStep(id: nat, writing: bool)
    | AddStep(id: nat)
    | RemoveStep(k: nat, unsuspend: bool)
    | MinShareStep(share: nat)
    | ConfigStep(newRead: Rate, newWrite: Rate)
    | RefillStep(now: nat, locks: set<nat>, firstRead: nat, firstWrite: nat)

  /** The members named are there, the random member is one of them, and no charge overflows. */
  predicate Allowed(g: Group, s: Step)
    reads g
  {
    match s
    case ChargeStep(bytes, writing, _, first) =>
      (g.members == [] || first < |g.members|) && IsSsize((if writing then g.write else g.read).limit - bytes)
    case LimitStep(decr, writing, _, first) =>
      (g.members == [] || first < |g.members|) && IsSsize((if writing then g.write else g.read).limit - decr)
    case ShareStep(id, _) => id in g.members
    case AddStep(id) => id !in g.members && id !in g.read.flagged && id !in g.write.flagged
    case RemoveStep(k, _) => k < |g.members|
    case MinShareStep(_) => true
    case ConfigStep(_, _) => true
    case RefillStep(_, _, firstRead, firstWrite) =>
      g.members == [] || (firstRead < |g.members| && firstWrite < |g.members|)
  }

  /** The group after a step; the member that a pass starts with does not matter. */
  ghost function Next(x: GroupState, s: Step): GroupState {
    match s
    case ChargeStep(bytes, writing, locks, _) =>
      if writing then x.(write := Charged(x.write, bytes, x.members, locks))
      else x.(read := Charged(x.read, bytes, x.members, locks))
    case LimitStep(decr, writing, locks, _) =>
      if writing then x.(write := Changed(x.write, decr, x.members, locks))
      else x.(read := Changed(x.read, decr, x.members, locks))
    case ShareStep(id, writing) => if writing then x.(write := Caught(x.write, id)) else x.(read := Caught(x.read, id))
    case AddStep(id) => x.(members := [id] + x.members, read := Caught(x.read, id), write := Caught(x.write, id))
    case RemoveStep(k, unsuspend) =>
      if k >= |x.members| then x
      else
        var gone := if unsuspend then {x.members[k]} else {};
        x.(members := x.members[..k] + x.members[k + 1..], read := x.read.(flagged := x.read.flagged - gone),
           write := x.write.(flagged := x.write.flagged - gone))
    case MinShareStep(share) =>
      if share >= TWO_63 then x
      else x.(configured := share, minShare := Min(Min(share, x.readRate.rate), x.writeRate.rate))
    case ConfigStep(newRead, newWrite) =>
      x.(readRate := newRead, writeRate := newWrite, minShare := Min(Min(x.configured, newRead.rate), newWrite.rate),
         read := x.read.(limit := Min(x.read.limit, newRead.max)),
         write := x.write.(limit := Min(x.write.limit, newWrite.max)))
    case RefillStep(now, locks, _, _) =>
      var read := Update(Bucket(x.read.limit, x.last), x.readRate, now).0;
      var write := Update(Bucket(x.write.limit, x.last), x.writeRate, now).0;
      x.(read := Refilled(x.read.(limit := read.limit), x.members, locks, x.minShare),
         write := Refilled(x.write.(limit := write.limit), x.members, locks, x.minShare), last := read.last)
  }

  /** A member that comes along while the group is suspended */
  ghost function Caught(s: Side, id: nat): Side {
    if s.suspended then s.(flagged := s.flagged + {id}) else s
  }

  ghost function NextAll(x: GroupState, steps: seq<Step>): GroupState {
    if steps == [] then x else Next(NextAll(x, steps[..|steps| - 1]), steps[|steps| - 1])
  }

  /** Two steps that differ at most in the member that a pass starts with */
  ghost predicate SameButFirst(s: Step, t: Step) {
    match (s, t)
    case (ChargeStep(b, w, l, _), ChargeStep(b', w', l', _)) => b == b' && w == w' && l == l'
    case (LimitStep(d, w, l, _), LimitStep(d', w', l', _)) => d == d' && w == w' && l == l'
    case (RefillStep(n, l, _, _), RefillStep(n', l', _, _)) => n == n' && l == l'
    case _ => t == s
  }

  /** The random numbers decide the order in which members are looked at, and nothing else. */
  lemma {:induction false} FirstDoesNotMatter(x: GroupState, ss: seq<Step>, ts: seq<Step>)
    requires |ss| == |ts| && forall i :: 0 <= i < |ss| ==> SameButFirst(ss[i], ts[i])
    ensures NextAll(x, ss) == NextAll(x, ts)
  {
    if ss != [] {
      var n := |ss| - 1;
      assert SameButFirst(ss[n], ts[n]);
      FirstDoesNotMatter(x, ss[..n], ts[..n]);
    }
  }

  method Do(g: Group, s: Step)
    requires g.Valid() && Allowed(g, s)
    modifies g
    ensures g.Valid() && g.Now() == Next(old(g.Now()), s)
  {
    hide Update, SideOk, IsSsize, Portion, NoDup, Charged, Changed, Refilled;
    match s {
      case ChargeStep(bytes, writing, locks, first) => g.Decrement(bytes, writing, locks, first);
      case LimitStep(decr, writing, locks, first) => g.DecrementLimit(decr, writing, locks, first);
      case ShareStep(id, writing) => var _ := g.Share(id, writing);
      case AddStep(id) => g.AddMember(id);
      case RemoveStep(k, unsuspend) => g.RemoveMember(k, unsuspend);
      case MinShareStep(share) => var _ := g.SetMinShare(share);
      case ConfigStep(newRead, newWrite) => g.SetCfg(newRead, newWrite);
      case RefillStep(now, locks, firstRead, firstWrite) => g.RefillCallback(now, locks, firstRead, firstWrite);
    }
  }

  /** In any run, whatever locks are held elsewhere at each step, no member is left behind suspended. */
  method RunSteps(g: Group, steps: seq<Step>) returns (done: nat)
    requires g.Valid()
    modifies g
    ensures g.Valid() && done <= |steps| && (done < |steps| ==> !Allowed(g, steps[done]))
    ensures g.Now() == NextAll(old(g.Now()), steps[..done])
    ensures forall i :: 0 <= i < |g.members| && g.members[i] in g.read.flagged ==> g.read.suspended || g.read.pending
    ensures forall i :: 0 <= i < |g.members| && g.members[i] in g.write.flagged ==> g.write.suspended || g.write.pending
  {
    done := 0;
    while done < |steps| && Allowed(g, steps[done])
      invariant g.Valid() && done <= |steps| && g.Now() == NextAll(old(g.Now()), steps[..done])
    {
      hide Next;
      assert steps[..done + 1][..done] == steps[..done];
      Do(g, steps[done]);
      done := done + 1;
    }
  }
}
