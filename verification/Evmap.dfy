/**
 The event map of an event base, its changelist and the epoll backend: which events are pending
 on each file descriptor, which changes the kernel has yet to be told of, and what it watches.
 */
module Evmap {
  import opened EpollTable

  /** The part of struct event that the event map looks at. */
  datatype Event = Event(id: int, fd: int, kinds: Interest)

  /** struct evmap_io with the fdinfo of the changelist behind it. */
  datatype Entry =
    | Absent
    | Io(nread: nat, nwrite: nat, nclose: nat, events: seq<Event>, idxplus1: nat)

  function Num(events: seq<Event>, sel: Interest -> bool): nat {
    if events == [] then 0 else (if sel(events[0].kinds) then 1 else 0) + Num(events[1..], sel)
  }

  const Reads: Interest -> bool := (i: Interest) => i.read
  const Writes: Interest -> bool := (i: Interest) => i.write
  const Closes: Interest -> bool := (i: Interest) => i.close

  /** The kinds with a non-zero count. */
  function Want(e: Entry): Interest {
    if e.Absent? then NONE else Interest(e.nread > 0, e.nwrite > 0, e.nclose > 0)
  }

  /** LIST_REMOVE */
  function Without(events: seq<Event>, ev: Event): seq<Event> {
    if events == [] then [] else if events[0] == ev then events[1..] else [events[0]] + Without(events[1..], ev)
  }

  lemma {:induction false} NumWithout(events: seq<Event>, ev: Event, sel: Interest -> bool)
    requires ev in events
    ensures Num(events, sel) == Num(Without(events, ev), sel) + if sel(ev.kinds) then 1 else 0
  {
    if events[0] != ev {
      NumWithout(events[1..], ev, sel);
      assert ([events[0]] + Without(events[1..], ev))[1..] == Without(events[1..], ev);
    }
  }

  type Kernel = map<nat, Interest>

  function Watched(kernel: Kernel, fd: nat): Interest {
    if fd in kernel then kernel[fd] else NONE
  }

  datatype Errno = Okay | Eexist | Enoent

  /** epoll_ctl: what the kernel answers and what it watches afterwards. */
  function EpollCtl(kernel: Kernel, op: CtlOp, fd: nat, events: Interest): (Errno, Kernel) {
    match op
    case Add => if fd in kernel then (Eexist, kernel) else (Okay, kernel[fd := events])
    case Mod => if fd in kernel then (Okay, kernel[fd := events]) else (Enoent, kernel)
    case Del => if fd in kernel then (Okay, kernel - {fd}) else (Enoent, kernel)
  }

  /** The kernel may have forgotten an fd that was closed; then every event it had must be spoken of. */
  ghost predicate MayBeClosed(ch: Change) {
    (ch.was.read ==> ch.read != 0) && (ch.was.write ==> ch.write != 0) && (ch.was.close ==> ch.close != 0)
  }

  /** A pending change fits what the kernel watches now and what is wanted. */
  ghost predicate ChangeOk(ch: Change, watched: Interest, want: Interest) {
    && !HasBadCode(ch)
    && Target(ch) == want
    && (watched == ch.was || (watched == NONE && MayBeClosed(ch)))
  }

  ghost predicate CountsOk(e: Entry, fd: int) {
    e.Io? ==>
      && e.nread == Num(e.events, Reads) <= 0xffff
      && e.nwrite == Num(e.events, Writes) <= 0xffff
      && e.nclose == Num(e.events, Closes) <= 0xffff
      && forall i :: 0 <= i < |e.events| ==> e.events[i].fd == fd
  }

  /** The entry, the change it points to, and the kernel agree. */
  ghost predicate FdOk(e: Entry, changes: seq<Change>, kernel: Kernel, fd: nat) {
    if e.Io? && e.idxplus1 > 0 then
      && e.idxplus1 <= |changes|
      && changes[e.idxplus1 - 1].fd == fd
      && ChangeOk(changes[e.idxplus1 - 1], Watched(kernel, fd), Want(e))
    else
      Watched(kernel, fd) == Want(e)
  }

  /** One epoll_apply_one_change. */
  method ApplyOneChange(kernel: Kernel, ch: Change) returns (r: int, kernel': Kernel)
    requires !HasBadCode(ch)
    ensures r == 0
    ensures IsNoChange(ch) ==> kernel' == kernel
    ensures !IsNoChange(ch) ==> Watched(kernel', ch.fd) == Target(ch)
    ensures forall fd :: fd != ch.fd ==> Watched(kernel', fd) == Watched(kernel, fd)
    ensures forall fd :: fd in kernel' ==> fd in kernel || fd == ch.fd
    ensures (forall fd :: fd in kernel ==> !kernel[fd].Empty()) ==> forall fd :: fd in kernel' ==> !kernel'[fd].Empty()
  {
    TableIsRight(ch);
    var row := Lookup(Index(ch));
    kernel' := kernel;
    match row {
      case Nop => r := 0;
      case Bad => assert false;
      case Ctl(op, events) =>
        var answer := EpollCtl(kernel, op, ch.fd, events);
        var err := answer.0;
        kernel' := answer.1;
        match op {
          case Mod =>
            if err == Enoent {
              var again := EpollCtl(kernel, Add, ch.fd, events);
              err, kernel' := again.0, again.1;
            }
            r := if err == Okay then 0 else -1;
          case Add =>
            if err == Eexist {
              var again := EpollCtl(kernel, Mod, ch.fd, events);
              err, kernel' := again.0, again.1;
            }
            r := if err == Okay then 0 else -1;
          case Del =>
            r := 0;
        }
    }
  }

  // ---------- recording changes ----------

  /** event_changelist_add_ on the change of an fd */
  function WithAdd(ch: Change, events: Interest): Change {
    ch.(read := if events.read then CHANGE_ADD else ch.read,
        write := if events.write then CHANGE_ADD else ch.write,
        close := if events.close then CHANGE_ADD else ch.close)
  }

  function DelCode(was: bool): Code {
    if was then CHANGE_DEL else 0
  }

  /** event_changelist_del_ on the change of an fd */
  function WithDel(ch: Change, events: Interest): Change {
    ch.(read := if events.read then DelCode(ch.was.read) else ch.read,
        write := if events.write then DelCode(ch.was.write) else ch.write,
        close := if events.close then DelCode(ch.was.close) else ch.close)
  }

  function Plus(a: Interest, b: Interest): Interest {
    Interest(a.read || b.read, a.write || b.write, a.close || b.close)
  }

  function Minus(a: Interest, b: Interest): Interest {
    Interest(a.read && !b.read, a.write && !b.write, a.close && !b.close)
  }

  /** Coalescing: one more addition or removal turns a change that fits into one that fits. */
  lemma {:induction false} CoalesceOk(ch: Change, watched: Interest, want: Interest, events: Interest)
    requires ChangeOk(ch, watched, want)
    ensures ChangeOk(WithAdd(ch, events), watched, Plus(want, events))
    ensures ChangeOk(WithDel(ch, events), watched, Minus(want, events))
  {
  }

  /** What is added and deleted again before the kernel hears of it leaves no change behind. */
  lemma {:induction false} AddThenDelIsNothing(fd: nat, was: Interest, events: Interest)
    requires Minus(events, was) == events
    ensures IsNoChange(WithDel(WithAdd(Change(fd, was, 0, 0, 0), events), events))
  {
    assert !(events.read && was.read) && !(events.write && was.write) && !(events.close && was.close);
  }

  /** The changelist entry of an fd, constructed with the events it had if there is none yet. */
  function GetOrConstruct(e: Entry, changes: seq<Change>, fd: nat, was: Interest): (seq<Change>, nat)
    requires e.Io?
  {
    if e.idxplus1 == 0 then (changes + [Change(fd, was, 0, 0, 0)], |changes|) else (changes, e.idxplus1 - 1)
  }

  /** The whole state fits, for the entries of all fds. */
  ghost predicate AllOk(entries: seq<Entry>, changes: seq<Change>, kernel: Kernel) {
    && (forall fd :: 0 <= fd < |entries| ==> CountsOk(entries[fd], fd) && FdOk(entries[fd], changes, kernel, fd))
    && (forall fd :: fd in kernel ==> fd < |entries| && !kernel[fd].Empty())
    && (forall i :: 0 <= i < |changes| ==> PointsBack(entries, changes[i].fd, i))
  }

  /** event_changelist_assert_ok: a change and the entry of its fd point at each other. */
  ghost predicate PointsBack(entries: seq<Entry>, fd: nat, i: int) {
    fd < |entries| && entries[fd].Io? && entries[fd].idxplus1 == i + 1
  }

  /** After a change to one fd only that fd needs to be looked at again. */
  lemma {:induction false} OnlyFd(entries: seq<Entry>, changes: seq<Change>, kernel: Kernel,
                                  e: Entry, changes': seq<Change>, kernel': Kernel, fd: nat)
    requires AllOk(entries, changes, kernel) && fd < |entries| && entries[fd].Io? && e.Io?
    requires CountsOk(e, fd) && FdOk(e, changes', kernel', fd)
    requires forall f :: f != fd ==> Watched(kernel', f) == Watched(kernel, f)
    requires forall f :: f in kernel' ==> f < |entries| && !kernel'[f].Empty()
    requires if e.idxplus1 == 0 then changes' == changes && entries[fd].idxplus1 == 0
             else if entries[fd].idxplus1 == 0 then
               |changes'| == |changes| + 1 == e.idxplus1 && changes'[..|changes|] == changes
             else e.idxplus1 == entries[fd].idxplus1 && |changes'| == |changes| &&
                  forall i :: 0 <= i < |changes| && i != e.idxplus1 - 1 ==> changes'[i] == changes[i]
    ensures AllOk(entries[fd := e], changes', kernel')
  {
    var entries' := entries[fd := e];
    forall f | 0 <= f < |entries'|
      ensures CountsOk(entries'[f], f) && FdOk(entries'[f], changes', kernel', f)
    {
      if f != fd && entries[f].Io? && entries[f].idxplus1 > 0 {
        assert PointsBack(entries, changes[entries[f].idxplus1 - 1].fd, entries[f].idxplus1 - 1);
        assert changes'[entries[f].idxplus1 - 1] == changes[entries[f].idxplus1 - 1];
      }
    }
    forall i | 0 <= i < |changes'|
      ensures PointsBack(entries', changes'[i].fd, i)
    {
      if i < |changes| {
        assert PointsBack(entries, changes[i].fd, i);
      }
    }
  }

  /** The change that adding (`add`) or removing `events` makes of `ch`. */
  function Coalesce(ch: Change, events: Interest, add: bool): Change {
    if add then WithAdd(ch, events) else WithDel(ch, events)
  }

  function NewWant(want: Interest, events: Interest, add: bool): Interest {
    if add then Plus(want, events) else Minus(want, events)
  }

  /** What the two backends do with a request to add or remove `events` on an fd. */
  ghost predicate Told(deferred: bool, e: Entry, changes: seq<Change>, kernel: Kernel,
                       e': Entry, changes': seq<Change>, kernel': Kernel,
                       fd: nat, was: Interest, events: Interest, add: bool) {
    && e.Io?
    && if deferred then
         && kernel' == kernel
         && var (cs, i) := GetOrConstruct(e, changes, fd, was);
            i < |cs| && e' == e.(idxplus1 := i + 1) && changes' == cs[i := Coalesce(cs[i], events, add)]
       else
         && e' == e && changes' == changes
         && Watched(kernel', fd) == NewWant(was, events, add)
         && (forall f :: f != fd ==> Watched(kernel', f) == Watched(kernel, f))
         && (forall f :: f in kernel' ==> (f in kernel || f == fd) && !kernel'[f].Empty())
  }

  /** Telling the backend and counting the events the same way keeps everything in agreement. */
  lemma {:induction false} ToldOk(deferred: bool, entries: seq<Entry>, changes: seq<Change>, kernel: Kernel,
                                  e1: Entry, changes': seq<Change>, kernel': Kernel, e2: Entry,
                                  fd: nat, events: Interest, add: bool)
    requires AllOk(entries, changes, kernel) && fd < |entries| && entries[fd].Io?
    requires deferred || entries[fd].idxplus1 == 0
    requires Told(deferred, entries[fd], changes, kernel, e1, changes', kernel', fd, Want(entries[fd]), events, add)
    requires e2.Io? && e2.idxplus1 == e1.idxplus1 && CountsOk(e2, fd)
    requires Want(e2) == NewWant(Want(entries[fd]), events, add)
    ensures AllOk(entries[fd := e2], changes', kernel')
  {
    var e := entries[fd];
    if deferred {
      var (cs, i) := GetOrConstruct(e, changes, fd, Want(e));
      assert ChangeOk(cs[i], Watched(kernel, fd), Want(e));
      CoalesceOk(cs[i], Watched(kernel, fd), Want(e), events);
    }
    OnlyFd(entries, changes, kernel, e2, changes', kernel', fd);
  }

  class EventBase {
    const deferred: bool  // the backend is "epoll (with changelist)"
    var entries: seq<Entry>
    var changes: seq<Change>
    var kernel: Kernel

    ghost predicate Valid()
      reads this
    {
      AllOk(entries, changes, kernel) && (!deferred ==> changes == [])
    }

    /** The events pending on an fd. */
    ghost function Pending(fd: int): seq<Event>
      reads this
    {
      PendingIn(entries, fd)
    }

    constructor (deferred: bool)
      ensures Valid() && this.deferred == deferred && kernel == map[]
      ensures forall fd :: Pending(fd) == []
    {
      this.deferred := deferred;
      entries, changes, kernel := [], [], map[];
    }

    /** evmap_make_space */
    method MakeSpace(slot: nat)
      requires Valid()
      modifies this`entries
      ensures Valid() && slot < |entries| && old(entries) <= entries
      ensures |entries| == |old(entries)| || |entries| == 32 || |entries| <= 2 * slot
      ensures forall fd :: Pending(fd) == old(Pending(fd))
    {
      if |entries| <= slot {
        var nentries := if |entries| > 0 then |entries| else 32;
        while nentries <= slot
          invariant nentries > 0 && nentries >= |entries|
          invariant nentries == |entries| || nentries == 32 || nentries <= 2 * slot
          decreases slot - nentries
        {
          nentries := nentries * 2;
        }
        entries := entries + seq(nentries - |entries|, _ => Absent);
        forall i | 0 <= i < |changes|
          ensures PointsBack(entries, changes[i].fd, i)
        {
          assert PointsBack(old(entries), changes[i].fd, i);
        }
      }
    }

    /** GET_IO_SLOT_AND_CTOR */
    method GetSlot(fd: nat)
      requires Valid()
      modifies this`entries
      ensures Valid() && fd < |entries| && entries[fd].Io?
      ensures forall f :: Pending(f) == old(Pending(f))
    {
      MakeSpace(fd);
      if entries[fd].Absent? {
        ghost var es := entries;
        entries := entries[fd := Io(0, 0, 0, [], 0)];
        forall i | 0 <= i < |changes|
          ensures PointsBack(entries, changes[i].fd, i)
        {
          assert PointsBack(es, changes[i].fd, i);
        }
      }
    }

    /** evsel->add and evsel->del: event_changelist_add_/_del_, or epoll_nochangelist_add/_del. */
    method Tell(fd: nat, was: Interest, events: Interest, add: bool)
      requires fd < |entries| && entries[fd].Io? && entries[fd].idxplus1 <= |changes|
      requires forall f :: f in kernel ==> !kernel[f].Empty()
      requires !add ==> Plus(was, events) == was
      requires !deferred && events.Empty() ==> Watched(kernel, fd) == was
      modifies this
      ensures |entries| == |old(entries)| && entries == old(entries)[fd := entries[fd]]
      ensures Told(deferred, old(entries)[fd], old(changes), old(kernel),
                   entries[fd], changes, kernel, fd, was, events, add)
    {
      if deferred {
        var idx := entries[fd].idxplus1;
        if idx == 0 {
          idx := |changes| + 1;
          changes := changes + [Change(fd, was, 0, 0, 0)];
          entries := entries[fd := entries[fd].(idxplus1 := idx)];
        }
        changes := changes[idx - 1 := Coalesce(changes[idx - 1], events, add)];
      } else {
        var ch := Change(fd, was, 0, 0, 0);
        ch := if add then WithAdd(ch, events)
              else ch.(read := if events.read then CHANGE_DEL else 0,
                       write := if events.write then CHANGE_DEL else 0,
                       close := if events.close then CHANGE_DEL else 0);
        var r;
        r, kernel := ApplyOneChange(kernel, ch);
      }
    }

    /** evmap_io_add_ */
    method IoAdd(fd: int, ev: Event) returns (r: int)
      requires Valid() && ev.fd == fd
      modifies this
      ensures Valid()
      ensures r == -1 || fd < 0 ==> Pending(fd) == old(Pending(fd))
      ensures r != -1 && fd >= 0 ==> Pending(fd) == [ev] + old(Pending(fd))
      ensures r == -1 <==> fd >= 0 && TooMany([ev] + old(Pending(fd)))
      ensures r != -1 ==> r == if fd >= 0 && Wanted(Pending(fd)) != Wanted(old(Pending(fd))) then 1 else 0
      ensures forall f :: f != fd ==> Pending(f) == old(Pending(f))
    {
      hide FdOk, PointsBack;
      if fd < 0 {
        return 0;
      }
      GetSlot(fd);
      var e := entries[fd];
      var nread := if ev.kinds.read then e.nread + 1 else e.nread;
      var nwrite := if ev.kinds.write then e.nwrite + 1 else e.nwrite;
      var nclose := if ev.kinds.close then e.nclose + 1 else e.nclose;
      var res := Interest(ev.kinds.read && nread == 1, ev.kinds.write && nwrite == 1, ev.kinds.close && nclose == 1);
      assert ([ev] + e.events)[1..] == e.events;
      if nread > 0xffff || nwrite > 0xffff || nclose > 0xffff {
        return -1;
      }
      r := Finish(fd, res, true, Io(nread, nwrite, nclose, [ev] + e.events, e.idxplus1));
    }

    /** The end of evmap_io_add_ and evmap_io_del_: tell the backend, store the new entry. */
    method Finish(fd: nat, res: Interest, add: bool, e: Entry) returns (r: int)
      requires Valid() && fd < |entries| && entries[fd].Io? && e.Io? && CountsOk(e, fd)
      requires Want(e) == NewWant(Want(entries[fd]), res, add)
      requires !add ==> Plus(Want(entries[fd]), res) == Want(entries[fd])
      requires e.idxplus1 == entries[fd].idxplus1
      modifies this
      ensures Valid() && |entries| == |old(entries)|
      ensures forall f :: Pending(f) == if f == fd then e.events else old(Pending(f))
      ensures r == if res.Empty() then 0 else 1
    {
      if res.Empty() {
        OnlyFd(entries, changes, kernel, e, changes, kernel, fd);
        entries := entries[fd := e];
        return 0;
      }
      Tell(fd, Want(entries[fd]), res, add);
      ghost var e' := e.(idxplus1 := entries[fd].idxplus1);
      ToldOk(deferred, old(entries), old(changes), old(kernel), entries[fd], changes, kernel, e', fd, res, add);
      entries := entries[fd := e.(idxplus1 := entries[fd].idxplus1)];
      assert entries == old(entries)[fd := e'];
      return 1;
    }

    /** evmap_io_del_, which is only asked about a file descriptor in the map for an event that is pending */
    method IoDel(fd: int, ev: Event) returns (r: int)
      requires Valid() && ev.fd == fd && (0 <= fd < |entries| ==> ev in Pending(fd))
      modifies this
      ensures Valid()
      ensures 0 <= fd < |old(entries)| ==> Pending(fd) == Without(old(Pending(fd)), ev)
      ensures 0 <= fd < |old(entries)| ==> r == if Wanted(Pending(fd)) != Wanted(old(Pending(fd))) then 1 else 0
      ensures fd < 0 ==> r == 0
      ensures fd >= |old(entries)| ==> r == -1
      ensures fd < 0 || fd >= |old(entries)| ==> unchanged(this)
      ensures forall f :: f != fd ==> Pending(f) == old(Pending(f))
    {
      if fd < 0 {
        return 0;
      }
      if fd >= |entries| {
        return -1;
      }
      var e := entries[fd];
      NumWithout(e.events, ev, Reads);
      NumWithout(e.events, ev, Writes);
      NumWithout(e.events, ev, Closes);
      var nread := if ev.kinds.read then e.nread - 1 else e.nread;
      var nwrite := if ev.kinds.write then e.nwrite - 1 else e.nwrite;
      var nclose := if ev.kinds.close then e.nclose - 1 else e.nclose;
      var res := Interest(ev.kinds.read && nread == 0, ev.kinds.write && nwrite == 0, ev.kinds.close && nclose == 0);
      WithoutFds(e.events, ev, fd);
      r := Finish(fd, res, false, Io(nread, nwrite, nclose, Without(e.events, ev), e.idxplus1));
    }

    /** The kernel watches exactly the kinds that events are pending for, on every fd. */
    ghost predicate InSync()
      reads this
    {
      forall fd: nat :: Watched(kernel, fd) == Wanted(Pending(fd))
    }

    /** epoll_apply_changes */
    method ApplyChanges() returns (r: int)
      requires Valid()
      modifies this`kernel
      ensures r == 0 && InSync()
      ensures forall fd :: fd in kernel ==> fd < |entries| && !kernel[fd].Empty()
    {
      r := 0;
      for i := 0 to |changes|
        invariant r == 0
        invariant forall fd :: fd in kernel ==> fd < |entries| && !kernel[fd].Empty()
        invariant forall fd :: 0 <= fd < |entries| ==> AppliedUpTo(entries[fd], changes, kernel, fd, i)
      {
        var ch := changes[i];
        assert PointsBack(entries, ch.fd, i);
        assert AppliedUpTo(entries[ch.fd], changes, kernel, ch.fd, i);
        ghost var before := kernel;
        var res;
        res, kernel := ApplyOneChange(kernel, ch);
        r := if res < 0 then -1 else r;
        forall fd | 0 <= fd < |entries|
          ensures AppliedUpTo(entries[fd], changes, kernel, fd, i + 1)
        {
          assert AppliedUpTo(entries[fd], changes, before, fd, i);
        }
      }
      forall fd: nat
        ensures Watched(kernel, fd) == Wanted(Pending(fd))
      {
        if fd < |entries| {
          assert CountsOk(entries[fd], fd) && AppliedUpTo(entries[fd], changes, kernel, fd, |changes|);
        }
      }
    }

    /** event_changelist_remove_all_; the assertion in it holds. */
    method RemoveAll()
      requires PointersOk(entries, changes) && InSync()
      requires forall fd :: 0 <= fd < |entries| ==> CountsOk(entries[fd], fd)
      requires forall fd :: fd in kernel ==> fd < |entries| && !kernel[fd].Empty()
      modifies this`entries, this`changes
      ensures Valid() && InSync() && changes == []
      ensures forall fd :: Pending(fd) == old(Pending(fd))
    {
      ghost var es := entries;
      for i := 0 to |changes|
        invariant |entries| == |es| && changes == old(changes)
        invariant forall fd :: 0 <= fd < |es| ==> ForgottenUpTo(entries[fd], es[fd], i)
      {
        var fd := changes[i].fd;
        assert PointsBack(es, fd, i);
        assert ForgottenUpTo(entries[fd], es[fd], i) && entries[fd].idxplus1 == i + 1;
        ForgetOne(entries, es, changes, i);
        entries := entries[fd := entries[fd].(idxplus1 := 0)];
      }
      AllForgotten(entries, es, changes, kernel);
      changes := [];
    }

    /** The part of epoll_dispatch before it waits. */
    method Dispatch()
      requires Valid()
      modifies this
      ensures Valid() && InSync() && changes == []
      ensures forall fd :: Pending(fd) == old(Pending(fd))
    {
      assert PointersOk(entries, changes);
      var r := ApplyChanges();
      RemoveAll();
    }

    /** evmap_io_reinit_iter_fn */
    method ReinitOne(fd: nat)
      requires fd < |entries| && CountsOk(entries[fd], fd)
      requires !deferred && entries[fd].Io? ==> entries[fd].idxplus1 == 0
      requires AllOk(entries[..fd], changes, kernel) && (!deferred ==> changes == [])
      modifies this
      ensures |entries| == |old(entries)| && entries == old(entries)[fd := entries[fd]]
      ensures AllOk(entries[..fd + 1], changes, kernel) && (!deferred ==> changes == [])
      ensures deferred ==> kernel == old(kernel)
      ensures forall f :: Pending(f) == old(Pending(f))
    {
      var e := entries[fd];
      if e.Io? {
        if deferred {
          entries := entries[fd := entries[fd].(idxplus1 := 0)];
        }
        Tell(fd, NONE, Want(entries[fd]), true);
      }
      OneMoreOk(deferred, old(entries)[..fd], old(changes), old(kernel), if e.Io? then e.(idxplus1 := 0) else e,
                entries[fd], changes, kernel);
      assert entries[..fd + 1] == old(entries)[..fd] + [entries[fd]];
    }

    /** The end of event_reinit: the backend starts over with a fresh kernel object. */
    method Reinit()
      requires Valid()
      modifies this
      ensures Valid() && (deferred ==> kernel == map[])
      ensures forall fd :: Pending(fd) == old(Pending(fd))
    {
      ghost var es := entries;
      kernel, changes := map[], [];
      for fd := 0 to |entries|
        invariant |entries| == |es| && forall f :: fd <= f < |es| ==> entries[f] == es[f]
        invariant AllOk(entries[..fd], changes, kernel) && (!deferred ==> changes == [])
        invariant deferred ==> kernel == map[]
        invariant forall f :: Pending(f) == old(Pending(f))
      {
        assert CountsOk(es[fd], fd) && FdOk(es[fd], old(changes), old(kernel), fd);
        ReinitOne(fd);
      }
      assert entries[..|entries|] == entries;
    }

    /** The fd is closed; no event may be pending on it. The kernel forgets it, nothing else notices. */
    method Close(fd: nat)
      requires Valid() && Wanted(Pending(fd)) == NONE
      modifies this`kernel
      ensures Valid() && Watched(kernel, fd) == NONE
      ensures forall f :: f != fd ==> Watched(kernel, f) == old(Watched(kernel, f))
    {
      ghost var before := kernel;
      kernel := kernel - {fd};
      forall f | 0 <= f < |entries|
        ensures FdOk(entries[f], changes, kernel, f)
      {
        assert CountsOk(entries[f], f) && FdOk(entries[f], changes, before, f);
      }
    }
  }

  lemma {:induction false} ForgetOne(entries: seq<Entry>, es: seq<Entry>, changes: seq<Change>, i: nat)
    requires PointersOk(es, changes) && |entries| == |es| && i < |changes|
    requires forall fd :: 0 <= fd < |es| ==> ForgottenUpTo(entries[fd], es[fd], i)
    ensures changes[i].fd < |es| && entries[changes[i].fd].Io?
    ensures var entries' := entries[changes[i].fd := entries[changes[i].fd].(idxplus1 := 0)];
            forall fd :: 0 <= fd < |es| ==> ForgottenUpTo(entries'[fd], es[fd], i + 1)
  {
    assert PointsBack(es, changes[i].fd, i);
    forall fd | 0 <= fd < |es|
      ensures ForgottenUpTo(entries[changes[i].fd := entries[changes[i].fd].(idxplus1 := 0)][fd], es[fd], i + 1)
    {
      assert PointsTo(es[fd], changes, fd);
    }
  }

  lemma {:induction false} AllForgotten(entries: seq<Entry>, es: seq<Entry>, changes: seq<Change>, kernel: Kernel)
    requires PointersOk(es, changes) && |entries| == |es|
    requires forall fd :: 0 <= fd < |es| ==> CountsOk(es[fd], fd)
    requires forall fd :: 0 <= fd < |es| ==> ForgottenUpTo(entries[fd], es[fd], |changes|)
    requires forall fd: nat :: Watched(kernel, fd) == Wanted(PendingIn(es, fd))
    requires forall fd :: fd in kernel ==> fd < |es| && !kernel[fd].Empty()
    ensures AllOk(entries, [], kernel)
    ensures forall fd :: PendingIn(entries, fd) == PendingIn(es, fd)
  {
    forall fd | 0 <= fd < |entries|
      ensures CountsOk(entries[fd], fd) && FdOk(entries[fd], [], kernel, fd)
    {
      assert CountsOk(es[fd], fd) && PointsTo(es[fd], changes, fd);
      assert Watched(kernel, fd) == Wanted(PendingIn(es, fd));
    }
  }

  /** Reinitialising: the entries up to an fd agree with the new kernel object, and so does the next one. */
  lemma {:induction false} OneMoreOk(deferred: bool, entries: seq<Entry>, changes: seq<Change>, kernel: Kernel,
                                     e: Entry, e': Entry, changes': seq<Change>, kernel': Kernel)
    requires AllOk(entries, changes, kernel) && CountsOk(e, |entries|)
    requires if e.Absent? then e' == e && changes' == changes && kernel' == kernel
             else
               && e.idxplus1 == 0
               && Told(deferred, e, changes, kernel, e', changes', kernel', |entries|, NONE, Want(e), true)
    ensures AllOk(entries + [e'], changes', kernel')
  {
    var n, entries' := |entries|, entries + [e'];
    assert Watched(kernel, n) == NONE;
    forall f | 0 <= f < |entries'|
      ensures CountsOk(entries'[f], f) && FdOk(entries'[f], changes', kernel', f)
    {
      if f < n {
        assert entries'[f] == entries[f];
      }
    }
    forall i | 0 <= i < |changes'|
      ensures PointsBack(entries', changes'[i].fd, i)
    {
      if i < |changes| {
        assert PointsBack(entries, changes[i].fd, i);
      }
    }
  }

  ghost predicate PointsTo(e: Entry, changes: seq<Change>, fd: nat) {
    e.Io? && e.idxplus1 > 0 ==> e.idxplus1 <= |changes| && changes[e.idxplus1 - 1].fd == fd
  }

  /** The entries and the changes point at each other. */
  ghost predicate PointersOk(entries: seq<Entry>, changes: seq<Change>) {
    && (forall fd :: 0 <= fd < |entries| ==> PointsTo(entries[fd], changes, fd))
    && (forall i :: 0 <= i < |changes| ==> PointsBack(entries, changes[i].fd, i))
  }

  ghost function PendingIn(entries: seq<Entry>, fd: int): seq<Event> {
    if 0 <= fd < |entries| && entries[fd].Io? then entries[fd].events else []
  }

  /** A kind is wanted exactly if an event is pending for it. */
  lemma {:induction false} WantedMeans(events: seq<Event>)
    ensures Wanted(events).read <==> exists i :: 0 <= i < |events| && events[i].kinds.read
    ensures Wanted(events).write <==> exists i :: 0 <= i < |events| && events[i].kinds.write
    ensures Wanted(events).close <==> exists i :: 0 <= i < |events| && events[i].kinds.close
  {
    if events != [] {
      WantedMeans(events[1..]);
      assert forall i :: 0 <= i < |events[1..]| ==> events[1..][i] == events[i + 1];
      assert forall i :: 0 < i < |events| ==> events[i] == events[1..][i - 1];
    }
  }

  function Wanted(events: seq<Event>): Interest {
    Interest(Num(events, Reads) > 0, Num(events, Writes) > 0, Num(events, Closes) > 0)
  }

  /** The first `i` changes have been applied. */
  ghost predicate AppliedUpTo(e: Entry, changes: seq<Change>, kernel: Kernel, fd: nat, i: nat) {
    if e.Io? && 0 < e.idxplus1 <= i then Watched(kernel, fd) == Want(e) else FdOk(e, changes, kernel, fd)
  }

  /** The first `i` changes have been forgotten. */
  ghost predicate ForgottenUpTo(e: Entry, e0: Entry, i: nat) {
    if e0.Io? && 0 < e0.idxplus1 <= i then e == e0.(idxplus1 := 0) else e == e0
  }

  /** evmap_io_add_ refuses to count further. */
  ghost predicate TooMany(events: seq<Event>) {
    Num(events, Reads) > 0xffff || Num(events, Writes) > 0xffff || Num(events, Closes) > 0xffff
  }

  lemma {:induction false} WithoutFds(events: seq<Event>, ev: Event, fd: int)
    requires forall i :: 0 <= i < |events| ==> events[i].fd == fd
    ensures forall i :: 0 <= i < |Without(events, ev)| ==> Without(events, ev)[i].fd == fd
  {
    if events != [] && events[0] != ev {
      WithoutFds(events[1..], ev, fd);
    }
  }

  // ---------- the two backends side by side ----------

  datatype Op = AddEvent(ev: Event) | DelEvent(ev: Event) | Dispatch | Reinit | CloseFd(fd: nat)

  /** Two bases have the same events pending. */
  ghost predicate SamePending(a: EventBase, b: EventBase)
    reads a, b
  {
    forall fd :: a.Pending(fd) == b.Pending(fd)
  }

  /** An eager base is always in step with the kernel. */
  lemma {:induction false} EagerInSync(base: EventBase)
    requires base.Valid() && base.changes == []
    ensures base.InSync()
  {
    forall fd: nat
      ensures Watched(base.kernel, fd) == Wanted(base.Pending(fd))
    {
      if fd < |base.entries| {
        assert CountsOk(base.entries[fd], fd) && FdOk(base.entries[fd], base.changes, base.kernel, fd);
      }
    }
  }

  /** Two kernels in step with the same pending events are the same. */
  lemma {:induction false} SameKernel(a: EventBase, b: EventBase)
    requires a.Valid() && b.Valid() && a.InSync() && b.InSync() && SamePending(a, b)
    ensures a.kernel == b.kernel
  {
    forall fd: nat
      ensures Watched(a.kernel, fd) == Watched(b.kernel, fd)
    {
      assert a.Pending(fd) == b.Pending(fd);
    }
    assert forall fd: nat :: fd in a.kernel <==> !Watched(a.kernel, fd).Empty();
    assert forall fd: nat :: fd in b.kernel <==> !Watched(b.kernel, fd).Empty();
    assert a.kernel.Keys == b.kernel.Keys;
  }

  /** One operation on a base; a deletion of an event that is not pending and a close of a busy fd are not made. */
  method Perform(base: EventBase, op: Op) returns (r: int)
    requires base.Valid()
    modifies base
    ensures base.Valid()
    ensures r == Answer(old(base.entries), op)
    ensures forall fd :: base.Pending(fd) == PendingAfter(old(base.entries), op, fd)
    ensures op.Dispatch? ==> base.InSync()
    ensures op.Reinit? && base.deferred ==> base.kernel == map[]
    ensures op.CloseFd? && Wanted(PendingIn(old(base.entries), op.fd)) == NONE ==> Watched(base.kernel, op.fd) == NONE
  {
    r := 0;
    match op {
      case AddEvent(ev) =>
        r := base.IoAdd(ev.fd, ev);
        r := if r == -1 then -1 else 0;
      case DelEvent(ev) =>
        if 0 <= ev.fd < |base.entries| && base.entries[ev.fd].Io? && ev in base.entries[ev.fd].events {
          r := base.IoDel(ev.fd, ev);
          r := 0;
        }
      case Dispatch =>
        base.Dispatch();
      case Reinit =>
        base.Reinit();
      case CloseFd(fd) =>
        if fd < |base.entries| {
          assert CountsOk(base.entries[fd], fd);
          if Want(base.entries[fd]) == NONE {
            base.Close(fd);
          }
        }
    }
  }

  /** What an operation answers, and the events pending on an fd after it. */
  ghost function Answer(entries: seq<Entry>, op: Op): int {
    if op.AddEvent? && op.ev.fd >= 0 && TooMany([op.ev] + PendingIn(entries, op.ev.fd)) then -1 else 0
  }

  ghost function PendingAfter(entries: seq<Entry>, op: Op, fd: int): seq<Event> {
    var now := PendingIn(entries, fd);
    match op
    case AddEvent(ev) => if ev.fd == fd >= 0 && !TooMany([ev] + now) then [ev] + now else now
    case DelEvent(ev) => if ev.fd == fd && ev in now then Without(now, ev) else now
    case _ => now
  }

  /**
    Any run of operations made on a base with a changelist and on one without: the same events are
    pending on both, the same answers are given, and at every dispatch both kernels watch the same,
    namely the kinds that events are pending for.
   */
  method Lockstep(lazy: EventBase, eager: EventBase, ops: seq<Op>)
    requires lazy.Valid() && eager.Valid() && lazy != eager && !eager.deferred && SamePending(lazy, eager)
    modifies lazy, eager
    ensures lazy.Valid() && eager.Valid() && SamePending(lazy, eager) && eager.InSync()
    ensures |ops| > 0 && ops[|ops| - 1].Dispatch? ==> lazy.InSync() && lazy.kernel == eager.kernel
  {
    EagerInSync(eager);
    for i := 0 to |ops|
      invariant lazy.Valid() && eager.Valid() && SamePending(lazy, eager) && eager.InSync()
      invariant i > 0 && ops[i - 1].Dispatch? ==> lazy.InSync() && lazy.kernel == eager.kernel
    {
      ghost var les, ees := lazy.entries, eager.entries;
      assert forall fd :: PendingIn(les, fd) == lazy.Pending(fd) == eager.Pending(fd) == PendingIn(ees, fd);
      var r := Perform(lazy, ops[i]);
      var r' := Perform(eager, ops[i]);
      assert r == r';
      assert SamePending(lazy, eager) by {
        forall fd
          ensures lazy.Pending(fd) == eager.Pending(fd)
        {
          assert lazy.Pending(fd) == PendingAfter(les, ops[i], fd);
          assert eager.Pending(fd) == PendingAfter(ees, ops[i], fd);
        }
      }
      EagerInSync(eager);
      if ops[i].Dispatch? {
        SameKernel(lazy, eager);
      }
    }
  }
}
