/**
 Times and event callbacks, as the event base and its heap of timeouts see them.
 */
module Events {
  /** struct timeval. For a common timeout the bits of tv_usec from bit 20 up hold a mark and an index. */
  datatype Tv = Tv(sec: int, usec: nat)

  /** evutil_timercmp with > */
  predicate Later(a: Tv, b: Tv) {
    if a.sec == b.sec then a.usec > b.usec else a.sec > b.sec
  }

  /**
    struct event_callback, and struct event around it if `isEvent` (EVLIST_INIT). `io` says that
    it waits for a file descriptor or a signal (`signal`); `timerOf` is the number of the common
    timeout it is the internal timer of, or -1; `resTimeout` is the bit EV_TIMEOUT of ev_res.
   */
  datatype Ev = Ev(isEvent: bool, internal: bool, persist: bool, io: bool, signal: bool, timerOf: int, pri: nat,
                   inserted: bool, timeout: bool, active: bool, later: bool, finalizing: bool,
                   resTimeout: bool, deadline: Tv, ioTimeout: Tv)

  /** ev_closure is EV_CLOSURE_EVENT_PERSIST, as long as the event is not being finalised. */
  predicate Repeats(e: Ev) {
    e.isEvent && e.persist && !e.signal
  }
}
