/**
 The table that turns a change of interest in a file descriptor into one epoll_ctl call.
 */
module EpollTable {

  /** A set of the event kinds read, write and close. */
  datatype Interest = Interest(read: bool, write: bool, close: bool) {
    predicate Empty() {
      !read && !write && !close
    }
  }

  const NONE := Interest(false, false, false)
  const R := Interest(true, false, false)
  const W := Interest(false, true, false)
  const C := Interest(false, false, true)
  const RW := Interest(true, true, false)
  const RC := Interest(true, false, true)
  const WC := Interest(false, true, true)
  const RWC := Interest(true, true, true)

  datatype CtlOp = Add | Mod | Del

  /** struct operation: nothing to do, a call of epoll_ctl, or a row that must not be reached. */
  datatype Operation = Nop | Ctl(op: CtlOp, events: Interest) | Bad

  /** The low two bits of a change field: EV_CHANGE_ADD is 1, EV_CHANGE_DEL is 2. */
  type Code = x: int | 0 <= x < 4

  const CHANGE_ADD: Code := 1
  const CHANGE_DEL: Code := 2

  /** struct event_change */
  datatype Change = Change(fd: nat, was: Interest, read: Code, write: Code, close: Code)

  /** EPOLL_OP_TABLE_INDEX */
  function Index(ch: Change): (i: nat)
    ensures i < 512
  {
    ch.close + 4 * ch.read + 16 * ch.write + 64 * Bit(ch.was.read) + 128 * Bit(ch.was.write) + 256 * Bit(ch.was.close)
  }

  function Bit(b: bool): (n: nat)
    ensures n <= 1
  {
    if b then 1 else 0
  }

  // epoll_op_table, 64 rows for each set of old events; in a line the close change is none, add,
  // del, both, and from line to line the read change, then the write change, goes through the same.

  function OldNONE(i: nat): Operation {
    match i
    case 0 => Nop case 1 => Ctl(Add, C) case 2 => Ctl(Del, C) case 3 => Bad
    case 4 => Ctl(Add, R) case 5 => Ctl(Add, RC) case 6 => Ctl(Add, R) case 7 => Bad
    case 8 => Ctl(Del, R) case 9 => Ctl(Add, C) case 10 => Ctl(Del, RC) case 11 => Bad
    case 12 => Bad case 13 => Bad case 14 => Bad case 15 => Bad
    case 16 => Ctl(Add, W) case 17 => Ctl(Add, WC) case 18 => Ctl(Add, W) case 19 => Bad
    case 20 => Ctl(Add, RW) case 21 => Ctl(Add, RWC) case 22 => Ctl(Add, RW) case 23 => Bad
    case 24 => Ctl(Add, W) case 25 => Ctl(Add, WC) case 26 => Ctl(Add, W) case 27 => Bad
    case 28 => Bad case 29 => Bad case 30 => Bad case 31 => Bad
    case 32 => Ctl(Del, W) case 33 => Ctl(Add, C) case 34 => Ctl(Del, WC) case 35 => Bad
    case 36 => Ctl(Add, R) case 37 => Ctl(Add, RC) case 38 => Ctl(Add, R) case 39 => Bad
    case 40 => Ctl(Del, RW) case 41 => Ctl(Add, C) case 42 => Ctl(Del, RWC) case 43 => Bad
    case 44 => Bad case 45 => Bad case 46 => Bad case 47 => Bad
    case 48 => Bad case 49 => Bad case 50 => Bad case 51 => Bad
    case 52 => Bad case 53 => Bad case 54 => Bad case 55 => Bad
    case 56 => Bad case 57 => Bad case 58 => Bad case 59 => Bad
    case 60 => Bad case 61 => Bad case 62 => Bad case 63 => Bad
    case _ => Bad
  }

  function OldR(i: nat): Operation {
    match i
    case 0 => Nop case 1 => Ctl(Mod, RC) case 2 => Ctl(Mod, R) case 3 => Bad
    case 4 => Ctl(Mod, R) case 5 => Ctl(Mod, RC) case 6 => Ctl(Mod, R) case 7 => Bad
    case 8 => Ctl(Del, R) case 9 => Ctl(Mod, C) case 10 => Ctl(Del, RC) case 11 => Bad
    case 12 => Bad case 13 => Bad case 14 => Bad case 15 => Bad
    case 16 => Ctl(Mod, RW) case 17 => Ctl(Mod, RWC) case 18 => Ctl(Mod, RW) case 19 => Bad
    case 20 => Ctl(Mod, RW) case 21 => Ctl(Mod, RWC) case 22 => Ctl(Mod, RW) case 23 => Bad
    case 24 => Ctl(Mod, W) case 25 => Ctl(Mod, WC) case 26 => Ctl(Mod, W) case 27 => Bad
    case 28 => Bad case 29 => Bad case 30 => Bad case 31 => Bad
    case 32 => Ctl(Mod, R) case 33 => Ctl(Mod, RC) case 34 => Ctl(Mod, R) case 35 => Bad
    case 36 => Ctl(Mod, R) case 37 => Ctl(Mod, RC) case 38 => Ctl(Mod, R) case 39 => Bad
    case 40 => Ctl(Del, RW) case 41 => Ctl(Mod, C) case 42 => Ctl(Del, RWC) case 43 => Bad
    case 44 => Bad case 45 => Bad case 46 => Bad case 47 => Bad
    case 48 => Bad case 49 => Bad case 50 => Bad case 51 => Bad
    case 52 => Bad case 53 => Bad case 54 => Bad case 55 => Bad
    case 56 => Bad case 57 => Bad case 58 => Bad case 59 => Bad
    case 60 => Bad case 61 => Bad case 62 => Bad case 63 => Bad
    case _ => Bad
  }

  function OldW(i: nat): Operation {
    match i
    case 0 => Nop case 1 => Ctl(Mod, WC) case 2 => Ctl(Mod, W) case 3 => Bad
    case 4 => Ctl(Mod, RW) case 5 => Ctl(Mod, RWC) case 6 => Ctl(Mod, RW) case 7 => Bad
    case 8 => Ctl(Mod, W) case 9 => Ctl(Mod, WC) case 10 => Ctl(Mod, W) case 11 => Bad
    case 12 => Bad case 13 => Bad case 14 => Bad case 15 => Bad
    case 16 => Ctl(Mod, W) case 17 => Ctl(Mod, WC) case 18 => Ctl(Mod, W) case 19 => Bad
    case 20 => Ctl(Mod, RW) case 21 => Ctl(Mod, RWC) case 22 => Ctl(Mod, RW) case 23 => Bad
    case 24 => Ctl(Mod, W) case 25 => Ctl(Mod, WC) case 26 => Ctl(Mod, W) case 27 => Bad
    case 28 => Bad case 29 => Bad case 30 => Bad case 31 => Bad
    case 32 => Ctl(Del, W) case 33 => Ctl(Mod, C) case 34 => Ctl(Del, WC) case 35 => Bad
    case 36 => Ctl(Mod, R) case 37 => Ctl(Mod, RC) case 38 => Ctl(Mod, R) case 39 => Bad
    case 40 => Ctl(Del, RW) case 41 => Ctl(Mod, C) case 42 => Ctl(Del, RWC) case 43 => Bad
    case 44 => Bad case 45 => Bad case 46 => Bad case 47 => Bad
    case 48 => Bad case 49 => Bad case 50 => Bad case 51 => Bad
    case 52 => Bad case 53 => Bad case 54 => Bad case 55 => Bad
    case 56 => Bad case 57 => Bad case 58 => Bad case 59 => Bad
    case 60 => Bad case 61 => Bad case 62 => Bad case 63 => Bad
    case _ => Bad
  }

  function OldRW(i: nat): Operation {
    match i
    case 0 => Nop case 1 => Ctl(Mod, RWC) case 2 => Ctl(Mod, RW) case 3 => Bad
    case 4 => Ctl(Mod, RW) case 5 => Ctl(Mod, RWC) case 6 => Ctl(Mod, RW) case 7 => Bad
    case 8 => Ctl(Mod, W) case 9 => Ctl(Mod, WC) case 10 => Ctl(Mod, W) case 11 => Bad
    case 12 => Bad case 13 => Bad case 14 => Bad case 15 => Bad
    case 16 => Ctl(Mod, RW) case 17 => Ctl(Mod, RWC) case 18 => Ctl(Mod, RW) case 19 => Bad
    case 20 => Ctl(Mod, RW) case 21 => Ctl(Mod, RWC) case 22 => Ctl(Mod, RW) case 23 => Bad
    case 24 => Ctl(Mod, W) case 25 => Ctl(Mod, WC) case 26 => Ctl(Mod, W) case 27 => Bad
    case 28 => Bad case 29 => Bad case 30 => Bad case 31 => Bad
    case 32 => Ctl(Mod, R) case 33 => Ctl(Mod, RC) case 34 => Ctl(Mod, R) case 35 => Bad
    case 36 => Ctl(Mod, R) case 37 => Ctl(Mod, RC) case 38 => Ctl(Mod, R) case 39 => Bad
    case 40 => Ctl(Del, RW) case 41 => Ctl(Mod, C) case 42 => Ctl(Del, RWC) case 43 => Bad
    case 44 => Bad case 45 => Bad case 46 => Bad case 47 => Bad
    case 48 => Bad case 49 => Bad case 50 => Bad case 51 => Bad
    case 52 => Bad case 53 => Bad case 54 => Bad case 55 => Bad
    case 56 => Bad case 57 => Bad case 58 => Bad case 59 => Bad
    case 60 => Bad case 61 => Bad case 62 => Bad case 63 => Bad
    case _ => Bad
  }

  function OldC(i: nat): Operation {
    match i
    case 0 => Nop case 1 => Ctl(Mod, C) case 2 => Ctl(Del, C) case 3 => Bad
    case 4 => Ctl(Mod, RC) case 5 => Ctl(Mod, RC) case 6 => Ctl(Mod, R) case 7 => Bad
    case 8 => Ctl(Mod, C) case 9 => Ctl(Mod, C) case 10 => Ctl(Del, RC) case 11 => Bad
    case 12 => Bad case 13 => Bad case 14 => Bad case 15 => Bad
    case 16 => Ctl(Mod, WC) case 17 => Ctl(Mod, WC) case 18 => Ctl(Mod, W) case 19 => Bad
    case 20 => Ctl(Mod, RWC) case 21 => Ctl(Mod, RWC) case 22 => Ctl(Mod, RW) case 23 => Bad
    case 24 => Ctl(Mod, WC) case 25 => Ctl(Mod, WC) case 26 => Ctl(Mod, W) case 27 => Bad
    case 28 => Bad case 29 => Bad case 30 => Bad case 31 => Bad
    case 32 => Ctl(Mod, C) case 33 => Ctl(Mod, C) case 34 => Ctl(Del, WC) case 35 => Bad
    case 36 => Ctl(Mod, RC) case 37 => Ctl(Mod, RC) case 38 => Ctl(Mod, R) case 39 => Bad
    case 40 => Ctl(Mod, C) case 41 => Ctl(Mod, C) case 42 => Ctl(Del, RWC) case 43 => Bad
    case 44 => Bad case 45 => Bad case 46 => Bad case 47 => Bad
    case 48 => Bad case 49 => Bad case 50 => Bad case 51 => Bad
    case 52 => Bad case 53 => Bad case 54 => Bad case 55 => Bad
    case 56 => Bad case 57 => Bad case 58 => Bad case 59 => Bad
    case 60 => Bad case 61 => Bad case 62 => Bad case 63 => Bad
    case _ => Bad
  }

  function OldRC(i: nat): Operation {
    match i
    case 0 => Nop case 1 => Ctl(Mod, RC) case 2 => Ctl(Mod, R) case 3 => Bad
    case 4 => Ctl(Mod, RC) case 5 => Ctl(Mod, RC) case 6 => Ctl(Mod, R) case 7 => Bad
    case 8 => Ctl(Mod, C) case 9 => Ctl(Mod, C) case 10 => Ctl(Del, RC) case 11 => Bad
    case 12 => Bad case 13 => Bad case 14 => Bad case 15 => Bad
    case 16 => Ctl(Mod, RWC) case 17 => Ctl(Mod, RWC) case 18 => Ctl(Mod, RW) case 19 => Bad
    case 20 => Ctl(Mod, RWC) case 21 => Ctl(Mod, RWC) case 22 => Ctl(Mod, RW) case 23 => Bad
    case 24 => Ctl(Mod, WC) case 25 => Ctl(Mod, WC) case 26 => Ctl(Mod, W) case 27 => Bad
    case 28 => Bad case 29 => Bad case 30 => Bad case 31 => Bad
    case 32 => Ctl(Mod, RC) case 33 => Ctl(Mod, RC) case 34 => Ctl(Mod, R) case 35 => Bad
    case 36 => Ctl(Mod, RC) case 37 => Ctl(Mod, RC) case 38 => Ctl(Mod, R) case 39 => Bad
    case 40 => Ctl(Mod, C) case 41 => Ctl(Mod, C) case 42 => Ctl(Del, RWC) case 43 => Bad
    case 44 => Bad case 45 => Bad case 46 => Bad case 47 => Bad
    case 48 => Bad case 49 => Bad case 50 => Bad case 51 => Bad
    case 52 => Bad case 53 => Bad case 54 => Bad case 55 => Bad
    case 56 => Bad case 57 => Bad case 58 => Bad case 59 => Bad
    case 60 => Bad case 61 => Bad case 62 => Bad case 63 => Bad
    case _ => Bad
  }

  function OldWC(i: nat): Operation {
    match i
    case 0 => Nop case 1 => Ctl(Mod, WC) case 2 => Ctl(Mod, W) case 3 => Bad
    case 4 => Ctl(Mod, RWC) case 5 => Ctl(Mod, RWC) case 6 => Ctl(Mod, RW) case 7 => Bad
    case 8 => Ctl(Mod, WC) case 9 => Ctl(Mod, WC) case 10 => Ctl(Mod, W) case 11 => Bad
    case 12 => Bad case 13 => Bad case 14 => Bad case 15 => Bad
    case 16 => Ctl(Mod, WC) case 17 => Ctl(Mod, WC) case 18 => Ctl(Mod, W) case 19 => Bad
    case 20 => Ctl(Mod, RWC) case 21 => Ctl(Mod, RWC) case 22 => Ctl(Mod, RW) case 23 => Bad
    case 24 => Ctl(Mod, WC) case 25 => Ctl(Mod, WC) case 26 => Ctl(Mod, W) case 27 => Bad
    case 28 => Bad case 29 => Bad case 30 => Bad case 31 => Bad
    case 32 => Ctl(Mod, C) case 33 => Ctl(Mod, C) case 34 => Ctl(Del, WC) case 35 => Bad
    case 36 => Ctl(Mod, RC) case 37 => Ctl(Mod, RC) case 38 => Ctl(Mod, R) case 39 => Bad
    case 40 => Ctl(Mod, C) case 41 => Ctl(Mod, C) case 42 => Ctl(Del, RWC) case 43 => Bad
    case 44 => Bad case 45 => Bad case 46 => Bad case 47 => Bad
    case 48 => Bad case 49 => Bad case 50 => Bad case 51 => Bad
    case 52 => Bad case 53 => Bad case 54 => Bad case 55 => Bad
    case 56 => Bad case 57 => Bad case 58 => Bad case 59 => Bad
    case 60 => Bad case 61 => Bad case 62 => Bad case 63 => Bad
    case _ => Bad
  }

  function OldRWC(i: nat): Operation {
    match i
    case 0 => Nop case 1 => Ctl(Mod, RWC) case 2 => Ctl(Mod, RW) case 3 => Bad
    case 4 => Ctl(Mod, RWC) case 5 => Ctl(Mod, RWC) case 6 => Ctl(Mod, RW) case 7 => Bad
    case 8 => Ctl(Mod, WC) case 9 => Ctl(Mod, WC) case 10 => Ctl(Mod, W) case 11 => Bad
    case 12 => Bad case 13 => Bad case 14 => Bad case 15 => Bad
    case 16 => Ctl(Mod, RWC) case 17 => Ctl(Mod, RWC) case 18 => Ctl(Mod, RW) case 19 => Bad
    case 20 => Ctl(Mod, RWC) case 21 => Ctl(Mod, RWC) case 22 => Ctl(Mod, RW) case 23 => Bad
    case 24 => Ctl(Mod, WC) case 25 => Ctl(Mod, WC) case 26 => Ctl(Mod, W) case 27 => Bad
    case 28 => Bad case 29 => Bad case 30 => Bad case 31 => Bad
    case 32 => Ctl(Mod, RC) case 33 => Ctl(Mod, RC) case 34 => Ctl(Mod, R) case 35 => Bad
    case 36 => Ctl(Mod, RC) case 37 => Ctl(Mod, RC) case 38 => Ctl(Mod, R) case 39 => Bad
    case 40 => Ctl(Mod, C) case 41 => Ctl(Mod, C) case 42 => Ctl(Del, RWC) case 43 => Bad
    case 44 => Bad case 45 => Bad case 46 => Bad case 47 => Bad
    case 48 => Bad case 49 => Bad case 50 => Bad case 51 => Bad
    case 52 => Bad case 53 => Bad case 54 => Bad case 55 => Bad
    case 56 => Bad case 57 => Bad case 58 => Bad case 59 => Bad
    case 60 => Bad case 61 => Bad case 62 => Bad case 63 => Bad
    case _ => Bad
  }

  /** epoll_op_table[i] */
  function Lookup(i: nat): Operation
    requires i < 512
  {
    if i < 64 then OldNONE(i)
    else if i < 128 then OldR(i - 64)
    else if i < 192 then OldW(i - 128)
    else if i < 256 then OldRW(i - 192)
    else if i < 320 then OldC(i - 256)
    else if i < 384 then OldRC(i - 320)
    else if i < 448 then OldWC(i - 384)
    else OldRWC(i - 448)
  }

  function After(was: bool, code: Code): bool {
    code == CHANGE_ADD || (code == 0 && was)
  }

  /** What the kernel should watch once the change is applied. */
  function Target(ch: Change): Interest {
    Interest(After(ch.was.read, ch.read), After(ch.was.write, ch.write), After(ch.was.close, ch.close))
  }

  predicate IsNoChange(ch: Change) {
    ch.read == 0 && ch.write == 0 && ch.close == 0
  }

  predicate HasBadCode(ch: Change) {
    ch.read == 3 || ch.write == 3 || ch.close == 3
  }

  /** What a row has to be: the rule the table was generated from. */
  ghost predicate Right(ch: Change, row: Operation) {
    if HasBadCode(ch) then row == Bad
    else if IsNoChange(ch) then row == Nop
    else if Target(ch).Empty() then row.Ctl? && row.op == Del && !row.events.Empty()
    else row == Ctl(if ch.was.Empty() then Add else Mod, Target(ch))
  }

  lemma {:induction false} RightNONE(ch: Change)
    requires ch.was == NONE
    ensures Right(ch, OldNONE(ch.close + 4 * ch.read + 16 * ch.write))
  {
  }

  lemma {:induction false} RightR(ch: Change)
    requires ch.was == R
    ensures Right(ch, OldR(ch.close + 4 * ch.read + 16 * ch.write))
  {
  }

  lemma {:induction false} RightW(ch: Change)
    requires ch.was == W
    ensures Right(ch, OldW(ch.close + 4 * ch.read + 16 * ch.write))
  {
  }

  lemma {:induction false} RightRW(ch: Change)
    requires ch.was == RW
    ensures Right(ch, OldRW(ch.close + 4 * ch.read + 16 * ch.write))
  {
  }

  lemma {:induction false} RightC(ch: Change)
    requires ch.was == C
    ensures Right(ch, OldC(ch.close + 4 * ch.read + 16 * ch.write))
  {
  }

  lemma {:induction false} RightRC(ch: Change)
    requires ch.was == RC
    ensures Right(ch, OldRC(ch.close + 4 * ch.read + 16 * ch.write))
  {
  }

  lemma {:induction false} RightWC(ch: Change)
    requires ch.was == WC
    ensures Right(ch, OldWC(ch.close + 4 * ch.read + 16 * ch.write))
  {
  }

  lemma {:induction false} RightRWC(ch: Change)
    requires ch.was == RWC
    ensures Right(ch, OldRWC(ch.close + 4 * ch.read + 16 * ch.write))
  {
  }
  /** Every row of the table is right, for every change. */
  lemma {:induction false} TableIsRight(ch: Change)
    ensures Right(ch, Lookup(Index(ch)))
  {
    hide Right, OldNONE, OldR, OldW, OldRW, OldC, OldRC, OldWC, OldRWC;
    match (ch.was.read, ch.was.write, ch.was.close)
    case (false, false, false) => RightNONE(ch);
    case (true, false, false) => RightR(ch);
    case (false, true, false) => RightW(ch);
    case (true, true, false) => RightRW(ch);
    case (false, false, true) => RightC(ch);
    case (true, false, true) => RightRC(ch);
    case (false, true, true) => RightWC(ch);
    case (true, true, true) => RightRWC(ch);
  }
}
