/**
 Whole runs: any sequence of operations on two evbuffers does to their contents, and returns, what
 the same operations on two plain byte strings do and return, and keeps both buffers well formed.
 */
module BufferRuns {
  import opened Chains
  import opened EvBuffers
  import opened Splices
  import opened Pullups
  import opened Commits

  datatype Op =
    | Add(data: seq<byte>)
    | Prepend(data: seq<byte>)
    | Drain(n: nat)
    | Remove(n: nat)
    | Pullup(size: int)
    | Reserve(data: seq<byte>, vecs: nat)  // space is reserved, filled and committed
    | AddBuffer
    | PrependBuffer
    | RemoveBuffer(n: nat)                 // from the other buffer to this one

  /** An operation on the first (`onA`) or the second of two buffers; the other one is the source. */
  datatype Call = Call(onA: bool, op: Op)

  /** No argument is larger than any memory block can be. */
  ghost predicate Fitting(op: Op) {
    match op
    case Add(data) => |data| <= MAX_CHAIN_BYTES
    case Prepend(data) => |data| <= MAX_CHAIN_BYTES
    case Reserve(data, vecs) => |data| <= MAX_CHAIN_BYTES && vecs >= 2
    case _ => true
  }

  /** What an operation does to a byte string `x`, given the other string `y`, and the bytes it returns */
  function Effect(op: Op, x: seq<byte>, y: seq<byte>): (seq<byte>, seq<byte>, seq<byte>) {
    match op
    case Add(data) => (if |data| > SIZE_MAX - |x| then x else x + data, y, [])
    case Prepend(data) => (if |data| > SIZE_MAX - |x| then x else data + x, y, [])
    case Drain(n) => (if n >= |x| then [] else x[n..], y, [])
    case Remove(n) => if n >= |x| then ([], y, x) else (x[n..], y, x[..n])
    case Pullup(_) => (x, y, [])
    case Reserve(data, _) => (x + data, y, [])
    case AddBuffer => (x + y, [], [])
    case PrependBuffer => (y + x, [], [])
    case RemoveBuffer(n) => if n >= |y| then (x + y, [], []) else (x + y[..n], y[n..], [])
  }

  /** Both strings after a run, and everything it returned */
  function RunBytes(calls: seq<Call>, a: seq<byte>, b: seq<byte>): (seq<byte>, seq<byte>, seq<seq<byte>>)
    decreases |calls|
  {
    if calls == [] then (a, b, [])
    else
      var (x, y, outs) := RunBytes(calls[..|calls| - 1], a, b);
      var c := calls[|calls| - 1];
      if c.onA then var (x', y', out) := Effect(c.op, x, y); (x', y', outs + [out])
      else var (y', x', out) := Effect(c.op, y, x); (x', y', outs + [out])
  }

  /** What evbuffer_remove_buffer needs; the other operations need nothing. */
  ghost predicate Safe(x: EvBuffer, y: EvBuffer, op: Op)
    requires x.Valid() && y.Valid()
    reads x, y, x.chains, y.chains
  {
    op.RemoveBuffer? ==>
      && x.totalLen + y.totalLen <= SIZE_MAX
      && (0 < op.n < y.totalLen ==> CanSplit(y.blocks, y.lw, x.blocks, op.n))
  }

  /** The chains of a buffer as values, and the number of the last one with data */
  method Gather(buf: EvBuffer) returns (bs: seq<Block>, lw: nat)
    requires buf.Valid()
    ensures bs == buf.blocks && lw == buf.lw
  {
    bs, lw := [], 0;
    var c, target := buf.first, buf.Deref(buf.lastWithData);
    assert target != null ==> At(buf.chains, buf.lw, target);
    while c != null
      invariant |bs| <= |buf.blocks| && bs == buf.blocks[..|bs|] && c == ChainAt(buf.chains, |bs|)
      invariant if buf.lw < |bs| then lw == buf.lw else lw == 0
      decreases |buf.blocks| - |bs|
    {
      assert At(buf.chains, |bs|, c) && c.next == ChainAt(buf.chains, |bs| + 1);
      if c == target {
        lw := |bs|;
      }
      bs, c := bs + [c.block], c.next;
    }
  }

  method CheckSafe(x: EvBuffer, y: EvBuffer, op: Op) returns (ok: bool)
    requires x.Valid() && y.Valid()
    ensures ok <==> Safe(x, y, op)
  {
    hide CanSplit;
    if !op.RemoveBuffer? {
      return true;
    }
    var xs, _ := Gather(x);
    var ys, lw := Gather(y);
    ok := x.totalLen + y.totalLen <= SIZE_MAX && (0 < op.n < y.totalLen ==> CanSplit(ys, lw, xs, op.n));
  }

  /** One operation on buffer `x` */
  method Step(x: EvBuffer, y: EvBuffer, op: Op) returns (out: seq<byte>)
    requires x.Valid() && y.Valid() && Apart(x, y) && Fitting(op) && Safe(x, y, op)
    modifies x, y, x.chains, y.chains
    ensures x.Valid() && y.Valid() && Apart(x, y)
    ensures (x.Contents(), y.Contents(), out) == Effect(op, old(x.Contents()), old(y.Contents()))
    ensures forall i :: 0 <= i < |x.chains| ==>
      x.chains[i] in old(x.chains) || x.chains[i] in old(y.chains) || fresh(x.chains[i])
    ensures forall i :: 0 <= i < |y.chains| ==> y.chains[i] in old(y.chains)
  {
    hide Flat, CanSplit;
    out := [];
    match op {
      case AddBuffer => Splices.AddBuffer(x, y);
      case PrependBuffer => Splices.PrependBuffer(x, y);
      case RemoveBuffer(n) => StepRemoveBuffer(x, y, n);
      case Add(data) => out := StepOne(x, y, op);
      case Prepend(data) => out := StepOne(x, y, op);
      case Drain(n) => out := StepOne(x, y, op);
      case Remove(n) => out := StepOne(x, y, op);
      case Pullup(size) => out := StepOne(x, y, op);
      case Reserve(data, vecs) => out := StepOne(x, y, op);
    }
  }

  method StepRemoveBuffer(x: EvBuffer, y: EvBuffer, n: nat)
    requires x.Valid() && y.Valid() && Apart(x, y) && Safe(x, y, RemoveBuffer(n))
    modifies x, y, x.chains, y.chains
    ensures x.Valid() && y.Valid() && Apart(x, y)
    ensures (x.Contents(), y.Contents(), []) == Effect(RemoveBuffer(n), old(x.Contents()), old(y.Contents()))
    ensures forall i :: 0 <= i < |x.chains| ==>
      x.chains[i] in old(x.chains) || x.chains[i] in old(y.chains) || fresh(x.chains[i])
    ensures forall i :: 0 <= i < |y.chains| ==> y.chains[i] in old(y.chains)
  {
    hide Flat, CanSplit;
    ghost var ys := y.Contents();
    assert ys[..|ys|] == ys && ys[|ys|..] == [] && ys[0..] == ys;
    var moved, failed := Splices.RemoveBuffer(y, x, n);
  }

  /** An operation that leaves the other buffer alone */
  method StepOne(x: EvBuffer, y: EvBuffer, op: Op) returns (out: seq<byte>)
    requires x.Valid() && y.Valid() && Apart(x, y) && Fitting(op)
    requires !op.AddBuffer? && !op.PrependBuffer? && !op.RemoveBuffer?
    modifies x, x.chains
    ensures x.Valid() && y.Valid() && Apart(x, y)
    ensures (x.Contents(), y.Contents(), out) == Effect(op, old(x.Contents()), old(y.Contents()))
    ensures forall i :: 0 <= i < |x.chains| ==> x.chains[i] in old(x.chains) || fresh(x.chains[i])
  {
    hide Flat;
    out := [];
    match op {
      case Add(data) => var _ := x.Add(data);
      case Prepend(data) => var _ := x.Prepend(data);
      case Drain(n) => var _ := x.Drain(n);
      case Remove(n) =>
        out := x.Remove(n);
        SplitOff(out, x.Contents(), n);
      case Pullup(size) => var _ := Pullups.Pullup(x, size);
      case Reserve(data, vecs) => StepReserve(x, data, vecs);
    }
  }

  lemma {:induction false} SplitOff(out: seq<byte>, rest: seq<byte>, n: nat)
    requires |out| == if n <= |out + rest| then n else |out + rest|
    ensures n >= |out + rest| ==> rest == [] && out == out + rest
    ensures n < |out + rest| ==> out == (out + rest)[..n] && rest == (out + rest)[n..]
  {
  }

  /** evbuffer_reserve_space, the caller's writes, and evbuffer_commit_space */
  method StepReserve(x: EvBuffer, data: seq<byte>, n: nat)
    requires x.Valid() && |data| <= MAX_CHAIN_BYTES && n >= 2
    modifies x, x.chains
    ensures x.Valid() && x.Contents() == old(x.Contents()) + data
    ensures forall i :: 0 <= i < |x.chains| ==> x.chains[i] in old(x.chains) || fresh(x.chains[i])
  {
    hide Flat, Join, VecSum, Fits;
    var r, vecs := ReserveSeveral(x, |data|, n);
    r := WriteReserved(x, vecs, Spread(vecs, data), |data|, n);
  }

  /** Every run, up to a call of evbuffer_remove_buffer that is not safe */
  method Run(a: EvBuffer, b: EvBuffer, calls: seq<Call>) returns (done: nat, outs: seq<seq<byte>>)
    requires a.Valid() && b.Valid() && Apart(a, b) && forall i :: 0 <= i < |calls| ==> Fitting(calls[i].op)
    modifies a, b, a.chains, b.chains
    ensures a.Valid() && b.Valid() && Apart(a, b) && done <= |calls|
    ensures (a.Contents(), b.Contents(), outs) == RunBytes(calls[..done], old(a.Contents()), old(b.Contents()))
    ensures done < |calls| ==> if calls[done].onA then !Safe(a, b, calls[done].op) else !Safe(b, a, calls[done].op)
  {
    hide Effect, Safe, Flat;
    done, outs := 0, [];
    assert calls[..0] == [];
    while done < |calls|
      invariant a.Valid() && b.Valid() && Apart(a, b) && done <= |calls|
      invariant forall i :: 0 <= i < |a.chains| ==>
        a.chains[i] in old(a.chains) || a.chains[i] in old(b.chains) || fresh(a.chains[i])
      invariant forall i :: 0 <= i < |b.chains| ==>
        b.chains[i] in old(a.chains) || b.chains[i] in old(b.chains) || fresh(b.chains[i])
      invariant (a.Contents(), b.Contents(), outs) == RunBytes(calls[..done], old(a.Contents()), old(b.Contents()))
    {
      assert calls[..done + 1][..done] == calls[..done];
      var x, y := if calls[done].onA then a else b, if calls[done].onA then b else a;
      var ok := CheckSafe(x, y, calls[done].op);
      if !ok {
        return;
      }
      var out := Step(x, y, calls[done].op);
      outs, done := outs + [out], done + 1;
    }
  }
}
