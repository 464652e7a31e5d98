/**
 evbuffer_pullup: makes the first bytes of a buffer contiguous.
 */
module Pullups {
  import opened Chains
  import opened EvBuffers

  /** The bytes before the block with index `k`. */
  ghost function Before(bs: seq<Block>, k: nat): nat
    requires k <= |bs|
  {
    |Flat(bs[..k])|
  }

  /**
   The loop of evbuffer_pullup: copies and frees every chain that is pulled up entirely, from the
   one at index `k0` on, and notes whether the last chain with data or the owner of the pointer to
   it was among them.
   */
  method PullChains(buf: EvBuffer, start: Chain?, n: nat, lastChain: Chain, ghost k0: nat)
    returns (out: seq<byte>, c: Chain?, left: nat, goneLast: bool, goneSlot: bool, ghost k: nat)
    requires buf.Valid() && k0 <= 1 <= buf.lw < |buf.chains| && start == ChainAt(buf.chains, k0)
    requires lastChain == buf.chains[buf.lw] && Before(buf.blocks, k0) + n <= buf.totalLen
    ensures k0 <= k <= |buf.chains| && c == ChainAt(buf.chains, k)
    ensures c != null ==> left < c.block.off
    ensures Before(buf.blocks, k) + left == Before(buf.blocks, k0) + n
    ensures Before(buf.blocks, k0) <= Before(buf.blocks, k) <= |Flat(buf.blocks)|
    ensures out == Flat(buf.blocks)[Before(buf.blocks, k0)..Before(buf.blocks, k)]
    ensures goneLast <==> buf.lw < k
    ensures goneSlot <==> k0 < buf.lw <= k
  {
    hide Pulled, Flat, LastWithDataAt;
    out, c, left, k := [], start, n, k0;
    goneLast, goneSlot := false, false;
    EndOfList(buf.blocks, k);
    while c != null && left >= c.block.off
      invariant k0 <= k <= |buf.chains| && c == ChainAt(buf.chains, k)
      invariant Before(buf.blocks, k) + left == Before(buf.blocks, k0) + n
      invariant Before(buf.blocks, k0) <= Before(buf.blocks, k) <= |Flat(buf.blocks)|
      invariant out == Flat(buf.blocks)[Before(buf.blocks, k0)..Before(buf.blocks, k)]
      invariant goneLast <==> buf.lw < k
      invariant goneSlot <==> k0 < buf.lw <= k
      decreases |buf.chains| - k
    {
      assert c.next == ChainAt(buf.chains, k + 1);
      CopyRest(buf.blocks, k, 0, Before(buf.blocks, k0), out);
      assert At(buf.chains, k, c) && At(buf.chains, buf.lw, lastChain);
      assert At(buf.chains, buf.lw - 1, buf.chains[buf.lw - 1]);
      out, left := out + Data(c.block), left - c.block.off;
      if c == lastChain {
        goneLast := true;
      }
      if buf.lastWithData == After(c) {
        goneSlot := true;
      }
      c, k := c.next, k + 1;
    }
  }

  /** The copying of evbuffer_pullup: whole chains, then the front of the next one. */
  method Collect(buf: EvBuffer, start: Chain?, want: nat, ghost k0: nat)
    returns (out: seq<byte>, c: Chain?, left: nat, goneLast: bool, goneSlot: bool, ghost k: nat)
    requires buf.Valid() && k0 <= 1 <= buf.lw < |buf.chains| && start == ChainAt(buf.chains, k0)
    requires Before(buf.blocks, k0) + want <= buf.totalLen
    ensures k0 <= k <= |buf.chains| && c == ChainAt(buf.chains, k)
    ensures if k < |buf.chains| then left < buf.blocks[k].off else left == 0
    ensures Before(buf.blocks, k0) <= Before(buf.blocks, k) + left == Before(buf.blocks, k0) + want
    ensures Before(buf.blocks, k) + left <= |Flat(buf.blocks)|
    ensures out == Flat(buf.blocks)[Before(buf.blocks, k0)..Before(buf.blocks, k) + left]
    ensures goneLast <==> buf.lw < k
    ensures goneSlot <==> k0 < buf.lw <= k
  {
    out, c, left, goneLast, goneSlot, k := PullChains(buf, start, want, buf.Deref(buf.lastWithData), k0);
    EndOfList(buf.blocks, k);
    if c != null {
      CopyStep(buf.blocks, k, 0, left, Before(buf.blocks, k0), out);
      out := out + Data(c.block)[0..0 + left];
    }
  }

  /** The blocks of the buffer once `size` bytes are in front, followed by what is left from `k` on. */
  ghost function Pulled(front: Block, bs: seq<Block>, k: nat, left: nat): seq<Block>
    requires k <= |bs| && (k < |bs| ==> left <= bs[k].off)
  {
    [front] + if k < |bs| then bs[k..][0 := Advance(bs[k], left)] else []
  }

  lemma {:induction false} PulledBytes(front: Block, bs: seq<Block>, lw: nat, k: nat, left: nat)
    requires LastWithDataAt(bs, lw) && 1 <= lw < |bs| && k <= |bs|
    requires if k < |bs| then left < bs[k].off else left == 0
    requires Before(bs, k) + left <= |Flat(bs)| && Data(front) == Flat(bs)[..Before(bs, k) + left] && front.off > 0
    ensures Flat(Pulled(front, bs, k, left)) == Flat(bs)
    ensures k < |bs| ==> k <= lw
    ensures LastWithDataAt(Pulled(front, bs, k, left), if k < |bs| then lw - k + 1 else 0)
  {
    hide At, Data;
    var n := Before(bs, k) + left;
    if k < |bs| {
      DropFront(bs, k, left);
      var rest := bs[k..][0 := Advance(bs[k], left)];
      assert rest == bs[k := Advance(bs[k], left)][k..];
      FlatConcat([front], rest);
      assert Flat([front]) == Data(front) + Flat([]);
      assert Flat(bs) == Flat(bs)[..n] + Flat(bs)[n..];
    } else {
      assert bs[..k] == bs;
      assert Flat([front]) == Data(front) + Flat([]);
    }
  }

  /** Makes `tmp`, holding `front`, the first chain, followed by the chain at index `k`. */
  method PutFront(buf: EvBuffer, tmp: Chain, front: Block, c: Chain?, newLast: Chain, lwd: Slot, len: nat,
                  ghost k: nat, ghost newLw: nat)
    requires buf.Linked() && k <= |buf.chains| && c == ChainAt(buf.chains, k)
    requires tmp !in buf.chains || (0 < k && tmp == buf.chains[0])
    requires LastWithDataAt([front] + buf.blocks[k..], newLw) && len == |Flat([front] + buf.blocks[k..])|
    requires lwd == SlotAt([tmp] + buf.chains[k..], newLw) && newLast == LastOf([tmp] + buf.chains[k..])
    modifies buf, tmp
    ensures buf.Valid() && buf.chains == [tmp] + old(buf.chains)[k..]
    ensures buf.blocks == [front] + old(buf.blocks)[k..]
  {
    ghost var cs, rest, bs := buf.chains, buf.chains[k..], buf.blocks[k..];
    DistinctSuffix(cs, k);
    ListTail(buf.first, cs, k);
    forall i | 0 <= i < |rest|
      ensures rest[i] != tmp && rest[i].block == bs[i]
    {
      assert k > 0 ==> At(cs, 0, cs[0]);
      assert At(cs, k + i, rest[i]);
    }
    tmp.block, tmp.next := front, c;
    DistinctConcat([tmp], rest);
    ListCons(tmp, c, rest);
    buf.Adopt(tmp, newLast, lwd, len, [tmp] + rest, [front] + bs, newLw);
  }

  /** Index of the last chain with data once the chains before `k` are pulled into one. */
  ghost function PulledLast(n: nat, lw: nat, k: nat): nat
    requires k < n ==> k <= lw
  {
    if k < n then lw - k + 1 else 0
  }

  /** The four cases of the repair of last_with_datap, and `last`. */
  lemma {:induction false} PulledSlots(cs: seq<Chain>, tmp: Chain, lw: nat, k: nat, k0: nat)
    requires k0 <= 1 <= lw < |cs| && k0 <= k <= |cs| && (k < |cs| ==> k <= lw)
    requires k0 == 1 ==> tmp == cs[0]
    ensures SlotAt([tmp] + cs[k..], PulledLast(|cs|, lw, k)) ==
            if lw < k then Head else if k0 < lw <= k then After(tmp) else SlotAt(cs, lw)
    ensures LastOf([tmp] + cs[k..]) == if k < |cs| then LastOf(cs) else tmp
  {
  }

  /**
   What evbuffer_pullup collects: `base` are the bytes the chain `tmp` holds already, all those
   before the chain at index `k0`; the result is its new memory, the chain that follows it, how many
   bytes that one loses, and the new last_with_datap.
   */
  method Gather(buf: EvBuffer, tmp: Chain, base: Block, start: Chain?, want: nat, ghost k0: nat)
    returns (front: Block, c: Chain?, left: nat, lwd: Slot, ghost k: nat)
    requires buf.Valid() && k0 <= 1 <= buf.lw < |buf.chains| && start == ChainAt(buf.chains, k0)
    requires k0 == 1 ==> tmp == buf.chains[0]
    requires Before(buf.blocks, k0) + want <= buf.totalLen
    requires Data(base) == Flat(buf.blocks)[..Before(buf.blocks, k0)] && 0 < want <= SpaceLen(base)
    ensures k0 <= k <= |buf.chains| && c == ChainAt(buf.chains, k) && (k < |buf.chains| ==> k <= buf.lw)
    ensures if k < |buf.chains| then left < buf.blocks[k].off else left == 0
    ensures Before(buf.blocks, k) + left <= |Flat(buf.blocks)| && front.off == base.off + want
    ensures Data(front) == Flat(buf.blocks)[..Before(buf.blocks, k) + left]
    ensures lwd == SlotAt([tmp] + buf.chains[k..], PulledLast(|buf.chains|, buf.lw, k))
  {
    ghost var bs := buf.blocks;
    var out, goneLast, goneSlot;
    out, c, left, goneLast, goneSlot, k := Collect(buf, start, want, k0);
    JoinSlices(Flat(bs), 0, Before(bs, k0), Before(bs, k) + left);
    front := Append(base, out);
    assert Data(front) == Flat(bs)[..Before(bs, k) + left];
    PulledSlots(buf.chains, tmp, buf.lw, k, k0);
    lwd := buf.lastWithData;
    if goneLast {
      lwd := Head;
    } else if goneSlot {
      lwd := if c != null && c.block.off - left != 0 then After(tmp) else Head;
    }
  }

  /** The stores at the end of evbuffer_pullup. */
  method Install(buf: EvBuffer, tmp: Chain, front: Block, c: Chain?, left: nat, lwd: Slot, ghost k: nat)
    requires buf.Valid() && 1 <= buf.lw < |buf.chains|
    requires k <= |buf.chains| && c == ChainAt(buf.chains, k) && (k < |buf.chains| ==> k <= buf.lw)
    requires if k < |buf.chains| then left < buf.blocks[k].off else left == 0
    requires Before(buf.blocks, k) + left <= |Flat(buf.blocks)| && front.off > 0
    requires Data(front) == Flat(buf.blocks)[..Before(buf.blocks, k) + left]
    requires lwd == SlotAt([tmp] + buf.chains[k..], PulledLast(|buf.chains|, buf.lw, k))
    requires tmp !in buf.chains || (0 < k && tmp == buf.chains[0])
    modifies buf, buf.chains, tmp
    ensures buf.Valid() && buf.Contents() == old(buf.Contents())
    ensures buf.chains == [tmp] + old(buf.chains)[k..] && buf.blocks[0] == front
  {
    var len, newLast := buf.totalLen, tmp;
    PulledBytes(front, buf.blocks, buf.lw, k, left);
    PulledSlots(buf.chains, tmp, buf.lw, k, 0);
    ghost var pulled := Pulled(front, buf.blocks, k, left);
    ghost var newLw := PulledLast(|buf.chains|, buf.lw, k);
    if c != null {
      newLast := buf.last;
      DropFront(buf.blocks, k, left);
      assert buf.blocks[k..][0 := Advance(c.block, left)] == buf.blocks[k := Advance(c.block, left)][k..];
      buf.Rewrite(c, Advance(c.block, left), len - left, k);
    }
    assert [front] + buf.blocks[k..] == pulled;
    PutFront(buf, tmp, front, c, newLast, lwd, len, k, newLw);
  }

  /** Collects the first bytes into the chain `tmp`, which holds `base` already, and makes it the first. */
  method PullInto(buf: EvBuffer, tmp: Chain, base: Block, start: Chain?, want: nat, ghost k0: nat)
    requires buf.Valid() && k0 <= 1 <= buf.lw < |buf.chains| && start == ChainAt(buf.chains, k0)
    requires if k0 == 0 then tmp !in buf.chains else tmp == buf.chains[0]
    requires Before(buf.blocks, k0) + want <= buf.totalLen
    requires Data(base) == Flat(buf.blocks)[..Before(buf.blocks, k0)] && 0 < want <= SpaceLen(base)
    modifies buf, buf.chains, tmp
    ensures buf.Valid() && buf.Contents() == old(buf.Contents()) && buf.chains != [] && tmp == buf.first
    ensures tmp.block.off == base.off + want && Data(tmp.block) == buf.Contents()[..base.off + want]
    ensures forall i :: 0 <= i < |buf.chains| ==> buf.chains[i] in old(buf.chains) || buf.chains[i] == tmp
  {
    var front, c, left, lwd, k := Gather(buf, tmp, base, start, want, k0);
    Install(buf, tmp, front, c, left, lwd, k);
    FirstBytes(buf.blocks);
  }

  /** evbuffer_pullup; the result is the chain that starts with the bytes asked for. */
  method Pullup(buf: EvBuffer, size: int) returns (r: Chain?)
    requires buf.Valid()
    modifies buf, buf.chains
    ensures buf.Valid() && buf.Contents() == old(buf.Contents())
    ensures forall i :: 0 <= i < |buf.chains| ==> buf.chains[i] in old(buf.chains) || fresh(buf.chains[i])
    ensures var n := if size < 0 then old(buf.totalLen) else size;
            if n == 0 || n > old(buf.totalLen) then r == null
            else n <= MAX_CHAIN_BYTES ==>
                   r != null && r == buf.first && n <= r.block.off && Data(r.block)[..n] == buf.Contents()[..n]
  {
    var n := if size < 0 then buf.totalLen else size;
    if n == 0 || n > buf.totalLen {
      return null;
    }
    var chain := buf.first;
    FirstBytes(buf.blocks);
    if chain.block.off >= n {
      return chain;
    }
    LaterData(buf.blocks, buf.lw);
    if |chain.block.buffer| - chain.block.misalign >= n {
      PullInto(buf, chain, chain.block, chain.next, n - chain.block.off, 1);
      return chain;
    }
    var tmp := NewChain(n);
    if tmp == null {
      return null;
    }
    PullInto(buf, tmp, tmp.block, chain, n, 0);
    return tmp;
  }

  lemma {:induction false} FirstBytes(bs: seq<Block>)
    ensures bs == [] ==> Flat(bs) == []
    ensures bs != [] ==> bs[0].off <= |Flat(bs)| && Data(bs[0]) == Flat(bs)[..bs[0].off]
    ensures bs != [] ==> Flat(bs[..1]) == Data(bs[0])
  {
    if bs != [] {
      assert bs[..1] == [bs[0]];
      assert Flat([bs[0]]) == Data(bs[0]) + Flat([]);
    }
  }

  lemma {:induction false} LaterData(bs: seq<Block>, lw: nat)
    requires LastWithDataAt(bs, lw) && bs != [] && bs[0].off < |Flat(bs)|
    ensures lw >= 1
  {
    if lw == 0 {
      FlatOfEmpty(bs[1..]);
    }
  }
}
