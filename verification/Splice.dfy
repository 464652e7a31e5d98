/**
 Operations that move whole chains from one evbuffer to another.
 */
module Splices {
  import opened Chains
  import opened EvBuffers

  ghost predicate Disjoint(a: seq<Chain>, b: seq<Chain>) {
    && (forall i :: 0 <= i < |a| ==> a[i] !in b)
    && (forall i :: 0 <= i < |b| ==> b[i] !in a)
  }

  /** No chain belongs to both buffers. */
  ghost predicate Apart(a: EvBuffer, b: EvBuffer)
    reads a`chains, b`chains
  {
    a != b && Disjoint(a.chains, b.chains)
  }

  /** Moving a prefix of one list behind a prefix of another keeps the lists disjoint. */
  lemma {:induction false} MoveKeepsDisjoint(dst: seq<Chain>, p: nat, src: seq<Chain>, k: nat)
    requires Disjoint(dst, src) && Distinct(src) && p <= |dst| && k <= |src|
    ensures Disjoint(dst[..p] + src[..k], src[k..])
    ensures forall i :: 0 <= i < p + k ==> (dst[..p] + src[..k])[i] in dst || (dst[..p] + src[..k])[i] in src
  {
    DistinctSplit(src, k);
    var d, s := dst[..p] + src[..k], src[k..];
    forall i | 0 <= i < |d|
      ensures d[i] !in s && (d[i] in dst || d[i] in src)
    {
      assert d[i] == if i < p then dst[i] else src[..k][i - p];
    }
    forall i | 0 <= i < |s|
      ensures s[i] !in d
    {
      assert s[i] in s && s[i] == src[k + i];
    }
  }

  /** A buffer with bytes has data in the chain that last_with_datap leads to. */
  lemma {:induction false} DataAtLast(bs: seq<Block>, lw: nat)
    requires LastWithDataAt(bs, lw) && Flat(bs) != []
    ensures lw < |bs| && bs[lw].off > 0
  {
    if bs != [] && bs[lw].off == 0 {
      FlatOfEmpty(bs);
    }
  }

  lemma {:induction false} JoinKeepsLast(a: seq<Block>, b: seq<Block>, lw: nat)
    requires LastWithDataAt(b, lw) && lw < |b| && b[lw].off > 0
    ensures LastWithDataAt(a + b, |a| + lw)
  {
    assert (a + b)[|a| + lw] == b[lw];
    forall i | |a| + lw < i < |a + b|
      ensures (a + b)[i].off == 0
    {
      assert (a + b)[i] == b[i - |a|];
    }
  }

  /** COPY_CHAIN: `dst` takes over the chains of `src`. */
  method CopyChain(dst: EvBuffer, src: EvBuffer)
    requires src.Valid() && dst != src
    modifies dst
    ensures dst.Valid() && dst.chains == src.chains && dst.blocks == src.blocks
  {
    var lwd := if src.lastWithData == Head then Head else src.lastWithData;
    dst.Adopt(src.first, src.last, lwd, src.totalLen, src.chains, src.blocks, src.lw);
  }

  /** APPEND_CHAIN: the chains of `src` follow those of `dst`. */
  method AppendChain(dst: EvBuffer, src: EvBuffer)
    requires dst.Valid() && src.Valid() && Apart(dst, src) && src.totalLen > 0
    modifies dst, dst.chains`next
    ensures dst.Valid()
    ensures forall i :: 0 <= i < |dst.chains| ==> dst.chains[i] in old(dst.chains) || dst.chains[i] in src.chains
    ensures dst.Contents() == old(dst.Contents()) + src.Contents()
  {
    hide Flat, LastWithDataAt, At, ChainAt;
    ghost var p := CutAt(dst.blocks, dst.lw);
    CutKeepsBytes(dst.blocks, dst.lw);
    DataAtLast(src.blocks, src.lw);
    DistinctPrefix(dst.chains, p);
    DistinctConcat(dst.chains[..p], src.chains);
    var chp := dst.FreeTrailingEmptyChains();
    forall i | 0 <= i < |src.chains|
      ensures src.chains[i].next == ChainAt(src.chains, i + 1)
    {
      assert src.chains[i] in src.chains;
    }
    assert dst.chains[..p] == dst.chains && dst.blocks[..p] == dst.blocks;
    FlatConcat(dst.blocks, src.blocks);
    JoinKeepsLast(dst.blocks, src.blocks, src.lw);
    var lwd := if src.lastWithData == Head then chp else src.lastWithData;
    dst.Relink(chp, src.first, src.last, lwd, dst.totalLen + src.totalLen, p, src.chains, src.blocks, p + src.lw);
  }

  /** PREPEND_CHAIN: the chains of `src` come before those of `dst`. */
  method PrependChain(dst: EvBuffer, src: EvBuffer)
    requires dst.Valid() && src.Valid() && Apart(dst, src) && src.totalLen > 0 && dst.totalLen > 0
    modifies dst, src`first, src`chains, src.chains`next
    ensures dst.Valid() && dst.chains == old(src.chains) + old(dst.chains)
    ensures dst.Contents() == src.Contents() + old(dst.Contents())
  {
    DataAtLast(src.blocks, src.lw);
    DataAtLast(dst.blocks, dst.lw);
    ghost var n := |src.chains|;
    DistinctConcat(src.chains, dst.chains);
    FlatConcat(src.blocks, dst.blocks);
    JoinKeepsLast(src.blocks, dst.blocks, dst.lw);
    assert src.chains[..n] == src.chains;
    src.SetSlot(After(src.last), dst.first, n, dst.chains);
    var lwd := if dst.lastWithData == Head then After(src.last) else dst.lastWithData;
    dst.Adopt(src.first, dst.last, lwd, dst.totalLen + src.totalLen, src.chains, src.blocks + dst.blocks, n + dst.lw);
  }

  /** ZERO_CHAIN */
  method ZeroChain(buf: EvBuffer)
    modifies buf
    ensures buf.Valid() && buf.chains == [] && buf.Contents() == []
  {
    buf.Adopt(null, null, Head, 0, [], [], 0);
  }

  /** evbuffer_add_buffer */
  method AddBuffer(outbuf: EvBuffer, inbuf: EvBuffer)
    requires outbuf.Valid() && inbuf.Valid() && (outbuf == inbuf || Apart(outbuf, inbuf))
    modifies outbuf, inbuf, outbuf.chains`next
    ensures outbuf.Valid() && inbuf.Valid() && (outbuf == inbuf || Apart(outbuf, inbuf))
    ensures forall i :: 0 <= i < |outbuf.chains| ==>
      outbuf.chains[i] in old(outbuf.chains) || outbuf.chains[i] in old(inbuf.chains)
    ensures forall i :: 0 <= i < |inbuf.chains| ==> inbuf.chains[i] in old(inbuf.chains)
    ensures outbuf == inbuf ==> outbuf.Contents() == old(outbuf.Contents())
    ensures outbuf != inbuf ==> outbuf.Contents() == old(outbuf.Contents()) + old(inbuf.Contents())
    ensures outbuf != inbuf ==> inbuf.Contents() == []
  {
    if inbuf.totalLen == 0 || outbuf == inbuf {
      return;
    }
    if outbuf.totalLen == 0 {
      CopyChain(outbuf, inbuf);
    } else {
      AppendChain(outbuf, inbuf);
    }
    ZeroChain(inbuf);
  }

  /** evbuffer_prepend_buffer */
  method PrependBuffer(outbuf: EvBuffer, inbuf: EvBuffer)
    requires outbuf.Valid() && inbuf.Valid() && (outbuf == inbuf || Apart(outbuf, inbuf))
    modifies outbuf, inbuf, inbuf.chains`next
    ensures outbuf.Valid() && inbuf.Valid() && (outbuf == inbuf || Apart(outbuf, inbuf))
    ensures forall i :: 0 <= i < |outbuf.chains| ==>
      outbuf.chains[i] in old(outbuf.chains) || outbuf.chains[i] in old(inbuf.chains)
    ensures forall i :: 0 <= i < |inbuf.chains| ==> inbuf.chains[i] in old(inbuf.chains)
    ensures outbuf == inbuf ==> outbuf.Contents() == old(outbuf.Contents())
    ensures outbuf != inbuf ==> outbuf.Contents() == old(inbuf.Contents()) + old(outbuf.Contents())
    ensures outbuf != inbuf ==> inbuf.Contents() == []
  {
    if inbuf.totalLen == 0 || outbuf == inbuf {
      return;
    }
    if outbuf.totalLen == 0 {
      CopyChain(outbuf, inbuf);
    } else {
      PrependChain(outbuf, inbuf);
    }
    ZeroChain(inbuf);
  }

  // ---------- evbuffer_remove_buffer ----------

  /** Well formed, save that there may be data behind the chain that last_with_datap leads to. */
  ghost predicate Hooked(buf: EvBuffer)
    reads buf, buf.chains
  {
    && buf.Linked() && buf.last == LastOf(buf.chains) && buf.totalLen == |Flat(buf.blocks)|
    && buf.lw < |buf.chains| && buf.lastWithData == SlotAt(buf.chains, buf.lw)
    && (buf.lw > 0 ==> buf.blocks[buf.lw].off > 0)
  }

  /** How many leading blocks fit entirely into `n` bytes. */
  function WholeCount(bs: seq<Block>, n: nat): (k: nat)
    ensures k <= |bs|
  {
    if bs == [] || bs[0].off > n then 0 else 1 + WholeCount(bs[1..], n - bs[0].off)
  }

  /** Where advance_last_with_data stops when it starts at the block with index `f`. */
  function AdvanceFrom(bs: seq<Block>, f: nat): (r: nat)
    requires f < |bs|
    ensures f <= r < |bs| && (r == f || bs[r].off > 0)
    decreases |bs| - f
  {
    if f + 1 < |bs| && bs[f + 1].off != 0 then AdvanceFrom(bs, f + 1) else f
  }

  /** No empty block comes before a block with data. */
  predicate NoGap(bs: seq<Block>) {
    bs == [] || if bs[0].off == 0 then AllEmpty(bs) else NoGap(bs[1..])
  }

  /**
   What evbuffer_remove_buffer needs, given that it wants `n` bytes, more than none and fewer than
   there are: if whole chains with data move, there must be no empty chain between the data of
   `dst` and moved data; if none moves, last_with_datap must not skip over empty chains.
   */
  predicate CanSplit(src: seq<Block>, lw: nat, dst: seq<Block>, n: nat)
    requires LastWithDataAt(src, lw)
  {
    var k := WholeCount(src, n);
    if Flat(src[..k]) == [] then
      lw == 0 || k < lw
    else if Flat(dst) == [] then
      NoGap(src[1..k])
    else
      NoGap(src[..k])
  }

  lemma {:induction false} AdvanceReachesLast(bs: seq<Block>, f: nat)
    requires f < |bs| && (f == 0 || bs[f].off > 0)
    ensures LastWithDataAt(bs, AdvanceFrom(bs, f)) <==> NoGap(bs[f + 1..])
    decreases |bs| - f
  {
    if f + 1 < |bs| {
      if bs[f + 1].off != 0 {
        AdvanceReachesLast(bs, f + 1);
        assert bs[f + 1..][1..] == bs[f + 2..];
        hide LastWithDataAt;
      } else {
        StopsAt(bs, f);
      }
    }
  }

  lemma {:induction false} StopsAt(bs: seq<Block>, f: nat)
    requires f + 1 < |bs| && (f == 0 || bs[f].off > 0) && bs[f + 1].off == 0
    ensures LastWithDataAt(bs, f) <==> NoGap(bs[f + 1..])
  {
    var rest := bs[f + 1..];
    assert forall i :: 0 <= i < |rest| ==> rest[i] == bs[f + 1 + i];
    assert LastWithDataAt(bs, f) ==> forall i :: 0 <= i < |rest| ==> rest[i].off == 0;
    assert AllEmpty(rest) ==> forall i {:trigger bs[i]} :: f < i < |bs| ==> rest[i - f - 1].off == 0;
  }

  /**
   The loop of evbuffer_remove_buffer over the chains that move entirely. The assertion in it
   holds for every well-formed buffer.
   */
  method TakeWhole(src: EvBuffer, datlen: nat)
    returns (c: Chain, previous: Chain, nread: nat, left: nat, lwd: Slot, ghost k: nat)
    requires src.Valid() && datlen < src.totalLen
    ensures k == WholeCount(src.blocks, datlen) && k <= src.lw < |src.chains|
    ensures c == src.chains[k] && previous == src.chains[if k == 0 then 0 else k - 1] && left < c.block.off
    ensures nread == |Flat(src.blocks[..k])| && datlen == nread + left
    ensures lwd == SlotAt(src.chains[k..], src.lw - k)
  {
    hide AdvanceFrom, LastOf, WholeCount;
    c, previous, nread, left, lwd, k := src.first, src.first, 0, datlen, src.lastWithData, 0;
    assert src.blocks[0..] == src.blocks;
    while c.block.off <= left
      invariant k <= src.lw < |src.chains| && c == src.chains[k]
      invariant previous == src.chains[if k == 0 then 0 else k - 1]
      invariant nread == |Flat(src.blocks[..k])| && datlen == nread + left
      invariant lwd == SlotAt(src.chains[k..], src.lw - k)
      invariant WholeCount(src.blocks, datlen) == k + WholeCount(src.blocks[k..], left)
      decreases |src.chains| - k
    {
      assert c.next == ChainAt(src.chains, k + 1);
      FlatPrefixGrows(src.blocks, k);
      if k == src.lw {
        DropsBeforeLast(src.blocks, src.lw, k + 1);
      }
      WholeCountStep(src.blocks, k, left);
      assert At(src.chains, k, c) && At(src.chains, src.lw - 1, src.chains[src.lw - 1]);
      assert At(src.chains, src.lw, src.chains[src.lw]);
      assert c != src.Deref(lwd);
      nread, left, previous := nread + c.block.off, left - c.block.off, c;
      if lwd == After(c) {
        lwd := Head;
      }
      c, k := c.next, k + 1;
    }
    WholeCountStep(src.blocks, k, left);
  }

  lemma {:induction false} WholeCountStep(bs: seq<Block>, k: nat, n: nat)
    requires k < |bs|
    ensures WholeCount(bs[k..], n) == if bs[k].off > n then 0 else 1 + WholeCount(bs[k + 1..], n - bs[k].off)
  {
    assert bs[k..][1..] == bs[k + 1..];
  }

  /** advance_last_with_data */
  method AdvanceLastWithData(buf: EvBuffer, ghost f: nat)
    requires buf.Linked() && f < |buf.chains| && buf.lastWithData == SlotAt(buf.chains, f)
    modifies buf`lastWithData
    ensures buf.lastWithData == SlotAt(buf.chains, AdvanceFrom(buf.blocks, f))
  {
    var lwd := buf.lastWithData;
    ghost var g := f;
    while buf.Deref(lwd).next != null && buf.Deref(lwd).next.block.off != 0
      invariant f <= g < |buf.chains| && lwd == SlotAt(buf.chains, g)
      invariant AdvanceFrom(buf.blocks, g) == AdvanceFrom(buf.blocks, f)
      decreases |buf.chains| - g
    {
      lwd := After(buf.Deref(lwd));
      g := g + 1;
    }
    buf.lastWithData := lwd;
  }

  /** Cuts the first `k` chains, holding `nread` bytes, off the list. */
  method Detach(src: EvBuffer, c: Chain, previous: Chain, nread: nat, lwd: Slot, ghost k: nat)
    returns (head: Chain)
    requires src.Valid() && 0 < k <= src.lw < |src.chains|
    requires c == src.chains[k] && previous == src.chains[k - 1] && nread == |Flat(src.blocks[..k])|
    requires lwd == SlotAt(src.chains[k..], src.lw - k)
    modifies src, previous`next
    ensures src.Valid() && src.chains == old(src.chains)[k..] && src.blocks == old(src.blocks)[k..]
    ensures src.lw == old(src.lw) - k && List(head, old(src.chains)[..k])
  {
    head := src.first;
    ghost var cs, bs := src.chains, src.blocks;
    DistinctPrefix(cs, k);
    assert cs[..k] + [] == cs[..k];
    src.SetSlot(After(previous), null, k, []);
    forall i | k <= i < |cs|
      ensures cs[i].next == ChainAt(cs, i + 1)
    {
      assert At(cs, k - 1, previous) && At(cs, i, cs[i]);
    }
    FinishDetach(src, c, previous, nread, lwd, k, cs);
  }

  lemma {:induction false} SuffixOk(cs: seq<Chain>, bs: seq<Block>, k: nat)
    requires k <= |cs| == |bs|
    requires forall i {:trigger cs[i].next} :: k <= i < |cs| ==> cs[i].next == ChainAt(cs, i + 1)
    requires forall i {:trigger cs[i].block} :: k <= i < |cs| ==> cs[i].block == bs[i]
    ensures List(ChainAt(cs, k), cs[k..])
    ensures forall i {:trigger cs[k..][i].block} :: 0 <= i < |cs[k..]| ==> cs[k..][i].block == bs[k..][i]
  {
    forall i | 0 <= i < |cs[k..]|
      ensures cs[k..][i].next == ChainAt(cs[k..], i + 1) && cs[k..][i].block == bs[k..][i]
    {
      assert cs[k..][i] == cs[k + i];
    }
  }

  /** The part of the cut that gives `src` its new first chain. */
  method FinishDetach(src: EvBuffer, c: Chain, previous: Chain, nread: nat, lwd: Slot,
                      ghost k: nat, ghost cs: seq<Chain>)
    requires 0 < k <= src.lw < |cs| == |src.blocks| && c == cs[k] && previous == cs[k - 1]
    requires Distinct(cs) && src.last == LastOf(cs) && LastWithDataAt(src.blocks, src.lw)
    requires forall i {:trigger cs[i].next} :: k <= i < |cs| ==> cs[i].next == ChainAt(cs, i + 1)
    requires forall i {:trigger cs[i].block} :: k <= i < |cs| ==> cs[i].block == src.blocks[i]
    requires src.totalLen == |Flat(src.blocks)| && nread == |Flat(src.blocks[..k])|
    requires lwd == SlotAt(cs[k..], src.lw - k)
    modifies src
    ensures src.Valid() && src.chains == cs[k..] && src.blocks == old(src.blocks)[k..]
    ensures src.lw == old(src.lw) - k
  {
    DistinctSuffix(cs, k);
    assert src.blocks == src.blocks[..k] + src.blocks[k..];
    FlatConcat(src.blocks[..k], src.blocks[k..]);
    SuffixOk(cs, src.blocks, k);
    src.Adopt(c, src.last, lwd, src.totalLen - nread, cs[k..], src.blocks[k..], src.lw - k);
  }

  /** What the blocks of `dst` are after `moved` follows its data. */
  ghost function Attached(dst: seq<Block>, lw: nat, moved: seq<Block>): seq<Block>
    requires LastWithDataAt(dst, lw)
  {
    dst[..CutAt(dst, lw)] + moved
  }

  /** The chain advance_last_with_data starts from: the last one with data, or the first moved. */
  ghost function AdvanceStart(dst: seq<Block>, lw: nat): nat
    requires LastWithDataAt(dst, lw)
  {
    if CutAt(dst, lw) == 0 then 0 else lw
  }

  lemma {:induction false} AttachAdvances(dst: seq<Block>, lw: nat, moved: seq<Block>)
    requires LastWithDataAt(dst, lw) && moved != []
    ensures AdvanceStart(dst, lw) < |Attached(dst, lw, moved)|
    ensures Flat(Attached(dst, lw, moved)) == Flat(dst) + Flat(moved)
    ensures LastWithDataAt(Attached(dst, lw, moved), AdvanceFrom(Attached(dst, lw, moved), AdvanceStart(dst, lw))) <==>
            NoGap(if Flat(dst) == [] then moved[1..] else moved)
  {
    var p, bs := CutAt(dst, lw), Attached(dst, lw, moved);
    CutKeepsBytes(dst, lw);
    FlatConcat(dst[..p], moved);
    AdvanceReachesLast(bs, AdvanceStart(dst, lw));
    if p == 0 {
      assert dst[..0] == [] && Flat(dst) == [];
      assert bs[1..] == moved[1..];
    } else {
      FlatAround(dst, lw);
      assert bs[lw + 1..] == moved;
    }
  }

  /** A slot before the cut is the same slot afterwards. */
  lemma {:induction false} SlotStable(cs: seq<Chain>, p: nat, tail: seq<Chain>, f: nat)
    requires f <= p <= |cs|
    ensures SlotAt(cs[..p] + tail, f) == SlotAt(cs, f)
  {
  }

  /** Puts the detached list `moved` behind the data of `dst`; last_with_datap stays where it is. */
  method Hook(dst: EvBuffer, head: Chain, newLast: Chain, nread: nat,
              ghost moved: seq<Chain>, ghost movedBlocks: seq<Block>)
    requires dst.Valid() && moved != [] && List(head, moved) && Distinct(moved) && newLast == LastOf(moved)
    requires (forall c :: c in moved ==> c !in dst.chains) && |movedBlocks| == |moved|
    requires forall i {:trigger moved[i].block} :: 0 <= i < |moved| ==> moved[i].block == movedBlocks[i]
    requires nread == |Flat(movedBlocks)|
    modifies dst`first, dst`last, dst`totalLen, dst`chains, dst`blocks, dst.chains`next
    ensures dst.Linked() && dst.last == LastOf(dst.chains) && dst.totalLen == |Flat(dst.blocks)|
    ensures AdvanceStart(old(dst.blocks), dst.lw) < |dst.chains|
    ensures dst.lastWithData == SlotAt(dst.chains, AdvanceStart(old(dst.blocks), dst.lw))
    ensures dst.chains == old(dst.chains[..CutAt(dst.blocks, dst.lw)]) + moved
    ensures dst.blocks == Attached(old(dst.blocks), old(dst.lw), movedBlocks)
  {
    hide AdvanceFrom, NoGap, Flat, ChainAt;
    ghost var p := CutAt(dst.blocks, dst.lw);
    AttachAdvances(dst.blocks, dst.lw, movedBlocks);
    SlotStable(dst.chains, p, moved, AdvanceStart(dst.blocks, dst.lw));
    DistinctPrefix(dst.chains, p);
    DistinctConcat(dst.chains[..p], moved);
    var chp := dst.FreeTrailingEmptyChains();
    forall i | 0 <= i < |moved|
      ensures moved[i].next == ChainAt(moved, i + 1)
    {
      assert moved[i] in moved;
    }
    assert dst.chains[..p] == dst.chains && dst.blocks[..p] == dst.blocks;
    dst.Link(chp, head, newLast, dst.totalLen + nread, p, moved, movedBlocks);
  }

  /**
   Puts the detached list `moved` behind the data of `dst`. The buffer ends up well formed exactly
   when no empty chain is left before data.
   */
  method AttachBack(dst: EvBuffer, head: Chain, newLast: Chain, nread: nat,
                    ghost moved: seq<Chain>, ghost movedBlocks: seq<Block>)
    requires dst.Valid() && moved != [] && List(head, moved) && Distinct(moved) && newLast == LastOf(moved)
    requires (forall c :: c in moved ==> c !in dst.chains) && |movedBlocks| == |moved|
    requires forall i {:trigger moved[i].block} :: 0 <= i < |moved| ==> moved[i].block == movedBlocks[i]
    requires nread == |Flat(movedBlocks)|
    modifies dst, dst.chains`next
    ensures dst.chains == old(dst.chains[..CutAt(dst.blocks, dst.lw)]) + moved
    ensures dst.Contents() == old(dst.Contents()) + Flat(movedBlocks) && Hooked(dst)
    ensures dst.Valid() <==> NoGap(if old(dst.Contents()) == [] then movedBlocks[1..] else movedBlocks)
  {
    hide AdvanceFrom, NoGap, Flat, LastWithDataAt;
    ghost var f := AdvanceStart(dst.blocks, dst.lw);
    AttachAdvances(dst.blocks, dst.lw, movedBlocks);
    ghost var ok := NoGap(if Flat(dst.blocks) == [] then movedBlocks[1..] else movedBlocks);
    Hook(dst, head, newLast, nread, moved, movedBlocks);
    AdvanceLastWithData(dst, f);
    dst.lw := AdvanceFrom(dst.blocks, f);
    assert LastWithDataAt(dst.blocks, dst.lw) == ok;
  }

  lemma {:induction false} EmptyWhenFlat(bs: seq<Block>)
    requires Flat(bs) == []
    ensures AllEmpty(bs)
  {
    if bs != [] {
      EmptyWhenFlat(bs[1..]);
      assert forall i :: 0 < i < |bs| ==> bs[i] == bs[1..][i - 1];
    }
  }

  /** Moves the first `k` chains, which hold `nread` bytes. */
  method MoveSome(src: EvBuffer, dst: EvBuffer, c: Chain, previous: Chain, nread: nat, lwd: Slot, ghost k: nat)
    requires src.Valid() && dst.Valid() && Apart(dst, src) && 0 < k <= src.lw < |src.chains|
    requires c == src.chains[k] && previous == src.chains[k - 1] && nread == |Flat(src.blocks[..k])|
    requires lwd == SlotAt(src.chains[k..], src.lw - k)
    modifies src, dst, src.chains`next, dst.chains`next
    ensures Apart(dst, src)
    ensures forall i :: 0 <= i < |dst.chains| ==> dst.chains[i] in old(dst.chains) || dst.chains[i] in old(src.chains)
    ensures src.Valid() && src.chains == old(src.chains)[k..] && src.blocks == old(src.blocks)[k..]
    ensures dst.chains == old(dst.chains[..CutAt(dst.blocks, dst.lw)]) + old(src.chains)[..k]
    ensures dst.Contents() == old(dst.Contents()) + Flat(old(src.blocks)[..k]) && Hooked(dst)
    ensures dst.Valid() <==>
              NoGap(if old(dst.Contents()) == [] then old(src.blocks)[..k][1..] else old(src.blocks)[..k])
  {
    hide Flat;
    ghost var moved, movedBlocks := src.chains[..k], src.blocks[..k];
    DistinctPrefix(src.chains, k);
    MoveKeepsDisjoint(dst.chains, CutAt(dst.blocks, dst.lw), src.chains, k);
    assert previous in src.chains;
    var head := Detach(src, c, previous, nread, lwd, k);
    AttachBack(dst, head, previous, nread, moved, movedBlocks);
    forall i | 0 <= i < |src.chains|
      ensures src.chains[i].next == ChainAt(src.chains, i + 1)
    {
      assert src.chains[i] in src.chains;
    }
  }

  /**
   When the chains skipped are all empty none moves, but last_with_datap may have been reset to
   the address of `first` although `first` stays where it is.
   */
  method MoveNone(src: EvBuffer, lwd: Slot, ghost k: nat)
    requires src.Valid() && k <= src.lw < |src.chains| && src.blocks[k].off > 0 && Flat(src.blocks[..k]) == []
    requires lwd == SlotAt(src.chains[k..], src.lw - k)
    modifies src`lastWithData, src`lw
    ensures Hooked(src) && AllEmpty(src.blocks[..k])
    ensures src.Valid() <==> old(src.lw) == 0 || k < old(src.lw)
  {
    EmptyWhenFlat(src.blocks[..k]);
    src.lastWithData := lwd;
    src.lw := if k == src.lw then 0 else src.lw;
  }

  /**
   The part of evbuffer_remove_buffer that moves whole chains, with `src->total_len` brought up to
   date at once. Both buffers are well formed at this point exactly when `CanSplit` holds before.
   */
  method MoveWhole(src: EvBuffer, dst: EvBuffer, datlen: nat)
    returns (c: Chain, nread: nat, left: nat, ghost j: nat)
    requires src.Valid() && dst.Valid() && Apart(dst, src) && 0 < datlen < src.totalLen
    modifies src, dst, src.chains`next, dst.chains`next
    ensures (src.Valid() && dst.Valid()) <==> old(CanSplit(src.blocks, src.lw, dst.blocks, datlen))
    ensures (src.Valid() || Hooked(src)) && (dst.Valid() || Hooked(dst))
    ensures src.Linked() && j < |src.chains| && c == src.chains[j] && left < c.block.off
    ensures datlen == nread + left && nread <= old(src.totalLen) && src.totalLen == |src.Contents()|
    ensures src.Contents() == old(src.Contents())[nread..] && AllEmpty(src.blocks[..j])
    ensures dst.Contents() == old(dst.Contents()) + old(src.Contents())[..nread]
    ensures Apart(dst, src) && c in old(src.chains)
    ensures forall i :: 0 <= i < |dst.chains| ==> dst.chains[i] in old(dst.chains) || dst.chains[i] in old(src.chains)
    ensures forall i :: 0 <= i < |src.chains| ==> src.chains[i] in old(src.chains)
  {
    hide Flat, LastWithDataAt, Distinct, LastOf, WholeCount;
    var previous, lwd;
    ghost var k;
    c, previous, nread, left, lwd, k := TakeWhole(src, datlen);
    ghost var ok := CanSplit(src.blocks, src.lw, dst.blocks, datlen);
    SplitRule(src.blocks, src.lw, dst.blocks, datlen);
    SplitContents(src.blocks, k);
    assert c in src.chains;
    if nread > 0 {
      MoveSome(src, dst, c, previous, nread, lwd, k);
      j := 0;
      assert dst.Valid() == ok;
    } else {
      MoveNone(src, lwd, k);
      j := k;
      assert src.Valid() == ok;
    }
  }

  lemma {:induction false} SplitRule(src: seq<Block>, lw: nat, dst: seq<Block>, n: nat)
    requires LastWithDataAt(src, lw)
    ensures var moved := src[..WholeCount(src, n)];
            CanSplit(src, lw, dst, n) ==
            if Flat(moved) == [] then lw == 0 || |moved| < lw
            else NoGap(if Flat(dst) == [] then moved[1..] else moved)
  {
    var k := WholeCount(src, n);
    if k > 0 {
      assert src[1..k] == src[..k][1..];
    }
  }

  lemma {:induction false} SplitContents(bs: seq<Block>, k: nat)
    requires k <= |bs|
    ensures |Flat(bs[..k])| <= |Flat(bs)|
    ensures Flat(bs[..k]) == Flat(bs)[..|Flat(bs[..k])|] && Flat(bs[k..]) == Flat(bs)[|Flat(bs[..k])|..]
  {
    assert bs == bs[..k] + bs[k..];
    FlatConcat(bs[..k], bs[k..]);
  }

  /** Dropping bytes from a block that only empty blocks precede. */
  lemma {:induction false} DropLeading(bs: seq<Block>, lw: nat, j: nat, n: nat)
    requires LastWithDataAt(bs, lw) && j < |bs| && n < bs[j].off && AllEmpty(bs[..j])
    ensures LastWithDataAt(bs[j := Advance(bs[j], n)], lw)
    ensures n <= |Flat(bs)| && Flat(bs[j := Advance(bs[j], n)]) == Flat(bs)[n..]
    ensures Data(bs[j])[..n] == Flat(bs)[..n]
  {
    FlatOfEmpty(bs[..j]);
    FlatAround(bs, j);
    FlatUpdate(bs, j, Advance(bs[j], n));
  }

  /**
   evbuffer_remove_buffer. The lengths of the two buffers together are assumed to fit a size_t, as
   they do when both are in memory. It comes to its end, without a failed assertion and with both
   buffers well formed, exactly when `CanSplit` holds before; then the bytes are where they belong.
   */
  method RemoveBuffer(src: EvBuffer, dst: EvBuffer, datlen: nat) returns (n: nat, failed: bool)
    requires src.Valid() && dst.Valid() && (src == dst || Apart(dst, src))
    requires src.totalLen + dst.totalLen <= SIZE_MAX
    modifies src, dst, src.chains, dst.chains
    ensures (!failed && src.Valid() && dst.Valid()) <==>
            (src != dst && 0 < datlen < old(src.totalLen) ==> old(CanSplit(src.blocks, src.lw, dst.blocks, datlen)))
    ensures !failed && src.Valid() && dst.Valid() ==>
      && (src == dst || Apart(dst, src))
      && n == (if src == dst then 0 else if datlen < old(src.totalLen) then datlen else old(src.totalLen))
      && src.Contents() == old(src.Contents())[n..]
      && dst.Contents() == old(dst.Contents()) + old(src.Contents())[..n]
    ensures Owned(src, dst, old(src.chains), old(dst.chains))
  {
    failed := false;
    if datlen == 0 || dst == src {
      return 0, false;
    }
    if datlen >= src.totalLen {
      n := src.totalLen;
      AddBuffer(dst, src);
      return;
    }
    failed := RemovePart(src, dst, datlen);
    n := datlen;
  }

  /** Every chain of the two buffers was in one of them before, or is new. */
  twostate predicate Owned(src: EvBuffer, dst: EvBuffer, srcChains: seq<Chain>, dstChains: seq<Chain>)
    reads src, dst
  {
    && (forall i :: 0 <= i < |src.chains| ==> src.chains[i] in srcChains)
    && (forall i :: 0 <= i < |dst.chains| ==>
          dst.chains[i] in dstChains || dst.chains[i] in srcChains || fresh(dst.chains[i]))
  }

  /** evbuffer_remove_buffer when `src` holds more than is wanted. */
  method RemovePart(src: EvBuffer, dst: EvBuffer, datlen: nat) returns (failed: bool)
    requires src.Valid() && dst.Valid() && Apart(dst, src) && 0 < datlen < src.totalLen
    requires src.totalLen + dst.totalLen <= SIZE_MAX
    modifies src, dst, src.chains, dst.chains
    ensures (!failed && src.Valid() && dst.Valid()) <==> old(CanSplit(src.blocks, src.lw, dst.blocks, datlen))
    ensures !failed && src.Valid() && dst.Valid() ==>
      && Apart(dst, src)
      && src.Contents() == old(src.Contents())[datlen..]
      && dst.Contents() == old(dst.Contents()) + old(src.Contents())[..datlen]
    ensures Owned(src, dst, old(src.chains), old(dst.chains))
  {
    hide Flat, CanSplit;
    var c, nread, left, j := MoveWhole(src, dst, datlen);
    TakeTwice(old(dst.Contents()), old(src.Contents()), nread, left);
    failed := FinishRemove(src, dst, c, left, j);
  }

  lemma {:induction false} TakeTwice(a: seq<byte>, s: seq<byte>, n: nat, m: nat)
    requires n + m <= |s|
    ensures a + s[..n] + s[n..][..m] == a + s[..n + m] && s[n..][m..] == s[n + m..]
  {
  }

  /** The end of evbuffer_remove_buffer: copies the front of the next chain. What was broken stays broken. */
  method FinishRemove(src: EvBuffer, dst: EvBuffer, c: Chain, left: nat, ghost j: nat) returns (failed: bool)
    requires (src.Valid() || Hooked(src)) && (dst.Valid() || Hooked(dst)) && Apart(dst, src)
    requires src.totalLen + dst.totalLen <= SIZE_MAX
    requires j < |src.chains| && c == src.chains[j] && left < c.block.off && AllEmpty(src.blocks[..j])
    modifies src, dst, c, dst.chains
    ensures (!failed && src.Valid() && dst.Valid()) <==> old(src.Valid() && dst.Valid())
    ensures src.chains == old(src.chains)
    ensures forall i :: 0 <= i < |dst.chains| ==> dst.chains[i] in old(dst.chains) || fresh(dst.chains[i])
    ensures !failed && src.Valid() && dst.Valid() ==>
      && Apart(dst, src) && left <= |old(src.Contents())| && src.Contents() == old(src.Contents())[left..]
      && dst.Contents() == old(dst.Contents()) + old(src.Contents())[..left]
  {
    hide Flat;
    ghost var srcOk, bs := src.Valid(), src.blocks;
    if srcOk {
      DropLeading(src.blocks, src.lw, j, left);
    }
    SameEmptiness(bs, src.lw, j, Advance(c.block, left));
    FrontSize(src.blocks, j);
    failed := AddAny(dst, Data(c.block)[..left]);
    if failed {
      return;
    }
    src.StoreBlock(c, Advance(c.block, left), j);
    src.totalLen := src.totalLen - left;
  }

  /** A block that keeps some data does not change which block is the last with data. */
  lemma {:induction false} SameEmptiness(bs: seq<Block>, lw: nat, j: nat, b: Block)
    requires j < |bs| && bs[j].off > 0 && b.off > 0
    ensures LastWithDataAt(bs[j := b], lw) <==> LastWithDataAt(bs, lw)
  {
    var cs := bs[j := b];
    assert forall i :: 0 <= i < |bs| ==> (cs[i].off > 0 <==> bs[i].off > 0);
  }

  lemma {:induction false} FrontSize(bs: seq<Block>, j: nat)
    requires j < |bs|
    ensures bs[j].off <= |Flat(bs)|
  {
    FlatAround(bs, j);
  }

  /** evbuffer_chains_all_empty, asked of what follows the chain that last_with_datap leads to */
  method NothingBehind(buf: EvBuffer) returns (ok: bool)
    requires buf.Valid() || Hooked(buf)
    ensures ok <==> buf.Valid()
  {
    var c := buf.Deref(buf.lastWithData);
    if c == null {
      return true;
    }
    ghost var k := buf.lw + 1;
    assert buf.chains[buf.lw].next == ChainAt(buf.chains, k);
    c := c.next;
    while c != null
      invariant buf.lw < k <= |buf.chains| && c == ChainAt(buf.chains, k)
      invariant forall i :: buf.lw < i < k ==> buf.blocks[i].off == 0
      decreases |buf.chains| - k
    {
      if c.block.off != 0 {
        return false;
      }
      assert buf.chains[k].next == ChainAt(buf.chains, k + 1);
      c, k := c.next, k + 1;
    }
    ok := true;
  }

  /**
   evbuffer_add on a buffer that may have data behind the chain that last_with_datap leads to. The
   bytes then go in front of that data, or a new chain is needed, and the assertion of
   evbuffer_free_trailing_empty_chains fails. It does not become well formed again.
   */
  method AddAny(buf: EvBuffer, data: seq<byte>) returns (failed: bool)
    requires (buf.Valid() || Hooked(buf)) && |data| <= SIZE_MAX - buf.totalLen && |data| <= MAX_CHAIN_BYTES
    modifies buf, buf.chains
    ensures (!failed && buf.Valid()) <==> old(buf.Valid())
    ensures forall i :: 0 <= i < |buf.chains| ==> buf.chains[i] in old(buf.chains) || fresh(buf.chains[i])
    ensures !failed && buf.Valid() ==> buf.Contents() == old(buf.Contents()) + data
    ensures failed <==> !old(buf.Valid()) && !TakesMore(old(buf.blocks[buf.lw]), |data|)
    ensures failed ==> unchanged(buf) && unchanged(old(buf.chains))
    ensures !failed && !buf.Valid() ==>
      && Hooked(buf)
      && Flat(buf.blocks) == old(Flat(buf.blocks[..buf.lw + 1])) + data + old(Flat(buf.blocks[buf.lw + 1..]))
  {
    hide Flat, Data, Align;
    var ok := NothingBehind(buf);
    if ok {
      var _ := buf.Add(data);
      return false;
    }
    var c := buf.Deref(buf.lastWithData);
    assert c == buf.chains[buf.lw];
    if TakesMore(c.block, |data|) {
      var b := Append(if SpaceLen(c.block) >= |data| then c.block else Align(c.block), data);
      StillBehind(buf.blocks, buf.lw, b);
      MoreInside(buf.blocks, buf.lw, b, data);
      buf.StoreBlock(c, b, buf.lw);
      buf.totalLen := buf.totalLen + |data|;
      return false;
    }
    failed := true;
  }

  /** There is room for `n` bytes behind the data of the block, once it is moved to the front if need be. */
  predicate TakesMore(b: Block, n: nat) {
    SpaceLen(b) >= n || ShouldRealign(b, n)
  }

  lemma {:induction false} MoreInside(bs: seq<Block>, k: nat, b: Block, data: seq<byte>)
    requires k < |bs| && Data(b) == Data(bs[k]) + data
    ensures Flat(bs[k := b]) == Flat(bs[..k + 1]) + data + Flat(bs[k + 1..])
    ensures |Flat(bs[k := b])| == |Flat(bs)| + |data|
  {
    hide Flat;
    FlatUpdate(bs, k, b);
    FlatAround(bs, k);
    FlatSnoc(bs[..k], bs[k]);
    assert bs[..k] + [bs[k]] == bs[..k + 1];
  }

  lemma {:induction false} StillBehind(bs: seq<Block>, lw: nat, b: Block)
    requires lw < |bs| && !LastWithDataAt(bs, lw) && (lw > 0 ==> bs[lw].off > 0)
    ensures !LastWithDataAt(bs[lw := b], lw)
  {
    var i :| lw < i < |bs| && bs[i].off != 0;
    assert bs[lw := b][i] == bs[i];
  }

  // ---------- when evbuffer_remove_buffer is safe, and when it is not ----------

  lemma {:induction false} NoGapAllData(bs: seq<Block>)
    requires forall i :: 0 <= i < |bs| ==> bs[i].off > 0
    ensures NoGap(bs)
  {
    if bs != [] {
      NoGapAllData(bs[1..]);
    }
  }

  lemma {:induction false} WholeCountBefore(bs: seq<Block>, lw: nat, n: nat)
    requires LastWithDataAt(bs, lw) && n < |Flat(bs)|
    ensures WholeCount(bs, n) <= lw
  {
    if lw == 0 {
      FlatAround(bs, 0);
      FlatOfEmpty(bs[1..]);
    } else if bs[0].off <= n {
      WholeCountBefore(bs[1..], lw - 1, n - bs[0].off);
    }
  }

  /** Without empty chains before the last one with data, any number of bytes can be split off. */
  lemma {:induction false} SplitsWithoutEmpty(src: seq<Block>, lw: nat, dst: seq<Block>, n: nat)
    requires LastWithDataAt(src, lw) && n < |Flat(src)| && forall i :: 0 <= i < lw ==> src[i].off > 0
    ensures CanSplit(src, lw, dst, n)
  {
    var k := WholeCount(src, n);
    WholeCountBefore(src, lw, n);
    NoGapAllData(src[..k]);
    if k > 0 {
      NoGapAllData(src[1..k]);
      FlatAround(src[..k], 0);
    }
  }

  /** Taking two bytes of the five that stand behind an empty first chain breaks the source buffer. */
  lemma {:induction false} EmptyFirstChainBreaks(src: seq<Block>, dst: seq<Block>)
    requires |src| == 2 && src[0].off == 0 && src[1].off == 5
    ensures LastWithDataAt(src, 1) && !CanSplit(src, 1, dst, 2)
  {
    assert src[1..] == [src[1]] && WholeCount(src[1..], 2) == 0;
    assert WholeCount(src, 2) == 1;
    assert src[..1] == [src[0]];
    FlatOfEmpty(src[..1]);
  }
}
