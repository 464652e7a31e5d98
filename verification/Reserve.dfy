/**
 Reserving space at the end of a buffer for the caller to write to, and committing it.
 */
module Reserves {
  import opened Chains
  import opened EvBuffers

  /** struct evbuffer_iovec: `len` bytes of memory from offset `at` of the memory of a chain. */
  datatype Vec = Vec(chain: Chain, at: nat, len: nat)

  /** CHAIN_SPACE_LEN once the data of an empty chain is moved to its front. */
  function Room(b: Block): nat {
    if b.off == 0 then |b.buffer| else SpaceLen(b)
  }

  function ResetEmpty(b: Block): (r: Block)
    ensures Data(r) == Data(b) && SpaceLen(r) == Room(b) && r.buffer == b.buffer
  {
    if b.off == 0 then Block(b.buffer, 0, 0) else b
  }

  /** The space of the blocks from index `f` up to, but not including, index `k`. */
  function SpaceSum(bs: seq<Block>, f: nat, k: nat): nat
    requires k <= |bs|
  {
    if k <= f then 0 else SpaceSum(bs, f, k - 1) + SpaceLen(bs[k - 1])
  }

  /** The index of the first chain with any space in it; the number of chains if there is none. */
  ghost function FirstWithSpace(bs: seq<Block>, lw: nat): nat
    requires lw < |bs|
  {
    if SpaceLen(bs[lw]) == 0 then lw + 1 else lw
  }

  lemma {:induction false} SameData(bs: seq<Block>, lw: nat, k: nat, b: Block)
    requires LastWithDataAt(bs, lw) && k < |bs| && Data(b) == Data(bs[k])
    ensures LastWithDataAt(bs[k := b], lw) && Flat(bs[k := b]) == Flat(bs)
  {
    FlatUpdate(bs, k, b);
    FlatAround(bs, k);
  }

  /** `bs` with the empty blocks among the first `k` reset; nothing else differs. */
  ghost predicate ResetUpTo(bs: seq<Block>, orig: seq<Block>, k: nat)
    requires |bs| == |orig|
  {
    forall i :: 0 <= i < |bs| ==> bs[i] == orig[i] || (i < k && bs[i] == ResetEmpty(orig[i]))
  }

  lemma {:induction false} SpaceSumSame(bs: seq<Block>, cs: seq<Block>, f: nat, k: nat)
    requires k <= |bs| && k <= |cs| && (forall i :: f <= i < k ==> bs[i] == cs[i])
    ensures SpaceSum(bs, f, k) == SpaceSum(cs, f, k)
  {
    if f < k {
      SpaceSumSame(bs, cs, f, k - 1);
    }
  }

  /** What the chains from the last one with data up to index `k` offer, and how many of them. */
  ghost predicate Scanned(bs: seq<Block>, lw: nat, k: nat, avail: nat, used: nat) {
    && lw <= k <= |bs| && lw < |bs|
    && if k == lw then used == avail == 0
       else && used == k - FirstWithSpace(bs, lw)
            && avail == SpaceSum(bs, FirstWithSpace(bs, lw), k)
  }

  lemma {:induction false} ScanStep(bs: seq<Block>, lw: nat, k: nat, avail: nat, used: nat, b: Block)
    requires Scanned(bs, lw, k, avail, used) && k < |bs| && (k > lw ==> SpaceLen(b) > 0)
    ensures Scanned(bs[k := b], lw, k + 1, avail + SpaceLen(b), if SpaceLen(b) > 0 then used + 1 else used)
  {
    var cs := bs[k := b];
    var f := FirstWithSpace(cs, lw);
    SpaceSumSame(cs, bs, f, k);
  }

  /** One turn of the loop of evbuffer_expand_fast_: an empty chain is reset, its space counted. */
  method LookAt(buf: EvBuffer, c: Chain, avail: nat, used: nat, ghost k: nat, ghost orig: seq<Block>)
    returns (avail': nat, used': nat)
    requires buf.Valid() && k < |buf.chains| && c == buf.chains[k]
    requires Scanned(buf.blocks, buf.lw, k, avail, used)
    requires |orig| == |buf.blocks| && ResetUpTo(buf.blocks, orig, k)
    modifies buf`blocks, buf`totalLen, c`block
    ensures buf.Valid() && buf.Contents() == old(buf.Contents())
    ensures Scanned(buf.blocks, buf.lw, k + 1, avail', used') && used' <= used + 1
    ensures |orig| == |buf.blocks| && ResetUpTo(buf.blocks, orig, k + 1)
  {
    ScanStep(buf.blocks, buf.lw, k, avail, used, ResetEmpty(c.block));
    if c.block.off == 0 {
      SameData(buf.blocks, buf.lw, k, ResetEmpty(c.block));
      buf.Rewrite(c, ResetEmpty(c.block), buf.totalLen, k);
    }
    var space := SpaceLen(c.block);
    avail', used' := avail + space, if space > 0 then used + 1 else used;
  }

  /**
   The loop of evbuffer_expand_fast_: how much can be put at the end of the buffer as it is, in at
   most `n` chains. Empty chains it looks at are reset.
   */
  method ScanSpace(buf: EvBuffer, datlen: nat, n: nat) returns (avail: nat, used: nat, ghost k: nat)
    requires buf.Valid() && buf.chains != [] && n >= 2
    modifies buf`blocks, buf`totalLen, buf.chains`block
    ensures buf.Valid() && ResetUpTo(buf.blocks, old(buf.blocks), k) && buf.Contents() == old(buf.Contents())
    ensures buf.lw < k && Scanned(buf.blocks, buf.lw, k, avail, used) && used <= n
    ensures avail < datlen ==> used == n || k == |buf.chains|
  {
    hide SpaceSum;
    avail, used, k := 0, 0, buf.lw;
    var c := buf.Deref(buf.lastWithData);
    while c != null
      invariant buf.Valid() && Scanned(buf.blocks, buf.lw, k, avail, used) && c == ChainAt(buf.chains, k)
      invariant ResetUpTo(buf.blocks, old(buf.blocks), k) && buf.Contents() == old(buf.Contents())
      invariant used < n && (k > buf.lw ==> avail < datlen)
      decreases |buf.chains| - k
    {
      assert c.next == ChainAt(buf.chains, k + 1);
      avail, used := LookAt(buf, c, avail, used, k, old(buf.blocks));
      k := k + 1;
      if avail >= datlen || used == n {
        return;
      }
      c := c.next;
    }
  }

  /**
    The chains are still there, with as much data and memory, and at most one empty chain for `size`
    bytes follows them.
   */
  ghost predicate Extends(cs0: seq<Chain>, bs0: seq<Block>, cs: seq<Chain>, bs: seq<Block>, size: nat) {
    && |cs0| == |bs0| <= |bs| == |cs| <= |cs0| + 1 && cs[..|cs0|] == cs0
    && (forall i :: 0 <= i < |bs0| ==> bs[i].off == bs0[i].off && |bs[i].buffer| == |bs0[i].buffer|)
    && (|cs0| < |cs| ==> bs[|bs0|].off == 0 && |bs[|bs0|].buffer| <= 2 * size + MIN_BUFFER_SIZE)
  }

  /** Every chain with data is where it was, with its bytes at the same place in memory. */
  ghost predicate Kept(cs0: seq<Chain>, bs0: seq<Block>, cs: seq<Chain>, bs: seq<Block>)
    requires |cs0| == |bs0| && |cs| == |bs|
  {
    forall i :: 0 <= i < |bs0| && bs0[i].off > 0 ==> i < |bs| && cs[i] == cs0[i] && bs[i] == bs0[i]
  }

  /** The first `count` chains with space, starting from the first one that has any, hold `size` bytes. */
  ghost predicate Offers(bs: seq<Block>, lw: nat, size: nat, count: nat) {
    && lw < |bs| && FirstWithSpace(bs, lw) + count <= |bs|
    && SpaceSum(bs, FirstWithSpace(bs, lw), FirstWithSpace(bs, lw) + count) >= size
  }

  lemma {:induction false} OneMore(bs: seq<Block>, lw: nat, avail: nat, used: nat, b: Block, size: nat)
    requires Scanned(bs, lw, |bs|, avail, used) && avail + SpaceLen(b) >= size && SpaceLen(b) > 0
    ensures Offers(bs + [b], lw, size, used + 1)
  {
    var f, cs := FirstWithSpace(bs, lw), bs + [b];
    assert cs[lw] == bs[lw];
    SpaceSumSame(cs, bs, f, |bs|);
  }

  /** evbuffer_expand_fast_ when the buffer has fewer than the allowed number of chains to offer. */
  method AppendEmpty(buf: EvBuffer, tmp: Chain, size: nat, avail: nat, used: nat)
    requires buf.Valid() && Scanned(buf.blocks, buf.lw, |buf.chains|, avail, used)
    requires tmp !in buf.chains && tmp.next == null && tmp.block.off == 0 && tmp.block.misalign == 0
    requires avail + |tmp.block.buffer| >= size
    modifies buf, buf.chains`next
    ensures buf.Valid() && buf.Contents() == old(buf.Contents())
    ensures buf.chains == old(buf.chains) + [tmp] && buf.blocks == old(buf.blocks) + [tmp.block]
    ensures buf.lw == old(buf.lw) && Offers(buf.blocks, buf.lw, size, used + 1)
  {
    ghost var n := |buf.chains|;
    OneMore(buf.blocks, buf.lw, avail, used, tmp.block, size);
    DistinctConcat(buf.chains, [tmp]);
    FlatSnoc(buf.blocks, tmp.block);
    assert buf.chains[..n] == buf.chains && buf.blocks[..n] == buf.blocks;
    buf.Relink(After(buf.last), tmp, tmp, buf.lastWithData, buf.totalLen, n, [tmp], [tmp.block], buf.lw);
  }

  /** evbuffer_expand_fast_ when it replaces all the empty chains at the end by `tmp`, or by nothing. */
  method ReplaceEmpty(buf: EvBuffer, tmp: Chain?, size: nat)
    requires buf.Valid() && buf.chains != []
    requires tmp != null ==> tmp !in buf.chains && tmp.next == null && tmp.block.off == 0 && tmp.block.misalign == 0
    modifies buf, buf.chains`next
    ensures buf.Valid() && buf.Contents() == old(buf.Contents())
    ensures buf.chains == old(buf.chains[..CutAt(buf.blocks, buf.lw)]) + if tmp == null then [] else [tmp]
    ensures buf.blocks == old(buf.blocks[..CutAt(buf.blocks, buf.lw)]) + if tmp == null then [] else [tmp.block]
    ensures buf.lw == old(buf.lw)
  {
    ghost var p := CutAt(buf.blocks, buf.lw);
    ghost var tail, tailBlocks := if tmp == null then [] else [tmp], if tmp == null then [] else [tmp.block];
    CutKeepsBytes(buf.blocks, buf.lw);
    FlatConcat(buf.blocks[..p], tailBlocks);
    FlatOfEmpty(tailBlocks);
    DistinctPrefix(buf.chains, p);
    DistinctConcat(buf.chains[..p], tail);
    var c := buf.Deref(buf.lastWithData);
    var s := if c.block.off == 0 then Head else After(c);
    var last := if tmp == null && c.block.off != 0 then c else tmp;
    buf.Relink(s, tmp, last, buf.lastWithData, buf.totalLen, p, tail, tailBlocks, buf.lw);
  }

  /** evbuffer_expand_fast_; `count` chains, at most `n`, have the space asked for. */
  method ExpandFast(buf: EvBuffer, datlen: nat, n: nat) returns (r: int, ghost count: nat)
    requires buf.Valid() && n >= 2
    modifies buf, buf.chains
    ensures buf.Valid() && buf.Contents() == old(buf.Contents())
    ensures forall i :: 0 <= i < |buf.chains| ==> buf.chains[i] in old(buf.chains) || fresh(buf.chains[i])
    ensures r == 0 || r == -1
    ensures datlen <= MAX_CHAIN_BYTES ==> r == 0
    ensures r == 0 ==> count <= n && Offers(buf.blocks, buf.lw, datlen, count)
    ensures Kept(old(buf.chains), old(buf.blocks), buf.chains, buf.blocks)
    ensures r == 0 && |old(buf.chains)| - old(buf.lw) < n ==>
      buf.lw == old(buf.lw) && Extends(old(buf.chains), old(buf.blocks), buf.chains, buf.blocks, datlen)
  {
    if buf.last == null {
      var chain := NewChain(datlen);
      if chain == null {
        return -1, 0;
      }
      buf.ChainInsert(chain);
      assert SpaceSum(buf.blocks, 0, 1) == SpaceSum(buf.blocks, 0, 0) + SpaceLen(buf.blocks[0]);
      r, count := 0, 1;
    } else {
      r, count := ExpandSome(buf, datlen, n);
    }
  }

  /** evbuffer_expand_fast_ for a buffer that has chains. */
  method ExpandSome(buf: EvBuffer, datlen: nat, n: nat) returns (r: int, ghost count: nat)
    requires buf.Valid() && n >= 2 && buf.chains != []
    modifies buf, buf.chains
    ensures buf.Valid() && buf.Contents() == old(buf.Contents())
    ensures forall i :: 0 <= i < |buf.chains| ==> buf.chains[i] in old(buf.chains) || fresh(buf.chains[i])
    ensures r == 0 || r == -1
    ensures datlen <= MAX_CHAIN_BYTES ==> r == 0
    ensures r == 0 ==> count <= n && Offers(buf.blocks, buf.lw, datlen, count)
    ensures Kept(old(buf.chains), old(buf.blocks), buf.chains, buf.blocks)
    ensures r == 0 && |old(buf.chains)| - old(buf.lw) < n ==>
      buf.lw == old(buf.lw) && Extends(old(buf.chains), old(buf.blocks), buf.chains, buf.blocks, datlen)
  {
    hide SpaceSum, Flat, At, ChainAt, Distinct, LastOf, LastWithDataAt, SpaceLen, SlotAt, List;
    var avail, used, k := ScanSpace(buf, datlen, n);
    ResetExtends(old(buf.chains), old(buf.blocks), buf.blocks, k, datlen);
    UsedUpTo(buf.blocks, buf.lw, k, avail, used);
    hide Extends, Scanned, ResetUpTo;
    if avail >= datlen {
      r, count := 0, used;
    } else if used < n {
      var tmp := NewChain(datlen - avail);
      if tmp == null {
        return -1, 0;
      }
      ExtendsMore(old(buf.chains), old(buf.blocks), buf.chains, buf.blocks, tmp, tmp.block, datlen);
      AppendEmpty(buf, tmp, datlen, avail, used);
      r, count := 0, used + 1;
    } else {
      CoversLast(buf.blocks, buf.lw, k, avail, used);
      r, count := Replace(buf, datlen);
    }
  }

  lemma {:induction false} ResetExtends(cs: seq<Chain>, orig: seq<Block>, bs: seq<Block>, k: nat, size: nat)
    requires |cs| == |orig| == |bs| && ResetUpTo(bs, orig, k)
    ensures Extends(cs, orig, cs, bs, size) && Kept(cs, orig, cs, bs)
  {
    assert cs[..|cs|] == cs;
  }

  lemma {:induction false} ExtendsMore(
      cs0: seq<Chain>, bs0: seq<Block>, cs: seq<Chain>, bs: seq<Block>, c: Chain, b: Block, size: nat)
    requires Extends(cs0, bs0, cs, bs, size) && |cs| == |cs0| && Kept(cs0, bs0, cs, bs)
    requires b.off == 0 && |b.buffer| <= 2 * size + MIN_BUFFER_SIZE
    ensures Extends(cs0, bs0, cs + [c], bs + [b], size) && Kept(cs0, bs0, cs + [c], bs + [b])
  {
    assert (cs + [c])[..|cs0|] == cs[..|cs0|];
  }

  lemma {:induction false} UsedUpTo(bs: seq<Block>, lw: nat, k: nat, avail: nat, used: nat)
    requires Scanned(bs, lw, k, avail, used)
    ensures used <= k - lw <= |bs| - lw
    ensures lw < k ==> Offers(bs, lw, avail, used)
  {
  }

  lemma {:induction false} CoversLast(bs: seq<Block>, lw: nat, k: nat, avail: nat, used: nat)
    requires Scanned(bs, lw, k, avail, used) && lw < k
    ensures SpaceLen(bs[lw]) <= avail
  {
    if SpaceLen(bs[lw]) > 0 {
      if lw + 1 < k {
        CoversLast(bs, lw, k - 1, SpaceSum(bs, lw, k - 1), k - 1 - lw);
      }
    }
  }

  /** The last part of evbuffer_expand_fast_: one new chain instead of all the empty ones. */
  method Replace(buf: EvBuffer, datlen: nat) returns (r: int, ghost count: nat)
    requires buf.Valid() && buf.chains != [] && SpaceLen(buf.blocks[buf.lw]) < datlen
    modifies buf, buf.chains`next
    ensures buf.Valid() && buf.Contents() == old(buf.Contents())
    ensures forall i :: 0 <= i < |buf.chains| ==> buf.chains[i] in old(buf.chains) || fresh(buf.chains[i])
    ensures r == 0 || r == -1
    ensures datlen <= MAX_CHAIN_BYTES ==> r == 0
    ensures r == 0 ==> count <= 2 && Offers(buf.blocks, buf.lw, datlen, count)
    ensures Kept(old(buf.chains), old(buf.blocks), buf.chains, buf.blocks)
  {
    hide Flat, Distinct, LastOf;
    var chain := buf.Deref(buf.lastWithData);
    var avail := if chain.block.off == 0 then 0 else SpaceLen(chain.block);
    var tmp := NewChain(datlen - avail);
    ReplaceEmpty(buf, tmp, datlen);
    if tmp == null {
      return -1, 0;
    }
    r, count := 0, if avail == 0 then 1 else 2;
    NewSpace(buf.blocks, buf.lw, datlen, count);
  }

  lemma {:induction false} NewSpace(bs: seq<Block>, lw: nat, size: nat, count: nat)
    requires LastWithDataAt(bs, lw) && bs != [] && bs[|bs| - 1].off == 0 && SpaceLen(bs[|bs| - 1]) > 0
    requires if bs[lw].off == 0 then |bs| == 1 && SpaceLen(bs[0]) >= size && count == 1
             else |bs| == lw + 2 && SpaceLen(bs[lw]) + SpaceLen(bs[lw + 1]) >= size
                  && count == if SpaceLen(bs[lw]) == 0 then 1 else 2
    ensures Offers(bs, lw, size, count)
  {
    var f := FirstWithSpace(bs, lw);
    assert SpaceSum(bs, f, f + 1) == SpaceSum(bs, f, f) + SpaceLen(bs[f]);
  }
}
