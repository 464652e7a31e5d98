/**
 evbuffer_expand_singlechain: all the space asked for in one chain, and what follows for
 evbuffer_reserve_space with a single vector.
 */
module SingleChain {
  import opened Chains
  import opened EvBuffers
  import opened Reserves
  import opened Commits

  /** A chain that the caller may write `datlen` bytes to, at the end of the data. */
  ghost predicate Usable(buf: EvBuffer, c: Chain, datlen: nat, k: nat)
    reads buf
  {
    && k < |buf.chains| == |buf.blocks| && c == buf.chains[k] && SpaceLen(buf.blocks[k]) >= datlen
    && (k == buf.lw || k == buf.lw + 1)
  }

  /** How the space is found: in chain `k`, in the last one with data once moved to its front, or in a new one. */
  datatype Way = Use(k: nat) | Shift | Insert | Resize

  ghost function WayFor(bs: seq<Block>, lw: nat, datlen: nat): (w: Way)
    requires LastWithDataAt(bs, lw)
    ensures w.Use? ==> w.k < |bs| && SpaceLen(bs[w.k]) >= datlen
    ensures !w.Use? && !w.Insert? ==> lw < |bs| && bs[lw].off > 0
  {
    if bs == [] || FirstWithSpace(bs, lw) == |bs| then Insert
    else var k := FirstWithSpace(bs, lw);
         if SpaceLen(bs[k]) >= datlen then Use(k)
         else if bs[k].off == 0 then Insert
         else if ShouldRealign(bs[k], datlen) then Shift
         else if !WorthCopying(bs[k], datlen) then
           if k + 1 < |bs| && SpaceLen(bs[k + 1]) >= datlen then Use(k + 1) else Insert
         else Resize
  }

  /** A chain with much space and few bytes is copied to a larger one. */
  predicate WorthCopying(b: Block, datlen: nat) {
    SpaceLen(b) >= |b.buffer| / 8 && b.off <= 4096 && datlen < CHAIN_MAX - b.off
  }

  /** What is asked of the allocator */
  ghost function NewBytes(w: Way, bs: seq<Block>, lw: nat, datlen: nat): nat {
    if w.Insert? then datlen else if w.Resize? && lw < |bs| then bs[lw].off + datlen else 0
  }

  /** What becomes of the chains; only an insertion may free some, and these hold nothing. */
  ghost predicate Went(w: Way, cs: seq<Chain>, bs: seq<Block>, lw: nat, buf: EvBuffer, c: Chain)
    requires |cs| == |bs| && LastWithDataAt(bs, lw) && (w.Use? ==> w.k < |cs|) && (w.Shift? || w.Resize? ==> lw < |cs|)
    reads buf
  {
    match w
    case Use(k) => buf.chains == cs && buf.blocks == bs && c == cs[k]
    case Shift => buf.chains == cs && buf.blocks == bs[lw := Align(bs[lw])] && c == cs[lw]
    case Insert => buf.chains == cs[..CutAt(bs, lw)] + [c] && c !in cs
    case Resize => buf.chains == cs[lw := c] && c !in cs
  }

  /** evbuffer_chain_insert_new */
  method InsertNew(buf: EvBuffer, datlen: nat) returns (c: Chain?, ghost k: nat)
    requires buf.Valid()
    modifies buf, buf.chains`next
    ensures buf.Valid() && buf.Contents() == old(buf.Contents())
    ensures c == null <==> datlen > MAX_CHAIN_BYTES
    ensures c == null ==> buf.chains == old(buf.chains)
    ensures c != null ==> fresh(c) && Usable(buf, c, datlen, k)
    ensures c != null ==> buf.chains == old(buf.chains[..CutAt(buf.blocks, buf.lw)]) + [c]
    ensures forall i :: 0 <= i < |buf.chains| ==> buf.chains[i] in old(buf.chains) || buf.chains[i] == c
  {
    k := 0;
    c := NewChain(datlen);
    if c != null {
      ghost var p := CutAt(buf.blocks, buf.lw);
      buf.ChainInsert(c);
      k := p;
      assert buf.chains[p] == c;
    }
  }

  /** The resizing of evbuffer_expand_singlechain: `tmp` replaces the last chain with data. */
  method ReplaceLast(buf: EvBuffer, c: Chain, tmp: Chain)
    requires buf.Valid() && buf.chains != [] && c == buf.chains[buf.lw] && tmp !in buf.chains
    requires tmp.block.off == 0 && tmp.block.misalign == 0 && c.block.off <= |tmp.block.buffer|
    modifies buf, buf.chains`next, tmp
    ensures buf.Valid() && buf.Contents() == old(buf.Contents()) && buf.lw == old(buf.lw)
    ensures buf.chains == old(buf.chains)[buf.lw := tmp]
    ensures SpaceLen(buf.blocks[buf.lw]) == old(|tmp.block.buffer|) - old(c.block.off)
  {
    hide Flat, ChainAt;
    ghost var k, cs, bs := buf.lw, buf.chains, buf.blocks;
    var newLast := if buf.last == c then tmp else buf.last;
    tmp.block := Append(tmp.block, Data(c.block));
    tmp.next := c.next;
    ListTail(buf.first, cs, k + 1);
    ListCons(tmp, c.next, cs[k + 1..]);
    DistinctReplace(cs, k, tmp);
    SameData(bs, k, k, tmp.block);
    assert cs[..k] + ([tmp] + cs[k + 1..]) == cs[k := tmp];
    assert bs[..k] + ([tmp.block] + bs[k + 1..]) == bs[k := tmp.block];
    assert buf.last == c ==> k == |cs| - 1 by {
      assert At(cs, k, c) && At(cs, |cs| - 1, buf.last);
    }
    buf.Relink(buf.lastWithData, tmp, newLast, buf.lastWithData, buf.totalLen,
               k, [tmp] + cs[k + 1..], [tmp.block] + bs[k + 1..], k);
  }

  lemma {:induction false} DistinctReplace(cs: seq<Chain>, k: nat, c: Chain)
    requires Distinct(cs) && k < |cs| && c !in cs
    ensures Distinct(cs[k := c])
  {
    var u := cs[k := c];
    forall i, j, d | At(u, i, d) && At(u, j, d)
      ensures i == j
    {
      assert i != k ==> At(cs, i, cs[i]);
      assert j != k ==> At(cs, j, cs[j]);
    }
  }

  /** evbuffer_expand_singlechain */
  method ExpandSingleChain(buf: EvBuffer, datlen: nat) returns (c: Chain?, ghost k: nat)
    requires buf.Valid()
    modifies buf, buf.chains
    ensures buf.Valid() && buf.Contents() == old(buf.Contents())
    ensures c != null ==> Usable(buf, c, datlen, k)
    ensures c != null ==>
      Went(WayFor(old(buf.blocks), old(buf.lw), datlen), old(buf.chains), old(buf.blocks), old(buf.lw), buf, c)
    ensures datlen <= MAX_CHAIN_BYTES - 4096 ==> c != null
    ensures c == null <==>
      NewBytes(WayFor(old(buf.blocks), old(buf.lw), datlen), old(buf.blocks), old(buf.lw), datlen) > MAX_CHAIN_BYTES
    ensures forall i :: 0 <= i < |buf.chains| ==> buf.chains[i] in old(buf.chains) || fresh(buf.chains[i])
  {
    hide Flat, Align;
    var chain := buf.Deref(buf.lastWithData);
    k := buf.lw;
    if chain != null && SpaceLen(chain.block) == 0 {
      chain, k := chain.next, k + 1;
    }
    if chain == null {
      c, k := InsertNew(buf, datlen);
    } else if SpaceLen(chain.block) >= datlen {
      c := chain;
    } else if chain.block.off == 0 {
      c, k := InsertNew(buf, datlen);
    } else {
      c, k := ExpandData(buf, chain, datlen);
    }
  }

  /** evbuffer_expand_singlechain when the chain to be made larger has data in it. */
  method ExpandData(buf: EvBuffer, chain: Chain, datlen: nat) returns (c: Chain?, ghost k: nat)
    requires buf.Valid() && buf.chains != [] && chain == buf.chains[buf.lw]
    requires 0 < SpaceLen(chain.block) < datlen && chain.block.off > 0
    modifies buf, buf.chains
    ensures buf.Valid() && buf.Contents() == old(buf.Contents())
    ensures c != null ==> Usable(buf, c, datlen, k)
    ensures c != null ==>
      Went(WayFor(old(buf.blocks), old(buf.lw), datlen), old(buf.chains), old(buf.blocks), old(buf.lw), buf, c)
    ensures datlen <= MAX_CHAIN_BYTES - 4096 ==> c != null
    ensures c == null <==>
      NewBytes(WayFor(old(buf.blocks), old(buf.lw), datlen), old(buf.blocks), old(buf.lw), datlen) > MAX_CHAIN_BYTES
    ensures forall i :: 0 <= i < |buf.chains| ==> buf.chains[i] in old(buf.chains) || fresh(buf.chains[i])
  {
    hide Flat, Data, Distinct;
    k := buf.lw;
    if ShouldRealign(chain.block, datlen) {
      SameData(buf.blocks, k, k, Align(chain.block));
      buf.Rewrite(chain, Align(chain.block), buf.totalLen, k);
      return chain, k;
    }
    if SpaceLen(chain.block) < |chain.block.buffer| / 8 || chain.block.off > 4096
       || datlen >= CHAIN_MAX - chain.block.off {
      if chain.next != null && SpaceLen(chain.next.block) >= datlen {
        return chain.next, k + 1;
      }
      c, k := InsertNew(buf, datlen);
    } else {
      c := NewChain(chain.block.off + datlen);
      if c != null {
        ReplaceLast(buf, chain, c);
      }
    }
  }

  /**
   A vector for the chain at index `k` passes the first check of evbuffer_commit_space only if that
   chain is the first one with space; otherwise it has to be the last chain. After
   evbuffer_expand_singlechain chose the chain behind a last chain with data that still has some
   space, and further empty chains follow, the commit is refused.
   */
  lemma {:induction false} OneVecAccepted(cs: seq<Chain>, bs: seq<Block>, lw: nat, k: nat, len: nat)
    requires |cs| == |bs| && Distinct(cs) && lw < |bs| && k < |bs| && len <= SpaceLen(bs[k])
    ensures var v := [SpaceVec(cs[k], bs[k]).(len := len)];
            && (OnLast(cs, bs, v) <==> k == |cs| - 1)
            && (Fits(cs, bs, FirstWithSpace(bs, lw), v) <==> k == FirstWithSpace(bs, lw))
  {
    assert At(cs, k, cs[k]) && At(cs, |cs| - 1, cs[|cs| - 1]);
    var f := FirstWithSpace(bs, lw);
    if f < |cs| {
      assert At(cs, f, cs[f]);
    }
  }

  /** evbuffer_reserve_space: no byte moves in the buffer, and each vector lies behind the data of its chain. */
  method ReserveSpace(buf: EvBuffer, size: nat, n: int) returns (r: int, vecs: seq<Vec>)
    requires buf.Valid()
    modifies buf, buf.chains
    ensures buf.Valid() && buf.Contents() == old(buf.Contents())
    ensures forall i :: 0 <= i < |buf.chains| ==> buf.chains[i] in old(buf.chains) || fresh(buf.chains[i])
    ensures r >= -1 && (n < 1 ==> r == -1)
    ensures n >= 1 && size <= MAX_CHAIN_BYTES - (if n == 1 then 4096 else 0) ==> r >= 0
    ensures r >= 0 ==> r == |vecs| && VecSum(vecs) >= size
    ensures r >= 0 && n == 1 ==>
      exists k :: 0 <= k < |buf.chains| && vecs == [SpaceVec(buf.chains[k], buf.blocks[k])] && buf.lw <= k <= buf.lw + 1
    ensures r >= 0 && n >= 2 ==> Reserved(buf.chains, buf.blocks, buf.lw, vecs, size, n)
  {
    vecs := [];
    if n < 1 {
      return -1, [];
    }
    if n == 1 {
      var c, k := ExpandSingleChain(buf, size);
      if c == null {
        return -1, [];
      }
      assert c.block == buf.blocks[k];
      vecs := [Vec(c, c.block.misalign + c.block.off, SpaceLen(c.block))];
      assert vecs == [SpaceVec(buf.chains[k], buf.blocks[k])] && vecs[..0] == [];
      r := 1;
    } else {
      r, vecs := ReserveSeveral(buf, size, n);
    }
  }
}
