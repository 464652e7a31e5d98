/**
 Positions in an evbuffer: a byte offset together with the chain and the offset in it.
 */
module Pointers {
  import opened Chains
  import opened EvBuffers
  import opened Pullups

  /** struct evbuffer_ptr */
  datatype Ptr = Ptr(pos: int, chain: Chain?, inChain: nat)

  /** PTR_NOT_FOUND */
  const NOT_FOUND: Ptr := Ptr(-1, null, 0)

  /** `p` is a position in the buffer, in the chain at index `k` or, if there is none, at the end. */
  ghost predicate PtrAt(buf: EvBuffer, p: Ptr, k: nat)
    reads buf
  {
    && |buf.blocks| == |buf.chains| && k <= |buf.chains| && p.chain == ChainAt(buf.chains, k)
    && p.inChain <= (if k < |buf.blocks| then buf.blocks[k].off else 0)
    && p.pos == Before(buf.blocks, k) + p.inChain
  }

  /** The block that holds the byte `n` bytes after the start of block `k`; the end if there is none. */
  ghost function Locate(bs: seq<Block>, k: nat, n: nat): (j: nat)
    requires k <= |bs|
    ensures k <= j <= |bs|
    decreases |bs| - k
  {
    if k == |bs| || n < bs[k].off then k else Locate(bs, k + 1, n - bs[k].off)
  }

  /** Where position `pos` of the buffer is, or that it is beyond the end. */
  ghost function PtrFor(buf: EvBuffer, pos: nat): Ptr
    requires buf.Valid()
    reads buf, buf.chains
  {
    var k := Locate(buf.blocks, 0, pos);
    LocateBefore(buf.blocks, 0, pos);
    if pos > |buf.Contents()| then NOT_FOUND
    else Ptr(pos, ChainAt(buf.chains, k), pos - Before(buf.blocks, k))
  }

  lemma {:induction false} LocateBefore(bs: seq<Block>, k: nat, n: nat)
    requires k <= |bs|
    ensures var j := Locate(bs, k, n);
            && Before(bs, j) <= Before(bs, k) + n
            && (j < |bs| ==> Before(bs, k) + n < Before(bs, j) + bs[j].off)
            && (j == |bs| ==> Before(bs, j) == |Flat(bs)|)
            && (j < |bs| ==> Before(bs, k) + n < |Flat(bs)|)
    decreases |bs| - k
  {
    EndOfList(bs, k);
    if k < |bs| {
      FlatPrefixGrows(bs, k);
      EndOfList(bs, k + 1);
      if n >= bs[k].off {
        LocateBefore(bs, k + 1, n - bs[k].off);
      }
    }
  }

  /** Locating from the start or from a block on the way is the same. */
  lemma {:induction false} LocateFrom(bs: seq<Block>, k: nat, n: nat)
    requires k <= |bs|
    ensures Locate(bs, 0, Before(bs, k) + n) == Locate(bs, k, n)
  {
    if k > 0 {
      FlatPrefixGrows(bs, k - 1);
      LocateFrom(bs, k - 1, bs[k - 1].off + n);
    }
  }

  /** The walk of evbuffer_ptr_set over the chains. */
  method Walk(buf: EvBuffer, start: Chain?, n: nat, ghost k: nat) returns (c: Chain?, left: nat)
    requires buf.Valid() && k <= |buf.chains| && start == ChainAt(buf.chains, k)
    ensures c == ChainAt(buf.chains, Locate(buf.blocks, k, n))
    ensures left == Before(buf.blocks, k) + n - Before(buf.blocks, Locate(buf.blocks, k, n))
  {
    c, left := start, n;
    ghost var j := k;
    while c != null && left >= c.block.off
      invariant k <= j <= |buf.chains| && c == ChainAt(buf.chains, j)
      invariant Locate(buf.blocks, j, left) == Locate(buf.blocks, k, n)
      invariant Before(buf.blocks, j) + left == Before(buf.blocks, k) + n
      decreases |buf.chains| - j
    {
      assert c.next == ChainAt(buf.chains, j + 1);
      FlatPrefixGrows(buf.blocks, j);
      left := left - c.block.off;
      c, j := c.next, j + 1;
    }
  }

  /** evbuffer_ptr_set with EVBUFFER_PTR_SET */
  method PtrSet(buf: EvBuffer, position: nat) returns (p: Ptr)
    requires buf.Valid()
    ensures p == PtrFor(buf, position)
  {
    var c, left := Walk(buf, buf.first, position, 0);
    LocateBefore(buf.blocks, 0, position);
    if c != null {
      p := Ptr(position, c, left);
    } else if left == 0 {
      p := Ptr(position, null, 0);
    } else {
      p := NOT_FOUND;
    }
  }

  /** evbuffer_ptr_set with EVBUFFER_PTR_ADD; a position that overflows is left as it is. */
  method PtrAdd(buf: EvBuffer, pos: Ptr, position: nat, ghost k: nat) returns (r: int, p: Ptr)
    requires buf.Valid() && (pos.pos >= 0 ==> PtrAt(buf, pos, k))
    ensures pos.pos < 0 || SIZE_MAX - position < pos.pos ==> r == -1 && p == pos
    ensures !(pos.pos < 0 || SIZE_MAX - position < pos.pos) ==>
              p == PtrFor(buf, pos.pos + position) && r == if p == NOT_FOUND then -1 else 0
  {
    if pos.pos < 0 || SIZE_MAX - position < pos.pos {
      return -1, pos;
    }
    var c, left := Walk(buf, pos.chain, pos.inChain + position, k);
    LocateFrom(buf.blocks, k, pos.inChain + position);
    LocateBefore(buf.blocks, 0, pos.pos + position);
    if c != null {
      return 0, Ptr(pos.pos + position, c, left);
    } else if left == 0 {
      return 0, Ptr(pos.pos + position, null, 0);
    } else {
      return -1, NOT_FOUND;
    }
  }

  /** evbuffer_ptr_subtract */
  method PtrSubtract(buf: EvBuffer, pos: Ptr, howfar: nat, ghost k: nat) returns (r: int, p: Ptr, ghost j: nat)
    requires buf.Valid() && (pos.pos >= 0 ==> PtrAt(buf, pos, k))
    ensures r == if pos.pos < 0 || howfar > pos.pos then -1 else 0
    ensures r == -1 ==> p == pos
    ensures r == 0 ==> PtrAt(buf, p, j) && p.pos == pos.pos - howfar
    ensures r == 0 && howfar > 0 ==> p.chain != null && p.inChain < p.chain.block.off
  {
    j := k;
    if pos.pos < 0 || howfar > pos.pos {
      return -1, pos, k;
    }
    if pos.chain != null && howfar <= pos.inChain {
      return 0, Ptr(pos.pos - howfar, pos.chain, pos.inChain - howfar), k;
    }
    p := PtrSet(buf, pos.pos - howfar);
    EndOfList(buf.blocks, k);
    LocateBefore(buf.blocks, 0, pos.pos - howfar);
    j := Locate(buf.blocks, 0, pos.pos - howfar);
    if k < |buf.blocks| {
      FlatPrefixGrows(buf.blocks, k);
      EndOfList(buf.blocks, k + 1);
    }
    r := 0;
  }
}
