/**
 The chain of an evbuffer: one allocation holding some bytes between unused space at the
 front (`misalign`) and unused space at the back, linked to the next chain.
 */
module Chains {

  type byte = x: int | 0 <= x < 256

  // sizeof(struct evbuffer_chain) and the limits of a 64-bit build
  const CHAIN_SIZE: nat := 48
  const MIN_BUFFER_SIZE: nat := 1024
  const CHAIN_MAX: nat := 0x7fff_ffff_ffff_ffff
  const SIZE_MAX: nat := 0xffff_ffff_ffff_ffff

  /** What evbuffer_chain_new allocates for the bytes is never less, and never more, than: */
  const MIN_CHAIN_BYTES: nat := MIN_BUFFER_SIZE - CHAIN_SIZE
  const MAX_CHAIN_BYTES: nat := CHAIN_MAX - CHAIN_SIZE

  /**
   The memory of a chain: `buffer` is the whole allocation (its length is buffer_len), and
   the `off` bytes from `misalign` on are the data.
   */
  datatype RawBlock = Block(buffer: seq<byte>, misalign: nat, off: nat) {
    ghost predicate Ok() {
      misalign + off <= |buffer| && MIN_CHAIN_BYTES <= |buffer| <= MAX_CHAIN_BYTES
    }
  }

  type Block = b: RawBlock | b.Ok() witness Block(seq(MIN_CHAIN_BYTES, _ => 0), 0, 0)

  function Data(b: Block): (d: seq<byte>)
    ensures |d| == b.off
  {
    b.buffer[b.misalign..b.misalign + b.off]
  }

  /** CHAIN_SPACE_LEN: the room left behind the data. */
  function SpaceLen(b: Block): nat {
    |b.buffer| - (b.misalign + b.off)
  }

  /** memcpy into the space behind the data, then `off += |data|`. */
  function Append(b: Block, data: seq<byte>): (r: Block)
    requires |data| <= SpaceLen(b)
    ensures Data(r) == Data(b) + data
    ensures |r.buffer| == |b.buffer| && r.misalign == b.misalign && r.off == b.off + |data|
  {
    var at := b.misalign + b.off;
    Block(b.buffer[..at] + data + b.buffer[at + |data|..], b.misalign, b.off + |data|)
  }

  /** memcpy into the space in front of the data, then move `misalign` down. */
  function PutBefore(b: Block, data: seq<byte>): (r: Block)
    requires |data| <= b.misalign
    ensures Data(r) == data + Data(b)
    ensures |r.buffer| == |b.buffer| && r.misalign == b.misalign - |data| && r.off == b.off + |data|
  {
    var at := b.misalign - |data|;
    Block(b.buffer[..at] + data + b.buffer[b.misalign..], at, b.off + |data|)
  }

  /** An empty block may be filled from the back end as well as from the front. */
  function FillFromBack(b: Block): (r: Block)
    requires b.off == 0
    ensures Data(r) == Data(b) && r.buffer == b.buffer && r.misalign == |b.buffer|
  {
    Block(b.buffer, |b.buffer|, 0)
  }

  /** Drops the first `n` bytes of the data by moving `misalign` up. */
  function Advance(b: Block, n: nat): (r: Block)
    requires n <= b.off
    ensures Data(r) == Data(b)[n..] && r.buffer == b.buffer
  {
    Block(b.buffer, b.misalign + n, b.off - n)
  }

  /** evbuffer_chain_should_realign */
  predicate ShouldRealign(b: Block, datlen: nat) {
    |b.buffer| - b.off >= datlen && b.off < |b.buffer| / 2 && b.off <= 2048
  }

  /** evbuffer_chain_align: memmove the data to the front of the buffer. */
  function Align(b: Block): (r: Block)
    ensures Data(r) == Data(b) && |r.buffer| == |b.buffer| && r.misalign == 0
  {
    Block(Data(b) + b.buffer[b.off..], 0, b.off)
  }

  class Chain {
    var next: Chain?
    var block: Block

    constructor (block: Block)
      ensures next == null && this.block == block
    {
      next, this.block := null, block;
    }
  }

  /**
   evbuffer_chain_new: room for at least `size` bytes, rounded up to a power of two with the
   header; null when the request is larger than any allocation may be.
   */
  method NewChain(size: nat) returns (c: Chain?)
    ensures c == null <==> size > MAX_CHAIN_BYTES
    ensures c != null ==> fresh(c) && c.next == null && c.block.misalign == 0 && c.block.off == 0
    ensures c != null ==> size <= |c.block.buffer| <= 2 * size + MIN_BUFFER_SIZE
  {
    if size > MAX_CHAIN_BYTES {
      return null;
    }
    var full := size + CHAIN_SIZE;
    var toAlloc := full;
    if full < CHAIN_MAX / 2 {
      toAlloc := MIN_BUFFER_SIZE;
      while toAlloc < full
        invariant MIN_BUFFER_SIZE <= toAlloc < CHAIN_MAX && (toAlloc == MIN_BUFFER_SIZE || toAlloc < 2 * full)
        decreases full - toAlloc
      {
        toAlloc := toAlloc * 2;
      }
    }
    c := new Chain(Block(seq(toAlloc - CHAIN_SIZE, _ => 0), 0, 0));
  }

  ghost predicate At(cs: seq<Chain>, i: int, older c: Chain) {
    0 <= i < |cs| && cs[i] == c
  }

  /** No chain occurs twice. */
  ghost predicate Distinct(cs: seq<Chain>) {
    forall i, j, c {:trigger At(cs, i, c), At(cs, j, c)} :: At(cs, i, c) && At(cs, j, c) ==> i == j
  }

  lemma {:induction false} DistinctPrefix(cs: seq<Chain>, k: nat)
    requires Distinct(cs) && k <= |cs|
    ensures Distinct(cs[..k])
  {
    forall i, j, c | At(cs[..k], i, c) && At(cs[..k], j, c)
      ensures i == j
    {
      assert At(cs, i, c) && At(cs, j, c);
    }
  }

  lemma {:induction false} DistinctSuffix(cs: seq<Chain>, k: nat)
    requires Distinct(cs) && k <= |cs|
    ensures Distinct(cs[k..])
  {
    forall i, j, c | At(cs[k..], i, c) && At(cs[k..], j, c)
      ensures i == j
    {
      assert At(cs, k + i, c) && At(cs, k + j, c);
    }
  }

  lemma {:induction false} DistinctSplit(cs: seq<Chain>, k: nat)
    requires Distinct(cs) && k <= |cs|
    ensures forall c :: c in cs[k..] ==> c !in cs[..k]
  {
    forall c | c in cs[k..] && c in cs[..k]
      ensures false
    {
      var i :| 0 <= i < |cs[k..]| && cs[k..][i] == c;
      var j :| 0 <= j < |cs[..k]| && cs[..k][j] == c;
      assert At(cs, k + i, c) && At(cs, j, c);
    }
  }

  lemma {:induction false} DistinctConcat(a: seq<Chain>, b: seq<Chain>)
    requires Distinct(a) && Distinct(b) && (forall c :: c in b ==> c !in a)
    ensures Distinct(a + b)
  {
    forall i, j, c | At(a + b, i, c) && At(a + b, j, c)
      ensures i == j
    {
      if i < |a| {
        assert a[i] == c && c !in b;
        assert (a + b)[j] == c;
        assert At(a, i, c) && At(a, j, c);
      } else {
        assert b[i - |a|] == c && c !in a;
        assert (a + b)[j] == c;
        assert At(b, i - |a|, c) && At(b, j - |a|, c);
      }
    }
  }

  predicate AllEmpty(bs: seq<Block>) {
    forall i :: 0 <= i < |bs| ==> bs[i].off == 0
  }

  /** What a list of blocks holds, read as one flat byte string. */
  function Flat(bs: seq<Block>): (b: seq<byte>) {
    if bs == [] then [] else Data(bs[0]) + Flat(bs[1..])
  }

  lemma {:induction false} FlatConcat(a: seq<Block>, b: seq<Block>)
    ensures Flat(a + b) == Flat(a) + Flat(b)
  {
    if a == [] {
      assert a + b == b;
    } else {
      FlatConcat(a[1..], b);
      assert (a + b)[1..] == a[1..] + b && (a + b)[0] == a[0];
      assert Flat(a + b) == Data(a[0]) + (Flat(a[1..]) + Flat(b));
    }
  }

  lemma {:induction false} FlatSnoc(a: seq<Block>, b: Block)
    ensures Flat(a + [b]) == Flat(a) + Data(b)
  {
    FlatConcat(a, [b]);
    assert Flat([b]) == Data(b) + Flat([]);
  }

  lemma {:induction false} FlatOfEmpty(bs: seq<Block>)
    requires AllEmpty(bs)
    ensures Flat(bs) == []
  {
    if bs != [] {
      FlatOfEmpty(bs[1..]);
    }
  }

  /** Splitting the bytes of a list around the block at `k`. */
  lemma {:induction false} FlatAround(bs: seq<Block>, k: nat)
    requires k < |bs|
    ensures Flat(bs) == Flat(bs[..k]) + Data(bs[k]) + Flat(bs[k + 1..])
  {
    assert bs == bs[..k] + bs[k..];
    FlatConcat(bs[..k], bs[k..]);
  }

  lemma {:induction false} SplitAt<T>(a: seq<T>, s: seq<T>, k: nat)
    requires k <= |s|
    ensures a + s[..k] + s[k..] == a + s
  {
  }

  lemma {:induction false} SplitBefore<T>(s: seq<T>, k: nat, a: seq<T>)
    requires k <= |s|
    ensures s[..k] + (s[k..] + a) == s + a
  {
  }

  /** Replacing one block replaces its bytes. */
  lemma {:induction false} FlatUpdate(bs: seq<Block>, k: nat, b: Block)
    requires k < |bs|
    ensures Flat(bs[k := b]) == Flat(bs[..k]) + Data(b) + Flat(bs[k + 1..])
  {
    FlatAround(bs[k := b], k);
    assert bs[k := b][..k] == bs[..k] && bs[k := b][k + 1..] == bs[k + 1..];
  }
}
