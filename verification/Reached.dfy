/**
 The states in which evbuffer_remove_buffer and evbuffer_commit_space go wrong are reached by
 ordinary calls: space is reserved in several chains and only a part of it is committed.
 */
module Reached {
  import opened Chains
  import opened EvBuffers
  import opened Reserves
  import opened Commits
  import Splices

  /** The memory of all blocks */
  ghost function Memory(bs: seq<Block>): nat {
    if bs == [] then 0 else Memory(bs[..|bs| - 1]) + |bs[|bs| - 1].buffer|
  }

  /** Vectors have no more room than the blocks they lie in. */
  lemma {:induction false} VecSumAtMost(cs: seq<Chain>, bs: seq<Block>, f: nat, vecs: seq<Vec>)
    requires Fits(cs, bs, f, vecs)
    ensures VecSum(vecs) <= Memory(bs[..f + |vecs|])
  {
    if vecs != [] {
      var n := |vecs| - 1;
      VecSumAtMost(cs, bs, f, vecs[..n]);
      assert bs[..f + |vecs|][..f + n] == bs[..f + n];
    }
  }

  lemma {:induction false} MemoryGrows(bs: seq<Block>, k: nat)
    requires k <= |bs|
    ensures Memory(bs[..k]) <= Memory(bs)
  {
    if k < |bs| {
      MemoryGrows(bs[..|bs| - 1], k);
      assert bs[..|bs| - 1][..k] == bs[..k];
    } else {
      assert bs[..k] == bs;
    }
  }

  lemma {:induction false} MemorySame(bs: seq<Block>, bs': seq<Block>)
    requires |bs| == |bs'| && forall i :: 0 <= i < |bs| ==> |bs[i].buffer| == |bs'[i].buffer|
    ensures Memory(bs) == Memory(bs')
  {
    if bs != [] {
      MemorySame(bs[..|bs| - 1], bs'[..|bs| - 1]);
    }
  }

  lemma {:induction false} MemoryMore(bs: seq<Block>, bs': seq<Block>)
    requires |bs'| == |bs| + 1 && forall i :: 0 <= i < |bs| ==> |bs[i].buffer| == |bs'[i].buffer|
    ensures Memory(bs') == Memory(bs) + |bs'[|bs|].buffer|
  {
    MemorySame(bs, bs'[..|bs|]);
  }

  lemma {:induction false} BeforeLast(cs: seq<Chain>, bs: seq<Block>, f: nat, vecs: seq<Vec>)
    requires Fits(cs, bs, f, vecs) && bs != []
    ensures f + |vecs| < |bs| ==> VecSum(vecs) <= Memory(bs[..|bs| - 1])
  {
    if f + |vecs| < |bs| {
      VecSumAtMost(cs, bs, f, vecs);
      MemoryGrows(bs[..|bs| - 1], f + |vecs|);
      assert bs[..|bs| - 1][..f + |vecs|] == bs[..f + |vecs|];
    }
  }

  /** The last vector has all the room that the other blocks cannot have. */
  lemma {:induction false} LastRoom(cs: seq<Chain>, bs: seq<Block>, f: nat, vecs: seq<Vec>, memory: nat)
    requires Fits(cs, bs, f, vecs) && bs != [] && memory == Memory(bs[..|bs| - 1]) && VecSum(vecs) >= memory + 5
    ensures vecs != [] && f + |vecs| == |bs| && vecs[|vecs| - 1].len >= 5
  {
    BeforeLast(cs, bs, f, vecs);
    var n := |vecs| - 1;
    VecSumAtMost(cs, bs, f, vecs[..n]);
    assert bs[..f + n] == bs[..|bs| - 1];
  }

  /** All chains are empty, there are `n` of them, and their memory is no more than that. */
  ghost predicate Empties(buf: EvBuffer, n: nat, memory: nat)
    reads buf, buf.chains
  {
    && buf.Valid() && |buf.chains| == n && buf.lw == 0 && Memory(buf.blocks) == memory
    && forall i :: 0 <= i < |buf.blocks| ==> buf.blocks[i].off == 0
  }

  /** The vectors end with the space of the last chain, at least five bytes. */
  ghost predicate ToTheEnd(buf: EvBuffer, vecs: seq<Vec>)
    reads buf
  {
    && vecs != [] && |buf.chains| == |buf.blocks| > 0 && buf.lw == 0 && vecs[|vecs| - 1].len >= 5
    && FirstWithSpace(buf.blocks, 0) + |vecs| == |buf.blocks|
    && Fits(buf.chains, buf.blocks, FirstWithSpace(buf.blocks, 0), vecs)
  }

  /** Reserving five bytes more than all the empty chains together hold adds a chain. */
  method OneMoreChain(buf: EvBuffer, memory: nat, ghost n: nat) returns (memory': nat, vecs: seq<Vec>)
    requires Empties(buf, n, memory) && n < 3 && memory <= 100000
    modifies buf, buf.chains
    ensures Empties(buf, n + 1, memory') && memory' <= 3 * memory + 10 + MIN_BUFFER_SIZE && ToTheEnd(buf, vecs)
    ensures buf.Contents() == old(buf.Contents())
    ensures forall i :: 0 <= i < |buf.chains| ==> buf.chains[i] in old(buf.chains) || fresh(buf.chains[i])
  {
    hide Flat, Distinct, Memory, VecSum, Cover;
    ghost var bs := buf.blocks;
    var r;
    r, vecs := ReserveSeveral(buf, memory + 5, 4);
    ghost var f := FirstWithSpace(buf.blocks, 0);
    if |buf.blocks| == |bs| {
      MemorySame(bs, buf.blocks);
      NoRoom(buf.chains, buf.blocks, f, vecs);
      assert false;
    }
    MemoryMore(bs, buf.blocks);
    MemorySame(bs, buf.blocks[..|bs|]);
    LastRoom(buf.chains, buf.blocks, f, vecs, memory);
    memory' := memory + |buf.last.block.buffer|;
  }

  lemma {:induction false} NoRoom(cs: seq<Chain>, bs: seq<Block>, f: nat, vecs: seq<Vec>)
    requires Fits(cs, bs, f, vecs)
    ensures VecSum(vecs) <= Memory(bs)
  {
    VecSumAtMost(cs, bs, f, vecs);
    MemoryGrows(bs, f + |vecs|);
  }

  lemma {:induction false} NoMemory()
    ensures Memory([]) == 0
  {
  }

  /** Two vectors are reserved, and of their bytes none and five are committed: an empty first chain before data. */
  method EmptyFirst() returns (buf: EvBuffer)
    ensures fresh(buf) && (forall i :: 0 <= i < |buf.chains| ==> fresh(buf.chains[i])) && buf.Valid()
    ensures |buf.blocks| == 2 && buf.blocks[0].off == 0 && buf.blocks[1].off == 5 && buf.lw == 1
  {
    hide Flat, Memory, Distinct, Taken, SpaceLen;
    buf := new EvBuffer();
    NoMemory();
    var memory, vecs := OneMoreChain(buf, 0, 0);
    memory, vecs := OneMoreChain(buf, memory, 1);
    var n := |vecs| - 1;
    var used := [vecs[n].(len := 5)];
    if n == 1 {
      used := [vecs[0].(len := 0)] + used;
    }
    var r := CommitSpace(buf, used);
  }

  /** evbuffer_remove_buffer then fails to leave both buffers well formed. */
  method RemoveBufferBreaks() returns (src: EvBuffer, dst: EvBuffer, failed: bool)
    ensures failed || !src.Valid() || !dst.Valid()
  {
    src := EmptyFirst();
    dst := new EvBuffer();
    Splices.EmptyFirstChainBreaks(src.blocks, dst.blocks);
    FiveBytes(src.blocks);
    var n;
    n, failed := Splices.RemoveBuffer(src, dst, 2);
  }

  lemma {:induction false} FiveBytes(bs: seq<Block>)
    requires |bs| == 2 && bs[0].off == 0 && bs[1].off == 5
    ensures |Flat(bs)| == 5
  {
    FlatAround(bs, 1);
    FlatOfEmpty(bs[..1]);
    FlatOfEmpty(bs[2..]);
  }

  /** Three vectors are reserved and only the last is committed: evbuffer_commit_space breaks the buffer. */
  method CommitBreaks() returns (buf: EvBuffer)
    ensures !buf.Valid() && |buf.chains| == 3
  {
    hide Flat, Memory, Distinct, Taken;
    buf := new EvBuffer();
    NoMemory();
    var memory, vecs := OneMoreChain(buf, 0, 0);
    memory, vecs := OneMoreChain(buf, memory, 1);
    memory, vecs := OneMoreChain(buf, memory, 2);
    var r := CommitSpace(buf, [vecs[|vecs| - 1].(len := 5)]);
  }
}
