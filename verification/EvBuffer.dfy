/**
 The evbuffer: a linked list of chains with a cached length, a pointer to the last chain and
 `last_with_datap`, a pointer to the pointer that leads to the last chain holding data.
 */
module EvBuffers {
  import opened Chains

  /** The address of a chain pointer: of `buf->first`, or of some chain's `next`. */
  datatype Slot = Head | After(chain: Chain)

  ghost function ChainAt(cs: seq<Chain>, i: nat): Chain? {
    if i < |cs| then cs[i] else null
  }

  /** The slot that leads to the chain at index `i`. */
  ghost function SlotAt(cs: seq<Chain>, i: nat): Slot
    requires i <= |cs|
  {
    if i == 0 then Head else After(cs[i - 1])
  }

  ghost function LastOf(cs: seq<Chain>): Chain? {
    if cs == [] then null else cs[|cs| - 1]
  }

  /** `cs` are the chains met by following `next` pointers from `head`. */
  ghost predicate List(head: Chain?, cs: seq<Chain>)
    reads cs`next
  {
    && head == ChainAt(cs, 0)
    && forall i {:trigger cs[i].next} :: 0 <= i < |cs| ==> cs[i].next == ChainAt(cs, i + 1)
  }

  /**
   `k` is the index of the last block that has any data; if all are empty, of the first one;
   0 if there are none.
   */
  ghost predicate LastWithDataAt(bs: seq<Block>, k: nat) {
    && (if bs == [] then k == 0 else k < |bs|)
    && (k > 0 ==> bs[k].off > 0)
    && (forall i :: k < i < |bs| ==> bs[i].off == 0)
  }

  /** A small chain is followed by one at least twice as large. */
  function DoubledSize(n: nat): nat {
    if n <= 2048 then 2 * n else n
  }

  /** Where evbuffer_free_trailing_empty_chains cuts: after the last block with data. */
  ghost function CutAt(bs: seq<Block>, k: nat): (p: nat)
    requires LastWithDataAt(bs, k)
    ensures p <= |bs|
  {
    if bs != [] && bs[k].off > 0 then k + 1 else 0
  }

  lemma {:induction false} CutKeepsBytes(bs: seq<Block>, k: nat)
    requires LastWithDataAt(bs, k)
    ensures Flat(bs[..CutAt(bs, k)]) == Flat(bs)
  {
    var p := CutAt(bs, k);
    assert bs == bs[..p] + bs[p..];
    FlatConcat(bs[..p], bs[p..]);
    FlatOfEmpty(bs[p..]);
  }

  /** Growing the last block with data at its end appends to the whole. */
  lemma {:induction false} GrowLast(bs: seq<Block>, k: nat, b: Block, data: seq<byte>)
    requires LastWithDataAt(bs, k) && bs != [] && Data(b) == Data(bs[k]) + data
    ensures LastWithDataAt(bs[k := b], k) && Flat(bs[k := b]) == Flat(bs) + data
  {
    FlatUpdate(bs, k, b);
    FlatAround(bs, k);
    FlatOfEmpty(bs[k + 1..]);
  }

  /** Growing the first block at its front prepends to the whole. */
  lemma {:induction false} GrowFirst(bs: seq<Block>, k: nat, b: Block, data: seq<byte>)
    requires LastWithDataAt(bs, k) && bs != [] && Data(b) == data + Data(bs[0])
    ensures LastWithDataAt(bs[0 := b], k) && Flat(bs[0 := b]) == data + Flat(bs)
  {
    FlatUpdate(bs, 0, b);
    FlatAround(bs, 0);
    assert data + Data(bs[0]) + Flat(bs[1..]) == data + (Data(bs[0]) + Flat(bs[1..]));
  }

  lemma {:induction false} DropMiddle(a: seq<byte>, d: seq<byte>, z: seq<byte>, n: nat)
    requires n <= |d|
    ensures (a + d + z)[|a| + n..] == d[n..] + z
  {
  }

  lemma {:induction false} SliceMiddle(a: seq<byte>, d: seq<byte>, z: seq<byte>, i: nat, j: nat)
    requires i <= j <= |d|
    ensures (a + d + z)[|a| + i..|a| + j] == d[i..j]
  {
  }

  lemma {:induction false} JoinSlices(s: seq<byte>, i: nat, j: nat, k: nat)
    requires i <= j <= k <= |s|
    ensures s[i..j] + s[j..k] == s[i..k]
  {
  }

  /** Dropping whole blocks and then the front of the next one drops a prefix of the bytes. */
  lemma {:induction false} DropFront(bs: seq<Block>, k: nat, n: nat)
    requires k < |bs| && n <= bs[k].off
    ensures var u := bs[k := Advance(bs[k], n)];
            && u[..k] == bs[..k] && |Flat(u)| == |Flat(bs)| - n
            && |Flat(bs[..k])| + n <= |Flat(bs)|
            && Flat(u[k..]) == Flat(bs)[|Flat(bs[..k])| + n..]
  {
    var u := bs[k := Advance(bs[k], n)];
    FlatAround(bs, k);
    FlatUpdate(bs, k, u[k]);
    assert u[k..] == [u[k]] + bs[k + 1..];
    FlatConcat([u[k]], bs[k + 1..]);
    DropMiddle(Flat(bs[..k]), Data(bs[k]), Flat(bs[k + 1..]), n);
  }

  lemma {:induction false} FlatPrefixGrows(bs: seq<Block>, k: nat)
    requires k < |bs|
    ensures Flat(bs[..k + 1]) == Flat(bs[..k]) + Data(bs[k])
  {
    assert bs[..k + 1] == bs[..k] + [bs[k]];
    FlatSnoc(bs[..k], bs[k]);
  }

  /** Where the bytes of one block stand in the whole. */
  lemma {:induction false} SliceOfBlock(bs: seq<Block>, k: nat, at: nat, n: nat)
    requires k < |bs| && at + n <= bs[k].off
    ensures |Flat(bs[..k])| + at + n <= |Flat(bs)|
    ensures Data(bs[k])[at..at + n] == Flat(bs)[|Flat(bs[..k])| + at..|Flat(bs[..k])| + at + n]
  {
    FlatAround(bs, k);
    SliceMiddle(Flat(bs[..k]), Data(bs[k]), Flat(bs[k + 1..]), at, at + n);
  }

  /** Copying `n` bytes of block `k` extends what was copied so far. */
  lemma {:induction false} CopyStep(bs: seq<Block>, k: nat, at: nat, n: nat, from: nat, out: seq<byte>)
    requires k < |bs| && at + n <= bs[k].off && from <= |Flat(bs[..k])| + at <= |Flat(bs)|
    requires out == Flat(bs)[from..|Flat(bs[..k])| + at]
    ensures |Flat(bs[..k])| + at + n <= |Flat(bs)|
    ensures out + Data(bs[k])[at..at + n] == Flat(bs)[from..|Flat(bs[..k])| + at + n]
  {
    SliceOfBlock(bs, k, at, n);
    JoinSlices(Flat(bs), from, |Flat(bs[..k])| + at, |Flat(bs[..k])| + at + n);
  }

  lemma {:induction false} CopyRest(bs: seq<Block>, k: nat, at: nat, from: nat, out: seq<byte>)
    requires k < |bs| && at <= bs[k].off && from <= |Flat(bs[..k])| + at <= |Flat(bs)|
    requires out == Flat(bs)[from..|Flat(bs[..k])| + at]
    ensures |Flat(bs[..k + 1])| == |Flat(bs[..k])| + bs[k].off <= |Flat(bs)|
    ensures out + Data(bs[k])[at..] == Flat(bs)[from..|Flat(bs[..k + 1])| + 0]
  {
    CopyStep(bs, k, at, bs[k].off - at, from, out);
    FlatPrefixGrows(bs, k);
    assert Data(bs[k])[at..] == Data(bs[k])[at..at + (bs[k].off - at)];
  }

  lemma {:induction false} EndOfList(bs: seq<Block>, k: nat)
    requires k <= |bs|
    ensures |Flat(bs[..k])| <= |Flat(bs)|
    ensures k == |bs| ==> Flat(bs[..k]) == Flat(bs)
  {
    assert bs == bs[..k] + bs[k..];
    FlatConcat(bs[..k], bs[k..]);
  }

  /** Cutting before the end of the data leaves the last block with data in place. */
  lemma {:induction false} DropsBeforeLast(bs: seq<Block>, lw: nat, k: nat)
    requires LastWithDataAt(bs, lw) && lw < k <= |bs|
    ensures Flat(bs[..k]) == Flat(bs)
  {
    assert bs == bs[..k] + bs[k..];
    FlatConcat(bs[..k], bs[k..]);
    forall i | 0 <= i < |bs[k..]|
      ensures bs[k..][i].off == 0
    {
      assert bs[k..][i] == bs[k + i];
    }
    FlatOfEmpty(bs[k..]);
  }

  lemma {:induction false} ListTail(head: Chain?, cs: seq<Chain>, k: nat)
    requires List(head, cs) && k <= |cs|
    ensures List(ChainAt(cs, k), cs[k..])
  {
    forall i | 0 <= i < |cs[k..]|
      ensures cs[k..][i].next == ChainAt(cs[k..], i + 1)
    {
      assert cs[k..][i] == cs[k + i];
    }
  }

  lemma {:induction false} ListCons(c: Chain, head: Chain?, cs: seq<Chain>)
    requires List(head, cs) && c.next == head
    ensures List(c, [c] + cs)
  {
    forall i | 0 <= i < |[c] + cs|
      ensures ([c] + cs)[i].next == ChainAt([c] + cs, i + 1)
    {
      if i > 0 {
        assert ([c] + cs)[i] == cs[i - 1];
      }
    }
  }

  class EvBuffer {
    var first: Chain?
    var last: Chain?
    var lastWithData: Slot
    var totalLen: nat
    ghost var chains: seq<Chain>  // the chains in list order
    ghost var blocks: seq<Block>  // what each of them holds
    ghost var lw: nat             // index of the last chain with data

    /** The list structure alone. */
    ghost predicate Linked()
      reads this, chains
    {
      && Distinct(chains) && List(first, chains)
      && |blocks| == |chains|
      && forall i {:trigger chains[i].block} :: 0 <= i < |chains| ==> chains[i].block == blocks[i]
    }

    /** All pointers are right; the cached length may not be. */
    ghost predicate WellFormed()
      reads this, chains
    {
      && Linked()
      && LastWithDataAt(blocks, lw)
      && lastWithData == SlotAt(chains, lw)
      && last == LastOf(chains)
    }

    /** The invariant written down at the declaration of `struct evbuffer`. */
    ghost predicate Valid()
      reads this, chains
    {
      WellFormed() && totalLen == |Flat(blocks)|
    }

    /** The bytes of the buffer. */
    ghost function Contents(): (b: seq<byte>)
      reads this`blocks
    {
      Flat(blocks)
    }

    /** The chain pointer stored at a slot. */
    function Deref(s: Slot): Chain?
      reads this`first, (if s.After? then {s.chain} else {})`next
    {
      match s
      case Head => first
      case After(c) => c.next
    }

    /** evbuffer_new */
    constructor ()
      ensures Valid() && Contents() == [] && chains == []
    {
      first, last, lastWithData, totalLen := null, null, Head, 0;
      chains, blocks, lw := [], [], 0;
    }

    /** Stores a chain pointer at a slot: the list is cut there and continues with `tail`. */
    method SetSlot(s: Slot, head: Chain?, ghost k: nat, ghost tail: seq<Chain>)
      requires List(first, chains) && k <= |chains| && s == SlotAt(chains, k)
      requires List(head, tail) && Distinct(chains[..k] + tail)
      modifies this`first, this`chains, (if s.After? then {s.chain} else {})`next
      ensures chains == old(chains)[..k] + tail && List(first, chains)
    {
      match s {
        case Head => first := head;
        case After(c) => c.next := head;
      }
      ghost var cs := chains[..k] + tail;
      assert k > 0 ==> At(cs, k - 1, s.chain);
      forall i | 0 <= i < |cs|
        ensures cs[i].next == ChainAt(cs, i + 1)
      {
        assert At(cs, i, cs[i]);
        if i + 1 < k {
          assert cs[i] == old(chains)[i] && cs[i + 1] == old(chains)[i + 1];
        } else if i + 1 == k {
          assert cs[i] == s.chain && (tail != [] ==> cs[k] == tail[0]);
        } else {
          assert cs[i] == tail[i - k] && (i + 1 < |cs| ==> cs[i + 1] == tail[i + 1 - k]);
        }
      }
      chains := cs;
    }

    /** The search of evbuffer_free_trailing_empty_chains for its first victim. */
    method FirstVictim() returns (ch: Slot)
      requires Linked() && LastWithDataAt(blocks, lw) && lastWithData == SlotAt(chains, lw)
      ensures ch == SlotAt(chains, CutAt(blocks, lw))
    {
      ch := lastWithData;
      ghost var k := lw;
      while Deref(ch) != null && Deref(ch).block.off != 0
        invariant lw <= k <= |chains| && ch == SlotAt(chains, k)
        invariant k <= CutAt(blocks, lw) || k == lw
        decreases |chains| - k
      {
        ch := After(Deref(ch));
        k := k + 1;
      }
      assert k == CutAt(blocks, lw);
    }

    /** evbuffer_free_trailing_empty_chains; `last` is left for the caller to repair. */
    method FreeTrailingEmptyChains() returns (ch: Slot)
      requires Linked() && LastWithDataAt(blocks, lw) && lastWithData == SlotAt(chains, lw)
      modifies this`first, this`chains, this`blocks, chains`next
      ensures Linked()
      ensures chains == old(chains[..CutAt(blocks, lw)]) && ch == SlotAt(chains, |chains|)
      ensures ch.After? ==> ch.chain in old(chains)
      ensures blocks == old(blocks[..CutAt(blocks, lw)])
    {
      ch := FirstVictim();
      ghost var p := CutAt(blocks, lw);
      ghost var cs := chains[..p];
      DistinctPrefix(chains, p);
      if Deref(ch) != null {
        assert cs + [] == cs;
        SetSlot(ch, null, p, []);
      }
      assert chains == cs;
      blocks := blocks[..p];
    }

    /** Stores a chain pointer at a slot, and `last` and `total_len`. */
    method Link(s: Slot, head: Chain?, newLast: Chain?, len: nat,
                ghost k: nat, ghost tail: seq<Chain>, ghost tailBlocks: seq<Block>)
      requires Linked() && k <= |chains| && s == SlotAt(chains, k)
      requires List(head, tail) && Distinct(chains[..k] + tail) && |tailBlocks| == |tail|
      requires forall i {:trigger tail[i].block} :: 0 <= i < |tail| ==> tail[i].block == tailBlocks[i]
      modifies this`first, this`last, this`totalLen, this`chains, this`blocks
      modifies (if s.After? then {s.chain} else {})`next
      ensures Linked() && last == newLast && totalLen == len
      ensures chains == old(chains)[..k] + tail && blocks == old(blocks)[..k] + tailBlocks
    {
      last, totalLen, blocks := newLast, len, blocks[..k] + tailBlocks;
      SetSlot(s, head, k, tail);
    }

    /**
     The stores that finish an operation: a chain pointer at slot `s`, then `last`,
     `last_with_datap` and `total_len`. What they must be for the buffer to be well formed again
     is the precondition.
     */
    method Relink(s: Slot, head: Chain?, newLast: Chain?, lwd: Slot, len: nat,
                  ghost k: nat, ghost tail: seq<Chain>, ghost tailBlocks: seq<Block>, ghost newLw: nat)
      requires Linked() && k <= |chains| && s == SlotAt(chains, k)
      requires List(head, tail) && Distinct(chains[..k] + tail) && |tailBlocks| == |tail|
      requires forall i {:trigger tail[i].block} :: 0 <= i < |tail| ==> tail[i].block == tailBlocks[i]
      requires LastWithDataAt(blocks[..k] + tailBlocks, newLw)
      requires lwd == SlotAt(chains[..k] + tail, newLw)
      requires newLast == LastOf(chains[..k] + tail)
      requires len == |Flat(blocks[..k] + tailBlocks)|
      modifies this, (if s.After? then {s.chain} else {})`next
      ensures Valid()
      ensures chains == old(chains)[..k] + tail && blocks == old(blocks)[..k] + tailBlocks && lw == newLw
    {
      lastWithData, lw := lwd, newLw;
      Link(s, head, newLast, len, k, tail, tailBlocks);
    }

    /** The same, when the whole list is replaced by the one that starts at `head`. */
    method Adopt(head: Chain?, newLast: Chain?, lwd: Slot, len: nat,
                 ghost cs: seq<Chain>, ghost bs: seq<Block>, ghost newLw: nat)
      requires List(head, cs) && Distinct(cs) && |bs| == |cs|
      requires forall i {:trigger cs[i].block} :: 0 <= i < |cs| ==> cs[i].block == bs[i]
      requires LastWithDataAt(bs, newLw) && lwd == SlotAt(cs, newLw)
      requires newLast == LastOf(cs) && len == |Flat(bs)|
      modifies this
      ensures Valid() && chains == cs && blocks == bs && lw == newLw
    {
      first, last, lastWithData, totalLen := head, newLast, lwd, len;
      chains, blocks, lw := cs, bs, newLw;
    }

    /** evbuffer_chain_insert */
    method ChainInsert(c: Chain)
      requires Valid() && c !in chains && c.next == null
      modifies this, chains`next
      ensures Valid() && chains == old(chains[..CutAt(blocks, lw)]) + [c]
      ensures blocks == old(blocks[..CutAt(blocks, lw)]) + [c.block]
      ensures lw == if c.block.off > 0 then |chains| - 1 else old(lw)
      ensures Contents() == old(Contents()) + Data(c.block)
    {
      hide Flat;
      FlatSnoc(blocks[..CutAt(blocks, lw)], c.block);
      CutKeepsBytes(blocks, lw);
      DistinctPrefix(chains, CutAt(blocks, lw));
      DistinctConcat(chains[..CutAt(blocks, lw)], [c]);
      if Deref(lastWithData) == null {
        Relink(Head, c, c, lastWithData, totalLen + c.block.off, 0, [c], [c.block], 0);
      } else {
        var chp := FreeTrailingEmptyChains();
        ghost var p := |chains|;
        assert chains[..p] == chains && blocks[..p] == blocks;
        var lwd := if c.block.off != 0 then chp else lastWithData;
        Relink(chp, c, c, lwd, totalLen + c.block.off, p, [c], [c.block], if c.block.off != 0 then p else lw);
      }
    }

    /** Writes the memory of the chain at index `k`. */
    method StoreBlock(c: Chain, b: Block, ghost k: nat)
      requires Linked() && k < |chains| && c == chains[k]
      modifies this`blocks, c`block
      ensures Linked() && blocks == old(blocks)[k := b]
    {
      c.block := b;
      blocks := blocks[k := b];
      assert At(chains, k, c);
      forall i | 0 <= i < |chains|
        ensures chains[i].block == blocks[i]
      {
        assert At(chains, i, chains[i]);
      }
    }

    /** Writes the memory of the chain at index `k`, and `total_len`. */
    method Rewrite(c: Chain, b: Block, len: nat, ghost k: nat)
      requires WellFormed() && k < |chains| && c == chains[k]
      requires LastWithDataAt(blocks[k := b], lw) && len == |Flat(blocks[k := b])|
      modifies this`totalLen, this`blocks, c`block
      ensures Valid() && blocks == old(blocks)[k := b]
    {
      totalLen := len;
      StoreBlock(c, b, k);
    }

    /** The start of evbuffer_add: the chain to write to, allocated if there is none. */
    method WritableChain(size: nat) returns (c: Chain?)
      requires Valid()
      modifies this, chains`next
      ensures Valid() && Contents() == old(Contents()) && totalLen == old(totalLen)
      ensures c == null ==> size > MAX_CHAIN_BYTES && chains == old(chains)
      ensures c != null ==> chains != [] && c == chains[lw]
      ensures old(chains) != [] ==> c != null && chains == old(chains) && blocks == old(blocks) && lw == old(lw)
      ensures old(chains) == [] && c != null ==> fresh(c) && chains == [c] && size <= |c.block.buffer|
    {
      c := if Deref(lastWithData) == null then last else Deref(lastWithData);
      if c == null {
        c := NewChain(size);
        if c != null {
          ChainInsert(c);
        }
      }
    }

    /** evbuffer_add */
    method Add(data: seq<byte>) returns (r: int)
      requires Valid()
      modifies this, chains
      ensures Valid() && forall i :: 0 <= i < |chains| ==> chains[i] in old(chains) || fresh(chains[i])
      ensures r == if |data| > SIZE_MAX - old(totalLen) || |data| > MAX_CHAIN_BYTES then -1 else 0
      ensures Contents() == if r == 0 then old(Contents()) + data else old(Contents())
      ensures r == 0 && old(HasRoom(|data|)) ==> chains == old(chains) && lw == old(lw)
      ensures r == 0 && old(chains != [] && !HasRoom(|data|)) ==>
        && chains != [] && fresh(chains[|chains| - 1]) && lw == |chains| - 1
        && |blocks[lw].buffer| >= DoubledSize(old(|blocks[lw].buffer|))
    {
      hide Flat;
      if |data| > SIZE_MAX - totalLen {
        return -1;
      }
      var c := WritableChain(|data|);
      if c == null {
        return -1;
      }
      r := AddTo(c, data);
    }

    /** The last chain with data takes `n` bytes more, where its data is or moved to its front. */
    ghost predicate HasRoom(n: nat)
      requires WellFormed()
      reads this, chains
    {
      chains != [] && (SpaceLen(blocks[lw]) >= n || ShouldRealign(blocks[lw], n))
    }

    /** The rest of evbuffer_add, once the chain to write to is known. */
    method AddTo(c: Chain, data: seq<byte>) returns (r: int)
      requires Valid() && chains != [] && c == chains[lw]
      modifies this, chains
      ensures Valid() && forall i :: 0 <= i < |chains| ==> chains[i] in old(chains) || fresh(chains[i])
      ensures r == if |data| > MAX_CHAIN_BYTES then -1 else 0
      ensures Contents() == if r == 0 then old(Contents()) + data else old(Contents())
      ensures old(HasRoom(|data|)) ==> chains == old(chains) && lw == old(lw)
      ensures r == 0 && !old(HasRoom(|data|)) ==>
        && chains != [] && fresh(chains[|chains| - 1]) && lw == |chains| - 1
        && |blocks[lw].buffer| >= DoubledSize(old(|blocks[lw].buffer|))
    {
      hide Flat, Data;
      var remain := SpaceLen(c.block);
      if remain >= |data| {
        var b := Append(c.block, data);
        GrowLast(blocks, lw, b, data);
        Rewrite(c, b, totalLen + |data|, lw);
        return 0;
      } else if ShouldRealign(c.block, |data|) {
        var b := Append(Align(c.block), data);
        GrowLast(blocks, lw, b, data);
        Rewrite(c, b, totalLen + |data|, lw);
        return 0;
      }
      r := AddChain(c, data);
    }

    /** The part of evbuffer_add that fills the chain up and puts the rest in a new one. */
    method AddChain(c: Chain, data: seq<byte>) returns (r: int)
      requires Valid() && chains != [] && c == chains[lw] && SpaceLen(c.block) < |data|
      modifies this, chains
      ensures Valid() && forall i :: 0 <= i < |chains| ==> chains[i] in old(chains) || fresh(chains[i])
      ensures r == if |data| > MAX_CHAIN_BYTES then -1 else 0
      ensures Contents() == if r == 0 then old(Contents()) + data else old(Contents())
      ensures r == 0 ==>
        && chains != [] && fresh(chains[|chains| - 1]) && lw == |chains| - 1
        && |blocks[lw].buffer| >= DoubledSize(old(|blocks[lw].buffer|))
    {
      var toAlloc := |c.block.buffer|;
      if toAlloc <= 2048 {
        toAlloc := toAlloc * 2;
      }
      if |data| > toAlloc {
        toAlloc := |data|;
      }
      var tmp := NewChain(toAlloc);
      if tmp == null {
        return -1;
      }
      FillAndInsert(c, tmp, data);
      return 0;
    }

    /** Fills chain `c` up with the front of `data` and appends `tmp` holding the rest. */
    method FillAndInsert(c: Chain, tmp: Chain, data: seq<byte>)
      requires Valid() && chains != [] && c == chains[lw] && SpaceLen(c.block) < |data|
      requires tmp !in chains && tmp.next == null && tmp.block.off == 0
      requires |data| <= SpaceLen(tmp.block)
      modifies this, chains, tmp
      ensures Valid() && forall i :: 0 <= i < |chains| ==> chains[i] in old(chains) || chains[i] == tmp
      ensures Contents() == old(Contents()) + data
      ensures chains != [] && chains[|chains| - 1] == tmp && lw == |chains| - 1
      ensures |tmp.block.buffer| == old(|tmp.block.buffer|)
    {
      hide Flat, Distinct;
      var remain := SpaceLen(c.block);
      tmp.block := Append(tmp.block, data[remain..]);
      if remain != 0 {
        var b := Append(c.block, data[..remain]);
        GrowLast(blocks, lw, b, data[..remain]);
        Rewrite(c, b, totalLen + remain, lw);
      }
      assert Contents() == old(Contents()) + data[..remain];
      SplitAt(old(Contents()), data, remain);
      ChainInsert(tmp);
    }

    /** How many bytes fit in front of the data of the first chain. */
    ghost function FrontRoom(): nat
      reads this`blocks
    {
      if blocks == [] then 0 else if blocks[0].off == 0 then |blocks[0].buffer| else blocks[0].misalign
    }

    /**
     evbuffer_prepend. When the remainder needs a chain larger than any allocation, what fitted
     in the first chain stays prepended although the call fails.
     */
    method Prepend(data: seq<byte>) returns (r: int)
      requires Valid()
      modifies this, chains
      ensures Valid() && forall i :: 0 <= i < |chains| ==> chains[i] in old(chains) || fresh(chains[i])
      ensures r == if |data| > SIZE_MAX - old(totalLen) || |data| - old(FrontRoom()) > MAX_CHAIN_BYTES then -1 else 0
      ensures r == 0 ==> Contents() == data + old(Contents())
      ensures r != 0 && |data| > SIZE_MAX - old(totalLen) ==> Contents() == old(Contents())
      ensures r != 0 && |data| <= SIZE_MAX - old(totalLen) ==>
                Contents() == data[|data| - old(FrontRoom())..] + old(Contents())
    {
      if |data| > SIZE_MAX - totalLen {
        return -1;
      }
      var c := first;
      if c == null {
        c := NewChain(|data|);
        if c == null {
          assert data[|data|..] == [];
          return -1;
        }
        ChainInsert(c);
      }
      r := PrependTo(c, data);
    }

    /** The part of evbuffer_prepend that uses the space in the first chain `c`. */
    method PrependTo(c: Chain, data: seq<byte>) returns (r: int)
      requires Valid() && chains != [] && c == chains[0]
      modifies this, chains
      ensures Valid() && forall i :: 0 <= i < |chains| ==> chains[i] in old(chains) || fresh(chains[i])
      ensures r == if |data| - old(FrontRoom()) > MAX_CHAIN_BYTES then -1 else 0
      ensures r == 0 ==> Contents() == data + old(Contents())
      ensures r != 0 ==> Contents() == data[|data| - old(FrontRoom())..] + old(Contents())
    {
      var room := if c.block.off == 0 then |c.block.buffer| else c.block.misalign;
      if room >= |data| {
        GrowFront(c, data);
        return 0;
      }
      var rest := |data| - room;
      SplitBefore(data, rest, Contents());
      GrowFront(c, data[rest..]);
      var tmp := NewChain(rest);
      if tmp == null {
        return -1;
      }
      PrependChain(c, tmp, data[..rest]);
      return 0;
    }

    /** Copies `data` in front of the data of the first chain, where it fits. */
    method GrowFront(c: Chain, data: seq<byte>)
      requires Valid() && chains != [] && c == chains[0] && |data| <= FrontRoom()
      modifies this`totalLen, this`blocks, c`block
      ensures Valid() && Contents() == data + old(Contents())
      ensures blocks != [] && blocks[0].off == old(blocks[0].off) + |data|
    {
      var b := PutBefore(if c.block.off == 0 then FillFromBack(c.block) else c.block, data);
      GrowFirst(blocks, lw, b, data);
      Rewrite(c, b, totalLen + |data|, 0);
    }

    /** The part of evbuffer_prepend that puts a new chain in front. */
    method PrependChain(c: Chain, tmp: Chain, data: seq<byte>)
      requires Valid() && chains != [] && c == chains[0] && c.block.off > 0
      requires tmp !in chains && tmp.block.off == 0 && 0 < |data| <= |tmp.block.buffer|
      modifies this, tmp
      ensures Valid() && chains == [tmp] + old(chains) && Contents() == data + old(Contents())
    {
      tmp.block := PutBefore(FillFromBack(tmp.block), data);
      tmp.next := c;
      ListCons(tmp, c, chains);
      DistinctConcat([tmp], chains);
      FlatConcat([tmp.block], blocks);
      var lwd := if lastWithData == Head then After(tmp) else lastWithData;
      Adopt(tmp, last, lwd, totalLen + |data|, [tmp] + chains, [tmp.block] + blocks, lw + 1);
    }

    /** evbuffer_drain */
    method Drain(len: nat) returns (r: int)
      requires Valid()
      modifies this, chains
      ensures Valid() && forall i :: 0 <= i < |chains| ==> chains[i] in old(chains)
      ensures r == 0
      ensures Contents() == if len >= old(totalLen) then [] else old(Contents())[len..]
    {
      r := 0;
      if totalLen == 0 {
        return;
      }
      if len >= totalLen {
        Adopt(null, null, Head, 0, [], [], 0);
      } else {
        DrainPart(len);
      }
    }

    /** The loop of evbuffer_drain: how many chains go entirely, and what is left to drop. */
    method WholeChains(len: nat) returns (c: Chain, left: nat, lwd: Slot, ghost k: nat)
      requires Valid() && len < totalLen
      ensures k <= lw < |chains| && c == chains[k] && left < c.block.off
      ensures len == |Flat(blocks[..k])| + left && lwd == SlotAt(chains[k..], lw - k)
    {
      lwd, left, k := lastWithData, len, 0;
      c := first;
      while left >= c.block.off
        invariant k <= lw && c == chains[k] && lwd == SlotAt(chains[k..], lw - k)
        invariant len == |Flat(blocks[..k])| + left
        decreases |chains| - k
      {
        assert c.next == ChainAt(chains, k + 1);
        FlatPrefixGrows(blocks, k);
        if k == lw {
          DropsBeforeLast(blocks, lw, k + 1);
        }
        left := left - c.block.off;
        assert At(chains, k, c) && At(chains, lw - 1, chains[lw - 1]) && At(chains, lw, chains[lw]);
        if c == Deref(lwd) {
          lwd := Head;
        }
        if lwd == After(c) {
          lwd := Head;
        }
        c := c.next;
        k := k + 1;
      }
    }

    method DrainPart(len: nat)
      requires Valid() && len < totalLen
      modifies this, chains
      ensures Valid() && forall i :: 0 <= i < |chains| ==> chains[i] in old(chains)
      ensures Contents() == old(Contents())[len..]
    {
      var c, left, lwd, k := WholeChains(len);
      StartAt(c, left, lwd, totalLen - len, k);
    }

    /** Makes the chain at index `k`, without its first `n` bytes, the first one. */
    method StartAt(c: Chain, n: nat, lwd: Slot, len: nat, ghost k: nat)
      requires Valid() && k <= lw < |chains| && c == chains[k] && n < c.block.off
      requires lwd == SlotAt(chains[k..], lw - k) && len == totalLen - |Flat(blocks[..k])| - n
      modifies this, c`block
      ensures Valid() && chains == old(chains)[k..] && lw == old(lw) - k
      ensures Contents() == old(Contents())[|Flat(old(blocks)[..k])| + n..]
    {
      hide Flat;
      DropFront(blocks, k, n);
      Rewrite(c, Advance(c.block, n), totalLen - n, k);
      DropChains(c, lwd, len, k);
    }

    /** Makes the chain at index `k` the first one. */
    method DropChains(c: Chain, lwd: Slot, len: nat, ghost k: nat)
      requires Valid() && k <= lw < |chains| && c == chains[k]
      requires lwd == SlotAt(chains[k..], lw - k) && len == totalLen - |Flat(blocks[..k])|
      modifies this
      ensures Valid() && chains == old(chains)[k..] && blocks == old(blocks)[k..] && lw == old(lw) - k
    {
      ListTail(first, chains, k);
      DistinctSuffix(chains, k);
      FlatConcat(blocks[..k], blocks[k..]);
      assert blocks == blocks[..k] + blocks[k..];
      Adopt(c, last, lwd, len, chains[k..], blocks[k..], lw - k);
    }

    /**
     The loop of evbuffer_copyout_from: copies whole remainders of chains, from position `p` of
     the chain at index `k` on, as long as they are wanted.
     */
    method CopyWhole(start: Chain?, p: nat, n: nat, ghost k: nat)
      returns (out: seq<byte>, c: Chain?, at: nat, left: nat, ghost j: nat)
      requires Valid() && k <= |chains| && start == ChainAt(chains, k)
      requires if k < |chains| then p <= blocks[k].off else p == 0
      requires |Flat(blocks[..k])| + p + n <= totalLen
      ensures j <= |chains| && c == ChainAt(chains, j) && left <= n
      ensures left > 0 ==> c != null && at + left < blocks[j].off
      ensures |Flat(blocks[..j])| + at == |Flat(blocks[..k])| + p + n - left <= totalLen
      ensures out == Flat(blocks)[|Flat(blocks[..k])| + p..|Flat(blocks[..j])| + at]
    {
      hide Flat, SlotAt, Data;
      c, at, left, j, out := start, p, n, k, [];
      ghost var from := |Flat(blocks[..k])| + p;
      EndOfList(blocks, k);
      while left > 0 && left >= c.block.off - at
        invariant j <= |chains| && c == ChainAt(chains, j)
        invariant if j < |chains| then at <= blocks[j].off else at == 0
        invariant |Flat(blocks[..j])| + at == from + n - left <= totalLen
        invariant left <= n && out == Flat(blocks)[from..|Flat(blocks[..j])| + at]
        invariant left > 0 ==> c != null
        decreases |chains| - j
      {
        assert c.next == ChainAt(chains, j + 1);
        var copylen := c.block.off - at;
        CopyRest(blocks, j, at, from, out);
        out := out + Data(c.block)[at..];
        left := left - copylen;
        c, at, j := c.next, 0, j + 1;
        EndOfList(blocks, j);
      }
    }

    /** evbuffer_copyout_from: `n` bytes from position `p` of the chain at index `k`. */
    method CopyFrom(start: Chain?, p: nat, n: nat, ghost k: nat) returns (out: seq<byte>)
      requires Valid() && k <= |chains| && start == ChainAt(chains, k)
      requires if k < |chains| then p <= blocks[k].off else p == 0
      requires |Flat(blocks[..k])| + p + n <= totalLen
      ensures out == Contents()[|Flat(blocks[..k])| + p..|Flat(blocks[..k])| + p + n]
    {
      var whole, c, at, left, j := CopyWhole(start, p, n, k);
      out := whole;
      if left > 0 {
        CopyStep(blocks, j, at, left, |Flat(blocks[..k])| + p, out);
        out := out + Data(c.block)[at..at + left];
      }
    }

    /** evbuffer_remove: reads and drains. */
    method Remove(datlen: nat) returns (out: seq<byte>)
      requires Valid()
      modifies this, chains
      ensures Valid() && forall i :: 0 <= i < |chains| ==> chains[i] in old(chains)
      ensures |out| == if datlen <= old(totalLen) then datlen else old(totalLen)
      ensures out + Contents() == old(Contents())
    {
      var n := if datlen > totalLen then totalLen else datlen;
      out := [];
      if n > 0 {
        out := CopyFrom(first, 0, n, 0);
        var _ := Drain(n);
      }
    }
  }
}
