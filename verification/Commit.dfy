/**
 evbuffer_reserve_space with several vectors, and evbuffer_commit_space.
 */
module Commits {
  import opened Chains
  import opened EvBuffers
  import opened Reserves
  import Splices

  /** The memory behind the data of a block. */
  function Space(b: Block): (s: seq<byte>)
    ensures |s| == SpaceLen(b)
  {
    b.buffer[b.misalign + b.off..]
  }

  /** The vector that covers all the space of a chain. */
  ghost function SpaceVec(c: Chain, b: Block): Vec {
    Vec(c, b.misalign + b.off, SpaceLen(b))
  }

  /** `vecs` are the spaces of consecutive chains, from index `f` on. */
  ghost predicate Cover(cs: seq<Chain>, bs: seq<Block>, f: nat, vecs: seq<Vec>) {
    && |cs| == |bs| && f + |vecs| <= |bs|
    && forall i :: 0 <= i < |vecs| ==> vecs[i] == SpaceVec(cs[f + i], bs[f + i])
  }

  lemma {:induction false} CoverGrows(cs: seq<Chain>, bs: seq<Block>, f: nat, vecs: seq<Vec>)
    requires Cover(cs, bs, f, vecs) && f + |vecs| < |bs|
    ensures Cover(cs, bs, f, vecs + [SpaceVec(cs[f + |vecs|], bs[f + |vecs|])])
  {
  }

  /** The bytes that the vectors have room for */
  function VecSum(vecs: seq<Vec>): nat {
    if vecs == [] then 0 else VecSum(vecs[..|vecs| - 1]) + vecs[|vecs| - 1].len
  }

  /**
   `vecs` are in the spaces of at most `n` chains, in order and without a gap from the first chain
   that has any, and together they are at least `size` bytes.
   */
  ghost predicate Reserved(cs: seq<Chain>, bs: seq<Block>, lw: nat, vecs: seq<Vec>, size: nat, n: nat) {
    |vecs| <= n && lw < |bs| && Fits(cs, bs, FirstWithSpace(bs, lw), vecs) && VecSum(vecs) >= size
  }

  /** One vector more, the space of the next chain or a part of it */
  lemma {:induction false} OneMoreVec(cs: seq<Chain>, bs: seq<Block>, f: nat, vecs: seq<Vec>, len: nat)
    requires Fits(cs, bs, f, vecs) && f + |vecs| < |bs| && len <= SpaceLen(bs[f + |vecs|])
    ensures var v := SpaceVec(cs[f + |vecs|], bs[f + |vecs|]).(len := len);
            Fits(cs, bs, f, vecs + [v]) && VecSum(vecs + [v]) == VecSum(vecs) + len
  {
    assert (vecs + [SpaceVec(cs[f + |vecs|], bs[f + |vecs|]).(len := len)])[..|vecs|] == vecs;
  }

  /**
   evbuffer_read_setup_vecs_. Without `exact` the vectors are all of the spaces; with it they are
   cut to the number of bytes wanted.
   */
  method ReadSetupVecs(buf: EvBuffer, howmuch: nat, n: nat, exact: bool, ghost count: nat) returns (vecs: seq<Vec>)
    requires buf.Valid() && count <= n && Offers(buf.blocks, buf.lw, howmuch, count)
    ensures Reserved(buf.chains, buf.blocks, buf.lw, vecs, howmuch, n) && |vecs| <= count
    ensures !exact ==> Cover(buf.chains, buf.blocks, FirstWithSpace(buf.blocks, buf.lw), vecs)
    ensures exact ==> VecSum(vecs) == howmuch
  {
    hide Flat, LastWithDataAt, Distinct, VecSum;
    NoVecs();
    ghost var f := FirstWithSpace(buf.blocks, buf.lw);
    var c := buf.Deref(buf.lastWithData);
    if SpaceLen(c.block) == 0 {
      c := c.next;
    }
    var i, soFar := 0, 0;
    vecs := [];
    while i < n && soFar < howmuch
      invariant i == |vecs| <= count && Fits(buf.chains, buf.blocks, f, vecs) && soFar == VecSum(vecs)
      invariant !exact ==> Cover(buf.chains, buf.blocks, f, vecs)
      invariant soFar >= howmuch || soFar == SpaceSum(buf.blocks, f, f + i)
      invariant exact ==> soFar <= howmuch
      invariant c == ChainAt(buf.chains, f + i)
      decreases count - i
    {
      assert i < count && c == buf.chains[f + i] && c.next == ChainAt(buf.chains, f + i + 1);
      var avail := SpaceLen(c.block);
      if avail > howmuch - soFar && exact {
        avail := howmuch - soFar;
      } else {
        MoreSpace(buf.blocks, f, f + i);
      }
      if !exact {
        CoverGrows(buf.chains, buf.blocks, f, vecs);
      }
      OneMoreVec(buf.chains, buf.blocks, f, vecs, avail);
      vecs := vecs + [Vec(c, c.block.misalign + c.block.off, avail)];
      soFar, c, i := soFar + avail, c.next, i + 1;
    }
  }

  lemma {:induction false} NoVecs()
    ensures VecSum([]) == 0
  {
  }

  lemma {:induction false} MoreSpace(bs: seq<Block>, f: nat, k: nat)
    requires f <= k < |bs|
    ensures SpaceSum(bs, f, k + 1) == SpaceSum(bs, f, k) + SpaceLen(bs[k])
  {
  }

  /** evbuffer_reserve_space with two or more vectors: no byte that is stored moves. */
  method ReserveSeveral(buf: EvBuffer, size: nat, n: nat) returns (r: int, vecs: seq<Vec>)
    requires buf.Valid() && n >= 2
    modifies buf, buf.chains
    ensures buf.Valid() && buf.Contents() == old(buf.Contents())
    ensures Kept(old(buf.chains), old(buf.blocks), buf.chains, buf.blocks)
    ensures forall i :: 0 <= i < |buf.chains| ==> buf.chains[i] in old(buf.chains) || fresh(buf.chains[i])
    ensures r >= -1 && (size <= MAX_CHAIN_BYTES ==> r >= 0)
    ensures r >= 0 ==> r == |vecs| && Reserved(buf.chains, buf.blocks, buf.lw, vecs, size, n)
    ensures r >= 0 ==> Cover(buf.chains, buf.blocks, FirstWithSpace(buf.blocks, buf.lw), vecs)
    ensures r >= 0 && |old(buf.chains)| - old(buf.lw) < n ==>
      buf.lw == old(buf.lw) && Extends(old(buf.chains), old(buf.blocks), buf.chains, buf.blocks, size)
  {
    vecs := [];
    var ok, count := ExpandFast(buf, size, n);
    if ok < 0 {
      return -1, vecs;
    }
    vecs := ReadSetupVecs(buf, size, n, false, count);
    r := |vecs|;
  }

  /** Turns the first `n` bytes behind the data into data. */
  function Take(b: Block, n: nat): (r: Block)
    requires n <= SpaceLen(b)
    ensures Data(r) == Data(b) + Space(b)[..n] && r.off == b.off + n
  {
    Block(b.buffer, b.misalign, b.off + n)
  }

  /** Growing a block at or behind the last one with data appends to the whole. */
  lemma {:induction false} GrowAt(bs: seq<Block>, lw: nat, k: nat, b: Block, data: seq<byte>)
    requires LastWithDataAt(bs, lw) && lw <= k < |bs| && Data(b) == Data(bs[k]) + data
    ensures LastWithDataAt(bs[k := b], if data == [] then lw else k)
    ensures Flat(bs[k := b]) == Flat(bs) + data
  {
    FlatUpdate(bs, k, b);
    FlatAround(bs, k);
    FlatOfEmpty(bs[k + 1..]);
  }

  /** The vectors are acceptable: each starts at the space of its chain and is no longer than it. */
  ghost predicate Fits(cs: seq<Chain>, bs: seq<Block>, f: nat, vecs: seq<Vec>) {
    && |cs| == |bs| && f + |vecs| <= |bs|
    && forall i :: 0 <= i < |vecs| ==>
         && vecs[i].chain == cs[f + i] && vecs[i].at == bs[f + i].misalign + bs[f + i].off
         && vecs[i].len <= SpaceLen(bs[f + i])
  }

  /** The bytes the vectors commit. */
  ghost function Taken(bs: seq<Block>, f: nat, vecs: seq<Vec>): seq<byte>
    requires f + |vecs| <= |bs| && forall i :: 0 <= i < |vecs| ==> vecs[i].len <= SpaceLen(bs[f + i])
  {
    if vecs == [] then []
    else
      var n := |vecs| - 1;
      Taken(bs, f, vecs[..n]) + Space(bs[f + n])[..vecs[n].len]
  }

  /** Each block has as many bytes more as its vector commits. */
  ghost predicate TakenAt(bs: seq<Block>, bs': seq<Block>, f: nat, vecs: seq<Vec>) {
    && f + |vecs| <= |bs| == |bs'|
    && forall i :: 0 <= i < |bs| ==>
         bs'[i].off == bs[i].off + (if f <= i < f + |vecs| then vecs[i - f].len else 0)
  }

  lemma {:induction false} TakenMore(bs: seq<Block>, bs': seq<Block>, f: nat, vecs: seq<Vec>, i: nat)
    requires i < |vecs| && f + |vecs| <= |bs| && TakenAt(bs, bs', f, vecs[..i])
    requires bs'[f + i] == bs[f + i] && vecs[i].len <= SpaceLen(bs[f + i])
    ensures TakenAt(bs, bs'[f + i := Take(bs'[f + i], vecs[i].len)], f, vecs[..i + 1])
  {
  }

  lemma {:induction false} TakenStep(bs: seq<Block>, f: nat, vecs: seq<Vec>, i: nat)
    requires f + |vecs| <= |bs| && forall j :: 0 <= j < |vecs| ==> vecs[j].len <= SpaceLen(bs[f + j])
    requires i < |vecs|
    ensures Flat(bs) + Taken(bs, f, vecs[..i]) + Space(bs[f + i])[..vecs[i].len] ==
            Flat(bs) + Taken(bs, f, vecs[..i + 1])
  {
    assert vecs[..i + 1][..i] == vecs[..i];
    var a, b := Taken(bs, f, vecs[..i]), Space(bs[f + i])[..vecs[i].len];
    assert Taken(bs, f, vecs[..i + 1]) == a + b;
    assert Flat(bs) + a + b == Flat(bs) + (a + b);
  }

  /** One turn of the second pass of evbuffer_commit_space. */
  method CommitOne(buf: EvBuffer, slot: Slot, len: nat, ghost k: nat) returns (next: Slot)
    requires buf.Valid() && buf.lw <= k < |buf.chains| && slot == SlotAt(buf.chains, k)
    requires len <= SpaceLen(buf.blocks[k])
    modifies buf`blocks, buf`totalLen, buf`lastWithData, buf`lw, buf.chains`block
    ensures buf.Valid() && buf.blocks == old(buf.blocks)[k := Take(old(buf.blocks)[k], len)]
    ensures buf.Contents() == old(buf.Contents()) + Space(old(buf.blocks)[k])[..len]
    ensures buf.lw == if len == 0 then old(buf.lw) else k
    ensures next == SlotAt(buf.chains, k + 1)
  {
    hide Flat;
    var c := buf.Deref(slot);
    assert c == buf.chains[k];
    ghost var b := Take(c.block, len);
    GrowAt(buf.blocks, buf.lw, k, b, Space(c.block)[..len]);
    buf.totalLen := buf.totalLen + len;
    if len > 0 {
      buf.lastWithData, buf.lw := slot, k;
    }
    buf.StoreBlock(c, Take(c.block, len), k);
    next := After(c);
  }

  /** Pass 1 of evbuffer_commit_space: are the vectors the spaces of the chains from `start` on? */
  method CheckVecs(buf: EvBuffer, start: Chain?, vecs: seq<Vec>, ghost f: nat) returns (ok: bool)
    requires buf.Valid() && f <= |buf.chains| && start == ChainAt(buf.chains, f)
    ensures ok <==> Fits(buf.chains, buf.blocks, f, vecs)
  {
    var c := start;
    for i := 0 to |vecs|
      invariant f + i <= |buf.chains| && c == ChainAt(buf.chains, f + i)
      invariant Fits(buf.chains, buf.blocks, f, vecs[..i])
    {
      if c == null || vecs[i].chain != c || vecs[i].at != c.block.misalign + c.block.off
         || vecs[i].len > SpaceLen(c.block) {
        return false;
      }
      assert c.next == ChainAt(buf.chains, f + i + 1);
      c := c.next;
    }
    assert vecs[..|vecs|] == vecs;
    ok := true;
  }

  /** Pass 2 of evbuffer_commit_space. */
  method CommitAll(buf: EvBuffer, start: Slot, vecs: seq<Vec>, ghost f: nat)
    requires buf.Valid() && buf.chains != [] && f <= |buf.chains| && start == SlotAt(buf.chains, f)
    requires buf.lw <= f && Fits(buf.chains, buf.blocks, f, vecs)
    modifies buf`blocks, buf`totalLen, buf`lastWithData, buf`lw, buf.chains`block
    ensures buf.Valid() && buf.Contents() == old(buf.Contents()) + Taken(old(buf.blocks), f, vecs)
    ensures TakenAt(old(buf.blocks), buf.blocks, f, vecs)
  {
    hide SlotAt, Flat;
    var slot := start;
    ghost var bs := buf.blocks;
    for i := 0 to |vecs|
      invariant buf.Valid() && slot == SlotAt(buf.chains, f + i) && |buf.blocks| == |bs|
      invariant buf.lw <= f + i && (buf.lw == f + i ==> i == 0)
      invariant forall j :: f + i <= j < |bs| ==> buf.blocks[j] == bs[j]
      invariant TakenAt(bs, buf.blocks, f, vecs[..i])
      invariant buf.Contents() == Flat(bs) + Taken(bs, f, vecs[..i])
    {
      TakenStep(bs, f, vecs, i);
      TakenMore(bs, buf.blocks, f, vecs, i);
      hide TakenAt, Taken, Take;
      slot := CommitOne(buf, slot, vecs[i].len, f + i);
    }
    assert vecs[..|vecs|] == vecs;
  }

  /** The case of evbuffer_commit_space where the one vector is the space of the last chain. */
  method CommitLast(buf: EvBuffer, len: nat)
    requires buf.Valid() && buf.chains != [] && len <= SpaceLen(buf.last.block)
    modifies buf, buf.last`block
    ensures buf.Contents() == old(buf.Contents()) + Space(old(buf.last.block))[..len]
    ensures buf.chains == old(buf.chains)
    ensures buf.blocks == old(buf.blocks)[|buf.chains| - 1 := Take(old(buf.last.block), len)]
    ensures buf.Valid() <==> len == 0 || |buf.chains| <= old(buf.lw) + 2
  {
    hide Cover, Flat, At, ChainAt;
    ghost var k, b := |buf.chains| - 1, Take(buf.last.block, len);
    GrowAt(buf.blocks, buf.lw, k, b, Space(buf.last.block)[..len]);
    Splices.AdvanceReachesLast(buf.blocks[k := b], buf.lw);
    buf.totalLen := buf.totalLen + len;
    buf.StoreBlock(buf.last, Take(buf.last.block, len), k);
    if len > 0 {
      ghost var lw := buf.lw;
      Splices.AdvanceLastWithData(buf, lw);
      buf.lw := Splices.AdvanceFrom(buf.blocks, lw);
    }
  }

  /** The vector is the space of the last chain, which evbuffer_commit_space looks for first. */
  ghost predicate OnLast(cs: seq<Chain>, bs: seq<Block>, vecs: seq<Vec>) {
    && |vecs| == 1 && |cs| == |bs| > 0 && vecs[0].chain == cs[|cs| - 1]
    && vecs[0].at == bs[|bs| - 1].misalign + bs[|bs| - 1].off
  }

  /** Bytes are committed to the last chain alone, and there is a chain between it and the last one with data. */
  ghost predicate Skips(cs: seq<Chain>, bs: seq<Block>, lw: nat, vecs: seq<Vec>) {
    OnLast(cs, bs, vecs) && 0 < vecs[0].len <= SpaceLen(bs[|bs| - 1]) && |cs| > lw + 2
  }

  /**
   evbuffer_commit_space. The buffer stays well formed exactly if it is not the case that bytes are
   committed to the last chain alone and an empty chain is skipped by that.
   */
  method CommitSpace(buf: EvBuffer, vecs: seq<Vec>) returns (r: int)
    requires buf.Valid()
    modifies buf, buf.chains`block
    ensures buf.Valid() <==> !Skips(buf.chains, old(buf.blocks), old(buf.lw), vecs)
    ensures buf.chains == old(buf.chains)
    ensures vecs == [] ==> r == 0 && buf.Contents() == old(buf.Contents())
    ensures vecs != [] && OnLast(buf.chains, old(buf.blocks), vecs) ==>
              if vecs[0].len <= SpaceLen(old(buf.blocks)[|buf.chains| - 1]) then
                && r == 0
                && buf.Contents() == old(buf.Contents()) + Space(old(buf.blocks)[|buf.chains| - 1])[..vecs[0].len]
                && TakenAt(old(buf.blocks), buf.blocks, |buf.chains| - 1, vecs)
              else
                r == -1 && buf.Contents() == old(buf.Contents())
    ensures vecs != [] && !OnLast(buf.chains, old(buf.blocks), vecs) && buf.chains == [] ==> r == -1
    ensures vecs != [] && !OnLast(buf.chains, old(buf.blocks), vecs) && buf.chains != [] ==>
              var f := FirstWithSpace(old(buf.blocks), old(buf.lw));
              if Fits(buf.chains, old(buf.blocks), f, vecs) then
                && r == 0 && buf.Contents() == old(buf.Contents()) + Taken(old(buf.blocks), f, vecs)
                && TakenAt(old(buf.blocks), buf.blocks, f, vecs)
              else
                r == -1 && buf.Contents() == old(buf.Contents())
  {
    hide Flat, At, Distinct, Cover, Space;
    if |vecs| == 0 {
      return 0;
    }
    if |vecs| == 1 && buf.last != null && vecs[0].chain == buf.last
       && vecs[0].at == buf.last.block.misalign + buf.last.block.off {
      if vecs[0].len > SpaceLen(buf.last.block) {
        return -1;
      }
      CommitLast(buf, vecs[0].len);
      return 0;
    }
    var slot := buf.lastWithData;
    if buf.Deref(slot) == null {
      return -1;
    }
    if SpaceLen(buf.Deref(slot).block) == 0 {
      slot := After(buf.Deref(slot));
    }
    ghost var f := FirstWithSpace(buf.blocks, buf.lw);
    var ok := CheckVecs(buf, buf.Deref(slot), vecs, f);
    if !ok {
      return -1;
    }
    CommitAll(buf, slot, vecs, f);
    return 0;
  }

  // ---------- a caller that fills what it reserved ----------

  /** Memory behind the data is written; the data is not. */
  function FillSpace(b: Block, data: seq<byte>): (r: Block)
    requires |data| <= SpaceLen(b)
    ensures r.misalign == b.misalign && r.off == b.off && |r.buffer| == |b.buffer|
    ensures Data(r) == Data(b) && Space(r)[..|data|] == data
  {
    var at := b.misalign + b.off;
    Block(b.buffer[..at] + data + b.buffer[at + |data|..], b.misalign, b.off)
  }

  function Join(datas: seq<seq<byte>>): seq<byte> {
    if datas == [] then [] else Join(datas[..|datas| - 1]) + datas[|datas| - 1]
  }

  /** What a caller may hold while it writes: at most as many strings as vectors, none too long. */
  ghost predicate CanHold(vecs: seq<Vec>, datas: seq<seq<byte>>) {
    |datas| <= |vecs| && forall i :: 0 <= i < |datas| ==> |datas[i]| <= vecs[i].len
  }

  /** The caller writes through a vector it was given. */
  method Fill(buf: EvBuffer, v: Vec, data: seq<byte>, ghost k: nat)
    requires buf.Valid() && k < |buf.chains| && v.chain == buf.chains[k]
    requires v.at == buf.blocks[k].misalign + buf.blocks[k].off && |data| <= SpaceLen(buf.blocks[k])
    modifies buf`blocks, buf`totalLen, v.chain`block
    ensures buf.Valid() && buf.Contents() == old(buf.Contents())
    ensures buf.blocks == old(buf.blocks)[k := FillSpace(old(buf.blocks)[k], data)]
  {
    SameData(buf.blocks, buf.lw, k, FillSpace(buf.blocks[k], data));
    buf.Rewrite(v.chain, FillSpace(v.chain.block, data), buf.totalLen, k);
  }

  /** Writes one string through each vector, and says how much of each vector is to be committed. */
  method FillAll(buf: EvBuffer, vecs: seq<Vec>, datas: seq<seq<byte>>, ghost f: nat) returns (used: seq<Vec>)
    requires buf.Valid() && Fits(buf.chains, buf.blocks, f, vecs) && CanHold(vecs, datas)
    modifies buf`blocks, buf`totalLen, buf.chains`block
    ensures buf.Valid() && buf.Contents() == old(buf.Contents()) && |used| == |datas|
    ensures forall i :: 0 <= i < |buf.blocks| ==> SpaceLen(buf.blocks[i]) == SpaceLen(old(buf.blocks)[i])
    ensures Fits(buf.chains, buf.blocks, f, used)
    ensures forall i :: 0 <= i < |datas| ==>
      used[i].len == |datas[i]| && Space(buf.blocks[f + i])[..|datas[i]|] == datas[i]
  {
    hide SpaceSum, Flat, LastWithDataAt, At, Distinct, LastOf;
    used := [];
    ghost var bs := buf.blocks;
    for i := 0 to |datas|
      invariant buf.Valid() && buf.Contents() == Flat(bs) && |buf.blocks| == |bs| && |used| == i
      invariant forall j :: 0 <= j < |bs| ==> SpaceLen(buf.blocks[j]) == SpaceLen(bs[j])
      invariant forall j :: f + i <= j < |bs| ==> buf.blocks[j] == bs[j]
      invariant Fits(buf.chains, buf.blocks, f, used)
      invariant forall j :: 0 <= j < i ==>
        used[j].len == |datas[j]| && Space(buf.blocks[f + j])[..|datas[j]|] == datas[j]
    {
      assert vecs[i].chain == buf.chains[f + i];
      Fill(buf, vecs[i], datas[i], f + i);
      used := used + [vecs[i].(len := |datas[i]|)];
    }
  }

  /** Committing vectors that were filled commits what they were filled with. */
  lemma {:induction false} TakenIsJoined(bs: seq<Block>, f: nat, vecs: seq<Vec>, datas: seq<seq<byte>>)
    requires |vecs| == |datas| && f + |vecs| <= |bs|
    requires forall i :: 0 <= i < |vecs| ==> vecs[i].len == |datas[i]| <= SpaceLen(bs[f + i])
    requires forall i :: 0 <= i < |vecs| ==> Space(bs[f + i])[..|datas[i]|] == datas[i]
    ensures Taken(bs, f, vecs) == Join(datas)
  {
    if vecs != [] {
      var n := |vecs| - 1;
      TakenIsJoined(bs, f, vecs[..n], datas[..n]);
    }
  }

  /** The vectors begin with these strings. */
  ghost predicate Filled(bs: seq<Block>, f: nat, used: seq<Vec>, datas: seq<seq<byte>>) {
    && |used| == |datas| && f + |used| <= |bs|
    && forall i :: 0 <= i < |used| ==>
         used[i].len == |datas[i]| <= SpaceLen(bs[f + i]) && Space(bs[f + i])[..|datas[i]|] == datas[i]
  }

  /**
   Committing vectors that were filled commits what they were filled with; a single one that is in
   the first chain with space and in the last chain skips none.
   */
  lemma {:induction false} FilledFacts(
      cs: seq<Chain>, bs: seq<Block>, lw: nat, used: seq<Vec>, datas: seq<seq<byte>>)
    requires lw < |bs| && Distinct(cs) && Fits(cs, bs, FirstWithSpace(bs, lw), used)
    requires Filled(bs, FirstWithSpace(bs, lw), used, datas)
    ensures Taken(bs, FirstWithSpace(bs, lw), used) == Join(datas) && (used == [] ==> Join(datas) == [])
    ensures !Skips(cs, bs, lw, used)
    ensures OnLast(cs, bs, used) ==>
      used[0].len <= SpaceLen(bs[|bs| - 1]) && Space(bs[|bs| - 1])[..used[0].len] == Join(datas)
  {
    TakenIsJoined(bs, FirstWithSpace(bs, lw), used, datas);
    if OnLast(cs, bs, used) {
      assert At(cs, FirstWithSpace(bs, lw), used[0].chain) && At(cs, |cs| - 1, used[0].chain);
      assert datas == [datas[0]] && Join(datas) == Join(datas[..0]) + datas[0];
    }
  }

  /**
   Writing through any prefix of the vectors that evbuffer_reserve_space returned, and committing
   no more than was offered, appends exactly those bytes in order.
   */
  method WriteReserved(buf: EvBuffer, vecs: seq<Vec>, datas: seq<seq<byte>>, ghost size: nat, ghost n: nat)
    returns (r: int)
    requires buf.Valid() && Reserved(buf.chains, buf.blocks, buf.lw, vecs, size, n) && CanHold(vecs, datas)
    modifies buf, buf.chains`block
    ensures r == 0 && buf.Valid() && buf.Contents() == old(buf.Contents()) + Join(datas)
    ensures buf.chains == old(buf.chains)
  {
    hide Space, Flat, Join, Taken, Cover, LastWithDataAt, List, Distinct, SpaceLen;
    ghost var f := FirstWithSpace(buf.blocks, buf.lw);
    var used := FillAll(buf, vecs, datas, f);
    assert f == FirstWithSpace(buf.blocks, buf.lw);
    r := CommitFilled(buf, used, datas);
  }

  /** Vectors that were filled are committed. */
  method CommitFilled(buf: EvBuffer, used: seq<Vec>, ghost datas: seq<seq<byte>>) returns (r: int)
    requires buf.Valid() && buf.chains != []
    requires Fits(buf.chains, buf.blocks, FirstWithSpace(buf.blocks, buf.lw), used)
    requires Filled(buf.blocks, FirstWithSpace(buf.blocks, buf.lw), used, datas)
    modifies buf, buf.chains`block
    ensures r == 0 && buf.Valid() && buf.Contents() == old(buf.Contents()) + Join(datas)
    ensures buf.chains == old(buf.chains)
  {
    hide Space, Flat, Join, Taken, TakenAt, List, Distinct, SpaceLen, FirstWithSpace, Filled, Fits, OnLast, Skips;
    FilledFacts(buf.chains, buf.blocks, buf.lw, used, datas);
    assert buf.Contents() + [] == buf.Contents();
    r := CommitSpace(buf, used);
  }

  /** A string cut into pieces that the vectors hold, from the first vector on */
  function Spread(vecs: seq<Vec>, data: seq<byte>): (datas: seq<seq<byte>>)
    requires |data| <= VecSum(vecs)
    ensures CanHold(vecs, datas) && |datas| == |vecs| && Join(datas) == data
  {
    if vecs == [] then []
    else
      var n := |vecs| - 1;
      var sum := VecSum(vecs[..n]);
      var k := if |data| <= sum then |data| else sum;
      var front := Spread(vecs[..n], data[..k]);
      var datas := front + [data[k..]];
      assert datas[..n] == front;
      datas
  }
}
