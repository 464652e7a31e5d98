/**
 Searching an evbuffer: results depend on the bytes alone, not on how they are split into chains.
 */
module Search {
  import opened Chains
  import opened EvBuffers
  import opened Pullups
  import opened Pointers
  import opened Options

  /** `w` stands at position `i` of `s`. */
  ghost predicate MatchAt(s: seq<byte>, i: int, w: seq<byte>) {
    0 <= i && i + |w| <= |s| && s[i..i + |w|] == w
  }

  /** memchr: the first occurrence of `x` in `s` from index `from` on, or the length of `s`. */
  method Memchr(s: seq<byte>, from: nat, x: byte) returns (i: nat)
    requires from <= |s|
    ensures from <= i <= |s| && (i < |s| ==> s[i] == x)
    ensures forall j :: from <= j < i ==> s[j] != x
  {
    i := from;
    while i < |s| && s[i] != x
      invariant from <= i <= |s| && forall j :: from <= j < i ==> s[j] != x
    {
      i := i + 1;
    }
  }

  lemma {:induction false} ByteOf(bs: seq<Block>, k: nat, i: nat)
    requires k < |bs| && i < bs[k].off
    ensures Before(bs, k) + i < |Flat(bs)| && Flat(bs)[Before(bs, k) + i] == Data(bs[k])[i]
  {
    FlatAround(bs, k);
  }

  /** memcmp: the first bytes that differ decide. */
  function Memcmp(a: seq<byte>, b: seq<byte>): (r: int)
    requires |a| == |b|
    ensures r == 0 <==> a == b
  {
    if a == [] then 0 else if a[0] != b[0] then a[0] - b[0]
    else
      assert a == [a[0]] + a[1..] && b == [b[0]] + b[1..];
      Memcmp(a[1..], b[1..])
  }

  /** One string is before another exactly if it has the smaller byte where they first differ. */
  lemma {:induction false} MemcmpOrders(a: seq<byte>, b: seq<byte>)
    requires |a| == |b|
    ensures Memcmp(a, b) < 0 <==> exists k :: 0 <= k < |a| && a[..k] == b[..k] && a[k] < b[k]
  {
    if a != [] && a[0] == b[0] {
      MemcmpOrders(a[1..], b[1..]);
      forall k | 0 < k < |a|
        ensures a[..k] == b[..k] <==> a[1..][..k - 1] == b[1..][..k - 1]
      {
        assert a[..k] == [a[0]] + a[1..][..k - 1] && b[..k] == [b[0]] + b[1..][..k - 1];
      }
      if k :| 0 <= k < |a[1..]| && a[1..][..k] == b[1..][..k] && a[1..][k] < b[1..][k] {
        assert a[..k + 1] == b[..k + 1] && a[k + 1] < b[k + 1];
      }
      if k :| 0 <= k < |a| && a[..k] == b[..k] && a[k] < b[k] {
        assert a[1..][..k - 1] == b[1..][..k - 1] && a[1..][k - 1] < b[1..][k - 1];
      }
    } else if a != [] {
      assert a[..0] == b[..0];
      assert forall k :: 0 < k < |a| && a[..k] == b[..k] ==> a[..k][0] == b[..k][0];
    }
  }

  /** Two strings are compared piece by piece. */
  lemma {:induction false} MemcmpSplit(a: seq<byte>, b: seq<byte>, k: nat)
    requires |a| == |b| && k <= |a|
    ensures Memcmp(a, b) == if Memcmp(a[..k], b[..k]) != 0 then Memcmp(a[..k], b[..k]) else Memcmp(a[k..], b[k..])
  {
    if k == 0 {
      assert a[0..] == a && b[0..] == b;
    } else if a[0] == b[0] {
      MemcmpSplit(a[1..], b[1..], k - 1);
      assert a[..k][1..] == a[1..][..k - 1] && b[..k][1..] == b[1..][..k - 1];
      assert a[k..] == a[1..][k - 1..] && b[k..] == b[1..][k - 1..];
    }
  }

  /** What evbuffer_ptr_memcmp says of the bytes from `pos` on */
  function Compared(s: seq<byte>, pos: int, mem: seq<byte>): int {
    if pos < 0 || pos + |mem| > |s| then -1 else Memcmp(s[pos..pos + |mem|], mem)
  }

  /** evbuffer_ptr_memcmp: the order of the bytes from a position on, however they are split into chains. */
  method PtrMemcmp(buf: EvBuffer, p: Ptr, mem: seq<byte>, ghost k: nat) returns (r: int)
    requires buf.Valid() && PtrAt(buf, p, k)
    ensures r == Compared(buf.Contents(), p.pos, mem)
    ensures r == 0 <==> MatchAt(buf.Contents(), p.pos, mem)
  {
    hide Locate, Flat, LastWithDataAt, Memcmp;
    if p.pos + |mem| > buf.totalLen {
      return -1;
    }
    var c := p.chain;
    var at: nat, done: nat := p.inChain, 0;
    ghost var j, s := k, buf.Contents();
    EndOfList(buf.blocks, j);
    while done < |mem| && c != null
      invariant 0 <= done <= |mem| && j <= |buf.chains| && c == ChainAt(buf.chains, j)
      invariant at <= if j < |buf.chains| then buf.blocks[j].off else 0
      invariant done < |mem| ==> Before(buf.blocks, j) + at == p.pos + done
      invariant s[p.pos..p.pos + done] == mem[..done]
      decreases |buf.chains| - j
    {
      var n := if |mem| - done + at > c.block.off then c.block.off - at else |mem| - done;
      assert c.next == ChainAt(buf.chains, j + 1);
      ComparePiece(buf.blocks, j, at, n, p.pos, done, mem);
      r := Memcmp(Data(c.block)[at..at + n], mem[done..done + n]);
      if r != 0 {
        return;
      }
      FlatPrefixGrows(buf.blocks, j);
      EndOfList(buf.blocks, j + 1);
      done, at, c, j := done + n, 0, c.next, j + 1;
    }
    EndOfList(buf.blocks, j);
    assert done == |mem| && mem[..|mem|] == mem;
    r := 0;
  }

  /** Comparing a further piece decides about the longer prefix, and about the whole if it differs. */
  lemma {:induction false} SliceSplit(s: seq<byte>, pos: nat, done: nat, n: nat, mem: seq<byte>)
    requires pos + |mem| <= |s| && done + n <= |mem| && s[pos..pos + done] == mem[..done]
    ensures var r := Memcmp(s[pos + done..pos + done + n], mem[done..done + n]);
            && (r == 0 <==> s[pos..pos + (done + n)] == mem[..done + n])
            && (r != 0 ==> r == Compared(s, pos, mem))
  {
    hide Memcmp;
    var a, m := s[pos..pos + |mem|], done + n;
    assert a[..m] == s[pos..pos + m] && a[..m][..done] == s[pos..pos + done] && mem[..m][..done] == mem[..done];
    assert a[..m][done..] == s[pos + done..pos + done + n] && mem[..m][done..] == mem[done..done + n];
    MemcmpSplit(a[..m], mem[..m], done);
    MemcmpSplit(a, mem, m);
  }

  lemma {:induction false} ComparePiece(bs: seq<Block>, k: nat, at: nat, n: nat, pos: nat, done: nat, mem: seq<byte>)
    requires k < |bs| && at + n <= bs[k].off && Before(bs, k) + at == pos + done
    requires pos + |mem| <= |Flat(bs)| && done + n <= |mem| && Flat(bs)[pos..pos + done] == mem[..done]
    ensures var r := Memcmp(Data(bs[k])[at..at + n], mem[done..done + n]);
            && (r == 0 <==> Flat(bs)[pos..pos + (done + n)] == mem[..done + n])
            && (r != 0 ==> r == Compared(Flat(bs), pos, mem))
  {
    hide Memcmp, Flat;
    SliceOfBlock(bs, k, at, n);
    SliceSplit(Flat(bs), pos, done, n, mem);
  }

  /** No occurrence of `w` starts at `from` or later and before `to`. */
  ghost predicate NoMatch(s: seq<byte>, w: seq<byte>, from: int, to: int) {
    forall i {:trigger MatchAt(s, i, w)} :: from <= i < to ==> !MatchAt(s, i, w)
  }

  lemma {:induction false} NoFirstByte(bs: seq<Block>, k: nat, at: nat, to: nat, w: seq<byte>)
    requires k < |bs| && at <= to <= bs[k].off && w != []
    requires forall i :: at <= i < to ==> Data(bs[k])[i] != w[0]
    ensures NoMatch(Flat(bs), w, Before(bs, k) + at, Before(bs, k) + to)
  {
    forall i | Before(bs, k) + at <= i < Before(bs, k) + to
      ensures !MatchAt(Flat(bs), i, w)
    {
      ByteOf(bs, k, i - Before(bs, k));
    }
  }

  /** One turn of evbuffer_search_range: the next place where the first byte of `what` occurs. */
  method NextCandidate(buf: EvBuffer, p: Ptr, what: seq<byte>, ghost k: nat)
    returns (found: bool, q: Ptr)
    requires buf.Valid() && k < |buf.chains| && PtrAt(buf, p, k) && what != []
    ensures found ==> PtrAt(buf, q, k) && q.inChain < buf.blocks[k].off && p.pos <= q.pos
    ensures !found ==> q.pos == Before(buf.blocks, k) + buf.blocks[k].off
    ensures NoMatch(buf.Contents(), what, p.pos, q.pos)
  {
    var i := Memchr(Data(p.chain.block), p.inChain, what[0]);
    NoFirstByte(buf.blocks, k, p.inChain, i, what);
    found := i < p.chain.block.off;
    q := Ptr(p.pos + i - p.inChain, p.chain, i);
  }

  /** The result of a search: the least match at or after `from` that ends by `end`. */
  ghost predicate IsLeast(s: seq<byte>, w: seq<byte>, from: int, end: Option<Ptr>, p: Ptr) {
    if p == NOT_FOUND then
      forall i {:trigger MatchAt(s, i, w)} :: from <= i && MatchAt(s, i, w) ==> end.Some? && i + |w| > end.value.pos
    else
      && from <= p.pos && MatchAt(s, p.pos, w) && NoMatch(s, w, from, p.pos)
      && (end.Some? ==> p.pos + |w| <= end.value.pos)
  }

  /** The position after `p` in the same chain, or the start of the next one. */
  method Step(buf: EvBuffer, p: Ptr, ghost k: nat) returns (q: Ptr, ghost j: nat)
    requires buf.Valid() && k < |buf.chains| && PtrAt(buf, p, k) && p.inChain < buf.blocks[k].off
    ensures PtrAt(buf, q, j) && q.pos == p.pos + 1 && j <= k + 1 && k <= j
    ensures j == k ==> q.inChain == p.inChain + 1
  {
    if p.inChain + 1 == p.chain.block.off {
      FlatPrefixGrows(buf.blocks, k);
      return Ptr(p.pos + 1, p.chain.next, 0), k + 1;
    }
    return Ptr(p.pos + 1, p.chain, p.inChain + 1), k;
  }

  /** evbuffer_search_range. A pattern that is empty, or longer than a ssize_t can say, is said to be at the start. */
  method SearchRange(buf: EvBuffer, what: seq<byte>, start: Ptr, end: Option<Ptr>, ghost k0: nat, ghost kEnd: nat)
    returns (p: Ptr, ghost k: nat)
    requires buf.Valid() && PtrAt(buf, start, k0) && (end.Some? ==> PtrAt(buf, end.value, kEnd))
    ensures 0 < |what| <= CHAIN_MAX ==> IsLeast(buf.Contents(), what, start.pos, end, p)
    ensures |what| == 0 || |what| > CHAIN_MAX ==> p == start
    ensures p != NOT_FOUND ==> PtrAt(buf, p, k)
  {
    hide Flat, LastWithDataAt;
    p, k := start, k0;
    if |what| == 0 || |what| > CHAIN_MAX {
      return;
    }
    ghost var s := buf.Contents();
    while p.chain != null
      invariant PtrAt(buf, p, k) && start.pos <= p.pos && NoMatch(s, what, start.pos, p.pos)
      decreases |buf.chains| - k, |s| - p.pos
    {
      var found, q := NextCandidate(buf, p, what, k);
      assert NoMatch(s, what, start.pos, q.pos);
      if found {
        var r := PtrMemcmp(buf, q, what, k);
        if r == 0 {
          p := if end.Some? && q.pos + |what| > end.value.pos then NOT_FOUND else q;
          return;
        }
        ByteOf(buf.blocks, k, q.inChain);
        p, k := Step(buf, q, k);
      } else {
        FlatPrefixGrows(buf.blocks, k);
        if end.Some? && p.chain == end.value.chain {
          assert At(buf.chains, k, p.chain) && At(buf.chains, kEnd, end.value.chain);
          return NOT_FOUND, k;
        }
        p, k := Ptr(q.pos, p.chain.next, 0), k + 1;
      }
    }
    EndOfList(buf.blocks, k);
    p := NOT_FOUND;
  }
}
