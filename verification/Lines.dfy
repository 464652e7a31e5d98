/**
 Finding the end of a line in an evbuffer and reading lines from it.
 */
module Lines {
  import opened Chains
  import opened EvBuffers
  import opened Pullups
  import opened Pointers
  import opened Search
  import opened Options

  datatype EolStyle = Any | CrlfStrict | Crlf | Lf | Nul

  const CR: byte := 13
  const LF: byte := 10
  const NUL: byte := 0

  /** `p` is the first position from `from` on that holds one of the bytes `xs`. */
  ghost predicate FirstIn(s: seq<byte>, xs: set<byte>, from: int, p: int) {
    && 0 <= from <= p < |s| && s[p] in xs
    && forall i :: from <= i < p ==> s[i] !in xs
  }

  ghost predicate NoneIn(s: seq<byte>, xs: set<byte>, from: int, to: int) {
    forall i :: 0 <= from <= i < to && i < |s| ==> s[i] !in xs
  }

  /** `n` is the length of the run of bytes from `xs` that starts at `p`. */
  ghost predicate IsRun(s: seq<byte>, xs: set<byte>, p: int, n: nat) {
    && 0 <= p && p + n <= |s| && (forall i :: p <= i < p + n ==> s[i] in xs)
    && (p + n < |s| ==> s[p + n] !in xs)
  }

  /** A line that starts at `from` ends at `p` with a terminator of `n` bytes. */
  ghost predicate IsEol(style: EolStyle, s: seq<byte>, from: nat, p: int, n: nat) {
    match style
    case Any => FirstIn(s, {CR, LF}, from, p) && IsRun(s, {CR, LF}, p, n)
    case CrlfStrict => n == 2 && from <= p && MatchAt(s, p, [CR, LF]) && NoMatch(s, [CR, LF], from, p)
    case Crlf =>
      if n == 2 then from <= p && FirstIn(s, {LF}, from, p + 1) && s[p] == CR
      else n == 1 && FirstIn(s, {LF}, from, p) && (from < p ==> s[p - 1] != CR)
    case Lf => n == 1 && FirstIn(s, {LF}, from, p)
    case Nul => n == 1 && FirstIn(s, {NUL}, from, p)
  }

  /** There is no end of line at or after `from`. */
  ghost predicate NoEol(style: EolStyle, s: seq<byte>, from: nat) {
    match style
    case Any => NoneIn(s, {CR, LF}, from, |s|)
    case CrlfStrict => NoMatch(s, [CR, LF], from, |s|)
    case Crlf => NoneIn(s, {LF}, from, |s|)
    case Lf => NoneIn(s, {LF}, from, |s|)
    case Nul => NoneIn(s, {NUL}, from, |s|)
  }

  const CHUNK_SZ: nat := 128

  /** find_eol_char: two memchr per chunk of 128 bytes find the first CR or LF. */
  method FindEolChar(s: seq<byte>, from: nat) returns (p: nat)
    requires from <= |s|
    ensures from <= p <= |s| && (p < |s| ==> s[p] == CR || s[p] == LF)
    ensures forall i :: from <= i < p ==> s[i] != CR && s[i] != LF
  {
    p := from;
    while p < |s|
      invariant from <= p
      invariant forall i :: from <= i < p && i < |s| ==> s[i] != CR && s[i] != LF
    {
      var end := if p + CHUNK_SZ < |s| then p + CHUNK_SZ else |s|;
      var cr := Memchr(s[..end], p, CR);
      var lf := Memchr(s[..end], p, LF);
      if cr < end {
        return if lf < end && lf < cr then lf else cr;
      } else if lf < end {
        return lf;
      }
      p := p + CHUNK_SZ;
    }
    p := |s|;
  }

  lemma {:induction false} ScanBlock(bs: seq<Block>, xs: set<byte>, k: nat, at: nat, to: nat, from: nat)
    requires k < |bs| && at <= to <= bs[k].off && NoneIn(Flat(bs), xs, from, Before(bs, k) + at)
    requires forall i :: at <= i < to ==> Data(bs[k])[i] !in xs
    ensures NoneIn(Flat(bs), xs, from, Before(bs, k) + to)
    ensures to < bs[k].off ==> Before(bs, k) + to < |Flat(bs)| && Flat(bs)[Before(bs, k) + to] == Data(bs[k])[to]
  {
    forall i | from <= i < Before(bs, k) + to && i < |Flat(bs)|
      ensures Flat(bs)[i] !in xs
    {
      if i >= Before(bs, k) + at {
        ByteOf(bs, k, i - Before(bs, k));
      }
    }
    if to < bs[k].off {
      ByteOf(bs, k, to);
    }
  }

  /** evbuffer_find_eol_char (for `eol`) and evbuffer_strchr (for one byte `x`). */
  method FindByte(buf: EvBuffer, it: Ptr, eol: bool, x: byte, ghost k0: nat) returns (p: Ptr, ghost k: nat)
    requires buf.Valid() && PtrAt(buf, it, k0)
    ensures p == NOT_FOUND ==> NoneIn(buf.Contents(), if eol then {CR, LF} else {x}, it.pos, |buf.Contents()|)
    ensures p != NOT_FOUND ==> k < |buf.chains| && PtrAt(buf, p, k) && p.inChain < buf.blocks[k].off
    ensures p != NOT_FOUND ==> FirstIn(buf.Contents(), if eol then {CR, LF} else {x}, it.pos, p.pos)
  {
    hide Locate, Flat, LastWithDataAt;
    p, k := it, k0;
    ghost var xs := if eol then {CR, LF} else {x};
    while p.chain != null
      invariant PtrAt(buf, p, k) && it.pos <= p.pos && NoneIn(buf.Contents(), xs, it.pos, p.pos)
      decreases |buf.chains| - k
    {
      var i;
      if eol {
        i := FindEolChar(Data(p.chain.block), p.inChain);
      } else {
        i := Memchr(Data(p.chain.block), p.inChain, x);
      }
      ScanBlock(buf.blocks, xs, k, p.inChain, i, it.pos);
      if i < p.chain.block.off {
        p := Ptr(p.pos + i - p.inChain, p.chain, i);
        return;
      }
      FlatPrefixGrows(buf.blocks, k);
      p, k := Ptr(p.pos + i - p.inChain, p.chain.next, 0), k + 1;
    }
    EndOfList(buf.blocks, k);
    p := NOT_FOUND;
  }

  /** The inner loop of evbuffer_strspn. */
  method SkipEol(d: seq<byte>, from: nat) returns (i: nat)
    requires from <= |d|
    ensures from <= i <= |d| && (i < |d| ==> d[i] !in {CR, LF})
    ensures forall j :: from <= j < i ==> d[j] in {CR, LF}
  {
    i := from;
    while i < |d| && (d[i] == CR || d[i] == LF)
      invariant from <= i <= |d| && forall j :: from <= j < i ==> d[j] in {CR, LF}
    {
      i := i + 1;
    }
  }

  lemma {:induction false} RunBlock(bs: seq<Block>, xs: set<byte>, k: nat, at: nat, to: nat, pos: nat)
    requires k < |bs| && at <= to <= bs[k].off && pos <= Before(bs, k) + at
    requires forall i :: pos <= i < Before(bs, k) + at && i < |Flat(bs)| ==> Flat(bs)[i] in xs
    requires forall i :: at <= i < to ==> Data(bs[k])[i] in xs
    ensures Before(bs, k) + to <= |Flat(bs)|
    ensures forall i :: pos <= i < Before(bs, k) + to ==> Flat(bs)[i] in xs
    ensures to < bs[k].off ==> Before(bs, k) + to < |Flat(bs)| && Flat(bs)[Before(bs, k) + to] == Data(bs[k])[to]
  {
    FlatPrefixGrows(bs, k);
    EndOfList(bs, k + 1);
    forall i | pos <= i < Before(bs, k) + to
      ensures Flat(bs)[i] in xs
    {
      if i >= Before(bs, k) + at {
        ByteOf(bs, k, i - Before(bs, k));
      }
    }
    if to < bs[k].off {
      ByteOf(bs, k, to);
    }
  }

  /** evbuffer_strspn with the set of CR and LF */
  method Strspn(buf: EvBuffer, it: Ptr, ghost k0: nat) returns (count: nat)
    requires buf.Valid() && k0 < |buf.chains| && PtrAt(buf, it, k0)
    ensures IsRun(buf.Contents(), {CR, LF}, it.pos, count)
  {
    hide Flat;
    var c, i := it.chain, it.inChain;
    ghost var k, s := k0, buf.Contents();
    count := 0;
    while true
      invariant k < |buf.chains| && c == buf.chains[k] && 0 <= i <= buf.blocks[k].off
      invariant Before(buf.blocks, k) + i == it.pos + count
      invariant forall j :: it.pos <= j < it.pos + count && j < |s| ==> s[j] in {CR, LF}
      decreases |buf.chains| - k
    {
      assert c.next == ChainAt(buf.chains, k + 1);
      var j := SkipEol(Data(c.block), i);
      RunBlock(buf.blocks, {CR, LF}, k, i, j, it.pos);
      count := count + j - i;
      if j < c.block.off {
        return;
      }
      FlatPrefixGrows(buf.blocks, k);
      EndOfList(buf.blocks, k + 1);
      if c.next == null {
        return;
      }
      c, i, k := c.next, 0, k + 1;
    }
  }

  /** evbuffer_search_eol */
  method SearchEol(buf: EvBuffer, start: Ptr, style: EolStyle, ghost k0: nat)
    returns (p: Ptr, n: nat, ghost k: nat)
    requires buf.Valid() && PtrAt(buf, start, k0)
    ensures p == NOT_FOUND ==> n == 0 && NoEol(style, buf.Contents(), start.pos)
    ensures p != NOT_FOUND ==> PtrAt(buf, p, k) && IsEol(style, buf.Contents(), start.pos, p.pos, n)
  {
    n := 0;
    match style {
      case Any =>
        p, k := FindByte(buf, start, true, NUL, k0);
        if p != NOT_FOUND {
          n := Strspn(buf, p, k);
        }
      case CrlfStrict =>
        p, k := SearchRange(buf, [CR, LF], start, None, k0, k0);
        if p != NOT_FOUND {
          n := 2;
        }
      case Crlf =>
        p, n, k := SearchCrlf(buf, start, k0);
      case Lf =>
        p, k := FindByte(buf, start, false, LF, k0);
        if p != NOT_FOUND {
          n := 1;
        }
      case Nul =>
        p, k := FindByte(buf, start, false, NUL, k0);
        if p != NOT_FOUND {
          n := 1;
        }
    }
  }

  /** evbuffer_search_eol for a LF that a CR may precede. */
  method SearchCrlf(buf: EvBuffer, start: Ptr, ghost k0: nat) returns (p: Ptr, n: nat, ghost k: nat)
    requires buf.Valid() && PtrAt(buf, start, k0)
    ensures p == NOT_FOUND ==> n == 0 && NoEol(Crlf, buf.Contents(), start.pos)
    ensures p != NOT_FOUND ==> PtrAt(buf, p, k) && IsEol(Crlf, buf.Contents(), start.pos, p.pos, n)
  {
    hide Locate;
    p, k := FindByte(buf, start, false, LF, k0);
    if p == NOT_FOUND {
      return p, 0, k;
    }
    n := 1;
    if p.pos == start.pos {
      return;
    }
    var r, it2, j := PtrSubtract(buf, p, 1, k);
    ByteOf(buf.blocks, j, it2.inChain);
    if Data(it2.chain.block)[it2.inChain] == CR {
      p, n, k := it2, 2, j;
    }
  }

  /** evbuffer_readln */
  method ReadLn(buf: EvBuffer, style: EolStyle) returns (line: Option<seq<byte>>, ghost eol: seq<byte>)
    requires buf.Valid()
    modifies buf, buf.chains
    ensures buf.Valid() && forall i :: 0 <= i < |buf.chains| ==> buf.chains[i] in old(buf.chains)
    ensures line.None? ==> buf.Contents() == old(buf.Contents()) && NoEol(style, buf.Contents(), 0)
    ensures line.Some? ==> line.value + eol + buf.Contents() == old(buf.Contents())
    ensures line.Some? ==> IsEol(style, old(buf.Contents()), 0, |line.value|, |eol|)
  {
    hide IsEol;
    EmptyPrefix(buf.blocks);
    var it, n, k := SearchEol(buf, Ptr(0, buf.first, 0), style, 0);
    eol := [];
    if it == NOT_FOUND {
      return None, eol;
    }
    EolInside(style, buf.Contents(), it.pos, n);
    var l := buf.Remove(it.pos);
    eol := buf.Contents()[..n];
    assert buf.Contents() == eol + buf.Contents()[n..];
    var _ := buf.Drain(n);
    line := Some(l);
  }

  lemma {:induction false} EmptyPrefix(bs: seq<Block>)
    ensures Before(bs, 0) == 0
  {
    assert bs[..0] == [];
  }

  lemma {:induction false} EolInside(style: EolStyle, s: seq<byte>, p: int, n: nat)
    requires IsEol(style, s, 0, p, n)
    ensures 0 <= p && p + n <= |s| && n > 0
  {
  }
}
