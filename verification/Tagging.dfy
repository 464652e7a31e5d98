/**
 Tagged records in an evbuffer: a tag in groups of seven bits, a length in nibbles, the payload.
 */
module Tagging {
  import opened Chains
  import opened EvBuffers
  import opened Splices
  import opened Numbers
  import opened Pullups
  import opened Options

  const INT_MAX := 0x7fff_ffff

  // ---------- integers: a count of nibbles, then the nibbles, least significant first ----------

  type Nibble = x: int | 0 <= x < 16

  function Nibbles(n: nat): seq<Nibble> {
    if n == 0 then [] else [n % 16] + Nibbles(n / 16)
  }

  /** Nibble number `k` of an encoding, from 1 on. */
  function Nib(nibs: seq<Nibble>, k: nat): Nibble {
    if 1 <= k <= |nibs| then nibs[k - 1] else 0
  }

  function Count(nibs: seq<Nibble>): nat {
    if |nibs| > 1 then |nibs| - 1 else 0
  }

  /** Byte number `i` of an encoding before the count is filled in. */
  function Pair(nibs: seq<Nibble>, i: nat): byte {
    16 * Nib(nibs, 2 * i) + Nib(nibs, 2 * i + 1)
  }

  function IntBytes(nibs: seq<Nibble>): (r: seq<byte>)
    requires |nibs| <= 16
    ensures |r| == (|nibs| + 2) / 2
  {
    seq((|nibs| + 2) / 2, i requires 0 <= i => if i == 0 then 16 * Count(nibs) + Nib(nibs, 1) else Pair(nibs, i))
  }

  /** Nibble number `k`, from 1 on, of the encoding that starts at `off`. */
  function NibAt(s: seq<byte>, off: nat, k: nat): Nibble
    requires off + k / 2 < |s|
  {
    if k % 2 == 1 then s[off + k / 2] % 16 else s[off + k / 2] / 16
  }

  /** The number whose nibbles are those from `k` to `n`. */
  function Value(s: seq<byte>, off: nat, k: nat, n: nat): nat
    requires off + n / 2 < |s|
    decreases n + 1 - k
  {
    if k > n then 0 else NibAt(s, off, k) + 16 * Value(s, off, k + 1, n)
  }

  /** The number encoded at `off` and the number of bytes that takes. */
  function IntAt(s: seq<byte>, off: nat, maxNibbles: nat): Option<(nat, nat)> {
    if off >= |s| then None
    else
      var n := s[off] / 16 + 1;
      if n > maxNibbles || n / 2 + 1 > |s| - off then None else Some((Value(s, off, 1, n), n / 2 + 1))
  }

  function Pow16(k: nat): nat {
    if k == 0 then 1 else 16 * Pow16(k - 1)
  }

  lemma {:induction false} NibblesBound(n: nat, k: nat)
    requires n < Pow16(k)
    ensures |Nibbles(n)| <= k
  {
    if n != 0 {
      NibblesBound(n / 16, k - 1);
    }
  }

  lemma {:induction false} Powers()
    ensures Pow16(8) == TWO_32 && Pow16(16) == TWO_64
  {
    assert Pow16(4) == 0x1_0000;
    assert Pow16(8) == TWO_32;
    assert Pow16(12) == 0x1_0000_0000_0000;
  }

  lemma {:induction false} ValueBound(s: seq<byte>, off: nat, k: nat, n: nat)
    requires off + n / 2 < |s| && k <= n + 1
    ensures Value(s, off, k, n) < Pow16(n + 1 - k)
    decreases n + 1 - k
  {
    if k <= n {
      ValueBound(s, off, k + 1, n);
    }
  }

  /** The nibbles found in the bytes are those that were put there. */
  lemma {:induction false} NibblesBack(s: seq<byte>, off: nat, nibs: seq<Nibble>, k: nat)
    requires |nibs| <= 16 && off + |IntBytes(nibs)| <= |s| && s[off..off + |IntBytes(nibs)|] == IntBytes(nibs)
    requires 1 <= k <= Count(nibs) + 1
    ensures NibAt(s, off, k) == Nib(nibs, k)
  {
    var i := k / 2;
    assert s[off + i] == s[off..off + |IntBytes(nibs)|][i];
    assert k == 2 * i || k == 2 * i + 1;
  }

  lemma {:induction false} ValueBack(s: seq<byte>, off: nat, nibs: seq<Nibble>, k: nat, x: nat)
    requires |nibs| <= 16 && off + |IntBytes(nibs)| <= |s| && s[off..off + |IntBytes(nibs)|] == IntBytes(nibs)
    requires 1 <= k <= |nibs| + 1 && Nibbles(x) == nibs[k - 1..]
    ensures k <= Count(nibs) + 2 && Value(s, off, k, Count(nibs) + 1) == x
    decreases |nibs| + 1 - k
  {
    if k <= |nibs| {
      NibblesBack(s, off, nibs, k);
      assert nibs[k - 1..][1..] == nibs[k..];
      ValueBack(s, off, nibs, k + 1, x / 16);
    } else if nibs == [] {
      NibblesBack(s, off, nibs, 1);
    }
  }

  /** Integers round-trip, wherever they stand. */
  lemma {:induction false} IntRoundTrip(s: seq<byte>, off: nat, x: nat, maxNibbles: nat)
    requires 1 <= maxNibbles <= 16 && x < Pow16(maxNibbles)
    ensures |Nibbles(x)| <= maxNibbles
    ensures var e := IntBytes(Nibbles(x));
            off + |e| <= |s| && s[off..off + |e|] == e ==> IntAt(s, off, maxNibbles) == Some((x, |e|))
  {
    NibblesBound(x, maxNibbles);
    var nibs := Nibbles(x);
    var e := IntBytes(nibs);
    if off + |e| <= |s| && s[off..off + |e|] == e {
      assert s[off] == s[off..off + |e|][0] == 16 * Count(nibs) + Nib(nibs, 1);
      assert s[off] / 16 == Count(nibs);
      assert nibs[0..] == nibs;
      ValueBack(s, off, nibs, 1, x);
    }
  }

  method PutNibble(data: array<byte>, off: nat, nib: Nibble, size: nat, ghost done: seq<Nibble>)
    requires off == |done| + 1 && off / 2 <= size < data.Length
    requires forall i :: 0 <= i <= size ==> data[i] == Pair(done, i)
    modifies data
    ensures forall i :: 0 <= i <= size ==> data[i] == Pair(done + [nib], i)
  {
    ghost var done' := done + [nib];
    assert Nib(done, off) == 0 && Nib(done', off) == nib && forall k :: k != off ==> Nib(done', k) == Nib(done, k);
    if off % 2 == 1 {
      data[off / 2] := data[off / 2] / 16 * 16 + nib;
    } else {
      data[off / 2] := data[off / 2] % 16 + nib * 16;
    }
  }

  /** ENCODE_INT_INTERNAL, for a number of up to `size` bytes */
  method EncodeIntInternal(data: array<byte>, number: nat, size: nat) returns (len: nat)
    requires 1 <= size <= 8 && data.Length > size && number < Pow16(2 * size)
    modifies data
    ensures |Nibbles(number)| <= 2 * size
    ensures len == |IntBytes(Nibbles(number))| <= size + 1 && data[..len] == IntBytes(Nibbles(number))
  {
    NibblesBound(number, 2 * size);
    forall i | 0 <= i <= size {
      data[i] := 0;
    }
    var off, nibbles, rest := 1, 0, number;
    ghost var done: seq<Nibble> := [];
    while rest != 0
      invariant |done| == off - 1 && Nibbles(number) == done + Nibbles(rest)
      invariant forall i :: 0 <= i <= size ==> data[i] == Pair(done, i)
      decreases rest
    {
      PutNibble(data, off, rest % 16, size, done);
      done := done + [rest % 16];
      assert Nibbles(number) == done + Nibbles(rest / 16);
      rest := rest / 16;
      off := off + 1;
    }
    assert done == Nibbles(number);
    if off > 2 {
      nibbles := off - 2;
    }
    data[0] := data[0] % 16 + nibbles * 16;
    len := (off + 1) / 2;
    assert data[..len] == IntBytes(done) by {
      assert data[0] == 16 * Count(done) + Nib(done, 1);
      assert forall i :: 0 <= i < len ==> data[..len][i] == IntBytes(done)[i];
    }
  }

  // ---------- tags: seven bits a byte, least significant first, the high bit saying that more follow ----------

  function TagBytes(tag: nat): (r: seq<byte>)
    ensures |r| > 0
  {
    if tag < 128 then [tag] else [tag % 128 + 128] + TagBytes(tag / 128)
  }

  /** The tag whose bytes from number `i` on stand at `i`, and the number of those bytes. */
  function TagAt(s: seq<byte>, i: nat): (r: Option<(nat, nat)>)
    ensures r.Some? ==> 0 < r.value.1 <= 5 - i && i + r.value.1 <= |s|
    decreases 5 - i
  {
    if i >= |s| || i > 4 || (i == 4 && s[i] % 128 > 15) then None
    else if s[i] < 128 then Some((s[i], 1))
    else match TagAt(s, i + 1)
      case None => None
      case Some((v, c)) => Some((s[i] % 128 + 128 * v, c + 1))
  }

  /** What is left of 32 bits after `i` groups of seven. */
  function Limit(i: nat): nat
    requires i <= 4
  {
    if i == 0 then TWO_32 else if i == 1 then 0x200_0000 else if i == 2 then 0x4_0000 else if i == 3 then 0x800 else 16
  }

  /** Tags of 32 bits round-trip, whatever follows them. */
  lemma {:induction false} TagRoundTrip(s: seq<byte>, i: nat, tag: nat)
    requires i <= 4 && tag < Limit(i) && i + |TagBytes(tag)| <= |s| && s[i..i + |TagBytes(tag)|] == TagBytes(tag)
    ensures TagAt(s, i) == Some((tag, |TagBytes(tag)|))
    decreases 4 - i
  {
    hide TagAt, TagBytes, Limit;
    LimitStep(tag, i);
    TagBytesStep(tag);
    var e := TagBytes(tag);
    assert s[i] == s[i..i + |e|][0] == e[0];
    if tag < 128 {
      TagAtEnd(s, i);
    } else {
      var f := TagBytes(tag / 128);
      assert s[i + 1..i + 1 + |f|] == s[i..i + |e|][1..] == f;
      TagRoundTrip(s, i + 1, tag / 128);
      TagAtMore(s, i, tag / 128, |f|);
    }
  }

  lemma {:induction false} TagBytesStep(tag: nat)
    ensures TagBytes(tag) == if tag < 128 then [tag] else [tag % 128 + 128] + TagBytes(tag / 128)
    ensures tag >= 128 ==> (tag % 128 + 128) % 128 == tag % 128 && tag == tag % 128 + 128 * (tag / 128)
  {
  }

  lemma {:induction false} TagAtEnd(s: seq<byte>, i: nat)
    requires i < |s| && i <= 4 && s[i] < 128 && (i == 4 ==> s[i] <= 15)
    ensures TagAt(s, i) == Some((s[i], 1))
  {
  }

  lemma {:induction false} TagAtMore(s: seq<byte>, i: nat, v: nat, c: nat)
    requires i < |s| && i < 4 && s[i] >= 128 && TagAt(s, i + 1) == Some((v, c))
    ensures TagAt(s, i) == Some((s[i] % 128 + 128 * v, c + 1))
  {
  }

  lemma {:induction false} LimitStep(tag: nat, i: nat)
    requires i <= 4 && tag < Limit(i)
    ensures i == 4 ==> tag <= 15
    ensures i < 4 ==> tag / 128 < Limit(i + 1)
  {
  }

  lemma {:induction false} TagBound(s: seq<byte>, i: nat)
    requires i <= 4 && TagAt(s, i).Some?
    ensures TagAt(s, i).value.0 < Limit(i)
    decreases 4 - i
  {
    if s[i] >= 128 {
      TagBound(s, i + 1);
    }
  }

  lemma {:induction false} TagBytesBound(tag: nat, i: nat)
    requires i <= 4 && tag < Limit(i)
    ensures |TagBytes(tag)| <= 5 - i
    decreases 4 - i
  {
    if tag >= 128 {
      TagBytesBound(tag / 128, i + 1);
    }
  }

  /** The loop of evtag_encode_tag */
  method EncodeTagInternal(data: array<byte>, tag: nat) returns (bytes: nat)
    requires data.Length >= 5 && tag < TWO_32
    modifies data
    ensures bytes == |TagBytes(tag)| <= 5 && data[..bytes] == TagBytes(tag)
  {
    TagBytesBound(tag, 0);
    var rest := tag;
    bytes := 0;
    while true
      invariant bytes < |TagBytes(tag)| && TagBytes(tag) == data[..bytes] + TagBytes(rest)
      decreases rest
    {
      var lower := rest % 128;
      rest := rest / 128;
      if rest != 0 {
        lower := lower + 128;
      }
      data[bytes] := lower;
      bytes := bytes + 1;
      if rest == 0 {
        break;
      }
    }
  }

  // ---------- reading from a buffer ----------

  function Scaled(number: nat, scale: nat, count: nat, r: Option<(nat, nat)>): Option<(nat, nat)> {
    match r case None => None case Some((v, c)) => Some((number + scale * v, count + c))
  }

  lemma {:induction false} ScaledStep(s: seq<byte>, number: nat, scale: nat, count: nat)
    requires count < |s| && count <= 4 && (count == 4 ==> s[count] % 128 <= 15) && s[count] >= 128
    ensures Scaled(number, scale, count, TagAt(s, count))
         == Scaled(number + scale * (s[count] % 128), scale * 128, count + 1, TagAt(s, count + 1))
  {
    if TagAt(s, count + 1).Some? {
      var b, v := s[count] % 128, TagAt(s, count + 1).value.0;
      Distribute(scale, b, v);
    }
  }

  lemma {:induction false} Distribute(a: nat, b: nat, c: nat)
    ensures a * (b + 128 * c) == a * b + a * 128 * c
  {
  }

  lemma {:induction false} ScaledStart(s: seq<byte>)
    ensures TagAt(s, 0) == Scaled(0, 1, 0, TagAt(s, 0))
  {
    hide TagAt;
  }

  lemma {:induction false} ScaledEnd(s: seq<byte>, number: nat, scale: nat, i: nat)
    ensures i >= |s| || i > 4 || (i == 4 && s[i] % 128 > 15) ==> Scaled(number, scale, i, TagAt(s, i)) == None
    ensures i < |s| && i <= 4 && s[i] < 128 && (i == 4 ==> s[i] % 128 <= 15) ==>
      Scaled(number, scale, i, TagAt(s, i)) == Some((number + scale * s[i], i + 1))
  {
  }

  /** The loop of decode_tag_internal over the bytes at the front of the buffer */
  method ReadTag(data: seq<byte>, ghost s: seq<byte>) returns (count: int, number: nat)
    requires |data| <= |s| && s[..|data|] == data && (|data| == |s| || |data| >= 5)
    ensures match TagAt(s, 0) case None => count == -1 case Some((t, c)) => count == c && number == t
  {
    hide TagAt, Scaled;
    count, number := 0, 0;
    var scale: nat := 1;  // 1 << shift
    ScaledStart(s);
    while count < |data|
      invariant 0 <= count <= |data| && TagAt(s, 0) == Scaled(number, scale, count, TagAt(s, count))
    {
      ScaledEnd(s, number, scale, count);
      if count > 4 {
        return -1, 0;
      }
      var lower: nat := data[count];
      assert lower == s[..|data|][count] == s[count];
      if count == 4 && lower % 128 > 15 {
        return -1, 0;
      }
      if lower < 128 {
        return count + 1, number + scale * lower;
      }
      ScaledStep(s, number, scale, count);
      number, scale, count := number + scale * (lower % 128), scale * 128, count + 1;
    }
    ScaledEnd(s, number, scale, count);
    return -1, 0;
  }

  /** decode_tag_internal: evtag_decode_tag drains what it read, evtag_peek does not. */
  method DecodeTag(buf: EvBuffer, drain: bool) returns (r: int, tag: nat)
    requires buf.Valid()
    modifies buf, buf.chains
    ensures buf.Valid()
    ensures forall i :: 0 <= i < |buf.chains| ==> buf.chains[i] in old(buf.chains) || fresh(buf.chains[i])
    ensures match TagAt(old(buf.Contents()), 0)
            case None => r == -1 && buf.Contents() == old(buf.Contents())
            case Some((t, c)) =>
              r == c && tag == t && buf.Contents() == if drain then old(buf.Contents())[c..] else old(buf.Contents())
  {
    tag := 0;
    var n := if buf.totalLen < 5 then buf.totalLen else 5;
    var chain := Pullup(buf, n);
    if chain == null {
      return -1, 0;
    }
    r, tag := ReadTag(Data(chain.block)[..n], buf.Contents());
    if r != -1 && drain {
      var _ := buf.Drain(r);
    }
  }

  /** The loop of DECODE_INT_INTERNAL over the bytes at the front of the buffer */
  method ReadInt(data: seq<byte>, off: nat, n: nat) returns (number: nat)
    requires off + n / 2 < |data|
    ensures number == Value(data, off, 1, n)
  {
    number := 0;
    var nibbles := n;
    while nibbles > 0
      invariant 0 <= nibbles <= n && number == Value(data, off, nibbles + 1, n)
    {
      number := number * 16;
      if nibbles % 2 == 1 {
        number := number + data[off + nibbles / 2] % 16;
      } else {
        number := number + data[off + nibbles / 2] / 16;
      }
      nibbles := nibbles - 1;
    }
  }

  lemma {:induction false} ValueOfPrefix(s: seq<byte>, m: nat, off: nat, k: nat, n: nat)
    requires m <= |s| && off + n / 2 < m
    ensures Value(s[..m], off, k, n) == Value(s, off, k, n)
    decreases n + 1 - k
  {
    if k <= n {
      ValueOfPrefix(s, m, off, k + 1, n);
    }
  }

  /** decode_int_internal and decode_int64_internal; nothing is drained, and the number never wraps around. */
  method DecodeIntAt(buf: EvBuffer, off: nat, maxNibbles: nat) returns (r: int, number: nat)
    requires buf.Valid() && off <= 16 && maxNibbles <= 16
    modifies buf, buf.chains
    ensures buf.Valid()
    ensures forall i :: 0 <= i < |buf.chains| ==> buf.chains[i] in old(buf.chains) || fresh(buf.chains[i])
    ensures buf.Contents() == old(buf.Contents()) && number < Pow16(maxNibbles)
    ensures match IntAt(buf.Contents(), off, maxNibbles)
            case None => r == -1
            case Some((v, l)) => r == l && number == v
  {
    hide Flat, List, LastWithDataAt, SlotAt, Value;
    number := 0;
    PowGrows(0, maxNibbles);
    if buf.totalLen <= off {
      return -1, 0;
    }
    ghost var s := buf.Contents();
    var chain := Pullup(buf, off + 1);
    assert s[off] == s[..off + 1][off] == Data(chain.block)[..off + 1][off];
    var nibbles := Data(chain.block)[off] / 16 + 1;
    if nibbles > maxNibbles || nibbles / 2 + 1 > buf.totalLen - off {
      return -1, 0;
    }
    var len := nibbles / 2 + 1;
    chain := Pullup(buf, off + len);
    number := ReadInt(Data(chain.block)[..off + len], off, nibbles);
    ValueOfPrefix(s, off + len, off, 1, nibbles);
    ValueBound(s, off, 1, nibbles);
    PowGrows(nibbles, maxNibbles);
    r := len;
  }

  lemma {:induction false} PowGrows(a: nat, b: nat)
    requires a <= b
    ensures 0 < Pow16(a) <= Pow16(b)
  {
    if a < b {
      PowGrows(a, b - 1);
    } else if a > 0 {
      PowGrows(a - 1, b - 1);
    }
  }

  /** evtag_decode_int and evtag_decode_int64 */
  method DecodeInt(buf: EvBuffer, maxNibbles: nat) returns (r: int, number: nat)
    requires buf.Valid() && maxNibbles <= 16
    modifies buf, buf.chains
    ensures buf.Valid()
    ensures forall i :: 0 <= i < |buf.chains| ==> buf.chains[i] in old(buf.chains) || fresh(buf.chains[i])
    ensures number < Pow16(maxNibbles)
    ensures match IntAt(old(buf.Contents()), 0, maxNibbles)
            case None => r == -1 && buf.Contents() == old(buf.Contents())
            case Some((v, l)) => r == 0 && number == v && buf.Contents() == old(buf.Contents())[l..]
  {
    r, number := DecodeIntAt(buf, 0, maxNibbles);
    if r != -1 {
      var _ := buf.Drain(r);
      r := 0;
    }
  }

  // ---------- records ----------

  /** A failure or a value, and the bytes left in the buffer either way. */
  datatype Outcome<T> = Fail(rest: seq<byte>) | Good(value: T, rest: seq<byte>)

  /** A tag and a length, with that many bytes behind them. */
  function Header(s: seq<byte>): Outcome<(nat, nat)> {
    match TagAt(s, 0)
    case None => Fail(s)
    case Some((t, c)) =>
      match IntAt(s[c..], 0, 8)
      case None => Fail(s[c..])
      case Some((n, l)) =>
        var rest := s[c..][l..];
        if |rest| < n then Fail(rest) else Good((t, n), rest)
  }

  /** An unsigned number of 32 bits as a C int. */
  function AsInt(n: nat): int {
    if n <= INT_MAX then n else n - TWO_32
  }

  method UnmarshalHeader(buf: EvBuffer) returns (r: int, tag: nat)
    requires buf.Valid()
    modifies buf, buf.chains
    ensures buf.Valid()
    ensures forall i :: 0 <= i < |buf.chains| ==> buf.chains[i] in old(buf.chains) || fresh(buf.chains[i])
    ensures match Header(old(buf.Contents()))
            case Fail(rest) => r == -1 && buf.Contents() == rest
            case Good((t, n), rest) => r == AsInt(n) && n < TWO_32 && tag == t && buf.Contents() == rest
  {
    r, tag := DecodeTag(buf, true);
    if r == -1 {
      return;
    }
    var len;
    r, len := DecodeInt(buf, 8);
    if r == -1 {
      return;
    }
    Powers();
    if buf.totalLen < len {
      return -1, tag;
    }
    r := AsInt(len);
  }

  /** A whole record whose length is a C int. */
  function Record(s: seq<byte>): Outcome<(nat, seq<byte>)> {
    match Header(s)
    case Fail(rest) => Fail(rest)
    case Good((t, n), rest) => if n > INT_MAX then Fail(rest) else Good((t, rest[..n]), rest[n..])
  }

  /** evtag_unmarshal: the payload goes to the end of another buffer. */
  method Unmarshal(src: EvBuffer, dst: EvBuffer) returns (r: int, tag: nat)
    requires src.Valid() && dst.Valid() && Apart(src, dst)
    modifies src, src.chains, dst, dst.chains
    ensures src.Valid() && dst.Valid() && Apart(src, dst)
    ensures forall i :: 0 <= i < |src.chains| ==> src.chains[i] in old(src.chains) || fresh(src.chains[i])
    ensures forall i :: 0 <= i < |dst.chains| ==> dst.chains[i] in old(dst.chains) || fresh(dst.chains[i])
    ensures match Record(old(src.Contents()))
            case Fail(rest) => r == -1 && src.Contents() == rest && dst.Contents() == old(dst.Contents())
            case Good((t, d), rest) =>
              if |d| > SIZE_MAX - |old(dst.Contents())| then
                r == -1 && src.Contents() == d + rest && dst.Contents() == old(dst.Contents())
              else
                r == |d| && tag == t && src.Contents() == rest && dst.Contents() == old(dst.Contents()) + d
  {
    hide Flat, List;
    var len;
    len, tag := UnmarshalHeader(src);
    if len < 0 {
      return -1, tag;
    }
    ghost var s := src.Contents();
    assert s == s[..len] + s[len..];
    r := MovePayload(src, dst, len);
  }

  /** The end of evtag_unmarshal */
  method MovePayload(src: EvBuffer, dst: EvBuffer, len: nat) returns (r: int)
    requires src.Valid() && dst.Valid() && Apart(src, dst) && len <= src.totalLen && len <= INT_MAX
    modifies src, src.chains, dst, dst.chains
    ensures src.Valid() && dst.Valid() && Apart(src, dst)
    ensures forall i :: 0 <= i < |src.chains| ==> src.chains[i] in old(src.chains) || fresh(src.chains[i])
    ensures forall i :: 0 <= i < |dst.chains| ==> dst.chains[i] in old(dst.chains) || fresh(dst.chains[i])
    ensures if len > SIZE_MAX - |old(dst.Contents())| then
              r == -1 && src.Contents() == old(src.Contents()) && dst.Contents() == old(dst.Contents())
            else
              && r == len && src.Contents() == old(src.Contents())[len..]
              && dst.Contents() == old(dst.Contents()) + old(src.Contents())[..len]
  {
    var data := Front(src, dst, len);
    r := AddTo(dst, src, data);
    if r == 0 {
      DrainFrom(src, dst, len);
      r := len;
    }
  }

  method Front(buf: EvBuffer, other: EvBuffer, len: nat) returns (data: seq<byte>)
    requires buf.Valid() && other.Valid() && Apart(buf, other) && len <= buf.totalLen && len <= INT_MAX
    modifies buf, buf.chains
    ensures buf.Valid() && other.Valid() && Apart(buf, other)
    ensures buf.Contents() == old(buf.Contents()) && data == buf.Contents()[..len]
    ensures forall i :: 0 <= i < |buf.chains| ==> buf.chains[i] in old(buf.chains) || fresh(buf.chains[i])
  {
    var chain := Pullup(buf, len);
    data := if chain == null then [] else Data(chain.block)[..len];
  }

  method AddTo(buf: EvBuffer, other: EvBuffer, data: seq<byte>) returns (r: int)
    requires buf.Valid() && other.Valid() && Apart(buf, other) && |data| <= INT_MAX
    modifies buf, buf.chains
    ensures buf.Valid() && other.Valid() && Apart(buf, other)
    ensures r == if |data| > SIZE_MAX - old(|buf.Contents()|) then -1 else 0
    ensures buf.Contents() == if r == 0 then old(buf.Contents()) + data else old(buf.Contents())
    ensures forall i :: 0 <= i < |buf.chains| ==> buf.chains[i] in old(buf.chains) || fresh(buf.chains[i])
  {
    r := buf.Add(data);
  }

  method DrainFrom(buf: EvBuffer, other: EvBuffer, len: nat)
    requires buf.Valid() && other.Valid() && Apart(buf, other) && len <= |buf.Contents()|
    modifies buf, buf.chains
    ensures buf.Valid() && other.Valid() && Apart(buf, other)
    ensures buf.Contents() == old(buf.Contents())[len..]
    ensures forall i :: 0 <= i < |buf.chains| ==> buf.chains[i] in old(buf.chains)
  {
    var _ := buf.Drain(len);
  }

  /** evtag_consume; a length that is no C int becomes a huge size_t. */
  method Consume(buf: EvBuffer) returns (r: int)
    requires buf.Valid()
    modifies buf, buf.chains
    ensures buf.Valid()
    ensures forall i :: 0 <= i < |buf.chains| ==> buf.chains[i] in old(buf.chains) || fresh(buf.chains[i])
    ensures match Consumed(old(buf.Contents()))
            case Fail(rest) => r == -1 && buf.Contents() == rest
            case Good(_, rest) => r == 0 && buf.Contents() == rest
  {
    var len, tag := UnmarshalHeader(buf);
    if len == -1 {
      return -1;
    }
    var _ := buf.Drain(if len < 0 then SIZE_MAX + 1 + len else len);
    r := 0;
  }

  function Consumed(s: seq<byte>): Outcome<()> {
    match Header(s)
    case Fail(rest) => Fail(rest)
    case Good((t, n), rest) =>
      if n <= INT_MAX then Good((), rest[n..])
      else if n == TWO_32 - 1 then Fail(rest)
      else var k := SIZE_MAX + 1 + AsInt(n); Good((), if k >= |rest| then [] else rest[k..])
  }

  /** What evtag_peek_length answers: the bytes of the tag, the length and the payload, in 32 bits. */
  function Peeked(s: seq<byte>): Option<nat> {
    match TagAt(s, 0)
    case None => None
    case Some((t, c)) =>
      match IntAt(s, c, 8)
      case None => None
      case Some((n, l)) => Some((n + l + c) % TWO_32)
  }

  method PeekLength(buf: EvBuffer) returns (r: int, length: nat)
    requires buf.Valid()
    modifies buf, buf.chains
    ensures buf.Valid() && buf.Contents() == old(buf.Contents())
    ensures forall i :: 0 <= i < |buf.chains| ==> buf.chains[i] in old(buf.chains) || fresh(buf.chains[i])
    ensures match Peeked(buf.Contents()) case None => r == -1 case Some(n) => r == 0 && length == n
  {
    var len, tag := DecodeTag(buf, false);
    if len == -1 {
      return -1, 0;
    }
    var res;
    res, length := DecodeIntAt(buf, len, 8);
    if res == -1 {
      return -1, 0;
    }
    length := (length + res + len) % TWO_32;
    r := 0;
  }

  lemma {:induction false} ValueShift(s: seq<byte>, c: nat, k: nat, n: nat)
    requires c + n / 2 < |s|
    ensures Value(s[c..], 0, k, n) == Value(s, c, k, n)
    decreases n + 1 - k
  {
    if k <= n {
      ValueShift(s, c, k + 1, n);
    }
  }

  lemma {:induction false} IntAtShift(s: seq<byte>, c: nat, maxNibbles: nat)
    requires c <= |s|
    ensures IntAt(s[c..], 0, maxNibbles) == IntAt(s, c, maxNibbles)
  {
    if c < |s| && s[c] / 16 + 1 <= maxNibbles && (s[c] / 16 + 1) / 2 + 1 <= |s| - c {
      ValueShift(s, c, 1, s[c] / 16 + 1);
    }
  }

  /**
    With a whole record in the buffer, evtag_consume drains as many bytes as evtag_peek_length says
    exactly when the length of the payload is a C int, or there is nothing behind it (and it is not
    the one number that reads as an error).
   */
  lemma {:induction false} PeekIsConsumed(s: seq<byte>)
    requires Header(s).Good?
    ensures Peeked(s).Some?
    ensures var n := Header(s).value.1;
            Consumed(s).Good? && |s| - |Consumed(s).rest| == Peeked(s).value <==>
            n <= INT_MAX || (n < TWO_32 - 1 && |s| == Peeked(s).value)
    ensures var (n, rest) := (Header(s).value.1, Header(s).rest);
            && (Consumed(s).Fail? <==> n == TWO_32 - 1)
            && (n == TWO_32 - 1 ==> Consumed(s).rest == rest)
            && (INT_MAX < n < TWO_32 - 1 && |s| <= SIZE_MAX - TWO_32 ==> Consumed(s).rest == [])
  {
    PeekFacts(s);
  }

  lemma {:induction false} PeekFacts(s: seq<byte>)
    requires Header(s).Good?
    ensures var (n, rest) := (Header(s).value.1, Header(s).rest);
            n < TWO_32 && n <= |rest| <= |s| <= |rest| + 14 && Peeked(s) == Some((n + |s| - |rest|) % TWO_32)
  {
    var (t, c) := TagAt(s, 0).value;
    IntAtShift(s, c, 8);
    ValueBound(s[c..], 0, 1, s[c..][0] / 16 + 1);
    PowGrows(s[c..][0] / 16 + 1, 8);
    Powers();
  }

  // ---------- writing ----------

  /** evtag_encode_tag */
  method EncodeTag(buf: EvBuffer, tag: nat)
    requires buf.Valid() && tag < TWO_32 && |buf.Contents()| + |TagBytes(tag)| <= SIZE_MAX
    modifies buf, buf.chains
    ensures buf.Valid()
    ensures forall i :: 0 <= i < |buf.chains| ==> buf.chains[i] in old(buf.chains) || fresh(buf.chains[i])
    ensures buf.Contents() == old(buf.Contents()) + TagBytes(tag)
  {
    var data := new byte[5];
    var bytes := EncodeTagInternal(data, tag);
    var _ := buf.Add(data[..bytes]);
  }

  /** evtag_encode_int and evtag_encode_int64, for numbers of `size` bytes */
  method EncodeInt(buf: EvBuffer, number: nat, size: nat)
    requires buf.Valid() && 1 <= size <= 8 && number < Pow16(2 * size) && |Nibbles(number)| <= 2 * size
    requires |buf.Contents()| + |IntBytes(Nibbles(number))| <= SIZE_MAX
    modifies buf, buf.chains
    ensures buf.Valid()
    ensures forall i :: 0 <= i < |buf.chains| ==> buf.chains[i] in old(buf.chains) || fresh(buf.chains[i])
    ensures buf.Contents() == old(buf.Contents()) + IntBytes(Nibbles(number))
  {
    var data := new byte[size + 1];
    var len := EncodeIntInternal(data, number, size);
    var _ := buf.Add(data[..len]);
  }

  datatype Rec = Rec(tag: nat, data: seq<byte>)

  ghost predicate Fits(r: Rec) {
    r.tag < TWO_32 && |r.data| <= INT_MAX
  }

  type FitRec = r: Rec | Fits(r) witness Rec(0, [])

  lemma {:induction false} LengthFits(n: nat)
    requires n < TWO_32
    ensures n < Pow16(8) && |Nibbles(n)| <= 8
  {
    Powers();
    NibblesBound(n, 8);
  }

  ghost function RecBytes(r: Rec): seq<byte>
    requires r.tag < TWO_32 && |r.data| < TWO_32
  {
    LengthFits(|r.data|);
    TagBytes(r.tag) + IntBytes(Nibbles(|r.data|)) + r.data
  }

  lemma {:induction false} JoinFour(s: seq<byte>, a: seq<byte>, b: seq<byte>, c: seq<byte>)
    ensures s + a + b + c == s + (a + b + c)
  {
  }

  /** evtag_marshal */
  method Marshal(buf: EvBuffer, tag: nat, data: seq<byte>)
    requires buf.Valid() && tag < TWO_32 && |data| < TWO_32 && |buf.Contents()| + |RecBytes(Rec(tag, data))| <= SIZE_MAX
    modifies buf, buf.chains
    ensures buf.Valid()
    ensures forall i :: 0 <= i < |buf.chains| ==> buf.chains[i] in old(buf.chains) || fresh(buf.chains[i])
    ensures buf.Contents() == old(buf.Contents()) + RecBytes(Rec(tag, data))
  {
    hide Flat;
    LengthFits(|data|);
    ghost var s, a, b := buf.Contents(), TagBytes(tag), IntBytes(Nibbles(|data|));
    assert RecBytes(Rec(tag, data)) == a + b + data;
    EncodeTag(buf, tag);
    EncodeInt(buf, |data|, 4);
    var _ := buf.Add(data);
    JoinFour(s, a, b, data);
  }

  lemma {:induction false} HeaderBack(r: Rec, s: seq<byte>, after: seq<byte>)
    requires r.tag < TWO_32 && |r.data| < TWO_32 && |r.data| <= |after|
    requires |Nibbles(|r.data|)| <= 8 && s == TagBytes(r.tag) + (IntBytes(Nibbles(|r.data|)) + after)
    ensures Header(s) == Good((r.tag, |r.data|), after)
  {
    var a, e := |TagBytes(r.tag)|, IntBytes(Nibbles(|r.data|));
    assert s[0..0 + a] == TagBytes(r.tag);
    TagRoundTrip(s, 0, r.tag);
    assert s[a..] == e + after;
    assert (e + after)[0..0 + |e|] == e;
    LengthFits(|r.data|);
    IntRoundTrip(e + after, 0, |r.data|, 8);
    assert (e + after)[|e|..] == after;
  }

  /** A record at the front of a buffer comes back as it went in. */
  lemma {:induction false} RecordBack(r: Rec, rest: seq<byte>)
    requires r.tag < TWO_32 && |r.data| < TWO_32
    ensures Header(RecBytes(r) + rest) == Good((r.tag, |r.data|), r.data + rest)
    ensures Fits(r) ==> Record(RecBytes(r) + rest) == Good((r.tag, r.data), rest)
  {
    LengthFits(|r.data|);
    var a, e := TagBytes(r.tag), IntBytes(Nibbles(|r.data|));
    assert a + e + r.data + rest == a + (e + (r.data + rest));
    HeaderBack(r, RecBytes(r) + rest, r.data + rest);
    assert (r.data + rest)[..|r.data|] == r.data && (r.data + rest)[|r.data|..] == rest;
  }

  /** A record whose length is no C int is refused, with its header gone and its payload left. */
  lemma {:induction false} HugeRefused(r: Rec, rest: seq<byte>)
    requires r.tag < TWO_32 && INT_MAX < |r.data| < TWO_32
    ensures Record(RecBytes(r) + rest) == Fail(r.data + rest)
  {
    RecordBack(r, rest);
    hide Header, RecBytes;
  }

  // ---------- what is not whole is refused ----------

  lemma {:induction false} TagCut(s: seq<byte>, i: nat, tag: nat)
    requires i <= |s| < i + |TagBytes(tag)| && s[i..] == TagBytes(tag)[..|s| - i]
    ensures TagAt(s, i) == None
    decreases |s| - i
  {
    if i < |s| {
      assert s[i] == s[i..][0] == TagBytes(tag)[0];
      if i <= 4 && tag >= 128 {
        assert s[i + 1..] == s[i..][1..] == TagBytes(tag / 128)[..|s| - i - 1];
        TagCut(s, i + 1, tag / 128);
      }
    }
  }

  lemma {:induction false} IntCut(s: seq<byte>, nibs: seq<Nibble>, maxNibbles: nat)
    requires |nibs| <= 16 && |s| < |IntBytes(nibs)| && s == IntBytes(nibs)[..|s|]
    ensures IntAt(s, 0, maxNibbles) == None
  {
    if s != [] {
      assert s[0] == 16 * Count(nibs) + Nib(nibs, 1);
      assert s[0] / 16 == Count(nibs);
    }
  }

  /** The parts of a header that is read from the front of `s` */
  lemma {:induction false} HeaderParts(s: seq<byte>, t: nat, c: nat)
    requires c <= |s| && TagAt(s, 0) == Some((t, c))
    ensures IntAt(s[c..], 0, 8).None? ==> Header(s).Fail? && HeaderFor(s, t).Fail? && Peeked(s).None?
    ensures IntAt(s[c..], 0, 8).Some? && |s| - c - IntAt(s[c..], 0, 8).value.1 < IntAt(s[c..], 0, 8).value.0 ==>
      Header(s).Fail? && HeaderFor(s, t).Fail?
  {
    hide TagAt;
    IntAtShift(s, c, 8);
  }

  /** A record that is cut anywhere is refused, whatever tag is wanted. */
  lemma {:induction false} CutRefused(r: Rec, k: nat, need: nat)
    requires r.tag < TWO_32 && |r.data| < TWO_32 && k < |RecBytes(r)|
    ensures var s := RecBytes(r)[..k];
            && Header(s).Fail? && HeaderFor(s, need).Fail? && Record(s).Fail? && Consumed(s).Fail?
            && TimeRecord(s, need).Fail? && forall m :: IntRecord(s, need, m).Fail?
  {
    hide TagAt, IntAt, TagBytes, IntBytes;
    LengthFits(|r.data|);
    var s, a, e := RecBytes(r)[..k], TagBytes(r.tag), IntBytes(Nibbles(|r.data|));
    CutParts(a, e, r.data, k);
    if k < |a| {
      assert s[0..] == s;
      TagCut(s, 0, r.tag);
    } else {
      TagRoundTrip(s, 0, r.tag);
      if k < |a| + |e| {
        IntCut(s[|a|..], Nibbles(|r.data|), 8);
      } else {
        IntRoundTrip(s[|a|..], 0, |r.data|, 8);
      }
      HeaderParts(s, r.tag, |a|);
    }
  }

  lemma {:induction false} CutParts(a: seq<byte>, e: seq<byte>, d: seq<byte>, k: nat)
    requires k < |a| + |e| + |d|
    ensures var s := (a + e + d)[..k];
            if k < |a| then s == a[..k]
            else
              && s[0..0 + |a|] == a
              && if k < |a| + |e| then s[|a|..] == e[..k - |a|] else s[|a|..][0..0 + |e|] == e
  {
  }

  /** A number that needs more nibbles than are allowed is refused; with IntRoundTrip, exactly such a number is. */
  lemma {:induction false} IntTooLarge(s: seq<byte>, off: nat, x: nat, maxNibbles: nat)
    requires 1 <= maxNibbles && |Nibbles(x)| <= 16 && x >= Pow16(maxNibbles)
    requires var e := IntBytes(Nibbles(x)); off + |e| <= |s| && s[off..off + |e|] == e
    ensures IntAt(s, off, maxNibbles) == None
  {
    var nibs := Nibbles(x);
    ManyNibbles(x, maxNibbles);
    assert s[off] == s[off..off + |IntBytes(nibs)|][0] == 16 * Count(nibs) + Nib(nibs, 1);
    assert s[off] / 16 == Count(nibs);
  }

  lemma {:induction false} ManyNibbles(n: nat, k: nat)
    requires n >= Pow16(k)
    ensures |Nibbles(n)| > k
  {
    if k > 0 {
      ManyNibbles(n / 16, k - 1);
    }
  }

  /** A length of 2^32 or more is refused, however many bytes follow. */
  lemma {:induction false} LengthTooLarge(tag: nat, n: nat, after: seq<byte>, need: nat)
    requires tag < TWO_32 <= n && |Nibbles(n)| <= 16
    ensures var s := TagBytes(tag) + (IntBytes(Nibbles(n)) + after);
            Header(s).Fail? && HeaderFor(s, need).Fail? && Peeked(s).None?
  {
    hide TagAt, IntAt, TagBytes, IntBytes;
    var a, e := TagBytes(tag), IntBytes(Nibbles(n));
    var s := a + (e + after);
    assert s[0..0 + |a|] == a;
    TagRoundTrip(s, 0, tag);
    assert s[|a|..] == e + after && (e + after)[0..0 + |e|] == e;
    Powers();
    IntTooLarge(e + after, 0, n, 8);
    HeaderParts(s, tag, |a|);
  }

  /** An integer that reaches beyond the payload is refused, and the payload is gone. */
  lemma {:induction false} IntBeyondPayload(tag: nat, number: nat, m: nat, maxNibbles: nat, rest: seq<byte>)
    requires tag < TWO_32 && |Nibbles(number)| <= 16 && m < |IntBytes(Nibbles(number))|
    ensures IntRecord(RecBytes(Rec(tag, IntBytes(Nibbles(number))[..m])) + rest, tag, maxNibbles) == Fail(rest)
  {
    var e := IntBytes(Nibbles(number));
    var r := Rec(tag, e[..m]);
    RecordBack(r, rest);
    var s := e[..m] + rest;
    assert s[m..] == rest;
    if m > 0 {
      assert s[0] == e[0] == 16 * Count(Nibbles(number)) + Nib(Nibbles(number), 1);
      assert s[0] / 16 == Count(Nibbles(number));
    }
    HeaderForIs(RecBytes(r) + rest, tag);
    hide RecBytes, Header, HeaderFor, IntBytes, Value;
  }

  /** With the wanted tag the two ways to read a header agree. */
  lemma {:induction false} HeaderForIs(s: seq<byte>, need: nat)
    requires Header(s).Good? && Header(s).value.0 == need
    ensures HeaderFor(s, need) == Good(Header(s).value.1, Header(s).rest)
  {
  }

  /** A payload of 2^31 bytes with one more byte behind it: evtag_consume drains more than evtag_peek_length says. */
  lemma {:induction false} ConsumesMore() returns (s: seq<byte>)
    ensures Header(s).Good? && Header(s).value.1 == INT_MAX + 1
    ensures Peeked(s).Some? && Consumed(s).Good? && |s| - |Consumed(s).rest| > Peeked(s).value
  {
    hide TagAt, IntAt, TagBytes, IntBytes;
    var r := Rec(0, seq(INT_MAX + 1, _ => 0));
    s := RecBytes(r) + [0];
    RecordBack(r, [0]);
    PeekFacts(s);
  }

  ghost function Stream(rs: seq<FitRec>): seq<byte> {
    if rs == [] then [] else RecBytes(rs[0]) + Stream(rs[1..])
  }

  lemma {:induction false} StreamSnoc(rs: seq<FitRec>, r: FitRec)
    ensures Stream(rs + [r]) == Stream(rs) + RecBytes(r)
  {
    if rs != [] {
      StreamSnoc(rs[1..], r);
      assert (rs + [r])[1..] == rs[1..] + [r];
    } else {
      assert [r][1..] == [];
    }
  }

  /** The records that are left once the first `n` are written */
  lemma {:induction false} StreamSplit(rs: seq<FitRec>, n: nat)
    requires n < |rs|
    ensures Stream(rs[n..]) == RecBytes(rs[n]) + Stream(rs[n + 1..])
    ensures Stream(rs[..n + 1]) == Stream(rs[..n]) + RecBytes(rs[n])
  {
    assert rs[n..][1..] == rs[n + 1..];
    StreamSnoc(rs[..n], rs[n]);
    assert rs[..n + 1] == rs[..n] + [rs[n]];
  }

  method MarshalAll(buf: EvBuffer, rs: seq<FitRec>)
    requires buf.Valid() && |buf.Contents()| + |Stream(rs)| <= SIZE_MAX
    modifies buf, buf.chains
    ensures buf.Valid() && buf.Contents() == old(buf.Contents()) + Stream(rs)
  {
    hide RecBytes, Flat;
    assert rs[0..] == rs;
    for n := 0 to |rs|
      invariant buf.Valid()
      invariant forall i :: 0 <= i < |buf.chains| ==> buf.chains[i] in old(buf.chains) || fresh(buf.chains[i])
      invariant buf.Contents() == old(buf.Contents()) + Stream(rs[..n])
      invariant |buf.Contents()| + |Stream(rs[n..])| <= SIZE_MAX
    {
      StreamSplit(rs, n);
      Marshal(buf, rs[n].tag, rs[n].data);
    }
    assert rs[..|rs|] == rs;
  }

  /** One record is read through an empty buffer. */
  method UnmarshalOne(buf: EvBuffer, ghost r: FitRec, ghost rest: seq<byte>) returns (out: Rec)
    requires buf.Valid() && buf.Contents() == RecBytes(r) + rest
    modifies buf, buf.chains
    ensures buf.Valid()
    ensures forall i :: 0 <= i < |buf.chains| ==> buf.chains[i] in old(buf.chains) || fresh(buf.chains[i])
    ensures out == r && buf.Contents() == rest
  {
    RecordBack(r, rest);
    var dst := new EvBuffer();
    var n, tag := Unmarshal(buf, dst);
    assert [] + r.data == r.data;
    var data := dst.Remove(n);
    assert data + dst.Contents() == r.data && |data| == |r.data|;
    assert data == r.data;
    out := Rec(tag, data);
  }

  lemma {:induction false} StreamNonEmpty(rs: seq<FitRec>)
    ensures Stream(rs) == [] <==> rs == []
  {
  }

  /** Whatever list of records was written is read again, in order, with nothing left over. */
  method UnmarshalAll(buf: EvBuffer, ghost rs: seq<FitRec>) returns (out: seq<Rec>)
    requires buf.Valid() && buf.Contents() == Stream(rs)
    modifies buf, buf.chains
    ensures buf.Valid() && out == rs && buf.Contents() == []
  {
    hide Flat;
    out := [];
    ghost var todo := rs;
    while buf.totalLen > 0
      invariant buf.Valid()
      invariant forall i :: 0 <= i < |buf.chains| ==> buf.chains[i] in old(buf.chains) || fresh(buf.chains[i])
      invariant out + todo == rs && buf.Contents() == Stream(todo)
      decreases todo
    {
      StreamNonEmpty(todo);
      var r := UnmarshalOne(buf, todo[0], Stream(todo[1..]));
      out := out + [r];
      todo := todo[1..];
    }
    StreamNonEmpty(todo);
  }

  // ---------- integers and times as payloads ----------

  function Dropped(s: seq<byte>, n: nat): seq<byte> {
    if n >= |s| then [] else s[n..]
  }

  /** The wanted tag and a length, with that many bytes behind them; the length is decoded only after the right tag. */
  function HeaderFor(s: seq<byte>, need: nat): Outcome<nat> {
    match TagAt(s, 0)
    case None => Fail(s)
    case Some((t, c)) =>
      if t != need then Fail(s[c..]) else
      match IntAt(s[c..], 0, 8)
      case None => Fail(s[c..])
      case Some((n, l)) =>
        var rest := s[c..][l..];
        if |rest| < n then Fail(rest) else Good(n, rest)
  }

  /** A record with the wanted tag whose payload starts with an integer, and the bytes of that integer. */
  function IntRecord(s: seq<byte>, need: nat, maxNibbles: nat): Outcome<(nat, nat)> {
    match HeaderFor(s, need)
    case Fail(rest) => Fail(rest)
    case Good(n, rest) =>
      match IntAt(rest, 0, maxNibbles)
      case None => Fail(Dropped(rest, n))
      case Some((v, k)) => if k > n then Fail(Dropped(rest, n)) else Good((v, k), Dropped(rest, n))
  }

  method UnmarshalHeaderFor(buf: EvBuffer, need: nat) returns (ok: bool, len: nat)
    requires buf.Valid()
    modifies buf, buf.chains
    ensures buf.Valid()
    ensures forall i :: 0 <= i < |buf.chains| ==> buf.chains[i] in old(buf.chains) || fresh(buf.chains[i])
    ensures match HeaderFor(old(buf.Contents()), need)
            case Fail(rest) => !ok && buf.Contents() == rest
            case Good(n, rest) => ok && len == n && buf.Contents() == rest
  {
    hide Flat;
    var r, tag := DecodeTag(buf, true);
    if r == -1 || need != tag {
      return false, 0;
    }
    r, len := DecodeInt(buf, 8);
    ok := r != -1 && buf.totalLen >= len;
  }

  /** evtag_unmarshal_int (8 nibbles) and evtag_unmarshal_int64 (16) */
  method UnmarshalInt(buf: EvBuffer, need: nat, maxNibbles: nat) returns (r: int, number: nat)
    requires buf.Valid() && maxNibbles <= 16
    modifies buf, buf.chains
    ensures buf.Valid()
    ensures forall i :: 0 <= i < |buf.chains| ==> buf.chains[i] in old(buf.chains) || fresh(buf.chains[i])
    ensures match IntRecord(old(buf.Contents()), need, maxNibbles)
            case Fail(rest) => r == -1 && buf.Contents() == rest
            case Good((v, k), rest) => r == k && number == v && buf.Contents() == rest
  {
    hide Flat, HeaderFor, IntAt, Dropped, TagAt;
    var ok, len := UnmarshalHeaderFor(buf, need);
    if !ok {
      return -1, 0;
    }
    r, number := IntPayload(buf, len, maxNibbles);
  }

  /** The end of evtag_unmarshal_int: whatever the payload holds, it is drained. */
  method IntPayload(buf: EvBuffer, len: nat, maxNibbles: nat) returns (r: int, number: nat)
    requires buf.Valid() && maxNibbles <= 16
    modifies buf, buf.chains
    ensures buf.Valid()
    ensures forall i :: 0 <= i < |buf.chains| ==> buf.chains[i] in old(buf.chains) || fresh(buf.chains[i])
    ensures buf.Contents() == Dropped(old(buf.Contents()), len)
    ensures match IntAt(old(buf.Contents()), 0, maxNibbles)
            case None => r == -1
            case Some((v, k)) => if k > len then r == -1 else r == k && number == v
  {
    r, number := DecodeIntAt(buf, 0, maxNibbles);
    var _ := buf.Drain(len);
    if r < 0 || r > len {
      return -1, 0;
    }
  }

  /** A record with another tag is refused, and only its tag is gone. */
  lemma {:induction false} OtherTag(r: Rec, need: nat, maxNibbles: nat, rest: seq<byte>)
    requires r.tag < TWO_32 && |r.data| < TWO_32 && r.tag != need
    ensures IntRecord(RecBytes(r) + rest, need, maxNibbles) == Fail((RecBytes(r) + rest)[|TagBytes(r.tag)|..])
  {
    LengthFits(|r.data|);
    var s, a := RecBytes(r) + rest, TagBytes(r.tag);
    assert s == a + (IntBytes(Nibbles(|r.data|)) + r.data + rest);
    assert s[0..0 + |a|] == a;
    TagRoundTrip(s, 0, r.tag);
    hide IntAt, Dropped;
  }

  /** evtag_marshal_int and evtag_marshal_int64 */
  method MarshalInt(buf: EvBuffer, tag: nat, number: nat, size: nat)
    requires buf.Valid() && tag < TWO_32 && 1 <= size <= 8 && number < Pow16(2 * size) && |Nibbles(number)| <= 2 * size
    requires |buf.Contents()| + |RecBytes(Rec(tag, IntBytes(Nibbles(number))))| <= SIZE_MAX
    modifies buf, buf.chains
    ensures buf.Valid() && buf.Contents() == old(buf.Contents()) + RecBytes(Rec(tag, IntBytes(Nibbles(number))))
  {
    var data := new byte[size + 1];
    var len := EncodeIntInternal(data, number, size);
    Marshal(buf, tag, data[..len]);
  }

  /** Integers written as records are read again. */
  lemma {:induction false} IntRecordBack(tag: nat, number: nat, maxNibbles: nat, rest: seq<byte>)
    requires tag < TWO_32 && 1 <= maxNibbles <= 16 && number < Pow16(maxNibbles)
    ensures |Nibbles(number)| <= maxNibbles
    ensures var e := IntBytes(Nibbles(number));
            IntRecord(RecBytes(Rec(tag, e)) + rest, tag, maxNibbles) == Good((number, |e|), rest)
  {
    NibblesBound(number, maxNibbles);
    var e := IntBytes(Nibbles(number));
    RecordBack(Rec(tag, e), rest);
    assert (e + rest)[..|e|] == e && (e + rest)[|e|..] == rest;
    IntRoundTrip(e + rest, 0, number, maxNibbles);
  }

  /** A record with the wanted tag whose payload is a time. */
  function TimeRecord(s: seq<byte>, need: nat): Outcome<(nat, nat)> {
    match Header(s)
    case Fail(rest) => Fail(rest)
    case Good((t, n), rest) =>
      if n == TWO_32 - 1 then Fail(rest) else
      var after := Dropped(rest, if n <= INT_MAX then n else SIZE_MAX + 1 + AsInt(n));
      if t != need then Fail(after) else
      match IntAt(rest, 0, 8)
      case None => Fail(after)
      case Some((sec, k)) =>
        match IntAt(rest, k, 8)
        case None => Fail(after)
        case Some((usec, l)) => if k + l > AsInt(n) then Fail(after) else Good((sec, usec), after)
  }

  /** evtag_unmarshal_timeval */
  method UnmarshalTimeval(buf: EvBuffer, need: nat) returns (r: int, sec: nat, usec: nat)
    requires buf.Valid()
    modifies buf, buf.chains
    ensures buf.Valid()
    ensures forall i :: 0 <= i < |buf.chains| ==> buf.chains[i] in old(buf.chains) || fresh(buf.chains[i])
    ensures match TimeRecord(old(buf.Contents()), need)
            case Fail(rest) => r == -1 && buf.Contents() == rest
            case Good((s, u), rest) => r == 0 && sec == s && usec == u && buf.Contents() == rest
  {
    sec, usec := 0, 0;
    var len, tag := UnmarshalHeader(buf);
    if len == -1 {
      return -1, 0, 0;
    }
    r := -1;
    if tag == need {
      r, sec, usec := ReadTimeval(buf, len);
    }
    var _ := buf.Drain(if len < 0 then SIZE_MAX + 1 + len else len);
  }

  /** The middle of evtag_unmarshal_timeval */
  method ReadTimeval(buf: EvBuffer, len: int) returns (r: int, sec: nat, usec: nat)
    requires buf.Valid()
    modifies buf, buf.chains
    ensures buf.Valid()
    ensures forall i :: 0 <= i < |buf.chains| ==> buf.chains[i] in old(buf.chains) || fresh(buf.chains[i])
    ensures buf.Contents() == old(buf.Contents())
    ensures match IntAt(buf.Contents(), 0, 8)
            case None => r == -1
            case Some((s, k)) =>
              match IntAt(buf.Contents(), k, 8)
              case None => r == -1
              case Some((u, l)) => if k + l > len then r == -1 else r == 0 && sec == s && usec == u
  {
    usec := 0;
    var off, off2;
    off, sec := DecodeIntAt(buf, 0, 8);
    if off == -1 {
      return -1, 0, 0;
    }
    off2, usec := DecodeIntAt(buf, off, 8);
    r := if off2 == -1 || off + off2 > len then -1 else 0;
  }

  ghost function TimeBytes(sec: nat, usec: nat): (r: seq<byte>)
    requires sec < TWO_32 && usec < TWO_32
    ensures |r| <= 10
  {
    LengthFits(sec);
    LengthFits(usec);
    IntBytes(Nibbles(sec)) + IntBytes(Nibbles(usec))
  }

  /** evtag_marshal_timeval; both parts, which are signed, are cut to 32 bits */
  method MarshalTimeval(buf: EvBuffer, tag: nat, sec: int, usec: int)
    requires buf.Valid() && tag < TWO_32
    requires |buf.Contents()| + |RecBytes(Rec(tag, TimeBytes(sec % TWO_32, usec % TWO_32)))| <= SIZE_MAX
    modifies buf, buf.chains
    ensures buf.Valid()
    ensures buf.Contents() == old(buf.Contents()) + RecBytes(Rec(tag, TimeBytes(sec % TWO_32, usec % TWO_32)))
  {
    LengthFits(sec % TWO_32);
    LengthFits(usec % TWO_32);
    var data, more := new byte[5], new byte[5];
    var len := EncodeIntInternal(data, sec % TWO_32, 4);
    var len2 := EncodeIntInternal(more, usec % TWO_32, 4);
    Marshal(buf, tag, data[..len] + more[..len2]);
  }

  /** Times of 32 bits written as records are read again. */
  lemma {:induction false} TimeRecordBack(tag: nat, sec: nat, usec: nat, rest: seq<byte>)
    requires tag < TWO_32 && sec < TWO_32 && usec < TWO_32
    ensures TimeRecord(RecBytes(Rec(tag, TimeBytes(sec, usec))) + rest, tag) == Good((sec, usec), rest)
  {
    hide RecBytes, Header, IntAt, IntBytes, Nibbles;
    LengthFits(sec);
    LengthFits(usec);
    var a, b := IntBytes(Nibbles(sec)), IntBytes(Nibbles(usec));
    var e := TimeBytes(sec, usec);
    RecordBack(Rec(tag, e), rest);
    var s := e + rest;
    assert s[0..0 + |a|] == a && s[|a|..|a| + |b|] == b && s[|e|..] == rest;
    IntRoundTrip(s, 0, sec, 8);
    IntRoundTrip(s, |a|, usec, 8);
  }

  /**
    What evtag_marshal_timeval writes reads as the same time exactly when neither part is negative or
    needs more than 32 bits.
   */
  lemma {:induction false} TimevalBack(tag: nat, sec: int, usec: int, rest: seq<byte>)
    requires tag < TWO_32
    ensures var r := TimeRecord(RecBytes(Rec(tag, TimeBytes(sec % TWO_32, usec % TWO_32))) + rest, tag);
            && r.Good? && r.rest == rest
            && (r.value.0 == sec && r.value.1 == usec <==> 0 <= sec < TWO_32 && 0 <= usec < TWO_32)
  {
    hide TimeRecord, RecBytes, TimeBytes;
    TimeRecordBack(tag, sec % TWO_32, usec % TWO_32, rest);
  }

  /** A time record with another tag is refused, and all of it is gone. */
  lemma {:induction false} OtherTimeTag(r: Rec, need: nat, rest: seq<byte>)
    requires Fits(r) && r.tag != need
    ensures TimeRecord(RecBytes(r) + rest, need) == Fail(rest)
  {
    RecordBack(r, rest);
    assert (r.data + rest)[|r.data|..] == rest;
    hide IntAt, Header, RecBytes;
  }
}
