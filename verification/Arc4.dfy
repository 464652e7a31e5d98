/**
 The arc4random stream: its state stays a permutation and can be unwound, and reduction to a
 range favours no result.
 */
module Arc4 {
  import opened Chains
  import opened Numbers
  import opened Options

  /** struct arc4_stream as a value */
  datatype State = State(i: byte, j: byte, s: seq<byte>)

  /** All 256 bytes, each once. */
  ghost predicate IsPerm(s: seq<byte>) {
    |s| == 256 && forall a, b :: 0 <= a < b < 256 ==> s[a] != s[b]
  }

  function Swap(s: seq<byte>, a: byte, b: byte): (r: seq<byte>)
    requires |s| == 256
    ensures |r| == 256
  {
    s[a := s[b]][b := s[a]]
  }

  lemma {:induction false} SwapKeepsPerm(s: seq<byte>, a: byte, b: byte)
    requires IsPerm(s)
    ensures IsPerm(Swap(s, a, b)) && Swap(Swap(s, a, b), a, b) == s
  {
    var t := Swap(s, a, b);
    assert t[a] == s[b] && t[b] == s[a] && forall k :: 0 <= k < 256 && k != a && k != b ==> t[k] == s[k];
    assert Swap(t, a, b) == s;
  }

  /** The bytes that occur in a list */
  ghost function Values(s: seq<byte>): set<nat> {
    set k | 0 <= k < |s| :: s[k] as nat
  }

  lemma {:induction false} DistinctSize(s: seq<byte>)
    requires forall a, b :: 0 <= a < b < |s| ==> s[a] != s[b]
    ensures |Values(s)| == |s|
  {
    if s != [] {
      var n := |s| - 1;
      DistinctSize(s[..n]);
      assert Values(s) == Values(s[..n]) + {s[n] as nat};
      assert s[n] !in Values(s[..n]);
    }
  }

  lemma {:induction false} SubsetOfSameSize(a: set<nat>, b: set<nat>)
    requires a <= b && |a| == |b|
    ensures a == b
  {
    if x :| x in b && x !in a {
      assert a <= b - {x} && |b - {x}| == |b| - 1;
      SubsetSize(a, b - {x});
    }
  }

  /** A permutation misses no byte. */
  lemma {:induction false} PermHasAll(s: seq<byte>, x: byte)
    requires IsPerm(s)
    ensures x in s
  {
    DistinctSize(s);
    BelowSize(256);
    SubsetOfSameSize(Values(s), Below(256));
    assert x as nat in Below(256);
    hide Below;
    var k: nat :| k < |s| && s[k] as nat == x as nat;
  }

  // ---------- the steps ----------

  const START: seq<byte> := seq(256, n requires 0 <= n < 256 => n)

  lemma {:induction false} StartIsPerm()
    ensures IsPerm(START)
  {
  }

  /** One round of arc4_addrandom */
  function Mix(st: State, d: byte): State
    requires |st.s| == 256
  {
    var i := (st.i + 1) % 256;
    var j := (st.j + st.s[i] + d) % 256;
    State(i, j, Swap(st.s, i, j))
  }

  /** arc4_getbyte: the new state and the byte */
  function Get(st: State): (r: (State, byte))
    requires |st.s| == 256
    ensures |r.0.s| == 256
  {
    var st' := Mix(st, 0);
    var sum: nat := st'.s[st'.i] as nat + st'.s[st'.j] as nat;
    (st', st'.s[sum % 256])
  }

  /** The state before a round that mixed in `d`. */
  function Unmix(st: State, d: byte): State
    requires |st.s| == 256
  {
    var s := Swap(st.s, st.i, st.j);
    State((st.i + 255) % 256, (st.j + 512 - s[st.i] - d) % 256, s)
  }

  /** A round can be taken back; in particular no two states lead to the same one. */
  lemma {:induction false} UnmixMix(st: State, d: byte)
    requires IsPerm(st.s)
    ensures IsPerm(Mix(st, d).s) && Unmix(Mix(st, d), d) == st
  {
    var i := (st.i + 1) % 256;
    var j := (st.j + st.s[i] + d) % 256;
    SwapKeepsPerm(st.s, i, j);
    assert (i + 255) % 256 == st.i;
    assert (j + 512 - st.s[i] - d) % 256 == st.j;
  }

  lemma {:induction false} MixIsInjective(a: State, b: State, d: byte)
    requires IsPerm(a.s) && IsPerm(b.s) && Mix(a, d) == Mix(b, d)
    ensures a == b
  {
    UnmixMix(a, d);
    UnmixMix(b, d);
  }

  /** The state after `n` bytes, and those bytes. */
  function Stream(st: State, n: nat): (r: (State, seq<byte>))
    requires |st.s| == 256
    ensures |r.0.s| == 256
  {
    if n == 0 then (st, [])
    else
      var (st', out) := Stream(st, n - 1);
      var (st'', b) := Get(st');
      (st'', out + [b])
  }

  function Unstream(st: State, n: nat): (r: State)
    requires |st.s| == 256
    ensures |r.s| == 256
    decreases n
  {
    if n == 0 then st else Unstream(Unmix(st, 0), n - 1)
  }

  /** Any run of output bytes can be unwound: the state it started from is found again, and so are the bytes. */
  lemma {:induction false} StreamUnwinds(st: State, n: nat)
    requires IsPerm(st.s)
    ensures IsPerm(Stream(st, n).0.s) && Unstream(Stream(st, n).0, n) == st
    ensures Stream(Unstream(Stream(st, n).0, n), n) == Stream(st, n)
  {
    if n > 0 {
      StreamUnwinds(st, n - 1);
      UnmixMix(Stream(st, n - 1).0, 0);
    }
  }

  /** The rounds of arc4_addrandom */
  function MixAll(st: State, dat: seq<byte>, n: nat): (r: State)
    requires |st.s| == 256 && |dat| > 0
    ensures |r.s| == 256
  {
    if n == 0 then st else Mix(MixAll(st, dat, n - 1), dat[(n - 1) % |dat|])
  }

  /** arc4_addrandom as a whole */
  function Add(st: State, dat: seq<byte>): (r: State)
    requires |st.s| == 256 && |dat| > 0
    ensures |r.s| == 256
  {
    var st' := MixAll(st.(i := (st.i + 255) % 256), dat, 256);
    st'.(j := st'.i)
  }

  lemma {:induction false} MixAllKeepsPerm(st: State, dat: seq<byte>, n: nat)
    requires IsPerm(st.s) && |dat| > 0
    ensures IsPerm(MixAll(st, dat, n).s)
  {
    if n > 0 {
      MixAllKeepsPerm(st, dat, n - 1);
      UnmixMix(MixAll(st, dat, n - 1), dat[(n - 1) % |dat|]);
    }
  }

  /** Data that differs in one byte leads to another state: every byte of it counts. */
  lemma {:induction false} EveryByteCounts(st: State, a: seq<byte>, b: seq<byte>, k: nat, n: nat)
    requires IsPerm(st.s) && |a| == |b| && k < n <= |a| && a[k] != b[k]
    requires forall i :: 0 <= i < |a| && i != k ==> a[i] == b[i]
    ensures MixAll(st, a, n) != MixAll(st, b, n)
  {
    hide MixAll, Mix;
    MixAllKeepsPerm(st, a, n - 1);
    MixAllKeepsPerm(st, b, n - 1);
    MixAllStep(st, a, n);
    MixAllStep(st, b, n);
    if n - 1 == k {
      SameBefore(st, a, b, k);
      MixTellsBytes(MixAll(st, a, k), a[k], b[k]);
    } else {
      EveryByteCounts(st, a, b, k, n - 1);
      if MixAll(st, a, n) == MixAll(st, b, n) {
        MixIsInjective(MixAll(st, a, n - 1), MixAll(st, b, n - 1), a[n - 1]);
      }
    }
  }

  lemma {:induction false} MixAllStep(st: State, dat: seq<byte>, n: nat)
    requires |st.s| == 256 && 0 < n <= |dat|
    ensures MixAll(st, dat, n) == Mix(MixAll(st, dat, n - 1), dat[n - 1])
  {
    assert (n - 1) % |dat| == n - 1;
    hide Mix;
  }

  lemma {:induction false} SameBefore(st: State, a: seq<byte>, b: seq<byte>, k: nat)
    requires |st.s| == 256 && |a| == |b| && k < |a| && forall i :: 0 <= i < k ==> a[i] == b[i]
    ensures MixAll(st, a, k) == MixAll(st, b, k)
  {
    hide Mix;
    if k > 0 {
      SameBefore(st, a, b, k - 1);
      MixAllStep(st, a, k);
      MixAllStep(st, b, k);
      hide MixAll;
    }
  }

  lemma {:induction false} MixTellsBytes(st: State, c: byte, d: byte)
    requires |st.s| == 256 && c != d
    ensures Mix(st, c).j != Mix(st, d).j
  {
    hide Swap;
  }

  /** The first bytes of the unseeded stream, which are those of RC4 with the identity permutation: 2, 5 and 7 */
  lemma {:induction false} FirstBytes()
    ensures var (s1, b1) := Get(State(0, 0, START));
            var (s2, b2) := Get(s1);
            var (s3, b3) := Get(s2);
            b1 == 2 && b2 == 5 && b3 == 7
  {
    var s2 := START[2 := 3][3 := 2];
    GetIs(State(0, 0, START), 1, 1, START, 2);
    GetIs(State(1, 1, START), 2, 3, s2, 5);
    GetIs(State(2, 3, s2), 3, 5, s2[3 := 5][5 := 2], 7);
    hide Get;
  }

  lemma {:induction false} GetIs(st: State, i: byte, j: byte, s: seq<byte>, b: byte)
    requires |st.s| == 256 && i == (st.i + 1) % 256 && j == (st.j + st.s[i]) % 256 && s == Swap(st.s, i, j)
    requires b == s[(s[i] as nat + s[j] as nat) % 256]
    ensures Get(st) == (State(i, j, s), b)
  {
  }

  lemma {:induction false} NextIndex(x: nat)
    ensures (x % 256 + 1) % 256 == (x + 1) % 256
  {
  }

  lemma {:induction false} MixAllMoves(st: State, dat: seq<byte>, n: nat)
    requires |st.s| == 256 && |dat| > 0
    ensures MixAll(st, dat, n).i as nat == (st.i as nat + n) % 256
  {
    if n > 0 {
      MixAllMoves(st, dat, n - 1);
      var d := dat[(n - 1) % |dat|];
      assert MixAll(st, dat, n) == Mix(MixAll(st, dat, n - 1), d);
      NextIndex(st.i as nat + n - 1);
    }
  }

  /** Mixing in data moves `i` once around and leaves a permutation. */
  lemma {:induction false} AddKeepsPerm(st: State, dat: seq<byte>)
    requires IsPerm(st.s) && |dat| > 0
    ensures IsPerm(Add(st, dat).s) && Add(st, dat).i == Add(st, dat).j == (st.i + 255) % 256
  {
    var st' := st.(i := (st.i + 255) % 256);
    MixAllKeepsPerm(st', dat, 256);
    MixAllMoves(st', dat, 256);
  }

  // ---------- the stream as the source updates it ----------

  class Arc4Stream {
    var i: byte
    var j: byte
    const s: array<byte>

    ghost function Now(): State
      reads this, s
    {
      State(i, j, s[..])
    }

    ghost predicate Valid()
      reads this, s
    {
      s.Length == 256 && IsPerm(s[..])
    }

    /** arc4_init */
    constructor ()
      ensures Valid() && Now() == State(0, 0, START) && fresh(s)
    {
      var a := new byte[256];
      for n := 0 to 256
        invariant forall k :: 0 <= k < n ==> a[k] == k
      {
        a[n] := n;
      }
      s, i, j := a, 0, 0;
      new;
      assert s[..] == START;
      StartIsPerm();
    }

    /** One exchange, with what it mixes in */
    method Round(d: byte)
      requires Valid()
      modifies this, s
      ensures Valid() && Now() == Mix(old(Now()), d)
    {
      UnmixMix(Now(), d);
      i := (i + 1) % 256;
      var si := s[i];
      j := (j + si + d) % 256;
      s[i] := s[j];
      s[j] := si;
      assert s[..] == Mix(old(Now()), d).s;
    }

    /** arc4_addrandom */
    method AddRandom(dat: seq<byte>)
      requires Valid() && |dat| > 0
      modifies this, s
      ensures Valid() && Now() == Add(old(Now()), dat)
    {
      i := (i + 255) % 256;
      ghost var st := Now();
      for n := 0 to 256
        invariant Valid() && Now() == MixAll(st, dat, n)
      {
        Round(dat[n % |dat|]);
      }
      j := i;
    }

    /** arc4_getbyte */
    method GetByte() returns (b: byte)
      requires Valid()
      modifies this, s
      ensures Valid() && (Now(), b) == Get(old(Now()))
    {
      Round(0);
      var sum: nat := s[i] as nat + s[j] as nat;
      b := s[sum % 256];
    }

    /** arc4random_addrandom: all the data is looked at, 256 bytes at a time. */
    method AddRandomAll(dat: seq<byte>)
      requires Valid()
      modifies this, s
      ensures Valid() && Now() == AddFrom(old(Now()), dat, 0)
    {
      var n := 0;
      while n < |dat|
        invariant Valid() && AddFrom(Now(), dat, n) == AddFrom(old(Now()), dat, 0)
      {
        AddRandom(dat[n..]);
        n := n + 256;
      }
    }
  }

  lemma {:induction false} StreamLength(st: State, n: nat)
    requires |st.s| == 256
    ensures |Stream(st, n).1| == n
  {
    if n > 0 {
      StreamLength(st, n - 1);
    }
  }

  function AddFrom(st: State, dat: seq<byte>, n: nat): (r: State)
    requires |st.s| == 256
    ensures |r.s| == 256
    decreases |dat| - n
  {
    if n >= |dat| then st else AddFrom(Add(st, dat[n..]), dat, n + 256)
  }

  // ---------- a range without bias ----------

  /** The smallest word that is accepted, computed in 32 bits. */
  function Min(bound: nat): nat
    requires 2 <= bound < TWO_32
  {
    if bound > 0x8000_0000 then (1 + (TWO_32 - 1 - bound)) % TWO_32
    else ((0xffff_ffff - bound * 2 % TWO_32) + 1) % TWO_32 % bound
  }

  lemma {:induction false} DivModUnique(a: nat, d: nat, q: nat, r: nat)
    requires 0 <= r < d && a == q * d + r
    ensures a / d == q && a % d == r
  {
    var q', r' := a / d, a % d;
    assert a == q' * d + r';
    NotFewer(q, q', d, r, r');
    NotFewer(q', q, d, r', r);
  }

  lemma {:induction false} NotFewer(q: nat, q': nat, d: nat, r: nat, r': nat)
    requires r < d && r' < d && q * d + r == q' * d + r'
    ensures q >= q'
  {
    TimesGrows(q + 1, q', d);
    assert (q + 1) * d == q * d + d;
  }

  /** The overflow-avoiding computation is the remainder of 2^32. */
  lemma {:induction false} MinIsRemainder(bound: nat)
    requires 2 <= bound < TWO_32
    ensures Min(bound) == TWO_32 % bound
  {
    if bound > 0x8000_0000 {
      DivModUnique(TWO_32, bound, 1, TWO_32 - bound);
    } else {
      SmallMin(bound);
      TwiceMore(TWO_32 - 2 * bound, bound);
    }
  }

  lemma {:induction false} SmallMin(bound: nat)
    requires 2 <= bound <= 0x8000_0000
    ensures Min(bound) == (TWO_32 - 2 * bound) % bound
  {
    var x := ((0xffff_ffff - bound * 2 % TWO_32) + 1) % TWO_32;
    assert x == TWO_32 - 2 * bound;
  }

  lemma {:induction false} TwiceMore(x: nat, d: nat)
    requires d > 0
    ensures (x + 2 * d) % d == x % d
  {
    var q := x / d;
    assert (q + 2) * d == q * d + 2 * d;
    DivModUnique(x + 2 * d, d, q + 2, x % d);
  }

  /** `q` words, `step` apart, the first being `first`. */
  ghost function Progression(first: nat, step: nat, q: nat): set<nat> {
    if q == 0 then {} else Progression(first, step, q - 1) + {first + (q - 1) * step}
  }

  lemma {:induction false} ProgressionSize(first: nat, step: nat, q: nat)
    requires step > 0
    ensures |Progression(first, step, q)| == q
    ensures forall w :: w in Progression(first, step, q) ==> w < first + q * step
  {
    if q > 0 {
      ProgressionSize(first, step, q - 1);
      assert q * step == (q - 1) * step + step;
    }
  }

  lemma {:induction false} InProgression(first: nat, step: nat, q: nat, k: nat)
    requires k < q
    ensures first + k * step in Progression(first, step, q)
  {
    if k < q - 1 {
      InProgression(first, step, q - 1, k);
    }
  }

  lemma {:induction false} ProgressionIs(first: nat, step: nat, q: nat, w: nat) returns (k: nat)
    requires w in Progression(first, step, q)
    ensures k < q && w == first + k * step
  {
    if w == first + (q - 1) * step {
      k := q - 1;
    } else {
      k := ProgressionIs(first, step, q - 1, w);
    }
  }

  /** A word from `m` on, below `total`, with remainder `c`. */
  ghost predicate InRange(m: nat, total: nat, bound: nat, c: nat, w: nat)
    requires bound > 0
  {
    m <= w < total && w % bound == c
  }

  /** The words in a range of whole multiples of `bound` that have one remainder are evenly spaced. */
  lemma {:induction false} RangeIsProgression(m: nat, total: nat, bound: nat, q: nat, c: nat, w: nat)
    requires c < bound && m < bound && total == q * bound + m
    ensures InRange(m, total, bound, c, w) <==> w in Progression(if c < m then c + bound else c, bound, q)
  {
    var first := if c < m then c + bound else c;
    if InRange(m, total, bound, c, w) {
      WordOf(bound, c, w, q, m);
      InProgression(first, bound, q, if c < m then w / bound - 1 else w / bound);
    }
    if w in Progression(first, bound, q) {
      var k := ProgressionIs(first, bound, q, w);
      WordAt(bound, c, w, q, m, k);
    }
  }

  lemma {:induction false} WordOf(bound: nat, c: nat, w: nat, q: nat, m: nat)
    requires bound > 0 && m < bound && c < bound && m <= w < q * bound + m && w % bound == c
    ensures c < m ==> 1 <= w / bound <= q && w == c + bound + (w / bound - 1) * bound
    ensures c >= m ==> w / bound < q && w == c + w / bound * bound
  {
    var k := w / bound;
    assert w == k * bound + c;
    assert k <= q by {
      TimesGrows(q + 1, k, bound);
      assert (q + 1) * bound == q * bound + bound;
    }
    assert k * bound == bound + (k - 1) * bound;
  }

  lemma {:induction false} WordAt(bound: nat, c: nat, w: nat, q: nat, m: nat, k: nat)
    requires bound > 0 && m < bound && c < bound && k < q && w == (if c < m then c + bound else c) + k * bound
    ensures m <= w < q * bound + m && w % bound == c
  {
    assert (k + 1) * bound == k * bound + bound;
    assert q * bound == k * bound + (q - k) * bound;
    TimesGrows(1, q - k, bound);
    if c < m {
      DivModUnique(w, bound, k + 1, c);
    } else {
      DivModUnique(w, bound, k, c);
    }
  }

  lemma {:induction false} RangeSize(m: nat, total: nat, bound: nat, q: nat, c: nat) returns (ws: set<nat>)
    requires c < bound && m < bound && total == q * bound + m
    ensures |ws| == q && forall w: nat :: w in ws <==> InRange(m, total, bound, c, w)
  {
    var first := if c < m then c + bound else c;
    ws := Progression(first, bound, q);
    ProgressionSize(first, bound, q);
    forall w: nat
      ensures w in ws <==> InRange(m, total, bound, c, w)
    {
      RangeIsProgression(m, total, bound, q, c, w);
    }
  }

  /** The words that arc4random_uniform accepts and maps to `c`. */
  ghost predicate Accepted(bound: nat, c: nat, w: nat)
    requires 2 <= bound < TWO_32
  {
    InRange(Min(bound), TWO_32, bound, c, w)
  }

  /** No result is favoured: each one has exactly 2^32 / bound accepted words. */
  lemma {:induction false} NoBias(bound: nat, c: nat) returns (ws: set<nat>)
    requires 2 <= bound < TWO_32 && c < bound
    ensures |ws| == TWO_32 / bound && forall w: nat :: w in ws <==> Accepted(bound, c, w)
  {
    MinIsRemainder(bound);
    ws := RangeSize(Min(bound), TWO_32, bound, TWO_32 / bound, c);
  }

  /**
    arc4random_uniform on the words that arc4random gives, one after another; none is accepted if
    there is no result.
   */
  method Uniform(bound: nat, words: seq<nat>) returns (r: Option<nat>)
    requires bound < TWO_32 && forall i :: 0 <= i < |words| ==> words[i] < TWO_32
    ensures bound < 2 ==> r == Some(0)
    ensures bound >= 2 && r.Some? ==>
      exists i :: 0 <= i < |words| && Accepted(bound, r.value, words[i]) &&
        forall h :: 0 <= h < i ==> words[h] < Min(bound)
    ensures bound >= 2 && r.None? ==> forall i :: 0 <= i < |words| ==> words[i] < TWO_32 % bound
  {
    if bound < 2 {
      return Some(0);
    }
    MinIsRemainder(bound);
    var min := if bound > 0x8000_0000 then (1 + (TWO_32 - 1 - bound)) % TWO_32
               else ((0xffff_ffff - bound * 2 % TWO_32) + 1) % TWO_32 % bound;
    for i := 0 to |words|
      invariant forall h :: 0 <= h < i ==> words[h] < min
    {
      if words[i] >= min {
        return Some(words[i] % bound);
      }
    }
    return None;
  }
}
