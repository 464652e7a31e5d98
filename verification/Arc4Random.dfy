/**
 The generator around the arc4 stream: when it is seeded anew, and what it hands out in between.
 */
module Arc4Random {
  import opened Chains
  import opened Arc4

  const BYTES_BEFORE_RESEED := 1600000
  const DISCARDED := 12 * 256

  /** What one call of arc4_seed finds: the data that is mixed in, and whether a source of it worked */
  datatype Seed = Seed(chunks: seq<Chunk>, ok: bool)

  type Chunk = c: seq<byte> | c != [] witness [0]

  /**
    The generator as a value: `count` is arc4_count, `ok` is arc4_seeded_ok, `stirs` counts the calls
    of arc4_seed, and `drawn` the bytes handed out since arc4_count was last set anew.
   */
  datatype Gen = Gen(st: State, count: int, ok: bool, stirs: nat, drawn: nat)

  ghost predicate GenOk(g: Gen) {
    && IsPerm(g.st.s)
    && (g.count > 0 ==> g.ok) && g.count <= BYTES_BEFORE_RESEED
    && (g.ok ==> g.drawn <= BYTES_BEFORE_RESEED + 4 - (if g.count < 1 then 1 else g.count))
  }

  /** The data of one seeding is mixed in. */
  function AddChunks(st: State, chunks: seq<Chunk>, n: nat): (r: State)
    requires |st.s| == 256 && n <= |chunks|
    ensures |r.s| == 256
  {
    if n == 0 then st else Add(AddChunks(st, chunks, n - 1), chunks[n - 1])
  }

  lemma {:induction false} AddChunksKeepsPerm(st: State, chunks: seq<Chunk>, n: nat)
    requires IsPerm(st.s) && n <= |chunks|
    ensures IsPerm(AddChunks(st, chunks, n).s)
  {
    if n > 0 {
      AddChunksKeepsPerm(st, chunks, n - 1);
      AddKeepsPerm(AddChunks(st, chunks, n - 1), chunks[n - 1]);
    }
  }

  /** arc4_stir */
  function Stirred(g: Gen, seeds: nat -> Seed): (r: Gen)
    requires |g.st.s| == 256
    ensures |r.st.s| == 256
  {
    var seed := seeds(g.stirs);
    var st := AddChunks(g.st, seed.chunks, |seed.chunks|);
    if g.ok || seed.ok then Gen(Stream(st, DISCARDED).0, BYTES_BEFORE_RESEED, true, g.stirs + 1, 0)
    else g.(st := st, stirs := g.stirs + 1)
  }

  lemma {:induction false} StirredOk(g: Gen, seeds: nat -> Seed)
    requires GenOk(g)
    ensures GenOk(Stirred(g, seeds))
  {
    hide AddChunks, Stream;
    var chunks := seeds(g.stirs).chunks;
    AddChunksKeepsPerm(g.st, chunks, |chunks|);
    StreamUnwinds(AddChunks(g.st, chunks, |chunks|), DISCARDED);
  }

  /** One turn of arc4random_buf: the counter is looked at, then a byte is drawn. */
  function Turn(g: Gen, seeds: nat -> Seed): (Gen, byte)
    requires |g.st.s| == 256
  {
    var g1 := g.(count := g.count - 1);
    var g2 := if g1.count <= 0 then Stirred(g1, seeds) else g1;
    var (st, b) := Get(g2.st);
    (g2.(st := st, drawn := g2.drawn + 1), b)
  }

  /** The generator after `n` turns, and the bytes drawn */
  function Turns(g: Gen, seeds: nat -> Seed, n: nat): (r: (Gen, seq<byte>))
    requires |g.st.s| == 256
    ensures |r.0.st.s| == 256 && |r.1| == n
  {
    if n == 0 then (g, [])
    else
      var (g', out) := Turns(g, seeds, n - 1);
      var (g'', b) := Turn(g', seeds);
      (g'', out + [b])
  }

  lemma {:induction false} TurnOk(g: Gen, seeds: nat -> Seed)
    requires GenOk(g)
    ensures GenOk(Turn(g, seeds).0)
  {
    hide Stirred, Get;
    var g1 := g.(count := g.count - 1);
    if g1.count <= 0 {
      StirredResets(g1, seeds);
      StirPerm(g1, seeds);
    }
    var g2 := if g1.count <= 0 then Stirred(g1, seeds) else g1;
    GetPerm(g2.st);
  }

  /** Seeding sets the counter unless no source has ever worked. */
  lemma {:induction false} StirredResets(g: Gen, seeds: nat -> Seed)
    requires |g.st.s| == 256
    ensures var r := Stirred(g, seeds);
            && r.ok == (g.ok || seeds(g.stirs).ok)
            && if r.ok then r.count == BYTES_BEFORE_RESEED && r.drawn == 0 else r.count == g.count
  {
    hide AddChunks, Stream;
  }

  lemma {:induction false} StirPerm(g: Gen, seeds: nat -> Seed)
    requires IsPerm(g.st.s)
    ensures IsPerm(Stirred(g, seeds).st.s)
  {
    hide AddChunks, Stream;
    var chunks := seeds(g.stirs).chunks;
    AddChunksKeepsPerm(g.st, chunks, |chunks|);
    StreamUnwinds(AddChunks(g.st, chunks, |chunks|), DISCARDED);
  }

  lemma {:induction false} GetPerm(st: State)
    requires IsPerm(st.s)
    ensures IsPerm(Get(st).0.s)
  {
    UnmixMix(st, 0);
  }

  /** Without a seeding in between, the bytes are those of the stream. */
  lemma {:induction false} TurnsAreStream(g: Gen, seeds: nat -> Seed, n: nat)
    requires |g.st.s| == 256 && n < g.count
    ensures Turns(g, seeds, n).1 == Stream(g.st, n).1
    ensures Turns(g, seeds, n).0 == g.(st := Stream(g.st, n).0, count := g.count - n, drawn := g.drawn + n)
  {
    hide Stirred, Get;
    if n > 0 {
      TurnsAreStream(g, seeds, n - 1);
    }
  }

  /** arc4random's four bytes, the first of them highest */
  function Word(b: seq<byte>): nat
    requires |b| == 4
  {
    b[0] as nat * 0x1000000 + b[1] as nat * 0x10000 + b[2] as nat * 0x100 + b[3] as nat
  }

  /** Each byte is where it belongs in the number. */
  lemma {:induction false} WordBytes(b: seq<byte>)
    requires |b| == 4
    ensures var w := Word(b);
            && w < 0x1_0000_0000 && w / 0x1000000 == b[0] as nat && w / 0x10000 % 0x100 == b[1] as nat
            && w / 0x100 % 0x100 == b[2] as nat && w % 0x100 == b[3] as nat
  {
    FourDigits(b[0] as nat, b[1] as nat, b[2] as nat, b[3] as nat);
  }

  lemma {:induction false} FourDigits(a: nat, b: nat, c: nat, d: nat)
    requires a < 0x100 && b < 0x100 && c < 0x100 && d < 0x100
    ensures var w := a * 0x1000000 + b * 0x10000 + c * 0x100 + d;
            && w < 0x1_0000_0000 && w / 0x1000000 == a
            && w / 0x10000 % 0x100 == b && w / 0x100 % 0x100 == c && w % 0x100 == d
  {
    var w := a * 0x1000000 + b * 0x10000 + c * 0x100 + d;
    assert w / 0x100 == a * 0x10000 + b * 0x100 + c;
    assert w / 0x10000 == a * 0x100 + b;
  }

  /** arc4_stir_if_needed */
  function Refreshed(g: Gen, seeds: nat -> Seed, forked: bool): (r: Gen)
    requires |g.st.s| == 256
    ensures |r.st.s| == 256
  {
    if g.count <= 0 || forked then Stirred(g, seeds) else g
  }

  /** arc4random: four bytes are counted before it is looked whether to seed, and drawn after it. */
  function Drawn4(g: Gen, seeds: nat -> Seed, forked: bool): (r: (Gen, nat))
    requires |g.st.s| == 256
    ensures |r.0.st.s| == 256
  {
    var g1 := Refreshed(g.(count := g.count - 4), seeds, forked);
    var (st, out) := Stream(g1.st, 4);
    StreamLength(g1.st, 4);
    (g1.(st := st, drawn := g1.drawn + 4), Word(out))
  }

  lemma {:induction false} Drawn4Ok(g: Gen, seeds: nat -> Seed, forked: bool)
    requires GenOk(g)
    ensures GenOk(Drawn4(g, seeds, forked).0)
  {
    hide Stirred, Stream, Word;
    var g0 := g.(count := g.count - 4);
    StirredResets(g0, seeds);
    StirPerm(g0, seeds);
    StreamUnwinds(Refreshed(g0, seeds, forked).st, 4);
  }

  class Generator {
    const stream: Arc4Stream
    const seeds: nat -> Seed
    var count: int
    var ok: bool
    var stirs: nat
    ghost var drawn: nat

    ghost function Now(): Gen
      reads this, stream, stream.s
    {
      Gen(stream.Now(), count, ok, stirs, drawn)
    }

    /** The state is a permutation, and not too much was drawn since the last seeding. */
    ghost predicate Valid()
      reads this, stream, stream.s
    {
      stream.Valid() && GenOk(Now())
    }

    constructor (seeds: nat -> Seed)
      ensures Valid() && fresh(stream) && fresh(stream.s) && Now() == Gen(State(0, 0, START), 0, false, 0, 0)
    {
      this.seeds := seeds;
      stream := new Arc4Stream();
      count, ok, stirs, drawn := 0, false, 0, 0;
    }

    /** arc4_stir */
    method Stir() returns (r: int)
      requires stream.Valid()
      modifies this, stream, stream.s
      ensures stream.Valid() && Now() == Stirred(old(Now()), seeds)
      ensures r == if ok then 0 else -1
    {
      hide Stream, AddChunks;
      ghost var g := Now();
      var seed := seeds(stirs);
      stirs := stirs + 1;
      AddAll(seed.chunks);
      if seed.ok {
        ok := true;
      }
      if !ok {
        return -1;
      }
      Discard();
      count, drawn := BYTES_BEFORE_RESEED, 0;
      r := 0;
    }

    /** The data of arc4_seed */
    method AddAll(chunks: seq<Chunk>)
      requires stream.Valid()
      modifies stream, stream.s
      ensures stream.Valid() && stream.Now() == AddChunks(old(stream.Now()), chunks, |chunks|)
    {
      ghost var st := stream.Now();
      for n := 0 to |chunks|
        invariant stream.Valid() && stream.Now() == AddChunks(st, chunks, n)
      {
        hide Add;
        stream.AddRandom(chunks[n]);
      }
    }

    /** The first bytes after a seeding are thrown away. */
    method Discard()
      requires stream.Valid()
      modifies stream, stream.s
      ensures stream.Valid() && stream.Now() == Stream(old(stream.Now()), DISCARDED).0
    {
      ghost var st := stream.Now();
      for n := 0 to DISCARDED
        invariant stream.Valid() && stream.Now() == Stream(st, n).0
      {
        hide Get;
        var _ := stream.GetByte();
      }
    }

    /** arc4random_buf: the buffer is filled from its end, with seedings when the counter has run out. */
    method Fill(buf: array<byte>, forked: bool)
      requires Valid() && buf != stream.s
      modifies this, stream, stream.s, buf
      ensures Valid()
      ensures var (g, out) := Turns(Refreshed(old(Now()), seeds, forked), seeds, buf.Length);
              Now() == g && forall k :: 0 <= k < buf.Length ==> buf[k] == out[buf.Length - 1 - k]
    {
      hide Stirred, Get, GenOk;
      RefreshedOk(Now(), seeds, forked);
      if count <= 0 || forked {
        var _ := Stir();
      }
      ghost var g := Now();
      var n := buf.Length;
      while n > 0
        invariant 0 <= n <= buf.Length && Valid() && Now() == Turns(g, seeds, buf.Length - n).0
        invariant forall k :: n <= k < buf.Length ==> buf[k] == Turns(g, seeds, buf.Length - n).1[buf.Length - 1 - k]
      {
        n := n - 1;
        TurnOk(Now(), seeds);
        var b := OneTurn();
        buf[n] := b;
      }
    }

    /** One turn of the loop of arc4random_buf */
    method OneTurn() returns (b: byte)
      requires Valid()
      modifies this, stream, stream.s
      ensures stream.Valid() && (Now(), b) == Turn(old(Now()), seeds)
    {
      hide Stirred, Get;
      count := count - 1;
      if count <= 0 {
        var _ := Stir();
      }
      b := stream.GetByte();
      drawn := drawn + 1;
    }

    /** arc4random */
    method Random(forked: bool) returns (val: nat)
      requires Valid()
      modifies this, stream, stream.s
      ensures Valid() && (Now(), val) == Drawn4(old(Now()), seeds, forked)
    {
      hide Stirred, Get, Word, GenOk;
      Drawn4Ok(Now(), seeds, forked);
      count := count - 4;
      if count <= 0 || forked {
        var _ := Stir();
      }
      ghost var st := stream.Now();
      var b0 := stream.GetByte();
      var b1 := stream.GetByte();
      var b2 := stream.GetByte();
      var b3 := stream.GetByte();
      drawn := drawn + 4;
      FourBytes(st);
      assert [b0, b1, b2, b3] == Stream(st, 4).1;
      val := Word([b0, b1, b2, b3]);
    }
  }

  lemma {:induction false} FourBytes(st: State)
    requires |st.s| == 256
    ensures var (s1, b0) := Get(st);
            var (s2, b1) := Get(s1);
            var (s3, b2) := Get(s2);
            var (s4, b3) := Get(s3);
            Stream(st, 4) == (s4, [b0, b1, b2, b3])
  {
    hide Get;
    var (s1, b0) := Get(st);
    var (s2, b1) := Get(s1);
    var (s3, b2) := Get(s2);
    assert Stream(st, 1).0 == s1 && Stream(st, 1).1 == [b0];
    assert Stream(st, 2).0 == s2 && Stream(st, 2).1 == [b0, b1];
    assert Stream(st, 3).0 == s3 && Stream(st, 3).1 == [b0, b1, b2];
    assert Stream(st, 4).1 == [b0, b1, b2, Get(s3).1];
  }

  lemma {:induction false} RefreshedOk(g: Gen, seeds: nat -> Seed, forked: bool)
    requires GenOk(g)
    ensures GenOk(Refreshed(g, seeds, forked))
  {
    hide Stirred;
    StirredOk(g, seeds);
  }

  // ---------- runs ----------

  datatype Call = Bytes(n: nat, forked: bool) | Number(forked: bool) | Reseed

  function After(g: Gen, seeds: nat -> Seed, c: Call): (r: Gen)
    requires |g.st.s| == 256
    ensures |r.st.s| == 256
  {
    match c
    case Bytes(n, forked) => Turns(Refreshed(g, seeds, forked), seeds, n).0
    case Number(forked) => Drawn4(g, seeds, forked).0
    case Reseed => Stirred(g, seeds)
  }

  function AfterAll(g: Gen, seeds: nat -> Seed, calls: seq<Call>): (r: Gen)
    requires |g.st.s| == 256
    ensures |r.st.s| == 256
  {
    if calls == [] then g
    else After(AfterAll(g, seeds, calls[..|calls| - 1]), seeds, calls[|calls| - 1])
  }

  /**
    In any run of calls the state stays a permutation, and once a source of seeds has worked no more
    than 1600003 bytes are handed out between two seedings. The run depends on the seeds alone.
   */
  method Run(g: Generator, calls: seq<Call>)
    requires g.Valid()
    modifies g, g.stream, g.stream.s
    ensures g.Valid() && IsPerm(g.stream.s[..]) && (g.ok ==> g.drawn <= BYTES_BEFORE_RESEED + 3)
    ensures g.Now() == AfterAll(old(g.Now()), g.seeds, calls)
  {
    ghost var start := g.Now();
    for i := 0 to |calls|
      invariant g.Valid() && g.Now() == AfterAll(start, g.seeds, calls[..i])
    {
      hide Stirred, GenOk, Turns, Drawn4;
      assert calls[..i + 1][..i] == calls[..i];
      match calls[i] {
        case Bytes(n, forked) =>
          var buf := new byte[n];
          g.Fill(buf, forked);
        case Number(forked) =>
          var _ := g.Random(forked);
        case Reseed =>
          StirredOk(g.Now(), g.seeds);
          var _ := g.Stir();
      }
    }
    assert calls[..|calls|] == calls;
  }
}
