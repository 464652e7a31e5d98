/**
 Domain names in DNS messages: reading them (name_parse) and writing them with the compression of
 section 4.1.4 of RFC 1035 (dnsname_to_labels).
 */
module DnsNames {
  import opened Chains
  import opened Options

  type Label = seq<byte>

  const DOT: byte := 46
  const MAX_LABELS := 128

  /** The index of the first dot from `at` on, or the length of the name: strchr. */
  function FirstDot(name: seq<byte>, at: nat): (k: nat)
    requires at <= |name|
    ensures at <= k <= |name| && (k < |name| ==> name[k] == DOT)
    ensures forall i :: at <= i < k ==> name[i] != DOT
    decreases |name| - at
  {
    if at == |name| || name[at] == DOT then at else FirstDot(name, at + 1)
  }

  /** The pieces of a name between its dots. */
  function Split(name: seq<byte>): seq<Label>
    decreases |name|
  {
    var k := FirstDot(name, 0);
    if k == |name| then [name] else [name[..k]] + Split(name[k + 1..])
  }

  /** The pieces of a name before the first empty one; for `a.b` and `a.b.` they are `a` and `b`. */
  function Meaning(name: seq<byte>): seq<Label>
    decreases |name|
  {
    var k := FirstDot(name, 0);
    if k == 0 then [] else if k == |name| then [name] else [name[..k]] + Meaning(name[k + 1..])
  }

  /** The text of a list of labels. */
  function Join(labels: seq<Label>): seq<byte> {
    if |labels| == 0 then []
    else if |labels| == 1 then labels[0]
    else labels[0] + [DOT] + Join(labels[1..])
  }

  // ---------- what the text of a name means ----------

  /** No piece is empty, save perhaps the last. */
  ghost predicate Proper(name: seq<byte>)
    decreases |name|
  {
    var k := FirstDot(name, 0);
    k == |name| || (k > 0 && Proper(name[k + 1..]))
  }

  ghost predicate NoEmpty(labels: seq<Label>) {
    forall i :: 0 <= i < |labels| ==> labels[i] != []
  }

  lemma {:induction false} JoinSplit(name: seq<byte>)
    ensures |Split(name)| > 0 && Join(Split(name)) == name
    decreases |name|
  {
    var k := FirstDot(name, 0);
    if k < |name| {
      JoinSplit(name[k + 1..]);
      var qs := Split(name[k + 1..]);
      assert ([name[..k]] + qs)[1..] == qs;
    }
  }

  /** A name without an empty piece stands for all of its pieces, and its text is the text of its labels. */
  lemma {:induction false} MeaningOfNonEmpty(name: seq<byte>)
    requires NoEmpty(Split(name))
    ensures Meaning(name) == Split(name) && Join(Meaning(name)) == name
    decreases |name|
  {
    JoinSplit(name);
    var k := FirstDot(name, 0);
    assert Split(name)[0] == name[..k];
    if k < |name| {
      var qs := Split(name[k + 1..]);
      assert forall i :: 0 <= i < |qs| ==> qs[i] == Split(name)[i + 1];
      MeaningOfNonEmpty(name[k + 1..]);
    }
  }

  /** A name stands for all its pieces, but for an empty last one, exactly when no other piece is empty. */
  lemma {:induction false} MeaningIsSplit(name: seq<byte>)
    ensures var ps := Split(name);
            |ps| > 0 &&
            var wanted := if ps[|ps| - 1] == [] then ps[..|ps| - 1] else ps;
            && (Meaning(name) == wanted <==> NoEmpty(wanted))
            && (Proper(name) <==> NoEmpty(wanted))
    decreases |name|
  {
    hide FirstDot;
    var ps := Split(name);
    var k := FirstDot(name, 0);
    MeaningNoEmpty(name);
    if k < |name| {
      var rest := name[k + 1..];
      MeaningIsSplit(rest);
      var qs := Split(rest);
      assert ps == [name[..k]] + qs && ps[|ps| - 1] == qs[|qs| - 1];
      var wanted := if ps[|ps| - 1] == [] then ps[..|ps| - 1] else ps;
      var tail := if qs[|qs| - 1] == [] then qs[..|qs| - 1] else qs;
      assert wanted == [name[..k]] + tail;
      if NoEmpty(wanted) {
        assert wanted[0] != [];
        assert forall i :: 0 <= i < |tail| ==> tail[i] == wanted[i + 1];
      }
    }
  }

  /** The name `a..b` does not come back: it is read as `a`. */
  lemma {:induction false} EmptyPieceCuts()
    ensures var name: seq<byte> := [97, DOT, DOT, 98]; Meaning(name) == [[97]] && Join(Meaning(name)) != name
  {
    var name: seq<byte> := [97, DOT, DOT, 98];
    assert FirstDot(name, 1) == 1;
    assert FirstDot(name, 0) == 1;
    assert FirstDot(name[2..], 0) == 0;
    assert Meaning(name[2..]) == [] && name[..1] == [97];
    assert Meaning(name) == [name[..1]] + Meaning(name[2..]);
  }

  lemma {:induction false} MeaningNoEmpty(name: seq<byte>)
    ensures NoEmpty(Meaning(name))
    decreases |name|
  {
    var k := FirstDot(name, 0);
    if 0 < k < |name| {
      MeaningNoEmpty(name[k + 1..]);
    }
  }

  lemma {:induction false} JoinSnoc(labels: seq<Label>, l: Label)
    ensures Join(labels + [l]) == if labels == [] then l else Join(labels) + [DOT] + l
  {
    if labels != [] {
      JoinSnoc(labels[1..], l);
      assert (labels + [l])[1..] == labels[1..] + [l];
    }
  }

  lemma {:induction false} JoinGrows(a: seq<Label>, b: seq<Label>)
    ensures |Join(a + b)| >= |Join(a)|
    decreases |b|
  {
    if b == [] {
      assert a + b == a;
    } else {
      JoinSnoc(a, b[0]);
      JoinGrows(a + [b[0]], b[1..]);
      assert a + b == a + [b[0]] + b[1..];
    }
  }

  lemma {:induction false} TextNotLonger(name: seq<byte>)
    ensures |Join(Meaning(name))| <= |name|
    decreases |name|
  {
    var k := FirstDot(name, 0);
    if 0 < k < |name| {
      TextNotLonger(name[k + 1..]);
      assert Meaning(name)[1..] == Meaning(name[k + 1..]);
    }
  }

  // ---------- reading ----------

  /** The place a two-byte pointer leads to. */
  function Target(hi: byte, lo: byte): nat {
    hi % 64 * 256 + lo
  }

  function Prepend(front: seq<Label>, rest: Option<seq<Label>>): Option<seq<Label>> {
    match rest case None => None case Some(ls) => Some(front + ls)
  }

  lemma {:induction false} PrependNothing(rest: Option<seq<Label>>)
    ensures Prepend([], rest) == rest
  {
    if rest.Some? {
      assert [] + rest.value == rest.value;
    }
  }

  /** The labels read from `pos` on when at most `jumps` pointers are followed. */
  function Read(p: seq<byte>, pos: nat, jumps: nat): Option<seq<Label>>
    decreases jumps, |p| - pos
  {
    if pos >= |p| then None
    else if p[pos] == 0 then Some([])
    else if p[pos] >= 64 then
      if pos + 1 >= |p| || Target(p[pos], p[pos + 1]) >= |p| || jumps == 0 then None
      else Read(p, Target(p[pos], p[pos + 1]), jumps - 1)
    else if pos + 1 + p[pos] > |p| then None
    else Prepend([p[pos + 1..pos + 1 + p[pos]]], Read(p, pos + 1 + p[pos], jumps))
  }

  /** Where a name that starts at `pos` ends: after its zero byte or its first pointer. */
  function EndOf(p: seq<byte>, pos: nat): (e: Option<nat>)
    ensures e.Some? ==> pos < e.value <= |p|
    decreases |p| - pos
  {
    if pos >= |p| then None
    else if p[pos] == 0 then Some(pos + 1)
    else if p[pos] >= 64 then if pos + 1 < |p| then Some(pos + 2) else None
    else EndOf(p, pos + 1 + p[pos])
  }

  /** Reading from `pos` succeeds with text that fits `room` bytes and their terminating zero. */
  ghost predicate Readable(p: seq<byte>, pos: nat, room: nat) {
    Read(p, pos, |p|).Some? && |Join(Read(p, pos, |p|).value)| < room
  }

  /** The text of `done` is at the front of the name, and the rest of it is as it was. */
  ghost predicate TextIs(now: seq<byte>, was: seq<byte>, done: seq<Label>, cp: nat) {
    && |now| == |was| && cp == |Join(done)| <= |now| && (cp == 0 <==> done == []) && now[..cp] == Join(done)
    && forall i :: cp <= i < |now| ==> now[i] == was[i]
  }

  /** Appending one label to the text: the dot before it, if it is not the first, and its bytes. */
  method PutLabel(out: array<byte>, cp: nat, p: seq<byte>, j: nat, n: byte,
                  ghost done: seq<Label>, ghost was: seq<byte>) returns (ok: bool, cp': nat)
    requires n > 0 && TextIs(out[..], was, done, cp)
    modifies out
    ensures ok <==> j + n <= |p| && |Join(done + [p[j..j + n]])| < out.Length
    ensures ok ==> TextIs(out[..], was, done + [p[j..j + n]], cp')
  {
    ok, cp' := false, cp;
    if j + n <= |p| {
      JoinSnoc(done, p[j..j + n]);
    }
    if cp != 0 {
      if cp + 1 >= out.Length {
        return;
      }
      out[cp] := DOT;
      cp' := cp + 1;
    }
    assert cp' < out.Length ==> out[..cp'] == if done == [] then [] else Join(done) + [DOT];
    if cp' + n >= out.Length || j + n > |p| {
      return;
    }
    CopyIn(out, cp', p, j, n);
    ok, cp' := true, cp' + n;
  }

  /** memcpy from the packet to the name */
  method CopyIn(out: array<byte>, cp: nat, p: seq<byte>, j: nat, n: nat)
    requires cp + n <= out.Length && j + n <= |p|
    modifies out
    ensures out[..cp + n] == old(out[..cp]) + p[j..j + n]
    ensures forall i :: cp + n <= i < out.Length ==> out[i] == old(out[i])
  {
    forall i | 0 <= i < n {
      out[cp + i] := p[j + i];
    }
  }

  /** One label more, and whatever follows it, cannot make the text shorter. */
  lemma {:induction false} OneLabel(p: seq<byte>, idx: nat, done: seq<Label>, j: nat, jumps: nat, room: nat)
    requires j < |p| && 0 < p[j] < 64
    requires Read(p, idx, |p|) == Prepend(done, Read(p, j, jumps))
    ensures j + 1 + p[j] > |p| ==> !Readable(p, idx, room)
    ensures j + 1 + p[j] <= |p| ==>
      var l := p[j + 1..j + 1 + p[j]];
      && EndOf(p, j) == EndOf(p, j + 1 + p[j])
      && Read(p, idx, |p|) == Prepend(done + [l], Read(p, j + 1 + p[j], jumps))
      && (|Join(done + [l])| >= room ==> !Readable(p, idx, room))
  {
    if j + 1 + p[j] <= |p| && Read(p, j + 1 + p[j], jumps).Some? {
      var l, rest := p[j + 1..j + 1 + p[j]], Read(p, j + 1 + p[j], jumps).value;
      assert done + ([l] + rest) == done + [l] + rest;
      JoinGrows(done + [l], rest);
    }
  }

  /** What a pointer at `j` makes of the name */
  lemma {:induction false} OnePointer(p: seq<byte>, idx: nat, done: seq<Label>, j: nat, jumps: nat, room: nat)
    requires j < |p| && p[j] >= 64 && Read(p, idx, |p|) == Prepend(done, Read(p, j, jumps))
    ensures j + 1 >= |p| || Target(p[j], p[j + 1]) >= |p| || jumps == 0 ==> !Readable(p, idx, room)
    ensures j + 1 < |p| ==> EndOf(p, j) == Some(j + 2)
    ensures j + 1 < |p| && Target(p[j], p[j + 1]) < |p| && jumps > 0 ==>
      Read(p, idx, |p|) == Prepend(done, Read(p, Target(p[j], p[j + 1]), jumps - 1))
  {
    hide Target;
  }

  /** What the end of the packet, or the end of the name, at `j` makes of it */
  lemma {:induction false} OneEnd(p: seq<byte>, idx: nat, done: seq<Label>, j: nat, jumps: nat, room: nat)
    requires Read(p, idx, |p|) == Prepend(done, Read(p, j, jumps))
    ensures j >= |p| ==> !Readable(p, idx, room)
    ensures j < |p| && p[j] == 0 ==>
      && Read(p, idx, |p|) == Some(done) && EndOf(p, j) == Some(j + 1)
      && (Readable(p, idx, room) <==> |Join(done)| < room)
  {
    assert done + [] == done;
  }

  lemma {:induction false} TextFacts(now: seq<byte>, was: seq<byte>, done: seq<Label>, cp: nat)
    requires TextIs(now, was, done, cp)
    ensures |now| == |was| && cp == |Join(done)| <= |now| && now[..cp] == Join(done)
    ensures forall i :: cp <= i < |now| ==> now[i] == was[i]
  {
  }

  lemma {:induction false} NoText(was: seq<byte>)
    ensures TextIs(was, was, [], 0)
  {
    assert Join([]) == [];
  }

  method NameParse(p: seq<byte>, idx: nat, out: array<byte>) returns (r: int, idx': nat)
    modifies out
    ensures r == if Readable(p, idx, out.Length) then 0 else -1
    ensures r == 0 ==>
      var name := Join(Read(p, idx, |p|).value);
      && out[..|name|] == name && out[|name|] == 0
      && forall i :: |name| < i < out.Length ==> out[i] == old(out[i])
    ensures r == 0 ==> EndOf(p, idx) == Some(idx') && idx < idx' <= |p|
    ensures r == -1 ==> idx' == idx
  {
    hide Target, Join, Read, EndOf, Prepend, Readable, TextIs;
    ghost var was := out[..];
    NoText(was);
    var nameEnd, j, ptrCount, cp := -1, idx, 0, 0;
    ghost var done: seq<Label> := [];
    ghost var jumps := |p|;
    r, idx' := -1, idx;
    PrependNothing(Read(p, idx, |p|));
    while true
      invariant 0 <= ptrCount <= |p| && jumps == |p| - ptrCount && j >= 0 && cp >= 0
      invariant TextIs(out[..], was, done, cp)
      invariant Read(p, idx, |p|) == Prepend(done, Read(p, j, jumps))
      invariant EndOf(p, idx) == if nameEnd < 0 then EndOf(p, j) else Some(nameEnd)
      decreases jumps, |p| - j
    {
      OneEnd(p, idx, done, j, jumps, out.Length);
      if j >= |p| {
        return;
      }
      var n := p[j];
      if n == 0 {
        j := j + 1;
        break;
      }
      if n >= 64 {
        OnePointer(p, idx, done, j, jumps, out.Length);
        if j + 1 >= |p| {
          return;
        }
        if nameEnd < 0 {
          nameEnd := j + 2;
        }
        j := Target(n, p[j + 1]);
        if j >= |p| {
          return;
        }
        ptrCount := ptrCount + 1;
        if ptrCount > |p| {
          return;
        }
        jumps := jumps - 1;
      } else {
        OneLabel(p, idx, done, j, jumps, out.Length);
        var ok;
        ok, cp := PutLabel(out, cp, p, j + 1, n, done, was);
        if !ok {
          return;
        }
        done := done + [p[j + 1..j + 1 + n]];
        j := j + 1 + n;
      }
    }
    TextFacts(out[..], was, done, cp);
    if cp >= out.Length {
      return;
    }
    out[cp] := 0;
    r, idx' := 0, if nameEnd < 0 then j else nameEnd;
  }

  // ---------- what has been written ----------

  /**
    Reading from `pos` gives `labels`, and every pointer on the way leads to before the place where
    reading last started (`lo`, then the target of the pointer just followed).
   */
  ghost predicate At(p: seq<byte>, lo: nat, pos: nat, labels: seq<Label>)
    decreases lo, |p| - pos
  {
    && pos < |p|
    && if p[pos] == 0 then labels == []
       else if p[pos] >= 64 then
         && pos + 1 < |p| && Target(p[pos], p[pos + 1]) < lo
         && At(p, Target(p[pos], p[pos + 1]), Target(p[pos], p[pos + 1]), labels)
       else
         && pos + 1 + p[pos] <= |p| && labels != [] && labels[0] == p[pos + 1..pos + 1 + p[pos]]
         && At(p, lo, pos + 1 + p[pos], labels[1..])
  }

  /** What has been written is what name_parse reads; the limit on jumps is never what stops it. */
  lemma {:induction false} AtReads(p: seq<byte>, lo: nat, pos: nat, labels: seq<Label>, jumps: nat)
    requires At(p, lo, pos, labels) && lo <= jumps
    ensures Read(p, pos, jumps) == Some(labels)
    decreases lo, |p| - pos
  {
    if p[pos] >= 64 {
      AtReads(p, Target(p[pos], p[pos + 1]), Target(p[pos], p[pos + 1]), labels, jumps - 1);
    } else if p[pos] != 0 {
      AtReads(p, lo, pos + 1 + p[pos], labels[1..], jumps);
      assert [labels[0]] + labels[1..] == labels;
    }
  }

  /** Writing more behind it does not change what is read. */
  lemma {:induction false} AtExtends(p: seq<byte>, q: seq<byte>, lo: nat, pos: nat, labels: seq<Label>)
    requires At(p, lo, pos, labels)
    ensures At(p + q, lo, pos, labels)
    decreases lo, |p| - pos
  {
    if p[pos] >= 64 {
      AtExtends(p, q, Target(p[pos], p[pos + 1]), Target(p[pos], p[pos + 1]), labels);
    } else if p[pos] != 0 {
      AtExtends(p, q, lo, pos + 1 + p[pos], labels[1..]);
      assert (p + q)[pos + 1..pos + 1 + p[pos]] == p[pos + 1..pos + 1 + p[pos]];
    }
  }

  lemma {:induction false} AtWeakens(p: seq<byte>, lo: nat, lo': nat, pos: nat, labels: seq<Label>)
    requires At(p, lo, pos, labels) && lo <= lo'
    ensures At(p, lo', pos, labels)
    decreases |p| - pos
  {
    if 0 < p[pos] < 64 {
      AtWeakens(p, lo, lo', pos + 1 + p[pos], labels[1..]);
    }
  }

  datatype Entry = Entry(v: seq<byte>, pos: nat)

  /** Every entry of the compression table stands where reading gives its name. */
  ghost predicate TableOk(entries: seq<Entry>, p: seq<byte>) {
    forall i :: 0 <= i < |entries| ==> At(p, entries[i].pos, entries[i].pos, Meaning(entries[i].v))
  }

  lemma {:induction false} TableExtends(entries: seq<Entry>, p: seq<byte>, q: seq<byte>)
    requires TableOk(entries, p)
    ensures TableOk(entries, p + q)
  {
    forall i | 0 <= i < |entries|
      ensures At(p + q, entries[i].pos, entries[i].pos, Meaning(entries[i].v))
    {
      AtExtends(p, q, entries[i].pos, entries[i].pos, Meaning(entries[i].v));
    }
  }

  function Whole(p: seq<byte>, q: seq<byte>): seq<byte> {
    p + q
  }

  /** Once `rest` has been written at the end of `p`, reading from `pos` gives `name`. */
  ghost predicate Promise(p: seq<byte>, lo: nat, pos: nat, name: seq<byte>, rest: seq<byte>) {
    forall q {:trigger Whole(p, q)} ::
      At(Whole(p, q), lo, |p|, Meaning(rest)) ==> At(Whole(p, q), lo, pos, Meaning(name))
  }

  /** Where the name at `pos` ends depends only on what will be written behind `p`. */
  ghost predicate OpenEnd(p: seq<byte>, pos: nat) {
    forall q {:trigger Whole(p, q)} :: EndOf(Whole(p, q), pos) == EndOf(Whole(p, q), |p|)
  }

  lemma {:induction false} OpenEndStep(p: seq<byte>, pos: nat, rest: seq<byte>, k: nat)
    requires OpenEnd(p, pos) && k <= |rest| && 0 < k < 64
    ensures OpenEnd(p + Piece(rest, k), pos)
  {
    var w := Piece(rest, k);
    forall q: seq<byte>
      ensures EndOf(Whole(p + w, q), pos) == EndOf(Whole(p + w, q), |p + w|)
    {
      var whole := Whole(p, w + q);
      assert Whole(p + w, q) == whole && whole[|p|] == k;
    }
  }

  /** The name being written and the entries recorded on the way, from number `n` on, wait for `rest`. */
  ghost predicate Pending(p: seq<byte>, lo: nat, entries: seq<Entry>, n: nat, name: seq<byte>, rest: seq<byte>) {
    && Promise(p, lo, lo, name, rest)
    && forall i :: n <= i < |entries| ==> Waits(p, lo, entries[i], rest)
  }

  ghost predicate Waits(p: seq<byte>, lo: nat, e: Entry, rest: seq<byte>) {
    lo <= e.pos && |e.v| > |rest| && Promise(p, lo, e.pos, e.v, rest)
  }

  /** The bytes of the first piece of `rest`, `k` bytes long. */
  function Piece(rest: seq<byte>, k: nat): (piece: seq<byte>)
    requires k <= |rest| && k < 64
    ensures |piece| == k + 1
  {
    [k] + rest[..k]
  }

  function AfterPiece(rest: seq<byte>, k: nat): seq<byte>
    requires k <= |rest|
  {
    if k < |rest| then rest[k + 1..] else []
  }

  lemma {:induction false} PromiseStep(p: seq<byte>, lo: nat, pos: nat, name: seq<byte>, rest: seq<byte>, k: nat)
    requires Promise(p, lo, pos, name, rest) && k == FirstDot(rest, 0) < 64
    ensures Promise(p + Piece(rest, k), lo, pos, name, AfterPiece(rest, k))
  {
    hide FirstDot, Target;
    var w, rest' := Piece(rest, k), AfterPiece(rest, k);
    forall q: seq<byte> | At(Whole(p + w, q), lo, |p + w|, Meaning(rest'))
      ensures At(Whole(p + w, q), lo, pos, Meaning(name))
    {
      var whole := Whole(p, w + q);
      assert Whole(p + w, q) == whole;
      assert whole[|p|] == k;
      if k > 0 {
        assert whole[|p| + 1..|p| + 1 + k] == rest[..k];
        assert Meaning(rest)[1..] == Meaning(rest') && Meaning(rest)[0] == rest[..k];
      }
      assert At(whole, lo, |p|, Meaning(rest));
    }
  }

  lemma {:induction false} PendingStep(p: seq<byte>, lo: nat, entries: seq<Entry>, n: nat,
                                       name: seq<byte>, rest: seq<byte>, k: nat, entries': seq<Entry>)
    requires Pending(p, lo, entries, n, name, rest) && k == FirstDot(rest, 0) < 64 && rest != []
    requires entries' == entries || entries' == entries + [Entry(rest, |p|)]
    requires n <= |entries| && lo <= |p|
    ensures Pending(p + Piece(rest, k), lo, entries', n, name, AfterPiece(rest, k))
  {
    PromiseStep(p, lo, lo, name, rest, k);
    forall i | n <= i < |entries'|
      ensures Waits(p + Piece(rest, k), lo, entries'[i], AfterPiece(rest, k))
    {
      if i < |entries| {
        assert Waits(p, lo, entries[i], rest);
      }
      PromiseStep(p, lo, entries'[i].pos, entries'[i].v, rest, k);
    }
  }

  /** With `rest` written, by whatever bytes `q`, everything reads as it should. */
  lemma {:induction false} Fulfil(p: seq<byte>, q: seq<byte>, lo: nat, entries: seq<Entry>, n: nat,
                                  name: seq<byte>, rest: seq<byte>)
    requires Pending(p, lo, entries, n, name, rest) && n <= |entries|
    requires TableOk(entries[..n], p) && At(p + q, lo, |p|, Meaning(rest))
    ensures At(p + q, lo, lo, Meaning(name)) && TableOk(entries, p + q)
  {
    TableExtends(entries[..n], p, q);
    assert Whole(p, q) == p + q;
    forall i | 0 <= i < |entries|
      ensures At(p + q, entries[i].pos, entries[i].pos, Meaning(entries[i].v))
    {
      if i < n {
        assert entries[..n][i] == entries[i];
      } else {
        assert Waits(p, lo, entries[i], rest);
        AtWeakens(p + q, lo, entries[i].pos, entries[i].pos, Meaning(entries[i].v));
      }
    }
  }

  // ---------- how long a name becomes ----------

  /** The place the table has for a name: that of the first entry with it */
  function LookUp(es: seq<Entry>, v: seq<byte>): (at: Option<nat>)
    ensures at.Some? ==> exists i :: 0 <= i < |es| && es[i] == Entry(v, at.value)
    ensures at.None? ==> forall i :: 0 <= i < |es| ==> es[i].v != v
  {
    if es == [] then None else if es[0].v == v then Some(es[0].pos) else LookUp(es[1..], v)
  }

  /** Entries with other names are not found. */
  lemma {:induction false} LookUpOthers(es: seq<Entry>, more: seq<Entry>, v: seq<byte>)
    requires forall i :: 0 <= i < |more| ==> more[i].v != v
    ensures LookUp(es + more, v) == LookUp(es, v)
  {
    if es == [] {
      assert es + more == more;
    } else {
      LookUpOthers(es[1..], more, v);
      assert (es + more)[1..] == es[1..] + more;
    }
  }

  /** The first of the name, the name without its first piece, and so on, that the table holds */
  function KnownTail(name: seq<byte>, es: seq<Entry>): (tail: Option<seq<byte>>)
    ensures tail.Some? ==> |tail.value| <= |name| && LookUp(es, tail.value).Some?
    decreases |name|
  {
    var k := FirstDot(name, 0);
    if LookUp(es, name).Some? then Some(name) else if k == |name| then None else KnownTail(name[k + 1..], es)
  }

  /** Where the first piece of more than 63 bytes begins, among those that are written out */
  function LongPiece(name: seq<byte>, es: seq<Entry>): (at: Option<nat>)
    decreases |name|
  {
    var k := FirstDot(name, 0);
    if LookUp(es, name).Some? then None
    else if k > 63 then Some(0)
    else if k == |name| then None
    else Shift(LongPiece(name[k + 1..], es), k + 1)
  }

  function Shift(at: Option<nat>, n: nat): Option<nat> {
    match at case None => None case Some(i) => Some(i + n)
  }

  /** The last piece is empty. */
  predicate EndsEmpty(name: seq<byte>) {
    name == [] || name[|name| - 1] == DOT
  }

  /** The bytes that a name takes: with a pointer the pieces before it and two, otherwise the pieces and a zero */
  function Taken(name: seq<byte>, es: seq<Entry>): nat {
    match KnownTail(name, es)
    case Some(tail) => |name| - |tail| + 2
    case None => |name| + if EndsEmpty(name) then 1 else 2
  }

  /** The bytes that the code makes sure there is room for: all but the zero behind a last piece */
  function Checked(name: seq<byte>, es: seq<Entry>): nat {
    match KnownTail(name, es)
    case Some(tail) => |name| - |tail| + 2
    case None => |name| + 1
  }

  /** What dnsname_to_labels returns, from the table and the lengths alone */
  function Outcome(name: seq<byte>, es: seq<Entry>, j: nat, bufLen: nat): int {
    if |name| > 255 then -2
    else match LongPiece(name, es)
      case Some(at) => if at == 0 || j + at <= bufLen then -1 else -2
      case None => if j + Checked(name, es) <= bufLen then j + Taken(name, es) else -2
  }

  /**
    The zero is written behind the buffer exactly when a name that nothing is known of, with a last
    piece, fills it.
   */
  lemma {:induction false} ZeroBehindBuffer(name: seq<byte>, es: seq<Entry>, j: nat, bufLen: nat)
    ensures var r := Outcome(name, es, j, bufLen); r == -1 || r == -2 || j < r <= bufLen + 1
    ensures Outcome(name, es, j, bufLen) == bufLen + 1 <==>
      && |name| <= 255 && LongPiece(name, es).None? && KnownTail(name, es).None?
      && !EndsEmpty(name) && j + |name| + 1 == bufLen
  {
    hide KnownTail, LongPiece;
  }

  /** The name `a` in a buffer of two bytes */
  lemma {:induction false} ZeroBehindTwoBytes()
    ensures Outcome([97], [], 0, 2) == 3
  {
    assert FirstDot([97], 0) == 1;
  }

  /** Short pieces are no reason to refuse a name. */
  lemma {:induction false} ShortPieces(name: seq<byte>, es: seq<Entry>)
    requires ShortLabels(name)
    ensures LongPiece(name, es).None?
    decreases |name|
  {
    var k := FirstDot(name, 0);
    if k < |name| {
      ShortPieces(name[k + 1..], es);
    }
  }

  /** The pieces of a name fit with two bytes more than its text. */
  lemma {:induction false} RoomIsEnough(name: seq<byte>, es: seq<Entry>, j: nat, bufLen: nat)
    requires |name| <= 255 && ShortLabels(name) && j + |name| + 2 <= bufLen
    ensures j < Outcome(name, es, j, bufLen) <= j + |name| + 2
  {
    ShortPieces(name, es);
    hide KnownTail;
  }

  /** evdns_request_len */
  const REQUEST_EXTRA := 96 + 2 + 4

  /** A request has room for its header, any name whose pieces are short, and the four bytes behind it. */
  lemma {:induction false} RequestFits(name: seq<byte>)
    requires |name| <= 255
    ensures var r := Outcome(name, [], 12, |name| + REQUEST_EXTRA);
            if ShortLabels(name) then 12 < r && r + 4 <= |name| + REQUEST_EXTRA else r == -1
  {
    if ShortLabels(name) {
      RoomIsEnough(name, [], 12, |name| + REQUEST_EXTRA);
    } else {
      LongIsFound(name);
    }
  }

  lemma {:induction false} LongIsFound(name: seq<byte>)
    requires !ShortLabels(name)
    ensures LongPiece(name, []).Some? && LongPiece(name, []).value < |name|
    decreases |name|
  {
    var k := FirstDot(name, 0);
    if k <= 63 {
      LongIsFound(name[k + 1..]);
    }
  }

  // ---------- what the table holds afterwards ----------

  /** The entries for a name that is written at `j`: it and what follows its dots, up to what the table holds already */
  function Rows(name: seq<byte>, es: seq<Entry>, j: nat): seq<Entry>
    decreases |name|
  {
    var k := FirstDot(name, 0);
    if LookUp(es, name).Some? then []
    else [Entry(name, j)] + if k == |name| then [] else Rows(name[k + 1..], es, j + k + 1)
  }

  /** As much of it as the table has room for */
  function Capped(es: seq<Entry>): (r: seq<Entry>)
    ensures |r| <= MAX_LABELS && r <= es && (|es| <= MAX_LABELS ==> r == es)
  {
    if |es| <= MAX_LABELS then es else es[..MAX_LABELS]
  }

  lemma {:induction false} LookUpSkips(es: seq<Entry>, e: Entry, more: seq<Entry>, v: seq<byte>)
    requires e.v != v
    ensures LookUp(es + ([e] + more), v) == LookUp(es + more, v)
  {
    if es == [] {
      assert es + ([e] + more) == [e] + more && ([e] + more)[1..] == more && es + more == more;
    } else {
      LookUpSkips(es[1..], e, more, v);
      assert (es + ([e] + more))[1..] == es[1..] + ([e] + more) && (es + more)[1..] == es[1..] + more;
    }
  }

  /** What is not in the first part is looked up in the second. */
  lemma {:induction false} LookUpBehind(es: seq<Entry>, more: seq<Entry>, v: seq<byte>)
    ensures LookUp(es + more, v) == if LookUp(es, v).Some? then LookUp(es, v) else LookUp(more, v)
  {
    if es == [] {
      assert es + more == more;
    } else {
      LookUpBehind(es[1..], more, v);
      assert (es + more)[1..] == es[1..] + more;
    }
  }

  /** The name itself is found where it was written, if it was not there before. */
  lemma {:induction false} RowsFirst(name: seq<byte>, es: seq<Entry>, j: nat)
    requires LookUp(es, name).None?
    ensures LookUp(es + Rows(name, es, j), name) == Some(j)
  {
    var k := FirstDot(name, 0);
    var more := if k == |name| then [] else Rows(name[k + 1..], es, j + k + 1);
    assert Rows(name, es, j) == [Entry(name, j)] + more;
    hide LookUp, Rows;
    LookUpBehind(es, [Entry(name, j)] + more, name);
    LookUpFirst(Entry(name, j), more);
  }

  /** What is found in the rows for the rest of the name is found in those for all of it. */
  lemma {:induction false} RowsRest(name: seq<byte>, es: seq<Entry>, j: nat, v: seq<byte>)
    requires LookUp(es, name).None? && FirstDot(name, 0) < |name| && |v| < |name|
    ensures var k := FirstDot(name, 0);
            LookUp(es + Rows(name, es, j), v) == LookUp(es + Rows(name[k + 1..], es, j + k + 1), v)
  {
    var k := FirstDot(name, 0);
    var more := Rows(name[k + 1..], es, j + k + 1);
    assert Rows(name, es, j) == [Entry(name, j)] + more;
    hide LookUp, Rows;
    LookUpSkips(es, Entry(name, j), more, v);
  }

  /**
    Whatever follows a dot of the name, or the name itself, if it was written out, is found in the
    table at the place where it was written.
   */
  lemma {:induction false} RowsFound(name: seq<byte>, es: seq<Entry>, j: nat, o: nat)
    requires o == 0 || (o <= |name| && name[o - 1] == DOT)
    requires KnownTail(name, es).None? || |KnownTail(name, es).value| < |name| - o
    ensures LookUp(es + Rows(name, es, j), name[o..]) == Some(j + o)
    decreases |name|
  {
    hide *;
    NotKnown(name, es);
    if o == 0 {
      RowsFirst(name, es, j);
      assert name[o..] == name;
    } else {
      var k := FirstDot(name, 0);
      assert name[o..] == name[k + 1..][o - k - 1..];
      RowsFound(name[k + 1..], es, j + k + 1, o - k - 1);
      RowsRest(name, es, j, name[o..]);
    }
  }

  lemma {:induction false} NotKnown(name: seq<byte>, es: seq<Entry>)
    requires KnownTail(name, es).None? || |KnownTail(name, es).value| < |name|
    ensures LookUp(es, name).None?
    ensures var k := FirstDot(name, 0); k < |name| ==> KnownTail(name, es) == KnownTail(name[k + 1..], es)
  {
    hide LookUp;
  }

  lemma {:induction false} LookUpFirst(e: Entry, more: seq<Entry>)
    ensures LookUp([e] + more, e.v) == Some(e.pos)
  {
  }

  /** While the table is not full, a name that was written once takes the two bytes of a pointer from then on. */
  lemma {:induction false} SecondTime(name: seq<byte>, es: seq<Entry>, j: nat, i: nat, bufLen: nat)
    requires |es| < MAX_LABELS && |name| <= 255
    ensures var es' := Recorded(name, es, j);
            && LookUp(es', name) == (if LookUp(es, name).Some? then LookUp(es, name) else Some(j))
            && Taken(name, es') == 2 && Outcome(name, es', i, bufLen) == if i + 2 <= bufLen then i + 2 else -2
  {
    var rows := Rows(name, es, j);
    var es' := Capped(es + rows);
    assert es' == es + es'[|es|..] && es'[|es|..] <= rows;
    LookUpBehind(es, es'[|es|..], name);
    if LookUp(es, name).None? {
      assert rows[0] == Entry(name, j) && es'[|es|..][0] == rows[0];
    }
  }

  /** The name `a` written twice from the start of a buffer: the second time it is a pointer to the first. */
  lemma {:induction false} TwiceTheSame()
    ensures Outcome([97], [], 0, 100) == 3 && Rows([97], [], 0) == [Entry([97], 0)]
    ensures Outcome([97], [Entry([97], 0)], 3, 100) == 5 && PointerBytes(0) == [0xc0, 0]
  {
    assert FirstDot([97], 0) == 1;
  }

  /** The table after a name was written */
  function Recorded(name: seq<byte>, es: seq<Entry>, j: nat): (r: seq<Entry>)
    ensures |es| <= MAX_LABELS ==> es <= r && |r| <= MAX_LABELS
  {
    Capped(es + Rows(name, es, j))
  }

  /** What is recorded so far and what is still to be recorded are the whole. */
  ghost predicate Recording(es0: seq<Entry>, es: seq<Entry>, name: seq<byte>, rest: seq<byte>, j0: nat, j: nat) {
    |es| <= MAX_LABELS && es0 <= es && Capped(es + Rows(rest, es0, j)) == Capped(es0 + Rows(name, es0, j0))
  }

  lemma {:induction false} RecordingStep(
      es0: seq<Entry>, es: seq<Entry>, name: seq<byte>, rest: seq<byte>, j0: nat, j: nat, es': seq<Entry>)
    requires Recording(es0, es, name, rest, j0, j) && LookUp(es0, rest).None?
    requires es' == if |es| == MAX_LABELS then es else es + [Entry(rest, j)]
    ensures es0 <= es' <= Recorded(name, es0, j0)
    ensures FirstDot(rest, 0) == |rest| ==> es' == Recorded(name, es0, j0)
    ensures var k := FirstDot(rest, 0);
            k < |rest| ==> Recording(es0, es', name, rest[k + 1..], j0, j + k + 1)
  {
    hide Rows, LookUp, FirstDot, Capped;
    RowsStep(rest, es0, j);
    TableGrows(es0, es, es', Entry(rest, j), RowsAfter(rest, es0, j));
  }

  lemma {:induction false} TableGrows(es0: seq<Entry>, es: seq<Entry>, es': seq<Entry>, e: Entry, more: seq<Entry>)
    requires |es| <= MAX_LABELS && es0 <= es && es' == if |es| == MAX_LABELS then es else es + [e]
    ensures var all := Capped(es + ([e] + more));
            |es'| <= MAX_LABELS && es0 <= es' <= all && Capped(es' + more) == all && (more == [] ==> es' == all)
  {
    CappedStep(es, e, more);
    PrefixTrans(es0, es, es');
    assert es' + [] == es';
  }

  /** The rows from the next piece on */
  function RowsAfter(rest: seq<byte>, es: seq<Entry>, j: nat): seq<Entry> {
    var k := FirstDot(rest, 0);
    if k == |rest| then [] else Rows(rest[k + 1..], es, j + k + 1)
  }

  lemma {:induction false} RowsStep(rest: seq<byte>, es: seq<Entry>, j: nat)
    requires LookUp(es, rest).None?
    ensures Rows(rest, es, j) == [Entry(rest, j)] + RowsAfter(rest, es, j)
  {
  }

  lemma {:induction false} PrefixTrans(a: seq<Entry>, b: seq<Entry>, c: seq<Entry>)
    requires a <= b <= c
    ensures a <= c
  {
    assert b == c[..|b|];
  }

  lemma {:induction false} CappedStep(es: seq<Entry>, e: Entry, more: seq<Entry>)
    requires |es| <= MAX_LABELS
    ensures var es' := if |es| == MAX_LABELS then es else es + [e];
            es <= es' <= Capped(es + ([e] + more)) == Capped(es' + more)
  {
    assert es + ([e] + more) == es + [e] + more;
    if |es| == MAX_LABELS {
      assert Capped(es + ([e] + more)) == es && Capped(es + more) == es;
    } else {
      assert es + [e] <= es + [e] + more;
    }
  }

  lemma {:induction false} RecordingEnds(
      es0: seq<Entry>, es: seq<Entry>, name: seq<byte>, rest: seq<byte>, j0: nat, j: nat)
    requires Recording(es0, es, name, rest, j0, j)
    ensures es0 <= es <= Capped(es0 + Rows(name, es0, j0))
    ensures LookUp(es0, rest).Some? ==> es == Capped(es0 + Rows(name, es0, j0))
  {
    hide LookUp;
    assert es <= es + Rows(rest, es0, j);
    assert LookUp(es0, rest).Some? ==> es + Rows(rest, es0, j) == es;
  }

  /** How far the writing of a name has come when `rest` is left */
  ghost predicate Progress(name: seq<byte>, rest: seq<byte>, es: seq<Entry>) {
    && |rest| <= |name| && KnownTail(name, es) == KnownTail(rest, es) && EndsEmpty(name) == EndsEmpty(rest)
    && LongPiece(name, es) == Shift(LongPiece(rest, es), |name| - |rest|)
  }

  lemma {:induction false} ProgressStart(name: seq<byte>, es: seq<Entry>)
    ensures Progress(name, name, es)
  {
    hide KnownTail, LongPiece;
  }

  lemma {:induction false} ProgressStep(name: seq<byte>, rest: seq<byte>, es: seq<Entry>, k: nat)
    requires Progress(name, rest, es) && LookUp(es, rest).None? && k == FirstDot(rest, 0) <= 63 && k < |rest|
    ensures Progress(name, rest[k + 1..], es)
  {
  }

  /** The rest is in the table. */
  lemma {:induction false} OutcomePointer(name: seq<byte>, rest: seq<byte>, es: seq<Entry>, j: nat, bufLen: nat)
    requires Progress(name, rest, es) && LookUp(es, rest).Some? && |name| <= 255
    ensures var i := j + |name| - |rest|;
            Outcome(name, es, j, bufLen) == if i + 2 <= bufLen then i + 2 else -2
    ensures KnownTail(name, es) == Some(rest)
  {
  }

  /** The first piece of the rest is too long. */
  lemma {:induction false} OutcomeLong(name: seq<byte>, rest: seq<byte>, es: seq<Entry>, j: nat, bufLen: nat)
    requires Progress(name, rest, es) && LookUp(es, rest).None? && FirstDot(rest, 0) > 63 && |name| <= 255
    requires |rest| == |name| || j + |name| - |rest| <= bufLen
    ensures Outcome(name, es, j, bufLen) == -1
  {
  }

  /** There is no room for the first piece of the rest. */
  lemma {:induction false} OutcomeFull(name: seq<byte>, rest: seq<byte>, es: seq<Entry>, j: nat, bufLen: nat)
    requires Progress(name, rest, es) && LookUp(es, rest).None? && FirstDot(rest, 0) <= 63
    requires j + |name| - |rest| + FirstDot(rest, 0) + 1 > bufLen
    ensures Outcome(name, es, j, bufLen) == -2
  {
    var k := FirstDot(rest, 0);
    assert k < |rest| ==> KnownTail(rest, es) == KnownTail(rest[k + 1..], es);
  }

  /** The rest is the last piece, and there is room for it. */
  lemma {:induction false} OutcomeLast(name: seq<byte>, rest: seq<byte>, es: seq<Entry>, j: nat, bufLen: nat)
    requires Progress(name, rest, es) && LookUp(es, rest).None? && FirstDot(rest, 0) == |rest| <= 63 && |name| <= 255
    requires j + |name| + 1 <= bufLen
    ensures Outcome(name, es, j, bufLen) == j + |name| + (if rest == [] then 1 else 2)
    ensures KnownTail(name, es).None?
  {
  }

  // ---------- writing ----------

  /** struct dnslabel_table */
  class LabelTable {
    var labels: seq<Entry>

    constructor ()
      ensures labels == []
    {
      labels := [];
    }

    /** dnslabel_table_get_pos */
    method GetPos(v: seq<byte>) returns (pos: int)
      ensures pos == match LookUp(labels, v) case Some(at) => at case None => -1
    {
      assert labels[0..] == labels;
      for i := 0 to |labels|
        invariant LookUp(labels, v) == LookUp(labels[i..], v)
      {
        assert labels[i..][0] == labels[i] && labels[i..][1..] == labels[i + 1..];
        if v == labels[i].v {
          return labels[i].pos;
        }
      }
      pos := -1;
    }

    /** dnslabel_table_add: a full table forgets. */
    method Add(v: seq<byte>, pos: nat)
      requires |labels| <= MAX_LABELS
      modifies this
      ensures |labels| <= MAX_LABELS
      ensures labels == if |old(labels)| == MAX_LABELS then old(labels) else old(labels) + [Entry(v, pos)]
    {
      if |labels| < MAX_LABELS {
        labels := labels + [Entry(v, pos)];
      }
    }
  }

  /** The two bytes of a pointer, written as sixteen bits with the two highest set. */
  function PointerBytes(ref: nat): seq<byte> {
    [0xc0 + ref % 0x4000 / 0x100, ref % 0x100]
  }

  /** A pointer leads where it should exactly when the place is within fourteen bits. */
  lemma {:induction false} PointerRoundTrip(ref: nat)
    ensures Target(PointerBytes(ref)[0], PointerBytes(ref)[1]) == ref <==> ref < 0x4000
  {
    assert ref % 0x4000 / 0x100 < 0x40 && ref % 0x4000 % 0x100 == ref % 0x100;
  }

  /** No label is longer than 63 bytes. */
  ghost predicate ShortLabels(name: seq<byte>)
    decreases |name|
  {
    var k := FirstDot(name, 0);
    k <= 63 && (k < |name| ==> ShortLabels(name[k + 1..]))
  }

  /** memcpy to the packet */
  method PutBytes(buf: array<byte>, j: nat, bytes: seq<byte>)
    requires j + |bytes| <= buf.Length
    modifies buf
    ensures buf[..j + |bytes|] == old(buf[..j]) + bytes
  {
    forall i | 0 <= i < |bytes| {
      buf[j + i] := bytes[i];
    }
  }

  ghost predicate IsCString(s: seq<byte>) {
    forall i :: 0 <= i < |s| ==> s[i] != 0
  }

  function Labels(table: LabelTable?): seq<Entry>
    reads table
  {
    if table == null then [] else table.labels
  }

  /** The bytes of the last piece and of the zero that ends the name, unless the piece is itself the zero. */
  function LastBytes(rest: seq<byte>): seq<byte>
    requires |rest| < 64
  {
    Piece(rest, |rest|) + if rest == [] then [] else [0]
  }

  /** The last piece fulfils all promises. */
  lemma {:induction false} LastPiece(p: seq<byte>, lo: nat, es: seq<Entry>, n: nat,
                                     name: seq<byte>, rest: seq<byte>, es': seq<Entry>)
    requires Pending(p, lo, es, n, name, rest) && n <= |es| && lo <= |p| && FirstDot(rest, 0) == |rest| < 64
    requires TableOk(es[..n], p)
    requires es' == es || es' == es + [Entry(rest, |p|)]
    ensures var p' := p + LastBytes(rest); At(p', lo, lo, Meaning(name)) && TableOk(es', p')
  {
    if rest == [] {
      assert LastBytes(rest) == [0];
      Fulfil(p, [0], lo, es, n, name, rest);
    } else {
      var p1 := p + Piece(rest, |rest|);
      PendingStep(p, lo, es, n, name, rest, |rest|, es');
      assert es'[..n] == es[..n];
      TableExtends(es[..n], p, Piece(rest, |rest|));
      Fulfil(p1, [0], lo, es', n, name, []);
      assert p1 + [0] == p + LastBytes(rest);
    }
  }

  /** A pointer to an entry of the table fulfils all promises. */
  lemma {:induction false} PointerPiece(p: seq<byte>, lo: nat, es: seq<Entry>, n: nat,
                                        name: seq<byte>, rest: seq<byte>, i: nat)
    requires Pending(p, lo, es, n, name, rest) && n <= |es| && lo <= |p|
    requires TableOk(es[..n], p) && i < n && es[i].v == rest && es[i].pos < lo && es[i].pos < 0x4000
    ensures var p' := p + PointerBytes(es[i].pos); At(p', lo, lo, Meaning(name)) && TableOk(es, p')
  {
    var q := PointerBytes(es[i].pos);
    PointerRoundTrip(es[i].pos);
    assert es[..n][i] == es[i];
    AtExtends(p, q, es[i].pos, es[i].pos, Meaning(rest));
    Fulfil(p, q, lo, es, n, name, rest);
  }

  /**
    The state of dnsname_to_labels before each piece of the name: `rest` is still to be written
    behind `p`, and the entries from number |es0| on were recorded on the way. Only if it is
    `sound` to go by the table is anything promised of what reading gives.
   */
  ghost predicate Writing(p0: seq<byte>, p: seq<byte>, es0: seq<Entry>, es: seq<Entry>,
                          name: seq<byte>, rest: seq<byte>, sound: bool) {
    && |p0| <= |p| == |p0| + |name| - |rest| && p[..|p0|] == p0
    && |es0| <= |es| <= MAX_LABELS && es[..|es0|] == es0
    && IsCString(rest)
    && (forall i :: |es0| <= i < |es| ==> |es[i].v| > |rest|)
    && (Proper(name) ==> Proper(rest) && OpenEnd(p, |p0|))
    && (sound ==> TableOk(es0, p0) && Pending(p, |p0|, es, |es0|, name, rest))
  }

  ghost predicate Written(p0: seq<byte>, p: seq<byte>, es: seq<Entry>, name: seq<byte>, sound: bool) {
    && |p0| < |p| <= |p0| + |name| + 2 && p[..|p0|] == p0 && |es| <= MAX_LABELS
    && (Proper(name) ==> EndOf(p, |p0|) == Some(|p|))
    && (sound ==> At(p, |p0|, |p0|, Meaning(name)) && TableOk(es, p))
  }

  lemma {:induction false} WritingStep(p0: seq<byte>, p: seq<byte>, es0: seq<Entry>, es: seq<Entry>,
                                       name: seq<byte>, rest: seq<byte>, sound: bool, k: nat, es': seq<Entry>)
    requires Writing(p0, p, es0, es, name, rest, sound) && k == FirstDot(rest, 0) < 64 && k < |rest|
    requires (es' == es || es' == es + [Entry(rest, |p|)]) && |es'| <= MAX_LABELS
    ensures Writing(p0, p + Piece(rest, k), es0, es', name, AfterPiece(rest, k), sound)
  {
    if sound {
      PendingStep(p, |p0|, es, |es0|, name, rest, k, es');
    }
    if Proper(name) {
      OpenEndStep(p, |p0|, rest, k);
    }
    assert (p + Piece(rest, k))[..|p0|] == p0;
    assert es'[..|es0|] == es0;
  }

  lemma {:induction false} OldTable(p0: seq<byte>, p: seq<byte>, es0: seq<Entry>)
    requires |p0| <= |p| && p[..|p0|] == p0 && TableOk(es0, p0)
    ensures TableOk(es0, p)
  {
    TableExtends(es0, p0, p[|p0|..]);
    assert p0 + p[|p0|..] == p;
  }

  lemma {:induction false} WritingLast(p0: seq<byte>, p: seq<byte>, es0: seq<Entry>, es: seq<Entry>,
                                       name: seq<byte>, rest: seq<byte>, sound: bool, es': seq<Entry>)
    requires Writing(p0, p, es0, es, name, rest, sound) && FirstDot(rest, 0) == |rest| < 64
    requires (es' == es || es' == es + [Entry(rest, |p|)]) && |es'| <= MAX_LABELS
    ensures Written(p0, p + LastBytes(rest), es', name, sound)
  {
    if sound {
      OldTable(p0, p, es0);
      LastPiece(p, |p0|, es, |es0|, name, rest, es');
    }
    var whole := Whole(p, LastBytes(rest));
    assert whole[|p|] == |rest| && (rest != [] ==> whole[|p| + 1 + |rest|] == 0);
    assert rest != [] ==> EndOf(whole, |p| + 1 + |rest|) == Some(|whole|);
    assert (p + LastBytes(rest))[..|p0|] == p0;
  }

  /** The table is never found to hold an entry recorded on the way: they are all longer. */
  lemma {:induction false} WritingPointer(p0: seq<byte>, p: seq<byte>, es0: seq<Entry>, es: seq<Entry>,
                                          name: seq<byte>, rest: seq<byte>, sound: bool, i: nat)
    requires Writing(p0, p, es0, es, name, rest, sound)
    requires i < |es| && es[i].v == rest && (sound ==> es[i].pos < 0x4000)
    ensures Written(p0, p + PointerBytes(es[i].pos), es, name, sound)
  {
    assert i < |es0| && es0[i] == es[..|es0|][i] == es[i];
    if sound {
      OldTable(p0, p, es0);
      PointerPiece(p, |p0|, es, |es0|, name, rest, i);
    }
    var whole := Whole(p, PointerBytes(es[i].pos));
    assert whole[|p|] >= 64;
    assert (p + PointerBytes(es[i].pos))[..|p0|] == p0;
  }

  /** The last piece of the name, and the zero that is written without a look at the length of the buffer. */
  method PutLast(buf: array<byte>, j: nat, rest: seq<byte>) returns (r: nat)
    requires |rest| < 64 && j + |LastBytes(rest)| <= buf.Length && IsCString(rest)
    modifies buf
    ensures r == j + |LastBytes(rest)| && buf[..r] == old(buf[..j]) + LastBytes(rest)
  {
    PutBytes(buf, j, Piece(rest, |rest|));
    r := j + 1 + |rest|;
    assert buf[r - 1] == Piece(rest, |rest|)[|rest|] by {
      assert buf[r - 1] == buf[..r][r - 1];
    }
    if buf[r - 1] != 0 {
      PutBytes(buf, r, [0]);
      r := r + 1;
    }
  }

  /**
    Going by the table is sound: its entries are right, and the one that is pointed to, if any, is
    within fourteen bits.
   */
  ghost predicate Sound(es: seq<Entry>, p: seq<byte>, name: seq<byte>) {
    && TableOk(es, p)
    && match KnownTail(name, es)
       case Some(tail) => LookUp(es, tail).Some? && LookUp(es, tail).value < 0x4000
       case None => true
  }

  /** The entries recorded on the way are longer than the rest and not found. */
  lemma {:induction false} LookUpOld(p0: seq<byte>, p: seq<byte>, es0: seq<Entry>, es: seq<Entry>,
                                     name: seq<byte>, rest: seq<byte>, sound: bool)
    requires Writing(p0, p, es0, es, name, rest, sound)
    ensures LookUp(es, rest) == LookUp(es0, rest)
  {
    assert es == es0 + es[|es0|..];
    LookUpOthers(es0, es[|es0|..], rest);
  }

  /** If the rest of the name is in the table, a pointer to it; otherwise -1. */
  method PutPointer(buf: array<byte>, bufLen: nat, j: nat, rest: seq<byte>, table: LabelTable?,
                    ghost p0: seq<byte>, ghost es0: seq<Entry>, ghost name: seq<byte>, ghost sound: bool)
    returns (r: int)
    requires |p0| <= j <= buf.Length && bufLen <= buf.Length
    requires Writing(p0, buf[..j], es0, Labels(table), name, rest, sound)
    requires sound ==> match LookUp(es0, rest) case Some(at) => at < 0x4000 case None => true
    modifies buf
    ensures r == -1 ==> buf[..j] == old(buf[..j])
    ensures buf[..|p0|] == p0
    ensures r == if LookUp(es0, rest).None? then -1 else if j + 2 <= bufLen then j + 2 else -2
    ensures r >= 0 ==> Written(p0, buf[..r], Labels(table), name, sound)
  {
    hide At, TableOk, Written, LookUp;
    LookUpOld(p0, buf[..j], es0, Labels(table), name, rest, sound);
    assert buf[..|p0|] == buf[..j][..|p0|];
    if table == null {
      assert LookUp([], rest).None? by {
        LookUpNothing(rest);
      }
      return -1;
    }
    var ref := table.GetPos(rest);
    if ref < 0 {
      return -1;
    }
    if j + 2 > bufLen {
      return -2;
    }
    ghost var i :| 0 <= i < |table.labels| && table.labels[i] == Entry(rest, ref);
    WritingPointer(p0, buf[..j], es0, Labels(table), name, rest, sound, i);
    PutBytes(buf, j, PointerBytes(ref));
    r := j + 2;
    assert buf[..|p0|] == buf[..r][..|p0|];
  }

  lemma {:induction false} LookUpNothing(v: seq<byte>)
    ensures LookUp([], v).None?
  {
  }

  /**
    dnsname_to_labels: what it returns, and what it writes. The zero that ends the name is written
    without a look at `bufLen`, so `buf` must have room for it. If going by the table is sound, the
    name and all entries of the table read back; any name does, cut before its first empty piece.
   */
  method DnsnameToLabels(buf: array<byte>, bufLen: nat, j0: nat, name: seq<byte>, table: LabelTable?) returns (r: int)
    requires j0 <= buf.Length && bufLen <= buf.Length && IsCString(name) && |Labels(table)| <= MAX_LABELS
    requires Outcome(name, Labels(table), j0, bufLen) <= buf.Length
    modifies buf, table
    ensures |Labels(table)| <= MAX_LABELS && buf[..j0] == old(buf[..j0])
    ensures r == Outcome(name, old(Labels(table)), j0, bufLen)
    ensures table != null ==> old(Labels(table)) <= table.labels <= Recorded(name, old(Labels(table)), j0)
    ensures table != null && r >= 0 ==> table.labels == Recorded(name, old(Labels(table)), j0)
    ensures r >= 0 ==>
      Written(old(buf[..j0]), buf[..r], Labels(table), name, Sound(old(Labels(table)), old(buf[..j0]), name))
  {
    hide At, TableOk, Piece, LookUp, KnownTail, LongPiece, Outcome, Progress, FirstDot;
    hide Written, LastBytes, OpenEnd, Pending, Proper, Rows, Capped, Recording;
    if |name| > 255 {
      OutcomeTooLong(name, Labels(table), j0, bufLen);
      return -2;
    }
    ghost var p0, es0, sound := buf[..j0], Labels(table), Sound(Labels(table), buf[..j0], name);
    ghost var p, es := p0, es0;
    var rest, j := name, j0;
    ProgressStart(name, es0);
    WritingStart(p0, es0, name, sound);
    RecordingStart(es0, name, j0);
    while true
      invariant j0 <= j <= buf.Length && (j == j0 || j <= bufLen) && j == j0 + |name| - |rest|
      invariant buf[..j] == p && Labels(table) == es
      invariant Writing(p0, p, es0, es, name, rest, sound) && Progress(name, rest, es0)
      invariant table != null ==> Recording(es0, es, name, rest, j0, j)
      decreases |rest|
    {
      SoundHere(es0, p0, name, rest);
      if table != null {
        RecordingEnds(es0, es, name, rest, j0, j);
      }
      r := PutPointer(buf, bufLen, j, rest, table, p0, es0, name, sound);
      if r != -1 {
        OutcomePointer(name, rest, es0, j0, bufLen);
        return;
      }
      var k := FirstDot(rest, 0);
      if k > 63 {
        OutcomeLong(name, rest, es0, j0, bufLen);
        return -1;
      }
      if j + k + 1 > bufLen {
        OutcomeFull(name, rest, es0, j0, bufLen);
        return -2;
      }
      if table != null {
        table.Add(rest, j);
        RecordingStep(es0, es, name, rest, j0, j, table.labels);
      }
      if k == |rest| {
        WritingLast(p0, p, es0, es, name, rest, sound, Labels(table));
        OutcomeLast(name, rest, es0, j0, bufLen);
        LastSize(rest);
        r := PutLast(buf, j, rest);
        return;
      }
      WritingStep(p0, p, es0, es, name, rest, sound, k, Labels(table));
      ProgressStep(name, rest, es0, k);
      PutBytes(buf, j, Piece(rest, k));
      p, es := p + Piece(rest, k), Labels(table);
      j := j + 1 + k;
      rest := rest[k + 1..];
    }
  }

  lemma {:induction false} RecordingStart(es: seq<Entry>, name: seq<byte>, j: nat)
    requires |es| <= MAX_LABELS
    ensures Recording(es, es, name, name, j, j) && es <= Recorded(name, es, j)
  {
  }

  lemma {:induction false} OutcomeTooLong(name: seq<byte>, es: seq<Entry>, j: nat, bufLen: nat)
    requires |name| > 255
    ensures Outcome(name, es, j, bufLen) == -2
  {
  }

  lemma {:induction false} LastSize(rest: seq<byte>)
    requires |rest| < 64
    ensures |LastBytes(rest)| == |rest| + if rest == [] then 1 else 2
  {
  }

  lemma {:induction false} WritingStart(p0: seq<byte>, es0: seq<Entry>, name: seq<byte>, sound: bool)
    requires IsCString(name) && |es0| <= MAX_LABELS && (sound ==> TableOk(es0, p0))
    ensures Writing(p0, p0, es0, es0, name, name, sound)
  {
    hide At;
  }

  /** If the rest is in the table it is what will be pointed to. */
  lemma {:induction false} SoundHere(es: seq<Entry>, p: seq<byte>, name: seq<byte>, rest: seq<byte>)
    requires Progress(name, rest, es)
    ensures Sound(es, p, name) ==> match LookUp(es, rest) case Some(at) => at < 0x4000 case None => true
  {
  }

  // ---------- many names through one table ----------

  /** A name, and the bytes of the message that come before it. */
  datatype Item = Item(gap: seq<byte>, name: seq<byte>)

  /** name_parse at `off` gives the name. */
  ghost predicate ReadsBack(p: seq<byte>, off: nat, name: seq<byte>) {
    Read(p, off, |p|) == Some(Meaning(name))
  }

  /** What was written from `off` to `end`. */
  datatype Span = Span(off: nat, end: nat)

  ghost predicate NameOk(p: seq<byte>, s: Span, name: seq<byte>) {
    && At(p, s.off, s.off, Meaning(name))
    && (Proper(name) ==> EndOf(p, s.off) == Some(s.end))
  }

  ghost predicate NamesOk(p: seq<byte>, spans: seq<Span>, items: seq<Item>) {
    && |spans| <= |items|
    && forall i :: 0 <= i < |spans| ==> NameOk(p, spans[i], items[i].name)
  }

  lemma {:induction false} EndOfExtends(p: seq<byte>, q: seq<byte>, pos: nat)
    requires EndOf(p, pos).Some?
    ensures EndOf(p + q, pos) == EndOf(p, pos)
    decreases |p| - pos
  {
    if 0 < p[pos] < 64 {
      EndOfExtends(p, q, pos + 1 + p[pos]);
    }
  }

  lemma {:induction false} NamesExtend(p: seq<byte>, q: seq<byte>, spans: seq<Span>, items: seq<Item>)
    requires NamesOk(p, spans, items)
    ensures NamesOk(p + q, spans, items)
  {
    forall i | 0 <= i < |spans|
      ensures NameOk(p + q, spans[i], items[i].name)
    {
      assert NameOk(p, spans[i], items[i].name);
      AtExtends(p, q, spans[i].off, spans[i].off, Meaning(items[i].name));
      if Proper(items[i].name) {
        EndOfExtends(p, q, spans[i].off);
      }
    }
  }

  /** The name just written joins those written before. */
  lemma {:induction false} OneMoreName(p0: seq<byte>, p: seq<byte>, es: seq<Entry>, spans: seq<Span>, items: seq<Item>)
    requires NamesOk(p0, spans, items) && |spans| < |items| && Written(p0, p, es, items[|spans|].name, true)
    ensures NamesOk(p, spans + [Span(|p0|, |p|)], items)
  {
    NamesExtend(p0, p[|p0|..], spans, items);
    assert p0 + p[|p0|..] == p;
  }

  function EndBefore(spans: seq<Span>, i: nat): nat
    requires i <= |spans|
  {
    if i == 0 then 0 else spans[i - 1].end
  }

  /** Each name stands behind its gap, which stands behind the name before it. */
  ghost predicate Consecutive(spans: seq<Span>, items: seq<Item>, r: int) {
    && |spans| <= |items|
    && (forall i :: 0 <= i < |spans| ==> spans[i].off == EndBefore(spans, i) + |items[i].gap|)
    && r == EndBefore(spans, |spans|)
  }

  ghost predicate Message(p: seq<byte>, spans: seq<Span>, items: seq<Item>, entries: seq<Entry>) {
    NamesOk(p, spans, items) && TableOk(entries, p) && |entries| <= MAX_LABELS
  }

  /** Where the message ends after one more item, or why there is no room for it */
  function AfterItem(item: Item, es: seq<Entry>, j: nat, bufLen: nat): int {
    var off := j + |item.gap|;
    if off > bufLen then -2 else Outcome(item.name, es, off, bufLen)
  }

  /** The same for all items from the i-th on, each with the table that the ones before it left */
  function MessageEnd(items: seq<Item>, i: nat, es: seq<Entry>, j: nat, bufLen: nat): int
    requires i <= |items|
    decreases |items| - i
  {
    if i == |items| then j
    else
      var r := AfterItem(items[i], es, j, bufLen);
      if r < 0 then r else MessageEnd(items, i + 1, Recorded(items[i].name, es, j + |items[i].gap|), r, bufLen)
  }

  lemma {:induction false} EndAfter(
      items: seq<Item>, i: nat, es: seq<Entry>, es': seq<Entry>, j: nat, r: int, bufLen: nat)
    requires i < |items| && r == AfterItem(items[i], es, j, bufLen)
    requires r >= 0 ==> es' == Recorded(items[i].name, es, j + |items[i].gap|)
    ensures MessageEnd(items, i, es, j, bufLen) == if r < 0 then r else MessageEnd(items, i + 1, es', r, bufLen)
  {
    hide AfterItem, Recorded;
  }

  lemma {:induction false} EndReached(items: seq<Item>, es: seq<Entry>, j: nat, bufLen: nat)
    ensures MessageEnd(items, |items|, es, j, bufLen) == j
  {
  }

  method WriteOne(buf: array<byte>, bufLen: nat, j: nat, item: Item, table: LabelTable,
                  ghost spans: seq<Span>, ghost items: seq<Item>) returns (r: int, off: nat)
    requires j <= bufLen + 1 <= buf.Length && |table.labels| <= MAX_LABELS
    requires |spans| < |items| && item == items[|spans|] && IsCString(item.name)
    modifies buf, table
    ensures (r == -1 || r == -2 || off < r <= bufLen + 1) && |table.labels| <= MAX_LABELS
    ensures r == AfterItem(item, old(table.labels), j, bufLen)
    ensures r >= 0 ==> off == j + |item.gap| && buf[..off] == old(buf[..j]) + item.gap
    ensures r >= 0 ==> table.labels == Recorded(item.name, old(table.labels), off)
    ensures old(table.labels) <= table.labels
    ensures r >= 0 && |table.labels| < MAX_LABELS ==> LookUp(table.labels, item.name).Some?
    ensures r >= 0 && LookUp(old(table.labels), item.name).Some? ==> r == off + 2
    ensures r >= 0 && off <= 0x4000 && old(Message(buf[..j], spans, items, table.labels)) ==>
      Message(buf[..r], spans + [Span(off, r)], items, table.labels)
  {
    hide At, TableOk, Outcome, NamesOk, Sound, LookUp, Recorded;
    off := j + |item.gap|;
    if off > bufLen {
      return -2, off;
    }
    ghost var p, es := buf[..j], table.labels;
    PutBytes(buf, j, item.gap);
    ghost var p0 := buf[..off];
    ZeroBehindBuffer(item.name, es, off, bufLen);
    NowKnown(item.name, es, off, bufLen);
    r := DnsnameToLabels(buf, bufLen, off, item.name, table);
    if r >= 0 && off <= 0x4000 && Message(p, spans, items, es) {
      NamesExtend(p, item.gap, spans, items);
      TableExtends(es, p, item.gap);
      NearIsSound(es, p0, item.name);
      OneMoreName(p0, buf[..r], table.labels, spans, items);
    }
  }

  lemma {:induction false} NowKnown(name: seq<byte>, es: seq<Entry>, j: nat, bufLen: nat)
    requires |es| <= MAX_LABELS
    ensures |es| < MAX_LABELS && |name| <= 255 ==> LookUp(Recorded(name, es, j), name).Some?
    ensures LookUp(es, name).Some? && Outcome(name, es, j, bufLen) >= 0 ==> Outcome(name, es, j, bufLen) == j + 2
    ensures |name| > 255 ==> Outcome(name, es, j, bufLen) == -2
    ensures |es| <= |Recorded(name, es, j)|
  {
    if |es| < MAX_LABELS && |name| <= 255 {
      SecondTime(name, es, j, j, bufLen);
    }
    hide Recorded;
  }

  /** In the first 0x4000 bytes it is sound to go by a table that is right. */
  lemma {:induction false} NearIsSound(es: seq<Entry>, p: seq<byte>, name: seq<byte>)
    requires TableOk(es, p) && |p| <= 0x4000
    ensures Sound(es, p, name)
  {
    hide KnownTail;
  }

  /** The next item goes behind the ones that are there. */
  method WriteNext(buf: array<byte>, bufLen: nat, j: nat, items: seq<Item>, table: LabelTable, spans: seq<Span>)
    returns (r: int, spans': seq<Span>)
    requires j <= bufLen + 1 <= buf.Length && |table.labels| <= MAX_LABELS
    requires |spans| < |items| && IsCString(items[|spans|].name) && SoFar(buf[..j], spans, items, table.labels)
    modifies buf, table
    ensures (r == -1 || r == -2 || 0 <= r <= bufLen + 1) && |table.labels| <= MAX_LABELS
    ensures |spans'| == |spans| + 1 && (r >= 0 ==> SoFar(buf[..r], spans', items, table.labels))
    ensures MessageEnd(items, |spans|, old(table.labels), j, bufLen) ==
            if r < 0 then r else MessageEnd(items, |spans'|, table.labels, r, bufLen)
  {
    hide *;
    ghost var p, es := buf[..j], table.labels;
    var off;
    r, off := WriteOne(buf, bufLen, j, items[|spans|], table, spans, items);
    EndAfter(items, |spans|, es, table.labels, j, r, bufLen);
    if r >= 0 {
      OneMoreItem(p, buf[..r], spans, items, es, table.labels, off);
    }
    spans' := spans + [Span(off, if r < 0 then off else r)];
  }

  /**
    Any number of names, with other bytes between them, written through one table. If the last of
    them starts within the first 0x4000 bytes, every one of them and every entry of the table reads
    back in the finished message, and reading a proper name ends where writing it did. As long as the
    table is not full, a name that was written before takes two bytes.
   */
  method WriteNames(buf: array<byte>, bufLen: nat, items: seq<Item>, table: LabelTable)
    returns (r: int, spans: seq<Span>)
    requires bufLen < buf.Length && table.labels == []
    requires forall i :: 0 <= i < |items| ==> IsCString(items[i].name)
    modifies buf, table
    ensures r == -1 || r == -2 || 0 <= r <= bufLen + 1
    ensures r == MessageEnd(items, 0, [], 0, bufLen)
    ensures r < 0 ==> table.labels == []
    ensures r >= 0 ==> |spans| == |items| && Consecutive(spans, items, r)
    ensures r >= 0 ==> forall i :: 0 <= i < |spans| ==> GapAt(buf[..r], spans, i, items[i].gap)
    ensures r >= 0 && |table.labels| < MAX_LABELS ==> Short(spans, items)
    ensures r >= 0 && Near(spans) ==> forall i :: 0 <= i < |items| ==>
      && ReadsBack(buf[..r], spans[i].off, items[i].name)
      && (Proper(items[i].name) ==> EndOf(buf[..r], spans[i].off) == Some(spans[i].end))
    ensures r >= 0 && Near(spans) ==>
      forall i :: 0 <= i < |table.labels| ==> ReadsBack(buf[..r], table.labels[i].pos, table.labels[i].v)
  {
    assert |table.labels| <= MAX_LABELS;
    hide *;
    r, spans := 0, [];
    ghost var end := MessageEnd(items, 0, [], 0, bufLen);
    NothingYet(buf[..0], items);
    for i := 0 to |items|
      invariant 0 <= r <= bufLen + 1 && |spans| == i && |table.labels| <= MAX_LABELS
      invariant SoFar(buf[..r], spans, items, table.labels)
      invariant end == MessageEnd(items, i, table.labels, r, bufLen)
    {
      r, spans := WriteNext(buf, bufLen, r, items, table, spans);
      if r < 0 {
        table.labels := [];
        return r, [];
      }
    }
    EndReached(items, table.labels, r, bufLen);
    AllThere(buf[..r], spans, items, table.labels);
  }

  /** The message after some of the items */
  ghost predicate SoFar(p: seq<byte>, spans: seq<Span>, items: seq<Item>, es: seq<Entry>) {
    && |spans| <= |items| && Consecutive(spans, items, |p|)
    && (spans != [] ==> spans[|spans| - 1].off < |p|)
    && (Near(spans) ==> Message(p, spans, items, es))
    && (forall k :: 0 <= k < |spans| ==> GapAt(p, spans, k, items[k].gap))
    && (|es| < MAX_LABELS ==> AllKnown(es, items, |spans|) && Short(spans, items))
  }

  lemma {:induction false} NothingYet(p: seq<byte>, items: seq<Item>)
    requires p == []
    ensures SoFar(p, [], items, [])
  {
  }

  lemma {:induction false} AllThere(p: seq<byte>, spans: seq<Span>, items: seq<Item>, es: seq<Entry>)
    requires SoFar(p, spans, items, es) && |spans| == |items|
    ensures Consecutive(spans, items, |p|) && (|es| < MAX_LABELS ==> Short(spans, items))
    ensures forall i :: 0 <= i < |spans| ==> GapAt(p, spans, i, items[i].gap)
    ensures Near(spans) ==> forall i :: 0 <= i < |items| ==>
      && ReadsBack(p, spans[i].off, items[i].name)
      && (Proper(items[i].name) ==> EndOf(p, spans[i].off) == Some(spans[i].end))
    ensures Near(spans) ==> forall i :: 0 <= i < |es| ==> ReadsBack(p, es[i].pos, es[i].v)
  {
    hide GapAt, Short, Consecutive;
    if Near(spans) {
      AllReadBack(p, spans, items, es);
    }
  }

  lemma {:induction false} OneMoreItem(p: seq<byte>, p': seq<byte>, spans: seq<Span>, items: seq<Item>,
                                       es: seq<Entry>, es': seq<Entry>, off: nat)
    requires SoFar(p, spans, items, es) && |spans| < |items| && es <= es'
    requires off == |p| + |items[|spans|].gap| < |p'| && p'[..off] == p + items[|spans|].gap
    requires |es'| < MAX_LABELS ==> LookUp(es', items[|spans|].name).Some?
    requires LookUp(es, items[|spans|].name).Some? ==> |p'| == off + 2
    requires off <= 0x4000 && Message(p, spans, items, es) ==> Message(p', spans + [Span(off, |p'|)], items, es')
    ensures SoFar(p', spans + [Span(off, |p'|)], items, es')
  {
    hide Message, LookUp, GapAt, Short, AllKnown;
    OneMoreSpan(spans, items, |p|, off, |p'|);
    GapsExtend(p, p', spans, items, off, |p'|);
    if |es'| < MAX_LABELS {
      StillKnown(es, es', items, |spans|);
      ShortMore(es, spans, items, off, |p'|);
    }
  }

  /** The other bytes stand before the name. */
  ghost predicate GapAt(p: seq<byte>, spans: seq<Span>, i: nat, gap: seq<byte>)
    requires i < |spans|
  {
    EndBefore(spans, i) <= spans[i].off <= |p| && p[EndBefore(spans, i)..spans[i].off] == gap
  }

  lemma {:induction false} GapsExtend(
      p: seq<byte>, p': seq<byte>, spans: seq<Span>, items: seq<Item>, off: nat, r: nat)
    requires |spans| < |items| && (forall k :: 0 <= k < |spans| ==> GapAt(p, spans, k, items[k].gap))
    requires EndBefore(spans, |spans|) == |p| && off == |p| + |items[|spans|].gap| < |p'| == r
    requires p'[..off] == p + items[|spans|].gap
    ensures forall k :: 0 <= k <= |spans| ==> GapAt(p', spans + [Span(off, r)], k, items[k].gap)
  {
    var spans' := spans + [Span(off, r)];
    forall k | 0 <= k <= |spans|
      ensures GapAt(p', spans', k, items[k].gap)
    {
      assert EndBefore(spans', k) == EndBefore(spans, k);
      if k < |spans| {
        assert GapAt(p, spans, k, items[k].gap);
        assert p'[EndBefore(spans, k)..spans[k].off] == p'[..off][EndBefore(spans, k)..spans[k].off];
      } else {
        assert p'[|p|..off] == p'[..off][|p|..];
      }
    }
  }

  /** A name that was written before takes two bytes. */
  ghost predicate Short(spans: seq<Span>, items: seq<Item>) {
    && |spans| <= |items|
    && forall i, j :: 0 <= i < j < |spans| && items[i].name == items[j].name ==> spans[j].end == spans[j].off + 2
  }

  ghost predicate AllKnown(es: seq<Entry>, items: seq<Item>, n: nat)
    requires n <= |items|
  {
    forall k :: 0 <= k < n ==> LookUp(es, items[k].name).Some?
  }

  lemma {:induction false} ShortMore(es: seq<Entry>, spans: seq<Span>, items: seq<Item>, off: nat, r: nat)
    requires Short(spans, items) && |spans| < |items| && AllKnown(es, items, |spans|)
    requires LookUp(es, items[|spans|].name).Some? ==> r == off + 2
    ensures Short(spans + [Span(off, r)], items)
  {
    hide LookUp;
  }

  /** What was in the table still is, and so is the name just written. */
  lemma {:induction false} StillKnown(es: seq<Entry>, es': seq<Entry>, items: seq<Item>, n: nat)
    requires es <= es' && n < |items| && AllKnown(es, items, n) && LookUp(es', items[n].name).Some?
    ensures AllKnown(es', items, n + 1)
  {
    hide LookUp;
    assert es' == es + es'[|es|..];
    forall k | 0 <= k < n
      ensures LookUp(es', items[k].name).Some?
    {
      LookUpBehind(es, es'[|es|..], items[k].name);
    }
  }

  lemma {:induction false} OneMoreSpan(spans: seq<Span>, items: seq<Item>, before: int, off: nat, r: nat)
    requires Consecutive(spans, items, before) && |spans| < |items| && off == before + |items[|spans|].gap|
    ensures Consecutive(spans + [Span(off, r)], items, r)
  {
    var spans' := spans + [Span(off, r)];
    forall i | 0 <= i < |spans'|
      ensures spans'[i].off == EndBefore(spans', i) + |items[i].gap|
    {
      assert EndBefore(spans', i) == EndBefore(spans, i);
    }
  }

  /** The last name starts where a pointer can lead to all that is before it. */
  predicate Near(spans: seq<Span>) {
    spans == [] || spans[|spans| - 1].off <= 0x4000
  }

  lemma {:induction false} AllReadBack(p: seq<byte>, spans: seq<Span>, items: seq<Item>, entries: seq<Entry>)
    requires NamesOk(p, spans, items) && TableOk(entries, p)
    ensures forall i :: 0 <= i < |spans| ==> ReadsBack(p, spans[i].off, items[i].name)
    ensures forall i :: 0 <= i < |entries| ==> ReadsBack(p, entries[i].pos, entries[i].v)
  {
    forall i | 0 <= i < |spans|
      ensures ReadsBack(p, spans[i].off, items[i].name)
    {
      assert NameOk(p, spans[i], items[i].name);
      AtReads(p, spans[i].off, spans[i].off, Meaning(items[i].name), |p|);
    }
    forall i | 0 <= i < |entries|
      ensures ReadsBack(p, entries[i].pos, entries[i].v)
    {
      AtReads(p, entries[i].pos, entries[i].pos, Meaning(entries[i].v), |p|);
    }
  }

  /** Read into a buffer of 256 bytes, a name that was accepted comes back byte for byte. */
  method ParseBack(p: seq<byte>, off: nat, name: seq<byte>) returns (text: seq<byte>)
    requires ReadsBack(p, off, name) && |name| <= 255 && NoEmpty(Split(name))
    ensures text == name
  {
    var out := new byte[256];
    TextNotLonger(name);
    MeaningOfNonEmpty(name);
    var r, idx := NameParse(p, off, out);
    text := out[..|name|];
  }
}
