/**
 Linked lists of numbered elements as sequences.
 */
module Lists {
  ghost predicate NoDup(q: seq<nat>) {
    forall a, b :: 0 <= a < b < |q| ==> q[a] != q[b]
  }

  /** TAILQ_REMOVE */
  function Minus(q: seq<nat>, id: nat): (r: seq<nat>)
    ensures |r| == if id in q then |q| - 1 else |q|
  {
    if q == [] then [] else if q[0] == id then q[1..] else [q[0]] + Minus(q[1..], id)
  }

  lemma {:induction false} MinusAt(q: seq<nat>, k: nat)
    requires NoDup(q) && k < |q|
    ensures Minus(q, q[k]) == q[..k] + q[k + 1..]
  {
    if k > 0 {
      MinusAt(q[1..], k - 1);
      assert q[..k] == [q[0]] + q[1..][..k - 1];
    }
  }

  /** The place of an element */
  lemma {:induction false} PlaceOf(q: seq<nat>, id: nat) returns (k: nat)
    requires id in q
    ensures k < |q| && q[k] == id
  {
    k :| k < |q| && q[k] == id;
  }

  lemma {:induction false} MinusHas(q: seq<nat>, id: nat)
    requires NoDup(q)
    ensures NoDup(Minus(q, id)) && id !in Minus(q, id)
    ensures forall x :: x != id ==> (x in Minus(q, id) <==> x in q)
  {
    if q != [] && q[0] != id {
      MinusHas(q[1..], id);
      assert q[0] !in q[1..];
      assert q == [q[0]] + q[1..];
    } else if q != [] {
      assert q == [q[0]] + q[1..];
    }
  }

  lemma {:induction false} MinusAbsent(q: seq<nat>, id: nat)
    requires id !in q
    ensures Minus(q, id) == q
  {
    if q != [] {
      MinusAbsent(q[1..], id);
    }
  }

  ghost function Total(qs: seq<seq<nat>>): nat {
    if qs == [] then 0 else |qs[0]| + Total(qs[1..])
  }

  lemma {:induction false} TotalUpdate(qs: seq<seq<nat>>, p: nat, q: seq<nat>)
    requires p < |qs|
    ensures Total(qs[p := q]) == Total(qs) - |qs[p]| + |q|
  {
    if p > 0 {
      TotalUpdate(qs[1..], p - 1, q);
      assert qs[p := q][1..] == qs[1..][p - 1 := q];
    } else {
      assert qs[p := q][1..] == qs[1..];
    }
  }

  lemma {:induction false} TotalOfNone(qs: seq<seq<nat>>)
    requires forall p :: 0 <= p < |qs| ==> qs[p] == []
    ensures Total(qs) == 0
  {
    if qs != [] {
      TotalOfNone(qs[1..]);
    }
  }
}
