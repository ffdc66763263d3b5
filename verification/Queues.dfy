/** Sequences turned round, and lists in which nothing occurs twice, as the kernel's lists are. */
module Queues {

  function Backwards<T>(s: seq<T>): (r: seq<T>)
    ensures |r| == |s|
  {
    seq(|s|, i requires 0 <= i < |s| => s[|s| - 1 - i])
  }

  ghost predicate Distinct<T>(q: seq<T>) {
    forall i, j :: 0 <= i < j < |q| ==> q[i] != q[j]
  }

  /** list_push_back */
  lemma {:induction false} Pushed(q: seq<nat>, x: nat)
    requires Distinct(q) && x !in q
    ensures Distinct(q + [x]) && forall t :: t in q + [x] <==> t in q || t == x
  {
  }

  /** list_pop_front */
  lemma {:induction false} Popped(q: seq<nat>)
    requires Distinct(q) && q != []
    ensures Distinct(q[1..]) && q[0] in q && forall t :: t in q[1..] <==> t in q && t != q[0]
  {
    forall t | t in q && t != q[0] ensures t in q[1..] {
      var i :| 0 <= i < |q| && q[i] == t;
      assert q[1..][i - 1] == t;
    }
  }

  /** list_remove: q without the first occurrence of x */
  function Without(q: seq<nat>, x: nat): seq<nat> {
    if q == [] then [] else if q[0] == x then q[1..] else [q[0]] + Without(q[1..], x)
  }

  lemma {:induction false} Removed(q: seq<nat>, x: nat)
    requires Distinct(q)
    ensures Distinct(Without(q, x)) && forall t :: t in Without(q, x) <==> t in q && t != x
  {
    if q != [] {
      Popped(q);
      if q[0] != x {
        Removed(q[1..], x);
        var r := Without(q[1..], x);
        assert forall t :: t in [q[0]] + r <==> t == q[0] || t in r;
      }
    }
  }
}
