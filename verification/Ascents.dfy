/** Strictly increasing queues of request identities. */
module Ascents {

  ghost predicate Ascending(q: seq<nat>) {
    forall i, j :: 0 <= i < j < |q| ==> q[i] < q[j]
  }

  lemma AscendingCons(x: nat, q: seq<nat>)
    requires Ascending(q) && forall k :: 0 <= k < |q| ==> x < q[k]
    ensures Ascending([x] + q)
  {
  }

  lemma AscendingSnoc(q: seq<nat>, x: nat)
    requires Ascending(q) && forall k :: 0 <= k < |q| ==> q[k] < x
    ensures Ascending(q + [x])
  {
  }

  lemma AscendingConcat(a: seq<nat>, b: seq<nat>)
    requires Ascending(a) && Ascending(b)
    requires forall i, j :: 0 <= i < |a| && 0 <= j < |b| ==> a[i] < b[j]
    ensures Ascending(a + b)
  {
  }

  lemma AscendingFrom(q: seq<nat>, k: nat)
    requires Ascending(q) && k < |q|
    ensures forall i :: k <= i < |q| ==> q[k] <= q[i]
  {
  }
}
