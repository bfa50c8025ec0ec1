/** Queues of numbered elements, as sequences. */
module Queues {

  predicate Distinct(s: seq<nat>) {
    forall i, j :: 0 <= i < j < |s| ==> s[i] != s[j]
  }

  /** list_del: the list without the element. */
  function Remove(list: seq<nat>, p: nat): seq<nat> {
    if list == [] then [] else if list[0] == p then list[1..] else [list[0]] + Remove(list[1..], p)
  }

  lemma {:induction false} RemoveIs(list: seq<nat>, p: nat)
    requires Distinct(list)
    ensures Distinct(Remove(list, p))
    ensures forall x :: x in Remove(list, p) <==> x in list && x != p
  {
    if list != [] {
      var rest := list[1..];
      RemoveIs(rest, p);
      assert list == [list[0]] + rest;
      assert forall x :: x in list <==> x == list[0] || x in rest;
      assert list[0] !in rest;
    }
  }

  lemma {:induction false} RemoveAbsent(list: seq<nat>, p: nat)
    requires p !in list
    ensures Remove(list, p) == list
  {
    if list != [] { RemoveAbsent(list[1..], p); }
  }

  lemma {:induction false} RemoveLength(list: seq<nat>, p: nat)
    requires p in list
    ensures |Remove(list, p)| == |list| - 1
  {
    if list[0] != p { RemoveLength(list[1..], p); }
  }

  lemma RemoveHead(list: seq<nat>)
    requires list != []
    ensures Remove(list, list[0]) == list[1..]
  {
  }

  /** The numbers from i up to n. */
  function Upto(i: nat, n: nat): seq<nat>
    requires i <= n
    decreases n - i
  {
    if i == n then [] else [i] + Upto(i + 1, n)
  }

  lemma {:induction false} UptoIs(i: nat, n: nat)
    requires i <= n
    ensures |Upto(i, n)| == n - i && forall k :: 0 <= k < n - i ==> Upto(i, n)[k] == i + k
    ensures Distinct(Upto(i, n)) && forall x :: x in Upto(i, n) <==> i <= x < n
    decreases n - i
  {
    if i < n { UptoIs(i + 1, n); }
  }
}
