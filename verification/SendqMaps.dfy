/**
  The slots of the send queue ring (libopen-mx/omx_lib.h): an array of entries that
  are owned by a request or linked into a free chain.
*/
module SendqMaps {
  import opened Options
  import opened Queues

  /** The free slots in the order they are handed out, and the owner of each other slot. */
  datatype Sendq = Sendq(free: seq<nat>, owner: map<nat, nat>)

  /** Each of the n slots is free or owned, not both. */
  ghost predicate SendqOk(q: Sendq, n: nat) {
    && Distinct(q.free)
    && (forall s :: s in q.free <==> 0 <= s < n && s !in q.owner)
    && (forall s :: s in q.owner ==> s < n)
  }

  /** omx__endpoint_sendq_map_get when there are enough free slots. */
  function Take(q: Sendq, nr: nat, user: nat): Sendq
    requires nr <= |q.free|
  {
    Sendq(q.free[nr..],
          map s | s in q.owner.Keys + (set x | x in q.free[..nr]) :: if s in q.free[..nr] then user else q.owner[s])
  }

  function Reversed(s: seq<nat>): seq<nat> {
    if s == [] then [] else [s[|s| - 1]] + Reversed(s[..|s| - 1])
  }

  /** omx__endpoint_sendq_map_put */
  function Give(q: Sendq, indexes: seq<nat>): Sendq {
    Sendq(Reversed(indexes) + q.free, map s | s in q.owner && s !in indexes :: q.owner[s])
  }

  lemma TakeOk(q: Sendq, n: nat, nr: nat, user: nat)
    requires SendqOk(q, n) && nr <= |q.free|
    ensures SendqOk(Take(q, nr, user), n)
    ensures Distinct(q.free) && Distinct(q.free[..nr]) && forall s :: s in q.free[..nr] ==> s !in q.owner
  {
    var q' := Take(q, nr, user);
    forall s
      ensures s in q'.free <==> 0 <= s < n && s !in q'.owner
    {
      if s in q.free {
        var i :| 0 <= i < |q.free| && q.free[i] == s;
        assert if i < nr then q.free[..nr][i] == s else q.free[nr..][i - nr] == s;
      }
    }
  }

  lemma {:induction false} ReversedIs(s: seq<nat>)
    ensures |Reversed(s)| == |s| && (forall x :: x in Reversed(s) <==> x in s)
    ensures Distinct(s) ==> Distinct(Reversed(s))
  {
    if s != [] {
      var last := |s| - 1;
      ReversedIs(s[..last]);
      assert s == s[..last] + [s[last]];
      assert Distinct(s) ==> s[last] !in s[..last];
    }
  }

  lemma GiveOk(q: Sendq, n: nat, indexes: seq<nat>)
    requires SendqOk(q, n) && Distinct(indexes) && forall s :: s in indexes ==> s in q.owner
    ensures SendqOk(Give(q, indexes), n)
  {
    hide Reversed;
    ReversedIs(indexes);
    var q' := Give(q, indexes);
    var r := Reversed(indexes);
    assert forall i :: 0 <= i < |r| ==> r[i] in r && r[i] in q.owner;
    assert forall i :: 0 <= i < |q.free| ==> q.free[i] in q.free;
  }

  /** Slots that are taken and given back leave every owner as it was, and the same slots free. */
  lemma TakeGive(q: Sendq, n: nat, nr: nat, user: nat)
    requires SendqOk(q, n) && nr <= |q.free|
    ensures var q' := Give(Take(q, nr, user), q.free[..nr]);
            q'.owner == q.owner && |q'.free| == |q.free| && forall s :: s in q'.free <==> s in q.free
  {
    hide Reversed;
    TakeOk(q, n, nr, user);
    ReversedIs(q.free[..nr]);
    assert q.free == q.free[..nr] + q.free[nr..];
  }

  // ---- the array ----

  /** struct omx__sendq_entry */
  datatype Entry = Entry(nextFree: int, user: Option<nat>)

  /** Following next_free from `first` visits the chain and ends at -1. */
  ghost predicate Linked(a: seq<Entry>, first: int, chain: seq<nat>)
    decreases |chain|
  {
    if chain == [] then first == -1
    else first == chain[0] && chain[0] < |a| && Linked(a, a[chain[0]].nextFree, chain[1..])
  }

  lemma {:induction false} LinkedSame(a: seq<Entry>, b: seq<Entry>, first: int, chain: seq<nat>)
    requires Linked(a, first, chain) && |a| == |b|
    requires forall i :: 0 <= i < |a| && i in chain ==> a[i].nextFree == b[i].nextFree
    ensures Linked(b, first, chain)
    decreases |chain|
  {
    if chain != [] { LinkedSame(a, b, a[chain[0]].nextFree, chain[1..]); }
  }

  ghost predicate Owners(a: seq<Entry>, q: Sendq) {
    forall i :: 0 <= i < |a| ==> a[i].user == if i in q.owner then Some(q.owner[i]) else None
  }

  lemma {:induction false} UptoLinked(a: seq<Entry>, i: nat)
    requires i <= |a| && forall k :: 0 <= k < |a| ==> a[k].nextFree == if k == |a| - 1 then -1 else k + 1
    ensures Linked(a, if i < |a| then i else -1, Upto(i, |a|))
    decreases |a| - i
  {
    if i < |a| {
      UptoLinked(a, i + 1);
      LinkedCons(a, i, Upto(i + 1, |a|));
    }
  }

  class SendqMap {
    const entries: array<Entry>
    var firstFree: int
    var nrFree: nat
    ghost var q: Sendq

    ghost predicate Valid()
      reads this, entries
    {
      && SendqOk(q, entries.Length)
      && Linked(entries[..], firstFree, q.free)
      && nrFree == |q.free|
      && Owners(entries[..], q)
    }

    /** omx__endpoint_sendq_map_init: all slots are free, in order. */
    constructor (n: nat)
      requires 0 < n
      ensures Valid() && fresh(entries) && q == Sendq(Upto(0, n), map[]) && entries.Length == n
    {
      entries := new Entry[n](i => Entry(if i == n - 1 then -1 else i + 1, None));
      firstFree, nrFree := 0, n;
      q := Sendq(Upto(0, n), map[]);
      new;
      UptoIs(0, n);
      UptoLinked(entries[..], 0);
    }

    /** omx__endpoint_sendq_map_get */
    method Get(nr: nat, user: nat) returns (founds: Option<seq<nat>>)
      requires Valid()
      modifies this, entries
      ensures Valid()
      ensures founds == if old(|q.free|) < nr then None else Some(old(q).free[..nr])
      ensures q == if old(|q.free|) < nr then old(q) else Take(old(q), nr, user)
    {
      hide Linked, SendqOk, Take, Owners, Taken, Distinct;
      if nrFree < nr {
        return None;
      }
      var index := firstFree;
      var found: seq<nat> := [];
      ghost var a0 := entries[..];
      TakeOk(q, |a0|, nr, user);
      NoneTaken(a0, user);
      for i := 0 to nr
        invariant q == old(q) && nrFree == old(nrFree)
        invariant Linked(a0, index, q.free[i..]) && found == q.free[..i] && Taken(a0, entries[..], q.free[..i], user)
      {
        ghost var a1 := entries[..];
        ChainHead(a0, a1, index, q.free, i, user);
        var nextFree := entries[index].nextFree;
        entries[index] := entries[index].(user := Some(user));
        assert entries[..] == a1[index := a1[index].(user := Some(user))];
        found := found + [index];
        index := nextFree;
      }
      firstFree := index;
      nrFree := nrFree - nr;
      TakenLinked(a0, entries[..], q.free[..nr], user, index, q.free[nr..]);
      TakeOwners(a0, entries[..], q, nr, user);
      q := Take(q, nr, user);
      founds := Some(found);
    }

    /** omx__endpoint_sendq_map_put, of at least one slot. */
    method Put(indexes: seq<nat>)
      requires Valid() && indexes != [] && Distinct(indexes) && forall s :: s in indexes ==> s in q.owner
      modifies this, entries
      ensures Valid() && q == Give(old(q), indexes)
    {
      hide Linked, SendqOk, Owners, Reversed, Given;
      ghost var a0 := entries[..];
      GiveOk(q, |a0|, indexes);
      InRange(q, |a0|, indexes);
      NoneGiven(a0);
      assert [] + q.free == q.free;
      for i := 0 to |indexes|
        invariant nrFree == old(nrFree) && firstFree == old(firstFree) && q == old(q)
        invariant Linked(entries[..], if i == 0 then firstFree else indexes[i - 1], Reversed(indexes[..i]) + q.free)
        invariant Given(a0, entries[..], indexes[..i])
      {
        ghost var a1 := entries[..];
        var before := if i == 0 then firstFree else indexes[i - 1];
        entries[indexes[i]] := Entry(before, None);
        assert entries[..] == a1[indexes[i] := Entry(before, None)];
        PutStep(a0, a1, before, q, indexes, i);
      }
      assert indexes[..|indexes|] == indexes;
      firstFree, nrFree := indexes[|indexes| - 1], nrFree + |indexes|;
      PutOwners(a0, entries[..], q, indexes);
      ReversedIs(indexes);
      q := Give(q, indexes);
    }

    /** omx__endpoint_sendq_map_user */
    method User(index: nat) returns (user: nat)
      requires Valid() && index in q.owner
      ensures user == q.owner[index]
    {
      user := entries[index].user.value;
    }
  }

  /** The entries once the slots in `found` have a new owner. */
  ghost predicate Taken(a: seq<Entry>, b: seq<Entry>, found: seq<nat>, user: nat) {
    |b| == |a| && forall j :: 0 <= j < |a| ==> b[j] == if j in found then a[j].(user := Some(user)) else a[j]
  }

  lemma NoneTaken(a: seq<Entry>, user: nat)
    ensures Taken(a, a, [], user)
  {
  }

  lemma ChainHead(a: seq<Entry>, b: seq<Entry>, index: int, chain: seq<nat>, i: nat, user: nat)
    requires i < |chain| && Linked(a, index, chain[i..]) && Distinct(chain) && Taken(a, b, chain[..i], user)
    ensures 0 <= index < |a| == |b| && index == chain[i] && Linked(a, b[index].nextFree, chain[i + 1..])
    ensures Taken(a, b[index := b[index].(user := Some(user))], chain[..i + 1], user)
  {
    assert chain[i..][1..] == chain[i + 1..];
    assert chain[..i + 1] == chain[..i] + [chain[i]];
  }

  lemma TakenLinked(a: seq<Entry>, b: seq<Entry>, found: seq<nat>, user: nat, first: int, chain: seq<nat>)
    requires Taken(a, b, found, user) && Linked(a, first, chain)
    ensures Linked(b, first, chain)
  {
    hide Linked;
    LinkedSame(a, b, first, chain);
  }

  /** The entries once the first i slots have no owner. */
  ghost predicate Given(a: seq<Entry>, b: seq<Entry>, gone: seq<nat>) {
    |b| == |a| && forall j :: 0 <= j < |a| ==> b[j].user == if j in gone then None else a[j].user
  }

  lemma NoneGiven(a: seq<Entry>)
    ensures Given(a, a, []) && Reversed([]) == []
  {
  }

  lemma TakeOwners(a: seq<Entry>, b: seq<Entry>, q: Sendq, nr: nat, user: nat)
    requires Owners(a, q) && nr <= |q.free| && Taken(a, b, q.free[..nr], user)
    ensures Owners(b, Take(q, nr, user)) && Take(q, nr, user).free == q.free[nr..]
  {
  }

  lemma InRange(q: Sendq, n: nat, indexes: seq<nat>)
    requires SendqOk(q, n) && forall s :: s in indexes ==> s in q.owner
    ensures forall i :: 0 <= i < |indexes| ==> indexes[i] < n && indexes[i] !in q.free
  {
    forall i | 0 <= i < |indexes|
      ensures indexes[i] < n && indexes[i] !in q.free
    {
      assert indexes[i] in indexes;
    }
  }

  /** The slot that is put back becomes the head of the chain. */
  lemma PutStep(a0: seq<Entry>, a: seq<Entry>, before: int, q: Sendq, indexes: seq<nat>, i: nat)
    requires i < |indexes| && Distinct(indexes) && indexes[i] < |a| && indexes[i] !in q.free
    requires Linked(a, before, Reversed(indexes[..i]) + q.free) && Given(a0, a, indexes[..i])
    ensures var b := a[indexes[i] := Entry(before, None)];
            Linked(b, indexes[i], Reversed(indexes[..i + 1]) + q.free) && Given(a0, b, indexes[..i + 1])
  {
    hide Linked, Reversed;
    var b := a[indexes[i] := Entry(before, None)];
    var chain := Reversed(indexes[..i]) + q.free;
    ReversedIs(indexes[..i]);
    LinkedSame(a, b, before, chain);
    LinkedCons(b, indexes[i], chain);
    ReversedLast(indexes, i);
    assert [indexes[i]] + chain == Reversed(indexes[..i + 1]) + q.free;
    assert indexes[..i + 1] == indexes[..i] + [indexes[i]];
  }

  lemma ReversedLast(indexes: seq<nat>, i: nat)
    requires i < |indexes|
    ensures Reversed(indexes[..i + 1]) == [indexes[i]] + Reversed(indexes[..i])
  {
    assert indexes[..i + 1][..i] == indexes[..i];
  }

  lemma LinkedCons(a: seq<Entry>, x: nat, chain: seq<nat>)
    requires x < |a| && Linked(a, a[x].nextFree, chain)
    ensures Linked(a, x, [x] + chain)
  {
    assert ([x] + chain)[1..] == chain;
  }

  lemma PutOwners(a: seq<Entry>, b: seq<Entry>, q: Sendq, indexes: seq<nat>)
    requires Owners(a, q) && Given(a, b, indexes)
    ensures Owners(b, Give(q, indexes))
  {
    hide Reversed;
  }
}
