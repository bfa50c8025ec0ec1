/**
  Credits for expected events (libopen-mx/omx_send.c, omx_lib.c, omx_large.c,
  omx_endpoint.c).  A request reserves one slot of the driver's event ring for
  every fragment or pull before it is posted, and gets it back when the event is
  processed.  The ring slots go back to the driver in batches.
*/
module Credits {
  import opened Queues
  import opened SendqMaps

  const RING := 1024
  const BATCH := 256
  /** avail_exp_events of a new endpoint */
  const CREDITS := RING - (BATCH - 1)

  /**
    Where a medium send is: it waits for events, then for send queue slots, then
    for a sequence number; then some of its fragments are in the driver, or it
    waits for an ack or a resend; then it is complete.
  */
  datatype Stage = NeedEvents | NeedSlots | NeedSeqnum | Sending | Waiting | Done

  /** `out` holds the slots of the fragments in the driver; `pending` is frags_pending_nr. */
  datatype Req = Req(stage: Stage, frags: nat, slots: seq<nat>, pending: nat, out: set<nat>, needAck: bool)

  /** `poster`, the request that posted the fragment, is for the proofs: the driver reports the slot only. */
  datatype Event = FragDone(slot: nat, poster: nat) | PullDone

  /** `held` pulls have a credit but are not posted; `flying` events are still in the driver. */
  datatype World = World(reqs: seq<Req>, avail: nat, sendq: Sendq, held: nat,
                         flying: multiset<Event>, ring: seq<Event>, processed: nat)

  function Start(n: nat): World {
    World([], CREDITS, Sendq(Upto(0, n), map[]), 0, multiset{}, [], 0)
  }

  // ---- what the library does ----

  datatype Action =
    | Submit(frags: nat)
    | GetEvents(k: nat)
    | GetSlots(k: nat)
    | Setup(k: nat, posted: nat)
    | Resend(k: nat, posted: nat)
    | Ack(k: nat)
    | HoldPull
    | PostPull
    | DriverWrites(e: Event)
    | ProcessEvent

  predicate Enabled(w: World, a: Action) {
    match a
    case Submit(frags) => 0 < frags
    case GetEvents(k) => k < |w.reqs| && w.reqs[k].stage == NeedEvents && w.reqs[k].frags <= w.avail
    case GetSlots(k) => k < |w.reqs| && w.reqs[k].stage == NeedSlots && w.reqs[k].frags <= |w.sendq.free|
    case Setup(k, posted) => k < |w.reqs| && w.reqs[k].stage == NeedSeqnum && posted <= w.reqs[k].frags
    case Resend(k, posted) =>
      k < |w.reqs| && w.reqs[k].stage == Waiting && w.reqs[k].needAck && w.reqs[k].frags <= w.avail
          && posted <= w.reqs[k].frags
    case Ack(k) => k < |w.reqs| && w.reqs[k].needAck
    case HoldPull => 0 < w.avail
    case PostPull => 0 < w.held
    case DriverWrites(e) => e in w.flying
    case ProcessEvent => w.ring != []
  }

  function FragEvents(slots: seq<nat>, k: nat): multiset<Event> {
    if slots == [] then multiset{} else multiset{FragDone(slots[0], k)} + FragEvents(slots[1..], k)
  }

  function SlotSet(slots: seq<nat>): set<nat> {
    set s | s in slots
  }

  /** omx__post_isend_mediumsq: the driver takes the first fragments, the credits of the others come back. */
  function PostFrags(w: World, k: nat, posted: nat): World
    requires k < |w.reqs| && posted <= w.reqs[k].frags && posted <= |w.reqs[k].slots|
  {
    var r := w.reqs[k];
    var slots := r.slots[..posted];
    w.(reqs := w.reqs[k := r.(stage := if 0 < posted then Sending else Waiting, pending := posted,
                              out := SlotSet(slots), needAck := true)],
       flying := w.flying + FragEvents(slots, k),
       avail := w.avail + (r.frags - posted))
  }

  /** omx__send_complete gives the slots back. */
  function Complete(w: World, k: nat): World
    requires k < |w.reqs|
  {
    var r := w.reqs[k];
    w.(reqs := w.reqs[k := r.(stage := Done, slots := [], out := {}, pending := 0, needAck := false)],
       sendq := Give(w.sendq, r.slots))
  }

  /** OMX_EVT_SEND_MEDIUMSQ_FRAG_DONE */
  function FragmentDone(w: World, s: nat): World {
    if s !in w.sendq.owner || w.sendq.owner[s] >= |w.reqs| || w.reqs[w.sendq.owner[s]].pending == 0 then w
    else
      var k := w.sendq.owner[s];
      var r := w.reqs[k];
      var r' := r.(pending := r.pending - 1, out := r.out - {s});
      var w' := w.(avail := w.avail + 1, reqs := w.reqs[k := r']);
      if r'.pending != 0 then w'
      else if r'.needAck then w'.(reqs := w.reqs[k := r'.(stage := Waiting)])
      else Complete(w', k)
  }

  function Act(w: World, a: Action): World
    requires Enabled(w, a)
  {
    match a
    case Submit(frags) => w.(reqs := w.reqs + [Req(NeedEvents, frags, [], 0, {}, false)])
    case GetEvents(k) => w.(avail := w.avail - w.reqs[k].frags, reqs := w.reqs[k := w.reqs[k].(stage := NeedSlots)])
    case GetSlots(k) => Taken(w, k, w.reqs[k].frags)
    case Setup(k, posted) => if posted <= |w.reqs[k].slots| then PostFrags(w, k, posted) else w
    case Resend(k, posted) =>
      if posted <= |w.reqs[k].slots| then PostFrags(w.(avail := w.avail - w.reqs[k].frags), k, posted) else w
    case Ack(k) =>
      var w' := w.(reqs := w.reqs[k := w.reqs[k].(needAck := false)]);
      if w.reqs[k].stage == Sending then w' else Complete(w', k)
    case HoldPull => w.(avail := w.avail - 1, held := w.held + 1)
    case PostPull => w.(held := w.held - 1, flying := w.flying + multiset{PullDone})
    case DriverWrites(e) => w.(flying := w.flying - multiset{e}, ring := w.ring + [e])
    case ProcessEvent =>
      var w' := w.(ring := w.ring[1..], processed := w.processed + 1);
      match w.ring[0]
      case FragDone(s, _) => FragmentDone(w', s)
      case PullDone => w'.(avail := w'.avail + 1)
  }

  // ---- conservation ----

  function Reserved(r: Req): nat {
    if r.stage == NeedSlots || r.stage == NeedSeqnum then r.frags else 0
  }

  function Sum(reqs: seq<Req>): nat {
    if reqs == [] then 0 else Sum(reqs[..|reqs| - 1]) + Reserved(reqs[|reqs| - 1])
  }

  lemma {:induction false} SumUpdate(reqs: seq<Req>, k: nat, r: Req)
    requires k < |reqs|
    ensures Sum(reqs[k := r]) == Sum(reqs) - Reserved(reqs[k]) + Reserved(r)
  {
    var last := |reqs| - 1;
    if k == last {
      assert reqs[k := r][..last] == reqs[..last];
    } else {
      assert reqs[k := r][..last] == reqs[..last][k := r];
      SumUpdate(reqs[..last], k, r);
    }
  }

  lemma SumAdd(reqs: seq<Req>, r: Req)
    ensures Sum(reqs + [r]) == Sum(reqs) + Reserved(r)
  {
    assert (reqs + [r])[..|reqs|] == reqs;
  }

  ghost predicate Conserved(w: World) {
    w.avail + Sum(w.reqs) + w.held + |w.flying| + |w.ring| == CREDITS
  }

  // ---- ownership ----

  ghost predicate HasSlots(r: Req) {
    r.stage == NeedSeqnum || r.stage == Sending || r.stage == Waiting
  }

  ghost predicate ReqOk(r: Req) {
    && 0 < r.frags
    && Distinct(r.slots)
    && |r.slots| == (if HasSlots(r) then r.frags else 0)
    && (forall s :: s in r.out ==> s in r.slots)
    && r.pending == |r.out|
    && (r.stage == Sending <==> r.pending != 0)
    && (r.needAck ==> r.stage == Sending || r.stage == Waiting)
  }

  ghost predicate Owned(w: World) {
    && (forall k, s :: 0 <= k < |w.reqs| && s in w.reqs[k].slots ==> s in w.sendq.owner && w.sendq.owner[s] == k)
    && (forall s :: s in w.sendq.owner ==> w.sendq.owner[s] < |w.reqs| && s in w.reqs[w.sendq.owner[s]].slots)
  }

  /** Request k owns the slot, and its fragment is in the driver. */
  ghost predicate Out(w: World, s: nat, k: nat) {
    s in w.sendq.owner && w.sendq.owner[s] == k && k < |w.reqs| && s in w.reqs[k].out
  }

  /** Each fragment in the driver has one event to come, posted by the owner of its slot; there are no others. */
  ghost predicate EventsOk(w: World) {
    forall s, k :: (w.flying + multiset(w.ring))[FragDone(s, k)] == if Out(w, s, k) then 1 else 0
  }

  ghost predicate Inv(w: World, n: nat) {
    && Conserved(w)
    && SendqOk(w.sendq, n)
    && (forall k :: 0 <= k < |w.reqs| ==> ReqOk(w.reqs[k]))
    && Owned(w)
    && EventsOk(w)
  }

  /** The events of distinct slots: one each. */
  lemma {:induction false} FragEventsAre(slots: seq<nat>, k: nat)
    requires Distinct(slots)
    ensures |FragEvents(slots, k)| == |slots|
    ensures forall s, j :: FragEvents(slots, k)[FragDone(s, j)] == if s in slots && j == k then 1 else 0
  {
    if slots != [] {
      var rest := slots[1..];
      FragEventsAre(rest, k);
      assert slots == [slots[0]] + rest;
      assert slots[0] !in rest;
    }
  }

  lemma {:induction false} SetOfSlots(slots: seq<nat>)
    requires Distinct(slots)
    ensures |SlotSet(slots)| == |slots|
  {
    if slots == [] {
      assert SlotSet(slots) == {};
    } else {
      var last := |slots| - 1;
      var rest := slots[..last];
      SetOfSlots(rest);
      assert slots == rest + [slots[last]];
      assert slots[last] !in SlotSet(rest);
      assert SlotSet(slots) == SlotSet(rest) + {slots[last]};
    }
  }

  /** A request changes, but not the slots it owns or has in the driver. */
  lemma SameSlots(w: World, w': World, k: nat)
    requires Owned(w) && EventsOk(w) && k < |w.reqs| == |w'.reqs|
    requires w'.sendq == w.sendq && w'.flying + multiset(w'.ring) == w.flying + multiset(w.ring)
    requires w'.reqs[k].slots == w.reqs[k].slots && w'.reqs[k].out == w.reqs[k].out
    requires forall j :: 0 <= j < |w.reqs| && j != k ==> w'.reqs[j] == w.reqs[j]
    ensures Owned(w') && EventsOk(w')
  {
    assert forall j :: 0 <= j < |w.reqs| ==> w'.reqs[j].slots == w.reqs[j].slots && w'.reqs[j].out == w.reqs[j].out;
    assert forall s, j :: Out(w', s, j) <==> Out(w, s, j);
  }

  lemma SubmitOk(w: World, n: nat, frags: nat)
    requires Inv(w, n) && 0 < frags
    ensures Inv(Act(w, Submit(frags)), n)
  {
    hide SendqOk, Conserved, Sum, FragEvents, PostFrags, FragmentDone, Complete;
    var w' := Act(w, Submit(frags));
    var r := Req(NeedEvents, frags, [], 0, {}, false);
    SumAdd(w.reqs, r);
    assert Conserved(w') by { AddConserved(w, r); }
    assert forall j :: 0 <= j < |w'.reqs| ==> w'.reqs[j] == if j < |w.reqs| then w.reqs[j] else r;
    assert forall s, j :: Out(w', s, j) <==> Out(w, s, j);
  }

  lemma AddConserved(w: World, r: Req)
    requires Conserved(w) && Reserved(r) == 0
    ensures Conserved(w.(reqs := w.reqs + [r]))
  {
    hide Sum;
    SumAdd(w.reqs, r);
  }

  /** The ledger after one request and the other accounts change. */
  lemma Ledger(w: World, w': World, k: nat, r: Req)
    requires Conserved(w) && k < |w.reqs| && w'.reqs == w.reqs[k := r]
    requires w'.avail + Reserved(r) + w'.held + |w'.flying| + |w'.ring|
          == w.avail + Reserved(w.reqs[k]) + w.held + |w.flying| + |w.ring|
    ensures Conserved(w')
  {
    hide Sum, Reserved;
    SumUpdate(w.reqs, k, r);
  }

  lemma GetEventsOk(w: World, n: nat, k: nat)
    requires Inv(w, n) && Enabled(w, GetEvents(k))
    ensures Inv(Act(w, GetEvents(k)), n)
  {
    hide SendqOk, Conserved, Sum, Owned, EventsOk, Distinct;
    var w' := Act(w, GetEvents(k));
    Ledger(w, w', k, w'.reqs[k]);
    SameSlots(w, w', k);
  }

  lemma GetSlotsOk(w: World, n: nat, k: nat)
    requires Inv(w, n) && Enabled(w, GetSlots(k))
    ensures Inv(Act(w, GetSlots(k)), n)
  {
    hide SendqOk, Conserved, Sum, Owned, EventsOk, Take;
    var r := w.reqs[k];
    var w' := Act(w, GetSlots(k));
    Ledger(w, w', k, w'.reqs[k]);
    TakeOk(w.sendq, n, r.frags, k);
    TakeSlots(w, k, r.frags);
  }

  /** Request k takes the first slots of the free chain. */
  function Taken(w: World, k: nat, nr: nat): World
    requires k < |w.reqs| && nr <= |w.sendq.free|
  {
    w.(sendq := Take(w.sendq, nr, k),
       reqs := w.reqs[k := w.reqs[k].(stage := NeedSeqnum, slots := w.sendq.free[..nr])])
  }

  lemma TakeSlots(w: World, k: nat, nr: nat)
    requires Owned(w) && EventsOk(w) && k < |w.reqs| && w.reqs[k].slots == [] && w.reqs[k].out == {}
             && nr <= |w.sendq.free|
    requires forall s :: s in w.sendq.free[..nr] ==> s !in w.sendq.owner
    ensures var w' := Taken(w, k, nr); Owned(w') && EventsOk(w')
  {
    hide Take, EventsOk, Out;
    var w' := Taken(w, k, nr);
    TakeOwnersAre(w.sendq, nr, k);
    forall j, s | 0 <= j < |w'.reqs| && s in w'.reqs[j].slots
      ensures s in w'.sendq.owner && w'.sendq.owner[s] == j
    {
      if j != k { assert s in w.reqs[j].slots; }
    }
    TakeEvents(w, w', nr, k);
  }

  lemma TakeOwnersAre(q: Sendq, nr: nat, k: nat)
    requires nr <= |q.free|
    ensures forall s :: s in Take(q, nr, k).owner <==> s in q.owner || s in q.free[..nr]
    ensures forall s :: s in Take(q, nr, k).owner ==>
                          Take(q, nr, k).owner[s] == if s in q.free[..nr] then k else q.owner[s]
  {
  }

  lemma TakeEvents(w: World, w': World, nr: nat, k: nat)
    requires Owned(w) && EventsOk(w) && k < |w.reqs| && w.reqs[k].out == {} && nr <= |w.sendq.free|
    requires forall s :: s in w.sendq.free[..nr] ==> s !in w.sendq.owner
    requires |w'.reqs| == |w.reqs| && w'.reqs[k].out == {}
             && w' == w.(sendq := Take(w.sendq, nr, k), reqs := w.reqs[k := w'.reqs[k]])
    ensures EventsOk(w')
  {
    hide Take;
    TakeOwnersAre(w.sendq, nr, k);
    assert forall s, j :: Out(w', s, j) <==> Out(w, s, j);
  }

  /** Fragments go to the driver; before, none of the request's were there. */
  lemma PostOwned(w: World, w': World, k: nat, posted: nat)
    requires Owned(w) && EventsOk(w) && k < |w.reqs| && w.reqs[k].out == {} && posted <= |w.reqs[k].slots|
             && Distinct(w.reqs[k].slots)
    requires w'.sendq == w.sendq && w'.ring == w.ring
    requires w'.flying == w.flying + FragEvents(w.reqs[k].slots[..posted], k)
    requires |w'.reqs| == |w.reqs| && forall j :: 0 <= j < |w.reqs| && j != k ==> w'.reqs[j] == w.reqs[j]
    requires w'.reqs[k].slots == w.reqs[k].slots && w'.reqs[k].out == SlotSet(w.reqs[k].slots[..posted])
    ensures Owned(w') && EventsOk(w')
  {
    hide FragEvents, Distinct;
    var slots := w.reqs[k].slots;
    DistinctPart(slots, posted);
    FragEventsAre(slots[..posted], k);
    assert forall j :: 0 <= j < |w.reqs| ==> w'.reqs[j].slots == w.reqs[j].slots;
    forall s, j
      ensures (w'.flying + multiset(w'.ring))[FragDone(s, j)] == if Out(w', s, j) then 1 else 0
    {
      if s in slots[..posted] { assert s in slots; }
    }
  }

  lemma DistinctPart(slots: seq<nat>, posted: nat)
    requires Distinct(slots) && posted <= |slots|
    ensures Distinct(slots[..posted])
  {
  }

  lemma PostOk(w: World, n: nat, k: nat, posted: nat, spent: nat)
    requires k < |w.reqs| && posted <= w.reqs[k].frags
    requires w.reqs[k].stage == NeedSeqnum || w.reqs[k].stage == Waiting
    requires spent == if w.reqs[k].stage == Waiting then w.reqs[k].frags else 0
    requires spent <= w.avail && Inv(w, n)
    ensures posted <= |w.reqs[k].slots| && Inv(PostFrags(w.(avail := w.avail - spent), k, posted), n)
  {
    hide SendqOk, Conserved, Sum, Owned, EventsOk, FragEvents, Distinct;
    assert ReqOk(w.reqs[k]);
    var slots := w.reqs[k].slots;
    var w' := PostFrags(w.(avail := w.avail - spent), k, posted);
    DistinctPart(slots, posted);
    FragEventsAre(slots[..posted], k);
    SetOfSlots(slots[..posted]);
    Ledger(w, w', k, w'.reqs[k]);
    PostOwned(w, w', k, posted);
  }

  /** A request without fragments in the driver completes. */
  lemma CompleteOk(w: World, n: nat, k: nat)
    requires k < |w.reqs| && Conserved(w) && SendqOk(w.sendq, n) && Owned(w) && EventsOk(w)
    requires (forall j :: 0 <= j < |w.reqs| && j != k ==> ReqOk(w.reqs[j]))
    requires w.reqs[k].out == {} && Reserved(w.reqs[k]) == 0 && 0 < w.reqs[k].frags && Distinct(w.reqs[k].slots)
    ensures Inv(Complete(w, k), n)
  {
    hide SendqOk, Conserved, Sum, Give, Owned, EventsOk;
    var w' := Complete(w, k);
    Ledger(w, w', k, w'.reqs[k]);
    CompleteOwned(w, k);
    GiveOk(w.sendq, n, w.reqs[k].slots);
  }

  lemma CompleteOwned(w: World, k: nat)
    requires k < |w.reqs| && Owned(w) && EventsOk(w) && w.reqs[k].out == {}
    ensures Owned(Complete(w, k)) && EventsOk(Complete(w, k))
    ensures forall s :: s in w.reqs[k].slots ==> s in w.sendq.owner
  {
    hide Give, EventsOk, Out, ReqOk, Distinct;
    var w' := Complete(w, k);
    GiveOwners(w.sendq, w.reqs[k].slots);
    assert forall j :: 0 <= j < |w.reqs| ==> w'.reqs[j].slots == if j == k then [] else w.reqs[j].slots;
    forall s | s in w'.sendq.owner
      ensures s in w'.reqs[w'.sendq.owner[s]].slots
    {
      assert s in w.reqs[w.sendq.owner[s]].slots && w.sendq.owner[s] != k;
    }
    forall j, s | 0 <= j < |w'.reqs| && s in w'.reqs[j].slots
      ensures s in w'.sendq.owner && w'.sendq.owner[s] == j
    {
      assert s in w.reqs[j].slots && w.sendq.owner[s] == j && j != k;
      assert s !in w.reqs[k].slots;
    }
    CompleteEvents(w, k);
  }

  lemma CompleteEvents(w: World, k: nat)
    requires k < |w.reqs| && Owned(w) && EventsOk(w) && w.reqs[k].out == {}
    ensures EventsOk(Complete(w, k))
  {
    hide Give;
    var w' := Complete(w, k);
    GiveOwners(w.sendq, w.reqs[k].slots);
    assert forall s, j :: Out(w', s, j) <==> Out(w, s, j);
  }

  lemma GiveOwners(q: Sendq, slots: seq<nat>)
    ensures forall s :: s in Give(q, slots).owner <==> s in q.owner && s !in slots
    ensures forall s :: s in Give(q, slots).owner ==> Give(q, slots).owner[s] == q.owner[s]
    ensures forall s :: s in slots ==> s in Give(q, slots).free
  {
    ReversedIs(slots);
  }

  lemma AckOk(w: World, n: nat, k: nat)
    requires Inv(w, n) && Enabled(w, Ack(k))
    ensures Inv(Act(w, Ack(k)), n)
  {
    hide SendqOk, Conserved, Sum, Owned, EventsOk, Complete, Distinct;
    assert ReqOk(w.reqs[k]);
    var w' := w.(reqs := w.reqs[k := w.reqs[k].(needAck := false)]);
    Ledger(w, w', k, w'.reqs[k]);
    SameSlots(w, w', k);
    if w.reqs[k].stage != Sending { CompleteOk(w', n, k); }
  }

  /** A fragment-done event finds its slot still owned by the request that posted it. */
  lemma EventFindsRequest(w: World, n: nat, i: nat)
    requires Inv(w, n) && i < |w.ring| && w.ring[i].FragDone?
    ensures var s, k := w.ring[i].slot, w.ring[i].poster;
            && s in w.sendq.owner && w.sendq.owner[s] == k && k < |w.reqs|
            && s in w.reqs[k].out && s in w.reqs[k].slots && w.reqs[k].stage == Sending && 0 < w.reqs[k].pending
  {
    hide SendqOk, Conserved;
    var s, k := w.ring[i].slot, w.ring[i].poster;
    assert FragDone(s, k) in multiset(w.ring);
    assert Out(w, s, k);
    assert ReqOk(w.reqs[k]);
  }

  lemma FragmentOwned(w: World, w': World, s: nat, k: nat)
    requires Owned(w) && EventsOk(w) && Out(w, s, k)
    requires w'.sendq == w.sendq && w'.flying == w.flying
    requires w.ring != [] && w.ring[0] == FragDone(s, k) && w'.ring == w.ring[1..]
    requires |w'.reqs| == |w.reqs| && (forall j :: 0 <= j < |w.reqs| && j != k ==> w'.reqs[j] == w.reqs[j])
    requires w'.reqs[k].slots == w.reqs[k].slots && w'.reqs[k].out == w.reqs[k].out - {s}
    ensures Owned(w') && EventsOk(w')
  {
    assert forall j :: 0 <= j < |w.reqs| ==> w'.reqs[j].slots == w.reqs[j].slots;
    assert w.ring == [FragDone(s, k)] + w'.ring;
    assert forall x, j :: Out(w', x, j) <==> Out(w, x, j) && x != s;
  }

  /** What one request keeps when another changes. */
  ghost predicate OthersKept(w: World, w': World, k: nat) {
    && |w'.reqs| == |w.reqs|
    && w'.held == w.held && w'.flying == w.flying
    && (forall j :: 0 <= j < |w.reqs| && j != k ==> w'.reqs[j] == w.reqs[j])
  }

  /** Its slots are free again, in any order with those that were. */
  ghost predicate SlotsReturned(w: World, w': World, k: nat)
    requires k < |w.reqs|
  {
    && (forall s :: s in w'.sendq.owner <==> s in w.sendq.owner && w.sendq.owner[s] != k)
    && (forall s :: s in w.sendq.owner && w.sendq.owner[s] == k ==> s in w'.sendq.free)
  }

  /**
    A fragment-done event gives one credit back to the endpoint, and its fragment is no longer in the driver.
    With the last one the request waits for its ack, or it is complete if that has come, and its slots are free.
  */
  lemma FragmentReturns(w: World, n: nat)
    requires Inv(w, n) && w.ring != [] && w.ring[0].FragDone?
    ensures var k, s, w' := w.ring[0].poster, w.ring[0].slot, Act(w, ProcessEvent);
            && w'.avail == w.avail + 1 && w'.ring == w.ring[1..] && k < |w.reqs| && OthersKept(w, w', k)
            && w'.reqs[k].out == w.reqs[k].out - {s}
            && (w.reqs[k].out != {s} ==> w'.reqs[k].stage == Sending && w'.sendq == w.sendq)
            && (w.reqs[k].out == {s} && w.reqs[k].needAck ==> w'.reqs[k].stage == Waiting && w'.sendq == w.sendq)
            && (w.reqs[k].out == {s} && !w.reqs[k].needAck ==> w'.reqs[k].stage == Done && SlotsReturned(w, w', k))
  {
    hide SendqOk, Conserved, Sum, EventsOk, Distinct, Give;
    EventFindsRequest(w, n, 0);
    var s, k := w.ring[0].slot, w.ring[0].poster;
    var r := w.reqs[k];
    assert ReqOk(r);
    OneLeft(r.out, s);
    GiveOwners(w.sendq, r.slots);
  }

  lemma OneLeft(out: set<nat>, s: nat)
    requires s in out
    ensures |out - {s}| == |out| - 1 && (|out| == 1 <==> out == {s})
  {
    assert out == (out - {s}) + {s};
    if |out| == 1 { assert out - {s} == {}; }
  }

  /**
    An ack completes the request at once if none of its fragments is in the driver, and frees its slots;
    otherwise the request only stops waiting for the ack.
  */
  lemma AckCompletes(w: World, n: nat, k: nat)
    requires Inv(w, n) && Enabled(w, Ack(k))
    ensures var w' := Act(w, Ack(k));
            && w'.avail == w.avail && w'.ring == w.ring && OthersKept(w, w', k) && !w'.reqs[k].needAck
            && w'.reqs[k].out == w.reqs[k].out
            && (w.reqs[k].out == {} ==> w'.reqs[k].stage == Done && SlotsReturned(w, w', k))
            && (w.reqs[k].out != {} ==> w'.reqs[k].stage == Sending && w'.sendq == w.sendq)
  {
    hide SendqOk, Conserved, Sum, EventsOk, Distinct, Give;
    assert ReqOk(w.reqs[k]);
    GiveOwners(w.sendq, w.reqs[k].slots);
  }

  /**
    Posting puts exactly the first fragments into the driver, each with one event to
    come, and gives the credits of the others back.
  */
  lemma PostedOut(w: World, n: nat, k: nat, posted: nat)
    requires Inv(w, n) && (Enabled(w, Setup(k, posted)) || Enabled(w, Resend(k, posted)))
    ensures var w' := Act(w, if w.reqs[k].stage == Waiting then Resend(k, posted) else Setup(k, posted));
            && |w.reqs[k].slots| == w.reqs[k].frags && |w'.reqs| == |w.reqs|
            && (forall j :: 0 <= j < |w.reqs| && j != k ==> w'.reqs[j] == w.reqs[j])
            && w'.sendq == w.sendq && w'.ring == w.ring && w'.held == w.held && w'.reqs[k].slots == w.reqs[k].slots
            && (forall s :: s in w'.reqs[k].out <==> s in w.reqs[k].slots[..posted])
            && (forall s :: s in w.reqs[k].slots[..posted] ==>
                            w'.flying[FragDone(s, k)] == w.flying[FragDone(s, k)] + 1)
            && |w'.flying| == |w.flying| + posted && w'.reqs[k].pending == posted && w'.reqs[k].needAck
            && w'.avail == w.avail + (if w.reqs[k].stage == Waiting then 0 else w.reqs[k].frags) - posted
            && w'.reqs[k].stage == if posted == 0 then Waiting else Sending
  {
    hide SendqOk, Conserved, Sum, Owned, EventsOk, FragEvents, Distinct;
    assert ReqOk(w.reqs[k]);
    var slots := w.reqs[k].slots;
    DistinctPart(slots, posted);
    FragEventsAre(slots[..posted], k);
    SetOfSlots(slots[..posted]);
  }

  /** A new request waits for credits, and nothing else changes. */
  lemma Submitted(w: World, n: nat, frags: nat)
    requires Inv(w, n) && 0 < frags
    ensures var w' := Act(w, Submit(frags));
            && w' == w.(reqs := w'.reqs) && |w'.reqs| == |w.reqs| + 1 && w.reqs <= w'.reqs
            && w'.reqs[|w.reqs|].stage == NeedEvents && w'.reqs[|w.reqs|].frags == frags
  {
    hide Inv;
  }

  /** A request waits for credits, then for slots: it takes as many of each as it has fragments. */
  lemma Reserves(w: World, n: nat, k: nat)
    requires Inv(w, n) && k < |w.reqs|
    ensures Enabled(w, GetEvents(k)) ==>
              var w' := Act(w, GetEvents(k));
              && w'.reqs[k].stage == NeedSlots && w'.avail == w.avail - w.reqs[k].frags && OthersKept(w, w', k)
              && w'.sendq == w.sendq && w'.ring == w.ring
    ensures Enabled(w, GetSlots(k)) ==>
              var w' := Act(w, GetSlots(k));
              && w'.reqs[k].stage == NeedSeqnum && |w'.reqs[k].slots| == w.reqs[k].frags && OthersKept(w, w', k)
              && (forall s :: s in w'.reqs[k].slots ==>
                              s in w.sendq.free && s in w'.sendq.owner && w'.sendq.owner[s] == k)
              && w'.avail == w.avail && w'.ring == w.ring
  {
    hide SendqOk, Conserved, Sum, Owned, EventsOk, FragEvents, Distinct, Take;
    if Enabled(w, GetSlots(k)) { TakeOwnersAre(w.sendq, w.reqs[k].frags, k); }
  }

  /** Pulls take one credit when they are held, and give it back when their event is processed. */
  lemma PullCycle(w: World, n: nat)
    requires Inv(w, n)
    ensures Enabled(w, HoldPull) ==> Act(w, HoldPull) == w.(avail := w.avail - 1, held := w.held + 1)
    ensures Enabled(w, PostPull) ==>
              var w' := Act(w, PostPull);
              w' == w.(held := w.held - 1, flying := w'.flying) && w'.flying[PullDone] == w.flying[PullDone] + 1
              && |w'.flying| == |w.flying| + 1
    ensures w.ring != [] && w.ring[0] == PullDone ==>
              var w' := Act(w, ProcessEvent);
              w' == w.(ring := w.ring[1..], processed := w.processed + 1, avail := w.avail + 1)
  {
    hide Inv;
  }

  /** The driver writes an event of its own choice to the end of the ring. */
  lemma Written(w: World, n: nat, e: Event)
    requires Inv(w, n) && e in w.flying
    ensures var w' := Act(w, DriverWrites(e));
            && w' == w.(ring := w.ring + [e], flying := w'.flying)
            && |w'.flying| == |w.flying| - 1 && w'.flying[e] == w.flying[e] - 1
  {
    hide Inv;
  }

  lemma FragmentOk(w: World, n: nat)
    requires Inv(w, n) && w.ring != [] && w.ring[0].FragDone?
    ensures Inv(Act(w, ProcessEvent), n)
  {
    hide SendqOk, Conserved, Sum, Owned, EventsOk, Complete, Distinct, Out;
    EventFindsRequest(w, n, 0);
    var s, k := w.ring[0].slot, w.ring[0].poster;
    var r := w.reqs[k];
    assert ReqOk(r);
    OutIs(w, s, k);
    var r' := r.(pending := r.pending - 1, out := r.out - {s});
    var w1 := w.(ring := w.ring[1..], processed := w.processed + 1, avail := w.avail + 1, reqs := w.reqs[k := r']);
    Ledger(w, w1, k, r');
    FragmentOwned(w, w1, s, k);
    if r'.pending == 0 {
      assert r'.out == {};
      if r'.needAck {
        var w2 := w1.(reqs := w.reqs[k := r'.(stage := Waiting)]);
        Ledger(w, w2, k, w2.reqs[k]);
        FragmentOwned(w, w2, s, k);
      } else {
        CompleteOk(w1, n, k);
      }
    }
  }

  lemma OutIs(w: World, s: nat, k: nat)
    requires s in w.sendq.owner && w.sendq.owner[s] == k && k < |w.reqs| && s in w.reqs[k].out
    ensures Out(w, s, k)
  {
  }

  /** Steps that only move events: between driver and ring, or of pulls. */
  lemma EventsMove(w: World, w': World, n: nat)
    requires Inv(w, n) && w'.reqs == w.reqs && w'.sendq == w.sendq
    requires w'.avail + w'.held + |w'.flying| + |w'.ring| == w.avail + w.held + |w.flying| + |w.ring|
    requires forall s, k :: (w'.flying + multiset(w'.ring))[FragDone(s, k)]
                         == (w.flying + multiset(w.ring))[FragDone(s, k)]
    ensures Inv(w', n)
  {
    hide SendqOk, Sum;
    assert forall s, j :: Out(w', s, j) <==> Out(w, s, j);
  }

  lemma PullOk(w: World, n: nat, a: Action)
    requires Inv(w, n) && Enabled(w, a) && (a.HoldPull? || a.PostPull?)
    ensures Inv(Act(w, a), n)
  {
    hide Inv;
    EventsMove(w, Act(w, a), n);
  }

  lemma DriverOk(w: World, n: nat, e: Event)
    requires Inv(w, n) && e in w.flying
    ensures Inv(Act(w, DriverWrites(e)), n)
  {
    hide Inv;
    var w' := Act(w, DriverWrites(e));
    assert w'.flying + multiset(w'.ring) == w.flying + multiset(w.ring);
    EventsMove(w, w', n);
  }

  lemma PullDoneOk(w: World, n: nat)
    requires Inv(w, n) && w.ring != [] && w.ring[0].PullDone?
    ensures Inv(Act(w, ProcessEvent), n)
  {
    hide Inv;
    assert w.ring == [w.ring[0]] + w.ring[1..];
    EventsMove(w, Act(w, ProcessEvent), n);
  }

  lemma StepOk(w: World, n: nat, a: Action)
    requires Inv(w, n) && Enabled(w, a)
    ensures Inv(Act(w, a), n)
  {
    hide Inv, PostFrags;
    match a
    case Submit(frags) => SubmitOk(w, n, frags);
    case GetEvents(k) => GetEventsOk(w, n, k);
    case GetSlots(k) => GetSlotsOk(w, n, k);
    case Setup(k, posted) => PostOk(w, n, k, posted, 0);
    case Resend(k, posted) => PostOk(w, n, k, posted, w.reqs[k].frags);
    case Ack(k) => AckOk(w, n, k);
    case HoldPull => PullOk(w, n, a);
    case PostPull => PullOk(w, n, a);
    case DriverWrites(e) => DriverOk(w, n, e);
    case ProcessEvent => if w.ring[0].FragDone? { FragmentOk(w, n); } else { PullDoneOk(w, n); }
  }

  // ---- runs ----

  /** A run takes the enabled actions; the others do nothing. */
  function After(n: nat, actions: seq<Action>): World {
    if actions == [] then Start(n)
    else
      var w := After(n, actions[..|actions| - 1]);
      var a := actions[|actions| - 1];
      if Enabled(w, a) then Act(w, a) else w
  }

  lemma {:induction false} RunOk(n: nat, actions: seq<Action>)
    ensures Inv(After(n, actions), n)
  {
    hide Inv, Act;
    if actions == [] {
      StartOk(n);
    } else {
      var w := After(n, actions[..|actions| - 1]);
      var a := actions[|actions| - 1];
      RunOk(n, actions[..|actions| - 1]);
      if Enabled(w, a) { StepOk(w, n, a); }
    }
  }

  lemma StartOk(n: nat)
    ensures Inv(Start(n), n)
  {
    UptoIs(0, n);
  }

  /** Credits, reservations and events in flight always add up to the credits of a new endpoint. */
  lemma CreditsConserved(n: nat, actions: seq<Action>)
    ensures var w := After(n, actions); w.avail + Sum(w.reqs) + w.held + |w.flying| + |w.ring| == 769
  {
    hide Act;
    RunOk(n, actions);
  }

  /** Slots of the ring that the driver may write are those released in whole batches. */
  function Released(w: World): nat {
    w.processed - w.processed % BATCH
  }

  /** Even if the driver writes all it has, events written and not released fit the ring. */
  lemma RingNeverOverflows(n: nat, actions: seq<Action>)
    ensures var w := After(n, actions); w.processed + |w.ring| + |w.flying| - Released(w) <= RING
  {
    hide Act, Sum;
    RunOk(n, actions);
  }

  /** In every run, the slot of an event in the ring is still owned by the request that posted it. */
  lemma SlotStillOwned(n: nat, actions: seq<Action>, i: nat)
    requires var w := After(n, actions); i < |w.ring| && w.ring[i].FragDone?
    ensures var w := After(n, actions);
            var s, k := w.ring[i].slot, w.ring[i].poster;
            && s in w.sendq.owner && w.sendq.owner[s] == k && k < |w.reqs|
            && s in w.reqs[k].out && w.reqs[k].stage == Sending
  {
    hide Act, Inv;
    RunOk(n, actions);
    EventFindsRequest(After(n, actions), n, i);
  }

  /** Once all requests are complete and the driver is idle, every credit and every slot is back. */
  lemma AllReturned(n: nat, actions: seq<Action>)
    requires var w := After(n, actions);
             && w.held == 0 && |w.flying| == 0 && w.ring == []
             && (forall k :: 0 <= k < |w.reqs| ==> w.reqs[k].stage == Done)
    ensures var w := After(n, actions);
            && w.avail == 769 && w.sendq.owner == map[]
            && (forall s :: 0 <= s < n ==> s in w.sendq.free)
  {
    hide Act;
    RunOk(n, actions);
    var w := After(n, actions);
    SumNone(w.reqs);
    assert forall k :: 0 <= k < |w.reqs| ==> ReqOk(w.reqs[k]) && w.reqs[k].slots == [];
  }

  lemma {:induction false} SumNone(reqs: seq<Req>)
    requires forall k :: 0 <= k < |reqs| ==> reqs[k].stage == Done
    ensures Sum(reqs) == 0
  {
    if reqs != [] { SumNone(reqs[..|reqs| - 1]); }
  }
}
