/**
  When acks are sent back: every partner with something to acknowledge is on one
  of two lists of the endpoint, delayed or immediate (libopen-mx/omx_lib.h,
  omx_ack.c, omx_recv.c).  Times are jiffies of the driver, which never go back.
*/
module AckSchedules {
  import opened Queues
  import opened Seqnums

  datatype NeedAck = NoAck | Delayed | Immediate

  /** The fields of a partner that acknowledgement uses. */
  datatype Peer = Peer(needAck: NeedAck, oldest: nat, lastAcked: nat, nextFrag: nat)

  type Peers = map<nat, Peer>

  /** A list holds exactly the partners whose need_ack names it. */
  ghost predicate Listed(peers: Peers, list: seq<nat>, need: NeedAck) {
    Distinct(list) && forall p :: p in list <==> p in peers && peers[p].needAck == need
  }

  /** A partner with unacknowledged messages is on a list. */
  ghost predicate Pending(p: Peer) {
    p.lastAcked != p.nextFrag ==> p.needAck != NoAck
  }

  ghost predicate Sorted(peers: Peers, list: seq<nat>) {
    && (forall i :: 0 <= i < |list| ==> list[i] in peers)
    && forall i, j :: 0 <= i < j < |list| ==> peers[list[i]].oldest <= peers[list[j]].oldest
  }

  /** Nothing on the list has waited for the delay. */
  ghost predicate NoneOverdue(peers: Peers, list: seq<nat>, now: nat, delay: nat) {
    forall p :: p in list && p in peers ==> now < peers[p].oldest + delay
  }

  lemma {:induction false} RemoveSorted(peers: Peers, list: seq<nat>, p: nat)
    requires Sorted(peers, list)
    ensures Sorted(peers, Remove(list, p))
    ensures forall x :: x in Remove(list, p) ==> x in list
  {
    if list != [] {
      var rest := list[1..];
      RemoveSorted(peers, rest, p);
      if list[0] != p {
        forall x | x in Remove(rest, p)
          ensures x in peers && peers[list[0]].oldest <= peers[x].oldest
        {
          assert x in rest;
          var k :| 0 <= k < |rest| && rest[k] == x;
          assert list[k + 1] == x;
        }
        var r := [list[0]] + Remove(rest, p);
        assert forall i :: 0 < i < |r| ==> r[i] == Remove(rest, p)[i - 1] && r[i] in Remove(rest, p);
      }
    }
  }

  /** The partners after acks went out to those in `sent`. */
  ghost function Acked(peers: Peers, sent: seq<nat>): Peers {
    map p | p in peers :: if p in sent then peers[p].(needAck := NoAck, lastAcked := peers[p].nextFrag) else peers[p]
  }

  /** One more ack goes out, to a partner that still needs one. */
  lemma AckedOne(peers: Peers, sent: seq<nat>, p: nat)
    requires var now := Acked(peers, sent); p in now && now[p].needAck != NoAck
    ensures p in peers && p !in sent && peers[p] == Acked(peers, sent)[p]
    ensures Acked(peers, sent)[p := peers[p].(needAck := NoAck, lastAcked := peers[p].nextFrag)]
            == Acked(peers, sent + [p])
  {
  }

  /** Only the partner at the head can be the oldest. */
  lemma HeadOldest(peers: Peers, list: seq<nat>, now: nat, delay: nat)
    requires Sorted(peers, list) && list != [] && now < peers[list[0]].oldest + delay
    ensures NoneOverdue(peers, list, now, delay)
  {
    forall p | p in list && p in peers
      ensures now < peers[p].oldest + delay
    {
      var i :| 0 <= i < |list| && list[i] == p;
    }
  }

  /** What holds of the endpoint at any time. */
  ghost predicate ScheduleOk(peers: Peers, delayed: seq<nat>, immediate: seq<nat>, latest: nat) {
    && Listed(peers, delayed, Delayed) && Listed(peers, immediate, Immediate)
    && Sorted(peers, delayed)
    && (forall p :: p in peers ==> Pending(peers[p]))
    && (forall p :: p in peers && peers[p].needAck == Delayed ==> peers[p].oldest <= latest)
  }

  lemma DelayedKeeps(peers: Peers, delayed: seq<nat>, immediate: seq<nat>, latest: nat, p: nat, now: nat)
    requires ScheduleOk(peers, delayed, immediate, latest) && p in peers && peers[p].needAck == NoAck && latest <= now
    ensures ScheduleOk(peers[p := peers[p].(needAck := Delayed, oldest := now)], delayed + [p], immediate, now)
  {
    var peers' := peers[p := peers[p].(needAck := Delayed, oldest := now)];
    assert forall i :: 0 <= i < |delayed| ==> delayed[i] in delayed && peers'[delayed[i]] == peers[delayed[i]];
  }

  lemma ImmediateKeeps(peers: Peers, delayed: seq<nat>, immediate: seq<nat>, latest: nat, p: nat)
    requires ScheduleOk(peers, delayed, immediate, latest) && p in peers && peers[p].needAck != Immediate
    ensures var peers' := peers[p := peers[p].(needAck := Immediate)];
            && ScheduleOk(peers', Remove(delayed, p), [p] + immediate, latest)
            && (peers[p].needAck == NoAck ==> ScheduleOk(peers', delayed, immediate + [p], latest))
  {
    RemoveIs(delayed, p);
    RemoveSorted(peers, delayed, p);
    var peers' := peers[p := peers[p].(needAck := Immediate)];
    SortedElsewhere(peers, peers', Remove(delayed, p), p);
    if peers[p].needAck == NoAck { SortedElsewhere(peers, peers', delayed, p); }
  }

  lemma SortedElsewhere(peers: Peers, peers': Peers, list: seq<nat>, p: nat)
    requires Sorted(peers, list) && p !in list && peers'.Keys == peers.Keys
    requires forall x :: x in peers && x != p ==> peers'[x] == peers[x]
    ensures Sorted(peers', list)
  {
    assert forall i :: 0 <= i < |list| ==> list[i] in list && peers'[list[i]] == peers[list[i]];
  }

  lemma AckKeeps(peers: Peers, delayed: seq<nat>, immediate: seq<nat>, latest: nat, p: nat)
    requires ScheduleOk(peers, delayed, immediate, latest) && p in peers
    ensures var peers' := peers[p := peers[p].(needAck := NoAck, lastAcked := peers[p].nextFrag)];
            ScheduleOk(peers', Remove(delayed, p), Remove(immediate, p), latest)
  {
    RemoveIs(delayed, p);
    RemoveIs(immediate, p);
    RemoveSorted(peers, delayed, p);
    var peers' := peers[p := peers[p].(needAck := NoAck, lastAcked := peers[p].nextFrag)];
    SortedElsewhere(peers, peers', Remove(delayed, p), p);
  }

  class AckSchedule {
    const delay: nat
    const notAckedMax: nat
    var peers: Peers
    var delayed: seq<nat>
    var immediate: seq<nat>
    var lastJiffies: nat
    /** The time of the latest call, and whether the last scan of the delayed list met no failed post. */
    ghost var latest: nat
    ghost var clean: bool

    ghost predicate Valid()
      reads this
    {
      && 0 < delay
      && ScheduleOk(peers, delayed, immediate, latest)
      && lastJiffies <= latest
      && (clean ==> NoneOverdue(peers, delayed, lastJiffies, delay))
    }

    constructor (delay: nat, notAckedMax: nat, partners: set<nat>)
      requires 0 < delay
      ensures Valid() && clean && delayed == [] && immediate == [] && peers.Keys == partners
    {
      this.delay, this.notAckedMax := delay, notAckedMax;
      peers := map p | p in partners :: Peer(NoAck, 0, 0, 0);
      delayed, immediate, lastJiffies := [], [], 0;
      latest, clean := 0, true;
    }

    /** omx__mark_partner_need_ack_delayed */
    method MarkDelayed(p: nat, now: nat)
      requires Valid() && p in peers && latest <= now
      modifies this`peers, this`delayed, this`latest
      ensures Valid() && latest == now
      ensures peers == if old(peers)[p].needAck != NoAck then old(peers)
                       else old(peers)[p := old(peers)[p].(needAck := Delayed, oldest := now)]
      ensures delayed == if old(peers)[p].needAck != NoAck then old(delayed) else old(delayed) + [p]
    {
      latest := now;
      if peers[p].needAck == NoAck {
        DelayedKeeps(peers, delayed, immediate, old(latest), p, now);
        peers := peers[p := peers[p].(needAck := Delayed, oldest := now)];
        delayed := delayed + [p];
      }
    }

    /** omx__mark_partner_need_ack_immediate: a delayed partner moves to the head of the other list. */
    method MarkImmediate(p: nat)
      requires Valid() && p in peers
      modifies this`peers, this`delayed, this`immediate
      ensures Valid() && peers == old(peers)[p := old(peers)[p].(needAck := Immediate)]
      ensures delayed == if old(peers)[p].needAck == Delayed then Remove(old(delayed), p) else old(delayed)
      ensures immediate == match old(peers)[p].needAck
                           case NoAck => old(immediate) + [p]
                           case Delayed => [p] + old(immediate)
                           case Immediate => old(immediate)
    {
      hide ScheduleOk;
      if peers[p].needAck != Immediate {
        ImmediateKeeps(peers, delayed, immediate, latest, p);
        SortedOk(peers, delayed, immediate, latest);
        if clean { StillNotOverdue(peers, delayed, lastJiffies, delay, p, peers[p].(needAck := Immediate)); }
        if peers[p].needAck == Delayed {
          delayed := Remove(delayed, p);
          immediate := [p] + immediate;
        } else {
          immediate := immediate + [p];
        }
        peers := peers[p := peers[p].(needAck := Immediate)];
      }
    }

    /** omx__mark_partner_ack_sent */
    method AckSent(p: nat)
      requires Valid() && p in peers
      modifies this`peers, this`delayed, this`immediate
      ensures Valid() && delayed == Remove(old(delayed), p) && immediate == Remove(old(immediate), p)
      ensures peers == old(peers)[p := old(peers)[p].(needAck := NoAck, lastAcked := old(peers)[p].nextFrag)]
    {
      hide ScheduleOk, Sorted, NoneOverdue;
      AckKeeps(peers, delayed, immediate, latest, p);
      SortedOk(peers, delayed, immediate, latest);
      if peers[p].needAck != Delayed { RemoveAbsent(delayed, p); }
      if peers[p].needAck != Immediate { RemoveAbsent(immediate, p); }
      if clean {
        StillNotOverdue(peers, delayed, lastJiffies, delay, p,
            peers[p].(needAck := NoAck, lastAcked := peers[p].nextFrag));
      }
      match peers[p].needAck {
        case NoAck =>
        case Delayed => delayed := Remove(delayed, p);
        case Immediate => immediate := Remove(immediate, p);
      }
      peers := peers[p := peers[p].(needAck := NoAck, lastAcked := peers[p].nextFrag)];
    }

    /** The end of omx__update_partner_next_frag_recv_seq: new messages are to be acked, at once if there are many. */
    method Advance(p: nat, nextFrag: nat, now: nat)
      requires Valid() && p in peers && latest <= now
      modifies this`peers, this`delayed, this`immediate, this`latest
      ensures Valid() && peers.Keys == old(peers.Keys)
      ensures peers[p].nextFrag == nextFrag && peers[p].lastAcked == old(peers)[p].lastAcked
      ensures nextFrag != old(peers)[p].nextFrag ==> peers[p].needAck != NoAck
      ensures nextFrag != old(peers)[p].nextFrag && Seq(nextFrag - old(peers)[p].lastAcked) >= notAckedMax ==>
                peers[p].needAck == Immediate
      ensures nextFrag != old(peers)[p].nextFrag && Seq(nextFrag - old(peers)[p].lastAcked) < notAckedMax ==>
                if old(peers)[p].needAck == NoAck then peers[p].needAck == Delayed && peers[p].oldest == now
                else peers[p].needAck == old(peers)[p].needAck && peers[p].oldest == old(peers)[p].oldest
      ensures nextFrag == old(peers)[p].nextFrag ==>
                peers == old(peers) && delayed == old(delayed) && immediate == old(immediate)
      ensures forall x :: x in peers && x != p ==> peers[x] == old(peers)[x]
    {
      if nextFrag != peers[p].nextFrag {
        if Seq(nextFrag - peers[p].lastAcked) >= notAckedMax {
          MarkImmediate(p);
        } else {
          MarkDelayed(p, now);
        }
        NextFragKeeps(peers, delayed, immediate, latest, p, nextFrag);
        peers := peers[p := peers[p].(nextFrag := nextFrag)];
      }
    }

    /** An obsolete packet: if it is the last before next_frag_recv_seq, its ack was lost and is sent again soon. */
    method Obsolete(p: nat, fragIndex: nat)
      requires Valid() && p in peers
      modifies this`peers, this`delayed, this`immediate
      ensures Valid() && peers.Keys == old(peers.Keys)
      ensures if fragIndex == Seq(-1) then peers == old(peers)[p := old(peers)[p].(needAck := Immediate)]
              else peers == old(peers) && delayed == old(delayed) && immediate == old(immediate)
    {
      if fragIndex == Seq(-1) {
        MarkImmediate(p);
      }
    }

    /** The loop over the immediate list; posts to the partners in `failing` fail. */
    method SendImmediate(failing: set<nat>) returns (sent: seq<nat>)
      requires Valid()
      modifies this`peers, this`delayed, this`immediate
      ensures Valid() && delayed == old(delayed) && sent + immediate == old(immediate)
      ensures peers == Acked(old(peers), sent) && (immediate != [] ==> immediate[0] in failing)
      ensures forall p :: p in sent ==> p !in failing
    {
      hide ScheduleOk, NoneOverdue, Acked, Sorted, Remove;
      sent := [];
      AckedNone(peers);
      while immediate != []
        invariant Valid() && delayed == old(delayed) && sent + immediate == old(immediate)
        invariant peers == Acked(old(peers), sent) && forall p :: p in sent ==> p !in failing
      {
        var p := immediate[0];
        HeadFacts(peers, immediate, delayed, immediate, latest, Immediate);
        if p in failing {
          break;
        }
        AckedOne(old(peers), sent, p);
        AckSent(p);
        sent := sent + [p];
      }
    }

    /** The loop over the delayed list, which stops at the first that is not due. */
    method SendDelayed(now: nat, failing: set<nat>) returns (sent: seq<nat>)
      requires Valid() && latest == now
      modifies this`peers, this`delayed, this`immediate, this`lastJiffies, this`clean
      ensures Valid() && immediate == old(immediate) && sent + delayed == old(delayed) && lastJiffies == now
      ensures peers == Acked(old(peers), sent)
      ensures forall p :: p in sent ==> p in old(peers) && old(peers)[p].oldest + delay <= now && p !in failing
      ensures clean || (delayed != [] && delayed[0] in failing)
    {
      hide ScheduleOk, NoneOverdue, Acked, Sorted, Remove;
      lastJiffies, clean := now, false;
      sent := [];
      AckedNone(peers);
      while delayed != []
        invariant Valid() && immediate == old(immediate) && sent + delayed == old(delayed)
        invariant lastJiffies == latest == now && !clean
        invariant peers == Acked(old(peers), sent)
        invariant forall p :: p in sent ==> p in old(peers) && old(peers)[p].oldest + delay <= now && p !in failing
      {
        var p := delayed[0];
        HeadFacts(peers, delayed, delayed, immediate, latest, Delayed);
        if now - peers[p].oldest < delay {
          HeadOldest(peers, delayed, now, delay);
          clean := true;
          return;
        }
        if p in failing {
          return;
        }
        AckedOne(old(peers), sent, p);
        AckSent(p);
        sent := sent + [p];
      }
      NothingOverdue(peers, now, delay);
      clean := true;
    }

    /**
      omx__process_partners_to_ack.  Without failed posts, the immediate list is
      emptied and no delayed ack stays overdue; when the time has changed, the acks
      that go out are exactly the immediate and the overdue ones.
    */
    method ProcessPartnersToAck(now: nat, failing: set<nat>) returns (sent: seq<nat>)
      requires Valid() && latest <= now
      modifies this
      ensures Valid() && peers == Acked(old(peers), sent)
      ensures forall p :: p in sent ==> p in old(peers) && Due(old(peers)[p], now, delay) && p !in failing
      ensures immediate != [] ==> immediate[0] in failing
      ensures failing == {} ==> immediate == [] && clean == (old(clean) || now != old(lastJiffies))
      ensures failing == {} && clean ==> NoneOverdue(peers, delayed, now, delay)
      ensures failing == {} && now != old(lastJiffies) ==>
                forall p :: p in sent <==> p in old(peers) && Due(old(peers)[p], now, delay)
    {
      hide ScheduleOk;
      ghost var start, wasDelayed, wasImmediate := peers, delayed, immediate;
      LaterOk(peers, delayed, immediate, latest, now);
      latest := now;
      sent := SendImmediate(failing);
      AllDue(start, wasDelayed, wasImmediate, now, delay, [], delayed);
      if now == lastJiffies {
        return;
      }
      ghost var middle, first := peers, sent;
      var more := SendDelayed(now, failing);
      sent := sent + more;
      AckedBoth(start, first, more);
      AllDue(start, wasDelayed, wasImmediate, now, delay, more, delayed);
      if failing == {} {
        ExactlyDue(start, wasDelayed, wasImmediate, now, delay, first, more, delayed, peers);
      }
    }
  }

  /** An ack is due: wanted at once, or delayed long enough. */
  predicate Due(p: Peer, now: nat, delay: nat) {
    p.needAck == Immediate || (p.needAck == Delayed && p.oldest + delay <= now)
  }

  lemma AckedNone(peers: Peers)
    ensures Acked(peers, []) == peers
  {
  }

  lemma AckedBoth(peers: Peers, a: seq<nat>, b: seq<nat>)
    ensures Acked(Acked(peers, a), b) == Acked(peers, a + b)
  {
  }

  lemma HeadFacts(peers: Peers, list: seq<nat>, delayed: seq<nat>, immediate: seq<nat>, latest: nat, need: NeedAck)
    requires ScheduleOk(peers, delayed, immediate, latest) && list != [] && need != NoAck
    requires list == if need == Delayed then delayed else immediate
    ensures list[0] in peers && peers[list[0]].needAck == need && Remove(list, list[0]) == list[1..]
    ensures need == Immediate ==> Remove(delayed, list[0]) == delayed
    ensures need == Delayed ==>
              && Remove(immediate, list[0]) == immediate && Sorted(peers, delayed)
              && peers[list[0]].oldest <= latest
  {
    assert list[0] in list;
    if need == Immediate { RemoveAbsent(delayed, list[0]); } else { RemoveAbsent(immediate, list[0]); }
  }

  lemma NothingOverdue(peers: Peers, now: nat, delay: nat)
    ensures NoneOverdue(peers, [], now, delay)
  {
  }

  lemma LaterOk(peers: Peers, delayed: seq<nat>, immediate: seq<nat>, latest: nat, now: nat)
    requires ScheduleOk(peers, delayed, immediate, latest) && latest <= now
    ensures ScheduleOk(peers, delayed, immediate, now)
  {
  }

  lemma StillNotOverdue(peers: Peers, list: seq<nat>, now: nat, delay: nat, p: nat, peer: Peer)
    requires NoneOverdue(peers, list, now, delay) && Sorted(peers, list) && p in peers && peer.oldest == peers[p].oldest
    ensures NoneOverdue(peers[p := peer], list, now, delay)
            && NoneOverdue(peers[p := peer], Remove(list, p), now, delay)
  {
    RemoveSorted(peers, list, p);
  }

  lemma SortedOk(peers: Peers, delayed: seq<nat>, immediate: seq<nat>, latest: nat)
    requires ScheduleOk(peers, delayed, immediate, latest)
    ensures Sorted(peers, delayed) && Listed(peers, delayed, Delayed) && Listed(peers, immediate, Immediate)
  {
  }

  lemma NextFragKeeps(peers: Peers, delayed: seq<nat>, immediate: seq<nat>, latest: nat, p: nat, nextFrag: nat)
    requires ScheduleOk(peers, delayed, immediate, latest) && p in peers && peers[p].needAck != NoAck
    ensures ScheduleOk(peers[p := peers[p].(nextFrag := nextFrag)], delayed, immediate, latest)
  {
  }

  lemma AllDue(peers: Peers, delayed: seq<nat>, immediate: seq<nat>, now: nat, delay: nat, more: seq<nat>,
      rest: seq<nat>)
    requires ScheduleOk(peers, delayed, immediate, now) && more + rest == delayed
    requires forall p :: p in more ==> p in peers && peers[p].oldest + delay <= now
    ensures forall p :: p in immediate || p in more ==> p in peers && Due(peers[p], now, delay)
  {
    assert forall p :: p in more ==> p in delayed;
  }

  lemma ExactlyDue(peers: Peers, delayed: seq<nat>, immediate: seq<nat>, now: nat, delay: nat,
                   first: seq<nat>, more: seq<nat>, rest: seq<nat>, after: Peers)
    requires ScheduleOk(peers, delayed, immediate, now) && first == immediate && more + rest == delayed
    requires after == Acked(Acked(peers, first), more) && NoneOverdue(after, rest, now, delay)
    requires forall p :: p in more ==> p in peers && peers[p].oldest + delay <= now
    ensures forall p :: p in first + more <==> p in peers && Due(peers[p], now, delay)
  {
    assert forall p :: p in delayed <==> p in more || p in rest;
    assert forall p :: p in peers ==> p in after && after[p].oldest == peers[p].oldest;
  }
}
