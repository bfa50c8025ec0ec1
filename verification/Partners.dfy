/**
  struct omx__partner, updated in place as the library does it.  Every method is
  proved to compute the function of Receiving or Sending it is named after; the
  entries into the library keep the invariants of both sides and say what they
  mean for the messages of the application and of the peer.
*/
module Partners {
  import opened Seqnums
  import F = Fragments
  import opened Messages
  import opened Receiving
  import opened Sending
  import E = Emission
  import R = Reception
  import A = Accounts
  import V = Arrivals

  class Partner {
    var nextSend: Seqnum
    var nextAcked: Seqnum
    var nonAcked: seq<SendReq>
    var throttled: seq<Msg>
    var delayed: seq<Msg>
    var throttlingNr: int
    var sent: seq<Msg>
    var completed: seq<nat>
    var failed: seq<nat>

    var nextMatch: Seqnum
    var nextFrag: Seqnum
    var inbox: seq<Delivery>
    var partial: seq<nat>
    var early: seq<Packet>

    /** The sessions of both directions, what the application submitted, and the peer's log. */
    ghost const mine: Session
    ghost const peer: Session
    ghost var submitted: seq<Msg>
    ghost var peerLog: seq<Msg>

    ghost function Send(): Sender
      reads this
    {
      Sender(nextSend, nextAcked, nonAcked, throttled, delayed, throttlingNr, sent, completed, failed)
    }

    ghost function Recv(): Receiver
      reads this
    {
      Receiver(nextMatch, nextFrag, inbox, partial, early)
    }

    /**
      The counters stand for true numbers, the queues are in order and within the
      window, what was delivered is the beginning of the peer's log, and what the
      application submitted is on its way in order.
    */
    ghost predicate Valid()
      reads this
    {
      && WellFormed(Recv())
      && E.SendInv(Send(), mine)
      && submitted == Users(E.Pipeline(Send()))
      && A.Accounted(Send())
      && R.RecvInv(Recv(), peer, peerLog)
      && R.InWindow(Recv(), peerLog)
    }

    /** Both counters start at one, with the session bits of their direction. */
    constructor (mine: Session, peer: Session)
      ensures Valid() && submitted == [] && peerLog == [] && inbox == [] && sent == []
      ensures this.mine == mine && this.peer == peer
    {
      nextSend, nextAcked := Wire(mine, 1), Wire(mine, 1);
      nonAcked, throttled, delayed, throttlingNr, sent, completed, failed := [], [], [], 0, [], [], [];
      nextMatch, nextFrag := Wire(peer, 1), Wire(peer, 1);
      inbox, partial, early := [], [], [];
      this.mine, this.peer, submitted, peerLog := mine, peer, [], [];
      new;
      E.WindowOf(Send(), mine, 1);
    }

    /** The peer numbers another message, within its window. */
    ghost method PeerNumbers(m: Msg)
      requires Valid() && ValidMsg(m) && |peerLog| + 2 <= R.FragN(Recv()) + WINDOW
      modifies this`peerLog
      ensures Valid() && peerLog == old(peerLog) + [m]
    {
      R.LogGrows(Recv(), peer, peerLog, peerLog + [m]);
      peerLog := peerLog + [m];
    }

    // ---- receive side ----

    /** omx__find_previous_early_packet: walk the queue from its tail. */
    method FindPreviousEarly(p: Packet) returns (at: int)
      ensures at == Place(early, p, nextMatch, |early|)
    {
      var newIndex := Seq(p.seqnum - nextMatch);
      var k := |early|;
      while k > 0
        invariant 0 <= k <= |early|
        invariant Place(early, p, nextMatch, |early|) == Place(early, p, nextMatch, k)
      {
        var current := early[k - 1];
        var currentIndex := Seq(current.seqnum - nextMatch);
        if newIndex > currentIndex {
          return k;
        }
        if newIndex == currentIndex {
          if p.kind != Medium || p.frag == current.frag {
            return -1;
          }
          if p.frag > current.frag {
            return k;
          }
        }
        k := k - 1;
      }
      at := 0;
    }

    method PostponeEarly(p: Packet, answer: Answer)
      modifies this`early
      ensures Recv() == Postpone(old(Recv()), p, answer)
    {
      var at := FindPreviousEarly(p);
      if at == -1 || answer == Refuse {
        return;
      }
      early := early[..at] + [p] + early[at..];
    }

    /** list_del of one request from the partial queue. */
    method DequeuePartial(id: nat)
      modifies this`partial
      ensures partial == Without(old(partial), id)
    {
      var k := 0;
      while k < |partial| && partial[k] != id
        invariant 0 <= k <= |partial| && partial == old(partial)
        invariant forall i :: 0 <= i < k ==> partial[i] != id
      {
        k := k + 1;
      }
      WithoutAt(partial, id, k);
      if k < |partial| {
        partial := partial[..k] + partial[k + 1..];
      }
    }

    method ProcessMediumFrag(id: nat, p: Packet)
      requires WellFormed(Recv()) && id < |inbox|
      modifies this`inbox, this`partial
      ensures Recv() == TakeFrag(old(Recv()), id, p)
    {
      var d := inbox[id];
      var isNew := d.rx.mask == {};
      if p.frag in d.rx.mask {
        return;
      }
      var rx := F.Absorb(d.rx, p.frag, p.data);
      inbox := inbox[id := d.(rx := rx)];
      if isNew {
        partial := partial + [id];
      }
      if rx.accumulated == p.msgLength {
        DequeuePartial(id);
      }
    }

    method UpdateNextFrag()
      requires WellFormed(Recv())
      modifies this`nextFrag
      ensures Recv() == UpdateFrag(old(Recv()))
    {
      if partial == [] {
        nextFrag := nextMatch;
      } else {
        nextFrag := inbox[partial[0]].seqnum;
      }
    }

    /** omx__continue_partial_request: stop at the first request at or past the packet. */
    method ContinuePartial(p: Packet)
      requires WellFormed(Recv())
      modifies this`nextFrag, this`inbox, this`partial
      ensures Recv() == Continue(old(Recv()), p)
    {
      var newIndex := Seq(p.seqnum - nextFrag);
      var k := 0;
      while k < |partial|
        invariant 0 <= k <= |partial|
        invariant Recv() == old(Recv())
        invariant FindPartial(Recv(), newIndex, 0) == FindPartial(Recv(), newIndex, k)
      {
        var reqIndex := Seq(inbox[partial[k]].seqnum - nextFrag);
        if reqIndex == newIndex {
          ProcessMediumFrag(partial[k], p);
          UpdateNextFrag();
          return;
        } else if reqIndex > newIndex {
          return;
        }
        k := k + 1;
      }
    }

    /** omx__try_match_next_recv with a request for the message. */
    method BindNext(p: Packet, owner: Owner, dest: seq<F.byte>)
      requires WellFormed(Recv()) && owner != Discarded && (owner == Unexpected ==> |dest| == BufferLength(p))
      modifies this`inbox, this`partial
      ensures Recv() == Bind(old(Recv()), p, owner, dest)
    {
      hide TakeFrag, WholeRx;
      if p.kind == Medium {
        inbox := inbox + [Delivery(p.seqnum, p.kind, p.info, owner, dest, F.Fresh(p.msgLength, dest))];
        ProcessMediumFrag(|inbox| - 1, p);
      } else {
        inbox := inbox + [Delivery(p.seqnum, p.kind, p.info, owner, dest, WholeRx(p.data, dest))];
      }
    }

    /** The handler has finished with the message: only the record stays that it was matched. */
    method RecordDropped(p: Packet)
      requires WellFormed(Recv())
      modifies this`inbox
      ensures Recv() == Drop(old(Recv()), p)
    {
      var nothing := F.Reassembly(BufferLength(p), 0, [], {}, 0);
      inbox := inbox + [Delivery(p.seqnum, p.kind, p.info, Discarded, [], nothing)];
    }

    /** omx__process_partner_ordered_recv */
    method OrderedRecv(p: Packet, answer: Answer)
      requires WellFormed(Recv())
      modifies this`nextMatch, this`nextFrag, this`inbox, this`partial
      ensures Recv() == Ordered(old(Recv()), p, answer)
    {
      hide Bind, Drop, Continue, Seq, Increase, Outcome;
      var matchIndex := Seq(p.seqnum - nextMatch);
      var fragIndex := Seq(p.seqnum - nextFrag);
      var fragIndexMax := Seq(nextMatch - nextFrag);
      if matchIndex == 0 {
        match Outcome(p, answer) {
          case Refuse => return;
          case Into(dest) => BindNext(p, Posted, dest);
          case Keep(memory) => BindNext(p, Unexpected, memory);
          case Discard => RecordDropped(p);
        }
        nextMatch := Increase(nextMatch);
        UpdateNextFrag();
      } else if p.kind == Medium && fragIndex < fragIndexMax {
        ContinuePartial(p);
      }
    }

    /** omx__process_recv once the session tests have passed and the ack is handled. */
    method ProcessRecv(p: Packet, answers: seq<Answer>)
      requires WellFormed(Recv())
      modifies this`nextMatch, this`nextFrag, this`inbox, this`partial, this`early
      ensures Recv() == Process(old(Recv()), p, answers)
    {
      var base := nextMatch;
      var fragIndex := Seq(p.seqnum - nextFrag);
      var fragIndexMax := Seq(base - nextFrag);
      if fragIndex <= fragIndexMax {
        OrderedRecv(p, Pick(answers, 0));
        if base != nextMatch {
          DrainEarly(base, Rest(answers));
        }
      } else if fragIndex <= fragIndexMax + EARLY_MAX {
        PostponeEarly(p, Pick(answers, 0));
      }
    }

    /** The loop over the early queue; entries that are taken leave the list as it is walked. */
    method DrainEarly(base: Seqnum, answers: seq<Answer>)
      requires WellFormed(Recv())
      modifies this`nextMatch, this`nextFrag, this`inbox, this`partial, this`early
      ensures Recv() == Drain(old(Recv()).(early := []), old(early), base, Seq(old(nextMatch) - base), answers)
    {
      hide Ordered, Seq;
      var indexMax := Seq(nextMatch - base);
      var left := answers;
      var k := 0;
      ghost var goal := Drain(Recv().(early := []), early, base, indexMax, answers);
      while k < |early|
        invariant 0 <= k <= |early|
        invariant WellFormed(Recv())
        invariant Drain(Recv().(early := early[..k]), early[k..], base, indexMax, left) == goal
        decreases |early| - k
      {
        var e := early[k];
        ghost var todo := early[k..];
        if Seq(e.seqnum - base) <= indexMax {
          ghost var kept := early[..k];
          early := early[..k] + early[k + 1..];
          ghost var before := Recv();
          OrderedRecv(e, Pick(left, 0));
          OrderedSkipsEarly(before, kept, e, Pick(left, 0));
          left := Rest(left);
          assert early[..k] == kept && early[k..] == todo[1..];
        } else {
          assert early[..k] + [e] == early[..k + 1] && todo[1..] == early[k + 1..];
          k := k + 1;
        }
      }
      assert early[..k] == early && early[k..] == [];
    }

    /** A posted receive takes over an unexpected message, finished or not. */
    method MatchUnexpected(id: nat, dest: seq<F.byte>)
      requires Valid() && id < |inbox| && inbox[id].owner == Unexpected
      modifies this`inbox
      ensures Valid() && Recv() == Match(old(Recv()), id, dest)
      ensures R.Extends(old(inbox), inbox) && inbox == old(inbox)[id := inbox[id]] && inbox[id].owner == Posted
      ensures inbox[id].dest == (if inbox[id].kind == Rndv then old(inbox)[id].dest else dest)
      ensures inbox[id].rx.mask == old(inbox)[id].rx.mask
      ensures |inbox[id].dest| < inbox[id].rx.msgLength ==> inbox[id].rx.xfer == |inbox[id].dest|
      ensures |inbox[id].dest| >= inbox[id].rx.msgLength ==> inbox[id].rx.xfer == inbox[id].rx.msgLength
    {
      hide R.RecvInv, R.Extends, E.SendInv, R.InWindow, A.Accounted;
      R.RecvWellFormed(Recv(), peer, peerLog);
      R.MatchInv(Recv(), peer, peerLog, id, dest);
      V.TakenOver(Recv(), peer, peerLog, id, dest);
      R.InboxLength(Recv(), peer, peerLog, id);
      R.InWindowKept(Recv(), Match(Recv(), id, dest), peerLog);
      var d := inbox[id];
      if d.kind != Rndv {
        d := d.(dest := dest, rx := F.Rebind(d.rx, dest));
      }
      inbox := inbox[id := d.(owner := Posted)];
    }

    // ---- send side ----

    /** omx__setup_isend_*, up to the post itself. */
    method SetupSend(m: Msg)
      modifies this`nextSend, this`nonAcked, this`sent
      ensures Send() == Setup(old(Send()), m)
    {
      var seqnum := nextSend;
      nextSend := Increase(nextSend);
      nonAcked := nonAcked + [SendReq(|sent|, seqnum)];
      sent := sent + [m];
    }

    /** omx__alloc_setup_isend_*, once the resources are there. */
    method AllocSetupSend(m: Msg)
      modifies this`nextSend, this`nonAcked, this`sent, this`throttled, this`throttlingNr
      ensures Send() == Allocated(old(Send()), m)
    {
      if Seq(nextSend - nextAcked) >= WINDOW {
        throttled := throttled + [m];
        throttlingNr := (throttlingNr + 1) % U32;
      } else {
        SetupSend(m);
      }
    }

    /** omx__submit_isend_*: the message joins the end of what the application has sent, wherever it waits. */
    method SubmitSend(m: Msg, ready: bool)
      requires Valid() && ValidMsg(m) && m.kind != Notify
      modifies this`nextSend, this`nonAcked, this`sent, this`throttled, this`throttlingNr, this`delayed, this`submitted
      ensures Valid() && submitted == old(submitted) + [m]
      ensures Send() == Submit(old(Send()), m, ready) && old(sent) <= sent
    {
      hide E.SendInv, R.RecvInv, R.InWindow, Allocated, Users, A.Accounted;
      E.SubmitInv(Send(), mine, m, ready);
      A.SubmitAccounted(Send(), m, ready);
      E.UsersInsert(E.Pipeline(Send()), m, []);
      assert E.Pipeline(Send()) + [m] + [] == E.Pipeline(Send()) + [m];
      E.UsersNone();
      if delayed != [] || !ready {
        delayed := delayed + [m];
      } else {
        AllocSetupSend(m);
      }
      submitted := submitted + [m];
    }

    /** omx__submit_notify: an internal message changes nothing about the application's. */
    method SubmitNotifyOf(m: Msg, ready: bool)
      requires Valid() && ValidMsg(m) && m.kind == Notify
      modifies this`nextSend, this`nonAcked, this`sent, this`throttled, this`throttlingNr, this`delayed
      ensures Valid() && Send() == SubmitNotify(old(Send()), m, ready) && old(sent) <= sent
    {
      hide E.SendInv, R.RecvInv, R.InWindow, Allocated, Users, A.Accounted;
      E.SubmitNotifyInv(Send(), mine, m, ready);
      A.SubmitAccounted(Send(), m, ready);
      if delayed != [] || !ready {
        delayed := [m] + delayed;
      } else {
        AllocSetupSend(m);
      }
    }

    /** omx__process_delayed_requests: requests leave from the head until one lacks its resources. */
    method ProcessDelayed(ready: nat)
      requires Valid()
      modifies this`nextSend, this`nonAcked, this`sent, this`throttled, this`throttlingNr, this`delayed
      ensures Valid() && Send() == Retry(old(Send()), ready) && old(sent) <= sent
    {
      hide E.SendInv, R.RecvInv, R.InWindow, Allocated, Users, A.Accounted;
      E.RetryInv(Send(), mine, ready);
      A.RetryAccounted(Send(), ready);
      var left := ready;
      while left > 0 && delayed != []
        invariant 0 <= left && Retry(Send(), left) == Retry(old(Send()), ready)
        decreases left
      {
        var m := delayed[0];
        delayed := delayed[1..];
        AllocSetupSend(m);
        left := left - 1;
      }
    }

    /** omx__process_throttling_requests */
    method ProcessThrottling(nr: nat)
      modifies this`nextSend, this`nonAcked, this`sent, this`throttled, this`throttlingNr
      ensures Send() == (var s1 := Release(old(Send()), nr);
                         s1.(throttlingNr := (old(throttlingNr) - (|old(throttled)| - |s1.throttled|)) % U32))
    {
      var count := 0;
      while nr > count && throttled != []
        invariant 0 <= count <= nr
        invariant Release(Send(), nr - count) == Release(old(Send()), nr)
        invariant count == |old(throttled)| - |throttled| && throttlingNr == old(throttlingNr)
        decreases nr - count
      {
        var m := throttled[0];
        throttled := throttled[1..];
        SetupSend(m);
        count := count + 1;
      }
      // omx__update_partner_throttling
      throttlingNr := (throttlingNr - count) % U32;
    }

    /** The loop of omx__handle_ack: complete from the head of the queue, stop at the first request not covered. */
    method CompleteAcked(ackBefore: Seqnum, newAcks: nat)
      modifies this`nextAcked, this`nonAcked, this`completed
      ensures Send() == Complete(old(Send()), ackBefore, newAcks)
    {
      hide Complete, Seq;
      while nonAcked != [] && Seq(nonAcked[0].seqnum - nextAcked) < newAcks
        invariant Complete(Send(), ackBefore, newAcks) == Complete(old(Send()), ackBefore, newAcks)
        decreases |nonAcked|
      {
        CompleteHead(Send(), ackBefore, newAcks);
        completed := completed + [nonAcked[0].id];
        nonAcked := nonAcked[1..];
      }
      CompleteNone(Send(), ackBefore, newAcks);
      nextAcked := ackBefore;
    }

    /**
      omx__handle_ack for the ack of message a: what is acked never goes back, and
      exactly the queued requests numbered before a are completed.
    */
    method HandleAckBefore(ackBefore: Seqnum, ghost a: nat)
      requires Valid() && ackBefore == Wire(mine, a) && a <= E.SentN(Send()) && E.AckRecent(Send(), a)
      modifies this`nextSend, this`nextAcked, this`nonAcked, this`throttled, this`throttlingNr, this`sent,
               this`completed
      ensures Valid() && Send() == HandleAck(old(Send()), ackBefore) && old(sent) <= sent
      ensures E.AckedN(Send()) == if a <= old(E.AckedN(Send())) then old(E.AckedN(Send())) else a
      ensures completed ==
                if a <= old(E.AckedN(Send())) then old(completed)
                else old(completed) + Ids(E.Below(old(nonAcked), a))
    {
      hide Seq, Release, Complete, E.SendInv, R.RecvInv, R.InWindow, Wire, E.AckedN, E.AckRecent, E.Below, Users,
           A.Accounted;
      E.HandleAckInv(Send(), mine, a);
      A.AckAccounted(Send(), ackBefore);
      var missingAcks := Seq(nextSend - nextAcked);
      var newAcks := Seq(ackBefore - nextAcked);
      if newAcks == 0 || newAcks > missingAcks {
        return;
      }
      CompleteAcked(ackBefore, newAcks);
      ProcessThrottling(newAcks);
    }

    /** omx__handle_nack for a pending send: at most the request that it names leaves the queue. */
    method HandleNackOf(seqnum: Seqnum)
      requires Valid()
      modifies this`nonAcked, this`failed
      ensures Valid() && Send() == HandleNack(old(Send()), seqnum)
      ensures E.AckedN(Send()) == old(E.AckedN(Send())) >= 0
      ensures Send() == if Ses(seqnum) == mine then old(E.Nacked(Send(), E.AckedN(Send()) + Seq(seqnum - nextAcked)))
                        else old(Send())
    {
      hide NackedAt, Seq, Ses, E.SendInv, R.RecvInv, R.InWindow, E.AckedN, E.Except, Users, A.Accounted;
      E.HandleNackInv(Send(), mine, seqnum);
      A.NackAccounted(Send(), seqnum);
      NackedNone(nextAcked, Seq(seqnum - nextAcked));
      if Ses(seqnum) != Ses(nextSend) {
        return;
      }
      assert nonAcked[0..] == nonAcked;
      var nackIndex := Seq(seqnum - nextAcked);
      var k := 0;
      while k < |nonAcked|
        invariant 0 <= k <= |nonAcked| && nonAcked == old(nonAcked) && failed == old(failed)
        invariant NackedAt(nonAcked, nextAcked, nackIndex) == k + NackedAt(nonAcked[k..], nextAcked, nackIndex)
      {
        var reqIndex := Seq(nonAcked[k].seqnum - nextAcked);
        NackedStep(nonAcked, nextAcked, nackIndex, k);
        if nackIndex < reqIndex {
          return;
        }
        if nackIndex == reqIndex {
          failed := failed + [nonAcked[k].id];
          nonAcked := nonAcked[..k] + nonAcked[k + 1..];
          return;
        }
        k := k + 1;
      }
    }

    /**
      omx__process_recv, whole, for a packet of message n that acks message a.
      Deliveries are only extended, in the order of the peer's log; the next number
      to ack and the number acked do not go back; the application's messages stay
      in order.  A packet of another session changes nothing.
    */
    method ReceiveMessage(p: Packet, answers: seq<Answer>, ghost n: nat, ghost a: nat)
      requires Valid()
      requires Ses(p.seqnum) == peer && Ses(p.piggyack) == mine ==>
                 && R.Carries(p, n, peer, peerLog) && R.Recent(Recv(), n)
                 && p.piggyack == Wire(mine, a) && a <= E.SentN(Send()) && E.AckRecent(Send(), a)
      modifies this`nextSend, this`nextAcked, this`nonAcked, this`throttled, this`throttlingNr, this`sent,
               this`completed, this`nextMatch, this`nextFrag, this`inbox, this`partial, this`early
      ensures Valid() && R.Extends(old(inbox), inbox) && old(sent) <= sent
      ensures old(R.FragN(Recv())) <= R.FragN(Recv()) && old(E.AckedN(Send())) <= E.AckedN(Send())
      ensures if Ses(p.seqnum) != peer || Ses(p.piggyack) != mine
              then Send() == old(Send()) && Recv() == old(Recv())
              else Send() == HandleAck(old(Send()), p.piggyack) && Recv() == Process(old(Recv()), p, answers)
      ensures Ses(p.seqnum) == peer && Ses(p.piggyack) == mine ==>
                V.Handled(old(Recv()), Recv(), peerLog, p, n, answers)
    {
      hide E.SendInv, R.RecvInv, R.InWindow, R.Extends, R.FragN, E.AckedN, R.Carries, R.Recent, E.AckRecent;
      hide HandleAck, Process, Wire, Seq, Ses, Users, E.Pipeline, A.Accounted, V.Handled;
      R.ExtendsReflexive(inbox);
      R.RecvWellFormed(Recv(), peer, peerLog);
      E.SessionOf(Send(), mine);
      if Ses(p.seqnum) != Ses(nextFrag) || Ses(p.piggyack) != Ses(nextSend) {
        return;
      }
      R.ProcessInv(Recv(), peer, peerLog, p, n, answers);
      R.InWindowKept(Recv(), Process(Recv(), p, answers), peerLog);
      V.ProcessHandled(Recv(), peer, peerLog, p, n, answers);
      HandleAckBefore(p.piggyack, a);
      ProcessRecv(p, answers);
    }
  }

  lemma {:induction false} WithoutAt(q: seq<nat>, id: nat, k: nat)
    requires k <= |q| && (forall i :: 0 <= i < k ==> q[i] != id) && (k < |q| ==> q[k] == id)
    ensures Without(q, id) == if k < |q| then q[..k] + q[k + 1..] else q
  {
    if k != 0 {
      var t := q[1..];
      WithoutAt(t, id, k - 1);
      assert Without(q, id) == [q[0]] + Without(t, id);
      if k < |q| {
        assert q[..k] + q[k + 1..] == [q[0]] + (t[..k - 1] + t[k..]);
      }
    }
  }

  /** The early queue plays no part in ordered reception. */
  lemma OrderedSkipsEarly(r: Receiver, early: seq<Packet>, p: Packet, answer: Answer)
    requires WellFormed(r)
    ensures Ordered(r.(early := early), p, answer) == Ordered(r, p, answer).(early := early)
  {
    hide Seq, Bind, Drop, Continue, Increase, Outcome;
    ContinueSkipsEarly(r, early, p);
    match Outcome(p, answer)
    case Into(dest) => BindSkipsEarly(r, early, p, Posted, dest);
    case Keep(memory) => BindSkipsEarly(r, early, p, Unexpected, memory);
    case Discard => DropSkipsEarly(r, early, p);
    case Refuse =>
  }

  lemma DropSkipsEarly(r: Receiver, early: seq<Packet>, p: Packet)
    requires WellFormed(r)
    ensures Drop(r.(early := early), p) == Drop(r, p).(early := early)
  {
  }

  lemma BindSkipsEarly(r: Receiver, early: seq<Packet>, p: Packet, owner: Owner, dest: seq<F.byte>)
    requires WellFormed(r) && owner != Discarded && (owner == Unexpected ==> |dest| == BufferLength(p))
    ensures Bind(r.(early := early), p, owner, dest) == Bind(r, p, owner, dest).(early := early)
  {
    hide WholeRx, F.Fresh, F.Absorb;
  }

  lemma ContinueSkipsEarly(r: Receiver, early: seq<Packet>, p: Packet)
    requires WellFormed(r)
    ensures Continue(r.(early := early), p) == Continue(r, p).(early := early)
  {
    hide Seq, F.Absorb;
    FindPartialSkipsEarly(r, early, Seq(p.seqnum - r.nextFrag), 0);
  }

  lemma {:induction false} FindPartialSkipsEarly(r: Receiver, early: seq<Packet>, index: nat, k: nat)
    requires WellFormed(r) && k <= |r.partial|
    ensures FindPartial(r.(early := early), index, k) == FindPartial(r, index, k)
    decreases |r.partial| - k
  {
    if k < |r.partial| { FindPartialSkipsEarly(r, early, index, k + 1); }
  }

  lemma NackedNone(nextAcked: Seqnum, nackIndex: nat)
    ensures NackedAt([], nextAcked, nackIndex) == 0
  {
  }

  lemma NackedStep(queue: seq<SendReq>, nextAcked: Seqnum, nackIndex: nat, k: nat)
    requires k < |queue|
    ensures var reqIndex := Seq(queue[k].seqnum - nextAcked);
            NackedAt(queue[k..], nextAcked, nackIndex) ==
              if nackIndex < reqIndex then |queue| - k
              else if nackIndex == reqIndex then 0
              else 1 + NackedAt(queue[k + 1..], nextAcked, nackIndex)
  {
    hide Seq;
    assert queue[k..][1..] == queue[k + 1..];
  }

  lemma CompleteNone(s: Sender, ackBefore: Seqnum, newAcks: nat)
    requires s.nonAcked == [] || Seq(s.nonAcked[0].seqnum - s.nextAcked) >= newAcks
    ensures Complete(s, ackBefore, newAcks) == s.(nextAcked := ackBefore)
  {
    assert s.nonAcked[0..] == s.nonAcked;
    assert s.completed + Ids(s.nonAcked[..0]) == s.completed;
  }

  lemma CompleteHead(s: Sender, ackBefore: Seqnum, newAcks: nat)
    requires s.nonAcked != [] && Seq(s.nonAcked[0].seqnum - s.nextAcked) < newAcks
    ensures Complete(s, ackBefore, newAcks)
         == Complete(s.(nonAcked := s.nonAcked[1..], completed := s.completed + [s.nonAcked[0].id]), ackBefore, newAcks)
  {
    hide Seq;
    var q := s.nonAcked;
    var k := AckedPrefix(q[1..], s.nextAcked, newAcks);
    assert AckedPrefix(q, s.nextAcked, newAcks) == k + 1;
    var head, rest := q[..k + 1], q[1..][..k];
    assert head[0] == q[0] && head[1..] == rest;
    assert Ids(head) == [q[0].id] + Ids(rest);
    assert s.completed + Ids(head) == (s.completed + [q[0].id]) + Ids(rest);
    assert q[k + 1..] == q[1..][k..];
  }
}
