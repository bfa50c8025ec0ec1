/**
  What the receive side does with each packet: which request takes it and with
  which buffer, which fragments it has afterwards, what waits and what is left
  alone.  Reception shows that nothing wrong happens; this shows what happens.
*/
module Arrivals {
  import opened Seqnums
  import opened Fragments
  import opened Messages
  import opened Receiving
  import opened Reception

  // ---- who takes a message ----

  /**
    What the answer has arranged for: a receive and its buffer, memory for the
    message, or nobody.  The descriptor of a rendezvous stays in the request, and a
    notify asks nobody.
  */
  ghost predicate GivenBy(d: Delivery, m: Msg, answer: Answer) {
    if m.kind == Notify then d.owner == Posted && d.dest == m.data
    else
      match answer
      case Refuse => false
      case Into(dest) => d.owner == Posted && d.dest == if m.kind == Rndv then m.data else dest
      case Keep(memory) => d.owner == Unexpected && |d.dest| == |m.data| && (m.kind == Rndv || d.dest <= memory)
      case Discard => d.owner == Discarded
  }

  /** Whether the answer lets the message be matched. */
  predicate Willing(answer: Answer, m: Msg) {
    m.kind == Notify || match answer
                        case Refuse => false
                        case Keep(memory) => m.kind == Rndv || |m.data| <= |memory|
                        case _ => true
  }

  /** The fragment of message n is there, unless the handler discarded the message. */
  ghost predicate Has(r: Receiver, n: nat, frag: nat) {
    1 <= n <= |r.inbox| && (r.inbox[n - 1].owner == Discarded || frag in r.inbox[n - 1].rx.mask)
  }

  /** A delivery gets one more fragment and is otherwise bound as before. */
  ghost predicate Gains(d: Delivery, d': Delivery, frag: nat) {
    && d'.owner == d.owner && d'.dest == d.dest
    && (if d.owner == Discarded then d' == d else d'.rx.mask == d.rx.mask + {frag})
  }

  /** Only the delivery of message n changes, and it gains the fragment. */
  ghost predicate OnlyGains(before: seq<Delivery>, after: seq<Delivery>, n: nat, frag: nat) {
    && 1 <= n <= |before| == |after|
    && Gains(before[n - 1], after[n - 1], frag)
    && forall i :: 0 <= i < |before| && i != n - 1 ==> after[i] == before[i]
  }

  /** A message that needs no more fragments has all of them. */
  lemma NothingMissing(r: Receiver, ses: Session, sent: seq<Msg>, n: nat, frag: nat)
    requires Books(r, ses, sent) && 1 <= n <= |r.inbox| && !Open(r.inbox[n - 1]) && frag < PacketCount(sent[n - 1])
    ensures Has(r, n, frag)
  {
    var d, m := r.inbox[n - 1], sent[n - 1];
    assert Faithful(d, m, ses, n);
    if d.owner != Discarded && m.kind == Medium { CompleteIffAll(d.rx, m.data); }
  }

  lemma HasGains(r: Receiver, n: nat, frag: nat)
    requires Has(r, n, frag)
    ensures OnlyGains(r.inbox, r.inbox, n, frag)
  {
    var d := r.inbox[n - 1];
    if d.owner != Discarded { assert d.rx.mask == d.rx.mask + {frag}; }
  }

  /** A later fragment of a message that is matched already. */
  lemma ContinueGains(r: Receiver, ses: Session, sent: seq<Msg>, p: Packet, n: nat)
    requires Core(r, ses, sent) && WellFormed(r) && InWindow(r, sent) && Carries(p, n, ses, sent)
    requires p.kind == Medium && FragN(r) <= n < MatchN(r)
    ensures OnlyGains(r.inbox, Continue(r, p).inbox, n, p.frag)
  {
    hide Faithful, Wire, Seq, FindPartial, ValidMsg, TakeFrag, OnlyGains, Has;
    WireDistance(ses, n, FragN(r));
    FindPartialSpec(r, ses, sent, n, 0);
    if n - 1 in r.partial {
      TakeFragGains(r, n - 1, p);
    } else {
      NothingMissing(r, ses, sent, n, p.frag);
      HasGains(r, n, p.frag);
    }
  }

  lemma TakeFragGains(r: Receiver, id: nat, p: Packet)
    requires WellFormed(r) && id < |r.inbox| && r.inbox[id].owner != Discarded
    ensures OnlyGains(r.inbox, TakeFrag(r, id, p).inbox, id + 1, p.frag)
  {
    if p.frag in r.inbox[id].rx.mask { HasGains(r, id + 1, p.frag); }
  }

  lemma OutcomeWilling(p: Packet, m: Msg, answer: Answer)
    requires IsPacketOf(p, m)
    ensures Outcome(p, answer) == Refuse <==> !Willing(answer, m)
  {
  }

  /** The first packet of the next message: the request that the answer arranged for is bound to it. */
  lemma BoundTo(r: Receiver, ses: Session, sent: seq<Msg>, p: Packet, answer: Answer)
    requires Core(r, ses, sent) && WellFormed(r) && Carries(p, MatchN(r), ses, sent)
    requires Seq(p.seqnum - r.nextMatch) == 0
    ensures !Willing(answer, sent[|r.inbox|]) ==> Ordered(r, p, answer) == r
    ensures Willing(answer, sent[|r.inbox|]) ==>
              var inbox := Ordered(r, p, answer).inbox;
              && |inbox| == |r.inbox| + 1 && r.inbox <= inbox
              && var d := inbox[|r.inbox|];
                 GivenBy(d, sent[|r.inbox|], answer) && d.rx.mask == if d.owner == Discarded then {} else {p.frag}
  {
    hide Seq, Books, WellFormed, Wire, Bind, Drop, Advance, Continue;
    var m := sent[|r.inbox|];
    OutcomeWilling(p, m, answer);
    match Outcome(p, answer)
    case Refuse =>
    case Into(dest) =>
      BindAdds(r, p, Posted, dest);
      AdvanceInbox(Bind(r, p, Posted, dest));
    case Keep(memory) =>
      BindAdds(r, p, Unexpected, memory);
      AdvanceInbox(Bind(r, p, Unexpected, memory));
    case Discard =>
      DropAdds(r, p);
      AdvanceInbox(Drop(r, p));
  }

  lemma AdvanceInbox(r: Receiver)
    requires WellFormed(r)
    ensures Advance(r).inbox == r.inbox
  {
  }

  lemma DropAdds(r: Receiver, p: Packet)
    requires WellFormed(r)
    ensures var inbox := Drop(r, p).inbox;
            && |inbox| == |r.inbox| + 1 && r.inbox <= inbox
            && inbox[|r.inbox|].owner == Discarded && inbox[|r.inbox|].rx.mask == {}
  {
  }

  lemma BindAdds(r: Receiver, p: Packet, owner: Owner, dest: seq<byte>)
    requires WellFormed(r) && owner != Discarded && (owner == Unexpected ==> |dest| == BufferLength(p))
    requires p.kind != Medium ==> p.frag == 0
    ensures var inbox := Bind(r, p, owner, dest).inbox;
            && |inbox| == |r.inbox| + 1 && r.inbox <= inbox
            && var d := inbox[|r.inbox|]; d.owner == owner && d.dest == dest && d.rx.mask == {p.frag}
  {
  }

  /** A packet of a message that is matched already, whatever its age. */
  lemma OrderedGains(r: Receiver, ses: Session, sent: seq<Msg>, p: Packet, n: nat, answer: Answer)
    requires Core(r, ses, sent) && WellFormed(r) && InWindow(r, sent) && Carries(p, n, ses, sent)
    requires FragN(r) <= n + STALE_MAX && n < MatchN(r)
    ensures OnlyGains(r.inbox, Ordered(r, p, answer).inbox, n, p.frag)
  {
    hide Faithful, Seq, Wire, Continue, Outcome, ValidMsg, OnlyGains, Has, Open;
    OrderedTests(r, ses, sent, p, n);
    if p.kind == Medium && FragN(r) <= n {
      ContinueGains(r, ses, sent, p, n);
    } else {
      NotOpen(r, ses, sent, n);
      NothingMissing(r, ses, sent, n, p.frag);
      HasGains(r, n, p.frag);
    }
  }

  lemma NotOpen(r: Receiver, ses: Session, sent: seq<Msg>, n: nat)
    requires Books(r, ses, sent) && 1 <= n < MatchN(r) && (n < FragN(r) || sent[n - 1].kind != Medium)
    ensures !Open(r.inbox[n - 1])
  {
    assert Faithful(r.inbox[n - 1], sent[n - 1], ses, n);
    if n < FragN(r) && r.partial != [] { assert n - 1 !in r.partial; }
  }

  lemma HasExtends(r: Receiver, r': Receiver, n: nat, frag: nat)
    requires Has(r, n, frag) && Extends(r.inbox, r'.inbox)
    ensures Has(r', n, frag)
  {
    assert GoesOn(r.inbox[n - 1], r'.inbox[n - 1]);
  }

  // ---- the early queue ----

  /** The packets that are too far ahead stay queued, and no others. */
  lemma {:induction false} DrainLeaves(r: Receiver, todo: seq<Packet>, base: Seqnum, indexMax: nat,
      answers: seq<Answer>)
    requires WellFormed(r)
    ensures forall e :: e in Drain(r, todo, base, indexMax, answers).early <==>
                        e in r.early || (e in todo && Seq(e.seqnum - base) > indexMax)
    decreases |todo|
  {
    hide Ordered, Seq;
    if todo != [] {
      assert todo == [todo[0]] + todo[1..];
      if Seq(todo[0].seqnum - base) <= indexMax {
        DrainLeaves(Ordered(r, todo[0], Pick(answers, 0)), todo[1..], base, indexMax, Rest(answers));
      } else {
        DrainLeaves(r.(early := r.early + [todo[0]]), todo[1..], base, indexMax, answers);
      }
    }
  }

  /** The state of the drain loop: m is the number that was next before the packet that started it. */
  ghost predicate Draining(r: Receiver, todo: seq<Packet>, m: nat, ses: Session, sent: seq<Msg>) {
    && Core(r, ses, sent) && WellFormed(r) && InWindow(r, sent)
    && m < MatchN(r) <= m + 2
    && EarlyInv(r.early + todo, m, ses, sent)
    && (forall i :: 0 <= i < |r.early| ==> m + 2 <= Num(r.early[i], m, ses))
  }

  lemma DrainStep(r: Receiver, todo: seq<Packet>, m: nat, ses: Session, sent: seq<Msg>, answer: Answer)
    requires Draining(r, todo, m, ses, sent) && todo != []
    ensures var e, n := todo[0], Num(todo[0], m, ses);
            && Carries(e, n, ses, sent) && FragN(r) <= n + STALE_MAX
            && (n <= m + 1 ==>
                  && n <= MatchN(r) && Draining(Ordered(r, e, answer), todo[1..], m, ses, sent)
                  && Extends(r.inbox, Ordered(r, e, answer).inbox))
            && (n > m + 1 ==> Draining(r.(early := r.early + [e]), todo[1..], m, ses, sent))
  {
    hide Core, WellFormed, Before, Ordered, Extends, FragN, Carries;
    var e := todo[0];
    assert (r.early + todo)[|r.early|] == e;
    assert r.early + todo == r.early + [e] + todo[1..];
    var n := Num(e, m, ses);
    FragBelowMatch(r, ses, sent);
    if n <= m + 1 {
      OrderedCore(r, ses, sent, e, n, answer);
      EarlyRemove(r.early, e, todo[1..], m, ses, sent);
      InWindowKept(r, Ordered(r, e, answer), sent);
    } else {
      CoreIgnoresEarly(r, r.early + [e], ses, sent);
    }
  }

  /** Every answer would let the message be matched. */
  ghost predicate AllWilling(answers: seq<Answer>, nr: nat, sent: seq<Msg>, n: nat) {
    nr <= |answers| && forall k :: 0 <= k < |answers| && 1 <= n <= |sent| ==> Willing(answers[k], sent[n - 1])
  }

  lemma DrainedExtends(r: Receiver, todo: seq<Packet>, m: nat, ses: Session, sent: seq<Msg>, answers: seq<Answer>)
    requires Draining(r, todo, m, ses, sent)
    ensures Extends(r.inbox, Drain(r, todo, Wire(ses, m), 1, answers).inbox)
  {
    hide Core, Extends, Drain, EarlyInv, Num;
    DrainInv(r, todo, m, ses, sent, answers);
  }

  /** The queued packets of the message just matched and of the next one are all taken, if there is memory for it. */
  lemma {:induction false} DrainTakes(r: Receiver, todo: seq<Packet>, m: nat, ses: Session, sent: seq<Msg>,
      answers: seq<Answer>)
    requires Draining(r, todo, m, ses, sent) && AllWilling(answers, |todo|, sent, m + 1)
    ensures forall e :: e in todo && Num(e, m, ses) <= m + 1 ==>
                        Has(Drain(r, todo, Wire(ses, m), 1, answers), Num(e, m, ses), e.frag)
    decreases |todo|
  {
    hide Draining, Ordered, Has, Extends, Carries, Wire;
    if todo != [] {
      var e, n := todo[0], Num(todo[0], m, ses);
      assert todo == [e] + todo[1..];
      DrainStep(r, todo, m, ses, sent, Pick(answers, 0));
      DrainSized(r, todo, m, ses, sent);
      CarriesLogged(e, n, ses, sent);
      if n <= m + 1 {
        assert Pick(answers, 0) == answers[0];
        var r1 := Ordered(r, e, Pick(answers, 0));
        OrderedHas(r, ses, sent, e, n, Pick(answers, 0));
        DrainedExtends(r1, todo[1..], m, ses, sent, Rest(answers));
        HasExtends(r1, Drain(r1, todo[1..], Wire(ses, m), 1, Rest(answers)), n, e.frag);
        DrainTakes(r1, todo[1..], m, ses, sent, Rest(answers));
      } else {
        DrainTakes(r.(early := r.early + [e]), todo[1..], m, ses, sent, answers);
      }
    }
  }

  lemma CarriesLogged(p: Packet, n: nat, ses: Session, sent: seq<Msg>)
    requires Carries(p, n, ses, sent)
    ensures 1 <= n <= |sent|
  {
  }

  lemma DrainSized(r: Receiver, todo: seq<Packet>, m: nat, ses: Session, sent: seq<Msg>)
    requires Draining(r, todo, m, ses, sent)
    ensures Core(r, ses, sent) && WellFormed(r) && InWindow(r, sent) && m < MatchN(r) <= m + 2
  {
    hide Core, EarlyInv, Num;
  }

  /** A packet at or before the next number is there afterwards, if its message can be matched. */
  lemma OrderedHas(r: Receiver, ses: Session, sent: seq<Msg>, p: Packet, n: nat, answer: Answer)
    requires Core(r, ses, sent) && WellFormed(r) && InWindow(r, sent) && Carries(p, n, ses, sent)
    requires FragN(r) <= n + STALE_MAX && n <= MatchN(r)
    requires n == MatchN(r) ==> Willing(answer, sent[n - 1])
    ensures Has(Ordered(r, p, answer), n, p.frag)
  {
    hide Core, Ordered, Seq, InWindow, WellFormed, GivenBy;
    OrderedTests(r, ses, sent, p, n);
    if n == MatchN(r) {
      BoundTo(r, ses, sent, p, answer);
    } else {
      OrderedGains(r, ses, sent, p, n, answer);
    }
  }

  // ---- where deliveries and fragments come from ----

  /** One of the answers arranged for the delivery. */
  ghost predicate FromSome(d: Delivery, m: Msg, answers: seq<Answer>) {
    (m.kind == Notify && GivenBy(d, m, Refuse)) || exists k :: 0 <= k < |answers| && GivenBy(d, m, answers[k])
  }

  /** New deliveries come from the answers; the others keep their request and its buffer. */
  ghost predicate Sourced(before: seq<Delivery>, after: seq<Delivery>, sent: seq<Msg>, answers: seq<Answer>) {
    && |before| <= |after| <= |sent|
    && (forall i :: 0 <= i < |before| ==> after[i].owner == before[i].owner && after[i].dest == before[i].dest)
    && (forall i :: |before| <= i < |after| ==> FromSome(after[i], sent[i], answers))
  }

  lemma SourcedThen(a: seq<Delivery>, b: seq<Delivery>, c: seq<Delivery>, sent: seq<Msg>, first: Answer,
      answers: seq<Answer>)
    requires Sourced(a, b, sent, [first]) && Sourced(b, c, sent, Rest(answers))
    requires first == Pick(answers, 0)
    ensures Sourced(a, c, sent, answers)
  {
    forall i | |a| <= i < |c|
      ensures FromSome(c[i], sent[i], answers)
    {
      if i < |b| {
        assert FromSome(b[i], sent[i], [first]);
        assert GivenBy(b[i], sent[i], first) <==> GivenBy(c[i], sent[i], first);
      } else {
        assert FromSome(c[i], sent[i], Rest(answers));
        if k :| 0 <= k < |Rest(answers)| && GivenBy(c[i], sent[i], Rest(answers)[k]) {
          assert answers[k + 1] == Rest(answers)[k];
        }
      }
    }
  }

  /** A fragment is new only if it comes from a packet handled now. */
  ghost predicate Made(before: seq<Delivery>, after: seq<Delivery>, packets: seq<Packet>, m: nat, ses: Session) {
    && |before| <= |after|
    && forall i, f: nat :: 0 <= i < |after| && f in after[i].rx.mask ==>
                           || (i < |before| && f in before[i].rx.mask)
                           || exists k :: 0 <= k < |packets| && Num(packets[k], m, ses) == i + 1 && packets[k].frag == f
  }

  lemma MadeThen(a: seq<Delivery>, b: seq<Delivery>, c: seq<Delivery>, packets: seq<Packet>, m: nat, ses: Session)
    requires packets != [] && Made(a, b, packets[..1], m, ses) && Made(b, c, packets[1..], m, ses)
    ensures Made(a, c, packets, m, ses)
  {
    hide Num;
    forall i, f: nat | 0 <= i < |c| && f in c[i].rx.mask && !(i < |a| && f in a[i].rx.mask)
      ensures exists k :: 0 <= k < |packets| && Num(packets[k], m, ses) == i + 1 && packets[k].frag == f
    {
      if i < |b| && f in b[i].rx.mask {
        assert packets[..1][0] == packets[0];
      } else {
        var k :| 0 <= k < |packets[1..]| && Num(packets[1..][k], m, ses) == i + 1 && packets[1..][k].frag == f;
        assert packets[k + 1] == packets[1..][k];
      }
    }
  }

  /** What one packet at or before the next number does to the deliveries. */
  lemma OrderedChanges(r: Receiver, ses: Session, sent: seq<Msg>, p: Packet, n: nat, m: nat, answer: Answer)
    requires Core(r, ses, sent) && WellFormed(r) && InWindow(r, sent) && Carries(p, n, ses, sent)
    requires FragN(r) <= n + STALE_MAX && 1 <= m <= n <= MatchN(r) && Num(p, m, ses) == n
    ensures var inbox := Ordered(r, p, answer).inbox;
            && Sourced(r.inbox, inbox, sent, [answer]) && Made(r.inbox, inbox, [p], m, ses)
            && inbox[..m - 1] == r.inbox[..m - 1]
  {
    hide Core, Ordered, Seq, InWindow, WellFormed, GivenBy, Num, Carries, Willing;
    CarriesLogged(p, n, ses, sent);
    CoreLogged(r, ses, sent);
    OrderedTests(r, ses, sent, p, n);
    var inbox := Ordered(r, p, answer).inbox;
    assert [p][0] == p && [answer][0] == answer;
    if n == MatchN(r) {
      BoundTo(r, ses, sent, p, answer);
    } else {
      OrderedGains(r, ses, sent, p, n, answer);
    }
  }

  lemma CoreLogged(r: Receiver, ses: Session, sent: seq<Msg>)
    requires Core(r, ses, sent)
    ensures |r.inbox| <= |sent|
  {
  }

  lemma {:induction false} DrainChanges(r: Receiver, todo: seq<Packet>, m: nat, ses: Session, sent: seq<Msg>,
      answers: seq<Answer>)
    requires Draining(r, todo, m, ses, sent) && 1 <= m
    ensures var inbox := Drain(r, todo, Wire(ses, m), 1, answers).inbox;
            && Sourced(r.inbox, inbox, sent, answers) && Made(r.inbox, inbox, todo, m, ses)
            && m - 1 <= |r.inbox| && inbox[..m - 1] == r.inbox[..m - 1]
    decreases |todo|
  {
    hide Draining, Ordered, Extends, Carries, Wire, Sourced, Made, Core;
    DrainSized(r, todo, m, ses, sent);
    CoreLogged(r, ses, sent);
    SourcedSame(r.inbox, sent, answers);
    MadeSame(r.inbox, todo, m, ses);
    if todo != [] {
      var e, n := todo[0], Num(todo[0], m, ses);
      DrainStep(r, todo, m, ses, sent, Pick(answers, 0));
      if n <= m + 1 {
        var r1 := Ordered(r, e, Pick(answers, 0));
        OrderedChanges(r, ses, sent, e, n, m, Pick(answers, 0));
        DrainChanges(r1, todo[1..], m, ses, sent, Rest(answers));
        var c := Drain(r1, todo[1..], Wire(ses, m), 1, Rest(answers)).inbox;
        SourcedThen(r.inbox, r1.inbox, c, sent, Pick(answers, 0), answers);
        assert todo[..1] == [e];
        MadeThen(r.inbox, r1.inbox, c, todo, m, ses);
      } else {
        DrainChanges(r.(early := r.early + [e]), todo[1..], m, ses, sent, answers);
        MadeMore(r.inbox, Drain(r, todo, Wire(ses, m), 1, answers).inbox, todo, m, ses);
      }
    }
  }

  lemma SourcedSame(inbox: seq<Delivery>, sent: seq<Msg>, answers: seq<Answer>)
    requires |inbox| <= |sent|
    ensures Sourced(inbox, inbox, sent, answers)
  {
  }

  lemma MadeSame(inbox: seq<Delivery>, packets: seq<Packet>, m: nat, ses: Session)
    ensures Made(inbox, inbox, packets, m, ses)
  {
  }

  lemma MadeMore(a: seq<Delivery>, c: seq<Delivery>, packets: seq<Packet>, m: nat, ses: Session)
    requires packets != [] && Made(a, c, packets[1..], m, ses)
    ensures Made(a, c, packets, m, ses)
  {
    hide Made, Num;
    MadeSame(a, packets[..1], m, ses);
    MadeThen(a, a, c, packets, m, ses);
  }

  // ---- a whole packet ----

  /** The queue holds this fragment of message n. */
  ghost predicate Waiting(r: Receiver, ses: Session, n: nat, frag: nat) {
    exists k :: 0 <= k < |r.early| && Num(r.early[k], MatchN(r), ses) == n && r.early[k].frag == frag
  }

  lemma ProcessIs(r: Receiver, ses: Session, sent: seq<Msg>, p: Packet, n: nat, answers: seq<Answer>)
    requires RecvInv(r, ses, sent) && WellFormed(r) && InWindow(r, sent) && Carries(p, n, ses, sent) && Recent(r, n)
    ensures n < FragN(r) || MatchN(r) + EARLY_MAX < n ==> Process(r, p, answers) == r
    ensures MatchN(r) < n <= MatchN(r) + EARLY_MAX ==> Process(r, p, answers) == Postpone(r, p, Pick(answers, 0))
    ensures FragN(r) <= n <= MatchN(r) ==>
              var r1 := Ordered(r, p, Pick(answers, 0));
              Process(r, p, answers) == if |r1.inbox| == |r.inbox| then r1
                                        else Drain(r1.(early := []), r.early, Wire(ses, MatchN(r)), 1, Rest(answers))
  {
    hide Carries, EarlyInv, Seq, Postpone, Ordered, Drain, Recent, Extends, Books, Wire;
    Classify(r, ses, sent, p, n);
    FragBelowMatch(r, ses, sent);
    if FragN(r) <= n <= MatchN(r) {
      OrderedCore(r, ses, sent, p, n, Pick(answers, 0));
      var r1 := Ordered(r, p, Pick(answers, 0));
      WireInjective(ses, MatchN(r), MatchN(r1));
      WireDistance(ses, MatchN(r) + 1, MatchN(r));
    }
  }

  /**
    A packet of a message that has been matched: it gains the fragment, unless the
    handler discarded it.  No other delivery changes, and nothing is queued.
  */
  lemma LaterPacket(r: Receiver, ses: Session, sent: seq<Msg>, p: Packet, n: nat, answers: seq<Answer>)
    requires RecvInv(r, ses, sent) && WellFormed(r) && InWindow(r, sent) && Carries(p, n, ses, sent) && Recent(r, n)
    requires n < MatchN(r)
    ensures OnlyGains(r.inbox, Process(r, p, answers).inbox, n, p.frag) && Process(r, p, answers).early == r.early
  {
    hide Ordered, Carries, EarlyInv, Postpone, Drain, Process, OnlyGains, Has, Open;
    ProcessIs(r, ses, sent, p, n, answers);
    if FragN(r) <= n {
      OrderedGains(r, ses, sent, p, n, Pick(answers, 0));
      SameLength(r.inbox, Ordered(r, p, Pick(answers, 0)).inbox, n, p.frag);
    } else {
      PacketLogged(p, n, ses, sent);
      NotOpen(r, ses, sent, n);
      NothingMissing(r, ses, sent, n, p.frag);
      HasGains(r, n, p.frag);
    }
  }

  lemma SameLength(before: seq<Delivery>, after: seq<Delivery>, n: nat, frag: nat)
    requires OnlyGains(before, after, n, frag)
    ensures |after| == |before|
  {
  }

  lemma PacketLogged(p: Packet, n: nat, ses: Session, sent: seq<Msg>)
    requires Carries(p, n, ses, sent)
    ensures 1 <= n <= |sent| && p.frag < PacketCount(sent[n - 1])
  {
  }

  /** The loop starts after the next message has been matched. */
  lemma DrainStarts(r: Receiver, ses: Session, sent: seq<Msg>, p: Packet, answer: Answer)
    requires RecvInv(r, ses, sent) && WellFormed(r) && InWindow(r, sent) && Carries(p, MatchN(r), ses, sent)
    requires Willing(answer, sent[|r.inbox|])
    ensures Seq(p.seqnum - r.nextMatch) == 0
    ensures Draining(Ordered(r, p, answer).(early := []), r.early, MatchN(r), ses, sent)
  {
    hide Carries, Seq, Wire, Num, Before, Drain, Ordered, Extends, Books, Willing, GivenBy, InWindow;
    var m := MatchN(r);
    FragBelowMatch(r, ses, sent);
    OrderedTests(r, ses, sent, p, m);
    BoundTo(r, ses, sent, p, answer);
    OrderedCore(r, ses, sent, p, m, answer);
    var r1 := Ordered(r, p, answer);
    CoreIgnoresEarly(r1, [], ses, sent);
    InWindowKept(r, r1.(early := []), sent);
    assert [] + r.early == r.early;
  }

  /** The next message cannot be matched: the packet is as good as lost. */
  lemma NextRefused(r: Receiver, ses: Session, sent: seq<Msg>, p: Packet, answers: seq<Answer>)
    requires RecvInv(r, ses, sent) && WellFormed(r) && InWindow(r, sent) && Carries(p, MatchN(r), ses, sent)
    requires !Willing(Pick(answers, 0), sent[|r.inbox|])
    ensures Process(r, p, answers) == r
  {
    hide Carries, Seq, Wire, EarlyInv, Drain, Ordered, Books, Willing, Process, Postpone;
    FragBelowMatch(r, ses, sent);
    OrderedTests(r, ses, sent, p, MatchN(r));
    BoundTo(r, ses, sent, p, Pick(answers, 0));
    ProcessIs(r, ses, sent, p, MatchN(r), answers);
  }

  /**
    The next message is matched: by the receive, the memory or the handler of the
    first answer.  Earlier deliveries stay as they are.  Of the queued packets
    exactly those at least two numbers ahead stay queued.
  */
  lemma NextPacket(r: Receiver, ses: Session, sent: seq<Msg>, p: Packet, answers: seq<Answer>)
    requires RecvInv(r, ses, sent) && WellFormed(r) && InWindow(r, sent) && Carries(p, MatchN(r), ses, sent)
    requires Willing(Pick(answers, 0), sent[|r.inbox|])
    ensures var r', k := Process(r, p, answers), |r.inbox|;
            && k + 1 <= |r'.inbox| && r'.inbox[..k] == r.inbox
            && GivenBy(r'.inbox[k], sent[k], Pick(answers, 0)) && Has(r', k + 1, p.frag)
            && Sourced(r.inbox, r'.inbox, sent, answers)
            && (forall e :: e in r'.early <==> e in r.early && Num(e, MatchN(r), ses) > MatchN(r) + 1)
  {
    hide Carries, Seq, Wire, EarlyInv, Drain, Ordered, Books, Willing, Process, Postpone, GivenBy, Draining, Made,
         FromSome;
    var m := MatchN(r);
    var first := Pick(answers, 0);
    FragBelowMatch(r, ses, sent);
    DrainStarts(r, ses, sent, p, first);
    BoundTo(r, ses, sent, p, first);
    ProcessIs(r, ses, sent, p, m, answers);
    var r1 := Ordered(r, p, first);
    var s := r1.(early := []);
    DrainChanges(s, r.early, m, ses, sent, Rest(answers));
    DrainedExtends(s, r.early, m, ses, sent, Rest(answers));
    DrainLeaves(s, r.early, Wire(ses, m), 1, Rest(answers));
    OrderedChanges(r, ses, sent, p, m, m, first) by { NumNext(p, m, ses, sent); }
    SourcedThen(r.inbox, r1.inbox, Process(r, p, answers).inbox, sent, first, answers);
    HasExtends(s, Process(r, p, answers), m, p.frag);
    GivenKept(r1.inbox[m - 1], Process(r, p, answers).inbox[m - 1], sent[m - 1], first);
  }

  lemma NumNext(p: Packet, m: nat, ses: Session, sent: seq<Msg>)
    requires Carries(p, m, ses, sent)
    ensures Num(p, m, ses) == m
  {
    NumOf(p, m, m, ses);
  }

  lemma GivenKept(d: Delivery, d': Delivery, m: Msg, answer: Answer)
    requires GivenBy(d, m, answer) && d'.owner == d.owner && d'.dest == d.dest
    ensures GivenBy(d', m, answer)
  {
  }

  /** If the memory suffices, none of the queued packets that leave the queue is lost. */
  lemma NextTakes(r: Receiver, ses: Session, sent: seq<Msg>, p: Packet, answers: seq<Answer>)
    requires RecvInv(r, ses, sent) && WellFormed(r) && InWindow(r, sent) && Carries(p, MatchN(r), ses, sent)
    requires Willing(Pick(answers, 0), sent[|r.inbox|]) && AllWilling(Rest(answers), |r.early|, sent, MatchN(r) + 1)
    ensures forall e :: e in r.early && Num(e, MatchN(r), ses) <= MatchN(r) + 1 ==>
                        Has(Process(r, p, answers), Num(e, MatchN(r), ses), e.frag)
  {
    hide Carries, Seq, Wire, EarlyInv, Drain, Ordered, Books, Willing, Process, Postpone, GivenBy, Draining, Has, Num;
    FragBelowMatch(r, ses, sent);
    DrainStarts(r, ses, sent, p, Pick(answers, 0));
    BoundTo(r, ses, sent, p, Pick(answers, 0));
    ProcessIs(r, ses, sent, p, MatchN(r), answers);
    DrainTakes(Ordered(r, p, Pick(answers, 0)).(early := []), r.early, MatchN(r), ses, sent, Rest(answers));
  }

  /** A packet that is early joins the queue, if there is memory and it is not there yet; nothing else changes. */
  lemma EarlyPacket(r: Receiver, ses: Session, sent: seq<Msg>, p: Packet, n: nat, answers: seq<Answer>)
    requires RecvInv(r, ses, sent) && WellFormed(r) && InWindow(r, sent) && Carries(p, n, ses, sent)
    requires MatchN(r) < n <= MatchN(r) + EARLY_MAX
    ensures var r' := Process(r, p, answers);
            && r' == r.(early := r'.early)
            && (forall e :: e in r'.early <==>
                            e in r.early || (e == p && Pick(answers, 0) != Refuse && !Waiting(r, ses, n, p.frag)))
  {
    hide Carries, Seq, Wire, Drain, Ordered, Books, Process, Num, Before, Place, EarlyInv;
    FragBelowMatch(r, ses, sent);
    ProcessIs(r, ses, sent, p, n, answers);
    PlaceSpec(r.early, p, n, MatchN(r), ses, sent, |r.early|);
    var at := Place(r.early, p, r.nextMatch, |r.early|);
    if at != -1 {
      NotQueued(r.early, at, p, n, MatchN(r), ses, sent);
      assert r.early == r.early[..at] + r.early[at..];
    }
  }

  lemma NotQueued(early: seq<Packet>, at: nat, p: Packet, n: nat, m: nat, ses: Session, sent: seq<Msg>)
    requires Carries(p, n, ses, sent) && m <= n <= m + EARLY_MAX && at <= |early|
    requires AllBefore(early, 0, at, p, m, ses) && AllAfter(early, at, |early|, p, m, ses)
    ensures forall k :: 0 <= k < |early| ==> !(Num(early[k], m, ses) == n && early[k].frag == p.frag)
  {
    NumOf(p, n, m, ses);
    hide Num;
    assert forall k :: 0 <= k < |early| ==> Before(early[k], p, m, ses) || Before(p, early[k], m, ses);
  }

  /** A packet further ahead is ignored. */
  lemma FarPacket(r: Receiver, ses: Session, sent: seq<Msg>, p: Packet, n: nat, answers: seq<Answer>)
    requires RecvInv(r, ses, sent) && WellFormed(r) && InWindow(r, sent) && Carries(p, n, ses, sent)
    requires MatchN(r) + EARLY_MAX < n
    ensures Process(r, p, answers) == r
  {
    FragBelowMatch(r, ses, sent);
    ProcessIs(r, ses, sent, p, n, answers);
  }

  /**
    What became of a packet of message n: its fragment joined the others of a matched
    message; or its message was matched as the first answer says, or not at all for
    lack of memory; or no delivery changed, because it is early or too far ahead.
  */
  ghost predicate Handled(r: Receiver, r': Receiver, sent: seq<Msg>, p: Packet, n: nat, answers: seq<Answer>) {
    if n < MatchN(r) then OnlyGains(r.inbox, r'.inbox, n, p.frag) && r'.early == r.early
    else if n == MatchN(r) && n <= |sent| then
      if Willing(Pick(answers, 0), sent[n - 1]) then
        r.inbox < r'.inbox && GivenBy(r'.inbox[n - 1], sent[n - 1], Pick(answers, 0)) && Has(r', n, p.frag)
      else r' == r
    else r'.inbox == r.inbox
  }

  lemma ProcessHandled(r: Receiver, ses: Session, sent: seq<Msg>, p: Packet, n: nat, answers: seq<Answer>)
    requires RecvInv(r, ses, sent) && WellFormed(r) && InWindow(r, sent) && Carries(p, n, ses, sent) && Recent(r, n)
    ensures Handled(r, Process(r, p, answers), sent, p, n, answers)
  {
    hide Process, InWindow, Carries, Recent, GivenBy, Willing, EarlyInv, Sourced, OnlyGains, Has, WellFormed, Books;
    CarriesLogged(p, n, ses, sent);
    if n < MatchN(r) {
      LaterPacket(r, ses, sent, p, n, answers);
    } else if n == MatchN(r) {
      if Willing(Pick(answers, 0), sent[n - 1]) {
        NextPacket(r, ses, sent, p, answers);
      } else {
        NextRefused(r, ses, sent, p, answers);
      }
    } else if n <= MatchN(r) + EARLY_MAX {
      EarlyPacket(r, ses, sent, p, n, answers);
    } else {
      FarPacket(r, ses, sent, p, n, answers);
    }
  }

  /**
    A receive takes over an unexpected message with the fragments it has so far.
    Its own buffer decides from now on how much is transferred.
  */
  lemma TakenOver(r: Receiver, ses: Session, sent: seq<Msg>, id: nat, dest: seq<byte>)
    requires RecvInv(r, ses, sent) && WellFormed(r) && id < |r.inbox| && r.inbox[id].owner == Unexpected
    ensures var r', m := Match(r, id, dest), sent[id];
            var d := r'.inbox[id];
            && r' == r.(inbox := r.inbox[id := d])
            && d.owner == Posted && d.rx.mask == r.inbox[id].rx.mask
            && d.dest == (if m.kind == Rndv then r.inbox[id].dest else dest)
            && d.rx.xfer == (if |d.dest| < |m.data| then |d.dest| else |m.data|)
  {
    hide EarlyInv, Wire, Holds;
    assert Faithful(r.inbox[id], sent[id], ses, id + 1);
  }

  /** With every fragment there, the message is received and waits for nothing. */
  lemma AllThere(r: Receiver, ses: Session, sent: seq<Msg>, n: nat)
    requires Books(r, ses, sent) && 1 <= n <= |r.inbox|
    requires forall frag: nat :: frag < PacketCount(sent[n - 1]) ==> Has(r, n, frag)
    ensures (r.inbox[n - 1].owner == Discarded || Received(r.inbox[n - 1], sent[n - 1])) && n - 1 !in r.partial
  {
    hide Wire, Received, FragCount, Sized, ValidMsg, InPlace, Holds;
    var d, m := r.inbox[n - 1], sent[n - 1];
    assert Faithful(d, m, ses, n);
    if d.owner != Discarded {
      if m.kind == Medium {
        CompleteIffAll(d.rx, m.data);
        forall i: nat | i < FragCount(|m.data|)
          ensures i in d.rx.mask
        {
          assert Has(r, n, i);
        }
      }
      CompleteReceived(d, m, ses, n);
    }
  }
}
