/**
  What the steps of a run achieve: acks that are handled count, deliveries get
  the buffers that were arranged for them, fragments that are handled stay, and a
  message is received once a packet of every fragment has been handled.
*/
module Deliveries {
  import opened Seqnums
  import Fragments
  import opened Messages
  import opened Receiving
  import opened Sending
  import opened Protocol
  import opened Arrivals
  import R = Reception
  import E = Emission

  /** Endpoint b takes this step. */
  ghost predicate StepB(s: System, s': System, action: Action) {
    s'.a == s.a && s'.ab == s.ab && StepAt(s.b, s'.b, s.ba, s'.ba, s.ab, action)
  }

  /** What the invariant says about the receive side of b. */
  ghost predicate RecvReady(s: System) {
    && R.RecvInv(s.b.recv, s.a.session, s.a.send.sent) && WellFormed(s.b.recv)
    && R.InWindow(s.b.recv, s.a.send.sent)
  }

  lemma Ready(s: System)
    requires Inv(s)
    ensures RecvReady(s) && E.SendInv(s.b.send, s.b.session)
    ensures R.FragN(s.a.recv) <= E.SentN(s.b.send)
  {
    hide R.RecvInv, E.SendInv, R.InWindow, E.AckedN, R.FragN;
    Windows(s.a, s.b);
    Windows(s.b, s.a);
  }

  /** A data packet from the network passes the session tests: it is processed, and so is the ack it carries. */
  lemma PacketHandled(s: System, s': System, f: Flight, answers: seq<Answer>)
    requires Inv(s) && StepB(s, s', OnData(f, answers)) && f.Data?
    ensures RecvReady(s) && R.Carries(f.packet, f.n, s.a.session, s.a.send.sent) && R.Recent(s.b.recv, f.n)
    ensures s'.b.recv == Process(s.b.recv, f.packet, answers)
    ensures f.packet.piggyack == Wire(s.b.session, f.a) && f.a <= E.SentN(s.b.send) && E.AckRecent(s.b.send, f.a)
    ensures s'.b.send == HandleAck(s.b.send, f.packet.piggyack)
  {
    hide R.RecvInv, E.SendInv, R.InWindow, E.AckedN, R.FragN, Wire, Seq, Ses, Process, HandleAck, R.Carries, R.Recent,
         E.AckRecent;
    Ready(s);
    R.RecvWellFormed(s.b.recv, s.a.session, s.a.send.sent);
    R.CarriesSeqnum(f.packet, f.n, s.a.session, s.a.send.sent);
    E.SessionOf(s.b.send, s.b.session);
    WireSession(s.a.session, f.n);
    WireSession(s.b.session, f.a);
  }

  // ---- acks ----

  /** Everything numbered before the ack is acked afterwards, and the requests that waited for it are complete. */
  ghost predicate Acked(s: Sender, s': Sender, a: nat) {
    && E.AckedN(s') == (if E.AckedN(s) < a then a else E.AckedN(s))
    && s'.completed == if E.AckedN(s) < a then s.completed + Ids(E.Below(s.nonAcked, a)) else s.completed
  }

  lemma PiggyackCounts(run: seq<System>, i: nat, f: Flight, answers: seq<Answer>)
    requires Run(run) && i + 1 < |run| && StepB(run[i], run[i + 1], OnData(f, answers)) && f.Data?
    ensures Acked(run[i].b.send, run[i + 1].b.send, f.a)
  {
    hide Inv, Run, StepB, RecvReady, E.AckedN, E.Below, HandleAck, Process, E.SendInv;
    RunInv(run, i);
    Ready(run[i]);
    PacketHandled(run[i], run[i + 1], f, answers);
    E.HandleAckInv(run[i].b.send, run[i].b.session, f.a);
  }

  /** An explicit ack counts exactly if it is the newest so far. */
  lemma LibackCounts(run: seq<System>, i: nat, f: Flight)
    requires Run(run) && i + 1 < |run| && StepB(run[i], run[i + 1], OnLiback(f)) && f.Liback?
    ensures var x, x' := run[i].b, run[i + 1].b;
            if x.lastRecvAcknum < f.acknum then Acked(x.send, x'.send, f.a) && x'.lastRecvAcknum == f.acknum
            else x' == x
  {
    hide Run, E.AckedN, E.Below, HandleAck, E.SendInv, R.RecvInv, R.FragN, Wire, E.AckRecent, OwnInv;
    RunInv(run, i);
    var s := run[i];
    Ready(s);
    E.SessionOf(s.b.send, s.b.session);
    WireSession(s.b.session, f.a);
    if s.b.lastRecvAcknum < f.acknum { E.HandleAckInv(s.b.send, s.b.session, f.a); }
  }

  // ---- buffers ----

  /**
    A delivery keeps its request and buffer from step to step.  A new one has those
    that an answer arranged for; an unexpected one may be taken over by a receive.
  */
  lemma BufferSource(run: seq<System>, i: nat, action: Action, k: nat)
    requires Run(run) && i + 1 < |run| && StepB(run[i], run[i + 1], action) && k < |run[i + 1].b.recv.inbox|
    ensures var inbox, d := run[i].b.recv.inbox, run[i + 1].b.recv.inbox[k];
            if k < |inbox| then
              || (d.owner == inbox[k].owner && d.dest == inbox[k].dest)
              || (&& action.DoIrecv? && action.id == k && inbox[k].owner == Unexpected && d.owner == Posted
                  && d.dest == if d.kind == Rndv then inbox[k].dest else action.dest)
            else
              action.OnData? && k < |run[i].a.send.sent| && FromSome(d, run[i].a.send.sent[k], action.answers)
  {
    hide Inv, Run, E.AckedN, HandleAck, Process, E.SendInv, R.RecvInv, R.InWindow, FromSome, MayPost, R.Carries,
         R.Recent, E.AckRecent, Submit, SubmitNotify, Retry, HandleNack;
    RunInv(run, i);
    var s, s' := run[i], run[i + 1];
    Ready(s);
    match action
    case OnData(f, answers) =>
      PacketHandled(s, s', f, answers);
      ProcessSourced(s.b.recv, s.a.session, s.a.send.sent, f.packet, f.n, answers);
    case OnForeign(p, answers) =>
    case DoIrecv(id, dest) =>
    case _ =>
  }

  lemma ProcessSourced(r: Receiver, ses: Session, sent: seq<Msg>, p: Packet, n: nat, answers: seq<Answer>)
    requires R.RecvInv(r, ses, sent) && WellFormed(r) && R.InWindow(r, sent) && R.Carries(p, n, ses, sent)
    requires R.Recent(r, n)
    ensures Sourced(r.inbox, Process(r, p, answers).inbox, sent, answers)
  {
    hide Process, R.InWindow, R.Carries, R.Recent, Sourced, GivenBy, Willing, Has, R.EarlyInv;
    CoreLogged(r, ses, sent);
    SourcedSame(r.inbox, sent, answers);
    if n < R.MatchN(r) {
      LaterPacket(r, ses, sent, p, n, answers);
      GainsSourced(r.inbox, Process(r, p, answers).inbox, n, p.frag, sent, answers);
    } else if n == R.MatchN(r) {
      CarriesLogged(p, n, ses, sent);
      if Willing(Pick(answers, 0), sent[n - 1]) {
        NextPacket(r, ses, sent, p, answers);
      } else {
        NextRefused(r, ses, sent, p, answers);
      }
    } else if n <= R.MatchN(r) + EARLY_MAX {
      EarlyPacket(r, ses, sent, p, n, answers);
    } else {
      FarPacket(r, ses, sent, p, n, answers);
    }
  }

  lemma GainsSourced(before: seq<Delivery>, after: seq<Delivery>, n: nat, frag: nat, sent: seq<Msg>,
      answers: seq<Answer>)
    requires OnlyGains(before, after, n, frag) && |before| <= |sent|
    ensures Sourced(before, after, sent, answers)
  {
  }

  /** A receive that takes over an unexpected message brings its own buffer. */
  lemma IrecvTakes(run: seq<System>, i: nat, id: nat, dest: seq<Fragments.byte>)
    requires Run(run) && i + 1 < |run| && StepB(run[i], run[i + 1], DoIrecv(id, dest))
    requires id < |run[i].b.recv.inbox| && run[i].b.recv.inbox[id].owner == Unexpected
    ensures var inbox, inbox' := run[i].b.recv.inbox, run[i + 1].b.recv.inbox;
            && inbox' == inbox[id := inbox'[id]] && inbox'[id].owner == Posted
            && inbox'[id].rx.mask == inbox[id].rx.mask
            && inbox'[id].dest == (if inbox[id].kind == Rndv then inbox[id].dest else dest)
  {
    hide Inv, Run, MayPost, Match, R.RecvInv, R.InWindow;
    RunInv(run, i);
    Ready(run[i]);
    var s := run[i];
    TakenOver(s.b.recv, s.a.session, s.a.send.sent, id, dest);
    R.InboxLength(s.b.recv, s.a.session, s.a.send.sent, id);
  }

  // ---- the application's sends ----

  /**
    A submission joins the end of what is on its way, a notify goes before what is
    delayed, retries move delayed messages on, a nack fails what it names, and each
    explicit ack has a number of its own.
  */
  lemma SendSteps(run: seq<System>, i: nat, action: Action)
    requires Run(run) && i + 1 < |run| && StepB(run[i], run[i + 1], action)
    ensures var s, s' := run[i].b.send, run[i + 1].b.send;
            match action
            case DoSubmit(m, ready) =>
              E.Pipeline(s') == E.Pipeline(s) + [m] && (s.delayed == [] && ready ==> s'.delayed == [])
            case DoNotify(m, ready) =>
              && E.Pipeline(s') == s.sent + s.throttled + [m] + s.delayed
              && (s.delayed == [] && ready ==> s'.delayed == [])
            case DoRetry(count) =>
              && E.Pipeline(s') == E.Pipeline(s)
              && s'.delayed == s.delayed[if count < |s.delayed| then count else |s.delayed|..]
            case OnNack(seqnum) =>
              E.AckedN(s) >= 0
              && s' == if Ses(seqnum) == run[i].b.session then E.Nacked(s, E.AckedN(s) + Seq(seqnum - s.nextAcked))
                       else s
            case DoLiback => run[i + 1].b.lastSendAcknum == (run[i].b.lastSendAcknum + 1) % U32 && s' == s
            case _ => true
  {
    hide Inv, Run, MayPost, R.RecvInv, R.InWindow, E.SendInv, E.Pipeline, Submit, SubmitNotify, Retry, HandleNack,
         E.Nacked, Seq, Ses, E.AckedN;
    RunInv(run, i);
    Ready(run[i]);
    var s, ses := run[i].b.send, run[i].b.session;
    match action
    case DoSubmit(m, ready) => E.SubmitInv(s, ses, m, ready);
    case DoNotify(m, ready) => E.SubmitNotifyInv(s, ses, m, ready);
    case DoRetry(count) => E.RetryInv(s, ses, count);
    case OnNack(seqnum) => E.HandleNackInv(s, ses, seqnum);
    case _ =>
  }

  // ---- fragments ----

  /** A packet of a message that is matched, now or before, is there afterwards. */
  lemma FragmentTaken(run: seq<System>, i: nat, f: Flight, answers: seq<Answer>)
    requires Run(run) && i + 1 < |run| && StepB(run[i], run[i + 1], OnData(f, answers)) && f.Data?
    requires f.n <= |run[i + 1].b.recv.inbox|
    ensures Has(run[i + 1].b.recv, f.n, f.packet.frag)
  {
    hide Inv, Run, StepB, Process, HandleAck, R.RecvInv, R.InWindow, R.Carries, R.Recent, GivenBy, Willing, E.AckRecent;
    RunInv(run, i);
    PacketHandled(run[i], run[i + 1], f, answers);
    var r, ses, sent := run[i].b.recv, run[i].a.session, run[i].a.send.sent;
    CarriesLogged(f.packet, f.n, ses, sent);
    ProcessHandled(r, ses, sent, f.packet, f.n, answers);
  }

  /** The j-th step hands over a packet with this fragment of message n, and the message is matched after it. */
  ghost predicate Handles(run: seq<System>, j: nat, n: nat, frag: nat) {
    && j + 1 < |run| && n <= |run[j + 1].b.recv.inbox|
    && exists f: Flight, answers ::
         f.Data? && f.n == n && f.packet.frag == frag && StepB(run[j], run[j + 1], OnData(f, answers))
  }

  ghost predicate HandledBefore(run: seq<System>, i: nat, n: nat, frag: nat) {
    exists j: nat :: j < i && Handles(run, j, n, frag)
  }

  /**
    A message is received, with every byte its buffer has room for, once a packet of
    each of its fragments has been handled since it could be matched, in any order and
    with whatever else went on; unless the handler discarded it.
  */
  lemma MessageCompletes(run: seq<System>, i: nat, n: nat)
    requires Run(run) && i < |run| && 1 <= n <= |run[i].b.recv.inbox| && n <= |run[i].a.send.sent|
    requires forall frag: nat :: frag < PacketCount(run[i].a.send.sent[n - 1]) ==> HandledBefore(run, i, n, frag)
    ensures var r, m := run[i].b.recv, run[i].a.send.sent[n - 1];
            (r.inbox[n - 1].owner == Discarded || R.Received(r.inbox[n - 1], m)) && n - 1 !in r.partial
  {
    hide Inv, Run, HandledBefore, Has, R.Received, R.RecvInv, PacketCount, R.Books;
    RunInv(run, i);
    InvParts(run[i]);
    forall frag: nat | frag < PacketCount(run[i].a.send.sent[n - 1])
      ensures Has(run[i].b.recv, n, frag)
    {
      HandledStays(run, i, n, frag);
    }
    RecvBooks(run[i].b.recv, run[i].a.session, run[i].a.send.sent);
    AllThere(run[i].b.recv, run[i].a.session, run[i].a.send.sent, n);
  }

  lemma RecvBooks(r: Receiver, ses: Session, sent: seq<Msg>)
    requires R.RecvInv(r, ses, sent)
    ensures R.Books(r, ses, sent)
  {
  }

  lemma HandledStays(run: seq<System>, i: nat, n: nat, frag: nat)
    requires Run(run) && i < |run| && HandledBefore(run, i, n, frag)
    ensures Has(run[i].b.recv, n, frag)
  {
    hide Run, StepB, Has, R.Extends;
    var j: nat :| j < i && Handles(run, j, n, frag);
    var f: Flight, answers :|
      f.Data? && f.n == n && f.packet.frag == frag && StepB(run[j], run[j + 1], OnData(f, answers));
    FragmentTaken(run, j, f, answers);
    DeliveredOnce(run, j + 1, i);
    HasExtends(run[j + 1].b.recv, run[i].b.recv, n, frag);
  }
}
