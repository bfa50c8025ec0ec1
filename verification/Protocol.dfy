/**
  Two connected endpoints and a network that loses, duplicates and reorders.
  A step is one entry into the library at one endpoint; the network remembers
  every packet ever posted and may hand any of them over at any time, or never.
*/
module Protocol {
  import opened Seqnums
  import Fragments
  import opened Messages
  import opened Receiving
  import opened Sending
  import R = Reception
  import E = Emission
  import A = Accounts

  /** One side of the connection; `session` numbers what it sends. */
  datatype Endpoint = Endpoint(
    session: Session,
    send: Sender,
    recv: Receiver,
    lastSendAcknum: nat,
    lastRecvAcknum: nat,
    submitted: seq<Msg>)       // what the application asked to send, in order

  /** A packet in the network, with the true numbers its 14-bit fields stand for. */
  datatype Flight =
    | Data(n: nat, a: nat, packet: Packet)
    | Liback(a: nat, ack: Seqnum, acknum: nat)

  datatype System = System(a: Endpoint, b: Endpoint, ab: set<Flight>, ba: set<Flight>)

  datatype Action =
    | DoSubmit(m: Msg, ready: bool)
    | DoNotify(m: Msg, ready: bool)
    | DoRetry(count: nat)
    | DoIrecv(id: nat, dest: seq<Fragments.byte>)
    | DoResend(k: nat)
    | DoLiback
    | OnData(f: Flight, answers: seq<Answer>)
    | OnForeign(p: Packet, answers: seq<Answer>)
    | OnLiback(f: Flight)
    | OnNack(seqnum: Seqnum)

  // ---- what an endpoint does ----

  /** omx__process_recv: session tests, piggybacked ack, then the packet itself. */
  function ReceivePacket(x: Endpoint, p: Packet, answers: seq<Answer>): Endpoint
    requires WellFormed(x.recv)
  {
    if Ses(p.seqnum) != Ses(x.recv.nextFrag) || Ses(p.piggyack) != Ses(x.send.nextSend) then x
    else x.(send := HandleAck(x.send, p.piggyack), recv := Process(x.recv, p, answers))
  }

  /** omx__handle_liback */
  function ReceiveLiback(x: Endpoint, ack: Seqnum, acknum: nat): Endpoint {
    if Ses(ack) != Ses(x.send.nextSend) || acknum <= x.lastRecvAcknum then x
    else x.(lastRecvAcknum := acknum, send := HandleAck(x.send, ack))
  }

  function Act(x: Endpoint, action: Action): Endpoint
    requires WellFormed(x.recv)
  {
    match action
    case DoSubmit(m, ready) => x.(send := Submit(x.send, m, ready), submitted := x.submitted + [m])
    case DoNotify(m, ready) => x.(send := SubmitNotify(x.send, m, ready))
    case DoRetry(count) => x.(send := Retry(x.send, count))
    case DoIrecv(id, dest) =>
      if id < |x.recv.inbox| && x.recv.inbox[id].owner == Unexpected then x.(recv := Match(x.recv, id, dest)) else x
    case DoResend(_) => x
    case DoLiback => x.(lastSendAcknum := (x.lastSendAcknum + 1) % U32)
    case OnData(f, answers) => if f.Data? then ReceivePacket(x, f.packet, answers) else x
    case OnForeign(p, answers) => ReceivePacket(x, p, answers)
    case OnLiback(f) => if f.Liback? then ReceiveLiback(x, f.ack, f.acknum) else x
    case OnNack(seqnum) => x.(send := HandleNack(x.send, seqnum))
  }

  /** One packet of a queued request, posted while the receive side is `recv`. */
  ghost predicate IsPost(f: Flight, send: Sender, k: nat, recv: Receiver) {
    && f.Data?
    && k < |send.nonAcked|
    && send.nonAcked[k].id < |send.sent|
    && f.n == send.nonAcked[k].id + 1
    && f.a == R.FragN(recv)
    && f.packet.seqnum == send.nonAcked[k].seqnum
    && f.packet.piggyack == recv.nextFrag
    && IsPacketOf(f.packet, send.sent[send.nonAcked[k].id])
  }

  /** What an action may put into the network; a failed post puts nothing. */
  ghost predicate MayPost(f: Flight, x: Endpoint, x': Endpoint, action: Action) {
    match action
    case DoResend(k) => IsPost(f, x.send, k, x.recv)
    case DoLiback => f == Liback(R.FragN(x.recv), x.recv.nextFrag, x'.lastSendAcknum)
    case _ =>
      exists k: nat ::
        k < |x'.send.nonAcked| && |x.send.sent| <= x'.send.nonAcked[k].id && IsPost(f, x'.send, k, x.recv)
  }

  /**
    What the application and the network may do.  The network hands over a packet
    it has, not so old that its number has come round again; or a packet of another
    session, of any age.
  */
  ghost predicate Enabled(x: Endpoint, action: Action, incoming: set<Flight>) {
    match action
    case DoSubmit(m, _) => ValidMsg(m) && m.kind != Notify
    case DoNotify(m, _) => ValidMsg(m) && m.kind == Notify
    case OnData(f, _) => f.Data? && f in incoming && R.Recent(x.recv, f.n) && E.AckRecent(x.send, f.a)
    case OnForeign(p, _) => Ses(p.seqnum) != Ses(x.recv.nextFrag) || Ses(p.piggyack) != Ses(x.send.nextSend)
    case OnLiback(f) => f.Liback? && f in incoming && E.AckRecent(x.send, f.a)
    case _ => true
  }

  ghost predicate StepAt(x: Endpoint, x': Endpoint, out: set<Flight>, out': set<Flight>, incoming: set<Flight>,
      action: Action) {
    && WellFormed(x.recv)
    && Enabled(x, action, incoming)
    && x' == Act(x, action)
    && out <= out'
    && forall f :: f in out' && f !in out ==> MayPost(f, x, x', action)
  }

  function Swap(s: System): System {
    System(s.b, s.a, s.ba, s.ab)
  }

  ghost predicate StepA(s: System, s': System) {
    s'.b == s.b && s'.ba == s.ba && exists action :: StepAt(s.a, s'.a, s.ab, s'.ab, s.ba, action)
  }

  ghost predicate Step(s: System, s': System) {
    StepA(s, s') || StepA(Swap(s), Swap(s'))
  }

  ghost predicate InitEndpoint(x: Endpoint, peer: Session) {
    && x.send == Sender(Wire(x.session, 1), Wire(x.session, 1), [], [], [], 0, [], [], [])
    && x.recv == Receiver(Wire(peer, 1), Wire(peer, 1), [], [], [])
    && x.submitted == []
  }

  ghost predicate Init(s: System) {
    InitEndpoint(s.a, s.b.session) && InitEndpoint(s.b, s.a.session) && s.ab == {} && s.ba == {}
  }

  ghost predicate Run(run: seq<System>) {
    && run != []
    && Init(run[0])
    && forall i :: 0 <= i < |run| - 1 ==> Step(run[i], run[i + 1])
  }

  // ---- the invariant ----

  ghost predicate OwnInv(x: Endpoint) {
    E.SendInv(x.send, x.session) && x.submitted == Users(E.Pipeline(x.send)) && A.Accounted(x.send)
  }

  /** Every data packet on the way carries what its number says. */
  ghost predicate DataOk(out: set<Flight>, ses: Session, sent: seq<Msg>) {
    forall f :: f in out && f.Data? ==> R.Carries(f.packet, f.n, ses, sent)
  }

  /** No ack on the way runs ahead of what was received entirely. */
  ghost predicate AcksOk(acks: set<Flight>, ses: Session, received: nat) {
    forall f :: f in acks ==> f.a <= received && (if f.Data? then f.packet.piggyack else f.ack) == Wire(ses, f.a)
  }

  /** x's sends against y's receptions. */
  ghost predicate Link(x: Endpoint, y: Endpoint, xy: set<Flight>, yx: set<Flight>) {
    && R.RecvInv(y.recv, x.session, x.send.sent)
    && E.AckedN(x.send) <= R.FragN(y.recv)
    && DataOk(xy, x.session, x.send.sent)
    && AcksOk(yx, x.session, R.FragN(y.recv))
  }

  ghost predicate Inv(s: System) {
    OwnInv(s.a) && OwnInv(s.b) && Link(s.a, s.b, s.ab, s.ba) && Link(s.b, s.a, s.ba, s.ab)
  }

  lemma InitSender(x: Endpoint)
    requires x.send == Sender(Wire(x.session, 1), Wire(x.session, 1), [], [], [], 0, [], [], []) && x.submitted == []
    ensures OwnInv(x) && E.AckedN(x.send) == 1
  {
    E.WindowOf(x.send, x.session, 1);
  }

  lemma InitReceiver(r: Receiver, ses: Session)
    requires r == Receiver(Wire(ses, 1), Wire(ses, 1), [], [], [])
    ensures R.RecvInv(r, ses, []) && R.FragN(r) == 1
  {
    hide Wire;
  }

  lemma InitLink(x: Endpoint, y: Endpoint)
    requires InitEndpoint(x, y.session) && InitEndpoint(y, x.session) && E.AckedN(x.send) == 1
    ensures Link(x, y, {}, {})
  {
    hide Wire, R.RecvInv, R.FragN, E.AckedN;
    InitReceiver(y.recv, x.session);
  }

  lemma InitInv(s: System)
    requires Init(s)
    ensures Inv(s)
  {
    hide Link, OwnInv, Wire, E.AckedN;
    InitSender(s.a);
    InitSender(s.b);
    InitLink(s.a, s.b);
    InitLink(s.b, s.a);
  }

  // ---- one step ----

  /** What one entry into the library does to the send side. */
  ghost predicate SendEvolves(x: Endpoint, x': Endpoint, acked: int) {
    && x'.session == x.session
    && OwnInv(x')
    && x.send.sent <= x'.send.sent
    && E.AckedN(x.send) <= E.AckedN(x'.send) <= acked
  }

  lemma AckEvolves(x: Endpoint, x': Endpoint, ack: Seqnum, a: nat, received: nat)
    requires OwnInv(x) && E.AckedN(x.send) <= received
    requires ack == Wire(x.session, a) && a <= received <= E.SentN(x.send) && E.AckRecent(x.send, a)
    requires x'.send == HandleAck(x.send, ack) && x'.submitted == x.submitted && x'.session == x.session
    ensures SendEvolves(x, x', received)
  {
    hide A.Accounted;
    E.HandleAckInv(x.send, x.session, a);
    A.AckAccounted(x.send, ack);
  }

  lemma ActSend(x: Endpoint, action: Action, incoming: set<Flight>, received: nat)
    requires WellFormed(x.recv) && OwnInv(x) && Enabled(x, action, incoming)
    requires E.AckedN(x.send) <= received <= E.SentN(x.send)
    requires AcksOk(incoming, x.session, received)
    ensures SendEvolves(x, Act(x, action), received)
  {
    hide E.SendInv, HandleAck, Process, Submit, SubmitNotify, Retry, HandleNack, E.AckedN, Wire, Seq, Match, Users,
         E.Pipeline, E.AckRecent, A.Accounted;
    var x' := Act(x, action);
    match action
    case DoSubmit(m, ready) =>
      E.SubmitInv(x.send, x.session, m, ready);
      UsersSnoc(E.Pipeline(x.send), m);
      A.SubmitAccounted(x.send, m, ready);
    case DoNotify(m, ready) =>
      E.SubmitNotifyInv(x.send, x.session, m, ready);
      A.SubmitAccounted(x.send, m, ready);
    case DoRetry(count) =>
      E.RetryInv(x.send, x.session, count);
      A.RetryAccounted(x.send, count);
    case OnData(f, _) =>
      if x' != x { AckEvolves(x, x', f.packet.piggyack, f.a, received); }
    case OnLiback(f) =>
      if x' != x { AckEvolves(x, x', f.ack, f.a, received); }
    case OnNack(seqnum) =>
      E.HandleNackInv(x.send, x.session, seqnum);
      NackKeeps(x.send, seqnum);
      A.NackAccounted(x.send, seqnum);
    case _ =>
  }

  lemma UsersSnoc(ms: seq<Msg>, m: Msg)
    requires m.kind != Notify
    ensures Users(ms + [m]) == Users(ms) + [m]
  {
    assert (ms + [m])[..|ms|] == ms;
  }

  lemma NackKeeps(s: Sender, seqnum: Seqnum)
    ensures HandleNack(s, seqnum).sent == s.sent && E.Pipeline(HandleNack(s, seqnum)) == E.Pipeline(s)
  {
  }

  /** What it does to the receive side, when the peer's log is `sent`. */
  lemma ActRecv(x: Endpoint, action: Action, incoming: set<Flight>, ses: Session, sent: seq<Msg>)
    requires WellFormed(x.recv) && R.RecvInv(x.recv, ses, sent) && R.InWindow(x.recv, sent)
    requires Enabled(x, action, incoming) && DataOk(incoming, ses, sent)
    ensures var r' := Act(x, action).recv;
            && R.RecvInv(r', ses, sent)
            && R.Extends(x.recv.inbox, r'.inbox)
            && R.FragN(x.recv) <= R.FragN(r')
  {
    hide R.RecvInv, R.Extends, R.FragN, HandleAck, Process, Match, R.Recent;
    R.ExtendsReflexive(x.recv.inbox);
    if action.OnData? && Act(x, action) != x {
      R.ProcessInv(x.recv, ses, sent, action.f.packet, action.f.n, action.answers);
    } else if action.DoIrecv? && action.id < |x.recv.inbox| && x.recv.inbox[action.id].owner == Unexpected {
      R.MatchInv(x.recv, ses, sent, action.id, action.dest);
    }
  }

  lemma DataGrows(out: set<Flight>, ses: Session, sent: seq<Msg>, sent': seq<Msg>)
    requires DataOk(out, ses, sent) && sent <= sent'
    ensures DataOk(out, ses, sent')
  {
    hide IsPacketOf, Wire;
    assert forall i :: 0 <= i < |sent| ==> sent'[i] == sent[i];
  }

  /** A posted packet carries its message and acks what has been received. */
  lemma PostOk(f: Flight, x: Endpoint, send: Sender, k: nat, peer: Session, peerSent: seq<Msg>)
    requires E.SendInv(send, x.session) && R.Core(x.recv, peer, peerSent) && IsPost(f, send, k, x.recv)
    ensures f.Data? && R.Carries(f.packet, f.n, x.session, send.sent)
    ensures f.a == R.FragN(x.recv) && f.packet.piggyack == Wire(peer, f.a)
  {
    hide Seq, Wire;
    assert E.Queued(send.nonAcked, x.session, E.AckedN(send), E.SentN(send));
  }

  /** Everything new in the network is true to the sender's log and to what it has received. */
  lemma PostsOk(x: Endpoint, x': Endpoint, out: set<Flight>, out': set<Flight>, incoming: set<Flight>, action: Action,
      peer: Session, peerSent: seq<Msg>)
    requires StepAt(x, x', out, out', incoming, action)
    requires OwnInv(x) && OwnInv(x') && x'.session == x.session && x.send.sent <= x'.send.sent
    requires R.Core(x.recv, peer, peerSent) && R.FragN(x.recv) <= R.FragN(x'.recv)
    requires DataOk(out, x.session, x.send.sent) && AcksOk(out, peer, R.FragN(x.recv))
    ensures DataOk(out', x.session, x'.send.sent) && AcksOk(out', peer, R.FragN(x'.recv))
  {
    hide R.Carries, Wire, Act, Enabled, E.SendInv, R.Core, R.FragN, IsPost;
    DataGrows(out, x.session, x.send.sent, x'.send.sent);
    CoreFrag(x.recv, peer, peerSent);
    forall f | f in out' && f !in out
      ensures f.Data? ==> R.Carries(f.packet, f.n, x.session, x'.send.sent)
      ensures f.a <= R.FragN(x'.recv) && (if f.Data? then f.packet.piggyack else f.ack) == Wire(peer, f.a)
    {
      assert MayPost(f, x, x', action);
      match action
      case DoResend(k) =>
        PostOk(f, x, x.send, k, peer, peerSent);
        CarriesGrows(f.packet, f.n, x.session, x.send.sent, x'.send.sent);
      case DoLiback =>
      case _ =>
        var k: nat :| k < |x'.send.nonAcked| && |x.send.sent| <= x'.send.nonAcked[k].id
            && IsPost(f, x'.send, k, x.recv);
        PostOk(f, x, x'.send, k, peer, peerSent);
    }
  }

  lemma CoreFrag(r: Receiver, ses: Session, sent: seq<Msg>)
    requires R.Core(r, ses, sent)
    ensures r.nextFrag == Wire(ses, R.FragN(r))
  {
  }

  lemma CarriesGrows(p: Packet, n: nat, ses: Session, sent: seq<Msg>, sent': seq<Msg>)
    requires R.Carries(p, n, ses, sent) && sent <= sent'
    ensures R.Carries(p, n, ses, sent')
  {
    assert sent'[n - 1] == sent[n - 1];
  }

  /** The peer's window, seen from the receiver. */
  lemma Windows(x: Endpoint, y: Endpoint)
    requires OwnInv(x) && R.RecvInv(y.recv, x.session, x.send.sent) && E.AckedN(x.send) <= R.FragN(y.recv)
    ensures R.InWindow(y.recv, x.send.sent)
    ensures R.FragN(y.recv) <= R.MatchN(y.recv) <= E.SentN(x.send)
    ensures WellFormed(y.recv)
    ensures E.AllValid(x.send.sent)
  {
    R.BooksWellFormed(y.recv, x.session, x.send.sent);
  }

  lemma StepAInv(s: System, s': System)
    requires Inv(s) && StepA(s, s')
    ensures Inv(s')
    ensures R.Extends(s.a.recv.inbox, s'.a.recv.inbox)
    ensures s.a.submitted <= s'.a.submitted
  {
    hide Inv, R.Extends, StepAt;
    var action :| StepAt(s.a, s'.a, s.ab, s'.ab, s.ba, action);
    ActionInv(s, s', action);
  }

  lemma ActionInv(s: System, s': System, action: Action)
    requires Inv(s) && s'.b == s.b && s'.ba == s.ba && StepAt(s.a, s'.a, s.ab, s'.ab, s.ba, action)
    ensures Inv(s')
    ensures R.Extends(s.a.recv.inbox, s'.a.recv.inbox)
    ensures s.a.submitted <= s'.a.submitted
  {
    hide R.RecvInv, R.Extends, DataOk, AcksOk, E.AckedN, R.FragN, Act, MayPost, Enabled, E.SendInv, R.InWindow, OwnInv;
    Windows(s.a, s.b);
    Windows(s.b, s.a);
    ActSend(s.a, action, s.ba, R.FragN(s.b.recv));
    ActRecv(s.a, action, s.ba, s.b.session, s.b.send.sent);
    RecvCore(s.a.recv, s.b.session, s.b.send.sent);
    PostsOk(s.a, s'.a, s.ab, s'.ab, s.ba, action, s.b.session, s.b.send.sent);
    OwnValid(s'.a);
    R.LogGrows(s.b.recv, s.a.session, s.a.send.sent, s'.a.send.sent);
    SubmittedGrows(s.a, action);
  }

  lemma RecvCore(r: Receiver, ses: Session, sent: seq<Msg>)
    requires R.RecvInv(r, ses, sent)
    ensures R.Core(r, ses, sent)
  {
  }

  lemma OwnValid(x: Endpoint)
    requires OwnInv(x)
    ensures E.AllValid(x.send.sent)
  {
  }

  lemma SubmittedGrows(x: Endpoint, action: Action)
    requires WellFormed(x.recv)
    ensures x.submitted <= Act(x, action).submitted
  {
  }

  /** Every step of either endpoint keeps the invariant and only extends what was delivered. */
  lemma StepInv(s: System, s': System)
    requires Inv(s) && Step(s, s')
    ensures Inv(s')
    ensures R.Extends(s.a.recv.inbox, s'.a.recv.inbox) && R.Extends(s.b.recv.inbox, s'.b.recv.inbox)
  {
    hide OwnInv, Link, R.Extends, StepA;
    R.ExtendsReflexive(s.a.recv.inbox);
    R.ExtendsReflexive(s.b.recv.inbox);
    if StepA(s, s') {
      StepAInv(s, s');
      StepOther(s, s');
    } else {
      StepAInv(Swap(s), Swap(s'));
      StepOther(Swap(s), Swap(s'));
    }
  }

  lemma StepOther(s: System, s': System)
    requires StepA(s, s')
    ensures s'.b == s.b
  {
  }

  lemma {:induction false} RunInv(run: seq<System>, i: nat)
    requires Run(run) && i < |run|
    ensures Inv(run[i])
  {
    hide Inv, Init, Step;
    if i == 0 {
      InitInv(run[0]);
    } else {
      RunInv(run, i - 1);
      assert Step(run[i - 1], run[i - 1 + 1]);
      StepInv(run[i - 1], run[i]);
    }
  }

  // ---- the theorems ----

  /** How many messages of the application are among the first k deliveries. */
  function UserRank(inbox: seq<Delivery>, k: nat): nat
    requires k <= |inbox|
  {
    if k == 0 then 0 else UserRank(inbox, k - 1) + if inbox[k - 1].kind == Notify then 0 else 1
  }

  /** A message of the sender's log is where its rank says among what the application submitted. */
  lemma {:induction false} RankOf(inbox: seq<Delivery>, ms: seq<Msg>, k: nat)
    requires k <= |inbox| && k <= |ms| && forall i :: 0 <= i < k ==> inbox[i].kind == ms[i].kind
    ensures UserRank(inbox, k) == |Users(ms[..k])|
  {
    if k != 0 {
      RankOf(inbox, ms, k - 1);
      assert ms[..k][..k - 1] == ms[..k - 1];
    }
  }

  lemma UserAt(ms: seq<Msg>, k: nat)
    requires k < |ms| && ms[k].kind != Notify
    ensures |Users(ms[..k])| < |Users(ms)| && Users(ms)[|Users(ms[..k])|] == ms[k]
  {
    hide Users;
    UsersSnoc(ms[..k], ms[k]);
    assert ms == (ms[..k] + [ms[k]]) + ms[k + 1..];
    E.UsersConcat(ms[..k] + [ms[k]], ms[k + 1..]);
  }

  /**
    Exactly once, in order: in every state of every run, the k-th delivery is the
    k-th message of the peer's log.  If it is one of the application's, it is the
    one that the application submitted at that place, whatever was delayed or
    throttled and whatever internal messages went between.  It has the message's
    bytes, unless fragments are still missing or the handler discarded it.
  */
  lemma InOrderDelivery(run: seq<System>, i: nat, k: nat)
    requires Run(run) && i < |run| && k < |run[i].b.recv.inbox|
    ensures var a, d := run[i].a, run[i].b.recv.inbox[k];
            && k < |a.send.sent|
            && var m := a.send.sent[k];
               && d.kind == m.kind && d.info == m.info && d.rx.msgLength == |m.data|
               && (d.owner == Discarded || Open(d) || R.Received(d, m))
               && (d.kind != Notify ==>
                     var j := UserRank(run[i].b.recv.inbox, k); j < |a.submitted| && a.submitted[j] == m)
  {
    hide Inv, OwnInv, R.RecvInv, R.Faithful, R.Received, Open, UserRank;
    RunInv(run, i);
    var s := run[i];
    InvParts(s);
    InboxFaithful(s.b.recv, s.a.session, s.a.send.sent);
    var d, m := s.b.recv.inbox[k], s.a.send.sent[k];
    FaithfulMeans(d, m, s.a.session, k + 1);
    if d.kind != Notify { UserOrder(s.a, s.b.recv.inbox, k); }
  }

  lemma InvParts(s: System)
    requires Inv(s)
    ensures OwnInv(s.a) && R.RecvInv(s.b.recv, s.a.session, s.a.send.sent)
  {
    hide R.RecvInv, OwnInv;
  }

  lemma InboxFaithful(r: Receiver, ses: Session, sent: seq<Msg>)
    requires R.RecvInv(r, ses, sent)
    ensures |r.inbox| <= |sent|
    ensures forall k :: 0 <= k < |r.inbox| ==>
              R.Faithful(r.inbox[k], sent[k], ses, k + 1) && r.inbox[k].kind == sent[k].kind
  {
    hide Wire, Sized, R.EarlyInv, Open;
    assert forall k :: 0 <= k < |r.inbox| ==> R.Faithful(r.inbox[k], sent[k], ses, k + 1);
  }

  lemma FaithfulMeans(d: Delivery, m: Msg, ses: Session, n: nat)
    requires R.Faithful(d, m, ses, n)
    ensures d.kind == m.kind && d.info == m.info && d.rx.msgLength == |m.data|
    ensures d.owner == Discarded || Open(d) || R.Received(d, m)
  {
    hide R.Received;
    if d.owner != Discarded && !Open(d) { R.CompleteReceived(d, m, ses, n); }
  }

  lemma UserOrder(x: Endpoint, inbox: seq<Delivery>, k: nat)
    requires OwnInv(x) && k < |inbox| <= |x.send.sent| && inbox[k].kind != Notify
    requires forall i :: 0 <= i < |inbox| ==> inbox[i].kind == x.send.sent[i].kind
    ensures UserRank(inbox, k) < |x.submitted| && x.submitted[UserRank(inbox, k)] == x.send.sent[k]
  {
    hide E.SendInv, Users, UserRank;
    var sent := x.send.sent;
    RankOf(inbox, sent, k);
    UserAt(sent, k);
    var waiting := x.send.throttled + x.send.delayed;
    E.UsersConcat(sent, waiting);
    assert E.Pipeline(x.send) == sent + waiting;
  }

  /** Deliveries are never withdrawn, reordered or repeated: later inboxes extend earlier ones. */
  lemma {:induction false} DeliveredOnce(run: seq<System>, i: nat, j: nat)
    requires Run(run) && i <= j < |run|
    ensures R.Extends(run[i].b.recv.inbox, run[j].b.recv.inbox)
    decreases j
  {
    hide R.Extends, Inv, Step, Init;
    if i == j {
      R.ExtendsReflexive(run[i].b.recv.inbox);
    } else {
      DeliveredOnce(run, i, j - 1);
      RunInv(run, j - 1);
      assert Step(run[j - 1], run[j - 1 + 1]);
      StepInv(run[j - 1], run[j]);
      R.ExtendsTransitive(run[i].b.recv.inbox, run[j - 1].b.recv.inbox, run[j].b.recv.inbox);
    }
  }

  /**
    Ack soundness: a send that an ack completed with success has been matched at
    the peer.  There the unexpected handler discarded it, or it has been received
    entirely, every fragment of it.
  */
  lemma AckSoundness(run: seq<System>, i: nat, k: nat)
    requires Run(run) && i < |run| && k < |run[i].a.send.completed|
    ensures var s := run[i]; var id := s.a.send.completed[k];
            && id < |s.b.recv.inbox| && id < |s.a.send.sent|
            && (s.b.recv.inbox[id].owner == Discarded || R.Received(s.b.recv.inbox[id], s.a.send.sent[id]))
    ensures E.AckedN(run[i].a.send) <= R.FragN(run[i].b.recv)
  {
    RunInv(run, i);
    hide Wire, Seq, E.AckedN, R.EarlyInv, R.Received, Users;
    var s := run[i];
    R.BelowFragComplete(s.b.recv, s.a.session, s.a.send.sent, s.a.send.completed[k]);
  }

  /**
    No send is lost: in every state of every run a numbered message waits for its
    ack, or was completed by an ack, or failed by a nack, and only one of these.
  */
  lemma SendsAccounted(run: seq<System>, i: nat, id: nat)
    requires Run(run) && i < |run|
    ensures var s := run[i].a.send;
            multiset(Ids(s.nonAcked))[id] + multiset(s.completed)[id] + multiset(s.failed)[id]
            == if id < |s.sent| then 1 else 0
  {
    hide A.Accounted, E.SendInv, Link;
    RunInv(run, i);
    A.OncePlaced(run[i].a.send, id);
  }

  /**
    Window and throttling over whole runs: at most a window of numbers is in
    flight, requests wait for a number only when it is full, and the messages of
    the application are numbered in submission order.
  */
  lemma WindowAndThrottling(run: seq<System>, i: nat)
    requires Run(run) && i < |run|
    ensures var s := run[i].a.send;
            && 0 <= Seq(s.nextSend - s.nextAcked) <= WINDOW
            && (s.throttled != [] ==> Seq(s.nextSend - s.nextAcked) == WINDOW)
            && s.throttlingNr == |s.throttled| % U32
            && Users(s.sent + s.throttled + s.delayed) == run[i].a.submitted
  {
    hide Wire, Users, Link, A.Accounted, Run;
    RunInv(run, i);
  }
}
