/**
  The queues that requests sit in (libopen-mx/omx_types.h, omx_request.h).  Every
  operation of the library that moves a request names the queues it takes it from
  and puts it into; the table at the request states says where a request belongs.
  The debug-only queues are included.
*/
module Requests {
  import opened Options
  import opened Queues

  datatype Kind = Tiny | Small | MediumSq | MediumVa | SendLarge | Recv | RecvLarge | SendSelf | RecvSelf

  /** The network bits of omx__request_state. */
  datatype Net = Net(resources: bool, seqnum: bool, sending: bool, ack: bool, reply: bool,
                     matching: bool, partial: bool, pulling: bool, unexp: bool, selfSend: bool)

  const IDLE := Net(false, false, false, false, false, false, false, false, false, false)

  datatype Req = Req(kind: Kind, partner: nat, net: Net, done: bool, zombie: bool)

  /** The endpoint queues for queue_elt. */
  datatype Queue = RecvQ | UnexpQ | NeedResourcesQ | NeedSeqnumQ | SendingQ | PartialQ
                 | LargeReplyQ | PullingQ | NonAckedQ | SelfSendQ | ReallyDoneQ

  /** The queues of a partner for partner_elt. */
  datatype PartnerQueue = NotAcked(partner: nat) | Throttled(partner: nat) | Partial(partner: nat)

  // ---- the table ----

  predicate Idle(n: Net) {
    Quiet(n) && Silent(n)
  }

  /** No bit of a send. */
  predicate Quiet(n: Net) {
    !n.resources && !n.seqnum && !n.sending && !n.ack && !n.reply
  }

  /** No bit of a receive or of a message to oneself. */
  predicate Silent(n: Net) {
    !n.matching && !n.partial && !n.pulling && !n.unexp && !n.selfSend
  }

  predicate AtMostOne(a: bool, b: bool, c: bool) {
    !(a && b) && !(a && c) && !(b && c)
  }

  /** The combinations of bits that the table lists for each type. */
  ghost predicate Row(kind: Kind, n: Net) {
    match kind
    case Tiny => Silent(n) && !n.sending && !n.reply && AtMostOne(n.resources, n.seqnum, n.ack)
    case Small => Silent(n) && !n.sending && !n.reply && AtMostOne(n.resources, n.seqnum, n.ack)
    case MediumVa => Silent(n) && !n.sending && !n.reply && AtMostOne(n.resources, n.seqnum, n.ack)
    case MediumSq => Silent(n) && !n.reply && AtMostOne(n.resources, n.seqnum, n.ack || n.sending)
    case SendLarge => Silent(n) && !n.sending && AtMostOne(n.resources, n.seqnum, n.ack || n.reply)
    case Recv => Quiet(n) && !n.pulling && !n.selfSend && (n.matching ==> !n.partial && !n.unexp)
    case RecvLarge =>
      && !n.sending && !n.reply && !n.matching && !n.selfSend
      && AtMostOne(n.resources, n.seqnum, n.ack) && AtMostOne(n.unexp, n.pulling, n.resources || n.seqnum || n.ack)
      && (n.unexp || n.pulling ==> n.partial) && (n.partial ==> n.unexp || n.pulling || n.resources)
    case SendSelf => Quiet(n) && !n.matching && !n.partial && !n.pulling && !n.unexp
    case RecvSelf => Quiet(n) && !n.matching && !n.partial && !n.pulling && !n.selfSend
  }

  /** The queue that the state dictates. */
  ghost function Home(n: Net): Queue {
    if n.resources then NeedResourcesQ
    else if n.seqnum then NeedSeqnumQ
    else if n.sending then SendingQ
    else if n.ack then NonAckedQ
    else if n.reply then LargeReplyQ
    else if n.matching then RecvQ
    else if n.unexp then UnexpQ
    else if n.pulling then PullingQ
    else if n.partial then PartialQ
    else if n.selfSend then SelfSendQ
    else ReallyDoneQ
  }

  /** The partner queue that type and state dictate. */
  ghost function PartnerHome(r: Req): Option<PartnerQueue> {
    if r.net.seqnum then Some(Throttled(r.partner))
    else if r.net.ack then Some(NotAcked(r.partner))
    else if r.kind == Recv && r.net.partial then Some(Partial(r.partner))
    else None
  }

  /** done_elt is queued for the application. */
  ghost predicate Notified(r: Req) {
    r.done && !r.zombie
  }

  /**
    A live request is in a state of the table.  With nothing left to do it waits for
    the application; before that only a buffered send or a notify may be done early.
  */
  ghost predicate Legal(r: Req) {
    && Row(r.kind, r.net)
    && (Idle(r.net) ==> Notified(r))
    && (r.done ==> Idle(r.net) || ((r.net.ack || r.net.sending) && r.kind != SendLarge))
  }

  // ---- the endpoint ----

  datatype World = World(reqs: map<nat, Req>, queue: map<Queue, seq<nat>>, pqueue: map<PartnerQueue, seq<nat>>,
                         doneq: seq<nat>, next: nat)

  function Get<K>(m: map<K, seq<nat>>, k: K): seq<nat> {
    if k in m then m[k] else []
  }

  /** What an operation does to one request. */
  datatype Move = Move(after: Option<Req>, from: Option<Queue>, to: Option<Queue>, head: bool,
                       pfrom: Option<PartnerQueue>, pto: Option<PartnerQueue>, doneDel: bool, doneAdd: bool)

  function Requeue<K>(m: map<K, seq<nat>>, id: nat, from: Option<K>, to: Option<K>, head: bool): map<K, seq<nat>> {
    var m1 := if from == None then m else m[from.value := Remove(Get(m, from.value), id)];
    if to == None then m1
    else m1[to.value := if head then [id] + Get(m1, to.value) else Get(m1, to.value) + [id]]
  }

  function Freed(reqs: map<nat, Req>, id: nat): map<nat, Req> {
    map x | x in reqs && x != id :: reqs[x]
  }

  function Apply(w: World, id: nat, m: Move): World {
    var doneq := if m.doneDel then Remove(w.doneq, id) else w.doneq;
    World(if m.after == None then Freed(w.reqs, id) else w.reqs[id := m.after.value],
          Requeue(w.queue, id, m.from, m.to, m.head),
          Requeue(w.pqueue, id, m.pfrom, m.pto, false),
          if m.doneAdd then doneq + [id] else doneq,
          w.next)
  }

  // ---- the operations on one request ----

  /** omx__notify_request_done, when the request has just left its queue. */
  function Finish(r: Req, from: Option<Queue>, pfrom: Option<PartnerQueue>): Move {
    if r.zombie then Move(None, from, None, false, pfrom, None, false, false)
    else if !r.done then Move(Some(r.(done := true)), from, Some(ReallyDoneQ), false, pfrom, None, false, true)
    else Move(Some(r), from, Some(ReallyDoneQ), false, pfrom, None, false, false)
  }

  /**
    omx__setup_isend_* and omx__setup_notify: `posted` says whether the driver took a medium fragment, `room` whether
    there may be more zombies.
  */
  function Setup(r: Req, from: Option<Queue>, pfrom: Option<PartnerQueue>, posted: bool, room: bool): Move {
    var sending := r.kind == MediumSq && posted;
    var r1 := r.(net := r.net.(ack := true, reply := r.net.reply || r.kind == SendLarge, sending := sending));
    var early := r.kind != SendLarge && room;
    Move(Some(r1.(done := r1.done || early)), from, Some(if sending then SendingQ else NonAckedQ), false,
         pfrom, Some(NotAcked(r.partner)), false, early && !r1.zombie)
  }

  /**
    omx__alloc_setup_isend_* and omx__alloc_setup_notify, once the resources are there: `full` says whether the
    window is.
  */
  function AllocSetup(r: Req, from: Option<Queue>, full: bool, posted: bool, room: bool): Move {
    if full then Move(Some(r.(net := r.net.(seqnum := true))), from, Some(NeedSeqnumQ), false, None,
        Some(Throttled(r.partner)), false, false)
    else Setup(r, from, None, posted, room)
  }

  /** A request waits for resources. */
  function Delay(r: Req, from: Option<Queue>, head: bool): Move {
    Move(Some(r.(net := r.net.(resources := true))), from, Some(NeedResourcesQ), head, None, None, false, false)
  }

  /** omx__submit_pull: `length` to transfer, and whether the pull could be posted. */
  function SubmitPull(r: Req, from: Option<Queue>, length: nat, posted: bool): Move {
    if length != 0 then
      if posted then Move(Some(r.(net := r.net.(pulling := true))), from, Some(PullingQ), false, None, None, false,
          false)
      else Delay(r, from, false)
    else Delay(r.(net := r.net.(partial := false)), from, true)
  }

  /** Events that concern one request; `full`, `posted` and so on are what the operation finds. */
  datatype Event =
    | Retry(ready: bool, full: bool, posted: bool, room: bool)
    | Unthrottle(posted: bool, room: bool)
    | Resend(posted: bool)
    | Acked(ok: bool)
    | FragsDone
    | Reply
    | MatchedByTiny(peer: nat)
    | MatchedByMedium(peer: nat, whole: bool)
    | MatchedByRndv(peer: nat, length: nat, posted: bool)
    | Fragment(last: bool)
    | MatchedByIrecv(length: nat, posted: bool)
    | PullDone(delayed: bool, full: bool, room: bool)
    | SelfMatched
    | Cancel(free: bool)
    | Test
    | Forget

  /** When the source performs the operation: by type and state of the request, and the queue it found it through. */
  ghost predicate Enabled(r: Req, e: Event) {
    match e
    case Retry(_, _, _, _) => r.net.resources
    case Unthrottle(_, _) => r.net.seqnum
    case Resend(_) => r.net.ack && !r.net.sending
    case Acked(_) => r.net.ack
    case FragsDone => r.net.sending
    case Reply => r.kind == SendLarge && r.net.reply
    case MatchedByTiny(_) => r.net.matching
    case MatchedByMedium(_, _) => r.net.matching
    case MatchedByRndv(_, _, _) => r.net.matching
    case Fragment(_) => r.kind == Recv && r.net.partial
    case MatchedByIrecv(_, _) => r.net.unexp
    case PullDone(_, _, _) => r.net.pulling
    case SelfMatched => r.net.selfSend
    case Cancel(_) => r.kind == Recv && r.net.matching && !r.zombie
    case Test => r.done && !r.zombie
    case Forget => !r.zombie
  }

  /** omx__mark_request_acked, after the request left the partner's queue. */
  function MarkAcked(r: Req, ok: bool): Move {
    var p := Some(NotAcked(r.partner));
    var r1 := r.(net := r.net.(ack := false));
    match r.kind
    case MediumSq =>
      if r.net.sending then Move(Some(r1), None, None, false, p, None, false, false)
      else Finish(r1, Some(NonAckedQ), p)
    case SendLarge =>
      if !ok then Finish(r1.(net := r1.net.(reply := false)), Some(NonAckedQ), p)
      else if r.net.reply then Move(Some(r1), Some(NonAckedQ), Some(LargeReplyQ), false, p, None, false, false)
      else Finish(r1, Some(NonAckedQ), p)
    case _ => Finish(r1, Some(NonAckedQ), p)
  }

  function Perform(r: Req, e: Event): Move {
    match e
    case Retry(ready, full, posted, room) =>
      var r1 := r.(net := r.net.(resources := false));
      if r.kind == RecvLarge && r.net.partial then
        if ready then Move(Some(r1.(net := r1.net.(pulling := true))), Some(NeedResourcesQ), Some(PullingQ), false,
            None, None, false, false)
        else Delay(r1, Some(NeedResourcesQ), true)
      else if ready || r.kind == Tiny || r.kind == RecvLarge then AllocSetup(r1, Some(NeedResourcesQ), full, posted,
          room)
      else Delay(r1, Some(NeedResourcesQ), true)
    case Unthrottle(posted, room) =>
      Setup(r.(net := r.net.(seqnum := false)), Some(NeedSeqnumQ), Some(Throttled(r.partner)), posted, room)
    case Resend(posted) =>
      var sending := r.kind == MediumSq && posted;
      Move(Some(r.(net := r.net.(sending := sending))), Some(NonAckedQ),
          Some(if sending then SendingQ else NonAckedQ), false,
           None, None, false, false)
    case Acked(ok) => MarkAcked(r, ok)
    case FragsDone =>
      var r1 := r.(net := r.net.(sending := false));
      if r.net.ack then Move(Some(r1), Some(SendingQ), Some(NonAckedQ), false, None, None, false, false)
      else Finish(r1, Some(SendingQ), None)
    case Reply =>
      var r1 := r.(net := r.net.(reply := false));
      if r.net.ack then Move(Some(r1), None, None, false, None, None, false, false)
      else Finish(r1, Some(LargeReplyQ), None)
    case MatchedByTiny(peer) => Finish(r.(partner := peer, net := r.net.(matching := false)), Some(RecvQ), None)
    case MatchedByMedium(peer, whole) =>
      var r1 := r.(partner := peer, net := r.net.(matching := false));
      if whole then Finish(r1, Some(RecvQ), None)
      else Move(Some(r1.(net := r1.net.(partial := true))), Some(RecvQ), Some(PartialQ), false, None,
          Some(Partial(peer)), false, false)
    case MatchedByRndv(peer, length, posted) =>
      SubmitPull(r.(kind := RecvLarge, partner := peer, net := r.net.(matching := false, partial := true)),
          Some(RecvQ), length, posted)
    case Fragment(last) =>
      if !last then Move(Some(r), None, None, false, None, None, false, false)
      else
        var r1 := r.(net := r.net.(partial := false));
        if r.net.unexp then Move(Some(r1), None, None, false, Some(Partial(r.partner)), None, false, false)
        else Finish(r1, Some(PartialQ), Some(Partial(r.partner)))
    case MatchedByIrecv(length, posted) =>
      var r1 := r.(net := r.net.(unexp := false));
      if r.kind == RecvLarge then SubmitPull(r1, Some(UnexpQ), length, posted)
      else if r.net.partial then Move(Some(r1), Some(UnexpQ), Some(PartialQ), false, None, None, false, false)
      else Finish(r1, Some(UnexpQ), None)
    case PullDone(delayed, full, room) =>
      var r1 := r.(net := r.net.(pulling := false, partial := false));
      if delayed then Delay(r1, Some(PullingQ), true) else AllocSetup(r1, Some(PullingQ), full, false, room)
    case SelfMatched => Finish(r.(net := r.net.(selfSend := false)), Some(SelfSendQ), None)
    case Cancel(free) =>
      if free then Move(None, Some(RecvQ), None, false, None, None, false, false)
      else Finish(r.(net := r.net.(matching := false)), Some(RecvQ), None)
    case Test =>
      if Idle(r.net) then Move(None, Some(ReallyDoneQ), None, false, None, None, true, false)
      else Move(Some(r.(done := false, zombie := true)), None, None, false, None, None, true, false)
    case Forget =>
      if Idle(r.net) then Move(None, Some(ReallyDoneQ), None, false, None, None, true, false)
      else Move(Some(r.(done := false, zombie := true)), None, None, false, None, None, r.done, false)
  }

  /** How requests come into being. */
  datatype Fresh =
    | Send(kind: Kind, partner: nat, ready: bool, full: bool, posted: bool, room: bool)
    | PostedRecv
    | UnexpTiny(partner: nat)
    | UnexpMedium(partner: nat, whole: bool)
    | UnexpRndv(partner: nat)
    | SelfSend(matched: bool)
    | SelfUnexp
    | Discarded(partner: nat)

  function NewReq(kind: Kind, partner: nat): Req {
    Req(kind, partner, IDLE, false, false)
  }

  predicate SendKind(k: Kind) {
    k == Tiny || k == Small || k == MediumSq || k == MediumVa || k == SendLarge
  }

  function Enqueued(r: Req, to: Queue, pto: Option<PartnerQueue>): Move {
    Move(Some(r), None, Some(to), false, None, pto, false, false)
  }

  function Create(f: Fresh): Move {
    match f
    case Send(kind, partner, ready, full, posted, room) =>
      if ready then AllocSetup(NewReq(kind, partner), None, full, posted, room)
          else Delay(NewReq(kind, partner), None, false)
    case PostedRecv => Enqueued(NewReq(Recv, 0).(net := IDLE.(matching := true)), RecvQ, None)
    case UnexpTiny(partner) => Enqueued(NewReq(Recv, partner).(net := IDLE.(unexp := true)), UnexpQ, None)
    case UnexpMedium(partner, whole) =>
      if whole then Enqueued(NewReq(Recv, partner).(net := IDLE.(unexp := true)), UnexpQ, None)
      else Enqueued(NewReq(Recv, partner).(net := IDLE.(unexp := true, partial := true)), UnexpQ,
          Some(Partial(partner)))
    case UnexpRndv(partner) => Enqueued(NewReq(RecvLarge, partner).(net := IDLE.(unexp := true, partial := true)),
        UnexpQ, None)
    case SelfSend(matched) =>
      if matched then Finish(NewReq(SendSelf, 0), None, None)
      else Enqueued(NewReq(SendSelf, 0).(net := IDLE.(selfSend := true)), SelfSendQ, None)
    case SelfUnexp => Enqueued(NewReq(RecvSelf, 0).(net := IDLE.(unexp := true)), UnexpQ, None)
    case Discarded(partner) => Delay(NewReq(RecvLarge, partner).(zombie := true), None, true)
  }

  // ---- a move that follows the table ----

  /** The queues named by the move are the ones that the states before and after dictate. */
  ghost predicate Follows<K>(before: Option<K>, after: Option<K>, from: Option<K>, to: Option<K>) {
    if from == None && to == None then before == after else from == before && to == after
  }

  ghost predicate Consistent(before: Option<Req>, m: Move) {
    && (m.after != None ==> Legal(m.after.value))
    && Follows(HomeOf(before), HomeOf(m.after), m.from, m.to)
    && Follows(PartnerHomeOf(before), PartnerHomeOf(m.after), m.pfrom, m.pto)
    && (m.doneDel ==> NotifiedOf(before))
    && (m.doneAdd ==> !NotifiedOf(before))
    && NotifiedOf(m.after) == (m.doneAdd || (NotifiedOf(before) && !m.doneDel))
  }

  ghost function HomeOf(r: Option<Req>): Option<Queue> {
    if r == None then None else Some(Home(r.value.net))
  }

  ghost function PartnerHomeOf(r: Option<Req>): Option<PartnerQueue> {
    if r == None then None else PartnerHome(r.value)
  }

  ghost predicate NotifiedOf(r: Option<Req>) {
    r != None && Notified(r.value)
  }

  /** Completion follows the table from wherever the request was. */
  lemma FinishFollows(before: Option<Req>, r: Req, from: Option<Queue>, pfrom: Option<PartnerQueue>)
    requires Idle(r.net) && from == HomeOf(before) && pfrom == PartnerHomeOf(before)
    requires NotifiedOf(before) == (r.done && !r.zombie)
    ensures Consistent(before, Finish(r, from, pfrom))
  {
  }

  lemma SetupFollows(before: Option<Req>, r: Req, from: Option<Queue>, pfrom: Option<PartnerQueue>, posted: bool,
      room: bool)
    requires Idle(r.net) && from == HomeOf(before) && pfrom == PartnerHomeOf(before)
    requires (SendKind(r.kind) || r.kind == RecvLarge) && !r.done && !NotifiedOf(before)
    ensures Consistent(before, Setup(r, from, pfrom, posted, room))
  {
  }

  lemma AllocSetupFollows(before: Option<Req>, r: Req, from: Option<Queue>, full: bool, posted: bool, room: bool)
    requires Idle(r.net) && from == HomeOf(before) && PartnerHomeOf(before) == None
    requires (SendKind(r.kind) || r.kind == RecvLarge) && !r.done && !NotifiedOf(before)
    ensures Consistent(before, AllocSetup(r, from, full, posted, room))
  {
    hide Setup;
    if !full { SetupFollows(before, r, from, None, posted, room); }
  }

  lemma DelayFollows(before: Option<Req>, r: Req, from: Option<Queue>, head: bool)
    requires Idle(r.net) || (Idle(r.net.(partial := false)) && r.kind == RecvLarge)
    requires from == HomeOf(before) && PartnerHomeOf(before) == None
    requires (SendKind(r.kind) || r.kind == RecvLarge) && !r.done && !NotifiedOf(before)
    ensures Consistent(before, Delay(r, from, head))
  {
  }

  lemma SubmitPullFollows(before: Option<Req>, r: Req, from: Option<Queue>, length: nat, posted: bool)
    requires Idle(r.net.(partial := false)) && r.net.partial && r.kind == RecvLarge
    requires from == HomeOf(before) && PartnerHomeOf(before) == None && !r.done && !NotifiedOf(before)
    ensures Consistent(before, SubmitPull(r, from, length, posted))
  {
    hide Delay;
    if length == 0 { DelayFollows(before, r.(net := r.net.(partial := false)), from, true); }
    else if !posted { DelayFollows(before, r, from, false); }
  }

  lemma RetryFollows(r: Req, ready: bool, full: bool, posted: bool, room: bool)
    requires Legal(r) && Enabled(r, Retry(ready, full, posted, room))
    ensures Consistent(Some(r), Perform(r, Retry(ready, full, posted, room)))
  {
    hide Delay, AllocSetup;
    var r1 := r.(net := r.net.(resources := false));
    if r.kind == RecvLarge && r.net.partial {
      if !ready { DelayFollows(Some(r), r1, Some(NeedResourcesQ), true); }
    } else if ready || r.kind == Tiny || r.kind == RecvLarge {
      AllocSetupFollows(Some(r), r1, Some(NeedResourcesQ), full, posted, room);
    } else {
      DelayFollows(Some(r), r1, Some(NeedResourcesQ), true);
    }
  }

  lemma UnthrottleFollows(r: Req, posted: bool, room: bool)
    requires Legal(r) && Enabled(r, Unthrottle(posted, room))
    ensures Consistent(Some(r), Perform(r, Unthrottle(posted, room)))
  {
    hide Setup;
    SetupFollows(Some(r), r.(net := r.net.(seqnum := false)), Some(NeedSeqnumQ), Some(Throttled(r.partner)), posted,
        room);
  }

  lemma ResendFollows(r: Req, posted: bool)
    requires Legal(r) && Enabled(r, Resend(posted))
    ensures Consistent(Some(r), Perform(r, Resend(posted)))
  {
    hide Finish, Setup, Delay, AllocSetup, SubmitPull, MarkAcked;
  }

  lemma AckedFollows(r: Req, ok: bool)
    requires Legal(r) && Enabled(r, Acked(ok))
    ensures Consistent(Some(r), Perform(r, Acked(ok)))
  {
    hide Finish;
    var r1 := r.(net := r.net.(ack := false));
    var p := Some(NotAcked(r.partner));
    if r.kind == SendLarge && !ok {
      FinishFollows(Some(r), r1.(net := r1.net.(reply := false)), Some(NonAckedQ), p);
    } else if Idle(r1.net) {
      FinishFollows(Some(r), r1, Some(NonAckedQ), p);
    }
  }

  lemma FragsDoneFollows(r: Req)
    requires Legal(r) && Enabled(r, FragsDone)
    ensures Consistent(Some(r), Perform(r, FragsDone))
  {
    hide Finish;
    if !r.net.ack { FinishFollows(Some(r), r.(net := r.net.(sending := false)), Some(SendingQ), None); }
  }

  lemma ReplyFollows(r: Req)
    requires Legal(r) && Enabled(r, Reply)
    ensures Consistent(Some(r), Perform(r, Reply))
  {
    hide Finish;
    if !r.net.ack { FinishFollows(Some(r), r.(net := r.net.(reply := false)), Some(LargeReplyQ), None); }
  }

  lemma MatchedByTinyFollows(r: Req, peer: nat)
    requires Legal(r) && Enabled(r, MatchedByTiny(peer))
    ensures Consistent(Some(r), Perform(r, MatchedByTiny(peer)))
  {
    hide Finish;
    FinishFollows(Some(r), r.(partner := peer, net := r.net.(matching := false)), Some(RecvQ), None);
  }

  lemma MatchedByMediumFollows(r: Req, peer: nat, whole: bool)
    requires Legal(r) && Enabled(r, MatchedByMedium(peer, whole))
    ensures Consistent(Some(r), Perform(r, MatchedByMedium(peer, whole)))
  {
    hide Finish;
    if whole { FinishFollows(Some(r), r.(partner := peer, net := r.net.(matching := false)), Some(RecvQ), None); }
  }

  lemma MatchedByRndvFollows(r: Req, peer: nat, length: nat, posted: bool)
    requires Legal(r) && Enabled(r, MatchedByRndv(peer, length, posted))
    ensures Consistent(Some(r), Perform(r, MatchedByRndv(peer, length, posted)))
  {
    hide SubmitPull;
    SubmitPullFollows(Some(r), r.(kind := RecvLarge, partner := peer,
        net := r.net.(matching := false, partial := true)), Some(RecvQ), length, posted);
  }

  lemma FragmentFollows(r: Req, last: bool)
    requires Legal(r) && Enabled(r, Fragment(last))
    ensures Consistent(Some(r), Perform(r, Fragment(last)))
  {
    hide Finish;
    if last && !r.net.unexp {
      FinishFollows(Some(r), r.(net := r.net.(partial := false)), Some(PartialQ), Some(Partial(r.partner)));
    }
  }

  lemma MatchedByIrecvFollows(r: Req, length: nat, posted: bool)
    requires Legal(r) && Enabled(r, MatchedByIrecv(length, posted))
    ensures Consistent(Some(r), Perform(r, MatchedByIrecv(length, posted)))
  {
    hide Finish, SubmitPull;
    var r1 := r.(net := r.net.(unexp := false));
    if r.kind == RecvLarge {
      SubmitPullFollows(Some(r), r1, Some(UnexpQ), length, posted);
    } else if !r.net.partial {
      FinishFollows(Some(r), r1, Some(UnexpQ), None);
    }
  }

  lemma PullDoneFollows(r: Req, delayed: bool, full: bool, room: bool)
    requires Legal(r) && Enabled(r, PullDone(delayed, full, room))
    ensures Consistent(Some(r), Perform(r, PullDone(delayed, full, room)))
  {
    hide Delay, AllocSetup;
    var r1 := r.(net := r.net.(pulling := false, partial := false));
    if delayed { DelayFollows(Some(r), r1, Some(PullingQ), true); }
    else { AllocSetupFollows(Some(r), r1, Some(PullingQ), full, false, room); }
  }

  lemma SelfMatchedFollows(r: Req)
    requires Legal(r) && Enabled(r, SelfMatched)
    ensures Consistent(Some(r), Perform(r, SelfMatched))
  {
    hide Finish;
    FinishFollows(Some(r), r.(net := r.net.(selfSend := false)), Some(SelfSendQ), None);
  }

  lemma CancelFollows(r: Req, free: bool)
    requires Legal(r) && Enabled(r, Cancel(free))
    ensures Consistent(Some(r), Perform(r, Cancel(free)))
  {
    hide Finish;
    if !free { FinishFollows(Some(r), r.(net := r.net.(matching := false)), Some(RecvQ), None); }
  }

  lemma TestFollows(r: Req)
    requires Legal(r) && Enabled(r, Test)
    ensures Consistent(Some(r), Perform(r, Test))
  {
  }

  lemma ForgetFollows(r: Req)
    requires Legal(r) && Enabled(r, Forget)
    ensures Consistent(Some(r), Perform(r, Forget))
  {
  }

  /** Every operation names the queues that the table dictates. */
  lemma PerformFollows(r: Req, e: Event)
    requires Legal(r) && Enabled(r, e)
    ensures Consistent(Some(r), Perform(r, e))
  {
    hide Legal, Enabled, Perform, Consistent;
    match e
    case Retry(ready, full, posted, room) => RetryFollows(r, ready, full, posted, room);
    case Unthrottle(posted, room) => UnthrottleFollows(r, posted, room);
    case Resend(posted) => ResendFollows(r, posted);
    case Acked(ok) => AckedFollows(r, ok);
    case FragsDone => FragsDoneFollows(r);
    case Reply => ReplyFollows(r);
    case MatchedByTiny(peer) => MatchedByTinyFollows(r, peer);
    case MatchedByMedium(peer, whole) => MatchedByMediumFollows(r, peer, whole);
    case MatchedByRndv(peer, length, posted) => MatchedByRndvFollows(r, peer, length, posted);
    case Fragment(last) => FragmentFollows(r, last);
    case MatchedByIrecv(length, posted) => MatchedByIrecvFollows(r, length, posted);
    case PullDone(delayed, full, room) => PullDoneFollows(r, delayed, full, room);
    case SelfMatched => SelfMatchedFollows(r);
    case Cancel(free) => CancelFollows(r, free);
    case Test => TestFollows(r);
    case Forget => ForgetFollows(r);
  }

  lemma CreateFollows(f: Fresh)
    requires f.Send? ==> SendKind(f.kind)
    ensures Consistent(None, Create(f))
  {
    hide AllocSetup, Delay, Finish;
    match f
    case Send(kind, partner, ready, full, posted, room) =>
      if ready { AllocSetupFollows(None, NewReq(kind, partner), None, full, posted, room); }
      else { DelayFollows(None, NewReq(kind, partner), None, false); }
    case SelfSend(matched) => if matched { FinishFollows(None, NewReq(SendSelf, 0), None, None); }
    case Discarded(partner) => DelayFollows(None, NewReq(RecvLarge, partner).(zombie := true), None, true);
    case _ =>
  }

  // ---- all requests ----

  ghost function HomeIn<K>(homes: map<nat, K>, id: nat): Option<K> {
    if id in homes then Some(homes[id]) else None
  }

  /** A queue holds, once each, exactly the requests that belong there. */
  ghost predicate FiledAt<K>(m: map<K, seq<nat>>, homes: map<nat, K>, k: K) {
    Distinct(Get(m, k)) && forall id :: id in Get(m, k) <==> HomeIn(homes, id) == Some(k)
  }

  ghost predicate FiledBy<K(!new)>(m: map<K, seq<nat>>, homes: map<nat, K>) {
    forall k :: FiledAt(m, homes, k)
  }

  ghost function Rehomed<K>(homes: map<nat, K>, id: nat, to: Option<K>): map<nat, K> {
    if to == None then map x | x in homes && x != id :: homes[x] else homes[id := to.value]
  }

  lemma RehomedIs<K>(homes: map<nat, K>, id: nat, to: Option<K>)
    ensures forall x :: HomeIn(Rehomed(homes, id, to), x) == if x == id then to else HomeIn(homes, x)
  {
  }

  /** The queue k after a request moved. */
  function Moved<K(==)>(list: seq<nat>, id: nat, k: K, from: Option<K>, to: Option<K>, head: bool): seq<nat> {
    var rest := if from == Some(k) then Remove(list, id) else list;
    if to != Some(k) then rest else if head then [id] + rest else rest + [id]
  }

  lemma RequeueGet<K>(m: map<K, seq<nat>>, id: nat, from: Option<K>, to: Option<K>, head: bool, k: K)
    ensures Get(Requeue(m, id, from, to, head), k) == Moved(Get(m, k), id, k, from, to, head)
  {
  }

  lemma RequeueAt<K>(m: map<K, seq<nat>>, homes: map<nat, K>, id: nat, from: Option<K>, to: Option<K>, head: bool,
      after: Option<K>, k: K)
    requires FiledAt(m, homes, k) && Follows(HomeIn(homes, id), after, from, to)
    ensures FiledAt(Requeue(m, id, from, to, head), Rehomed(homes, id, after), k)
  {
    hide Requeue, Rehomed, HomeIn, Get;
    RequeueGet(m, id, from, to, head, k);
    RehomedIs(homes, id, after);
    RemoveIs(Get(m, k), id);
  }

  lemma RequeueFiles<K(!new)>(m: map<K, seq<nat>>, homes: map<nat, K>, id: nat, from: Option<K>, to: Option<K>,
      head: bool, after: Option<K>)
    requires FiledBy(m, homes) && Follows(HomeIn(homes, id), after, from, to)
    ensures FiledBy(Requeue(m, id, from, to, head), Rehomed(homes, id, after))
  {
    hide FiledAt, Requeue, Rehomed, HomeIn, Follows;
    forall k
      ensures FiledAt(Requeue(m, id, from, to, head), Rehomed(homes, id, after), k)
    {
      RequeueAt(m, homes, id, from, to, head, after, k);
    }
  }

  ghost function Homes(reqs: map<nat, Req>): map<nat, Queue> {
    map id | id in reqs :: Home(reqs[id].net)
  }

  ghost function PartnerHomes(reqs: map<nat, Req>): map<nat, PartnerQueue> {
    map id | id in reqs && PartnerHome(reqs[id]) != None :: PartnerHome(reqs[id]).value
  }

  ghost predicate DoneOk(w: World) {
    Distinct(w.doneq) && forall id :: id in w.doneq <==> id in w.reqs && Notified(w.reqs[id])
  }

  ghost predicate Inv(w: World) {
    && (forall id :: id in w.reqs ==> Legal(w.reqs[id]) && id < w.next)
    && FiledBy(w.queue, Homes(w.reqs))
    && FiledBy(w.pqueue, PartnerHomes(w.reqs))
    && DoneOk(w)
    && Total(w) == |w.reqs|
  }

  /** The count of omx__request_alloc_check. */
  function Total(w: World): nat {
    |Get(w.queue, RecvQ)| + |Get(w.queue, UnexpQ)| + |Get(w.queue, NeedResourcesQ)| + |Get(w.queue, NeedSeqnumQ)|
    + |Get(w.queue, SendingQ)| + |Get(w.queue, PartialQ)| + |Get(w.queue, LargeReplyQ)| + |Get(w.queue, PullingQ)|
    + |Get(w.queue, NonAckedQ)| + |Get(w.queue, SelfSendQ)| + |Get(w.queue, ReallyDoneQ)|
  }

  ghost function Before(w: World, id: nat): Option<Req> {
    if id in w.reqs then Some(w.reqs[id]) else None
  }

  /** An operation that follows the table keeps every request where it belongs. */
  lemma ApplyKeeps(w: World, id: nat, m: Move)
    requires Inv(w) && Consistent(Before(w, id), m) && id < w.next
    ensures Inv(Apply(w, id, m))
  {
    hide Legal, Follows, FiledBy, Home, PartnerHome, Notified, Requeue, Total;
    var w' := Apply(w, id, m);
    HomesAfter(w, id, m);
    RequeueFiles(w.queue, Homes(w.reqs), id, m.from, m.to, m.head, HomeOf(m.after));
    RequeueFiles(w.pqueue, PartnerHomes(w.reqs), id, m.pfrom, m.pto, false, PartnerHomeOf(m.after));
    DoneAfter(w, id, m);
    TotalAfter(w, id, m);
  }

  lemma HomesAfter(w: World, id: nat, m: Move)
    ensures var w' := Apply(w, id, m);
            && Homes(w'.reqs) == Rehomed(Homes(w.reqs), id, HomeOf(m.after))
            && PartnerHomes(w'.reqs) == Rehomed(PartnerHomes(w.reqs), id, PartnerHomeOf(m.after))
            && HomeIn(Homes(w.reqs), id) == HomeOf(Before(w, id))
            && HomeIn(PartnerHomes(w.reqs), id) == PartnerHomeOf(Before(w, id))
  {
    hide Requeue, Home, PartnerHome;
  }

  lemma DoneAfter(w: World, id: nat, m: Move)
    requires DoneOk(w) && Consistent(Before(w, id), m)
    ensures DoneOk(Apply(w, id, m))
  {
    hide Requeue, Home, PartnerHome, Legal, Follows, Notified;
    RemoveIs(w.doneq, id);
  }

  lemma TotalAfter(w: World, id: nat, m: Move)
    requires Inv(w) && Consistent(Before(w, id), m)
    ensures var w' := Apply(w, id, m); Total(w') == |w'.reqs|
  {
    hide Legal, PartnerHomeOf, NotifiedOf, DoneOk, Requeue, Total, FiledBy, Home, Homes, PartnerHomes, HomeIn;
    HomesAfter(w, id, m);
    var w' := Apply(w, id, m);
    if m.from != None { FoundIn(w, id, m.from.value); }
    TotalMoved(w, w', id, m.from, m.to, m.head);
    CountAfter(w, id, m);
  }

  lemma CountAfter(w: World, id: nat, m: Move)
    ensures |Apply(w, id, m).reqs| == |w.reqs| - (if id in w.reqs then 1 else 0) + (if m.after == None then 0 else 1)
  {
    hide Requeue;
    if m.after == None {
      CountDrop(w.reqs, id);
    } else {
      CountPut(w.reqs, id, m.after.value);
    }
  }

  lemma CountDrop(reqs: map<nat, Req>, id: nat)
    ensures |Freed(reqs, id)| == |reqs| - (if id in reqs then 1 else 0)
  {
    var rest := Freed(reqs, id);
    assert rest.Keys == reqs.Keys - {id};
    assert |rest| == |rest.Keys| && |reqs| == |reqs.Keys|;
  }

  lemma CountPut(reqs: map<nat, Req>, id: nat, r: Req)
    ensures |reqs[id := r]| == |reqs| - (if id in reqs then 1 else 0) + 1
  {
    var more := reqs[id := r];
    assert more.Keys == reqs.Keys + {id};
    assert |more| == |more.Keys| && |reqs| == |reqs.Keys|;
  }

  lemma FoundIn(w: World, id: nat, q: Queue)
    requires FiledBy(w.queue, Homes(w.reqs)) && HomeIn(Homes(w.reqs), id) == Some(q)
    ensures id in Get(w.queue, q)
  {
    hide Homes;
    assert FiledAt(w.queue, Homes(w.reqs), q);
  }

  function One(o: Option<Queue>, k: Queue): nat {
    if o == Some(k) then 1 else 0
  }

  /** There are no other queues. */
  lemma OneOfAll(o: Option<Queue>)
    ensures One(o, RecvQ) + One(o, UnexpQ) + One(o, NeedResourcesQ) + One(o, NeedSeqnumQ) + One(o, SendingQ)
            + One(o, PartialQ)
            + One(o, LargeReplyQ) + One(o, PullingQ) + One(o, NonAckedQ) + One(o, SelfSendQ) + One(o, ReallyDoneQ)
         == if o == None then 0 else 1
  {
    if o != None {
      match o.value
      case RecvQ =>
      case UnexpQ =>
      case NeedResourcesQ =>
      case NeedSeqnumQ =>
      case SendingQ =>
      case PartialQ =>
      case LargeReplyQ =>
      case PullingQ =>
      case NonAckedQ =>
      case SelfSendQ =>
      case ReallyDoneQ =>
    }
  }

  lemma MovedLength(w: World, w': World, id: nat, k: Queue, from: Option<Queue>, to: Option<Queue>, head: bool)
    requires w'.queue == Requeue(w.queue, id, from, to, head) && (from != None ==> id in Get(w.queue, from.value))
    ensures |Get(w'.queue, k)| == |Get(w.queue, k)| - One(from, k) + One(to, k)
  {
    hide Requeue, Get;
    RequeueGet(w.queue, id, from, to, head, k);
    if from == Some(k) { RemoveLength(Get(w.queue, k), id); }
  }

  lemma TotalMoved(w: World, w': World, id: nat, from: Option<Queue>, to: Option<Queue>, head: bool)
    requires w'.queue == Requeue(w.queue, id, from, to, head) && (from != None ==> id in Get(w.queue, from.value))
    ensures Total(w') == Total(w) - (if from == None then 0 else 1) + (if to == None then 0 else 1)
  {
    hide Requeue, Get, One;
    forall k: Queue
      ensures |Get(w'.queue, k)| == |Get(w.queue, k)| - One(from, k) + One(to, k)
    {
      MovedLength(w, w', id, k, from, to, head);
    }
    OneOfAll(from);
    OneOfAll(to);
  }

  // ---- runs ----

  datatype Action = New(f: Fresh) | On(id: nat, e: Event)

  ghost predicate Possible(w: World, a: Action) {
    match a
    case New(f) => f.Send? ==> SendKind(f.kind)
    case On(id, e) => id in w.reqs && Enabled(w.reqs[id], e)
  }

  ghost function Step(w: World, a: Action): World {
    if !Possible(w, a) then w
    else match a
         case New(f) => Apply(w.(next := w.next + 1), w.next, Create(f))
         case On(id, e) => Apply(w, id, Perform(w.reqs[id], e))
  }

  ghost function After(actions: seq<Action>): World {
    if actions == [] then World(map[], map[], map[], [], 0)
    else Step(After(actions[..|actions| - 1]), actions[|actions| - 1])
  }

  lemma StepKeeps(w: World, a: Action)
    requires Inv(w)
    ensures Inv(Step(w, a))
  {
    hide Consistent, Perform, Create, Enabled, Apply, Legal, FiledBy, Total, DoneOk;
    if Possible(w, a) {
      match a
      case New(f) =>
        CreateFollows(f);
        NextKeeps(w);
        ApplyKeeps(w.(next := w.next + 1), w.next, Create(f));
      case On(id, e) =>
        PerformFollows(w.reqs[id], e);
        ApplyKeeps(w, id, Perform(w.reqs[id], e));
    }
  }

  lemma NextKeeps(w: World)
    requires Inv(w)
    ensures Inv(w.(next := w.next + 1)) && Before(w.(next := w.next + 1), w.next) == None
  {
    hide Legal, FiledBy;
  }

  lemma {:induction false} RunKeeps(actions: seq<Action>)
    ensures Inv(After(actions))
  {
    hide Inv, Step;
    if actions == [] {
      EmptyOk();
    } else {
      RunKeeps(actions[..|actions| - 1]);
      StepKeeps(After(actions[..|actions| - 1]), actions[|actions| - 1]);
    }
  }

  lemma EmptyOk()
    ensures Inv(World(map[], map[], map[], [], 0))
  {
    var w := World(map[], map[], map[], [], 0);
    assert Homes(w.reqs) == map[] && PartnerHomes(w.reqs) == map[];
  }

  /** In every run, each live request is in one endpoint queue, the one its state dictates, and in no other. */
  lemma InExactlyOneQueue(actions: seq<Action>, id: nat, q: Queue)
    requires id in After(actions).reqs
    ensures var w := After(actions);
            && (id in Get(w.queue, q) <==> q == Home(w.reqs[id].net))
            && Distinct(Get(w.queue, q))
            && (forall p :: id in Get(w.pqueue, p) <==> PartnerHome(w.reqs[id]) == Some(p))
  {
    hide Step, Legal, Home, PartnerHome;
    RunKeeps(actions);
    var w := After(actions);
    assert FiledAt(w.queue, Homes(w.reqs), q);
    assert HomeIn(Homes(w.reqs), id) == Some(Home(w.reqs[id].net));
    forall p
      ensures id in Get(w.pqueue, p) <==> PartnerHome(w.reqs[id]) == Some(p)
    {
      assert FiledAt(w.pqueue, PartnerHomes(w.reqs), p);
      assert HomeIn(PartnerHomes(w.reqs), id) == PartnerHome(w.reqs[id]);
    }
  }

  /** The debug check for leaked requests never fires. */
  lemma NothingLeaked(actions: seq<Action>)
    ensures Total(After(actions)) == |After(actions).reqs|
  {
    hide Step, Total, Legal, FiledBy;
    RunKeeps(actions);
  }
}
