/**
  What the events of a request do to its state (libopen-mx/omx_types.h): every bit
  is set by the event that makes the request wait for something, and cleared by
  the event it waits for and no other.  Requests shows that the queues follow the
  state; this shows that the state follows the events.
*/
module RequestLives {
  import opened Options
  import opened Queues
  import opened Requests

  // ---- one event ----

  /** The request gets past the resources it waited for. */
  ghost predicate Proceeds(r: Req, e: Event) {
    match e
    case Retry(ready, _, _, _) => !r.net.partial && (ready || r.kind == Tiny || r.kind == RecvLarge)
    case PullDone(delayed, _, _) => !delayed
    case _ => false
  }

  ghost predicate Full(e: Event) {
    (e.Retry? || e.PullDone?) && e.full
  }

  /** The message gets a number and is posted. */
  ghost predicate Starts(r: Req, e: Event) {
    e.Unthrottle? || (Proceeds(r, e) && !Full(e))
  }

  /** The driver takes fragments of a medium. */
  ghost predicate Posts(r: Req, e: Event) {
    r.kind == MediumSq && ((Starts(r, e) && !e.PullDone? && e.posted) || (e.Resend? && e.posted))
  }

  /** The receive becomes a pull of this length, if it is not zero. */
  ghost predicate BecomesPull(r: Req, e: Event) {
    e.MatchedByRndv? || (e.MatchedByIrecv? && r.kind == RecvLarge)
  }

  /** What the request waits for after the event. */
  ghost function NetOf(r: Req, e: Event): Net {
    var n := r.net;
    Net(
      resources := if e.Retry? then !Proceeds(r, e) && !(n.partial && e.ready)
                   else if e.PullDone? then e.delayed
                   else n.resources || (BecomesPull(r, e) && (e.length == 0 || !e.posted)),
      seqnum := (n.seqnum && !e.Unthrottle?) || (Proceeds(r, e) && Full(e)),
      sending := (n.sending && e != FragsDone) || Posts(r, e),
      ack := (n.ack && !e.Acked?) || Starts(r, e),
      reply := (n.reply && e != Reply && e != Acked(false)) || (Starts(r, e) && r.kind == SendLarge),
      matching := n.matching && !e.MatchedByTiny? && !e.MatchedByMedium? && !e.MatchedByRndv? && e != Cancel(false),
      partial := if BecomesPull(r, e) then e.length != 0
                 else (n.partial && e != Fragment(true) && !e.PullDone?) || (e.MatchedByMedium? && !e.whole),
      pulling := (n.pulling && !e.PullDone?) || (BecomesPull(r, e) && e.length != 0 && e.posted)
                 || (e.Retry? && n.partial && e.ready),
      unexp := n.unexp && !e.MatchedByIrecv?,
      selfSend := n.selfSend && e != SelfMatched)
  }

  /** The application is told early about a buffered send or a notify, if there is room for a zombie. */
  ghost predicate ToldEarly(r: Req, e: Event) {
    Starts(r, e) && r.kind != SendLarge && e.room
  }

  ghost predicate Leaves(e: Event) {
    e.Test? || e.Forget?
  }

  /** When the request is freed: the application has let go of it and nothing is left to do. */
  ghost predicate Ends(r: Req, e: Event) {
    if Leaves(e) then Idle(r.net) else e == Cancel(true) || (r.zombie && Idle(NetOf(r, e)))
  }

  /** The request after the event. */
  ghost function ReqOf(r: Req, e: Event): Req {
    var n := NetOf(r, e);
    Req(if e.MatchedByRndv? then RecvLarge else r.kind,
        if e.MatchedByTiny? || e.MatchedByMedium? || e.MatchedByRndv? then e.peer else r.partner,
        n,
        !Leaves(e) && (r.done || ToldEarly(r, e) || Idle(n)),
        r.zombie || Leaves(e))
  }

  /** Requests that must not wait behind the delayed ones, or that keep their turn. */
  ghost predicate ToHead(r: Req, e: Event) {
    match e
    case Retry(_, _, _, _) => NetOf(r, e).resources
    case PullDone(delayed, _, _) => delayed
    case MatchedByRndv(_, length, _) => length == 0
    case MatchedByIrecv(length, _) => r.kind == RecvLarge && length == 0
    case _ => false
  }

  /** The request leaves its place and is put behind the others, or in front of them. */
  ghost predicate Requeued(r: Req, e: Event) {
    e.Resend? || Home(NetOf(r, e)) != Home(r.net) || (e.Retry? && ToHead(r, e))
  }

  /** The move takes the request from where it was, and puts it where it then belongs. */
  ghost predicate Moves(r: Req, e: Event, m: Move) {
    && (m.to != None ==> m.from == Some(Home(r.net)) && m.head == ToHead(r, e))
    && m.to == if !Ends(r, e) && Requeued(r, e) then Some(Home(NetOf(r, e))) else None
  }

  ghost predicate Becomes(r: Req, e: Event, after: Option<Req>) {
    after == if Ends(r, e) then None else Some(ReqOf(r, e))
  }

  ghost predicate Does(r: Req, e: Event) {
    Becomes(r, e, Perform(r, e).after) && Moves(r, e, Perform(r, e))
  }

  /** A request that waits for resources waits for nothing else, but a pull is still partial. */
  lemma WaitsForResources(r: Req)
    requires Legal(r) && r.net.resources
    ensures r.net == IDLE.(resources := true, partial := r.net.partial)
    ensures !r.done && (r.net.partial ==> r.kind == RecvLarge)
  {
  }

  /** A request that waits for its ack may also have fragments in the driver or wait for a reply. */
  lemma WaitsForAck(r: Req)
    requires Legal(r) && r.net.ack
    ensures r.net == IDLE.(ack := true, sending := r.net.sending, reply := r.net.reply)
    ensures (r.net.sending ==> r.kind == MediumSq) && (r.net.reply ==> r.kind == SendLarge)
  {
  }

  lemma RetryBecomes(r: Req, ready: bool, full: bool, posted: bool, room: bool)
    requires Legal(r) && Enabled(r, Retry(ready, full, posted, room))
    ensures Becomes(r, Retry(ready, full, posted, room), Perform(r, Retry(ready, full, posted, room)).after)
  {
    hide Finish, SubmitPull, MarkAcked, Legal;
    WaitsForResources(r);
  }

  lemma RetryMoves(r: Req, ready: bool, full: bool, posted: bool, room: bool)
    requires Legal(r) && Enabled(r, Retry(ready, full, posted, room))
    ensures Moves(r, Retry(ready, full, posted, room), Perform(r, Retry(ready, full, posted, room)))
  {
    hide Finish, SubmitPull, MarkAcked, Legal;
    WaitsForResources(r);
  }

  lemma RetryDoes(r: Req, ready: bool, full: bool, posted: bool, room: bool)
    requires Legal(r) && Enabled(r, Retry(ready, full, posted, room))
    ensures Does(r, Retry(ready, full, posted, room))
  {
    hide Becomes, Moves, Perform, Legal, Enabled;
    RetryBecomes(r, ready, full, posted, room);
    RetryMoves(r, ready, full, posted, room);
  }

  lemma UnthrottleBecomes(r: Req, posted: bool, room: bool)
    requires Legal(r) && Enabled(r, Unthrottle(posted, room))
    ensures Becomes(r, Unthrottle(posted, room), Perform(r, Unthrottle(posted, room)).after)
  {
    hide Finish, AllocSetup, Delay, SubmitPull, MarkAcked;
  }

  lemma UnthrottleMoves(r: Req, posted: bool, room: bool)
    requires Legal(r) && Enabled(r, Unthrottle(posted, room))
    ensures Moves(r, Unthrottle(posted, room), Perform(r, Unthrottle(posted, room)))
  {
    hide Finish, AllocSetup, Delay, SubmitPull, MarkAcked;
  }

  lemma UnthrottleDoes(r: Req, posted: bool, room: bool)
    requires Legal(r) && Enabled(r, Unthrottle(posted, room))
    ensures Does(r, Unthrottle(posted, room))
  {
    hide Becomes, Moves, Perform, Legal, Enabled;
    UnthrottleBecomes(r, posted, room);
    UnthrottleMoves(r, posted, room);
  }

  lemma ResendBecomes(r: Req, posted: bool)
    requires Legal(r) && Enabled(r, Resend(posted))
    ensures Becomes(r, Resend(posted), Perform(r, Resend(posted)).after)
  {
    hide Finish, Setup, AllocSetup, Delay, SubmitPull, MarkAcked, Legal;
    WaitsForAck(r);
  }

  lemma ResendMoves(r: Req, posted: bool)
    requires Legal(r) && Enabled(r, Resend(posted))
    ensures Moves(r, Resend(posted), Perform(r, Resend(posted)))
  {
    hide Finish, Setup, AllocSetup, Delay, SubmitPull, MarkAcked, Legal;
    WaitsForAck(r);
  }

  lemma ResendDoes(r: Req, posted: bool)
    requires Legal(r) && Enabled(r, Resend(posted))
    ensures Does(r, Resend(posted))
  {
    hide Becomes, Moves, Perform, Legal, Enabled;
    ResendBecomes(r, posted);
    ResendMoves(r, posted);
  }

  lemma AckedBecomes(r: Req, ok: bool)
    requires Legal(r) && Enabled(r, Acked(ok))
    ensures Becomes(r, Acked(ok), Perform(r, Acked(ok)).after)
  {
    hide Setup, AllocSetup, Delay, SubmitPull, Legal;
    WaitsForAck(r);
  }

  lemma AckedMoves(r: Req, ok: bool)
    requires Legal(r) && Enabled(r, Acked(ok))
    ensures Moves(r, Acked(ok), Perform(r, Acked(ok)))
  {
    hide Setup, AllocSetup, Delay, SubmitPull, Legal;
    WaitsForAck(r);
  }

  lemma AckedDoes(r: Req, ok: bool)
    requires Legal(r) && Enabled(r, Acked(ok))
    ensures Does(r, Acked(ok))
  {
    hide Becomes, Moves, Perform, Legal, Enabled;
    AckedBecomes(r, ok);
    AckedMoves(r, ok);
  }

  lemma FragsDoneDoes(r: Req)
    requires Legal(r) && Enabled(r, FragsDone)
    ensures Does(r, FragsDone)
  {
    hide Setup, AllocSetup, Delay, SubmitPull, MarkAcked;
  }

  lemma ReplyDoes(r: Req)
    requires Legal(r) && Enabled(r, Reply)
    ensures Does(r, Reply)
  {
    hide Setup, AllocSetup, Delay, SubmitPull, MarkAcked;
  }

  lemma MatchedByTinyDoes(r: Req, peer: nat)
    requires Legal(r) && Enabled(r, MatchedByTiny(peer))
    ensures Does(r, MatchedByTiny(peer))
  {
    hide Setup, AllocSetup, Delay, SubmitPull, MarkAcked;
  }

  lemma MatchedByMediumBecomes(r: Req, peer: nat, whole: bool)
    requires Legal(r) && Enabled(r, MatchedByMedium(peer, whole))
    ensures Becomes(r, MatchedByMedium(peer, whole), Perform(r, MatchedByMedium(peer, whole)).after)
  {
    hide Setup, AllocSetup, Delay, SubmitPull, MarkAcked;
  }

  lemma MatchedByMediumMoves(r: Req, peer: nat, whole: bool)
    requires Legal(r) && Enabled(r, MatchedByMedium(peer, whole))
    ensures Moves(r, MatchedByMedium(peer, whole), Perform(r, MatchedByMedium(peer, whole)))
  {
    hide Setup, AllocSetup, Delay, SubmitPull, MarkAcked;
  }

  lemma MatchedByMediumDoes(r: Req, peer: nat, whole: bool)
    requires Legal(r) && Enabled(r, MatchedByMedium(peer, whole))
    ensures Does(r, MatchedByMedium(peer, whole))
  {
    hide Becomes, Moves, Perform, Legal, Enabled;
    MatchedByMediumBecomes(r, peer, whole);
    MatchedByMediumMoves(r, peer, whole);
  }

  lemma MatchedByRndvBecomes(r: Req, peer: nat, length: nat, posted: bool)
    requires Legal(r) && Enabled(r, MatchedByRndv(peer, length, posted))
    ensures Becomes(r, MatchedByRndv(peer, length, posted), Perform(r, MatchedByRndv(peer, length, posted)).after)
  {
    hide Finish, Setup, AllocSetup, MarkAcked;
  }

  lemma MatchedByRndvMoves(r: Req, peer: nat, length: nat, posted: bool)
    requires Legal(r) && Enabled(r, MatchedByRndv(peer, length, posted))
    ensures Moves(r, MatchedByRndv(peer, length, posted), Perform(r, MatchedByRndv(peer, length, posted)))
  {
    hide Finish, Setup, AllocSetup, MarkAcked;
  }

  lemma MatchedByRndvDoes(r: Req, peer: nat, length: nat, posted: bool)
    requires Legal(r) && Enabled(r, MatchedByRndv(peer, length, posted))
    ensures Does(r, MatchedByRndv(peer, length, posted))
  {
    hide Becomes, Moves, Perform, Legal, Enabled;
    MatchedByRndvBecomes(r, peer, length, posted);
    MatchedByRndvMoves(r, peer, length, posted);
  }

  lemma FragmentDoes(r: Req, last: bool)
    requires Legal(r) && Enabled(r, Fragment(last))
    ensures Does(r, Fragment(last))
  {
    hide Setup, AllocSetup, Delay, SubmitPull, MarkAcked;
  }

  lemma MatchedByIrecvBecomes(r: Req, length: nat, posted: bool)
    requires Legal(r) && Enabled(r, MatchedByIrecv(length, posted))
    ensures Becomes(r, MatchedByIrecv(length, posted), Perform(r, MatchedByIrecv(length, posted)).after)
  {
    hide Setup, AllocSetup, MarkAcked;
  }

  lemma MatchedByIrecvMoves(r: Req, length: nat, posted: bool)
    requires Legal(r) && Enabled(r, MatchedByIrecv(length, posted))
    ensures Moves(r, MatchedByIrecv(length, posted), Perform(r, MatchedByIrecv(length, posted)))
  {
    hide Setup, AllocSetup, MarkAcked;
  }

  lemma MatchedByIrecvDoes(r: Req, length: nat, posted: bool)
    requires Legal(r) && Enabled(r, MatchedByIrecv(length, posted))
    ensures Does(r, MatchedByIrecv(length, posted))
  {
    hide Becomes, Moves, Perform, Legal, Enabled;
    MatchedByIrecvBecomes(r, length, posted);
    MatchedByIrecvMoves(r, length, posted);
  }

  lemma PullDoneBecomes(r: Req, delayed: bool, full: bool, room: bool)
    requires Legal(r) && Enabled(r, PullDone(delayed, full, room))
    ensures Becomes(r, PullDone(delayed, full, room), Perform(r, PullDone(delayed, full, room)).after)
  {
    hide Finish, SubmitPull, MarkAcked;
  }

  lemma PullDoneMoves(r: Req, delayed: bool, full: bool, room: bool)
    requires Legal(r) && Enabled(r, PullDone(delayed, full, room))
    ensures Moves(r, PullDone(delayed, full, room), Perform(r, PullDone(delayed, full, room)))
  {
    hide Finish, SubmitPull, MarkAcked;
  }

  lemma PullDoneDoes(r: Req, delayed: bool, full: bool, room: bool)
    requires Legal(r) && Enabled(r, PullDone(delayed, full, room))
    ensures Does(r, PullDone(delayed, full, room))
  {
    hide Becomes, Moves, Perform, Legal, Enabled;
    PullDoneBecomes(r, delayed, full, room);
    PullDoneMoves(r, delayed, full, room);
  }

  lemma SelfMatchedDoes(r: Req)
    requires Legal(r) && Enabled(r, SelfMatched)
    ensures Does(r, SelfMatched)
  {
    hide Setup, AllocSetup, Delay, SubmitPull, MarkAcked;
  }

  lemma CancelDoes(r: Req, free: bool)
    requires Legal(r) && Enabled(r, Cancel(free))
    ensures Does(r, Cancel(free))
  {
    hide Setup, AllocSetup, Delay, SubmitPull, MarkAcked;
  }

  lemma TestDoes(r: Req)
    requires Legal(r) && Enabled(r, Test)
    ensures Does(r, Test)
  {
    hide Finish, Setup, AllocSetup, Delay, SubmitPull, MarkAcked;
  }

  lemma ForgetDoes(r: Req)
    requires Legal(r) && Enabled(r, Forget)
    ensures Does(r, Forget)
  {
    hide Finish, Setup, AllocSetup, Delay, SubmitPull, MarkAcked;
  }

  /** Each event clears what it stands for, sets what the request waits for next, and leaves the rest alone. */
  lemma EventDoes(r: Req, e: Event)
    requires Legal(r) && Enabled(r, e)
    ensures Perform(r, e).after == if Ends(r, e) then None else Some(ReqOf(r, e))
    ensures Moves(r, e, Perform(r, e))
  {
    hide Moves;
    assert Does(r, e) by {
      hide Legal, Enabled, Does;
      match e
      case Retry(ready, full, posted, room) => RetryDoes(r, ready, full, posted, room);
      case Unthrottle(posted, room) => UnthrottleDoes(r, posted, room);
      case Resend(posted) => ResendDoes(r, posted);
      case Acked(ok) => AckedDoes(r, ok);
      case FragsDone => FragsDoneDoes(r);
      case Reply => ReplyDoes(r);
      case MatchedByTiny(peer) => MatchedByTinyDoes(r, peer);
      case MatchedByMedium(peer, whole) => MatchedByMediumDoes(r, peer, whole);
      case MatchedByRndv(peer, length, posted) => MatchedByRndvDoes(r, peer, length, posted);
      case Fragment(last) => FragmentDoes(r, last);
      case MatchedByIrecv(length, posted) => MatchedByIrecvDoes(r, length, posted);
      case PullDone(delayed, full, room) => PullDoneDoes(r, delayed, full, room);
      case SelfMatched => SelfMatchedDoes(r);
      case Cancel(free) => CancelDoes(r, free);
      case Test => TestDoes(r);
      case Forget => ForgetDoes(r);
    }
  }

  // ---- new requests ----

  /** What a new request waits for. */
  ghost function NewNet(f: Fresh): Net {
    var starts := f.Send? && f.ready && !f.full;
    Net(
      resources := (f.Send? && !f.ready) || f.Discarded?,
      seqnum := f.Send? && f.ready && f.full,
      sending := starts && f.kind == MediumSq && f.posted,
      ack := starts,
      reply := starts && f.kind == SendLarge,
      matching := f.PostedRecv?,
      partial := f.UnexpRndv? || (f.UnexpMedium? && !f.whole),
      pulling := false,
      unexp := f.UnexpTiny? || f.UnexpMedium? || f.UnexpRndv? || f.SelfUnexp?,
      selfSend := f.SelfSend? && !f.matched)
  }

  lemma CreateDoes(f: Fresh)
    requires f.Send? ==> SendKind(f.kind)
    ensures var r := Create(f).after;
            && r != None && r.value.net == NewNet(f) && r.value.zombie == f.Discarded?
            && (r.value.done <==> Idle(NewNet(f)) || (NewNet(f).ack && f.kind != SendLarge && f.room))
            && (f.Send? ==> r.value.kind == f.kind && r.value.partner == f.partner)
  {
  }

  // ---- the events of a run ----

  /** The event happened to the request in the course of the run. */
  ghost predicate Seen(actions: seq<Action>, id: nat, e: Event) {
    exists k :: 0 <= k < |actions| && actions[k] == On(id, e) && Possible(After(actions[..k]), actions[k])
  }

  lemma SeenSnoc(actions: seq<Action>, id: nat, e: Event)
    requires actions != []
    ensures var before, a := actions[..|actions| - 1], actions[|actions| - 1];
            Seen(actions, id, e) <==> Seen(before, id, e) || (a == On(id, e) && Possible(After(before), a))
  {
    hide After, Possible;
    var before, a := actions[..|actions| - 1], actions[|actions| - 1];
    assert forall k :: 0 <= k < |before| ==> before[k] == actions[k] && before[..k] == actions[..k];
    if a == On(id, e) && Possible(After(before), a) { assert actions[|before|] == a; }
  }

  /** Events happen to requests that exist; numbers are not used again. */
  lemma {:induction false} SeenKnown(actions: seq<Action>, id: nat, e: Event)
    requires Seen(actions, id, e)
    ensures id < After(actions).next
  {
    hide Seen, Perform, Create, Requeue, Enabled, Inv;
    if actions == [] {
      SeenNothing(id, e);
    } else {
      var before, a := actions[..|actions| - 1], actions[|actions| - 1];
      SeenSnoc(actions, id, e);
      NextGrows(After(before), a);
      if Seen(before, id, e) {
        SeenKnown(before, id, e);
      } else {
        RunKeeps(before);
        KnownBelow(After(before), id);
      }
    }
  }

  lemma SeenNothing(id: nat, e: Event)
    ensures !Seen([], id, e)
  {
  }

  lemma NextGrows(w: World, a: Action)
    ensures w.next <= Step(w, a).next
  {
    hide Perform, Create, Requeue, Enabled;
  }

  lemma KnownBelow(w: World, id: nat)
    requires Inv(w) && id in w.reqs
    ensures id < w.next && Legal(w.reqs[id])
  {
  }

  /** How a step changes one request: it is made, or an event happens to it, or it stays as it is. */
  lemma StepOf(w: World, a: Action, id: nat)
    requires Inv(w) && id in Step(w, a).reqs
    ensures var r := Step(w, a).reqs[id];
            if id in w.reqs then
              if a.On? && a.id == id && Possible(w, a) then !Ends(w.reqs[id], a.e) && r == ReqOf(w.reqs[id], a.e)
              else r == w.reqs[id]
            else
              a.New? && Possible(w, a) && id == w.next && Some(r) == Create(a.f).after
  {
    hide Perform, Create, Requeue, Legal, Enabled, ReqOf, Ends, FiledBy, DoneOk, Total;
    if a.On? && Possible(w, a) {
      KnownBelow(w, a.id);
      EventDoes(w.reqs[a.id], a.e);
    }
  }

  ghost predicate AckSeen(actions: seq<Action>, id: nat) {
    Seen(actions, id, Acked(true)) || Seen(actions, id, Acked(false))
  }

  ghost predicate ReplySeen(actions: seq<Action>, id: nat) {
    Seen(actions, id, Reply) || Seen(actions, id, Acked(false))
  }

  /** Once numbered, a large send waits for an ack until one comes, and for the reply until that or a nack comes. */
  lemma {:induction false} LargeWaits(actions: seq<Action>, id: nat)
    requires id in After(actions).reqs && After(actions).reqs[id].kind == SendLarge
    ensures var n := After(actions).reqs[id].net;
            if n.resources || n.seqnum then !AckSeen(actions, id) && !ReplySeen(actions, id)
            else (n.ack <==> !AckSeen(actions, id)) && (n.reply <==> !ReplySeen(actions, id))
  {
    hide Seen, Step, Inv;
    if actions != [] {
      var before, a := actions[..|actions| - 1], actions[|actions| - 1];
      var w := After(before);
      RunKeeps(before);
      StepOf(w, a, id);
      SeenSnoc(actions, id, Acked(true));
      SeenSnoc(actions, id, Acked(false));
      SeenSnoc(actions, id, Reply);
      if id in w.reqs {
        KnownBelow(w, id);
        LargeStep(w.reqs[id], a, id);
        LargeWaits(before, id);
      } else {
        NotSeenBefore(before, id);
        CreateDoes(a.f);
        CreateLarge(a.f);
      }
    }
  }

  lemma LargeStep(r: Req, a: Action, id: nat)
    requires Legal(r)
    ensures a.On? && a.id == id && Enabled(r, a.e) && ReqOf(r, a.e).kind == SendLarge ==>
              && r.kind == SendLarge
              && var n, n' := r.net, ReqOf(r, a.e).net;
                 && (n.resources || n.seqnum ==> !a.e.Acked? && a.e != Reply)
                 && (n'.resources || n'.seqnum ==> n.resources || n.seqnum)
                 && (n.resources || n.seqnum ==> n'.resources || n'.seqnum || (n'.ack && n'.reply))
                 && (!(n.resources || n.seqnum) ==>
                       && n'.ack == (n.ack && !a.e.Acked?)
                       && n'.reply == (n.reply && a.e != Reply && a.e != Acked(false)))
  {
  }

  lemma CreateLarge(f: Fresh)
    requires f.Send? ==> SendKind(f.kind)
    ensures Create(f).after.Some? && Create(f).after.value.kind == SendLarge ==> f.Send? && f.kind == SendLarge
  {
  }

  lemma NotSeenBefore(actions: seq<Action>, id: nat)
    requires id == After(actions).next
    ensures !AckSeen(actions, id) && !ReplySeen(actions, id)
  {
    hide Seen;
    if Seen(actions, id, Acked(true)) { SeenKnown(actions, id, Acked(true)); }
    if Seen(actions, id, Acked(false)) { SeenKnown(actions, id, Acked(false)); }
    if Seen(actions, id, Reply) { SeenKnown(actions, id, Reply); }
  }

  /**
    In every run the application is told about a large send that was not nacked
    exactly if both an ack and the reply have come, and then nothing is left to do.
  */
  lemma LargeNotified(actions: seq<Action>, id: nat)
    requires id in After(actions).reqs && After(actions).reqs[id].kind == SendLarge
    requires !Seen(actions, id, Acked(false))
    ensures var r := After(actions).reqs[id];
            && (r.done ==> Seen(actions, id, Acked(true)) && Seen(actions, id, Reply))
            && (Seen(actions, id, Acked(true)) && Seen(actions, id, Reply) ==> Idle(r.net) && Notified(r))
  {
    hide Seen, After, Inv;
    RunKeeps(actions);
    KnownBelow(After(actions), id);
    LargeWaits(actions, id);
  }

  /** In every run a medium whose fragments are in the driver leaves the sending queue only when they are done. */
  lemma LeavesSending(actions: seq<Action>, a: Action, id: nat)
    requires id in After(actions).reqs && After(actions).reqs[id].net.sending
    ensures var w' := After(actions + [a]);
            id in Get(After(actions).queue, SendingQ)
            && (id in w'.reqs && w'.reqs[id].net.sending <==> !(a == On(id, FragsDone)))
  {
    hide Step, Inv, Perform;
    var w := After(actions);
    assert (actions + [a])[..|actions|] == actions;
    RunKeeps(actions);
    KnownBelow(w, id);
    InExactlyOneQueue(actions, id, SendingQ);
    if a != On(id, FragsDone) { StillThere(w, a, id); }
    if id in Step(w, a).reqs { StepOf(w, a, id); }
  }

  lemma NotEnding(r: Req, e: Event)
    requires Legal(r) && Enabled(r, e) && r.net.sending && e != FragsDone
    ensures !Ends(r, e)
  {
  }

  /** A request goes only by an event that ends it. */
  lemma StillThere(w: World, a: Action, id: nat)
    requires Inv(w) && id in w.reqs && w.reqs[id].net.sending && a != On(id, FragsDone)
    ensures id in Step(w, a).reqs
  {
    hide Perform, Create, Requeue, Legal, Enabled, FiledBy, DoneOk, Total, Ends;
    if a.On? && Possible(w, a) {
      KnownBelow(w, a.id);
      EventDoes(w.reqs[a.id], a.e);
      if a.id == id { NotEnding(w.reqs[id], a.e); }
    }
  }

  // ---- the order of the queues ----

  lemma {:induction false} RemoveAround(list: seq<nat>, id: nat)
    requires id !in list
    ensures Remove(list, id) == list && Remove([id] + list, id) == list && Remove(list + [id], id) == list
  {
    assert ([id] + list)[1..] == list;
    if list == [] {
      assert [id][1..] == [];
    } else {
      assert (list + [id])[1..] == list[1..] + [id];
      RemoveAround(list[1..], id);
      assert list == [list[0]] + list[1..];
    }
  }

  /**
    An event moves one request only: the others keep their places in every queue.
    The request joins the end of its new queue, but a notify, an empty pull and a
    retry without success go to the head of the delayed ones.
  */
  lemma QueueOrder(w: World, id: nat, e: Event, q: Queue)
    requires Inv(w) && id in w.reqs && Enabled(w.reqs[id], e)
    ensures var r, before, after := w.reqs[id], Get(w.queue, q), Get(Step(w, On(id, e)).queue, q);
            && Remove(after, id) == Remove(before, id)
            && (!Ends(r, e) && Requeued(r, e) && q == Home(NetOf(r, e)) ==>
                  after == if ToHead(r, e) then [id] + Remove(before, id) else Remove(before, id) + [id])
  {
    hide Perform, Requeue, Legal, Enabled, Ends, Requeued, ToHead, NetOf, Home, DoneOk, Total, Get;
    var r := w.reqs[id];
    KnownBelow(w, id);
    EventDoes(r, e);
    PerformFollows(r, e);
    var m := Perform(r, e);
    RequeueGet(w.queue, id, m.from, m.to, m.head, q);
    QueueAt(w, id, q);
    RemoveAround(Remove(Get(w.queue, q), id), id);
  }

  lemma QueueAt(w: World, id: nat, q: Queue)
    requires Inv(w) && id in w.reqs
    ensures id !in Remove(Get(w.queue, q), id)
    ensures q != Home(w.reqs[id].net) ==> id !in Get(w.queue, q) && Remove(Get(w.queue, q), id) == Get(w.queue, q)
  {
    hide Home, Legal;
    assert FiledAt(w.queue, Homes(w.reqs), q);
    assert HomeIn(Homes(w.reqs), id) == Some(Home(w.reqs[id].net));
    RemoveIs(Get(w.queue, q), id);
    if q != Home(w.reqs[id].net) { RemoveAbsent(Get(w.queue, q), id); }
  }
}
