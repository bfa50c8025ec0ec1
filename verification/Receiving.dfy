/**
  The receive side of a partner (libopen-mx/omx_recv.c), as functions on values:
  classification of a packet against the 14-bit window, the early queue, the
  queue of partially received mediums.  The class in Partners runs them in
  place; Reception proves what they keep.
*/
module Receiving {
  import opened Seqnums
  import opened Fragments
  import opened Messages

  /**
    Who has a matched message: a posted receive, the unexpected queue, or nobody
    because the unexpected handler took care of it.
  */
  datatype Owner = Posted | Unexpected | Discarded

  /**
    A receive request bound to an incoming message, or the record that there is
    none.  `dest` is what the request's buffer held when it was bound; its length is
    that of the buffer.
  */
  datatype Delivery = Delivery(seqnum: Seqnum, kind: Kind, info: bv64, owner: Owner, dest: seq<byte>, rx: Reassembly)

  /** The message still needs fragments. */
  predicate Open(d: Delivery) {
    d.owner != Discarded && !Complete(d.rx)
  }

  /**
    The receive fields of struct omx__partner.  `inbox` lists the requests that
    messages were bound to, in matching order; `partial` holds positions in it.
  */
  datatype Receiver = Receiver(
    nextMatch: Seqnum,       // next_match_recv_seq
    nextFrag: Seqnum,        // next_frag_recv_seq
    inbox: seq<Delivery>,
    partial: seq<nat>,       // partial_medium_recv_req_q
    early: seq<Packet>)      // early_recv_q

  /**
    What the rest of the library answers when a message needs a request, or an
    early packet needs memory: no memory, a posted receive and its buffer, memory
    for an unexpected message, or that the unexpected handler has finished with it.
  */
  datatype Answer = Refuse | Into(dest: seq<byte>) | Keep(memory: seq<byte>) | Discard

  function Pick(answers: seq<Answer>, k: nat): Answer {
    if k < |answers| then answers[k] else Refuse
  }

  function Rest(answers: seq<Answer>): seq<Answer> {
    if answers == [] then [] else answers[1..]
  }

  /** list_del of one entry. */
  function Without(q: seq<nat>, id: nat): (r: seq<nat>)
    ensures forall x :: x in r ==> x in q
  {
    if q == [] then [] else if q[0] == id then q[1..] else [q[0]] + Without(q[1..], id)
  }

  /** An unexpected message has room for all its bytes. */
  ghost predicate Sized(d: Delivery) {
    WellSized(d.rx) && (d.owner == Unexpected ==> d.rx.xfer == d.rx.msgLength)
  }

  ghost predicate WellFormed(r: Receiver) {
    && (forall i :: 0 <= i < |r.inbox| ==> Sized(r.inbox[i]))
    && (forall i :: 0 <= i < |r.partial| ==> r.partial[i] < |r.inbox|)
  }

  /** omx__process_recv_medium_frag */
  function TakeFrag(r: Receiver, id: nat, p: Packet): (r': Receiver)
    requires WellFormed(r) && id < |r.inbox|
    ensures WellFormed(r') && |r'.inbox| == |r.inbox|
    ensures r'.nextMatch == r.nextMatch && r'.nextFrag == r.nextFrag && r'.early == r.early
  {
    var d := r.inbox[id];
    if p.frag in d.rx.mask then r
    else
      var rx := Absorb(d.rx, p.frag, p.data);
      var queue := if d.rx.mask == {} then r.partial + [id] else r.partial;
      var left := if rx.accumulated == p.msgLength then Without(queue, id) else queue;
      assert forall i :: 0 <= i < |left| ==> left[i] in left;
      r.(inbox := r.inbox[id := d.(rx := rx)], partial := left)
  }

  /** The request state of a message that comes in one packet. */
  function WholeRx(data: seq<byte>, dest: seq<byte>): (rx: Reassembly)
    ensures WellSized(rx)
  {
    var rx := Fresh(|data|, dest);
    rx.(buf := Overwrite(dest, 0, data[..rx.xfer]), mask := {0}, accumulated := |data|)
  }

  /** The length of the buffer that an unexpected message needs. */
  function BufferLength(p: Packet): nat {
    if p.kind == Medium then p.msgLength else |p.data|
  }

  /** omx__try_match_next_recv: bind the packet's message to a request that has this buffer. */
  function Bind(r: Receiver, p: Packet, owner: Owner, dest: seq<byte>): (r': Receiver)
    requires WellFormed(r) && owner != Discarded && (owner == Unexpected ==> |dest| == BufferLength(p))
    ensures WellFormed(r') && |r'.inbox| == |r.inbox| + 1
    ensures r'.nextMatch == r.nextMatch && r'.early == r.early
  {
    if p.kind == Medium then
      var r1 := r.(inbox := r.inbox + [Delivery(p.seqnum, p.kind, p.info, owner, dest, Fresh(p.msgLength, dest))]);
      TakeFrag(r1, |r.inbox|, p)
    else
      r.(inbox := r.inbox + [Delivery(p.seqnum, p.kind, p.info, owner, dest, WholeRx(p.data, dest))])
  }

  /** The handler returned RECV_FINISHED: the message counts as matched, and nothing of it is kept. */
  function Drop(r: Receiver, p: Packet): (r': Receiver)
    requires WellFormed(r)
    ensures WellFormed(r') && |r'.inbox| == |r.inbox| + 1
    ensures r'.nextMatch == r.nextMatch && r'.early == r.early
  {
    var nothing := Reassembly(BufferLength(p), 0, [], {}, 0);
    r.(inbox := r.inbox + [Delivery(p.seqnum, p.kind, p.info, Discarded, [], nothing)])
  }

  /** A receive is posted that matches an unexpected message (omx__complete_unexp_req_as_irecv). */
  function Match(r: Receiver, id: nat, dest: seq<byte>): (r': Receiver)
    requires WellFormed(r) && id < |r.inbox| && r.inbox[id].owner == Unexpected
    ensures WellFormed(r') && |r'.inbox| == |r.inbox|
  {
    var d := r.inbox[id];
    var d' := if d.kind == Rndv then d else d.(dest := dest, rx := Rebind(d.rx, dest));
    r.(inbox := r.inbox[id := d'.(owner := Posted)])
  }

  /** omx__update_partner_next_frag_recv_seq, without the ack scheduling. */
  function UpdateFrag(r: Receiver): Receiver
    requires WellFormed(r)
  {
    r.(nextFrag := if r.partial == [] then r.nextMatch else r.inbox[r.partial[0]].seqnum)
  }

  /** Position in the partial queue of the request at this offset from nextFrag; the scan stops past it. */
  function FindPartial(r: Receiver, index: nat, k: nat): (pos: nat)
    requires WellFormed(r) && k <= |r.partial|
    ensures pos <= |r.partial|
    decreases |r.partial| - k
  {
    if k == |r.partial| then k
    else
      var reqIndex := Seq(r.inbox[r.partial[k]].seqnum - r.nextFrag);
      if reqIndex == index then k
      else if reqIndex > index then |r.partial|
      else FindPartial(r, index, k + 1)
  }

  /** omx__continue_partial_request */
  function Continue(r: Receiver, p: Packet): (r': Receiver)
    requires WellFormed(r)
    ensures WellFormed(r') && r'.early == r.early
  {
    var pos := FindPartial(r, Seq(p.seqnum - r.nextFrag), 0);
    if pos == |r.partial| then r
    else
      var r1 := TakeFrag(r, r.partial[pos], p);
      UpdateFrag(r1)
  }

  /**
    What becomes of a packet that is next to be matched.  The request of a
    rendezvous keeps its descriptor, a notify needs no matching, and memory that
    is too short for an unexpected message is none.
  */
  function Outcome(p: Packet, answer: Answer): (o: Answer)
    ensures o.Keep? ==> |o.memory| == BufferLength(p)
  {
    if p.kind == Notify then Into(p.data)
    else
      match answer
      case Into(dest) => if p.kind == Rndv then Into(p.data) else answer
      case Keep(memory) =>
        if p.kind == Rndv then Keep(p.data)
        else if |memory| < BufferLength(p) then Refuse
        else Keep(memory[..BufferLength(p)])
      case _ => answer
  }

  /** omx__process_partner_ordered_recv */
  function Ordered(r: Receiver, p: Packet, answer: Answer): (r': Receiver)
    requires WellFormed(r)
    ensures WellFormed(r') && r'.early == r.early
  {
    var matchIndex := Seq(p.seqnum - r.nextMatch);
    var fragIndex := Seq(p.seqnum - r.nextFrag);
    var fragIndexMax := Seq(r.nextMatch - r.nextFrag);
    if matchIndex == 0 then
      match Outcome(p, answer)
      case Refuse => r
      case Into(dest) => Advance(Bind(r, p, Posted, dest))
      case Keep(memory) => Advance(Bind(r, p, Unexpected, memory))
      case Discard => Advance(Drop(r, p))
    else if p.kind == Medium && fragIndex < fragIndexMax then
      Continue(r, p)
    else
      r
  }

  /** The message is matched: the next number is expected. */
  function Advance(r: Receiver): (r': Receiver)
    requires WellFormed(r)
    ensures WellFormed(r') && r'.early == r.early
  {
    UpdateFrag(r.(nextMatch := Increase(r.nextMatch)))
  }

  /**
    omx__find_previous_early_packet: how many of the first k queued packets stay
    in front of the new one, scanning from the back; -1 for a duplicate.
  */
  function Place(early: seq<Packet>, p: Packet, nextMatch: Seqnum, k: nat): (at: int)
    requires k <= |early|
    ensures -1 <= at <= k
  {
    if k == 0 then 0
    else
      var current := early[k - 1];
      var newIndex := Seq(p.seqnum - nextMatch);
      var currentIndex := Seq(current.seqnum - nextMatch);
      if newIndex > currentIndex then k
      else if newIndex < currentIndex then Place(early, p, nextMatch, k - 1)
      else if p.kind == Medium then
        if p.frag > current.frag then k
        else if p.frag < current.frag then Place(early, p, nextMatch, k - 1)
        else -1
      else -1
  }

  /** omx__postpone_early_packet */
  function Postpone(r: Receiver, p: Packet, answer: Answer): Receiver {
    var at := Place(r.early, p, r.nextMatch, |r.early|);
    if at == -1 || answer == Refuse then r
    else r.(early := r.early[..at] + [p] + r.early[at..])
  }

  /**
    The loop over the early queue: packets at most `indexMax` after `base` leave
    the queue and are processed in order, the others stay.  `r.early` collects
    the packets that stay.
  */
  function Drain(r: Receiver, todo: seq<Packet>, base: Seqnum, indexMax: nat, answers: seq<Answer>): (r': Receiver)
    requires WellFormed(r)
    ensures WellFormed(r')
    decreases |todo|
  {
    if todo == [] then r
    else if Seq(todo[0].seqnum - base) <= indexMax then
      Drain(Ordered(r, todo[0], Pick(answers, 0)), todo[1..], base, indexMax,
            Rest(answers))
    else
      Drain(r.(early := r.early + [todo[0]]), todo[1..], base, indexMax, answers)
  }

  /** omx__process_recv after the session tests and the piggybacked ack. */
  function Process(r: Receiver, p: Packet, answers: seq<Answer>): (r': Receiver)
    requires WellFormed(r)
    ensures WellFormed(r')
  {
    var fragIndex := Seq(p.seqnum - r.nextFrag);
    var fragIndexMax := Seq(r.nextMatch - r.nextFrag);
    if fragIndex <= fragIndexMax then
      var r1 := Ordered(r, p, Pick(answers, 0));
      if r1.nextMatch == r.nextMatch then r1
      else
        var indexMax := Seq(r1.nextMatch - r.nextMatch);
        Drain(r1.(early := []), r1.early, r.nextMatch, indexMax, Rest(answers))
    else if fragIndex <= fragIndexMax + EARLY_MAX then
      Postpone(r, p, Pick(answers, 0))
    else
      r
  }
}
