/**
  The send side of a partner (libopen-mx/omx_send.c, libopen-mx/omx_ack.c) as
  functions on values: numbering, throttling, cumulative acks and nacks.
*/
module Sending {
  import opened Seqnums
  import opened Messages

  const U32 := 0x1_0000_0000

  /** A posted send; `id` is its identity, the position of its message in the log. */
  datatype SendReq = SendReq(id: nat, seqnum: Seqnum)

  /** The send fields of struct omx__partner, and three logs. */
  datatype Sender = Sender(
    nextSend: Seqnum,          // next_send_seq
    nextAcked: Seqnum,         // next_acked_send_seq
    nonAcked: seq<SendReq>,    // non_acked_req_q
    throttled: seq<Msg>,       // need_seqnum_send_req_q
    delayed: seq<Msg>,         // need_resources_send_req_q of the endpoint, as far as it is for this partner
    throttlingNr: int,         // throttling_sends_nr, 32 bits
    sent: seq<Msg>,            // messages in the order they were numbered
    completed: seq<nat>,       // requests completed with success by an ack
    failed: seq<nat>)          // requests completed with an error by a nack

  /** omx__setup_isend_*: number the message and queue it until it is acked. */
  function Setup(s: Sender, m: Msg): Sender {
    s.(nextSend := Increase(s.nextSend),
       nonAcked := s.nonAcked + [SendReq(|s.sent|, s.nextSend)],
       sent := s.sent + [m])
  }

  /** omx__alloc_setup_isend_* with all resources at hand: throttle when the window is full. */
  function Allocated(s: Sender, m: Msg): Sender {
    if Seq(s.nextSend - s.nextAcked) >= WINDOW then
      s.(throttled := s.throttled + [m], throttlingNr := (s.throttlingNr + 1) % U32)
    else
      Setup(s, m)
  }

  /**
    omx__submit_isend_*: a message waits behind those that are delayed, or because
    it is not `ready`: it lacks resources, or something else of the endpoint waits.
  */
  function Submit(s: Sender, m: Msg, ready: bool): Sender {
    if s.delayed != [] || !ready then s.(delayed := s.delayed + [m]) else Allocated(s, m)
  }

  /** omx__submit_notify: an internal message goes before those that are delayed. */
  function SubmitNotify(s: Sender, m: Msg, ready: bool): Sender {
    if s.delayed != [] || !ready then s.(delayed := [m] + s.delayed) else Allocated(s, m)
  }

  /** omx__process_delayed_requests: so many requests at the head find their resources, the next one does not. */
  function Retry(s: Sender, ready: nat): Sender
    decreases ready
  {
    if ready == 0 || s.delayed == [] then s
    else Retry(Allocated(s.(delayed := s.delayed[1..]), s.delayed[0]), ready - 1)
  }

  /** What the application sent, without the internal messages. */
  function Users(ms: seq<Msg>): seq<Msg> {
    if ms == [] then []
    else Users(ms[..|ms| - 1]) + if ms[|ms| - 1].kind == Notify then [] else [ms[|ms| - 1]]
  }

  /** omx__process_throttling_requests, one request per turn. */
  function Release(s: Sender, nr: nat): Sender
    decreases nr
  {
    if nr == 0 || s.throttled == [] then s
    else Release(Setup(s.(throttled := s.throttled[1..]), s.throttled[0]), nr - 1)
  }

  /** How many requests at the head of the queue an ack covers: the loop stops at the first it does not. */
  function AckedPrefix(queue: seq<SendReq>, nextAcked: Seqnum, newAcks: nat): (k: nat)
    ensures k <= |queue|
  {
    if queue == [] || Seq(queue[0].seqnum - nextAcked) >= newAcks then 0
    else 1 + AckedPrefix(queue[1..], nextAcked, newAcks)
  }

  function Ids(queue: seq<SendReq>): (ids: seq<nat>)
    ensures |ids| == |queue|
    ensures forall i :: 0 <= i < |queue| ==> ids[i] == queue[i].id
  {
    if queue == [] then [] else [queue[0].id] + Ids(queue[1..])
  }

  /** The part of omx__handle_ack that completes requests. */
  function Complete(s: Sender, ackBefore: Seqnum, newAcks: nat): Sender {
    var k := AckedPrefix(s.nonAcked, s.nextAcked, newAcks);
    s.(nonAcked := s.nonAcked[k..], completed := s.completed + Ids(s.nonAcked[..k]), nextAcked := ackBefore)
  }

  /** omx__handle_ack */
  function HandleAck(s: Sender, ackBefore: Seqnum): Sender {
    var missingAcks := Seq(s.nextSend - s.nextAcked);
    var newAcks := Seq(ackBefore - s.nextAcked);
    if newAcks == 0 || newAcks > missingAcks then s
    else
      var s1 := Release(Complete(s, ackBefore, newAcks), newAcks);
      // omx__update_partner_throttling
      s1.(throttlingNr := (s.throttlingNr - (|s.throttled| - |s1.throttled|)) % U32)
  }

  /** Position of the request a nack names, if it is still queued; the scan stops past it. */
  function NackedAt(queue: seq<SendReq>, nextAcked: Seqnum, nackIndex: nat): (k: nat)
    ensures k <= |queue|
  {
    if queue == [] then 0
    else
      var reqIndex := Seq(queue[0].seqnum - nextAcked);
      if nackIndex < reqIndex then |queue|
      else if nackIndex == reqIndex then 0
      else 1 + NackedAt(queue[1..], nextAcked, nackIndex)
  }

  /** omx__handle_nack for a send: the request leaves the queue without success. */
  function HandleNack(s: Sender, seqnum: Seqnum): Sender {
    var k := NackedAt(s.nonAcked, s.nextAcked, Seq(seqnum - s.nextAcked));
    if Ses(seqnum) != Ses(s.nextSend) || k == |s.nonAcked| then s
    else s.(nonAcked := s.nonAcked[..k] + s.nonAcked[k + 1..], failed := s.failed + [s.nonAcked[k].id])
  }
}
