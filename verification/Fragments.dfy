/**
  Multi-fragment ("medium") messages: how the sender cuts a message and how the
  receiver accumulates fragments that come in any order and any number of times
  (libopen-mx/omx_send.c, libopen-mx/omx_recv.c).
*/
module Fragments {

  type byte = x: int | 0 <= x < 256
  type Positive = x: int | 0 < x witness 1

  /** OMX_MEDIUM_FRAG_LENGTH_MAX: fixed when the library is configured, any value. */
  const FRAG_MAX: Positive

  /** Number of fragments of a message, as submit_isend_medium computes it. */
  function FragCount(length: nat): nat {
    (length + FRAG_MAX - 1) / FRAG_MAX
  }

  function FragStart(i: nat): nat {
    i * FRAG_MAX
  }

  function FragEnd(length: nat, i: nat): nat {
    if length < FragStart(i) + FRAG_MAX then length else FragStart(i) + FRAG_MAX
  }

  lemma FragNext(i: nat)
    ensures FragStart(i + 1) == FragStart(i) + FRAG_MAX
  {
  }

  lemma {:induction false} FragStarts(i: nat, j: nat)
    ensures FragStart(i + 1) == FragStart(i) + FRAG_MAX
    ensures i < j ==> FragStart(i) + FRAG_MAX <= FragStart(j)
    decreases j
  {
    hide FragStart;
    FragNext(i);
    if i + 1 < j {
      FragStarts(i, j - 1);
      FragNext(j - 1);
    }
  }

  lemma FragCountBounds(length: nat)
    ensures length <= FragStart(FragCount(length))
    ensures forall i: nat :: i < FragCount(length) <==> FragStart(i) < length
  {
    var c := FragCount(length);
    var r := (length + FRAG_MAX - 1) % FRAG_MAX;
    assert length + FRAG_MAX - 1 == c * FRAG_MAX + r;
    forall i: nat
      ensures i < c <==> FragStart(i) < length
    {
      FragStarts(i, c);
      if c < i { FragStarts(c, i); }
    }
  }

  /** The bytes of fragment i. */
  function FragData(data: seq<byte>, i: nat): (r: seq<byte>)
    requires i < FragCount(|data|)
  {
    FragCountBounds(|data|);
    data[FragStart(i)..FragEnd(|data|, i)]
  }

  /** The part of a receive request that medium reception works on. */
  datatype Reassembly = Reassembly(
    msgLength: nat,          // status.msg_length
    xfer: nat,               // status.xfer_length
    buf: seq<byte>,          // the destination
    mask: set<nat>,          // frags_received_mask
    accumulated: nat)        // accumulated_length

  /** memcpy into a buffer. */
  function Overwrite(buf: seq<byte>, offset: nat, src: seq<byte>): (r: seq<byte>)
    requires offset + |src| <= |buf|
    ensures |r| == |buf|
  {
    buf[..offset] + src + buf[offset + |src|..]
  }

  /** How much of a fragment fits into the transferred part of the message. */
  function XferChunk(offset: nat, chunk: nat, xfer: nat): nat {
    if offset + chunk <= xfer then chunk
    else if offset <= xfer then xfer - offset
    else 0
  }

  ghost predicate WellSized(d: Reassembly) {
    d.xfer <= |d.buf| && d.xfer <= d.msgLength
  }

  /** A request that has just been matched, before its first fragment. */
  function Fresh(msgLength: nat, dest: seq<byte>): (d: Reassembly)
    ensures WellSized(d)
  {
    Reassembly(msgLength, if |dest| < msgLength then |dest| else msgLength, dest, {}, 0)
  }

  /** One fragment not seen before (omx__process_recv_medium_frag after the duplicate test). */
  function Absorb(d: Reassembly, frag: nat, data: seq<byte>): (r: Reassembly)
    requires WellSized(d)
    ensures WellSized(r) && |r.buf| == |d.buf|
  {
    var offset := FragStart(frag);
    var chunk := XferChunk(offset, |data|, d.xfer);
    d.(buf := if chunk == 0 then d.buf else Overwrite(d.buf, offset, data[..chunk]),
       mask := d.mask + {frag},
       accumulated := d.accumulated + |data|)
  }

  /** A fragment arrives: duplicates change nothing. */
  function Receive(d: Reassembly, frag: nat, data: seq<byte>): (r: Reassembly)
    requires WellSized(d)
    ensures WellSized(r)
  {
    if frag in d.mask then d else Absorb(d, frag, data)
  }

  /**
    A receive is posted for a message that was unexpected so far: the bytes of the
    temporary buffer move to the new destination (omx__complete_unexp_req_as_irecv).
  */
  function Rebind(d: Reassembly, dest: seq<byte>): (r: Reassembly)
    requires WellSized(d) && d.xfer == d.msgLength
    ensures WellSized(r)
  {
    var xfer := if |dest| < d.msgLength then |dest| else d.msgLength;
    d.(xfer := xfer, buf := Overwrite(dest, 0, d.buf[..xfer]))
  }

  predicate Complete(d: Reassembly) {
    d.accumulated == d.msgLength
  }

  // ---- what reception means ----

  /** Bytes of the fragments below k that the mask holds. */
  ghost function Covered(mask: set<nat>, length: nat, k: nat): nat
    requires k <= FragCount(length)
  {
    if k == 0 then 0 else
      FragCountBounds(length);
      Covered(mask, length, k - 1) + if k - 1 in mask then FragEnd(length, k - 1) - FragStart(k - 1) else 0
  }

  lemma {:induction false} CoveredAdd(mask: set<nat>, length: nat, k: nat, i: nat)
    requires k <= FragCount(length) && i !in mask && i < FragCount(length)
    ensures FragStart(i) < FragEnd(length, i)
    ensures Covered(mask + {i}, length, k)
         == Covered(mask, length, k) + if i < k then FragEnd(length, i) - FragStart(i) else 0
  {
    FragCountBounds(length);
    if k != 0 {
      CoveredAdd(mask, length, k - 1, i);
    }
  }

  /** Coverage never passes the fragments counted, and reaches them only when all are there. */
  lemma {:induction false} CoveredFull(mask: set<nat>, length: nat, k: nat)
    requires k <= FragCount(length)
    ensures Covered(mask, length, k) <= if k == FragCount(length) then length else FragStart(k)
    ensures Covered(mask, length, k) == (if k == FragCount(length) then length else FragStart(k))
       <==> (forall i: nat :: i < k ==> i in mask)
  {
    FragCountBounds(length);
    if k != 0 {
      CoveredFull(mask, length, k - 1);
      FragStarts(k - 1, k);
      assert FragStart(k - 1) < length;
      assert (forall i: nat :: i < k ==> i in mask) <==> (forall i: nat :: i < k - 1 ==> i in mask) && k - 1 in mask;
      if k < FragCount(length) {
        assert FragStart(k) < length;
      }
    }
  }

  /** The request holds exactly the fragments of `data` recorded in its mask. */
  ghost predicate Holds(d: Reassembly, data: seq<byte>) {
    && WellSized(d)
    && d.msgLength == |data|
    && (forall i :: i in d.mask ==> i < FragCount(|data|))
    && d.accumulated == Covered(d.mask, |data|, FragCount(|data|))
    && (forall i, j: nat :: i in d.mask && FragStart(i) <= j < FragEnd(|data|, i) && j < d.xfer ==> d.buf[j] == data[j])
  }

  lemma {:induction false} CoveredNothing(length: nat, k: nat)
    requires k <= FragCount(length)
    ensures Covered({}, length, k) == 0
  {
    if k != 0 { CoveredNothing(length, k - 1); }
  }

  lemma FreshHolds(data: seq<byte>, dest: seq<byte>)
    ensures Holds(Fresh(|data|, dest), data)
  {
    CoveredNothing(|data|, FragCount(|data|));
  }

  /** Every arrival, new or duplicate, keeps the request faithful to the message. */
  lemma ReceiveHolds(d: Reassembly, data: seq<byte>, frag: nat)
    requires Holds(d, data) && frag < FragCount(|data|)
    ensures Holds(Receive(d, frag, FragData(data, frag)), data)
    ensures Receive(d, frag, FragData(data, frag)).mask == d.mask + {frag}
  {
    FragCountBounds(|data|);
    if frag !in d.mask {
      var fd := FragData(data, frag);
      var r := Absorb(d, frag, fd);
      CoveredAdd(d.mask, |data|, FragCount(|data|), frag);
      forall i, j: nat | i in r.mask && FragStart(i) <= j < FragEnd(|data|, i) && j < r.xfer
        ensures r.buf[j] == data[j]
      {
        FragStarts(i, frag);
        FragStarts(frag, i);
      }
    }
  }

  /** Moving to another destination keeps what has been received. */
  lemma RebindHolds(d: Reassembly, data: seq<byte>, dest: seq<byte>)
    requires Holds(d, data) && d.xfer == d.msgLength
    ensures Holds(Rebind(d, dest), data) && Rebind(d, dest).mask == d.mask
    ensures Rebind(d, dest).xfer == if |dest| < |data| then |dest| else |data|
  {
    hide FragStart, FragEnd, Covered, FragCount;
    var r := Rebind(d, dest);
    assert forall j :: 0 <= j < r.xfer ==> r.buf[j] == d.buf[j];
  }

  /** Completion is reached exactly when the last distinct fragment is in. */
  lemma CompleteIffAll(d: Reassembly, data: seq<byte>)
    requires Holds(d, data)
    ensures Complete(d) <==> (forall i: nat :: i < FragCount(|data|) ==> i in d.mask)
  {
    CoveredFull(d.mask, |data|, FragCount(|data|));
  }

  /** A completed request holds the first xfer_length bytes of the message. */
  lemma CompleteMeansBytes(d: Reassembly, data: seq<byte>)
    requires Holds(d, data) && Complete(d)
    ensures d.xfer <= |d.buf| && d.xfer <= |data|
    ensures d.buf[..d.xfer] == data[..d.xfer]
  {
    CompleteIffAll(d, data);
    forall j | 0 <= j < d.xfer
      ensures d.buf[j] == data[j]
    {
      var i := j / FRAG_MAX;
      assert FragStart(i) <= j < FragStart(i) + FRAG_MAX;
      FragCountBounds(|data|);
    }
  }

  /** The receiver after a whole sequence of fragment arrivals. */
  function ReceiveAll(d: Reassembly, data: seq<byte>, arrivals: seq<nat>): (r: Reassembly)
    requires WellSized(d)
    requires forall k :: 0 <= k < |arrivals| ==> arrivals[k] < FragCount(|data|)
    ensures WellSized(r) && r.msgLength == d.msgLength && r.xfer == d.xfer
  {
    if arrivals == [] then d
    else
      var before := ReceiveAll(d, data, arrivals[..|arrivals| - 1]);
      var frag := arrivals[|arrivals| - 1];
      Receive(before, frag, FragData(data, frag))
  }

  lemma {:induction false} ReceiveAllHolds(d: Reassembly, data: seq<byte>, arrivals: seq<nat>)
    requires Holds(d, data) && forall k :: 0 <= k < |arrivals| ==> arrivals[k] < FragCount(|data|)
    ensures Holds(ReceiveAll(d, data, arrivals), data)
    ensures forall i :: i in ReceiveAll(d, data, arrivals).mask <==> i in d.mask || i in arrivals
  {
    hide Holds, Receive, FragCount;
    HoldsSized(d, data);
    if arrivals != [] {
      var init, last := arrivals[..|arrivals| - 1], arrivals[|arrivals| - 1];
      ReceiveAllHolds(d, data, init);
      HoldsSized(ReceiveAll(d, data, init), data);
      ReceiveHolds(ReceiveAll(d, data, init), data, last);
      assert arrivals == init + [last];
    }
  }

  lemma HoldsSized(d: Reassembly, data: seq<byte>)
    requires Holds(d, data)
    ensures WellSized(d) && d.msgLength == |data|
  {
  }

  /**
    Fragments in any order, with any duplicates: the request completes exactly
    when every fragment has come, and then holds the first bytes of the message.
  */
  lemma MediumRoundTrip(data: seq<byte>, dest: seq<byte>, arrivals: seq<nat>)
    requires forall k :: 0 <= k < |arrivals| ==> arrivals[k] < FragCount(|data|)
    ensures var d := ReceiveAll(Fresh(|data|, dest), data, arrivals);
            && (Complete(d) <==> forall i: nat :: i < FragCount(|data|) ==> i in arrivals)
            && (Complete(d) ==> d.buf[..d.xfer] == data[..d.xfer])
            && d.xfer == if |dest| < |data| then |dest| else |data|
  {
    hide Holds, Complete, Fresh, ReceiveAll, FragCount, Rebind;
    FreshHolds(data, dest);
    FreshIs(|data|, dest);
    ReceiveAllHolds(Fresh(|data|, dest), data, arrivals);
    RoundTrip(ReceiveAll(Fresh(|data|, dest), data, arrivals), data, arrivals);
  }

  ghost predicate AreFrags(arrivals: seq<nat>, length: nat) {
    forall k :: 0 <= k < |arrivals| ==> arrivals[k] < FragCount(length)
  }

  /** Some fragments come before the receive is posted, the others after it. */
  ghost function ReceiveMidway(data: seq<byte>, memory: seq<byte>, dest: seq<byte>, before: seq<nat>,
      after: seq<nat>): (r: Reassembly)
    requires |memory| == |data| && AreFrags(before, |data|) && AreFrags(after, |data|)
    ensures WellSized(r) && r.msgLength == |data|
  {
    ReceiveAll(Rebind(ReceiveAll(Fresh(|data|, memory), data, before), dest), data, after)
  }

  /**
    The same when the message was unexpected and is matched midway, with any order
    and any duplicates on both sides of the match.
  */
  lemma MediumMatchedMidway(data: seq<byte>, memory: seq<byte>, dest: seq<byte>, before: seq<nat>, after: seq<nat>)
    requires |memory| == |data| && AreFrags(before, |data|) && AreFrags(after, |data|)
    ensures var d := ReceiveMidway(data, memory, dest, before, after);
            && (Complete(d) <==> forall i: nat :: i < FragCount(|data|) ==> i in before || i in after)
            && (Complete(d) ==> d.buf[..d.xfer] == data[..d.xfer])
            && d.xfer == if |dest| < |data| then |dest| else |data|
  {
    hide Holds, Complete, Fresh, ReceiveAll, FragCount, Rebind;
    FreshHolds(data, memory);
    FreshIs(|data|, memory);
    var d1 := ReceiveAll(Fresh(|data|, memory), data, before);
    ReceiveAllHolds(Fresh(|data|, memory), data, before);
    RebindHolds(d1, data, dest);
    var d2 := Rebind(d1, dest);
    ReceiveAllHolds(d2, data, after);
    RoundTrip(ReceiveAll(d2, data, after), data, before + after);
    assert forall i: nat :: i in before + after <==> i in before || i in after;
  }

  lemma FreshIs(length: nat, dest: seq<byte>)
    ensures Fresh(length, dest).msgLength == length && Fresh(length, dest).mask == {}
    ensures Fresh(length, dest).xfer == if |dest| < length then |dest| else length
  {
  }

  lemma RoundTrip(d: Reassembly, data: seq<byte>, arrivals: seq<nat>)
    requires Holds(d, data) && forall i: nat :: i in d.mask <==> i in arrivals
    ensures d.xfer <= |d.buf| && d.xfer <= |data|
    ensures Complete(d) <==> forall i: nat :: i < FragCount(|data|) ==> i in arrivals
    ensures Complete(d) ==> d.buf[..d.xfer] == data[..d.xfer]
  {
    CompleteIffAll(d, data);
    if Complete(d) { CompleteMeansBytes(d, data); }
  }
}
