/**
  What the send side keeps: the window, the throttle queue, and the meaning of a
  cumulative ack at every wrap position of the 14-bit counter.
*/
module Emission {
  import opened Ascents
  import opened Seqnums
  import opened Messages
  import opened Sending

  /** The true value of next_send_seq. */
  ghost function SentN(s: Sender): nat {
    1 + |s.sent|
  }

  /** The true value of next_acked_send_seq: the window is what the masked difference says. */
  ghost function AckedN(s: Sender): int {
    SentN(s) - Seq(s.nextSend - s.nextAcked)
  }

  /** Queued requests: numbers between lo and hi, in order, wire numbers true to them. */
  ghost predicate Queued(queue: seq<SendReq>, ses: Session, lo: int, hi: int) {
    && (forall i, j :: 0 <= i < j < |queue| ==> queue[i].id < queue[j].id)
    && (forall i :: 0 <= i < |queue| ==> lo <= queue[i].id + 1 < hi && queue[i].seqnum == Wire(ses, queue[i].id + 1))
  }

  ghost predicate Throttling(s: Sender) {
    && (s.throttled != [] ==> SentN(s) - AckedN(s) == WINDOW)
    && s.throttlingNr == |s.throttled| % U32
  }

  /** Both counters stand for true numbers at most a window apart. */
  ghost predicate Window(s: Sender, ses: Session) {
    && 1 <= AckedN(s) <= SentN(s) <= AckedN(s) + WINDOW
    && s.nextSend == Wire(ses, SentN(s))
    && s.nextAcked == Wire(ses, AckedN(s))
  }

  ghost predicate Completed(ids: seq<nat>, hi: int) {
    Ascending(ids) && forall i :: 0 <= i < |ids| ==> ids[i] + 1 < hi
  }

  ghost predicate AllValid(ms: seq<Msg>) {
    forall i :: 0 <= i < |ms| ==> ValidMsg(ms[i])
  }

  /** Everything but the throttle counter. */
  ghost predicate Numbered(s: Sender, ses: Session) {
    && Window(s, ses)
    && Queued(s.nonAcked, ses, AckedN(s), SentN(s))
    && Completed(s.completed, AckedN(s))
    && AllValid(s.sent)
    && AllValid(s.throttled)
    && AllValid(s.delayed)
  }

  ghost predicate SendInv(s: Sender, ses: Session) {
    Numbered(s, ses) && Throttling(s)
  }

  /** The masked difference gives the counters back. */
  lemma WindowOf(s: Sender, ses: Session, acked: nat)
    requires 1 <= acked <= SentN(s) <= acked + WINDOW
    requires s.nextSend == Wire(ses, SentN(s)) && s.nextAcked == Wire(ses, acked)
    ensures AckedN(s) == acked && Window(s, ses)
  {
    WireDistance(ses, SentN(s), acked);
  }

  lemma SetupWindow(s: Sender, ses: Session, m: Msg)
    requires Window(s, ses) && SentN(s) < AckedN(s) + WINDOW
    ensures Window(Setup(s, m), ses)
    ensures AckedN(Setup(s, m)) == AckedN(s) && SentN(Setup(s, m)) == SentN(s) + 1
  {
    hide Wire, Seq, Increase;
    WireIncrease(ses, SentN(s));
    WindowOf(Setup(s, m), ses, AckedN(s));
  }

  /** Numbering one message moves the window by one. */
  lemma SetupNumbered(s: Sender, ses: Session, m: Msg)
    requires Numbered(s, ses) && SentN(s) < AckedN(s) + WINDOW && ValidMsg(m)
    ensures Numbered(Setup(s, m), ses)
    ensures AckedN(Setup(s, m)) == AckedN(s) && SentN(Setup(s, m)) == SentN(s) + 1
  {
    hide Wire, Seq, Increase, AckedN, Completed, ValidMsg;
    SetupWindow(s, ses, m);
  }

  /** With its resources at hand a message is numbered, or waits behind the throttled ones. */
  lemma AllocatedInv(s: Sender, ses: Session, m: Msg)
    requires SendInv(s, ses) && ValidMsg(m)
    ensures var s' := Allocated(s, m);
            && SendInv(s', ses)
            && s'.sent + s'.throttled == s.sent + s.throttled + [m]
            && s'.delayed == s.delayed && s.sent <= s'.sent
            && AckedN(s') == AckedN(s)
  {
    if SentN(s) - AckedN(s) < WINDOW {
      hide Seq, Wire, Numbered, Setup;
      SetupNumbered(s, ses, m);
      SetupFields(s, m);
      assert s.throttled == [];
    } else {
      hide Seq, Wire;
    }
  }

  lemma SetupFields(s: Sender, m: Msg)
    ensures var s' := Setup(s, m);
            && s'.sent == s.sent + [m] && s'.throttled == s.throttled && s'.delayed == s.delayed
            && s'.throttlingNr == s.throttlingNr && s'.completed == s.completed && s'.nextAcked == s.nextAcked
  {
  }

  /** Everything on its way to the peer, in the order it will be numbered. */
  function Pipeline(s: Sender): seq<Msg> {
    s.sent + s.throttled + s.delayed
  }

  lemma DelayedInv(s: Sender, ses: Session, delayed: seq<Msg>)
    requires SendInv(s, ses) && AllValid(delayed)
    ensures SendInv(s.(delayed := delayed), ses) && AckedN(s.(delayed := delayed)) == AckedN(s)
  {
    hide Window, Queued, Completed, AckedN, ValidMsg;
    AckedFields(s, s.(delayed := delayed));
    WindowFields(s, s.(delayed := delayed), ses);
  }

  lemma AckedFields(s: Sender, s': Sender)
    requires s'.sent == s.sent && s'.nextSend == s.nextSend && s'.nextAcked == s.nextAcked
    ensures AckedN(s') == AckedN(s)
  {
  }

  lemma WindowFields(s: Sender, s': Sender, ses: Session)
    requires s'.sent == s.sent && s'.nextSend == s.nextSend && s'.nextAcked == s.nextAcked && Window(s, ses)
    ensures Window(s', ses)
  {
  }

  /** A submission joins the end of the pipeline. */
  lemma SubmitInv(s: Sender, ses: Session, m: Msg, ready: bool)
    requires SendInv(s, ses) && ValidMsg(m)
    ensures var s' := Submit(s, m, ready);
            && SendInv(s', ses)
            && Pipeline(s') == Pipeline(s) + [m]
            && s'.delayed == (if s.delayed == [] && ready then [] else s.delayed + [m])
            && s.sent <= s'.sent && AckedN(s') == AckedN(s)
  {
    hide SendInv, AckedN, Allocated, ValidMsg;
    if s.delayed != [] || !ready {
      DelayedValid(s, ses);
      DelayedInv(s, ses, s.delayed + [m]);
    } else {
      AllocatedInv(s, ses, m);
    }
  }

  lemma DelayedValid(s: Sender, ses: Session)
    requires SendInv(s, ses)
    ensures AllValid(s.delayed)
  {
  }

  /** A notify may jump the delayed messages, but takes no place from a message of the application. */
  lemma SubmitNotifyInv(s: Sender, ses: Session, m: Msg, ready: bool)
    requires SendInv(s, ses) && ValidMsg(m) && m.kind == Notify
    ensures var s' := SubmitNotify(s, m, ready);
            && SendInv(s', ses)
            && Pipeline(s') == s.sent + s.throttled + [m] + s.delayed
            && s'.delayed == (if s.delayed == [] && ready then [] else [m] + s.delayed)
            && Users(Pipeline(s')) == Users(Pipeline(s))
            && s.sent <= s'.sent && AckedN(s') == AckedN(s)
  {
    hide SendInv, AckedN, Allocated, ValidMsg, Users;
    if s.delayed != [] || !ready {
      DelayedValid(s, ses);
      DelayedInv(s, ses, [m] + s.delayed);
      assert s.sent + s.throttled + ([m] + s.delayed) == s.sent + s.throttled + [m] + s.delayed;
    } else {
      AllocatedInv(s, ses, m);
      assert Allocated(s, m).sent + Allocated(s, m).throttled + [] == s.sent + s.throttled + [m] + s.delayed;
    }
    UsersInsert(s.sent + s.throttled, m, s.delayed);
  }

  lemma {:induction false} UsersConcat(a: seq<Msg>, b: seq<Msg>)
    ensures Users(a + b) == Users(a) + Users(b)
  {
    if b == [] {
      assert a + b == a;
    } else {
      var last := |b| - 1;
      UsersConcat(a, b[..last]);
      assert (a + b)[..|a + b| - 1] == a + b[..last];
    }
  }

  lemma UsersNone()
    ensures Users([]) == []
  {
  }

  lemma SessionOf(s: Sender, ses: Session)
    requires SendInv(s, ses)
    ensures Ses(s.nextSend) == ses
  {
    hide Wire;
    WireSession(ses, SentN(s));
  }

  lemma UsersInsert(a: seq<Msg>, m: Msg, b: seq<Msg>)
    ensures Users(a + [m] + b) == Users(a) + (if m.kind == Notify then [] else [m]) + Users(b)
    ensures Users(a + b) == Users(a) + Users(b)
  {
    UsersConcat(a + [m], b);
    UsersConcat(a, [m]);
    UsersConcat(a, b);
    assert [m][..0] == [];
  }

  /** So many delayed messages as have their resources move on, without changing the order. */
  lemma {:induction false} RetryInv(s: Sender, ses: Session, ready: nat)
    requires SendInv(s, ses)
    ensures var s' := Retry(s, ready);
            && SendInv(s', ses)
            && Pipeline(s') == Pipeline(s)
            && s'.delayed == s.delayed[if ready < |s.delayed| then ready else |s.delayed|..]
            && s.sent <= s'.sent && AckedN(s') == AckedN(s)
    decreases ready
  {
    hide SendInv, AckedN, Allocated, ValidMsg;
    if ready != 0 && s.delayed != [] {
      var m, rest := s.delayed[0], s.delayed[1..];
      DelayedValid(s, ses);
      var s0 := s.(delayed := rest);
      DelayedInv(s, ses, rest);
      AllocatedInv(s0, ses, m);
      var s1 := Allocated(s0, m);
      RetryInv(s1, ses, ready - 1);
      assert s.delayed == [m] + rest;
      assert s1.sent + s1.throttled + s1.delayed == s.sent + s.throttled + s.delayed;
    }
  }

  /**
    Releasing throttled requests: with room for nr more, the queue empties or
    exactly nr leave it.
  */
  lemma {:induction false} ReleaseNumbered(s: Sender, ses: Session, nr: nat)
    requires Numbered(s, ses) && SentN(s) + nr <= AckedN(s) + WINDOW
    ensures var s' := Release(s, nr);
            && Numbered(s', ses)
            && AckedN(s') == AckedN(s)
            && s'.completed == s.completed
            && s'.sent + s'.throttled == s.sent + s.throttled && s'.delayed == s.delayed
            && s.sent <= s'.sent
            && (s'.throttled != [] ==> SentN(s') == SentN(s) + nr)
    decreases nr
  {
    hide Seq, Wire, Numbered, ValidMsg, AckedN, Setup;
    if nr != 0 && s.throttled != [] {
      var m, rest := s.throttled[0], s.throttled[1..];
      var s0 := s.(throttled := rest);
      ThrottledTail(s, ses);
      SetupNumbered(s0, ses, m);
      SetupFields(s0, m);
      var s1 := Setup(s0, m);
      ReleaseNumbered(s1, ses, nr - 1);
      assert s.throttled == [m] + rest;
      assert s1.sent + s1.throttled == s.sent + s.throttled;
    }
  }

  lemma ThrottledTail(s: Sender, ses: Session)
    requires Numbered(s, ses) && s.throttled != []
    ensures Numbered(s.(throttled := s.throttled[1..]), ses) && ValidMsg(s.throttled[0])
    ensures AckedN(s.(throttled := s.throttled[1..])) == AckedN(s)
  {
    hide Seq, Wire, Queued, Completed, ValidMsg;
  }

  /** The early-breaking loop covers exactly the requests numbered before the ack. */
  lemma {:induction false} AckedPrefixSpec(queue: seq<SendReq>, ses: Session, lo: nat, hi: nat, acked: nat, a: nat)
    requires Queued(queue, ses, lo, hi) && acked <= lo && hi <= acked + SEQNUMS && acked <= a
    ensures var k := AckedPrefix(queue, Wire(ses, acked), a - acked);
            && (forall i :: 0 <= i < k ==> queue[i].id + 1 < a)
            && (forall i :: k <= i < |queue| ==> a <= queue[i].id + 1)
  {
    if queue != [] {
      WireDistance(ses, queue[0].id + 1, acked);
      if queue[0].id + 1 < a {
        QueuedTail(queue, ses, lo, hi);
        AckedPrefixSpec(queue[1..], ses, lo, hi, acked, a);
      }
    }
  }

  lemma QueuedTail(queue: seq<SendReq>, ses: Session, lo: int, hi: int)
    requires Queued(queue, ses, lo, hi) && queue != []
    ensures Queued(queue[1..], ses, lo, hi)
  {
  }

  /** Which acks are obsolete, said with true numbers. */
  lemma AckTests(s: Sender, ses: Session, a: nat)
    requires Numbered(s, ses) && a <= SentN(s) && AckedN(s) < a + SEQNUMS
    ensures Seq(Wire(ses, a) - s.nextAcked) == if AckedN(s) <= a then a - AckedN(s) else SEQNUMS - (AckedN(s) - a)
    ensures Seq(s.nextSend - s.nextAcked) == SentN(s) - AckedN(s) <= WINDOW
  {
    if AckedN(s) <= a { WireDistance(ses, a, AckedN(s)); } else { WireBehind(ses, a, AckedN(s)); }
  }

  /**
    An ack that is not new is ignored exactly as long as it is not so old that
    its number has come round into the window.
  */
  lemma StaleAck(s: Sender, ses: Session, a: nat)
    requires Numbered(s, ses) && a <= AckedN(s) < a + SEQNUMS
    ensures HandleAck(s, Wire(ses, a)) == s <==> AckRecent(s, a)
  {
    AckTests(s, ses, a);
    WireInjective(ses, a, AckedN(s));
    var newAcks := Seq(Wire(ses, a) - s.nextAcked);
    if newAcks != 0 && newAcks <= SentN(s) - AckedN(s) {
      ReleaseKeepsAcked(Complete(s, Wire(ses, a), newAcks), newAcks);
      assert HandleAck(s, Wire(ses, a)).nextAcked == Wire(ses, a);
    }
  }

  /**
    An older ack, whose number has come round into the window, is taken for that
    of 2^14 messages later: it completes sends that nobody acked.
  */
  lemma StaleAckMistaken(s: Sender, ses: Session, a: nat)
    requires SendInv(s, ses) && a < AckedN(s) < a + SEQNUMS <= SentN(s)
    ensures var s' := HandleAck(s, Wire(ses, a));
            && AckedN(s') == a + SEQNUMS
            && s'.completed == s.completed + Ids(Below(s.nonAcked, a + SEQNUMS))
  {
    hide SendInv, HandleAck, Below, AckedN, Seq;
    assert Wire(ses, a + SEQNUMS) == Wire(ses, a);
    HandleNewAck(s, ses, a + SEQNUMS);
  }

  /** A concrete case: with numbers 8194 to 16384 unacked, the ack of number 1 completes all that wait. */
  lemma StaleAckExample(s: Sender)
    requires SendInv(s, 0) && SentN(s) == 16385 && AckedN(s) == 8194
    ensures var s' := HandleAck(s, Wire(0, 1)); AckedN(s') == 16385 && s'.completed == s.completed + Ids(s.nonAcked)
  {
    StaleAckMistaken(s, 0, 1);
    hide SendInv, HandleAck, Wire, AckedN, Below;
    AllBelow(s, 0);
  }

  lemma AllBelow(s: Sender, ses: Session)
    requires SendInv(s, ses)
    ensures Below(s.nonAcked, SentN(s)) == s.nonAcked
  {
    hide Wire, Window, Completed;
    SplitIsFilter(s.nonAcked, SentN(s), |s.nonAcked|);
    assert s.nonAcked[..|s.nonAcked|] == s.nonAcked;
  }

  lemma {:induction false} ReleaseKeepsAcked(s: Sender, nr: nat)
    ensures Release(s, nr).nextAcked == s.nextAcked
    decreases nr
  {
    if nr != 0 && s.throttled != [] {
      ReleaseKeepsAcked(Setup(s.(throttled := s.throttled[1..]), s.throttled[0]), nr - 1);
    }
  }

  /** The requests of a queue numbered before a, and the others. */
  function Below(queue: seq<SendReq>, a: nat): seq<SendReq> {
    if queue == [] then [] else (if queue[0].id + 1 < a then [queue[0]] else []) + Below(queue[1..], a)
  }

  function NotBelow(queue: seq<SendReq>, a: nat): seq<SendReq> {
    if queue == [] then [] else (if queue[0].id + 1 < a then [] else [queue[0]]) + NotBelow(queue[1..], a)
  }

  lemma {:induction false} SplitIsFilter(queue: seq<SendReq>, a: nat, k: nat)
    requires k <= |queue|
    requires forall i :: 0 <= i < k ==> queue[i].id + 1 < a
    requires forall i :: k <= i < |queue| ==> a <= queue[i].id + 1
    ensures Below(queue, a) == queue[..k] && NotBelow(queue, a) == queue[k..]
  {
    if queue == [] {
    } else if k == 0 {
      assert queue[0].id + 1 >= a;
      SplitIsFilter(queue[1..], a, 0);
      assert queue[0..] == [queue[0]] + queue[1..];
    } else {
      SplitIsFilter(queue[1..], a, k - 1);
      assert queue[..k] == [queue[0]] + queue[1..][..k - 1];
      assert queue[k..] == queue[1..][k - 1..];
    }
  }

  /**
    A new ack completes exactly the queued requests numbered before it, in order,
    and keeps the rest in order, wherever the counter wraps and whatever nacks
    have taken out of the middle of the queue.
  */
  lemma CompleteFilter(s: Sender, ses: Session, a: nat)
    requires Numbered(s, ses) && AckedN(s) < a <= SentN(s)
    ensures var s' := Complete(s, Wire(ses, a), a - AckedN(s));
            && s'.nonAcked == NotBelow(s.nonAcked, a)
            && s'.completed == s.completed + Ids(Below(s.nonAcked, a))
            && Numbered(s', ses)
            && AckedN(s') == a
  {
    hide Wire, Seq, AllValid, Queued, Completed, AckedN, AckedPrefix, Below, NotBelow;
    var n := a - AckedN(s);
    var k := AckedPrefix(s.nonAcked, s.nextAcked, n);
    AckedPrefixSpec(s.nonAcked, ses, AckedN(s), SentN(s), AckedN(s), a);
    SplitIsFilter(s.nonAcked, a, k);
    WindowOf(Complete(s, Wire(ses, a), n), ses, a);
    QueuedSlices(s.nonAcked, ses, AckedN(s), SentN(s), k, a);
    CompletedMore(s.completed, s.nonAcked[..k], ses, AckedN(s), SentN(s), a);
  }

  lemma QueuedSlices(queue: seq<SendReq>, ses: Session, lo: int, hi: int, k: nat, a: int)
    requires Queued(queue, ses, lo, hi) && k <= |queue|
    requires forall i :: k <= i < |queue| ==> a <= queue[i].id + 1
    ensures Queued(queue[..k], ses, lo, hi) && Queued(queue[k..], ses, a, hi)
  {
    hide Wire;
  }

  lemma CompletedMore(ids: seq<nat>, done: seq<SendReq>, ses: Session, lo: int, hi: int, a: int)
    requires Completed(ids, lo) && Queued(done, ses, lo, hi) && lo <= a
    requires forall i :: 0 <= i < |done| ==> done[i].id + 1 < a
    ensures Completed(ids + Ids(done), a)
  {
    hide Wire, Ids;
    var more := Ids(done);
    assert forall i :: 0 <= i < |more| ==> more[i] == done[i].id;
    AscendingConcat(ids, more);
  }

  /** An ack that is new, or not so old that its number has come round into the window. */
  ghost predicate AckRecent(s: Sender, a: nat) {
    AckedN(s) <= a || AckedN(s) - a < SEQNUMS - (SentN(s) - AckedN(s))
  }

  /** An ack at most 8192 messages old is always recent enough. */
  lemma HalfTurnRecent(s: Sender, ses: Session, a: nat)
    requires Numbered(s, ses) && AckedN(s) <= a + SEQNUMS / 2
    ensures AckRecent(s, a)
  {
  }

  /** An ack for a: everything handle_ack does. */
  lemma HandleAckInv(s: Sender, ses: Session, a: nat)
    requires SendInv(s, ses) && a <= SentN(s) && AckRecent(s, a)
    ensures var s' := HandleAck(s, Wire(ses, a));
            && SendInv(s', ses)
            && AckedN(s') == (if AckedN(s) < a then a else AckedN(s))
            && s'.sent + s'.throttled == s.sent + s.throttled && s'.delayed == s.delayed
            && s.sent <= s'.sent
            && s'.completed == if AckedN(s) < a then s.completed + Ids(Below(s.nonAcked, a)) else s.completed
  {
    hide SendInv, HandleAck, Below, Seq, Wire;
    if a <= AckedN(s) {
      StaleAckIgnored(s, ses, a);
    } else {
      HandleNewAck(s, ses, a);
    }
  }

  lemma StaleAckIgnored(s: Sender, ses: Session, a: nat)
    requires SendInv(s, ses) && a <= AckedN(s) && AckRecent(s, a)
    ensures HandleAck(s, Wire(ses, a)) == s
  {
    hide HandleAck, Seq, Wire, AckedN;
    StaleAck(s, ses, a);
  }

  lemma HandleNewAck(s: Sender, ses: Session, a: nat)
    requires SendInv(s, ses) && AckedN(s) < a <= SentN(s)
    ensures var s' := HandleAck(s, Wire(ses, a));
            && SendInv(s', ses)
            && AckedN(s') == a
            && s'.sent + s'.throttled == s.sent + s.throttled && s'.delayed == s.delayed
            && s.sent <= s'.sent
            && s'.completed == s.completed + Ids(Below(s.nonAcked, a))
  {
    hide Numbered, Seq, Wire, Complete, Release, Below, NotBelow, AckedN;
    AckTests(s, ses, a);
    CompleteFilter(s, ses, a);
    var n := a - AckedN(s);
    var s1 := Complete(s, Wire(ses, a), n);
    CompleteFields(s, Wire(ses, a), n);
    ReleaseNumbered(s1, ses, n);
    var s2 := Release(s1, n);
    var nr := (s.throttlingNr - (|s.throttled| - |s2.throttled|)) % U32;
    ThrottleNumbered(s2, ses, nr);
    ThrottleCount(|s.throttled|, |s2.throttled|);
    assert HandleAck(s, Wire(ses, a)) == s2.(throttlingNr := nr);
  }

  lemma ThrottleCount(before: nat, after: nat)
    ensures (before % U32 - (before - after)) % U32 == after % U32
  {
    assert before % U32 - (before - after) == after - before / U32 * U32;
  }

  lemma CompleteFields(s: Sender, ackBefore: Seqnum, newAcks: nat)
    ensures var s' := Complete(s, ackBefore, newAcks);
            s'.sent == s.sent && s'.throttled == s.throttled && s'.delayed == s.delayed
                && s'.throttlingNr == s.throttlingNr
  {
  }

  /** The throttle counter is read by nothing else. */
  lemma ThrottleNumbered(s: Sender, ses: Session, nr: int)
    requires Numbered(s, ses)
    ensures Numbered(s.(throttlingNr := nr), ses) && AckedN(s.(throttlingNr := nr)) == AckedN(s)
  {
  }

  /** The scan finds the request with the number of the nack, if it is queued. */
  lemma {:induction false} NackedAtSpec(queue: seq<SendReq>, ses: Session, lo: int, hi: int, acked: nat, n: nat)
    requires Queued(queue, ses, lo, hi) && acked <= lo && hi <= acked + SEQNUMS && acked <= n
    ensures var k := NackedAt(queue, Wire(ses, acked), n - acked);
            if exists i :: 0 <= i < |queue| && queue[i].id + 1 == n then k < |queue| && queue[k].id + 1 == n
                else k == |queue|
  {
    if queue != [] {
      WireDistance(ses, queue[0].id + 1, acked);
      if queue[0].id + 1 < n {
        QueuedTail(queue, ses, lo, hi);
        NackedAtSpec(queue[1..], ses, lo, hi, acked, n);
        assert forall i :: 0 < i < |queue| ==> queue[i] == queue[1..][i - 1];
        assert forall i :: 0 <= i < |queue[1..]| ==> queue[1..][i] == queue[i + 1];
      }
    }
  }

  /** The requests of a queue except that of message n. */
  function Except(queue: seq<SendReq>, n: nat): seq<SendReq> {
    if queue == [] then [] else (if queue[0].id + 1 == n then [] else [queue[0]]) + Except(queue[1..], n)
  }

  lemma {:induction false} ExceptIs(queue: seq<SendReq>, n: nat, k: nat)
    requires k <= |queue| && (k < |queue| ==> queue[k].id + 1 == n)
    requires forall i :: 0 <= i < |queue| && i != k ==> queue[i].id + 1 != n
    ensures Except(queue, n) == if k < |queue| then queue[..k] + queue[k + 1..] else queue
  {
    if queue != [] {
      if k == 0 {
        ExceptIs(queue[1..], n, |queue| - 1);
      } else {
        ExceptIs(queue[1..], n, k - 1);
        if k < |queue| {
          assert queue[..k] + queue[k + 1..] == [queue[0]] + (queue[1..][..k - 1] + queue[1..][k..]);
        }
      }
    }
  }

  /** The request of message n is in the queue. */
  ghost predicate Pending(queue: seq<SendReq>, n: nat) {
    exists i :: 0 <= i < |queue| && queue[i].id + 1 == n
  }

  /** The request of message n, if it is queued, has failed; the others stay in order. */
  ghost function Nacked(s: Sender, n: nat): Sender {
    if 0 < n && Pending(s.nonAcked, n) then s.(nonAcked := Except(s.nonAcked, n), failed := s.failed + [n - 1]) else s
  }

  /** What a nack removes, said with true numbers. */
  lemma NackRemoves(s: Sender, ses: Session, seqnum: Seqnum)
    requires SendInv(s, ses)
    ensures AckedN(s) >= 0
    ensures HandleNack(s, seqnum) ==
              if Ses(seqnum) == ses then Nacked(s, AckedN(s) + Seq(seqnum - s.nextAcked)) else s
  {
    hide Wire, NackedAt, Except, AllValid, Completed, Seq, Ses;
    var n: nat := AckedN(s) + Seq(seqnum - s.nextAcked);
    var k := NackedAt(s.nonAcked, s.nextAcked, Seq(seqnum - s.nextAcked));
    NackedAtSpec(s.nonAcked, ses, AckedN(s), SentN(s), AckedN(s), n);
    WireSession(ses, SentN(s));
    NackedOne(s.nonAcked, ses, AckedN(s), SentN(s), n, k);
    ExceptIs(s.nonAcked, n, k);
  }

  lemma NackedOne(queue: seq<SendReq>, ses: Session, lo: int, hi: int, n: nat, k: nat)
    requires Queued(queue, ses, lo, hi) && k <= |queue|
    requires if exists i :: 0 <= i < |queue| && queue[i].id + 1 == n then k < |queue| && queue[k].id + 1 == n
             else k == |queue|
    ensures (k < |queue| ==> queue[k].id + 1 == n) && forall i :: 0 <= i < |queue| && i != k ==> queue[i].id + 1 != n
  {
    hide Wire;
  }

  lemma {:induction false} ExceptQueued(queue: seq<SendReq>, ses: Session, lo: int, hi: int, n: nat)
    requires Queued(queue, ses, lo, hi)
    ensures Queued(Except(queue, n), ses, lo, hi)
    ensures forall x :: x in Except(queue, n) ==> x in queue
  {
    hide Queued;
    if queue != [] {
      QueuedTail(queue, ses, lo, hi);
      ExceptQueued(queue[1..], ses, lo, hi, n);
      var rest := Except(queue[1..], n);
      QueuedHead(queue, rest, ses, lo, hi);
      assert [] + rest == rest;
    }
  }

  lemma QueuedHead(queue: seq<SendReq>, rest: seq<SendReq>, ses: Session, lo: int, hi: int)
    requires Queued(queue, ses, lo, hi) && queue != [] && Queued(rest, ses, lo, hi)
    requires forall x :: x in rest ==> x in queue[1..]
    ensures Queued([queue[0]] + rest, ses, lo, hi)
  {
    hide Wire;
    forall i | 0 <= i < |rest|
      ensures queue[0].id < rest[i].id
    {
      assert rest[i] in queue[1..];
    }
  }

  /** A nack takes exactly the request it names out of the queue, if it is there, and keeps the others in order. */
  lemma HandleNackInv(s: Sender, ses: Session, seqnum: Seqnum)
    requires SendInv(s, ses)
    ensures SendInv(HandleNack(s, seqnum), ses)
    ensures AckedN(HandleNack(s, seqnum)) == AckedN(s) >= 0
    ensures HandleNack(s, seqnum) ==
              if Ses(seqnum) == ses then Nacked(s, AckedN(s) + Seq(seqnum - s.nextAcked)) else s
  {
    hide Wire, ValidMsg, HandleNack, Except, Queued, Completed, AllValid, Seq, Ses;
    NackRemoves(s, ses, seqnum);
    if Ses(seqnum) == ses {
      ExceptQueued(s.nonAcked, ses, AckedN(s), SentN(s), AckedN(s) + Seq(seqnum - s.nextAcked));
    }
  }
}
