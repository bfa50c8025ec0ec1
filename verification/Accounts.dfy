/**
  Every message that was numbered is accounted for, once: it waits for its ack,
  or an ack completed it, or a nack failed it.
*/
module Accounts {
  import opened Seqnums
  import opened Messages
  import opened Sending

  /** The first n requests. */
  function Numbers(n: nat): (r: multiset<nat>)
  {
    if n == 0 then multiset{} else Numbers(n - 1) + multiset{n - 1}
  }

  function Total(waiting: seq<nat>, completed: seq<nat>, failed: seq<nat>): multiset<nat> {
    multiset(waiting) + multiset(completed) + multiset(failed)
  }

  ghost predicate Accounted(s: Sender) {
    Total(Ids(s.nonAcked), s.completed, s.failed) == Numbers(|s.sent|)
  }

  lemma {:induction false} IdsConcat(a: seq<SendReq>, b: seq<SendReq>)
    ensures Ids(a + b) == Ids(a) + Ids(b)
  {
    if a == [] {
      assert a + b == b;
    } else {
      assert (a + b)[1..] == a[1..] + b;
      IdsConcat(a[1..], b);
    }
  }

  lemma SetupAccounted(s: Sender, m: Msg)
    requires Accounted(s)
    ensures Accounted(Setup(s, m))
  {
    hide Total;
    IdsSnoc(s.nonAcked, SendReq(|s.sent|, s.nextSend));
    TotalSnoc(Ids(s.nonAcked), |s.sent|, s.completed, s.failed);
  }

  lemma IdsSnoc(q: seq<SendReq>, x: SendReq)
    ensures Ids(q + [x]) == Ids(q) + [x.id]
  {
    IdsConcat(q, [x]);
    assert Ids([x]) == [x.id];
  }

  lemma TotalSnoc(waiting: seq<nat>, x: nat, completed: seq<nat>, failed: seq<nat>)
    ensures Total(waiting + [x], completed, failed) == Total(waiting, completed, failed) + multiset{x}
  {
  }

  lemma IdsCut(q: seq<SendReq>, k: nat)
    requires k <= |q|
    ensures Ids(q) == Ids(q[..k]) + Ids(q[k..])
  {
    IdsConcat(q[..k], q[k..]);
    assert q == q[..k] + q[k..];
  }

  lemma IdsCutOne(q: seq<SendReq>, k: nat)
    requires k < |q|
    ensures Ids(q) == Ids(q[..k]) + [q[k].id] + Ids(q[k + 1..])
  {
    hide Ids;
    IdsCut(q, k + 1);
    IdsSnoc(q[..k], q[k]);
    assert q[..k] + [q[k]] == q[..k + 1];
  }

  lemma AllocatedAccounted(s: Sender, m: Msg)
    requires Accounted(s)
    ensures Accounted(Allocated(s, m))
  {
    SetupAccounted(s, m);
  }

  lemma SubmitAccounted(s: Sender, m: Msg, ready: bool)
    requires Accounted(s)
    ensures Accounted(Submit(s, m, ready)) && Accounted(SubmitNotify(s, m, ready))
  {
    AllocatedAccounted(s, m);
  }

  /** What has no number yet is not counted. */
  lemma QueuesApart(s: Sender, throttled: seq<Msg>, delayed: seq<Msg>)
    requires Accounted(s)
    ensures Accounted(s.(throttled := throttled, delayed := delayed))
  {
  }

  lemma {:induction false} RetryAccounted(s: Sender, ready: nat)
    requires Accounted(s)
    ensures Accounted(Retry(s, ready))
    decreases ready
  {
    hide Allocated, Accounted;
    if ready != 0 && s.delayed != [] {
      var s1 := s.(delayed := s.delayed[1..]);
      QueuesApart(s, s.throttled, s.delayed[1..]);
      AllocatedAccounted(s1, s.delayed[0]);
      RetryAccounted(Allocated(s1, s.delayed[0]), ready - 1);
    }
  }

  lemma {:induction false} ReleaseAccounted(s: Sender, nr: nat)
    requires Accounted(s)
    ensures Accounted(Release(s, nr))
    decreases nr
  {
    hide Setup, Accounted;
    if nr != 0 && s.throttled != [] {
      var s1 := s.(throttled := s.throttled[1..]);
      QueuesApart(s, s.throttled[1..], s.delayed);
      SetupAccounted(s1, s.throttled[0]);
      ReleaseAccounted(Setup(s1, s.throttled[0]), nr - 1);
    }
  }

  lemma CompleteAccounted(s: Sender, ackBefore: Seqnum, newAcks: nat)
    requires Accounted(s)
    ensures Accounted(Complete(s, ackBefore, newAcks))
  {
    hide Numbers, Total;
    var q := s.nonAcked;
    var k := AckedPrefix(q, s.nextAcked, newAcks);
    IdsCut(q, k);
    Moved(Ids(q[..k]), Ids(q[k..]), s.completed, s.failed);
  }

  lemma Moved(front: seq<nat>, back: seq<nat>, completed: seq<nat>, failed: seq<nat>)
    ensures Total(back, completed + front, failed) == Total(front + back, completed, failed)
  {
  }

  lemma MovedOne(front: seq<nat>, x: nat, back: seq<nat>, completed: seq<nat>, failed: seq<nat>)
    ensures Total(front + back, completed, failed + [x]) == Total(front + [x] + back, completed, failed)
  {
  }

  lemma AckAccounted(s: Sender, ack: Seqnum)
    requires Accounted(s)
    ensures Accounted(HandleAck(s, ack))
  {
    hide Complete, Release, Seq;
    var newAcks := Seq(ack - s.nextAcked);
    CompleteAccounted(s, ack, newAcks);
    ReleaseAccounted(Complete(s, ack, newAcks), newAcks);
  }

  lemma NackAccounted(s: Sender, seqnum: Seqnum)
    requires Accounted(s)
    ensures Accounted(HandleNack(s, seqnum))
  {
    hide Seq, Ses, Numbers, Total;
    var q := s.nonAcked;
    var k := NackedAt(q, s.nextAcked, Seq(seqnum - s.nextAcked));
    if k < |q| {
      IdsCutOne(q, k);
      IdsConcat(q[..k], q[k + 1..]);
      MovedOne(Ids(q[..k]), q[k].id, Ids(q[k + 1..]), s.completed, s.failed);
    }
  }

  lemma {:induction false} NumbersAre(n: nat, id: nat)
    ensures Numbers(n)[id] == if id < n then 1 else 0
  {
    if n != 0 { NumbersAre(n - 1, id); }
  }

  /** So a numbered message is in exactly one of the three places, once, and nothing else is in any. */
  lemma OncePlaced(s: Sender, id: nat)
    requires Accounted(s)
    ensures multiset(Ids(s.nonAcked))[id] + multiset(s.completed)[id] + multiset(s.failed)[id]
         == if id < |s.sent| then 1 else 0
  {
    NumbersAre(|s.sent|, id);
  }
}
