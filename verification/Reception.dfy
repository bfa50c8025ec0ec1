/**
  What the receive side keeps.  `sent` is the sender's log of numbered messages;
  message number n is sent[n - 1].  The 14-bit fields of the receiver are shown
  to stand for two unbounded counters, and every classification by masked
  differences to be the comparison of the true numbers.
*/
module Reception {
  import opened Ascents
  import opened Seqnums
  import opened Fragments
  import opened Messages
  import opened Receiving

  /** The true value of next_match_recv_seq: messages are numbered from 1. */
  ghost function MatchN(r: Receiver): nat {
    1 + |r.inbox|
  }

  /** The true value of next_frag_recv_seq. */
  ghost function FragN(r: Receiver): nat {
    if r.partial == [] then MatchN(r) else 1 + r.partial[0]
  }

  /** As much of the message as the buffer has room for is transferred; what is behind it stays as it was. */
  ghost predicate InPlace(d: Delivery) {
    && |d.rx.buf| == |d.dest|
    && d.rx.xfer == (if |d.dest| < d.rx.msgLength then |d.dest| else d.rx.msgLength)
    && d.rx.buf[d.rx.xfer..] == d.dest[d.rx.xfer..]
  }

  /** A delivery is made from the fragments of message number n, and only from them. */
  ghost predicate Faithful(d: Delivery, m: Msg, ses: Session, n: nat) {
    && d.seqnum == Wire(ses, n)
    && d.kind == m.kind
    && d.info == m.info
    && Sized(d)
    && d.rx.msgLength == |m.data|
    && (if d.owner == Discarded then true
        else if m.kind == Medium then InPlace(d) && Holds(d.rx, m.data) && d.rx.mask != {}
        else InPlace(d) && Complete(d.rx) && d.rx.buf[..d.rx.xfer] == m.data[..d.rx.xfer] && d.rx.mask == {0})
  }

  /** The inbox follows the log, and the partial queue is exactly its unfinished part, in order. */
  ghost predicate Books(r: Receiver, ses: Session, sent: seq<Msg>) {
    && |r.inbox| <= |sent|
    && (forall i :: 0 <= i < |sent| ==> ValidMsg(sent[i]))
    && (forall i :: 0 <= i < |r.inbox| ==> Faithful(r.inbox[i], sent[i], ses, i + 1))
    && Ascending(r.partial)
    && PartialIs(r.inbox, r.partial)
  }

  /** The partial queue holds exactly the messages that need fragments. */
  ghost predicate PartialIs(inbox: seq<Delivery>, partial: seq<nat>) {
    forall id: nat :: id in partial <==> id < |inbox| && Open(inbox[id])
  }

  ghost predicate Core(r: Receiver, ses: Session, sent: seq<Msg>) {
    && Books(r, ses, sent)
    && r.nextMatch == Wire(ses, MatchN(r))
    && r.nextFrag == Wire(ses, FragN(r))
  }

  /** The sender never runs more than a window past the oldest unfinished message. */
  ghost predicate InWindow(r: Receiver, sent: seq<Msg>) {
    1 + |sent| <= FragN(r) + WINDOW
  }

  lemma BooksWellFormed(r: Receiver, ses: Session, sent: seq<Msg>)
    requires Books(r, ses, sent)
    ensures WellFormed(r)
    ensures FragN(r) <= MatchN(r)
  {
    assert forall i :: 0 <= i < |r.partial| ==> r.partial[i] in r.partial;
    forall i | 0 <= i < |r.inbox|
      ensures Sized(r.inbox[i])
    {
      assert Faithful(r.inbox[i], sent[i], ses, i + 1);
    }
  }

  /** The buffer has been overwritten with the message, as far as the shorter of the two goes. */
  ghost predicate Received(d: Delivery, m: Msg) {
    var length := if |d.dest| < |m.data| then |d.dest| else |m.data|;
    Complete(d.rx) && d.rx.xfer == length && d.rx.buf == m.data[..length] + d.dest[length..]
  }

  /** A complete delivery has the bytes of its message. */
  lemma CompleteReceived(d: Delivery, m: Msg, ses: Session, n: nat)
    requires Faithful(d, m, ses, n) && d.owner != Discarded && Complete(d.rx)
    ensures Received(d, m)
  {
    if m.kind == Medium { CompleteMeansBytes(d.rx, m.data); }
    assert d.rx.buf == d.rx.buf[..d.rx.xfer] + d.rx.buf[d.rx.xfer..];
  }

  /** Everything before next_frag_recv_seq has been received entirely, unless the handler discarded it. */
  lemma BelowFragComplete(r: Receiver, ses: Session, sent: seq<Msg>, id: nat)
    requires Books(r, ses, sent) && id + 1 < FragN(r)
    ensures id < |r.inbox| && (r.inbox[id].owner == Discarded || Received(r.inbox[id], sent[id]))
  {
    BooksWellFormed(r, ses, sent);
    assert Faithful(r.inbox[id], sent[id], ses, id + 1);
    assert id !in r.partial;
    if r.inbox[id].owner != Discarded { CompleteReceived(r.inbox[id], sent[id], ses, id + 1); }
  }

  lemma {:induction false} WithoutMembers(q: seq<nat>, id: nat)
    requires Ascending(q)
    ensures forall x :: x in Without(q, id) <==> x in q && x != id
  {
    if q != [] {
      var t := q[1..];
      assert q == [q[0]] + t;
      assert Ascending(t);
      WithoutMembers(t, id);
    }
  }

  lemma {:induction false} WithoutAscending(q: seq<nat>, id: nat)
    requires Ascending(q)
    ensures Ascending(Without(q, id))
    ensures Without(q, id) != [] ==> q != [] && q[0] <= Without(q, id)[0]
  {
    if q != [] && q[0] != id {
      var t := q[1..];
      assert Ascending(t);
      WithoutAscending(t, id);
      var w := Without(t, id);
      forall k | 0 <= k < |w|
        ensures q[0] < w[k]
      {
        assert w[k] in t;
        var i :| 0 <= i < |t| && t[i] == w[k];
        assert q[0] < q[i + 1];
      }
      AscendingCons(q[0], w);
    }
  }

  lemma {:induction false} WithoutLast(q: seq<nat>, id: nat)
    requires id !in q
    ensures Without(q + [id], id) == q
  {
    if q == [] {
    } else {
      assert (q + [id])[1..] == q[1..] + [id];
      WithoutLast(q[1..], id);
    }
  }

  /**
    A delivery goes on: the same message, more fragments, and for an unexpected one
    at most a posted receive that takes it over.
  */
  ghost predicate GoesOn(a: Delivery, b: Delivery) {
    && b.seqnum == a.seqnum && b.kind == a.kind && b.info == a.info
    && a.rx.mask <= b.rx.mask
    && (b.owner == a.owner || (a.owner == Unexpected && b.owner == Posted))
    && (b.owner == a.owner ==> b.dest == a.dest && b.rx.xfer == a.rx.xfer)
    && (Complete(a.rx) ==> Complete(b.rx) && (b.owner == a.owner ==> b == a))
    && (a.owner == Discarded ==> b == a)
  }

  /** Later deliveries only extend earlier ones: same messages, same places. */
  ghost predicate Extends(before: seq<Delivery>, after: seq<Delivery>) {
    |before| <= |after| && forall i :: 0 <= i < |before| ==> GoesOn(before[i], after[i])
  }

  lemma ExtendsReflexive(a: seq<Delivery>)
    ensures Extends(a, a)
  {
  }

  lemma AbsorbFaithful(d: Delivery, m: Msg, ses: Session, n: nat, p: Packet)
    requires Faithful(d, m, ses, n) && Open(d) && p.kind == Medium && IsPacketOf(p, m) && p.frag !in d.rx.mask
    ensures WellSized(d.rx)
    ensures var d' := d.(rx := Absorb(d.rx, p.frag, p.data));
            && Faithful(d', m, ses, n) && GoesOn(d, d') && d'.rx.msgLength == p.msgLength
            && d.rx.mask != {} && d.owner != Discarded
  {
    hide Wire;
    ReceiveHolds(d.rx, m.data, p.frag);
  }

  /** A fragment of an unfinished message. */
  lemma TakeFragBooks(r: Receiver, ses: Session, sent: seq<Msg>, id: nat, p: Packet)
    requires Books(r, ses, sent) && WellFormed(r) && id in r.partial
    requires p.kind == Medium && IsPacketOf(p, sent[id])
    ensures Books(TakeFrag(r, id, p), ses, sent)
    ensures Extends(r.inbox, TakeFrag(r, id, p).inbox)
    ensures FragN(r) <= FragN(TakeFrag(r, id, p))
  {
    hide Faithful, Wire, Absorb, ValidMsg, WellSized, Extends, Open, Without, Ascending, PartialIs, FragN, TakeFrag;
    ExtendsReflexive(r.inbox);
    PartialMember(r.inbox, r.partial, id);
    var d := r.inbox[id];
    assert Faithful(d, sent[id], ses, id + 1);
    if p.frag !in d.rx.mask {
      AbsorbFaithful(d, sent[id], ses, id + 1, p);
      var d' := d.(rx := Absorb(d.rx, p.frag, p.data));
      TakenFrag(r, id, p, d');
      ExtendsOne(r.inbox, id, d');
      PartialTaken(r.inbox, r.partial, id, d');
      WithoutAscending(r.partial, id);
      forall i | 0 <= i < |r.inbox|
        ensures Faithful(r.inbox[id := d'][i], sent[i], ses, i + 1)
      {
        assert i != id ==> Faithful(r.inbox[i], sent[i], ses, i + 1);
      }
      PartialBelow(r, ses, sent);
      FragGrows(r, TakeFrag(r, id, p));
    } else {
      TakenTwice(r, id, p);
    }
  }

  lemma PartialMember(inbox: seq<Delivery>, partial: seq<nat>, id: nat)
    requires PartialIs(inbox, partial) && id in partial
    ensures id < |inbox| && Open(inbox[id])
  {
  }

  lemma TakenTwice(r: Receiver, id: nat, p: Packet)
    requires WellFormed(r) && id < |r.inbox| && p.frag in r.inbox[id].rx.mask
    ensures TakeFrag(r, id, p) == r
  {
  }

  lemma TakenFrag(r: Receiver, id: nat, p: Packet, d': Delivery)
    requires WellFormed(r) && id in r.partial && id < |r.inbox| && p.frag !in r.inbox[id].rx.mask
    requires r.inbox[id].rx.mask != {} && d'.rx.msgLength == p.msgLength
    requires d' == r.inbox[id].(rx := Absorb(r.inbox[id].rx, p.frag, p.data))
    ensures TakeFrag(r, id, p) == r.(inbox := r.inbox[id := d'],
                                     partial := if Complete(d'.rx) then Without(r.partial, id) else r.partial)
  {
    hide Absorb;
  }

  lemma ExtendsOne(inbox: seq<Delivery>, id: nat, d: Delivery)
    requires id < |inbox| && GoesOn(inbox[id], d)
    ensures Extends(inbox, inbox[id := d])
  {
    ExtendsReflexive(inbox);
    hide GoesOn;
    assert forall i :: 0 <= i < |inbox| ==> GoesOn(inbox[i], inbox[i]);
  }

  lemma PartialTaken(inbox: seq<Delivery>, partial: seq<nat>, id: nat, d: Delivery)
    requires PartialIs(inbox, partial) && Ascending(partial) && id in partial && id < |inbox| && d.owner != Discarded
    ensures PartialIs(inbox[id := d], if Complete(d.rx) then Without(partial, id) else partial)
  {
    hide Without;
    WithoutMembers(partial, id);
  }

  lemma FragGrows(r: Receiver, r': Receiver)
    requires |r'.inbox| == |r.inbox| && (r'.partial != [] ==> r.partial != [] && r.partial[0] <= r'.partial[0])
    requires forall i :: 0 <= i < |r.partial| ==> r.partial[i] < |r.inbox|
    ensures FragN(r) <= FragN(r')
  {
  }

  /** A delivery joins the inbox, and the partial queue unless it is already complete. */
  lemma AppendBooks(r: Receiver, r': Receiver, ses: Session, sent: seq<Msg>, d: Delivery)
    requires Books(r, ses, sent) && |r.inbox| < |sent|
    requires Faithful(d, sent[|r.inbox|], ses, MatchN(r))
    requires r'.inbox == r.inbox + [d]
    requires r'.partial == if Open(d) then r.partial + [|r.inbox|] else r.partial
    ensures Books(r', ses, sent)
    ensures Extends(r.inbox, r'.inbox)
    ensures FragN(r) <= FragN(r')
  {
    hide Faithful, Open, Extends, ValidMsg, Ascending, PartialIs;
    var id := |r.inbox|;
    PartialBelow(r, ses, sent);
    ExtendsAppend(r.inbox, d);
    AscendingSnoc(r.partial, id);
    forall i | 0 <= i < |r'.inbox|
      ensures Faithful(r'.inbox[i], sent[i], ses, i + 1)
    {
      if i < id { assert r'.inbox[i] == r.inbox[i]; }
    }
    PartialAppend(r.inbox, r.partial, d);
  }

  lemma ExtendsAppend(inbox: seq<Delivery>, d: Delivery)
    ensures Extends(inbox, inbox + [d])
  {
    hide GoesOn;
    ExtendsReflexive(inbox);
  }

  lemma PartialAppend(inbox: seq<Delivery>, partial: seq<nat>, d: Delivery)
    requires PartialIs(inbox, partial)
    ensures PartialIs(inbox + [d], if Open(d) then partial + [|inbox|] else partial)
  {
    hide Open;
    assert forall x :: 0 <= x < |inbox| ==> (inbox + [d])[x] == inbox[x];
  }

  lemma PartialBelow(r: Receiver, ses: Session, sent: seq<Msg>)
    requires Books(r, ses, sent)
    ensures forall i :: 0 <= i < |r.partial| ==> r.partial[i] < |r.inbox|
  {
    hide Faithful, Open, GoesOn, ValidMsg, Ascending;
    assert forall i :: 0 <= i < |r.partial| ==> r.partial[i] in r.partial;
  }

  /** The first packet of the next message to match. */
  lemma BindBooks(r: Receiver, ses: Session, sent: seq<Msg>, p: Packet, owner: Owner, dest: seq<byte>)
    requires Books(r, ses, sent) && WellFormed(r) && |r.inbox| < |sent|
    requires p.seqnum == Wire(ses, MatchN(r)) && IsPacketOf(p, sent[|r.inbox|])
    requires owner != Discarded && (owner == Unexpected ==> |dest| == BufferLength(p))
    ensures var r' := Bind(r, p, owner, dest);
            Books(r', ses, sent) && Extends(r.inbox, r'.inbox) && FragN(r) <= FragN(r')
  {
    hide Extends, FragN, Ascending;
    var id := |r.inbox|;
    var m := sent[id];
    var r' := Bind(r, p, owner, dest);
    if m.kind == Medium {
      FreshHolds(m.data, dest);
      ReceiveHolds(Fresh(|m.data|, dest), m.data, p.frag);
      assert id !in r.partial;
      WithoutLast(r.partial, id);
      var d := Delivery(p.seqnum, p.kind, p.info, owner, dest, Absorb(Fresh(|m.data|, dest), p.frag, p.data));
      assert (r.inbox + [d.(rx := Fresh(|m.data|, dest))])[id := d] == r.inbox + [d];
    }
    AppendBooks(r, r', ses, sent, r'.inbox[id]);
  }

  /** A message that the handler takes care of. */
  lemma DropBooks(r: Receiver, ses: Session, sent: seq<Msg>, p: Packet)
    requires Books(r, ses, sent) && WellFormed(r) && |r.inbox| < |sent|
    requires p.seqnum == Wire(ses, MatchN(r)) && IsPacketOf(p, sent[|r.inbox|])
    ensures var r' := Drop(r, p);
            Books(r', ses, sent) && Extends(r.inbox, r'.inbox) && FragN(r) <= FragN(r')
  {
    hide Extends, FragN, Ascending;
    var r' := Drop(r, p);
    AppendBooks(r, r', ses, sent, r'.inbox[|r.inbox|]);
  }

  /** A receive that takes over an unexpected message, finished or not. */
  lemma MatchInv(r: Receiver, ses: Session, sent: seq<Msg>, id: nat, dest: seq<byte>)
    requires RecvInv(r, ses, sent) && WellFormed(r) && id < |r.inbox| && r.inbox[id].owner == Unexpected
    ensures var r' := Match(r, id, dest);
            RecvInv(r', ses, sent) && Extends(r.inbox, r'.inbox) && FragN(r) == FragN(r') && MatchN(r) == MatchN(r')
  {
    hide Ascending, ValidMsg, Wire, EarlyInv;
    var r' := Match(r, id, dest);
    assert Faithful(r.inbox[id], sent[id], ses, id + 1);
    MatchFaithful(r.inbox[id], r'.inbox[id], sent[id], ses, id + 1, dest);
    hide Faithful, GoesOn, Open, Match;
    MatchOthers(r, id, dest);
    forall i | 0 <= i < |r'.inbox|
      ensures Faithful(r'.inbox[i], sent[i], ses, i + 1)
    {
      assert i != id ==> Faithful(r.inbox[i], sent[i], ses, i + 1);
    }
    forall i | 0 <= i < |r.inbox|
      ensures GoesOn(r.inbox[i], r'.inbox[i])
    {
      if i != id { GoesOnSame(r.inbox[i]); }
    }
  }

  lemma MatchOthers(r: Receiver, id: nat, dest: seq<byte>)
    requires WellFormed(r) && id < |r.inbox| && r.inbox[id].owner == Unexpected
    ensures var r' := Match(r, id, dest);
            && r' == r.(inbox := r.inbox[id := r'.inbox[id]])
            && |r'.inbox| == |r.inbox| && forall i :: 0 <= i < |r.inbox| && i != id ==> r'.inbox[i] == r.inbox[i]
  {
  }

  lemma GoesOnSame(d: Delivery)
    ensures GoesOn(d, d)
  {
  }

  lemma RebindInPlace(d: Delivery, dest: seq<byte>)
    requires WellSized(d.rx) && d.rx.xfer == d.rx.msgLength
    ensures var rx := Rebind(d.rx, dest);
            && InPlace(d.(dest := dest, rx := rx)) && rx.mask == d.rx.mask && (Complete(rx) <==> Complete(d.rx))
            && rx.buf[..rx.xfer] == d.rx.buf[..rx.xfer]
  {
  }

  lemma MatchFaithful(d: Delivery, d': Delivery, m: Msg, ses: Session, n: nat, dest: seq<byte>)
    requires Faithful(d, m, ses, n) && d.owner == Unexpected
    requires d' == (if d.kind == Rndv then d else d.(dest := dest, rx := Rebind(d.rx, dest))).(owner := Posted)
    ensures Faithful(d', m, ses, n) && GoesOn(d, d') && Open(d') == Open(d)
  {
    hide Holds, Wire;
    if d.kind != Rndv { RebindInPlace(d, dest); }
    if d.kind == Medium {
      RebindHolds(d.rx, m.data, dest);
    } else if d.kind != Rndv {
      assert d.rx.buf[..d.rx.xfer] == m.data;
    }
  }

  /** The scan of the partial queue finds the request of message n exactly when it is unfinished. */
  lemma {:induction false} FindPartialSpec(r: Receiver, ses: Session, sent: seq<Msg>, n: nat, k: nat)
    requires Core(r, ses, sent) && WellFormed(r) && InWindow(r, sent)
    requires FragN(r) <= n < MatchN(r) && k <= |r.partial|
    requires forall i :: 0 <= i < k ==> r.partial[i] + 1 < n
    ensures var pos := FindPartial(r, n - FragN(r), k);
            if n - 1 in r.partial then pos < |r.partial| && r.partial[pos] == n - 1 else pos == |r.partial|
    decreases |r.partial| - k
  {
    hide Wire, Seq, Holds, Open, Ascending, ValidMsg;
    if k < |r.partial| {
      var id := r.partial[k];
      assert id in r.partial;
      AscendingFrom(r.partial, k);
      assert Faithful(r.inbox[id], sent[id], ses, id + 1);
      AscendingFrom(r.partial, 0);
      WireDistance(ses, id + 1, FragN(r));
      if id + 1 < n {
        FindPartialSpec(r, ses, sent, n, k + 1);
      } else if id + 1 > n {
        assert n - 1 !in r.partial;
      }
    }
  }

  /** How far behind next_frag_recv_seq a packet is recognised in every state. */
  const STALE_MAX := SEQNUMS - WINDOW - EARLY_MAX - 1

  /** Message n is not so old that its number has come round to the early range. */
  ghost predicate Recent(r: Receiver, n: nat) {
    FragN(r) <= n || FragN(r) - n < SEQNUMS - (MatchN(r) - FragN(r)) - EARLY_MAX
  }

  /** At most 7937 behind is always recent enough. */
  lemma StaleMaxRecent(r: Receiver, ses: Session, sent: seq<Msg>, n: nat)
    requires Core(r, ses, sent) && InWindow(r, sent) && FragN(r) <= n + STALE_MAX
    ensures Recent(r, n)
  {
  }

  /** The packet carries a fragment of message number n of the log. */
  ghost predicate Carries(p: Packet, n: nat, ses: Session, sent: seq<Msg>) {
    1 <= n <= |sent| && p.seqnum == Wire(ses, n) && IsPacketOf(p, sent[n - 1])
  }

  /** The masked tests of process_partner_ordered_recv compare true numbers. */
  lemma OrderedTests(r: Receiver, ses: Session, sent: seq<Msg>, p: Packet, n: nat)
    requires Core(r, ses, sent) && InWindow(r, sent) && Carries(p, n, ses, sent)
    requires FragN(r) <= n + STALE_MAX && n <= MatchN(r)
    ensures FragN(r) <= MatchN(r)
    ensures Seq(p.seqnum - r.nextMatch) == 0 <==> n == MatchN(r)
    ensures Seq(p.seqnum - r.nextFrag) < Seq(r.nextMatch - r.nextFrag) <==> FragN(r) <= n < MatchN(r)
    ensures FragN(r) <= n ==> Seq(p.seqnum - r.nextFrag) == n - FragN(r)
  {
    BooksWellFormed(r, ses, sent);
    WireDistance(ses, MatchN(r), FragN(r));
    if n == MatchN(r) { WireDistance(ses, n, MatchN(r)); } else { WireBehind(ses, n, MatchN(r)); }
    if n < FragN(r) { WireBehind(ses, n, FragN(r)); } else { WireDistance(ses, n, FragN(r)); }
  }

  /** Recomputing next_frag_recv_seq makes it the true one. */
  lemma UpdateFragCore(r: Receiver, ses: Session, sent: seq<Msg>)
    requires Books(r, ses, sent) && WellFormed(r) && r.nextMatch == Wire(ses, MatchN(r))
    ensures Core(UpdateFrag(r), ses, sent)
    ensures FragN(UpdateFrag(r)) == FragN(r)
  {
    if r.partial != [] {
      var id := r.partial[0];
      assert id in r.partial;
      assert Faithful(r.inbox[id], sent[id], ses, id + 1);
    }
  }

  /** A message that has been matched, in whichever way, is followed by the next number. */
  lemma OrderedNext(r: Receiver, r1: Receiver, ses: Session, sent: seq<Msg>)
    requires Core(r, ses, sent) && Books(r1, ses, sent) && WellFormed(r1)
    requires r1.nextMatch == r.nextMatch && |r1.inbox| == |r.inbox| + 1
    ensures Core(Advance(r1), ses, sent)
    ensures FragN(Advance(r1)) == FragN(r1) && MatchN(Advance(r1)) == MatchN(r) + 1 && Advance(r1).inbox == r1.inbox
  {
    hide Books, WellFormed, Wire, FragN;
    WireIncrease(ses, MatchN(r));
    var r2 := r1.(nextMatch := Increase(r1.nextMatch));
    BooksOfNext(r1, Increase(r1.nextMatch), ses, sent);
    UpdateFragCore(r2, ses, sent);
  }

  lemma BooksOfNext(r: Receiver, nextMatch: Seqnum, ses: Session, sent: seq<Msg>)
    requires Books(r, ses, sent) && WellFormed(r)
    ensures Books(r.(nextMatch := nextMatch), ses, sent) && WellFormed(r.(nextMatch := nextMatch))
    ensures FragN(r.(nextMatch := nextMatch)) == FragN(r)
  {
  }

  lemma OrderedBound(r: Receiver, ses: Session, sent: seq<Msg>, p: Packet, answer: Answer)
    requires Core(r, ses, sent) && WellFormed(r) && Carries(p, MatchN(r), ses, sent)
    requires Seq(p.seqnum - r.nextMatch) == 0 && Outcome(p, answer) != Refuse
    ensures var r' := Ordered(r, p, answer);
            Core(r', ses, sent) && Extends(r.inbox, r'.inbox) && FragN(r) <= FragN(r') && MatchN(r') == MatchN(r) + 1
  {
    hide Books, WellFormed, Seq, Wire, Bind, Drop, Advance, Extends, FragN, Continue;
    match Outcome(p, answer)
    case Into(dest) =>
      BindBooks(r, ses, sent, p, Posted, dest);
      OrderedNext(r, Bind(r, p, Posted, dest), ses, sent);
    case Keep(memory) =>
      BindBooks(r, ses, sent, p, Unexpected, memory);
      OrderedNext(r, Bind(r, p, Unexpected, memory), ses, sent);
    case Discard =>
      DropBooks(r, ses, sent, p);
      OrderedNext(r, Drop(r, p), ses, sent);
  }

  lemma ContinueCore(r: Receiver, ses: Session, sent: seq<Msg>, p: Packet, n: nat)
    requires Core(r, ses, sent) && WellFormed(r) && InWindow(r, sent) && Carries(p, n, ses, sent)
    requires p.kind == Medium && FragN(r) <= n < MatchN(r)
    ensures Core(Continue(r, p), ses, sent)
    ensures Extends(r.inbox, Continue(r, p).inbox)
    ensures FragN(r) <= FragN(Continue(r, p))
    ensures MatchN(Continue(r, p)) == MatchN(r)
  {
    hide Faithful, Ascending, Extends, Open, TakeFrag, FindPartial, Wire, Seq, ValidMsg, IsPacketOf;
    ExtendsReflexive(r.inbox);
    WireDistance(ses, n, FragN(r));
    FindPartialSpec(r, ses, sent, n, 0);
    if n - 1 in r.partial {
      TakeFragBooks(r, ses, sent, n - 1, p);
      UpdateFragCore(TakeFrag(r, n - 1, p), ses, sent);
      assert Continue(r, p) == UpdateFrag(TakeFrag(r, n - 1, p));
    } else {
      assert Continue(r, p) == r;
    }
  }

  /** A packet at or before the next message to match keeps the receiver's books. */
  lemma OrderedCore(r: Receiver, ses: Session, sent: seq<Msg>, p: Packet, n: nat, answer: Answer)
    requires Core(r, ses, sent) && WellFormed(r) && InWindow(r, sent) && Carries(p, n, ses, sent)
    requires FragN(r) <= n + STALE_MAX && n <= MatchN(r)
    ensures Core(Ordered(r, p, answer), ses, sent)
    ensures Extends(r.inbox, Ordered(r, p, answer).inbox)
    ensures FragN(r) <= FragN(Ordered(r, p, answer))
    ensures MatchN(Ordered(r, p, answer)) == MatchN(r)
            || (n == MatchN(r) && MatchN(Ordered(r, p, answer)) == MatchN(r) + 1)
  {
    hide Faithful, Ascending, Extends, Open, Seq, Wire, Increase, Bind, Drop, Advance, Continue, ValidMsg, IsPacketOf,
         UpdateFrag, Outcome;
    ExtendsReflexive(r.inbox);
    OrderedTests(r, ses, sent, p, n);
    if n == MatchN(r) {
      if Outcome(p, answer) != Refuse { OrderedBound(r, ses, sent, p, answer); }
    } else if p.kind == Medium && FragN(r) <= n {
      ContinueCore(r, ses, sent, p, n);
    }
  }

  // ---- the early queue ----

  /** The true number of a queued early packet, when m is the next message to match. */
  ghost function Num(e: Packet, m: nat, ses: Session): nat {
    m + Seq(e.seqnum - Wire(ses, m))
  }

  ghost predicate Before(a: Packet, b: Packet, m: nat, ses: Session) {
    Num(a, m, ses) < Num(b, m, ses) || (Num(a, m, ses) == Num(b, m, ses) && a.frag < b.frag)
  }

  /** Strictly sorted by (offset, fragment), offsets at most 255, every packet true to the log. */
  ghost predicate EarlyInv(early: seq<Packet>, m: nat, ses: Session, sent: seq<Msg>) {
    && (forall i :: 0 <= i < |early| ==>
          && Num(early[i], m, ses) <= m + EARLY_MAX
          && Carries(early[i], Num(early[i], m, ses), ses, sent))
    && (forall i, j :: 0 <= i < j < |early| ==> Before(early[i], early[j], m, ses))
  }

  lemma EarlyAt(early: seq<Packet>, m: nat, ses: Session, sent: seq<Msg>, i: nat)
    requires EarlyInv(early, m, ses, sent) && i < |early|
    ensures Num(early[i], m, ses) <= m + EARLY_MAX && Carries(early[i], Num(early[i], m, ses), ses, sent)
  {
  }

  lemma NumOf(e: Packet, n: nat, m: nat, ses: Session)
    requires e.seqnum == Wire(ses, n) && m <= n < m + SEQNUMS
    ensures Num(e, m, ses) == n
  {
    WireDistance(ses, n, m);
  }

  /** Advancing the next message to match does not change the queue's true numbers. */
  lemma EarlyShift(early: seq<Packet>, m: nat, m': nat, ses: Session, sent: seq<Msg>)
    requires EarlyInv(early, m, ses, sent)
    requires m <= m' && forall i :: 0 <= i < |early| ==> m' <= Num(early[i], m, ses)
    ensures EarlyInv(early, m', ses, sent)
  {
    forall i | 0 <= i < |early|
      ensures Num(early[i], m', ses) == Num(early[i], m, ses)
    {
      NumOf(early[i], Num(early[i], m, ses), m', ses);
    }
  }

  lemma EarlyRemove(a: seq<Packet>, e: Packet, b: seq<Packet>, m: nat, ses: Session, sent: seq<Msg>)
    requires EarlyInv(a + [e] + b, m, ses, sent)
    ensures EarlyInv(a + b, m, ses, sent)
  {
    var whole, part := a + [e] + b, a + b;
    assert forall i :: 0 <= i < |part| ==> part[i] == whole[if i < |a| then i else i + 1];
  }

  /** Two packets of one message agree on its kind, and differ at most in the fragment of a medium. */
  lemma SameMessage(a: Packet, b: Packet, n: nat, ses: Session, sent: seq<Msg>)
    requires Carries(a, n, ses, sent) && Carries(b, n, ses, sent)
    ensures a.kind == b.kind && (a.kind != Medium ==> a.frag == b.frag == 0)
  {
  }

  /** Every packet of a stretch of the queue goes before p, or after it. */
  ghost predicate AllBefore(early: seq<Packet>, lo: nat, hi: nat, p: Packet, m: nat, ses: Session) {
    forall i :: lo <= i < hi <= |early| ==> Before(early[i], p, m, ses)
  }

  ghost predicate AllAfter(early: seq<Packet>, lo: nat, hi: nat, p: Packet, m: nat, ses: Session) {
    forall i :: lo <= i < hi <= |early| ==> Before(p, early[i], m, ses)
  }

  lemma AllBeforeLast(early: seq<Packet>, k: nat, p: Packet, m: nat, ses: Session, sent: seq<Msg>)
    requires EarlyInv(early, m, ses, sent) && 0 < k <= |early| && Before(early[k - 1], p, m, ses)
    ensures AllBefore(early, 0, k, p, m, ses)
  {
    hide Num, Carries;
    assert forall i :: 0 <= i < k - 1 ==> Before(early[i], early[k - 1], m, ses);
  }

  /** Where the scan from the back puts a packet: behind every smaller key, in front of every larger one. */
  lemma {:induction false} PlaceSpec(early: seq<Packet>, p: Packet, n: nat, m: nat, ses: Session, sent: seq<Msg>,
      k: nat)
    requires EarlyInv(early, m, ses, sent) && k <= |early|
    requires Carries(p, n, ses, sent) && m <= n <= m + EARLY_MAX
    ensures var at := Place(early, p, Wire(ses, m), k);
            if at == -1 then exists i :: 0 <= i < k && early[i].frag == p.frag && Num(early[i], m, ses) == n
            else AllBefore(early, 0, at, p, m, ses) && AllAfter(early, at, k, p, m, ses)
  {
    hide AllBefore, AllAfter;
    if k == 0 {
      NoneBetween(early, 0, p, m, ses);
    } else {
      hide Carries, Wire, Seq, EarlyInv, Place, Before, Num;
      PlaceSpec(early, p, n, m, ses, sent, k - 1);
      PlaceStep(early, p, n, m, ses, sent, k);
      var current := early[k - 1];
      var at := Place(early, p, Wire(ses, m), k);
      if Before(current, p, m, ses) {
        AllBeforeLast(early, k, p, m, ses, sent);
        NoneBetween(early, k, p, m, ses);
      } else if Before(p, current, m, ses) && at != -1 {
        AllAfterSnoc(early, at, k - 1, p, m, ses);
      }
    }
  }

  /** One turn of the scan, said with true numbers. */
  lemma PlaceStep(early: seq<Packet>, p: Packet, n: nat, m: nat, ses: Session, sent: seq<Msg>, k: nat)
    requires EarlyInv(early, m, ses, sent) && 0 < k <= |early|
    requires Carries(p, n, ses, sent) && m <= n <= m + EARLY_MAX
    ensures Place(early, p, Wire(ses, m), k) ==
              if Before(early[k - 1], p, m, ses) then k
              else if Before(p, early[k - 1], m, ses) then Place(early, p, Wire(ses, m), k - 1)
              else -1
    ensures !Before(early[k - 1], p, m, ses) && !Before(p, early[k - 1], m, ses) ==>
              early[k - 1].frag == p.frag && Num(early[k - 1], m, ses) == n
  {
    hide Carries, Wire, Seq, EarlyInv;
    CarriesSeqnum(p, n, ses, sent);
    NumOf(p, n, m, ses);
    var current := early[k - 1];
    EarlyAt(early, m, ses, sent, k - 1);
    if Num(current, m, ses) == n { SameMessage(current, p, n, ses, sent); }
  }

  lemma NoneBetween(early: seq<Packet>, k: nat, p: Packet, m: nat, ses: Session)
    ensures AllAfter(early, k, k, p, m, ses)
    ensures k == 0 ==> AllBefore(early, 0, k, p, m, ses)
  {
  }

  lemma AllAfterSnoc(early: seq<Packet>, at: nat, k: nat, p: Packet, m: nat, ses: Session)
    requires k < |early| && AllAfter(early, at, k, p, m, ses) && Before(p, early[k], m, ses)
    ensures AllAfter(early, at, k + 1, p, m, ses)
  {
    hide Before;
  }

  lemma PostponeInv(r: Receiver, ses: Session, sent: seq<Msg>, p: Packet, n: nat, answer: Answer)
    requires r.nextMatch == Wire(ses, MatchN(r)) && EarlyInv(r.early, MatchN(r), ses, sent)
    requires Carries(p, n, ses, sent) && MatchN(r) <= n <= MatchN(r) + EARLY_MAX
    ensures EarlyInv(Postpone(r, p, answer).early, MatchN(r), ses, sent)
  {
    hide Carries, Wire, Num, Before, Place;
    var m := MatchN(r);
    var at := Place(r.early, p, r.nextMatch, |r.early|);
    PlaceSpec(r.early, p, n, m, ses, sent, |r.early|);
    NumOf(p, n, m, ses) by { assert Carries(p, n, ses, sent); CarriesSeqnum(p, n, ses, sent); }
    if at != -1 && answer != Refuse {
      InsertInv(r.early, at, p, m, ses, sent);
    }
  }

  lemma CarriesSeqnum(p: Packet, n: nat, ses: Session, sent: seq<Msg>)
    requires Carries(p, n, ses, sent)
    ensures p.seqnum == Wire(ses, n)
  {
  }

  lemma InsertInv(early: seq<Packet>, at: nat, p: Packet, m: nat, ses: Session, sent: seq<Msg>)
    requires EarlyInv(early, m, ses, sent) && at <= |early|
    requires Num(p, m, ses) <= m + EARLY_MAX && Carries(p, Num(p, m, ses), ses, sent)
    requires AllBefore(early, 0, at, p, m, ses) && AllAfter(early, at, |early|, p, m, ses)
    ensures EarlyInv(early[..at] + [p] + early[at..], m, ses, sent)
  {
    hide Carries, Wire, Num, Before;
    var e := early[..at] + [p] + early[at..];
    assert forall i :: 0 <= i < |e| ==> e[i] == if i < at then early[i] else if i == at then p else early[i - 1];
  }

  ghost predicate RecvInv(r: Receiver, ses: Session, sent: seq<Msg>) {
    Core(r, ses, sent) && EarlyInv(r.early, MatchN(r), ses, sent)
  }

  lemma RecvWellFormed(r: Receiver, ses: Session, sent: seq<Msg>)
    requires RecvInv(r, ses, sent)
    ensures WellFormed(r) && Ses(r.nextFrag) == ses
  {
    hide Wire, EarlyInv;
    BooksWellFormed(r, ses, sent);
    WireSession(ses, FragN(r));
  }

  lemma InWindowKept(r: Receiver, r': Receiver, sent: seq<Msg>)
    requires InWindow(r, sent) && FragN(r) <= FragN(r')
    ensures InWindow(r', sent)
  {
  }

  /** A longer log changes nothing for the receiver. */
  lemma LogGrows(r: Receiver, ses: Session, sent: seq<Msg>, sent': seq<Msg>)
    requires RecvInv(r, ses, sent) && sent <= sent' && forall i :: 0 <= i < |sent'| ==> ValidMsg(sent'[i])
    ensures RecvInv(r, ses, sent')
  {
    hide Faithful, IsPacketOf, Wire, Num, Before, Open;
    assert forall i :: 0 <= i < |sent| ==> sent'[i] == sent[i];
  }

  lemma ExtendsTransitive(a: seq<Delivery>, b: seq<Delivery>, c: seq<Delivery>)
    requires Extends(a, b) && Extends(b, c)
    ensures Extends(a, c)
  {
  }

  lemma CoreIgnoresEarly(r: Receiver, early: seq<Packet>, ses: Session, sent: seq<Msg>)
    requires Core(r, ses, sent) && WellFormed(r)
    ensures Core(r.(early := early), ses, sent) && WellFormed(r.(early := early))
    ensures MatchN(r.(early := early)) == MatchN(r) && FragN(r.(early := early)) == FragN(r)
  {
  }

  /** The drain loop: m is the number that was next before the packet that started it. */
  lemma {:induction false} DrainInv(r: Receiver, todo: seq<Packet>, m: nat, ses: Session, sent: seq<Msg>,
      answers: seq<Answer>)
    requires Core(r, ses, sent) && WellFormed(r) && InWindow(r, sent)
    requires m < MatchN(r) <= m + 2
    requires EarlyInv(r.early + todo, m, ses, sent)
    requires forall i :: 0 <= i < |r.early| ==> m + 2 <= Num(r.early[i], m, ses)
    ensures var r' := Drain(r, todo, Wire(ses, m), 1, answers);
            && Core(r', ses, sent)
            && Extends(r.inbox, r'.inbox)
            && FragN(r) <= FragN(r')
            && MatchN(r) <= MatchN(r') <= m + 2
            && EarlyInv(r'.early, m, ses, sent)
            && forall i :: 0 <= i < |r'.early| ==> m + 2 <= Num(r'.early[i], m, ses)
    decreases |todo|
  {
    hide Core, WellFormed, Carries, Before, Ordered, Extends, FragN;
    ExtendsReflexive(r.inbox);
    if todo == [] {
      assert r.early + todo == r.early;
    } else {
      var e := todo[0];
      assert (r.early + todo)[|r.early|] == e;
      assert r.early + todo == r.early + [e] + todo[1..];
      var n := Num(e, m, ses);
      if n <= m + 1 {
        FragBelowMatch(r, ses, sent);
        OrderedCore(r, ses, sent, e, n, Pick(answers, 0));
        EarlyRemove(r.early, e, todo[1..], m, ses, sent);
        var r1 := Ordered(r, e, Pick(answers, 0));
        DrainInv(r1, todo[1..], m, ses, sent, Rest(answers));
        ExtendsTransitive(r.inbox, r1.inbox, Drain(r1, todo[1..], Wire(ses, m), 1, Rest(answers)).inbox);
      } else {
        CoreIgnoresEarly(r, r.early + [e], ses, sent);
        DrainInv(r.(early := r.early + [e]), todo[1..], m, ses, sent, answers);
      }
    }
  }

  lemma FragBelowMatch(r: Receiver, ses: Session, sent: seq<Msg>)
    requires Core(r, ses, sent)
    ensures FragN(r) <= MatchN(r)
  {
    BooksWellFormed(r, ses, sent);
  }

  /**
    One packet of process_recv, however the library answers: the receiver keeps
    its window invariant and only extends what it has delivered.
  */
  lemma ProcessInv(r: Receiver, ses: Session, sent: seq<Msg>, p: Packet, n: nat, answers: seq<Answer>)
    requires RecvInv(r, ses, sent) && WellFormed(r) && InWindow(r, sent) && Carries(p, n, ses, sent)
    requires Recent(r, n)
    ensures RecvInv(Process(r, p, answers), ses, sent)
    ensures Extends(r.inbox, Process(r, p, answers).inbox)
    ensures FragN(r) <= FragN(Process(r, p, answers))
  {
    hide Core, WellFormed, Carries, EarlyInv, Seq, Extends, FragN, Postpone, Ordered, Drain, Recent;
    ExtendsReflexive(r.inbox);
    Classify(r, ses, sent, p, n);
    FragBelowMatch(r, ses, sent);
    var m := MatchN(r);
    if FragN(r) <= n <= m {
      ProcessOrdered(r, ses, sent, p, n, answers);
    } else if m < n <= m + EARLY_MAX {
      CoreNextMatch(r, ses, sent);
      PostponeInv(r, ses, sent, p, n, Pick(answers, 0));
      PostponeOnlyEarly(r, p, Pick(answers, 0));
      CoreIgnoresEarly(r, Postpone(r, p, Pick(answers, 0)).early, ses, sent);
    }
  }

  lemma CoreNextMatch(r: Receiver, ses: Session, sent: seq<Msg>)
    requires Core(r, ses, sent)
    ensures r.nextMatch == Wire(ses, MatchN(r))
  {
  }

  lemma PostponeOnlyEarly(r: Receiver, p: Packet, answer: Answer)
    ensures Postpone(r, p, answer) == r.(early := Postpone(r, p, answer).early)
  {
  }

  /** Nothing was given up to the unexpected handler. */
  ghost predicate NoneDiscarded(inbox: seq<Delivery>) {
    forall i :: 0 <= i < |inbox| ==> inbox[i].owner != Discarded
  }

  lemma TakeFragOwners(r: Receiver, id: nat, p: Packet)
    requires WellFormed(r) && id < |r.inbox|
    ensures forall i :: 0 <= i < |r.inbox| ==> TakeFrag(r, id, p).inbox[i].owner == r.inbox[i].owner
  {
    hide Absorb;
  }

  lemma OrderedDiscards(r: Receiver, p: Packet, answer: Answer)
    requires WellFormed(r) && NoneDiscarded(r.inbox) && answer != Discard
    ensures NoneDiscarded(Ordered(r, p, answer).inbox)
  {
    hide TakeFrag, WholeRx, Seq, Increase;
    if Seq(p.seqnum - r.nextMatch) == 0 {
      var o := Outcome(p, answer);
      if o != Refuse && p.kind == Medium {
        var owner := if o.Keep? then Unexpected else Posted;
        var dest := if o.Keep? then o.memory else o.dest;
        var d := Delivery(p.seqnum, p.kind, p.info, owner, dest, Fresh(p.msgLength, dest));
        TakeFragOwners(r.(inbox := r.inbox + [d]), |r.inbox|, p);
      }
    } else {
      var pos := FindPartial(r, Seq(p.seqnum - r.nextFrag), 0);
      if pos < |r.partial| { TakeFragOwners(r, r.partial[pos], p); }
    }
  }

  lemma {:induction false} DrainDiscards(r: Receiver, todo: seq<Packet>, base: Seqnum, indexMax: nat,
      answers: seq<Answer>)
    requires WellFormed(r) && NoneDiscarded(r.inbox) && Discard !in answers
    ensures NoneDiscarded(Drain(r, todo, base, indexMax, answers).inbox)
    decreases |todo|
  {
    hide Ordered, Seq, NoneDiscarded;
    if todo != [] {
      if Seq(todo[0].seqnum - base) <= indexMax {
        OrderedDiscards(r, todo[0], Pick(answers, 0));
        DrainDiscards(Ordered(r, todo[0], Pick(answers, 0)), todo[1..], base, indexMax, Rest(answers));
      } else {
        DrainDiscards(r.(early := r.early + [todo[0]]), todo[1..], base, indexMax, answers);
      }
    }
  }

  /** A message is discarded only if the handler says so: without that, everything matched has a request. */
  lemma DiscardedByHandler(r: Receiver, p: Packet, answers: seq<Answer>)
    requires WellFormed(r) && NoneDiscarded(r.inbox) && Discard !in answers
    ensures NoneDiscarded(Process(r, p, answers).inbox)
  {
    hide Ordered, Drain, Postpone, Seq, NoneDiscarded;
    OrderedDiscards(r, p, Pick(answers, 0));
    var r1 := Ordered(r, p, Pick(answers, 0));
    DrainDiscards(r1.(early := []), r1.early, r.nextMatch, Seq(r1.nextMatch - r.nextMatch), Rest(answers));
    PostponeOnlyEarly(r, p, Pick(answers, 0));
  }

  /** What process_recv makes of a packet, said with true numbers. */
  lemma Classify(r: Receiver, ses: Session, sent: seq<Msg>, p: Packet, n: nat)
    requires Core(r, ses, sent) && InWindow(r, sent) && Carries(p, n, ses, sent)
    requires Recent(r, n)
    ensures Seq(p.seqnum - r.nextFrag) <= Seq(r.nextMatch - r.nextFrag) <==> FragN(r) <= n <= MatchN(r)
    ensures Seq(p.seqnum - r.nextFrag) <= Seq(r.nextMatch - r.nextFrag) + EARLY_MAX <==>
            FragN(r) <= n <= MatchN(r) + EARLY_MAX
  {
    BooksWellFormed(r, ses, sent);
    WireDistance(ses, MatchN(r), FragN(r));
    if n < FragN(r) { WireBehind(ses, n, FragN(r)); } else { WireDistance(ses, n, FragN(r)); }
  }

  /**
    Exactly how old a packet may be: behind next_frag_recv_seq it is seen as
    obsolete if and only if it is recent.
  */
  lemma StaleExactly(r: Receiver, ses: Session, sent: seq<Msg>, p: Packet, n: nat)
    requires Core(r, ses, sent) && InWindow(r, sent) && Carries(p, n, ses, sent)
    requires n < FragN(r) <= n + SEQNUMS
    ensures Seq(p.seqnum - r.nextFrag) > Seq(r.nextMatch - r.nextFrag) + EARLY_MAX <==> Recent(r, n)
  {
    BooksWellFormed(r, ses, sent);
    WireDistance(ses, MatchN(r), FragN(r));
    WireBehind(ses, n, FragN(r));
  }

  /** The obsolete packet that is answered by an ack is the one just before next_frag_recv_seq. */
  lemma LastObsolete(r: Receiver, ses: Session, sent: seq<Msg>, p: Packet, n: nat)
    requires Core(r, ses, sent) && Carries(p, n, ses, sent) && n < FragN(r) <= n + SEQNUMS
    ensures Seq(p.seqnum - r.nextFrag) == Seq(-1) <==> n + 1 == FragN(r)
  {
    WireBehind(ses, n, FragN(r));
  }

  /** An older packet is taken for one that is early, though its message was received long ago. */
  lemma TooOldIsQueued(r: Receiver, ses: Session, sent: seq<Msg>, p: Packet, n: nat, answers: seq<Answer>)
    requires Core(r, ses, sent) && InWindow(r, sent) && Carries(p, n, ses, sent)
    requires n < FragN(r) && r.early == [] && Pick(answers, 0) != Refuse
    requires MatchN(r) - FragN(r) < SEQNUMS - (FragN(r) - n) <= MatchN(r) - FragN(r) + EARLY_MAX
    ensures WellFormed(r) && Process(r, p, answers).early == [p]
  {
    hide Ordered, Drain, Books, Seq, Wire, FragN, WellFormed, Carries;
    BooksWellFormed(r, ses, sent);
    WireDistance(ses, MatchN(r), FragN(r));
    WireBehind(ses, n, FragN(r));
    CarriesSeqnum(p, n, ses, sent);
    assert Seq(p.seqnum - r.nextFrag) == SEQNUMS - (FragN(r) - n);
    assert Seq(r.nextMatch - r.nextFrag) == MatchN(r) - FragN(r);
    assert Process(r, p, answers) == Postpone(r, p, Pick(answers, 0));
  }

  /**
    What a packet that was queued too late leads to.  When the numbers have come
    round, the packet of message n is bound as number n + 2^14, whatever that
    message is: here right after the one that comes before it.
  */
  lemma TooOldIsDelivered(r: Receiver, ses: Session, sent: seq<Msg>, stale: Packet, n: nat, q: Packet,
      answers: seq<Answer>)
    requires Core(r, ses, sent) && InWindow(r, sent) && Carries(q, MatchN(r), ses, sent)
    requires Carries(stale, n, ses, sent) && MatchN(r) + 1 == n + SEQNUMS && r.early == [stale]
    requires Outcome(q, Pick(answers, 0)) != Refuse && Outcome(stale, Pick(answers, 1)) != Refuse
    ensures WellFormed(r)
    ensures var inbox := Process(r, q, answers).inbox;
            && |inbox| == |r.inbox| + 2
            && var d := inbox[|r.inbox| + 1];
               d.seqnum == Wire(ses, n + SEQNUMS) && d.kind == sent[n - 1].kind && d.info == sent[n - 1].info
  {
    hide Books, Seq, Wire, FragN, WellFormed, IsPacketOf, Ordered, Drain, Process, Outcome;
    BooksWellFormed(r, ses, sent);
    var m := MatchN(r);
    OrderedCore(r, ses, sent, q, m, Pick(answers, 0));
    OrderedTests(r, ses, sent, q, m);
    OrderedBound(r, ses, sent, q, Pick(answers, 0));
    var r1 := Ordered(r, q, Pick(answers, 0));
    WireInjective(ses, m, m + 1);
    WireDistance(ses, m + 1, m);
    WireDistance(ses, m + 1, m + 1);
    WireTurn(ses, n);
    assert stale.seqnum == Wire(ses, m + 1) && r1.nextMatch == Wire(ses, m + 1);
    CoreIgnoresEarly(r1, [], ses, sent);
    OrderedAny(r1.(early := []), stale, Pick(answers, 1));
    WireDistance(ses, m, FragN(r));
    ThenDrained(r, q, stale, answers);
    PacketKind(stale, n, ses, sent);
  }

  /** The next packet is bound, and then the one that waits for the number after it. */
  lemma ThenDrained(r: Receiver, q: Packet, p: Packet, answers: seq<Answer>)
    requires WellFormed(r) && Seq(q.seqnum - r.nextFrag) <= Seq(r.nextMatch - r.nextFrag)
    requires var r1 := Ordered(r, q, Pick(answers, 0));
             r1.nextMatch != r.nextMatch && Seq(r1.nextMatch - r.nextMatch) == 1 && r1.early == [p]
    requires Seq(p.seqnum - r.nextMatch) <= 1
    ensures var r1 := Ordered(r, q, Pick(answers, 0));
            Process(r, q, answers) == Ordered(r1.(early := []), p, Pick(answers, 1))
  {
    hide Seq, Ordered, Drain, WellFormed, Pick, Rest, Postpone;
    var r1 := Ordered(r, q, Pick(answers, 0));
    EarlyWellFormed(r1, []);
    DrainOne(r1.(early := []), p, r.nextMatch, Rest(answers));
    PickRest(answers);
  }

  lemma EarlyWellFormed(r: Receiver, early: seq<Packet>)
    requires WellFormed(r)
    ensures WellFormed(r.(early := early))
  {
  }

  lemma WireTurn(ses: Session, n: nat)
    ensures Wire(ses, n + SEQNUMS) == Wire(ses, n)
  {
  }

  lemma PickRest(answers: seq<Answer>)
    ensures Pick(Rest(answers), 0) == Pick(answers, 1)
  {
  }

  lemma PacketKind(p: Packet, n: nat, ses: Session, sent: seq<Msg>)
    requires Carries(p, n, ses, sent)
    ensures p.kind == sent[n - 1].kind && p.info == sent[n - 1].info
  {
  }

  /** Any packet whose number is the next one is bound, or dropped by the handler. */
  lemma OrderedAny(r: Receiver, p: Packet, answer: Answer)
    requires WellFormed(r) && Seq(p.seqnum - r.nextMatch) == 0 && Outcome(p, answer) != Refuse
    ensures var inbox := Ordered(r, p, answer).inbox;
            && |inbox| == |r.inbox| + 1
            && var d := inbox[|r.inbox|]; d.seqnum == p.seqnum && d.kind == p.kind && d.info == p.info
  {
    hide Seq, Outcome, Fresh, Absorb, WholeRx;
  }

  lemma DrainOne(r: Receiver, p: Packet, base: Seqnum, answers: seq<Answer>)
    requires WellFormed(r) && Seq(p.seqnum - base) <= 1
    ensures Drain(r, [p], base, 1, answers) == Ordered(r, p, Pick(answers, 0))
  {
    hide Seq, Ordered;
    assert [p][1..] == [];
  }

  /** So that delivery is not the message that the sender numbered n + 2^14, unless the two look alike. */
  lemma TooOldIsWrong(r: Receiver, ses: Session, sent: seq<Msg>, stale: Packet, n: nat, q: Packet, answers: seq<Answer>)
    requires Core(r, ses, sent) && InWindow(r, sent) && Carries(q, MatchN(r), ses, sent)
    requires Carries(stale, n, ses, sent) && MatchN(r) + 1 == n + SEQNUMS && r.early == [stale]
    requires Outcome(q, Pick(answers, 0)) != Refuse && Outcome(stale, Pick(answers, 1)) != Refuse
    requires n + SEQNUMS <= |sent| && sent[n + SEQNUMS - 1].info != sent[n - 1].info
    ensures WellFormed(r) && !RecvInv(Process(r, q, answers), ses, sent)
  {
    hide Seq, Wire, FragN, WellFormed, IsPacketOf, Process, EarlyInv;
    TooOldIsDelivered(r, ses, sent, stale, n, q, answers);
    var r' := Process(r, q, answers);
    var k: nat := |r.inbox| + 1;
    if RecvInv(r', ses, sent) { InboxInfo(r', ses, sent, k); }
  }

  lemma InboxLength(r: Receiver, ses: Session, sent: seq<Msg>, k: nat)
    requires RecvInv(r, ses, sent) && k < |r.inbox|
    ensures k < |sent| && r.inbox[k].rx.msgLength == |sent[k].data| && r.inbox[k].kind == sent[k].kind
  {
    assert Faithful(r.inbox[k], sent[k], ses, k + 1);
  }

  lemma InboxInfo(r: Receiver, ses: Session, sent: seq<Msg>, k: nat)
    requires RecvInv(r, ses, sent) && k < |r.inbox|
    ensures k < |sent| && r.inbox[k].info == sent[k].info
  {
    assert Faithful(r.inbox[k], sent[k], ses, k + 1);
  }

  /** A concrete case: 16383 empty messages received, and the first of them once more. */
  lemma TooOldExample() returns (r: Receiver, sent: seq<Msg>, stale: Packet, q: Packet)
    ensures Core(r, 0, sent) && InWindow(r, sent) && MatchN(r) == 16384
    ensures Carries(stale, 1, 0, sent) && r.early == [stale] && Carries(q, 16384, 0, sent)
    ensures WellFormed(r) && !RecvInv(Process(r, q, [Into([]), Into([])]), 0, sent)
  {
    sent := seq(16385, i requires 0 <= i < 16385 => Msg(Tiny, if i == 0 then 1 else 0, []));
    stale := PacketOf(sent[0], Wire(0, 1), 0, 0);
    q := PacketOf(sent[16383], Wire(0, 16384), 0, 0);
    var inbox := seq(16383, i requires 0 <= i < 16383 =>
                       Delivery(Wire(0, i + 1), Tiny, if i == 0 then 1 else 0, Posted, [], WholeRx([], [])));
    r := Receiver(Wire(0, 16384), Wire(0, 16384), inbox, [], [stale]);
    forall i | 0 <= i < |inbox|
      ensures Faithful(inbox[i], sent[i], 0, i + 1)
    {
    }
    TooOldIsWrong(r, 0, sent, stale, 1, q, [Into([]), Into([])]);
  }

  lemma ProcessOrdered(r: Receiver, ses: Session, sent: seq<Msg>, p: Packet, n: nat, answers: seq<Answer>)
    requires RecvInv(r, ses, sent) && WellFormed(r) && InWindow(r, sent) && Carries(p, n, ses, sent)
    requires FragN(r) <= n <= MatchN(r)
    ensures RecvInv(Process(r, p, answers), ses, sent)
    ensures Extends(r.inbox, Process(r, p, answers).inbox)
    ensures FragN(r) <= FragN(Process(r, p, answers))
  {
    hide Carries, Seq, Wire, Num, Before, Drain, Ordered, Extends, Books;
    ExtendsReflexive(r.inbox);
    var m := MatchN(r);
    Classify(r, ses, sent, p, n);
    OrderedCore(r, ses, sent, p, n, Pick(answers, 0));
    var r1 := Ordered(r, p, Pick(answers, 0));
    WireInjective(ses, m, MatchN(r1));
    if MatchN(r1) == m + 1 {
      WireDistance(ses, m + 1, m);
      CoreIgnoresEarly(r1, [], ses, sent);
      var s := r1.(early := []);
      assert s.early + r1.early == r1.early;
      DrainInv(s, r1.early, m, ses, sent, Rest(answers));
      var r2 := Drain(s, r1.early, r.nextMatch, 1, Rest(answers));
      ExtendsTransitive(r.inbox, r1.inbox, r2.inbox);
      EarlyShift(r2.early, m, MatchN(r2), ses, sent);
    }
  }
}
