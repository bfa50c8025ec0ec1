/**
  The queues of an endpoint: posted receives and, if the endpoint has context ids,
  unexpected messages are kept per context id (libopen-mx/omx_recv.c).  Each
  operation is shown to act as on the two global lists of Matching.
*/
module Matchers {
  import opened Options
  import opened Powers
  import opened Matching

  datatype Error = BadMatchMask | BadMatchingForContextId | NoResources

  lemma {:induction false} ValueBound(bits: seq<bool>)
    ensures Value(bits) < Pow2(|bits|)
  {
    if bits != [] { ValueBound(bits[1..]); }
  }

  /** CTXID_FROM_MATCHING: bits shift to shift + bits of the match word. */
  function Ctxid(info: Word, shift: nat, bits: nat): (c: nat)
    requires shift + bits <= 64
    ensures c < Pow2(bits)
  {
    ValueBound(info[shift..shift + bits]);
    Value(info[shift..shift + bits])
  }

  /** match_info & ~match_mask == 0 */
  predicate Covered(info: Word, mask: Word) {
    forall i :: 0 <= i < 64 && info[i] ==> mask[i]
  }

  /** ctxid_mask & ~match_mask == 0 */
  predicate NoWildcard(mask: Word, shift: nat, bits: nat)
    requires shift + bits <= 64
  {
    forall i :: shift <= i < shift + bits ==> mask[i]
  }

  /** A receive without wildcard in the context id matches only messages of its context id. */
  lemma SameContext(r: Recv, info: Word, shift: nat, bits: nat)
    requires shift + bits <= 64 && NoWildcard(r.mask, shift, bits) && Matches(r, info)
    ensures Ctxid(r.info, shift, bits) == Ctxid(info, shift, bits)
  {
    hide Value;
    assert r.info[shift..shift + bits] == info[shift..shift + bits];
  }

  /** An element found by a property is the first that equals itself. */
  lemma FirstEqual<T>(s: seq<T>, p: T -> bool)
    requires First(s, p) < |s|
    ensures First(s, (x: T) => x == s[First(s, p)]) == First(s, p)
  {
    hide First;
    var i := First(s, p);
    assert forall j :: 0 <= j < i ==> s[j] != s[i];
  }

  ghost predicate RecvQueues(q: seq<seq<Recv>>, posted: seq<Recv>, shift: nat, bits: nat)
    requires shift + bits <= 64
  {
    && |q| == Pow2(bits)
    && forall c :: 0 <= c < |q| ==> q[c] == Filter(posted, RecvIn(c, shift, bits))
  }

  ghost predicate UnexpQueues(q: seq<seq<Unexp>>, unexp: seq<Unexp>, shift: nat, bits: nat)
    requires shift + bits <= 64
  {
    && |q| == Pow2(bits)
    && forall c :: 0 <= c < |q| ==> q[c] == Filter(unexp, UnexpIn(c, shift, bits))
  }

  ghost function RecvIn(c: nat, shift: nat, bits: nat): Recv -> bool
    requires shift + bits <= 64
  {
    (r: Recv) => Ctxid(r.info, shift, bits) == c
  }

  ghost function UnexpIn(c: nat, shift: nat, bits: nat): Unexp -> bool
    requires shift + bits <= 64
  {
    (u: Unexp) => Ctxid(u.info, shift, bits) == c
  }

  lemma {:induction false} QueueWithout<T(!new)>(s: seq<T>, i: nat, q: T -> bool)
    requires i < |s| && !q(s[i])
    ensures Filter(Without(s, i), q) == Filter(s, q)
  {
    hide Filter;
    assert s == s[..i] + ([s[i]] + s[i + 1..]);
    FilterAppend(s[..i], [s[i]] + s[i + 1..], q);
    FilterHead(s[i], s[i + 1..], q);
    FilterWithout(s, i, q);
  }

  lemma QueueAppend<T(!new)>(s: seq<T>, x: T, q: T -> bool)
    ensures Filter(s + [x], q) == if q(x) then Filter(s, q) + [x] else Filter(s, q)
  {
    hide Filter;
    FilterAppend(s, [x], q);
    FilterNil(q);
    FilterHead(x, [], q);
    assert [x] + [] == [x];
  }

  class Matcher {
    const shift: nat
    const bits: nat
    /** ctxid[c].recv_req_q, anyctxid.unexp_req_q, ctxid[c].unexp_req_q */
    var recvq: seq<seq<Recv>>
    var anyUnexp: seq<Unexp>
    var unexpq: seq<seq<Unexp>>
    /** All posted receives in order, which no queue of the source holds. */
    ghost var posted: seq<Recv>

    ghost function Global(): Lists
      reads this
    {
      Lists(posted, anyUnexp)
    }

    ghost predicate Valid()
      reads this
    {
      && shift + bits <= 64
      && RecvQueues(recvq, posted, shift, bits)
      && (0 < bits ==> UnexpQueues(unexpq, anyUnexp, shift, bits))
      && (forall r :: r in posted ==> NoWildcard(r.mask, shift, bits))
      && NoCross(Global())
    }

    constructor (shift: nat, bits: nat)
      requires shift + bits <= 64
      ensures Valid() && Global() == Lists([], []) && this.shift == shift && this.bits == bits
    {
      this.shift, this.bits := shift, bits;
      recvq := seq(Pow2(bits), _ => []);
      anyUnexp := [];
      unexpq := seq(Pow2(bits), _ => []);
      posted := [];
    }

    /** omx__match_recv: search the posted receives of the message's context id. */
    method MatchRecv(ghost m: Unexp, info: Word) returns (r: Option<Recv>)
      requires Valid() && m.info == info
      modifies this`recvq, this`posted
      ensures r == Arrive(old(Global()), m).1
      ensures posted == Arrive(old(Global()), m).0.posted
      ensures Valid()
      ensures r == None ==> recvq == old(recvq) && forall x :: x in posted ==> !Matches(x, info)
    {
      hide First, Filter, Matches, NoWildcard, Ctxid;
      var c := Ctxid(info, shift, bits);
      var queue := recvq[c];
      ghost var p := (x: Recv) => Matches(x, info);
      ghost var q := RecvIn(c, shift, bits);
      assert queue == Filter(posted, q);
      PostedContext(posted, info, shift, bits);
      FirstFiltered(posted, p, q);
      var k := 0;
      while k < |queue| && !Matches(queue[k], info)
        invariant k <= |queue| && forall j :: 0 <= j < k ==> !Matches(queue[j], info)
      {
        k := k + 1;
      }
      assert k == First(queue, p);
      if k == |queue| {
        return None;
      }
      r := Some(queue[k]);
      ghost var i := First(posted, p);
      ghost var before := posted;
      recvq := recvq[c := Without(queue, k)];
      posted := Without(posted, i);
      RecvRemoved(before, i, shift, bits);
      WithoutMember(before, i);
    }

    /** An unexpected message goes to the end of the queues. */
    method Enqueue(m: Unexp)
      requires Valid() && forall x :: x in posted ==> !Matches(x, m.info)
      modifies this`anyUnexp, this`unexpq
      ensures Valid() && Global() == old(Global()).(unexp := old(anyUnexp) + [m])
    {
      hide Filter, Matches, NoWildcard, Ctxid;
      ghost var before := anyUnexp;
      anyUnexp := anyUnexp + [m];
      if 0 < bits {
        var c := Ctxid(m.info, shift, bits);
        unexpq := unexpq[c := unexpq[c] + [m]];
        UnexpAdded(before, m, shift, bits);
      }
    }

    /**
      omx__try_match_next_recv: the first posted receive that matches; failing
      that, the unexpected handler, which may post receives, and a second search.
      Room says whether a request and a buffer can be allocated for an unexpected message.
    */
    method TryMatch(m: Unexp, handler: Handler, room: bool) returns (r: Arrived)
      requires Valid()
      modifies this
      ensures Valid()
      ensures (Global(), r) == Matched(old(Global()), m, handler, room, shift, bits)
    {
      hide First, Filter, Matches, NoWildcard, Covered, Ctxid, Without, NoCross, RecvQueues, UnexpQueues;
      var recv := MatchRecv(m, m.info);
      if recv != None {
        return Taken(recv.value);
      }
      ghost var g := Global();
      if handler != NoHandler {
        var i := 0;
        while i < |handler.posts|
          invariant i <= |handler.posts| && Valid() && Global() == Posts(g, handler.posts[..i], shift, bits)
        {
          assert handler.posts[..i + 1][..i] == handler.posts[..i];
          var res := Irecv(handler.posts[i].recv, handler.posts[i].room);
          i := i + 1;
        }
        assert handler.posts[..i] == handler.posts;
        if handler.Finished? {
          return Discarded;
        }
        recv := MatchRecv(m, m.info);
        if recv != None {
          return Taken(recv.value);
        }
      }
      if !room {
        return Refused;
      }
      Enqueue(m);
      r := Waits;
    }

    /**
      omx_irecv and omx__irecv_segs: the first unexpected message that matches, or a new posted receive,
      if there is room for its request.
    */
    method Irecv(r: Recv, room: bool) returns (res: Result)
      requires Valid()
      modifies this
      ensures Valid()
      ensures !Covered(r.info, r.mask) ==> res == Err(BadMatchMask)
      ensures Covered(r.info, r.mask) && !NoWildcard(r.mask, shift, bits) ==> res == Err(BadMatchingForContextId)
      ensures Acceptable(r, shift, bits) ==>
                var m := Post(old(Global()), r).1; res == if m == None && !room then Err(NoResources) else Ok(m)
      ensures Global() == if res.Ok? then Post(old(Global()), r).0 else old(Global())
      ensures res == Ok(None) ==> posted == old(posted) + [r] && anyUnexp == old(anyUnexp)
      ensures res.Ok? && res.msg != None ==> posted == old(posted) && Matches(r, res.msg.value.info)
    {
      hide First, Filter, Matches, NoWildcard, Covered, Ctxid, NoCross, RecvQueues, UnexpQueues, Without;
      if !Covered(r.info, r.mask) {
        return Err(BadMatchMask);
      }
      if !NoWildcard(r.mask, shift, bits) {
        return Err(BadMatchingForContextId);
      }
      ghost var g := Global();
      PostKeeps(g, r);
      PostIs(g, r);
      var m := FindUnexp(r);
      if m != None {
        Dequeue(r, m.value);
        return Ok(m);
      }
      if !room {
        return Err(NoResources);
      }
      PostNew(r);
      res := Ok(None);
    }

    /** Search the queue of the receive's context id, or the one queue there is. */
    method FindUnexp(r: Recv) returns (m: Option<Unexp>)
      requires Valid() && NoWildcard(r.mask, shift, bits)
      ensures m == Post(Global(), r).1
    {
      hide First, Filter, Matches, NoWildcard, Ctxid, NoCross, RecvQueues;
      var queue := if 0 < bits then UnexpLength(this); unexpq[Ctxid(r.info, shift, bits)] else anyUnexp;
      ghost var p := (u: Unexp) => Matches(r, u.info);
      if 0 < bits {
        UnexpContext(r, anyUnexp, shift, bits);
        FirstFiltered(anyUnexp, p, UnexpIn(Ctxid(r.info, shift, bits), shift, bits));
      }
      var k := 0;
      while k < |queue| && !Matches(r, queue[k].info)
        invariant k <= |queue| && forall j :: 0 <= j < k ==> !Matches(r, queue[j].info)
      {
        k := k + 1;
      }
      assert k == First(queue, p);
      m := if k < |queue| then Some(queue[k]) else None;
    }

    /** omx__complete_unexp_req_as_irecv unlinks the request from both queues it is in. */
    method Dequeue(ghost r: Recv, m: Unexp)
      requires Valid() && NoWildcard(r.mask, shift, bits) && Post(Global(), r).1 == Some(m)
      modifies this`anyUnexp, this`unexpq
      ensures Valid() && Global() == Post(old(Global()), r).0
    {
      hide First, Filter, Matches, NoWildcard, Ctxid, NoCross, RecvQueues, Without;
      PostKeeps(Global(), r);
      ghost var p := (u: Unexp) => Matches(r, u.info);
      FirstEqual(anyUnexp, p);
      ghost var before := anyUnexp;
      ghost var i := First(before, p);
      var at := First(anyUnexp, (u: Unexp) => u == m);
      assert at == i;
      anyUnexp := Without(anyUnexp, at);
      if 0 < bits {
        ghost var q := UnexpIn(Ctxid(r.info, shift, bits), shift, bits);
        UnexpContext(r, before, shift, bits);
        FirstFiltered(before, p, q);
        var c := Ctxid(m.info, shift, bits);
        assert q(m);
        FirstEqual(Filter(before, q), p);
        assert unexpq[c] == Filter(before, q);
        var k := First(unexpq[c], (u: Unexp) => u == m);
        unexpq := unexpq[c := Without(unexpq[c], k)];
        UnexpRemoved(before, i, shift, bits);
      }
    }

    /** No message waits for the receive: it goes to the end of its queue. */
    method PostNew(r: Recv)
      requires Valid() && NoWildcard(r.mask, shift, bits) && Post(Global(), r).1 == None
      modifies this`recvq, this`posted
      ensures Valid() && Global() == Post(old(Global()), r).0 && posted == old(posted) + [r]
    {
      hide First, Filter, Matches, NoWildcard, Ctxid, NoCross, UnexpQueues;
      PostKeeps(Global(), r);
      PostIs(Global(), r);
      var c := Ctxid(r.info, shift, bits);
      ghost var before := posted;
      recvq := recvq[c := recvq[c] + [r]];
      posted := posted + [r];
      RecvAdded(before, r, shift, bits);
    }
  }

  /** A call of omx_irecv, and whether it finds room for a new request. */
  datatype Call = Call(recv: Recv, room: bool)

  /** The unexpected handler: what it posts, and whether it took the message. */
  datatype Handler = NoHandler | Finished(receives: seq<Call>) | Continue(receives: seq<Call>) {
    const posts: seq<Call> := if NoHandler? then [] else receives
  }

  /** What became of a message: a receive took it, the handler took it, it waits, or it is refused for now. */
  datatype Arrived = Taken(recv: Recv) | Discarded | Waits | Refused

  datatype Result = Ok(msg: Option<Unexp>) | Err(error: Error)

  predicate Acceptable(r: Recv, shift: nat, bits: nat)
    requires shift + bits <= 64
  {
    Covered(r.info, r.mask) && NoWildcard(r.mask, shift, bits)
  }

  /** A receive that is not acceptable, or finds neither a message nor room, changes nothing. */
  function Attempt(g: Lists, call: Call, shift: nat, bits: nat): Lists
    requires shift + bits <= 64
  {
    if Acceptable(call.recv, shift, bits) && (call.room || Post(g, call.recv).1 != None) then Post(g, call.recv).0
    else g
  }

  function Posts(g: Lists, calls: seq<Call>, shift: nat, bits: nat): Lists
    requires shift + bits <= 64
  {
    if calls == [] then g
    else Attempt(Posts(g, calls[..|calls| - 1], shift, bits), calls[|calls| - 1], shift, bits)
  }

  /** What an arriving message does to the two lists. */
  function Matched(g: Lists, m: Unexp, handler: Handler, room: bool, shift: nat, bits: nat): (Lists, Arrived)
    requires shift + bits <= 64
  {
    var (g1, r1) := Arrive(g, m);
    if r1 != None then (g1, Taken(r1.value))
    else if handler.Finished? then (Posts(g, handler.posts, shift, bits), Discarded)
    else
      var g2 := Posts(g, handler.posts, shift, bits);
      var (g3, r3) := Arrive(g2, m);
      if r3 != None then (g3, Taken(r3.value))
      else if room then (g3, Waits)
      else (g2, Refused)
  }

  lemma {:induction false} PostsNoCross(g: Lists, calls: seq<Call>, shift: nat, bits: nat)
    requires shift + bits <= 64 && NoCross(g)
    ensures NoCross(Posts(g, calls, shift, bits))
  {
    hide NoCross, Acceptable, Post;
    if calls != [] {
      var before := calls[..|calls| - 1];
      PostsNoCross(g, before, shift, bits);
      PostKeeps(Posts(g, before, shift, bits), calls[|calls| - 1].recv);
    }
  }

  /** Each receive that the handler posts waits, or has taken a message that waited. */
  lemma {:induction false} PostsCount(g: Lists, calls: seq<Call>, shift: nat, bits: nat)
    requires shift + bits <= 64
    requires forall k :: 0 <= k < |calls| ==> Acceptable(calls[k].recv, shift, bits) && calls[k].room
    ensures var g' := Posts(g, calls, shift, bits);
            |g'.posted| - |g'.unexp| == |g.posted| - |g.unexp| + |calls|
  {
    hide Acceptable, Post, Matches;
    if calls != [] {
      var before, last := calls[..|calls| - 1], calls[|calls| - 1];
      PostsCount(g, before, shift, bits);
      PostIs(Posts(g, before, shift, bits), last.recv);
    }
  }

  /**
    However the handler and memory answer, nothing waits that could be matched; a receive that takes the message
    matches it; and a message that waits or is refused matches no posted receive.  It is discarded only by the
    handler and refused only for lack of memory.
  */
  lemma MatchedKeeps(g: Lists, m: Unexp, handler: Handler, room: bool, shift: nat, bits: nat)
    requires shift + bits <= 64 && NoCross(g)
    ensures var (g', r) := Matched(g, m, handler, room, shift, bits);
            && NoCross(g')
            && (r.Taken? ==> Matches(r.recv, m.info))
            && (r.Refused? || r.Waits? ==> forall p :: p in g'.posted ==> !Matches(p, m.info))
            && (r.Waits? ==> g'.unexp != [] && g'.unexp[|g'.unexp| - 1] == m)
            && (r.Discarded? ==> handler.Finished?)
            && (r.Refused? ==> !room)
  {
    hide Matches, Posts, First, Without;
    PostsNoCross(g, handler.posts, shift, bits);
    ArriveKeeps(g, m);
    ArriveKeeps(Posts(g, handler.posts, shift, bits), m);
  }

  /**
    The handler is asked exactly if no posted receive matches.  Then the receives it
    posts join those that wait; and the message takes one of all these receives, or
    waits, or the handler has finished it.
  */
  lemma MatchedCount(g: Lists, m: Unexp, handler: Handler, shift: nat, bits: nat)
    requires shift + bits <= 64
    requires forall k :: 0 <= k < |handler.posts| ==>
               Acceptable(handler.posts[k].recv, shift, bits) && handler.posts[k].room
    ensures var (g', r) := Matched(g, m, handler, true, shift, bits);
            var asked := forall p :: p in g.posted ==> !Matches(p, m.info);
            && (r.Discarded? <==> asked && handler.Finished?)
            && !r.Refused? && (!asked ==> r.Taken? && r.recv in g.posted)
            && |g'.posted| - |g'.unexp| ==
               |g.posted| - |g.unexp| + (if asked then |handler.posts| else 0) - (if r.Discarded? then 0 else 1)
  {
    hide Matches, Posts, Arrive, Acceptable;
    ArriveIs(g, m);
    PostsCount(g, handler.posts, shift, bits);
    ArriveIs(Posts(g, handler.posts, shift, bits), m);
  }

  lemma UnexpLength(x: Matcher)
    requires x.Valid() && 0 < x.bits
    ensures |x.unexpq| == Pow2(x.bits)
  {
  }

  lemma UnexpContext(r: Recv, unexp: seq<Unexp>, shift: nat, bits: nat)
    requires shift + bits <= 64 && NoWildcard(r.mask, shift, bits)
    ensures forall u :: u in unexp && Matches(r, u.info) ==> UnexpIn(Ctxid(r.info, shift, bits), shift, bits)(u)
  {
    hide Matches, NoWildcard, Ctxid;
    forall u | u in unexp && Matches(r, u.info)
      ensures UnexpIn(Ctxid(r.info, shift, bits), shift, bits)(u)
    {
      SameContext(r, u.info, shift, bits);
    }
  }

  lemma UnexpAdded(unexp: seq<Unexp>, m: Unexp, shift: nat, bits: nat)
    requires shift + bits <= 64
    ensures forall c :: 0 <= c < Pow2(bits) ==>
              Filter(unexp + [m], UnexpIn(c, shift, bits)) ==
              if c == Ctxid(m.info, shift, bits) then Filter(unexp, UnexpIn(c, shift, bits)) + [m]
              else Filter(unexp, UnexpIn(c, shift, bits))
  {
    hide Filter, Ctxid;
    forall c: nat { QueueAppend(unexp, m, UnexpIn(c, shift, bits)); }
  }

  lemma RecvAdded(posted: seq<Recv>, r: Recv, shift: nat, bits: nat)
    requires shift + bits <= 64
    ensures forall c :: 0 <= c < Pow2(bits) ==>
              Filter(posted + [r], RecvIn(c, shift, bits)) ==
              if c == Ctxid(r.info, shift, bits) then Filter(posted, RecvIn(c, shift, bits)) + [r]
              else Filter(posted, RecvIn(c, shift, bits))
  {
    hide Filter, Ctxid;
    forall c: nat { QueueAppend(posted, r, RecvIn(c, shift, bits)); }
  }

  lemma UnexpRemoved(unexp: seq<Unexp>, i: nat, shift: nat, bits: nat)
    requires shift + bits <= 64 && i < |unexp|
    ensures forall c :: 0 <= c < Pow2(bits) && c != Ctxid(unexp[i].info, shift, bits) ==>
              Filter(Without(unexp, i), UnexpIn(c, shift, bits)) == Filter(unexp, UnexpIn(c, shift, bits))
  {
    hide Filter, Ctxid;
    forall c | 0 <= c < Pow2(bits) && c != Ctxid(unexp[i].info, shift, bits)
      ensures Filter(Without(unexp, i), UnexpIn(c, shift, bits)) == Filter(unexp, UnexpIn(c, shift, bits))
    {
      QueueWithout(unexp, i, UnexpIn(c, shift, bits));
    }
  }

  lemma PostedContext(posted: seq<Recv>, info: Word, shift: nat, bits: nat)
    requires shift + bits <= 64 && forall r :: r in posted ==> NoWildcard(r.mask, shift, bits)
    ensures forall r :: r in posted && Matches(r, info) ==> RecvIn(Ctxid(info, shift, bits), shift, bits)(r)
  {
    hide Matches, NoWildcard, Ctxid;
    forall r | r in posted && Matches(r, info)
      ensures RecvIn(Ctxid(info, shift, bits), shift, bits)(r)
    {
      SameContext(r, info, shift, bits);
    }
  }

  /** Taking a receive out changes the queue of its own context id only. */
  lemma RecvRemoved(posted: seq<Recv>, i: nat, shift: nat, bits: nat)
    requires shift + bits <= 64 && i < |posted|
    ensures forall c :: 0 <= c < Pow2(bits) && c != Ctxid(posted[i].info, shift, bits) ==>
              Filter(Without(posted, i), RecvIn(c, shift, bits)) == Filter(posted, RecvIn(c, shift, bits))
  {
    hide Filter, Ctxid;
    forall c | 0 <= c < Pow2(bits) && c != Ctxid(posted[i].info, shift, bits)
      ensures Filter(Without(posted, i), RecvIn(c, shift, bits)) == Filter(posted, RecvIn(c, shift, bits))
    {
      QueueWithout(posted, i, RecvIn(c, shift, bits));
    }
  }
}
