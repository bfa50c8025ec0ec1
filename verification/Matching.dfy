/**
  Matching messages with posted receives (libopen-mx/omx_recv.c), on two lists:
  the receives in the order they were posted, and the unexpected messages in the
  order they arrived.
*/
module Matching {
  import opened Options

  /** A 64-bit match word, lowest bit first. */
  type Word = w: seq<bool> | |w| == 64 witness seq(64, _ => false)

  /** A posted receive and a message, each stamped with the time it came. */
  datatype Recv = Recv(id: nat, info: Word, mask: Word)
  datatype Unexp = Unexp(id: nat, info: Word)

  function And(a: Word, b: Word): Word {
    seq(64, i requires 0 <= i < 64 => a[i] && b[i])
  }

  predicate Matches(r: Recv, info: Word) {
    r.info == And(r.mask, info)
  }

  /** The message agrees with the receive where the mask is set, and the receive asks for nothing elsewhere. */
  lemma MatchesBits(r: Recv, info: Word)
    ensures Matches(r, info) <==> forall i :: 0 <= i < 64 ==> if r.mask[i] then r.info[i] == info[i] else !r.info[i]
  {
    var both := And(r.mask, info);
    assert forall i :: 0 <= i < 64 ==> both[i] == (r.mask[i] && info[i]);
    if forall i :: 0 <= i < 64 ==> if r.mask[i] then r.info[i] == info[i] else !r.info[i] {
      assert forall i :: 0 <= i < 64 ==> r.info[i] == both[i];
      assert r.info == both;
    }
  }

  // ---- the first element that has a property ----

  function First<T>(s: seq<T>, p: T -> bool): (i: nat)
    ensures i <= |s| && (i < |s| ==> p(s[i])) && forall j :: 0 <= j < i ==> !p(s[j])
  {
    if s == [] || p(s[0]) then 0 else 1 + First(s[1..], p)
  }

  function Without<T>(s: seq<T>, i: nat): seq<T>
    requires i < |s|
  {
    s[..i] + s[i + 1..]
  }

  function Filter<T>(s: seq<T>, p: T -> bool): seq<T> {
    if s == [] then [] else (if p(s[0]) then [s[0]] else []) + Filter(s[1..], p)
  }

  lemma FilterHead<T>(x: T, s: seq<T>, q: T -> bool)
    ensures Filter([x] + s, q) == (if q(x) then [x] else []) + Filter(s, q)
  {
    assert ([x] + s)[1..] == s;
  }

  lemma {:induction false} FilterAppend<T>(s: seq<T>, t: seq<T>, q: T -> bool)
    ensures Filter(s + t, q) == Filter(s, q) + Filter(t, q)
  {
    hide Filter;
    if s == [] {
      FilterNil(q);
      assert s + t == t;
    } else {
      var x, rest := s[0], s[1..];
      FilterAppend(rest, t, q);
      assert s == [x] + rest;
      assert s + t == [x] + (rest + t);
      FilterHead(x, rest + t, q);
      FilterHead(x, rest, q);
    }
  }

  lemma FilterNil<T>(q: T -> bool)
    ensures Filter([], q) == []
  {
  }

  lemma {:induction false} FilterMember<T(!new)>(s: seq<T>, q: T -> bool)
    ensures forall x :: x in Filter(s, q) ==> x in s && q(x)
  {
    if s != [] { FilterMember(s[1..], q); }
  }

  /** Cut at an element, in the list and in what is left of it. */
  lemma FilterCut<T>(head: seq<T>, x: T, tail: seq<T>, q: T -> bool)
    requires q(x)
    ensures Filter(head + ([x] + tail), q) == Filter(head, q) + ([x] + Filter(tail, q))
  {
    hide Filter;
    FilterAppend(head, [x] + tail, q);
    FilterHead(x, tail, q);
  }

  lemma FilterWithout<T>(s: seq<T>, i: nat, q: T -> bool)
    requires i < |s|
    ensures Filter(Without(s, i), q) == Filter(s[..i], q) + Filter(s[i + 1..], q)
  {
    hide Filter;
    FilterAppend(s[..i], s[i + 1..], q);
  }

  lemma WithoutMember<T(!new)>(s: seq<T>, i: nat)
    requires i < |s|
    ensures forall x :: x in Without(s, i) ==> x in s
    ensures forall x :: x in s && x != s[i] ==> x in Without(s, i)
  {
    forall x | x in s && x != s[i]
      ensures x in Without(s, i)
    {
      var j :| 0 <= j < |s| && s[j] == x;
      assert j < i ==> s[..i][j] == x;
      assert i < j ==> s[i + 1..][j - i - 1] == x;
    }
  }

  /** Searching the part that could match finds what searching everything finds. */
  lemma FirstFiltered<T(!new)>(s: seq<T>, p: T -> bool, q: T -> bool)
    requires forall x :: x in s && p(x) ==> q(x)
    ensures var i := First(s, p); var f := Filter(s, q); var k := First(f, p);
            && (i < |s| <==> k < |f|)
            && (i < |s| ==> f[k] == s[i] && Filter(Without(s, i), q) == Without(f, k))
  {
    hide First, Filter;
    var i, f := First(s, p), Filter(s, q);
    if i < |s| {
      assert s == s[..i] + ([s[i]] + s[i + 1..]);
      FilterCut(s[..i], s[i], s[i + 1..], q);
      FilterWithout(s, i, q);
      var head, tail := Filter(s[..i], q), Filter(s[i + 1..], q);
      FilterMember(s[..i], q);
      FirstAfter(head, s[i], tail, p);
      WithoutAfter(head, s[i], tail);
    } else {
      FilterMember(s, q);
      assert forall x :: x in s ==> !p(x);
      FirstNone(f, p);
    }
  }

  lemma FirstNone<T(!new)>(s: seq<T>, p: T -> bool)
    requires forall x :: x in s ==> !p(x)
    ensures First(s, p) == |s|
  {
    hide First;
  }

  lemma {:induction false} FirstAfter<T(!new)>(head: seq<T>, x: T, tail: seq<T>, p: T -> bool)
    requires p(x) && forall y :: y in head ==> !p(y)
    ensures First(head + ([x] + tail), p) == |head|
  {
    var s := head + ([x] + tail);
    if head != [] {
      assert s[0] == head[0] && s[1..] == head[1..] + ([x] + tail);
      FirstAfter(head[1..], x, tail, p);
    }
  }

  lemma WithoutAfter<T>(head: seq<T>, x: T, tail: seq<T>)
    ensures (head + ([x] + tail))[|head|] == x && Without(head + ([x] + tail), |head|) == head + tail
  {
    var s := head + ([x] + tail);
    assert s[..|head|] == head && s[|head| + 1..] == tail;
  }

  // ---- the two lists ----

  datatype Lists = Lists(posted: seq<Recv>, unexp: seq<Unexp>)

  /** A message takes the first posted receive that it matches, or waits. */
  function Arrive(g: Lists, m: Unexp): (Lists, Option<Recv>) {
    var i := First(g.posted, (r: Recv) => Matches(r, m.info));
    if i < |g.posted| then (g.(posted := Without(g.posted, i)), Some(g.posted[i]))
    else (g.(unexp := g.unexp + [m]), None)
  }

  /** A receive takes the first waiting message that it matches, or waits. */
  function Post(g: Lists, r: Recv): (Lists, Option<Unexp>) {
    var i := First(g.unexp, (u: Unexp) => Matches(r, u.info));
    if i < |g.unexp| then (g.(unexp := Without(g.unexp, i)), Some(g.unexp[i]))
    else (g.(posted := g.posted + [r]), None)
  }

  /** A receive takes the first message that it matches; if there is none it is the last that waits. */
  lemma PostIs(g: Lists, r: Recv)
    ensures var (g', m) := Post(g, r);
            if m == None then
              (forall u :: u in g.unexp ==> !Matches(r, u.info)) && g' == g.(posted := g.posted + [r])
            else
              exists i :: && 0 <= i < |g.unexp| && g.unexp[i] == m.value && Matches(r, m.value.info)
                          && (forall j :: 0 <= j < i ==> !Matches(r, g.unexp[j].info))
                          && g' == g.(unexp := Without(g.unexp, i))
  {
    hide First, Matches;
  }

  /** A message is taken by the first receive that matches it; if there is none it is the last that waits. */
  lemma ArriveIs(g: Lists, m: Unexp)
    ensures var (g', r) := Arrive(g, m);
            if r == None then
              (forall p :: p in g.posted ==> !Matches(p, m.info)) && g' == g.(unexp := g.unexp + [m])
            else
              exists i :: && 0 <= i < |g.posted| && g.posted[i] == r.value && Matches(r.value, m.info)
                          && (forall j :: 0 <= j < i ==> !Matches(g.posted[j], m.info))
                          && g' == g.(posted := Without(g.posted, i))
  {
    hide First, Matches;
  }

  /** Nothing that waits could be matched with anything else that waits. */
  ghost predicate NoCross(g: Lists) {
    forall r, u :: r in g.posted && u in g.unexp ==> !Matches(r, u.info)
  }

  lemma ArriveKeeps(g: Lists, m: Unexp)
    requires NoCross(g)
    ensures NoCross(Arrive(g, m).0)
  {
    hide Matches, Without, First;
    var i := First(g.posted, (r: Recv) => Matches(r, m.info));
    if i < |g.posted| { WithoutMember(g.posted, i); }
  }

  lemma PostKeeps(g: Lists, r: Recv)
    requires NoCross(g)
    ensures NoCross(Post(g, r).0)
  {
    hide Matches, Without, First;
    var i := First(g.unexp, (u: Unexp) => Matches(r, u.info));
    if i < |g.unexp| { WithoutMember(g.unexp, i); }
  }

  // ---- runs ----

  datatype Event = Arrival(info: Word) | Posting(info: Word, mask: Word)

  datatype Pair = Pair(msg: Unexp, recv: Recv)

  /** The waiting lists, what has been matched, and the time. */
  datatype World = World(lists: Lists, pairs: set<Pair>, clock: nat)

  function Happen(w: World, e: Event): World {
    match e
    case Arrival(info) =>
      var m := Unexp(w.clock, info);
      var (g, r) := Arrive(w.lists, m);
      World(g, if r == None then w.pairs else w.pairs + {Pair(m, r.value)}, w.clock + 1)
    case Posting(info, mask) =>
      var r := Recv(w.clock, info, mask);
      var (g, m) := Post(w.lists, r);
      World(g, if m == None then w.pairs else w.pairs + {Pair(m.value, r)}, w.clock + 1)
  }

  function After(events: seq<Event>): World {
    if events == [] then World(Lists([], []), {}, 0)
    else Happen(After(events[..|events| - 1]), events[|events| - 1])
  }

  ghost predicate RecvsStamped(posted: seq<Recv>, clock: nat) {
    && (forall r :: r in posted ==> r.id < clock)
    && (forall i, j :: 0 <= i < j < |posted| ==> posted[i].id < posted[j].id)
  }

  ghost predicate UnexpsStamped(unexp: seq<Unexp>, clock: nat) {
    && (forall u :: u in unexp ==> u.id < clock)
    && (forall i, j :: 0 <= i < j < |unexp| ==> unexp[i].id < unexp[j].id)
  }

  ghost predicate PairOk(p: Pair, clock: nat) {
    p.msg.id < clock && p.recv.id < clock && Matches(p.recv, p.msg.info)
  }

  /** Neither partner of a match waits any more, and what waits longer could not have taken its place. */
  ghost predicate Fair(p: Pair, g: Lists) {
    && (forall r :: r in g.posted ==> r.id != p.recv.id && (r.id < p.recv.id ==> !Matches(r, p.msg.info)))
    && (forall u :: u in g.unexp ==> u.id != p.msg.id && (u.id < p.msg.id ==> !Matches(p.recv, u.info)))
  }

  /** The earlier message went to the later receive, though the earlier one matches it. */
  ghost predicate Overtakes(p: Pair, q: Pair) {
    p.msg.id < q.msg.id && q.recv.id < p.recv.id && Matches(q.recv, p.msg.info)
  }

  /** One of the two should not be: it overtakes the other, or takes a partner of the other again. */
  ghost predicate Conflict(p: Pair, q: Pair) {
    Overtakes(p, q) || (p != q && (p.msg.id == q.msg.id || p.recv.id == q.recv.id))
  }

  ghost predicate WorldOk(w: World) {
    && NoCross(w.lists)
    && RecvsStamped(w.lists.posted, w.clock) && UnexpsStamped(w.lists.unexp, w.clock)
    && (forall p :: p in w.pairs ==> PairOk(p, w.clock) && Fair(p, w.lists))
    && (forall p, q :: p in w.pairs && q in w.pairs ==> !Conflict(p, q))
  }

  /** Taking a receive out of the list, or adding one, keeps a matched pair fair. */
  lemma FairKept(p: Pair, g: Lists, g': Lists, clock: nat)
    requires PairOk(p, clock) && Fair(p, g)
    requires forall r :: r in g'.posted ==> r in g.posted || clock <= r.id
    requires forall u :: u in g'.unexp ==> u in g.unexp || clock <= u.id
    ensures Fair(p, g') && PairOk(p, clock + 1)
  {
    hide Matches;
  }

  lemma RecvLeaves(posted: seq<Recv>, i: nat, info: Word, clock: nat)
    requires RecvsStamped(posted, clock) && i < |posted| && forall j :: 0 <= j < i ==> !Matches(posted[j], info)
    ensures RecvsStamped(Without(posted, i), clock + 1)
    ensures forall r :: r in Without(posted, i) ==> r.id != posted[i].id
    ensures forall r :: r in posted && r.id < posted[i].id ==> !Matches(r, info)
  {
    hide Matches;
    WithoutMember(posted, i);
    forall r | r in posted && r.id < posted[i].id
      ensures !Matches(r, info)
    {
      var j :| 0 <= j < |posted| && posted[j] == r;
      assert j < i;
    }
  }

  lemma UnexpLeaves(unexp: seq<Unexp>, i: nat, r: Recv, clock: nat)
    requires UnexpsStamped(unexp, clock) && i < |unexp| && forall j :: 0 <= j < i ==> !Matches(r, unexp[j].info)
    ensures UnexpsStamped(Without(unexp, i), clock + 1)
    ensures forall u :: u in Without(unexp, i) ==> u.id != unexp[i].id
    ensures forall u :: u in unexp && u.id < unexp[i].id ==> !Matches(r, u.info)
  {
    hide Matches;
    WithoutMember(unexp, i);
    forall u | u in unexp && u.id < unexp[i].id
      ensures !Matches(r, u.info)
    {
      var j :| 0 <= j < |unexp| && unexp[j] == u;
      assert j < i;
    }
  }

  /** A new match does not overtake an old one, nor the other way round. */
  lemma NewPairInOrder(q: Pair, p: Pair, g: Lists, clock: nat)
    requires PairOk(q, clock) && Fair(q, g)
    requires p.msg.id == clock || p.msg in g.unexp
    requires p.recv.id == clock || p.recv in g.posted
    ensures !Conflict(p, q) && !Conflict(q, p)
  {
    hide Matches;
  }

  lemma ArrivalMatched(w: World, m: Unexp, i: nat)
    requires WorldOk(w) && m.id == w.clock && i < |w.lists.posted| && Matches(w.lists.posted[i], m.info)
    requires forall j :: 0 <= j < i ==> !Matches(w.lists.posted[j], m.info)
    ensures var g := w.lists.(posted := Without(w.lists.posted, i)); var p := Pair(m, w.lists.posted[i]);
            && PairOk(p, w.clock + 1) && Fair(p, g) && RecvsStamped(g.posted, w.clock + 1)
            && (forall q :: q in w.pairs ==> !Conflict(p, q) && !Conflict(q, p))
  {
    hide Matches, Without, Conflict;
    var p := Pair(m, w.lists.posted[i]);
    RecvLeaves(w.lists.posted, i, m.info, w.clock);
    WithoutMember(w.lists.posted, i);
    NothingElse(p, w.lists);
    forall q | q in w.pairs
      ensures !Conflict(p, q) && !Conflict(q, p)
    {
      NewPairInOrder(q, p, w.lists, w.clock);
    }
  }

  /** An arriving message that has a match matches nothing that waits by NoCross, and the other way round. */
  lemma NothingElse(p: Pair, g: Lists)
    requires NoCross(g)
    ensures p.recv in g.posted ==> forall u :: u in g.unexp ==> !Matches(p.recv, u.info)
    ensures p.msg in g.unexp ==> forall r :: r in g.posted ==> !Matches(r, p.msg.info)
  {
  }

  lemma PostingMatched(w: World, r: Recv, i: nat)
    requires WorldOk(w) && r.id == w.clock && i < |w.lists.unexp| && Matches(r, w.lists.unexp[i].info)
    requires forall j :: 0 <= j < i ==> !Matches(r, w.lists.unexp[j].info)
    ensures var g := w.lists.(unexp := Without(w.lists.unexp, i)); var p := Pair(w.lists.unexp[i], r);
            && PairOk(p, w.clock + 1) && Fair(p, g) && UnexpsStamped(g.unexp, w.clock + 1)
            && (forall q :: q in w.pairs ==> !Conflict(p, q) && !Conflict(q, p))
  {
    hide Matches, Without, Conflict;
    var p := Pair(w.lists.unexp[i], r);
    UnexpLeaves(w.lists.unexp, i, r, w.clock);
    WithoutMember(w.lists.unexp, i);
    NothingElse(p, w.lists);
    forall q | q in w.pairs
      ensures !Conflict(p, q) && !Conflict(q, p)
    {
      NewPairInOrder(q, p, w.lists, w.clock);
    }
  }

  lemma ArrivalKeeps(w: World, info: Word)
    requires WorldOk(w)
    ensures WorldOk(Happen(w, Arrival(info)))
  {
    hide Matches, Without, First, Fair, PairOk, Conflict, NoCross;
    var m := Unexp(w.clock, info);
    var i := First(w.lists.posted, (r: Recv) => Matches(r, m.info));
    ArriveKeeps(w.lists, m);
    var w' := Happen(w, Arrival(info));
    if i < |w.lists.posted| {
      ArrivalMatched(w, m, i);
      WithoutMember(w.lists.posted, i);
    }
    forall p | p in w.pairs
      ensures PairOk(p, w'.clock) && Fair(p, w'.lists)
    {
      FairKept(p, w.lists, w'.lists, w.clock);
    }
    NoSelfConflict();
  }

  lemma PostingKeeps(w: World, info: Word, mask: Word)
    requires WorldOk(w)
    ensures WorldOk(Happen(w, Posting(info, mask)))
  {
    hide Matches, Without, First, Fair, PairOk, Conflict, NoCross;
    var r := Recv(w.clock, info, mask);
    var i := First(w.lists.unexp, (u: Unexp) => Matches(r, u.info));
    PostKeeps(w.lists, r);
    var w' := Happen(w, Posting(info, mask));
    if i < |w.lists.unexp| {
      PostingMatched(w, r, i);
      WithoutMember(w.lists.unexp, i);
    }
    forall p | p in w.pairs
      ensures PairOk(p, w'.clock) && Fair(p, w'.lists)
    {
      FairKept(p, w.lists, w'.lists, w.clock);
    }
    NoSelfConflict();
  }

  lemma NoSelfConflict()
    ensures forall p :: !Conflict(p, p)
  {
  }

  /** In every run, nothing waits that could be matched, and no match overtakes another. */
  lemma {:induction false} RunOk(events: seq<Event>)
    ensures WorldOk(After(events))
  {
    hide Matches, Happen, WorldOk;
    if events == [] {
      Initially();
    } else {
      var before := events[..|events| - 1];
      RunOk(before);
      match events[|events| - 1]
      case Arrival(info) => ArrivalKeeps(After(before), info);
      case Posting(info, mask) => PostingKeeps(After(before), info, mask);
    }
  }

  lemma Initially()
    ensures WorldOk(World(Lists([], []), {}, 0))
  {
  }

  // ---- conservation ----

  ghost predicate RecvPlaced(w: World, r: Recv) {
    r in w.lists.posted || exists p :: p in w.pairs && p.recv == r
  }

  ghost predicate MsgPlaced(w: World, m: Unexp) {
    m in w.lists.unexp || exists p :: p in w.pairs && p.msg == m
  }

  /** What happened at time k waits or has been matched. */
  ghost predicate Placed(w: World, e: Event, k: nat) {
    match e
    case Arrival(info) => MsgPlaced(w, Unexp(k, info))
    case Posting(info, mask) => RecvPlaced(w, Recv(k, info, mask))
  }

  lemma ArrivalPlaces(w: World, info: Word)
    ensures var w' := Happen(w, Arrival(info));
            && MsgPlaced(w', Unexp(w.clock, info))
            && (forall m :: MsgPlaced(w, m) ==> MsgPlaced(w', m))
            && (forall r :: RecvPlaced(w, r) ==> RecvPlaced(w', r))
  {
    hide Matches, First, Without;
    var m := Unexp(w.clock, info);
    var w' := Happen(w, Arrival(info));
    var i := First(w.lists.posted, (r: Recv) => Matches(r, m.info));
    if i < |w.lists.posted| {
      WithoutMember(w.lists.posted, i);
      assert Pair(m, w.lists.posted[i]) in w'.pairs;
    }
  }

  lemma PostingPlaces(w: World, info: Word, mask: Word)
    ensures var w' := Happen(w, Posting(info, mask));
            && RecvPlaced(w', Recv(w.clock, info, mask))
            && (forall m :: MsgPlaced(w, m) ==> MsgPlaced(w', m))
            && (forall r :: RecvPlaced(w, r) ==> RecvPlaced(w', r))
  {
    hide Matches, First, Without;
    var r := Recv(w.clock, info, mask);
    var w' := Happen(w, Posting(info, mask));
    var i := First(w.lists.unexp, (u: Unexp) => Matches(r, u.info));
    if i < |w.lists.unexp| {
      WithoutMember(w.lists.unexp, i);
      assert Pair(w.lists.unexp[i], r) in w'.pairs;
    }
  }

  lemma {:induction false} RunPlaces(events: seq<Event>, k: nat)
    requires k < |events|
    ensures After(events).clock == |events| && Placed(After(events), events[k], k)
  {
    hide Happen, RecvPlaced, MsgPlaced;
    var before, e := events[..|events| - 1], events[|events| - 1];
    var w := After(before);
    ClockIs(before);
    ClockIs(events);
    match e {
      case Arrival(info) => ArrivalPlaces(w, info);
      case Posting(info, mask) => PostingPlaces(w, info, mask);
    }
    if k < |before| { RunPlaces(before, k); }
  }

  lemma {:induction false} ClockIs(events: seq<Event>)
    ensures After(events).clock == |events|
  {
    if events != [] { ClockIs(events[..|events| - 1]); }
  }

  /**
    Conservation: in every run, each receive that was posted waits in its list or is
    in exactly one match, and not both; and so does each message that arrived.
  */
  lemma NothingForgotten(events: seq<Event>, k: nat)
    requires k < |events|
    ensures var w := After(events);
            match events[k]
            case Posting(info, mask) =>
              var r := Recv(k, info, mask); (r in w.lists.posted) != (exists p :: p in w.pairs && p.recv == r)
            case Arrival(info) =>
              var m := Unexp(k, info); (m in w.lists.unexp) != (exists p :: p in w.pairs && p.msg == m)
  {
    hide Matches, PairOk, NoCross, Conflict;
    RunPlaces(events, k);
    RunOk(events);
  }

  ghost predicate RecvHappened(events: seq<Event>, r: Recv) {
    r.id < |events| && events[r.id] == Posting(r.info, r.mask)
  }

  ghost predicate MsgHappened(events: seq<Event>, m: Unexp) {
    m.id < |events| && events[m.id] == Arrival(m.info)
  }

  /** In every run what waits or is matched was posted or did arrive. */
  lemma {:induction false} NothingInvented(events: seq<Event>)
    ensures var w := After(events);
            && (forall r :: r in w.lists.posted ==> RecvHappened(events, r))
            && (forall m :: m in w.lists.unexp ==> MsgHappened(events, m))
            && (forall p :: p in w.pairs ==> RecvHappened(events, p.recv) && MsgHappened(events, p.msg))
  {
    hide Happen;
    if events != [] {
      var before, e := events[..|events| - 1], events[|events| - 1];
      NothingInvented(before);
      ClockIs(before);
      var w := After(before);
      match e
      case Arrival(info) => ArrivalFrom(w, info);
      case Posting(info, mask) => PostingFrom(w, info, mask);
    }
  }

  lemma ArrivalFrom(w: World, info: Word)
    ensures var w', m := Happen(w, Arrival(info)), Unexp(w.clock, info);
            && (forall r :: r in w'.lists.posted ==> r in w.lists.posted)
            && (forall u :: u in w'.lists.unexp ==> u in w.lists.unexp || u == m)
            && (forall p :: p in w'.pairs ==> p in w.pairs || (p.msg == m && p.recv in w.lists.posted))
  {
    hide Matches, First, Without;
    var m := Unexp(w.clock, info);
    var i := First(w.lists.posted, (r: Recv) => Matches(r, m.info));
    if i < |w.lists.posted| { WithoutMember(w.lists.posted, i); }
  }

  lemma PostingFrom(w: World, info: Word, mask: Word)
    ensures var w', r := Happen(w, Posting(info, mask)), Recv(w.clock, info, mask);
            && (forall x :: x in w'.lists.posted ==> x in w.lists.posted || x == r)
            && (forall u :: u in w'.lists.unexp ==> u in w.lists.unexp)
            && (forall p :: p in w'.pairs ==> p in w.pairs || (p.recv == r && p.msg in w.lists.unexp))
  {
    hide Matches, First, Without;
    var r := Recv(w.clock, info, mask);
    var i := First(w.lists.unexp, (u: Unexp) => Matches(r, u.info));
    if i < |w.lists.unexp| { WithoutMember(w.lists.unexp, i); }
  }

  /** In every run a receive and a message are matched at most once, and then wait no more. */
  lemma MatchedOnce(events: seq<Event>, p: Pair, q: Pair)
    requires p in After(events).pairs && q in After(events).pairs
    ensures p.msg.id == q.msg.id || p.recv.id == q.recv.id ==> p == q
    ensures forall r :: r in After(events).lists.posted ==> r.id != p.recv.id
    ensures forall u :: u in After(events).lists.unexp ==> u.id != p.msg.id
  {
    hide Matches;
    RunOk(events);
    assert Fair(p, After(events).lists) && !Conflict(p, q);
  }

  /**
    Non-overtaking: of two messages that both match two receives, the earlier
    message goes to the earlier receive.
  */
  lemma NonOvertaking(events: seq<Event>, p: Pair, q: Pair)
    requires p in After(events).pairs && q in After(events).pairs && p.msg.id < q.msg.id
    requires Matches(q.recv, p.msg.info)
    ensures p.recv.id < q.recv.id
  {
    hide Matches;
    RunOk(events);
    assert !Conflict(p, q);
  }
}
