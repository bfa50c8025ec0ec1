/**
  The tries of large chunks as dlmalloc keeps them in the chunks themselves: two
  child pointers and a parent pointer per node, chunks of one size in a ring of
  fd and bk pointers of which one, the node, has a parent (libopen-mx/dlmalloc.c).
  The null pointer is 0.
*/
module TrieLinks {
  import opened Powers
  import opened Queues
  import opened TreeBins
  import opened Tries

  /** A parent pointer: none for the other chunks of a ring, the bin for the root. */
  datatype Link = NoLink | Bin | To(at: nat)

  /** struct malloc_tree_chunk */
  datatype Cell = Cell(size: nat, fd: nat, bk: nat, child0: nat, child1: nat, parent: Link)

  type Cells = map<nat, Cell>

  function Child(c: Cell, right: bool): nat {
    if right then c.child1 else c.child0
  }

  function SetChild(c: Cell, right: bool, b: nat): Cell {
    if right then c.(child1 := b) else c.(child0 := b)
  }

  function Side(t: Tree, right: bool): Tree
    requires t != Nil
  {
    if right then t.right else t.left
  }

  // ---- what the cells represent ----

  ghost function RingSet(ring: seq<nat>): set<nat> {
    set x | x in ring
  }

  /** The addresses of all chunks in a tree. */
  ghost function Addrs(t: Tree): set<nat> {
    if t == Nil then {} else RingSet(t.ring) + Addrs(t.left) + Addrs(t.right)
  }

  function Next(ring: seq<nat>, i: nat): nat
    requires i < |ring|
  {
    if i + 1 < |ring| then ring[i + 1] else ring[0]
  }

  /** x is followed by y. */
  ghost predicate Followed(m: Cells, x: nat, y: nat) {
    x in m && y in m && m[x].fd == y && m[y].bk == x
  }

  /** Each chunk is followed by the next, the last by the first; all but the first have neither parent nor children. */
  ghost predicate RingAt(m: Cells, ring: seq<nat>, size: nat, i: nat)
    requires i < |ring|
  {
    && ring[i] != 0 && Followed(m, ring[i], Next(ring, i)) && m[ring[i]].size == size
    && (i > 0 ==> Plain(m[ring[i]]))
  }

  /** Chunks of one size, linked both ways. */
  ghost predicate RingOk(m: Cells, ring: seq<nat>, size: nat) {
    && ring != [] && Distinct(ring)
    && forall i {:trigger RingAt(m, ring, size, i)} :: 0 <= i < |ring| ==> RingAt(m, ring, size, i)
  }

  ghost predicate Plain(c: Cell) {
    c.parent == NoLink && c.child0 == 0 && c.child1 == 0
  }

  /** The parts of a node share no chunk. */
  ghost predicate Disjoint(t: Tree)
    requires t != Nil
  {
    && RingSet(t.ring) !! Addrs(t.left) && RingSet(t.ring) !! Addrs(t.right)
    && Addrs(t.left) !! Addrs(t.right)
  }

  /** The pointer a, with this parent, leads to the tree t. */
  ghost predicate Rep(m: Cells, a: nat, t: Tree, p: Link)
    decreases t, 1
  {
    if t == Nil then a == 0 else RepHere(m, a, t, p)
  }

  ghost predicate RepHere(m: Cells, a: nat, t: Tree, p: Link)
    requires t != Nil
    decreases t, 0
  {
    && RingOk(m, t.ring, t.size) && Disjoint(t)
    && a == t.ring[0] && a in m && m[a].parent == p
    && Rep(m, m[a].child0, t.left, To(a)) && Rep(m, m[a].child1, t.right, To(a))
  }

  // One level of the definitions.

  lemma RepNode(m: Cells, a: nat, t: Tree, p: Link)
    requires t != Nil
    ensures Rep(m, a, t, p) <==> RepHere(m, a, t, p)
  {
  }

  lemma RepNil(m: Cells, a: nat, p: Link)
    ensures Rep(m, a, Nil, p) <==> a == 0
    ensures Addrs(Nil) == {}
  {
  }

  lemma AddrsNode(t: Tree)
    requires t != Nil
    ensures Addrs(t) == RingSet(t.ring) + Addrs(t.left) + Addrs(t.right)
  {
  }

  lemma RepSide(m: Cells, a: nat, t: Tree, p: Link, right: bool)
    requires t != Nil && Rep(m, a, t, p)
    ensures t.ring != [] && a in m && a == t.ring[0] && Rep(m, Child(m[a], right), Side(t, right), To(a))
    ensures a in Addrs(t) && a != 0 && Addrs(Side(t, right)) <= Addrs(t) && a !in Addrs(Side(t, right))
    ensures Addrs(Side(t, right)) !! RingSet(t.ring) && Addrs(Side(t, !right)) !! Addrs(Side(t, right))
  {
    hide Rep, Addrs, RingOk;
    RepNode(m, a, t, p);
    AddrsNode(t);
    RingHead(m, t.ring, t.size);
  }

  lemma RingHead(m: Cells, ring: seq<nat>, size: nat)
    requires RingOk(m, ring, size)
    ensures ring != [] && ring[0] in RingSet(ring) && ring[0] != 0 && ring[0] in m
    ensures forall x :: x in RingSet(ring) ==> x in m && x != 0
  {
    forall x | x in RingSet(ring)
      ensures x in m && x != 0
    {
      var i :| 0 <= i < |ring| && ring[i] == x;
      assert RingAt(m, ring, size, i);
    }
    assert RingAt(m, ring, size, 0);
  }

  lemma {:induction false} AddrsIn(m: Cells, a: nat, t: Tree, p: Link)
    requires Rep(m, a, t, p)
    ensures forall x :: x in Addrs(t) ==> x in m && x != 0
    ensures t != Nil <==> a != 0
    ensures a != 0 ==> a in Addrs(t)
    decreases t
  {
    hide Rep, Addrs, RingOk;
    RepNil(m, a, p);
    if t != Nil {
      RepNode(m, a, t, p);
      AddrsNode(t);
      RingHead(m, t.ring, t.size);
      AddrsIn(m, m[a].child0, t.left, To(a));
      AddrsIn(m, m[a].child1, t.right, To(a));
    }
  }

  /** The same cells represent the same ring and the same tree. */
  lemma RingFrame(m: Cells, m': Cells, ring: seq<nat>, size: nat)
    requires RingOk(m, ring, size) && forall x :: x in RingSet(ring) ==> x in m && x in m' && m'[x] == m[x]
    ensures RingOk(m', ring, size)
  {
    forall i | 0 <= i < |ring|
      ensures RingAt(m', ring, size, i)
    {
      assert RingAt(m, ring, size, i);
      assert ring[i] in RingSet(ring) && Next(ring, i) in RingSet(ring);
    }
  }

  lemma {:induction false} RepFrame(m: Cells, m': Cells, a: nat, t: Tree, p: Link)
    requires Rep(m, a, t, p) && forall x :: x in Addrs(t) ==> x in m' && (x in m ==> m'[x] == m[x])
    ensures Rep(m', a, t, p)
    decreases t
  {
    hide Rep, Addrs, RingOk, Disjoint;
    RepNil(m, a, p);
    RepNil(m', a, p);
    if t != Nil {
      RepNode(m, a, t, p);
      RepNode(m', a, t, p);
      AddrsNode(t);
      RingHead(m, t.ring, t.size);
      RingFrame(m, m', t.ring, t.size);
      RepFrame(m, m', m[a].child0, t.left, To(a));
      RepFrame(m, m', m[a].child1, t.right, To(a));
    }
  }

  /** Only fields of the root that the ring does not use change: its parent and its children. */
  lemma RingRoot(m: Cells, ring: seq<nat>, size: nat, c: Cell)
    requires RingOk(m, ring, size) && ring[0] in m
    requires c.size == m[ring[0]].size && c.fd == m[ring[0]].fd && c.bk == m[ring[0]].bk
    ensures RingOk(m[ring[0] := c], ring, size)
  {
    var m' := m[ring[0] := c];
    forall i | 0 <= i < |ring|
      ensures RingAt(m', ring, size, i)
    {
      assert RingAt(m, ring, size, i);
    }
  }

  lemma Reparent(m: Cells, a: nat, t: Tree, p: Link, p': Link)
    requires t != Nil && Rep(m, a, t, p) && a in m
    ensures Rep(m[a := m[a].(parent := p')], a, t, p')
  {
    hide Rep, Addrs, RingOk;
    var m' := m[a := m[a].(parent := p')];
    RepNode(m, a, t, p);
    RepNode(m', a, t, p');
    RepSide(m, a, t, p, false);
    RepSide(m, a, t, p, true);
    RingRoot(m, t.ring, t.size, m'[a]);
    SideFrame(m, m', m[a].child0, t.left, To(a), {a});
    SideFrame(m, m', m[a].child1, t.right, To(a), {a});
  }

  /** A tree that none of the changed cells belong to. */
  lemma SideFrame(m: Cells, m': Cells, a: nat, t: Tree, p: Link, changed: set<nat>)
    requires Rep(m, a, t, p) && Addrs(t) !! changed
    requires forall x :: x in m && x !in changed ==> x in m' && m'[x] == m[x]
    ensures Rep(m', a, t, p)
  {
    hide Rep, Addrs;
    AddrsIn(m, a, t, p);
    RepFrame(m, m', a, t, p);
  }

  /** One child of a node is replaced, and the pointer to it. */
  lemma RepChild(m: Cells, m': Cells, a: nat, t: Tree, p: Link, right: bool, b: nat, s: Tree)
    requires t != Nil && Rep(m, a, t, p) && a in m && Rep(m', b, s, To(a))
    requires Addrs(s) !! RingSet(t.ring) && Addrs(s) !! Addrs(Side(t, !right))
    requires a in m' && m'[a] == SetChild(m[a], right, b)
    requires forall x :: x in RingSet(t.ring) + Addrs(Side(t, !right)) && x != a ==> x in m && x in m' && m'[x] == m[x]
    ensures var t' := if right then t.(right := s) else t.(left := s);
            Rep(m', a, t', p) && Addrs(t') == RingSet(t.ring) + Addrs(Side(t, !right)) + Addrs(s)
  {
    hide Rep, Addrs, RingOk;
    var t' := if right then t.(right := s) else t.(left := s);
    RepNode(m, a, t, p);
    RepNode(m', a, t', p);
    AddrsNode(t');
    RepSide(m, a, t, p, !right);
    RingRoot(m, t.ring, t.size, m'[a]);
    RingHead(m, t.ring, t.size);
    RingFrame(m[a := m'[a]], m', t.ring, t.size);
    RepFrame(m, m', Child(m[a], !right), Side(t, !right), To(a));
  }

  // ---- a place in a tree ----

  ghost predicate On(t: Tree, path: seq<bool>) {
    path == [] || (t != Nil && On(Side(t, path[0]), path[1..]))
  }

  ghost function Sub(t: Tree, path: seq<bool>): Tree
    requires On(t, path)
  {
    if path == [] then t else Sub(Side(t, path[0]), path[1..])
  }

  ghost function Put(t: Tree, path: seq<bool>, s: Tree): Tree
    requires On(t, path)
  {
    if path == [] then s
    else if path[0] then t.(right := Put(t.right, path[1..], s))
    else t.(left := Put(t.left, path[1..], s))
  }

  /** The node above the place, or p at the root. */
  ghost function Above(t: Tree, path: seq<bool>, p: Link): Link
    requires On(t, path)
  {
    if path == [] then p
    else if t.ring == [] then NoLink
    else Above(Side(t, path[0]), path[1..], To(t.ring[0]))
  }

  /** The pointer at the place. */
  ghost function Ptr(m: Cells, a: nat, path: seq<bool>): nat
    decreases |path|
  {
    if path == [] then a else if a !in m then 0 else Ptr(m, Child(m[a], path[0]), path[1..])
  }

  lemma {:induction false} RepSub(m: Cells, a: nat, t: Tree, p: Link, path: seq<bool>)
    requires Rep(m, a, t, p) && On(t, path)
    ensures Rep(m, Ptr(m, a, path), Sub(t, path), Above(t, path, p))
    ensures Addrs(Sub(t, path)) <= Addrs(t)
    ensures path != [] ==> Leads(m, t, path, p, Ptr(m, a, path))
    decreases |path|
  {
    hide Rep, Addrs;
    if path != [] {
      var c, u, rest := if a in m then Child(m[a], path[0]) else 0, Side(t, path[0]), path[1..];
      RepSide(m, a, t, p, path[0]);
      RepSub(m, c, u, To(a), rest);
    }
  }

  /** The node above the place is in the tree but not below the place, and points to it. */
  ghost predicate Leads(m: Cells, t: Tree, path: seq<bool>, p: Link, b: nat)
    requires On(t, path) && path != []
  {
    var above := Above(t, path, p);
    && above.To? && above.at in Addrs(t) && above.at !in Addrs(Sub(t, path))
    && above.at in m && Child(m[above.at], path[|path| - 1]) == b
  }

  /** The cells outside s are as before, but for the child pointer that leads there. */
  ghost predicate Redirected(m: Cells, m': Cells, others: set<nat>, above: Link, right: bool, b: nat) {
    forall x :: x in others ==>
      x in m && x in m' && m'[x] == if above == To(x) then SetChild(m[x], right, b) else m[x]
  }

  /** Replacing the tree at a place: nothing else has to change but the pointer to it. */
  lemma {:induction false} RepPut(m: Cells, m': Cells, a: nat, t: Tree, p: Link, path: seq<bool>, b: nat, s: Tree)
    requires Rep(m, a, t, p) && On(t, path)
    requires Rep(m', b, s, Above(t, path, p))
    requires Addrs(s) !! (Addrs(t) - Addrs(Sub(t, path)))
    requires path != [] ==>
               Redirected(m, m', Addrs(t) - Addrs(Sub(t, path)), Above(t, path, p), path[|path| - 1], b)
    ensures Rep(m', if path == [] then b else a, Put(t, path, s), p)
    ensures Addrs(Put(t, path, s)) == Addrs(t) - Addrs(Sub(t, path)) + Addrs(s)
    decreases |path|
  {
    hide Rep, Addrs, Leads;
    if path != [] {
      var right, rest := path[0], path[1..];
      RepSide(m, a, t, p, right);
      RepSide(m, a, t, p, !right);
      AddrsNode(t);
      var c, u := Child(m[a], right), Side(t, right);
      RepSub(m, c, u, To(a), rest);
      assert Above(t, path, p) == Above(u, rest, To(a)) && Sub(t, path) == Sub(u, rest);
      if rest == [] {
        RepChild(m, m', a, t, p, right, b, s);
      } else {
        assert path[|path| - 1] == rest[|rest| - 1];
        AboveInside(m, u, rest, To(a), Ptr(m, c, rest));
        RepPut(m, m', c, u, To(a), rest, b, s);
        RepChild(m, m', a, t, p, right, c, Put(u, rest, s));
      }
    }
  }

  lemma AboveInside(m: Cells, t: Tree, path: seq<bool>, p: Link, b: nat)
    requires On(t, path) && path != [] && Leads(m, t, path, p, b)
    ensures Above(t, path, p).To? && Above(t, path, p).at in Addrs(t)
  {
  }

  // ---- rings ----

  /** T->fd = F->bk = X; X->fd = F; X->bk = T */
  function Joined(m: Cells, head: nat, x: nat, size: nat): Cells
    requires head in m && m[head].fd in m
  {
    var f := m[head].fd;
    var m1 := m[head := m[head].(fd := x)];
    var m2 := m1[f := m1[f].(bk := x)];
    m2[x := Cell(size, f, head, 0, 0, NoLink)]
  }

  lemma RingJoin(m: Cells, ring: seq<nat>, size: nat, x: nat)
    requires RingOk(m, ring, size) && x != 0 && x !in ring
    ensures ring[0] in m && m[ring[0]].fd in m
    ensures RingOk(Joined(m, ring[0], x, size), [ring[0], x] + ring[1..], size)
  {
    assert RingAt(m, ring, size, 0);
    var m' := Joined(m, ring[0], x, size);
    var ring' := [ring[0], x] + ring[1..];
    JoinDistinct(ring, x);
    hide RingOk;
    forall i | 0 <= i < |ring'|
      ensures RingAt(m', ring', size, i)
    {
      RingOkAt(m, ring, size, if i == 0 then 0 else i - 1);
      JoinAt(m, ring, size, x, i);
    }
    RingOkIntro(m', ring', size);
  }

  lemma RingOkAt(m: Cells, ring: seq<nat>, size: nat, i: nat)
    requires RingOk(m, ring, size) && i < |ring|
    ensures RingAt(m, ring, size, i) && Distinct(ring)
  {
    assert RingAt(m, ring, size, i);
  }

  lemma RingOkIntro(m: Cells, ring: seq<nat>, size: nat)
    requires ring != [] && Distinct(ring) && forall i :: 0 <= i < |ring| ==> RingAt(m, ring, size, i)
    ensures RingOk(m, ring, size)
  {
  }

  lemma JoinDistinct(ring: seq<nat>, x: nat)
    requires ring != [] && Distinct(ring) && x !in ring
    ensures Distinct([ring[0], x] + ring[1..])
  {
    var ring' := [ring[0], x] + ring[1..];
    assert forall i :: 0 <= i < |ring'| ==> ring'[i] == if i == 0 then ring[0] else if i == 1 then x else ring[i - 1];
    assert forall i :: 0 <= i < |ring| ==> ring[i] in ring;
  }

  lemma JoinAt(m: Cells, ring: seq<nat>, size: nat, x: nat, i: nat)
    requires ring != [] && Distinct(ring) && x !in ring && x != 0 && i <= |ring|
    requires RingAt(m, ring, size, 0) && RingAt(m, ring, size, if i == 0 then 0 else i - 1)
    ensures m[ring[0]].fd in m && RingAt(Joined(m, ring[0], x, size), [ring[0], x] + ring[1..], size, i)
  {
    var ring' := [ring[0], x] + ring[1..];
    assert ring[0] in ring && (i > 0 ==> ring[i - 1] in ring);
    assert Next(ring, 0) in ring && (i > 0 ==> Next(ring, i - 1) in ring);
    assert ring'[i] == if i == 0 then ring[0] else if i == 1 then x else ring[i - 1];
    assert Next(ring', i) == if i == 0 then x else Next(ring, i - 1);
  }

  /** F->bk = R; R->fd = F */
  function Bypassed(m: Cells, x: nat): Cells
    requires x in m && m[x].fd in m && m[x].bk in m
  {
    var f, r := m[x].fd, m[x].bk;
    var m1 := m[f := m[f].(bk := r)];
    m1[r := m1[r].(fd := f)]
  }

  /** A chunk that is not the node leaves its ring. */
  lemma RingLeave(m: Cells, ring: seq<nat>, size: nat, i: nat)
    requires RingOk(m, ring, size) && 0 < i < |ring|
    ensures ring[i] in m && m[ring[i]].fd in m && m[ring[i]].bk in m
    ensures RingOk(Bypassed(m, ring[i]), ring[..i] + ring[i + 1..], size)
  {
    hide RingOk;
    RingOkAt(m, ring, size, i);
    RingOkAt(m, ring, size, i - 1);
    var m', ring' := Bypassed(m, ring[i]), ring[..i] + ring[i + 1..];
    assert Distinct(ring') by {
      assert forall j :: 0 <= j < |ring'| ==> ring'[j] == if j < i then ring[j] else ring[j + 1];
    }
    forall j | 0 <= j < |ring'|
      ensures RingAt(m', ring', size, j)
    {
      RingOkAt(m, ring, size, if j < i then j else j + 1);
      LeaveAt(m, ring, size, i, j);
    }
    RingOkIntro(m', ring', size);
  }

  lemma LeaveAt(m: Cells, ring: seq<nat>, size: nat, i: nat, j: nat)
    requires Distinct(ring) && 0 < i < |ring| && j < |ring| - 1
    requires RingAt(m, ring, size, i) && RingAt(m, ring, size, i - 1)
             && RingAt(m, ring, size, if j < i then j else j + 1)
    ensures RingAt(Bypassed(m, ring[i]), ring[..i] + ring[i + 1..], size, j)
  {
    var ring' := ring[..i] + ring[i + 1..];
    var k := if j < i then j else j + 1;
    assert ring'[j] == ring[k] && ring'[0] == ring[0];
    assert Next(ring', j) == if k == i - 1 then Next(ring, i) else Next(ring, k);
  }

  /** The node leaves its ring, and its predecessor comes first. */
  lemma RingLeaveHead(m: Cells, ring: seq<nat>, size: nat)
    requires RingOk(m, ring, size) && |ring| > 1
    ensures var last := |ring| - 1;
            && ring[0] in m && m[ring[0]].fd in m && m[ring[0]].bk == ring[last] && ring[last] in m
            && RingOk(Bypassed(m, ring[0]), [ring[last]] + ring[1..last], size)
            && Plain(Bypassed(m, ring[0])[ring[last]])
  {
    hide RingOk;
    var last := |ring| - 1;
    RingOkAt(m, ring, size, 0);
    RingOkAt(m, ring, size, last);
    var m', ring' := Bypassed(m, ring[0]), [ring[last]] + ring[1..last];
    assert Distinct(ring') by {
      assert forall j :: 0 <= j < |ring'| ==> ring'[j] == if j == 0 then ring[last] else ring[j];
    }
    forall j | 0 <= j < |ring'|
      ensures RingAt(m', ring', size, j)
    {
      RingOkAt(m, ring, size, j);
      LeaveHeadAt(m, ring, size, j);
    }
    RingOkIntro(m', ring', size);
  }

  lemma LeaveHeadAt(m: Cells, ring: seq<nat>, size: nat, j: nat)
    requires Distinct(ring) && j < |ring| - 1
    requires RingAt(m, ring, size, 0) && RingAt(m, ring, size, |ring| - 1) && RingAt(m, ring, size, j)
    ensures m[ring[0]].bk in m && RingAt(Bypassed(m, ring[0]), [ring[|ring| - 1]] + ring[1..|ring| - 1], size, j)
  {
    var last := |ring| - 1;
    var ring' := [ring[last]] + ring[1..last];
    assert ring'[j] == if j == 0 then ring[last] else ring[j];
    assert Next(ring', j) == if j == 0 then (if last == 1 then ring[last] else ring[1])
           else if j + 1 < last then ring[j + 1] else ring[last];
  }

  // ---- longer paths ----

  function SetSide(t: Tree, right: bool, s: Tree): Tree
    requires t != Nil
  {
    if right then t.(right := s) else t.(left := s)
  }

  /** One step further down. */
  lemma {:induction false} Further(t: Tree, path: seq<bool>, right: bool, s: Tree)
    requires On(t, path) && Sub(t, path) != Nil
    ensures On(t, path + [right]) && Sub(t, path + [right]) == Side(Sub(t, path), right)
    ensures Put(t, path + [right], s) == Put(t, path, SetSide(Sub(t, path), right, s))
    decreases |path|
  {
    var longer := path + [right];
    if path == [] {
      assert longer[1..] == [];
    } else {
      assert longer[1..] == path[1..] + [right];
      Further(Side(t, path[0]), path[1..], right, s);
    }
  }

  lemma {:induction false} PtrFurther(m: Cells, a: nat, t: Tree, p: Link, path: seq<bool>, right: bool)
    requires Rep(m, a, t, p) && On(t, path) && Sub(t, path) != Nil && On(t, path + [right])
    ensures Ptr(m, a, path) in m && Ptr(m, a, path + [right]) == Child(m[Ptr(m, a, path)], right)
    ensures Above(t, path + [right], p) == To(Ptr(m, a, path))
    decreases |path|
  {
    hide Rep, Addrs;
    var longer := path + [right];
    if path == [] {
      assert longer[1..] == [];
      RepSide(m, a, t, p, right);
    } else {
      assert longer[1..] == path[1..] + [right];
      RepSide(m, a, t, p, path[0]);
      PtrFurther(m, Child(m[a], path[0]), Side(t, path[0]), To(a), path[1..], right);
    }
  }

  // ---- insertion ----

  /** Where the cells differ from before a change that concerns only the tree at one place. */
  lemma PutInPlace(m: Cells, m': Cells, a: nat, t: Tree, p: Link, path: seq<bool>, s: Tree, changed: set<nat>)
    requires Rep(m, a, t, p) && On(t, path) && Rep(m', Ptr(m, a, path), s, Above(t, path, p))
    requires Addrs(s) !! (Addrs(t) - Addrs(Sub(t, path)))
    requires changed !! (Addrs(t) - Addrs(Sub(t, path)))
    requires forall x :: x in m && x !in changed ==> x in m' && m'[x] == m[x]
    ensures Rep(m', a, Put(t, path, s), p)
    ensures Addrs(Put(t, path, s)) == Addrs(t) - Addrs(Sub(t, path)) + Addrs(s)
  {
    hide Rep, Addrs;
    AddrsIn(m, a, t, p);
    RepSub(m, a, t, p, path);
    var b := Ptr(m, a, path);
    if path != [] {
      var above, right := Above(t, path, p), path[|path| - 1];
      assert SetChild(m[above.at], right, b) == m[above.at];
    }
    RepPut(m, m', a, t, p, path, b, s);
  }

  /** A chunk of a size that the tree has joins the ring of the node. */
  lemma JoinRep(m: Cells, a: nat, t: Tree, p: Link, x: nat)
    requires t != Nil && Rep(m, a, t, p) && x != 0 && x !in Addrs(t)
    ensures a in m && m[a].fd in m && m[a].fd in RingSet(t.ring) && m[a].size == t.size && t.ring != []
    ensures var t' := t.(ring := [t.ring[0], x] + t.ring[1..]);
            Rep(Joined(m, a, x, t.size), a, t', p) && Addrs(t') == Addrs(t) + {x}
  {
    hide Rep, Addrs, RingOk;
    RepNode(m, a, t, p);
    AddrsNode(t);
    RingHead(m, t.ring, t.size);
    RingOkAt(m, t.ring, t.size, 0);
    RingJoin(m, t.ring, t.size, x);
    var t' := t.(ring := [t.ring[0], x] + t.ring[1..]);
    var m' := Joined(m, a, x, t.size);
    RepNode(m', a, t', p);
    AddrsNode(t');
    JoinSet(t.ring, x);
    assert Next(t.ring, 0) in t.ring;
    var changed := {a, m[a].fd, x};
    RepSide(m, a, t, p, false);
    RepSide(m, a, t, p, true);
    SideFrame(m, m', m[a].child0, t.left, To(a), changed);
    SideFrame(m, m', m[a].child1, t.right, To(a), changed);
  }

  lemma JoinSet(ring: seq<nat>, x: nat)
    requires ring != []
    ensures RingSet([ring[0], x] + ring[1..]) == RingSet(ring) + {x}
  {
    assert ring == [ring[0]] + ring[1..];
  }

  /** X->fd = X->bk = X, no children, and this parent. */
  function Alone(x: nat, size: nat, p: Link): Cell {
    Cell(size, x, x, 0, 0, p)
  }

  lemma AloneRep(m: Cells, x: nat, size: nat, p: Link)
    requires x != 0 && x in m && m[x] == Alone(x, size, p)
    ensures Rep(m, x, Node(size, [x], Nil, Nil), p) && Addrs(Node(size, [x], Nil, Nil)) == {x}
  {
    assert RingAt(m, [x], size, 0);
  }

  /** *C = X: a new node hangs below the node a. */
  lemma HangRep(m: Cells, a: nat, t: Tree, p: Link, right: bool, x: nat, size: nat)
    requires t != Nil && Rep(m, a, t, p) && x != 0 && x !in Addrs(t) && Side(t, right) == Nil
    ensures a in m
    ensures var m' := m[x := Alone(x, size, To(a))][a := SetChild(m[a], right, x)];
            var t' := SetSide(t, right, Node(size, [x], Nil, Nil));
            Rep(m', a, t', p) && Addrs(t') == Addrs(t) + {x}
  {
    hide Rep, Addrs;
    var s := Node(size, [x], Nil, Nil);
    RepSide(m, a, t, p, right);
    RepSide(m, a, t, p, !right);
    var m' := m[x := Alone(x, size, To(a))][a := SetChild(m[a], right, x)];
    AloneRep(m', x, size, To(a));
    AddrsNode(t);
    AddrsIn(m, a, t, p);
    RepNil(m, 0, To(a));
    RepChild(m, m', a, t, p, right, x, s);
  }

  class TreeBin {
    var cells: Cells
    var root: nat
    /** The tree that the cells represent. */
    ghost var tree: Tree

    ghost predicate Valid()
      reads this
    {
      Rep(cells, root, tree, Bin)
    }

    constructor ()
      ensures Valid() && tree == Nil
    {
      cells, root, tree := map[], 0, Nil;
    }

    /** insert_large_chunk, with the shifted size in `word`: the cells then represent the tree with the chunk. */
    method InsertLarge(x: nat, size: nat, word: nat)
      requires Valid() && x != 0 && x !in Addrs(tree)
      modifies this
      ensures Valid() && tree == Insert(old(tree), size, x, word)
      ensures Addrs(tree) == old(Addrs(tree)) + {x}
      ensures forall y :: y in old(cells) && y !in Addrs(tree) ==> y in cells && cells[y] == old(cells)[y]
    {
      hide Rep, Addrs, TopBit, Shl1, Insert, Put, Sub, Ptr, Above;
      RepNil(cells, root, Bin);
      AddrsIn(cells, root, tree, Bin);
      ghost var m, t := cells, tree;
      if root == 0 {
        cells := cells[x := Alone(x, size, Bin)];
        AloneRep(cells, x, size, Bin);
        InsertAtNil(size, x, word);
        root, tree := x, Node(size, [x], Nil, Nil);
        return;
      }
      var at, k := root, word;
      ghost var path: seq<bool> := [];
      PathStart(m, root, t, Bin, Insert(t, size, x, word));
      while true
        invariant cells == m && tree == t && root == old(root) && Rep(m, root, t, Bin) && at != 0
        invariant On(t, path) && Ptr(m, root, path) == at
        invariant Put(t, path, Insert(Sub(t, path), size, x, k)) == Insert(t, size, x, word)
        decreases Sub(t, path)
      {
        RepSub(m, root, t, Bin, path);
        ghost var u, p := Sub(t, path), Above(t, path, Bin);
        AddrsIn(m, at, u, p);
        HeadSize(m, at, u, p);
        InsertAt(u, size, x, k);
        if cells[at].size != size {
          var right := TopBit(k);
          k := Shl1(k);
          RepSide(m, at, u, p, right);
          AddrsIn(m, Child(cells[at], right), Side(u, right), To(at));
          Further(t, path, right, Insert(Side(u, right), size, x, k));
          PtrFurther(m, root, t, Bin, path, right);
          SideSmaller(u, right);
          if Child(cells[at], right) != 0 {
            at := Child(cells[at], right);
            path := path + [right];
          } else {
            HangRep(m, at, u, p, right, x, size);
            InsertAtNil(size, x, k);
            cells := cells[x := Alone(x, size, To(at))][at := SetChild(cells[at], right, x)];
            PutInPlace(m, cells, root, t, Bin, path, SetSide(u, right, Node(size, [x], Nil, Nil)), {x, at});
            tree := Insert(t, size, x, word);
            return;
          }
        } else {
          JoinRep(m, at, u, p, x);
          RingInside(u);
          cells := Joined(cells, at, x, size);
          PutInPlace(m, cells, root, t, Bin, path, u.(ring := [u.ring[0], x] + u.ring[1..]), {at, m[at].fd, x});
          tree := Insert(t, size, x, word);
          return;
        }
      }
    }

    /** The rightmost leaf below x, its parent RP and the side it hangs on. */
    method RightmostLeaf(x: nat, ghost u: Tree, ghost p: Link)
        returns (r: nat, rp: nat, right: bool, ghost path: seq<bool>)
      requires u != Nil && Rep(cells, x, u, p) && (u.left != Nil || u.right != Nil)
      ensures Descending(u, path) && Sub(u, path).left == Nil && Sub(u, path).right == Nil
      ensures r == Ptr(cells, x, path) && Above(u, path, p) == To(rp) && right == path[|path| - 1]
    {
      hide Rep, Addrs, Put, Sub, On, Ptr, Above, Descending;
      SidesZero(cells, x, u, p);
      DescendStart(u);
      PathStart(cells, x, u, p, Nil);
      right := cells[x].child1 != 0;
      rp, r, path := x, Child(cells[x], right), [right];
      DescendingOn(u, path);
      assert [] + [right] == [right];
      PtrFurther(cells, x, u, p, [], right);
      while true
        invariant Descending(u, path) && On(u, path) && Sub(u, path) != Nil && path != []
        invariant r == Ptr(cells, x, path) && Above(u, path, p) == To(rp) && right == path[|path| - 1]
        decreases Sub(u, path)
      {
        RepSub(cells, x, u, p, path);
        ghost var v := Sub(u, path);
        SidesZero(cells, r, v, To(rp));
        if cells[r].child1 == 0 && cells[r].child0 == 0 {
          return;
        }
        DescendStep(u, path);
        right := cells[r].child1 != 0;
        DescendingOn(u, path + [right]);
        PtrFurther(cells, x, u, p, path, right);
        SideSmaller(v, right);
        rp, r, path := r, Child(cells[r], right), path + [right];
      }
    }

    /**
     * The first half of unlink_large_chunk: x leaves its ring, or a leaf is cut off to replace
     * it. R is what replaces x in the tree, if x was in it.
     */
    method Detach(x: nat, ghost a: nat, ghost u: Tree, ghost p: Link) returns (r: nat)
      requires u != Nil && Rep(cells, a, u, p) && x in u.ring && x in cells
      modifies `cells
      ensures x in cells && (a == x ==> Ready(cells, x, Unlinked(u, x)) && r == Pointer(Unlinked(u, x)))
      ensures a != x ==> Rep(cells, a, Unlinked(u, x), p)
      ensures Addrs(Unlinked(u, x)) <= Addrs(u)
      ensures forall y :: y in old(cells) && y !in Addrs(u) ==> y in cells && cells[y] == old(cells)[y]
    {
      hide Rep, Addrs, Descending, Unlinked, RingSet, Ready;
      RingInside(u);
      if a == x { SoleRing(cells, x, u, p); }
      if a != x { LeaveRep(cells, a, u, p, x); }
      if cells[x].bk != x {
        if a == x { LeaveHeadReady(cells, x, u, p); }
        r := cells[x].bk;
        cells := Bypassed(cells, x);
      } else {
        SidesZero(cells, x, u, p);
        UnlinkedHead(u, x);
        if cells[x].child1 != 0 || cells[x].child0 != 0 {
          var rp, right;
          ghost var down;
          r, rp, right, down := RightmostLeaf(x, u, p);
          LeafReady(cells, x, u, p, down, r, rp);
          cells := cells[rp := SetChild(cells[rp], right, 0)];
        } else {
          r := 0;
          NothingReady(cells, x, u, p);
        }
      }
    }

    /** unlink_large_chunk: the cells then represent the tree without the chunk. */
    method UnlinkLarge(x: nat, ghost size: nat, ghost lo: nat, ghost k: nat)
      requires Valid() && Trie(tree, lo, k) && k <= SIZE_BITS && Mod(lo, Pow2(k)) == 0
      requires Chunk(x, size) in Chunks(tree)
      modifies this
      ensures Valid() && tree == Unlink(old(tree), size, x, Aligned(size, k))
      ensures forall y :: y in old(cells) && y !in old(Addrs(tree)) ==> y in cells && cells[y] == old(cells)[y]
    {
      hide Rep, Addrs, Put, Sub, On, Ptr, Above, Trie, Chunks, Mod, Aligned, Unlink, Unlinked, Ready, Relinked,
           SetChild;
      ghost var path := PathTo(tree, size, Aligned(size, k));
      PathFinds(tree, size, x, lo, k);
      RepSub(cells, root, tree, Bin, path);
      ghost var u, p, a := Sub(tree, path), Above(tree, path, Bin), Ptr(cells, root, path);
      InTree(cells, a, u, p, x);
      Placed(cells, root, tree, path);
      ParentTells(cells, a, u, p, x);
      ghost var m := cells;
      var xp := cells[x].parent;
      var r := Detach(x, a, u, p);
      if xp == NoLink {
        PutInPlace(m, cells, root, tree, Bin, path, Unlinked(u, x), Addrs(u));
      } else {
        Replace(m, cells, root, tree, path, x, Unlinked(u, x));
        if x == root {
          root := r;
        } else {
          cells := cells[xp.at := SetChild(cells[xp.at], cells[xp.at].child0 != x, r)];
        }
        if r != 0 {
          cells := Relinked(cells, x, r, xp);
        }
      }
      tree := Unlink(tree, size, x, Aligned(size, k));
    }
  }

  lemma InsertAtNil(size: nat, x: nat, word: nat)
    ensures Insert(Nil, size, x, word) == Node(size, [x], Nil, Nil)
  {
  }

  lemma InsertAt(t: Tree, size: nat, x: nat, word: nat)
    requires t != Nil && t.ring != []
    ensures Insert(t, size, x, word) ==
              if t.size == size then t.(ring := [t.ring[0], x] + t.ring[1..])
              else SetSide(t, TopBit(word), Insert(Side(t, TopBit(word)), size, x, Shl1(word)))
  {
    hide TopBit, Shl1;
  }

  lemma HeadSize(m: Cells, a: nat, t: Tree, p: Link)
    requires t != Nil && Rep(m, a, t, p)
    ensures t.ring != [] && a == t.ring[0] && a in m && m[a].size == t.size && m[a].parent == p
  {
    hide Rep, Addrs, RingOk;
    RepNode(m, a, t, p);
    RingHead(m, t.ring, t.size);
    RingOkAt(m, t.ring, t.size, 0);
  }

  lemma PathStart(m: Cells, a: nat, t: Tree, p: Link, s: Tree)
    ensures On(t, []) && Ptr(m, a, []) == a && Sub(t, []) == t && Put(t, [], s) == s && Above(t, [], p) == p
  {
  }

  lemma SideSmaller(t: Tree, right: bool)
    requires t != Nil
    ensures Side(t, right) < t
  {
  }

  lemma RingInside(t: Tree)
    requires t != Nil
    ensures RingSet(t.ring) <= Addrs(t)
  {
    AddrsNode(t);
  }

  // ---- removal ----

  /** What takes the place of a node when x leaves its ring. */
  function Unlinked(t: Tree, x: nat): Tree
    requires t != Nil
  {
    if |t.ring| > 1 then t.(ring := Unring(t.ring, x)) else RemoveNode(t)
  }

  ghost function PathTo(t: Tree, size: nat, word: nat): seq<bool> {
    if t == Nil || t.size == size then []
    else [TopBit(word)] + PathTo(Side(t, TopBit(word)), size, Shl1(word))
  }

  /** The bits of the size lead to the node of a chunk. */
  lemma {:induction false} PathFinds(t: Tree, size: nat, x: nat, lo: nat, k: nat)
    requires Trie(t, lo, k) && k <= SIZE_BITS && Mod(lo, Pow2(k)) == 0 && Chunk(x, size) in Chunks(t)
    ensures var path := PathTo(t, size, Aligned(size, k));
            && On(t, path) && Sub(t, path) != Nil && x in Sub(t, path).ring
            && Unlink(t, size, x, Aligned(size, k)) == Put(t, path, Unlinked(Sub(t, path), x))
    decreases t
  {
    hide Mod, Aligned, TopBit, Shl1, Unring, RemoveNode, Trie, Sizes, Chunks, Pow2, RingChunks;
    NilForms(lo, k);
    TrieNode(t, lo, k);
    if t.size == size {
      ChunksNode(t);
      RingMember(t.ring, t.size, x, size);
      if Chunk(x, size) in Chunks(t.left) { ChunkSize(t.left, Chunk(x, size)); }
      if Chunk(x, size) in Chunks(t.right) { ChunkSize(t.right, Chunk(x, size)); }
    } else {
      AtLeaf(t, size, x, lo, k);
      ChunkSide(t, size, x, lo, k);
      TopBitIsHalf(size, lo, k);
      AlignedNext(size, k);
      HalfAligned(lo, k);
      var right := TopBit(Aligned(size, k));
      PathFinds(Side(t, right), size, x, if right then lo + Pow2(k - 1) else lo, k - 1);
      var rest := PathTo(Side(t, right), size, Aligned(size, k - 1));
      assert ([right] + rest)[1..] == rest;
    }
  }

  /** A chunk that is not the node leaves: only its neighbours in the ring change. */
  lemma LeaveRep(m: Cells, a: nat, t: Tree, p: Link, x: nat)
    requires t != Nil && Rep(m, a, t, p) && x in t.ring && x != a
    ensures x in m && Plain(m[x]) && m[x].bk != x && |t.ring| > 1
    ensures m[x].fd in RingSet(t.ring) && m[x].bk in RingSet(t.ring) && m[x].fd in m && m[x].bk in m
    ensures Rep(Bypassed(m, x), a, Unlinked(t, x), p) && Addrs(Unlinked(t, x)) <= Addrs(t)
  {
    hide Rep, Addrs, RingOk;
    RepNode(m, a, t, p);
    AddrsNode(t);
    RingHead(m, t.ring, t.size);
    var i := Find(t.ring, x);
    RingOkAt(m, t.ring, t.size, i);
    RingOkAt(m, t.ring, t.size, i - 1);
    RingLeave(m, t.ring, t.size, i);
    var t' := Unlinked(t, x);
    assert t' == t.(ring := t.ring[..i] + t.ring[i + 1..]);
    assert Next(t.ring, i) in t.ring && t.ring[i - 1] in t.ring;
    var m' := Bypassed(m, x);
    RepNode(m', a, t', p);
    AddrsNode(t');
    assert RingSet(t'.ring) <= RingSet(t.ring);
    RepSide(m, a, t, p, false);
    RepSide(m, a, t, p, true);
    SideFrame(m, m', m[a].child0, t.left, To(a), {m[x].fd, m[x].bk});
    SideFrame(m, m', m[a].child1, t.right, To(a), {m[x].fd, m[x].bk});
  }

  /** R->child[i] = Ci; Ci->parent = R, if X has that child. */
  function Adopted(m: Cells, x: nat, r: nat, right: bool): Cells
    requires x in m && r in m
  {
    var c := Child(m[x], right);
    if c == 0 || c !in m then m
    else
      var m1 := m[r := SetChild(m[r], right, c)];
      m1[c := m1[c].(parent := To(r))]
  }

  lemma AdoptRep(m: Cells, x: nat, r: nat, t: Tree, p: Link, right: bool, u: Tree)
    requires t != Nil && Rep(m, r, t, p) && Side(t, right) == Nil && x in m && r in m
    requires Rep(m, Child(m[x], right), u, To(x))
    requires Addrs(u) !! Addrs(t) && x !in Addrs(t) && x !in Addrs(u)
    ensures var m' := Adopted(m, x, r, right);
            && Rep(m', r, SetSide(t, right, u), p) && Addrs(SetSide(t, right, u)) == Addrs(t) + Addrs(u)
            && (forall y :: y in m && y != r && y != Child(m[x], right) ==> y in m' && m'[y] == m[y])
  {
    hide Rep, Addrs;
    var c := Child(m[x], right);
    RepNil(m, c, To(x));
    AddrsIn(m, c, u, To(x));
    AddrsIn(m, r, t, p);
    AddrsNode(t);
    RepSide(m, r, t, p, !right);
    RepSide(m, r, t, p, right);
    RingInside(t);
    if u == Nil {
      assert SetSide(t, right, u) == t;
    } else {
      var m1 := m[r := SetChild(m[r], right, c)];
      SideFrame(m, m1, c, u, To(x), {r});
      Reparent(m1, c, u, To(x), To(r));
      RepChild(m, Adopted(m, x, r, right), r, t, p, right, c, u);
    }
  }

  /** R->parent = XP, and R takes the children of X. */
  function Relinked(m: Cells, x: nat, r: nat, p: Link): Cells
    requires x in m && r in m
  {
    Adopted(Adopted(m[r := m[r].(parent := p)], x, r, false), x, r, true)
  }

  lemma RelinkRep(m: Cells, x: nat, t: Tree, p: Link)
    requires t != Nil && RingOk(m, t.ring, t.size) && Disjoint(t)
    requires x in m && x !in Addrs(t) && t.ring[0] in m
    requires m[t.ring[0]].child0 == 0 && m[t.ring[0]].child1 == 0
    requires Rep(m, m[x].child0, t.left, To(x)) && Rep(m, m[x].child1, t.right, To(x))
    ensures var m' := Relinked(m, x, t.ring[0], p);
            && Rep(m', t.ring[0], t, p)
            && (forall y :: y in m && y !in Addrs(t) ==> y in m' && m'[y] == m[y])
  {
    hide Rep, Addrs, RingOk;
    RingHead(m, t.ring, t.size);
    var r := t.ring[0];
    var c0, c1 := m[x].child0, m[x].child1;
    var t0 := Node(t.size, t.ring, Nil, Nil);
    AddrsNode(t);
    AddrsNode(t0);
    RepNil(m, 0, To(r));
    AddrsIn(m, c0, t.left, To(x));
    AddrsIn(m, c1, t.right, To(x));
    var m1 := m[r := m[r].(parent := p)];
    RingRoot(m, t.ring, t.size, m1[r]);
    RepNode(m1, r, t0, p);
    RepNil(m1, 0, To(r));
    SideFrame(m, m1, c0, t.left, To(x), {r});
    SideFrame(m, m1, c1, t.right, To(x), {r});
    AdoptRep(m1, x, r, t0, p, false, t.left);
    var m2 := Adopted(m1, x, r, false);
    var t1 := SetSide(t0, false, t.left);
    SideFrame(m1, m2, c1, t.right, To(x), {r, c0});
    AdoptRep(m2, x, r, t1, p, true, t.right);
    assert SetSide(t1, true, t.right) == t;
  }

  /**
    X is out of its ring or its subtree, and the chunk that is to take its place is
    ready: on its own, with X's children still below X.
  */
  ghost predicate Ready(m: Cells, x: nat, t: Tree) {
    && x in m && x !in Addrs(t)
    && (t != Nil ==>
          && RingOk(m, t.ring, t.size) && Disjoint(t) && t.ring[0] in m
          && m[t.ring[0]].child0 == 0 && m[t.ring[0]].child1 == 0
          && Rep(m, m[x].child0, t.left, To(x)) && Rep(m, m[x].child1, t.right, To(x)))
  }

  /** The node leaves a ring of several: R = X->bk is its replacement. */
  lemma LeaveHeadReady(m: Cells, x: nat, t: Tree, p: Link)
    requires t != Nil && Rep(m, x, t, p) && |t.ring| > 1
    ensures x in m && m[x].bk != x && m[x].fd in m && m[x].bk in m
    ensures m[x].fd in RingSet(t.ring) && m[x].bk in RingSet(t.ring)
    ensures Bypassed(m, x)[x] == m[x] && Unlinked(t, x) != Nil && Unlinked(t, x).ring != []
    ensures Ready(Bypassed(m, x), x, Unlinked(t, x)) && Unlinked(t, x).ring[0] == m[x].bk
    ensures Addrs(Unlinked(t, x)) <= Addrs(t)
  {
    hide Rep, Addrs, RingOk;
    RepNode(m, x, t, p);
    AddrsNode(t);
    RingHead(m, t.ring, t.size);
    var last := |t.ring| - 1;
    RingOkAt(m, t.ring, t.size, 0);
    RingLeaveHead(m, t.ring, t.size);
    var t' := Unlinked(t, x);
    assert t' == t.(ring := [t.ring[last]] + t.ring[1..last]);
    AddrsNode(t');
    assert t.ring[1] in t.ring && t.ring[last] in t.ring;
    assert RingSet(t'.ring) <= RingSet(t.ring) - {x} by {
      assert forall y :: y in t'.ring ==> y in t.ring[1..];
    }
    RepSide(m, x, t, p, false);
    RepSide(m, x, t, p, true);
    SideFrame(m, Bypassed(m, x), m[x].child0, t.left, To(x), {m[x].fd, m[x].bk});
    SideFrame(m, Bypassed(m, x), m[x].child1, t.right, To(x), {m[x].fd, m[x].bk});
  }

  /** Where the search for the rightmost leaf is: what remains to be done below gives the node without x. */
  ghost predicate Descending(t: Tree, path: seq<bool>)
    requires t != Nil
  {
    && path != [] && On(t, path) && Sub(t, path) != Nil
    && var q := PopLeaf(Sub(t, path));
       var v := Put(t, path, q.rest);
       v != Nil && RemoveNode(t) == Node(q.size, q.ring, v.left, v.right)
  }

  lemma DescendStart(t: Tree)
    requires t != Nil && (t.right != Nil || t.left != Nil)
    ensures Descending(t, [t.right != Nil])
  {
    hide PopLeaf;
    var right := t.right != Nil;
    var q := PopLeaf(Side(t, right));
    assert [right][1..] == [];
    PathStart(map[], 0, Side(t, right), Bin, q.rest);
    assert Put(t, [right], q.rest) == SetSide(t, right, q.rest);
  }

  lemma DescendStep(t: Tree, path: seq<bool>)
    requires t != Nil && Descending(t, path)
    requires var u := Sub(t, path); u.right != Nil || u.left != Nil
    ensures var right := Sub(t, path).right != Nil;
            Descending(t, path + [right]) && Sub(t, path + [right]) == Side(Sub(t, path), right)
  {
    hide RemoveNode, Put, Sub, On;
    var u := Sub(t, path);
    var right := u.right != Nil;
    var q := PopLeaf(Side(u, right));
    assert PopLeaf(u) == q.(rest := SetSide(u, right, q.rest));
    Further(t, path, right, q.rest);
  }

  /** *RP = 0: the leaf is taken off, and is ready to take the place of x. */
  lemma LeafReady(m: Cells, x: nat, t: Tree, p: Link, path: seq<bool>, r: nat, rp: nat)
    requires t != Nil && Rep(m, x, t, p) && t.ring == [x] && Descending(t, path)
    requires Sub(t, path).left == Nil && Sub(t, path).right == Nil
    requires r == Ptr(m, x, path) && Above(t, path, p) == To(rp)
    ensures rp in m && rp in Addrs(t) && r in Addrs(t) && r != 0
    ensures var m' := m[rp := SetChild(m[rp], path[|path| - 1], 0)];
            && Ready(m', x, RemoveNode(t)) && Pointer(RemoveNode(t)) == r
            && Addrs(RemoveNode(t)) <= Addrs(t)
            && m'[x].parent == m[x].parent
  {
    hide Rep, Addrs, RingOk, Put, Sub, On, Ptr, Above, Redirected, RemoveNode;
    var leaf := Sub(t, path);
    RepSub(m, x, t, p, path);
    AddrsIn(m, x, t, p);
    AddrsIn(m, r, leaf, To(rp));
    HeadSize(m, r, leaf, To(rp));
    HeadSize(m, x, t, p);
    var m' := m[rp := SetChild(m[rp], path[|path| - 1], 0)];
    RepNil(m', 0, To(rp));
    Redirect(m, m', Addrs(t) - Addrs(leaf), rp, path[|path| - 1], 0);
    RepPut(m, m', x, t, p, path, 0, Nil);
    var v := Put(t, path, Nil);
    RemovedIs(t, path);
    PutRoot(t, path, Nil);
    TakenOff(m, m', x, v, leaf, p, r, rp);
  }

  /** The node without x, once the leaf is found. */
  lemma RemovedIs(t: Tree, path: seq<bool>)
    requires t != Nil && Descending(t, path)
    requires Sub(t, path).left == Nil && Sub(t, path).right == Nil
    ensures var leaf, v := Sub(t, path), Put(t, path, Nil);
            v != Nil && RemoveNode(t) == Node(leaf.size, leaf.ring, v.left, v.right)
  {
    hide RemoveNode, Put, Sub, On;
  }

  lemma PutRoot(t: Tree, path: seq<bool>, s: Tree)
    requires On(t, path) && path != []
    ensures Put(t, path, s) != Nil && Put(t, path, s).ring == t.ring
  {
  }

  lemma TakenOff(m: Cells, m': Cells, x: nat, v: Tree, leaf: Tree, p: Link, r: nat, rp: nat)
    requires v != Nil && Rep(m', x, v, p) && leaf != Nil && Rep(m, r, leaf, To(rp)) && leaf.left == Nil
             && leaf.right == Nil
    requires Addrs(v) !! Addrs(leaf) && forall y :: y in Addrs(leaf) ==> y in m && y in m' && m'[y] == m[y]
    ensures var t := Node(leaf.size, leaf.ring, v.left, v.right);
            Ready(m', x, t) && t.ring != [] && t.ring[0] == r && Addrs(t) <= Addrs(v) + Addrs(leaf)
  {
    hide Rep, Addrs, RingOk;
    var t := Node(leaf.size, leaf.ring, v.left, v.right);
    AddrsNode(t);
    AddrsNode(v);
    AddrsNode(leaf);
    RepNode(m', x, v, p);
    RepNode(m, r, leaf, To(rp));
    RepNil(m, 0, Bin);
    RepNil(m, m[r].child0, To(r));
    RepNil(m, m[r].child1, To(r));
    RingHead(m, leaf.ring, leaf.size);
    RingFrame(m, m', leaf.ring, leaf.size);
    RepSide(m', x, v, p, false);
    RepSide(m', x, v, p, true);
  }

  lemma Redirect(m: Cells, m': Cells, others: set<nat>, rp: nat, right: bool, b: nat)
    requires rp in m && m' == m[rp := SetChild(m[rp], right, b)] && forall x :: x in others ==> x in m
    ensures Redirected(m, m', others, To(rp), right, b)
  {
  }

  /** A child pointer is null exactly if there is no child. */
  lemma SidesZero(m: Cells, a: nat, t: Tree, p: Link)
    requires t != Nil && Rep(m, a, t, p)
    ensures a in m && (m[a].child0 == 0 <==> t.left == Nil) && (m[a].child1 == 0 <==> t.right == Nil)
  {
    hide Rep, Addrs;
    RepSide(m, a, t, p, false);
    RepSide(m, a, t, p, true);
    AddrsIn(m, m[a].child0, t.left, To(a));
    AddrsIn(m, m[a].child1, t.right, To(a));
  }

  lemma DescendingOn(t: Tree, path: seq<bool>)
    requires t != Nil && Descending(t, path)
    ensures On(t, path) && Sub(t, path) != Nil
  {
  }

  lemma InTree(m: Cells, a: nat, t: Tree, p: Link, x: nat)
    requires t != Nil && Rep(m, a, t, p) && x in t.ring
    ensures x in m && x in Addrs(t) && x != 0
  {
    hide Rep, Addrs;
    AddrsIn(m, a, t, p);
    RingInside(t);
  }

  /** X->bk == X exactly if the ring has one chunk. */
  lemma SoleRing(m: Cells, x: nat, t: Tree, p: Link)
    requires t != Nil && Rep(m, x, t, p)
    ensures x in m && t.ring != [] && (m[x].bk == x <==> |t.ring| == 1) && (|t.ring| == 1 ==> t.ring == [x])
  {
    hide Rep, Addrs, RingOk;
    RepNode(m, x, t, p);
    RingHead(m, t.ring, t.size);
    RingOkAt(m, t.ring, t.size, |t.ring| - 1);
  }

  /** A leaf that is alone leaves nothing behind. */
  lemma NothingReady(m: Cells, x: nat, t: Tree, p: Link)
    requires t != Nil && x in m && t.ring == [x] && t.left == Nil && t.right == Nil
    ensures Unlinked(t, x) == Nil && Ready(m, x, Nil) && Addrs(Nil) == {}
  {
  }

  /** How the pointers tell where x is: it is the root or one of the two children of its parent. */
  lemma Placed(m: Cells, a: nat, t: Tree, path: seq<bool>)
    requires Rep(m, a, t, Bin) && On(t, path) && Sub(t, path) != Nil
    ensures Above(t, path, Bin) != NoLink && (Ptr(m, a, path) == a <==> path == [])
    ensures path != [] ==> Above(t, path, Bin).To? && Above(t, path, Bin).at in m
                           && Above(t, path, Bin).at !in Addrs(Sub(t, path))
                           && (m[Above(t, path, Bin).at].child0 != Ptr(m, a, path) <==> path[|path| - 1])
  {
    hide Rep, Addrs;
    RepSub(m, a, t, Bin, path);
    PathStart(m, a, t, Bin, Nil);
    if path != [] { WhichChild(m, a, t, Bin, path, Ptr(m, a, path)); }
  }

  /** Only the member of a ring that is in the tree has a parent. */
  lemma ParentTells(m: Cells, a: nat, t: Tree, p: Link, x: nat)
    requires t != Nil && Rep(m, a, t, p) && x in t.ring && p != NoLink
    ensures x in m && (a == x ==> m[x].parent == p) && (a != x ==> m[x].parent == NoLink)
  {
    hide Rep, Addrs;
    HeadSize(m, a, t, p);
    if a != x { LeaveRep(m, a, t, p, x); }
  }

  lemma UnlinkedHead(t: Tree, x: nat)
    requires t != Nil && t.ring == [x]
    ensures Unlinked(t, x) == RemoveNode(t)
  {
  }

  lemma {:induction false} WhichChild(m: Cells, a: nat, t: Tree, p: Link, path: seq<bool>, x: nat)
    requires Rep(m, a, t, p) && On(t, path) && Sub(t, path) != Nil && Ptr(m, a, path) == x && path != []
    ensures x != a && x in Addrs(t)
    ensures Above(t, path, p).To? && Above(t, path, p).at in m
    ensures m[Above(t, path, p).at].child0 != x <==> path[|path| - 1]
    decreases |path|
  {
    hide Rep, Addrs;
    var right, rest := path[0], path[1..];
    RepSide(m, a, t, p, right);
    RepSide(m, a, t, p, !right);
    var c := Child(m[a], right);
    AddrsIn(m, c, Side(t, right), To(a));
    AddrsIn(m, Child(m[a], !right), Side(t, !right), To(a));
    if rest != [] { WhichChild(m, c, Side(t, right), To(a), rest, x); }
  }

  /** The pointer that x leaves behind: to its replacement, or null. */
  function Pointer(t: Tree): nat {
    if t == Nil || t.ring == [] then 0 else t.ring[0]
  }

  /** The parent of x is told, and the replacement is linked in where x was. */
  lemma Replace(m: Cells, m1: Cells, a: nat, t: Tree, path: seq<bool>, x: nat, s: Tree)
    requires Rep(m, a, t, Bin) && On(t, path) && Sub(t, path) != Nil && Ptr(m, a, path) == x
    requires Ready(m1, x, s) && Addrs(s) <= Addrs(Sub(t, path))
    requires forall y :: y in m && y !in Addrs(Sub(t, path)) ==> y in m1 && m1[y] == m[y]
    ensures var p, b := Above(t, path, Bin), Pointer(s);
            && (path != [] ==> p.To? && p.at in m1)
            && (s != Nil ==> b != 0 && b in m1)
            && var m2 := if path == [] then m1 else m1[p.at := SetChild(m1[p.at], path[|path| - 1], b)];
               var m3 := if s == Nil then m2 else Relinked(m2, x, b, p);
               && Rep(m3, if path == [] then b else a, Put(t, path, s), Bin)
               && (forall y :: y in m && y !in Addrs(t) ==> y in m3 && m3[y] == m[y])
  {
    hide Rep, Addrs, Put, Sub, On, Ptr, Above, RingOk;
    RepSub(m, a, t, Bin, path);
    AddrsIn(m, a, t, Bin);
    var u, p, b := Sub(t, path), Above(t, path, Bin), Pointer(s);
    AddrsIn(m, x, u, p);
    if s != Nil { RingHead(m1, s.ring, s.size); }
    var m2 := if path == [] then m1 else m1[p.at := SetChild(m1[p.at], path[|path| - 1], b)];
    ReadyFrame(m1, m2, x, s, if path == [] then {} else {p.at});
    RepNil(m2, 0, p);
    if s != Nil { RelinkRep(m2, x, s, p); }
    var m3 := if s == Nil then m2 else Relinked(m2, x, b, p);
    RepPut(m, m3, a, t, Bin, path, b, s);
  }

  lemma ReadyFrame(m: Cells, m': Cells, x: nat, t: Tree, changed: set<nat>)
    requires Ready(m, x, t) && changed !! Addrs(t) && x !in changed
    requires forall y :: y in m && y !in changed ==> y in m' && m'[y] == m[y]
    ensures Ready(m', x, t)
  {
    hide Rep, Addrs, RingOk;
    if t != Nil {
      AddrsNode(t);
      RingHead(m, t.ring, t.size);
      RingFrame(m, m', t.ring, t.size);
      SideFrame(m, m', m[x].child0, t.left, To(x), changed);
      SideFrame(m, m', m[x].child1, t.right, To(x), changed);
    }
  }
}
