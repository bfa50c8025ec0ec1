/**
  Chunks and their boundary tags in one memory segment (libopen-mx/dlmalloc.c).
  Memory is seen as the headers of its chunks; the footer of a free chunk is the
  prev_foot word of the chunk that follows it.
*/
module HeapLayout {

  const MIN_CHUNK := 32
  const ALIGN := 8

  /** struct malloc_chunk: size and flag bits of `head`, and prev_foot. */
  datatype Head = Head(size: nat, cinuse: bool, pinuse: bool, prevFoot: nat)

  type Mem = map<nat, Head>

  function End(m: Mem, a: nat): nat
    requires a in m
  {
    a + m[a].size
  }

  /** do_check_any_chunk, and its place in the segment. */
  ghost predicate Placed(m: Mem, a: nat, base: nat, limit: nat, top: nat)
    requires a in m
  {
    && base <= a && End(m, a) <= limit
    && a % ALIGN == 0 && m[a].size % ALIGN == 0
    && 0 < m[a].size
    && (a != top ==> MIN_CHUNK <= m[a].size && End(m, a) in m)
  }

  /** A chunk and the tags its neighbour holds about it (do_check_inuse_chunk, do_check_free_chunk). */
  ghost predicate Tagged(m: Mem, a: nat, top: nat)
    requires a in m
  {
    && (a != top && End(m, a) in m ==>
         && m[End(m, a)].pinuse == m[a].cinuse
         && (!m[a].cinuse ==> m[End(m, a)].prevFoot == m[a].size && m[End(m, a)].cinuse))
    && (!m[a].pinuse ==>
         && m[a].prevFoot <= a
         && a - m[a].prevFoot in m
         && m[a - m[a].prevFoot].size == m[a].prevFoot
         && !m[a - m[a].prevFoot].cinuse
         && a - m[a].prevFoot != top)
  }

  ghost predicate Apart(m: Mem, a: nat, b: nat)
    requires a in m && b in m
  {
    (a < b ==> End(m, a) <= b) && (b < a ==> End(m, b) <= a)
  }

  ghost predicate Ends(m: Mem, base: nat, limit: nat, top: nat) {
    && base in m && m[base].pinuse
    && top in m && !m[top].cinuse && m[top].pinuse && End(m, top) == limit
  }

  /** The chunks tile the segment, tags agree with neighbours, no two free chunks touch. */
  ghost predicate Layout(m: Mem, base: nat, limit: nat, top: nat) {
    && Ends(m, base, limit, top)
    && (forall a {:trigger Placed(m, a, base, limit, top)} :: a in m ==> Placed(m, a, base, limit, top))
    && (forall a, b {:trigger Apart(m, a, b)} :: a in m && b in m ==> Apart(m, a, b))
    && (forall a {:trigger Tagged(m, a, top)} :: a in m ==> Tagged(m, a, top))
  }

  /** Chunks in use, with their sizes. */
  ghost function Live(m: Mem): map<nat, nat> {
    map a | a in m && m[a].cinuse :: m[a].size
  }

  /** A free chunk other than top. */
  ghost predicate Free(m: Mem, a: nat, top: nat) {
    a in m && !m[a].cinuse && a != top
  }

  ghost predicate FreeOf(m: Mem, a: nat, s: nat, top: nat) {
    Free(m, a, top) && m[a].size == s
  }

  // ---- what a chunk says about its neighbours ----

  lemma PlacedFacts(m: Mem, a: nat, base: nat, limit: nat, top: nat)
    requires a in m && Placed(m, a, base, limit, top)
    ensures 0 < m[a].size && base <= a < End(m, a) <= limit && a % ALIGN == 0 && m[a].size % ALIGN == 0
    ensures a != top ==> End(m, a) in m && MIN_CHUNK <= m[a].size
  {
  }

  lemma FreeTags(m: Mem, a: nat, top: nat)
    requires Free(m, a, top) && End(m, a) in m && Tagged(m, a, top)
    ensures m[End(m, a)].cinuse && !m[End(m, a)].pinuse && m[End(m, a)].prevFoot == m[a].size
  {
  }

  lemma BackTags(m: Mem, a: nat, top: nat)
    requires a in m && !m[a].pinuse && Tagged(m, a, top)
    ensures m[a].prevFoot <= a && a - m[a].prevFoot in m
    ensures End(m, a - m[a].prevFoot) == a && Free(m, a - m[a].prevFoot, top)
  {
  }

  /** A free chunk lies between chunks in use, and the one after it holds its size. */
  lemma FreeNext(m: Mem, base: nat, limit: nat, top: nat, p: nat)
    requires Layout(m, base, limit, top) && Free(m, p, top)
    ensures End(m, p) in m && p < End(m, p) && m[p].pinuse
    ensures m[End(m, p)].cinuse && !m[End(m, p)].pinuse && m[End(m, p)].prevFoot == m[p].size
  {
    hide Placed, Tagged, Apart;
    PlacedFacts(m, p, base, limit, top);
    FreeTags(m, p, top);
    if !m[p].pinuse {
      BackTags(m, p, top);
      FreeTags(m, p - m[p].prevFoot, top);
    }
  }

  /** A chunk in use whose predecessor is free finds it by its prev_foot word. */
  lemma UsedBack(m: Mem, base: nat, limit: nat, top: nat, p: nat) returns (prev: nat)
    requires Layout(m, base, limit, top) && p in m && !m[p].pinuse
    ensures prev + m[p].prevFoot == p && Free(m, prev, top) && End(m, prev) == p && m[prev].pinuse
  {
    hide Placed, Tagged, Apart;
    BackTags(m, p, top);
    prev := p - m[p].prevFoot;
    FreeNext(m, base, limit, top, prev);
  }

  lemma SameSizesApart(m: Mem, m': Mem, a: nat, b: nat)
    requires a in m && b in m && a in m' && b in m' && Apart(m, a, b)
    requires m'[a].size == m[a].size && m'[b].size == m[b].size
    ensures Apart(m', a, b)
  {
  }

  // ---- allocation ----

  /** set_inuse_and_pinuse: the whole free chunk is handed out. */
  function Occupy(m: Mem, p: nat): Mem
    requires p in m && End(m, p) in m
  {
    m[p := m[p].(cinuse := true, pinuse := true)][End(m, p) := m[End(m, p)].(pinuse := true)]
  }

  lemma OccupyChunk(m: Mem, base: nat, limit: nat, top: nat, p: nat, a: nat)
    requires Free(m, p, top) && a in m && End(m, p) in m && p < End(m, p)
    requires Placed(m, a, base, limit, top) && Tagged(m, a, top) && Apart(m, a, p)
    ensures Placed(Occupy(m, p), a, base, limit, top) && Tagged(Occupy(m, p), a, top)
  {
  }

  lemma OccupyLayout(m: Mem, base: nat, limit: nat, top: nat, p: nat)
    requires Layout(m, base, limit, top) && Free(m, p, top) && End(m, p) in m
    ensures Layout(Occupy(m, p), base, limit, top)
    ensures Live(Occupy(m, p)) == Live(m)[p := m[p].size]
    ensures forall a: nat, s: nat :: FreeOf(Occupy(m, p), a, s, top) <==> FreeOf(m, a, s, top) && a != p
  {
    hide Placed, Tagged, Apart;
    FreeNext(m, base, limit, top, p);
    var m' := Occupy(m, p);
    forall a | a in m'
      ensures Placed(m', a, base, limit, top) && Tagged(m', a, top)
    {
      OccupyChunk(m, base, limit, top, p, a);
    }
    forall a, b | a in m' && b in m'
      ensures Apart(m', a, b)
    {
      SameSizesApart(m, m', a, b);
    }
  }

  /**
    set_size_and_pinuse_of_inuse_chunk and set_size_and_pinuse_of_free_chunk: the front is handed out, the rest stays
    free.
  */
  function Split(m: Mem, p: nat, nb: nat): Mem
    requires p in m && End(m, p) in m && nb <= m[p].size
  {
    var rest := m[p].size - nb;
    m[p := Head(nb, true, true, m[p].prevFoot)]
     [p + nb := Head(rest, false, true, 0)]
     [End(m, p) := m[End(m, p)].(prevFoot := rest)]
  }

  lemma SplitChunk(m: Mem, base: nat, limit: nat, top: nat, p: nat, nb: nat, a: nat)
    requires Free(m, p, top) && a in m && End(m, p) in m && MIN_CHUNK <= nb && nb + MIN_CHUNK <= m[p].size
    requires m[p].pinuse && m[End(m, p)].cinuse && !m[End(m, p)].pinuse
    requires Placed(m, a, base, limit, top) && Tagged(m, a, top) && Apart(m, a, p)
    requires a != p && p + nb !in m && top in m
    ensures Placed(Split(m, p, nb), a, base, limit, top) && Tagged(Split(m, p, nb), a, top)
  {
    var m' := Split(m, p, nb);
    assert m'[End(m, p)].prevFoot == End(m, p) - (p + nb);
    assert !m[a].pinuse && a - m[a].prevFoot == p ==> a == End(m, p);
  }

  lemma SplitHalves(m: Mem, base: nat, limit: nat, top: nat, p: nat, nb: nat)
    requires Free(m, p, top) && End(m, p) in m && MIN_CHUNK <= nb && nb + MIN_CHUNK <= m[p].size && nb % ALIGN == 0
    requires m[p].pinuse && m[End(m, p)].cinuse && !m[End(m, p)].pinuse
    requires Placed(m, p, base, limit, top) && p + nb != top
    ensures Placed(Split(m, p, nb), p, base, limit, top) && Tagged(Split(m, p, nb), p, top)
    ensures Placed(Split(m, p, nb), p + nb, base, limit, top) && Tagged(Split(m, p, nb), p + nb, top)
  {
  }

  lemma SplitApart(m: Mem, p: nat, nb: nat, a: nat, b: nat)
    requires p in m && End(m, p) in m && MIN_CHUNK <= nb && nb + MIN_CHUNK <= m[p].size
    requires a in m && b in m && Apart(m, a, b) && Apart(m, a, p) && Apart(m, p, b)
    ensures var m' := Split(m, p, nb);
            Apart(m', a, b) && Apart(m', a, p + nb) && Apart(m', p + nb, b)
  {
  }

  lemma SplitLayout(m: Mem, base: nat, limit: nat, top: nat, p: nat, nb: nat)
    requires Layout(m, base, limit, top) && Free(m, p, top) && End(m, p) in m
    requires MIN_CHUNK <= nb && nb % ALIGN == 0 && nb + MIN_CHUNK <= m[p].size
    ensures Layout(Split(m, p, nb), base, limit, top)
    ensures Live(Split(m, p, nb)) == Live(m)[p := nb]
    ensures forall a: nat, s: nat :: FreeOf(Split(m, p, nb), a, s, top) <==>
                            (FreeOf(m, a, s, top) && a != p) || (a == p + nb && s == m[p].size - nb)
  {
    hide Placed, Tagged, Apart;
    FreeNext(m, base, limit, top, p);
    var m' := Split(m, p, nb);
    Inside(m, p, p + nb);
    forall a | a in m'
      ensures Placed(m', a, base, limit, top) && Tagged(m', a, top)
    {
      if a == p || a == p + nb {
        SplitHalves(m, base, limit, top, p, nb);
      } else {
        SplitChunk(m, base, limit, top, p, nb, a);
      }
    }
    forall a, b | a in m' && b in m'
      ensures Apart(m', a, b)
    {
      SplitApart(m, p, nb, if a == p + nb then p else a, if b == p + nb then p else b);
      if a == p + nb && b == p + nb { ApartSelf(m', a); }
    }
  }

  lemma ApartSelf(m: Mem, a: nat)
    requires a in m
    ensures Apart(m, a, a)
  {
  }

  /** No chunk starts inside another. */
  lemma Inside(m: Mem, p: nat, x: nat)
    requires p in m && p < x < End(m, p) && (x in m ==> Apart(m, p, x))
    ensures x !in m
  {
  }

  /** The front of top is handed out; top moves up. */
  function SplitTop(m: Mem, top: nat, nb: nat): Mem
    requires top in m && nb <= m[top].size
  {
    m[top := Head(nb, true, true, m[top].prevFoot)][top + nb := Head(m[top].size - nb, false, true, 0)]
  }

  lemma SplitTopChunk(m: Mem, base: nat, limit: nat, top: nat, nb: nat, a: nat)
    requires Ends(m, base, limit, top) && a in m && a != top && MIN_CHUNK <= nb < m[top].size
    requires Placed(m, a, base, limit, top) && Tagged(m, a, top) && Apart(m, a, top)
    requires top + nb !in m
    ensures Placed(SplitTop(m, top, nb), a, base, limit, top + nb) && Tagged(SplitTop(m, top, nb), a, top + nb)
  {
  }

  lemma SplitTopHalves(m: Mem, base: nat, limit: nat, top: nat, nb: nat)
    requires Ends(m, base, limit, top) && MIN_CHUNK <= nb < m[top].size && nb % ALIGN == 0
    requires Placed(m, top, base, limit, top)
    ensures var m' := SplitTop(m, top, nb);
            && Placed(m', top, base, limit, top + nb) && Tagged(m', top, top + nb)
            && Placed(m', top + nb, base, limit, top + nb) && Tagged(m', top + nb, top + nb)
  {
  }

  lemma SplitTopApart(m: Mem, top: nat, nb: nat, a: nat, b: nat)
    requires top in m && MIN_CHUNK <= nb < m[top].size
    requires a in m && b in m && Apart(m, a, b) && Apart(m, a, top) && Apart(m, top, b)
    ensures var m' := SplitTop(m, top, nb);
            Apart(m', a, b) && Apart(m', a, top + nb) && Apart(m', top + nb, b)
  {
  }

  lemma SplitTopLayout(m: Mem, base: nat, limit: nat, top: nat, nb: nat)
    requires Layout(m, base, limit, top) && top in m
    requires MIN_CHUNK <= nb < m[top].size && nb % ALIGN == 0
    ensures Layout(SplitTop(m, top, nb), base, limit, top + nb)
    ensures Live(SplitTop(m, top, nb)) == Live(m)[top := nb]
    ensures forall a: nat, s: nat :: FreeOf(SplitTop(m, top, nb), a, s, top + nb) <==> FreeOf(m, a, s, top)
  {
    hide Placed, Tagged, Apart;
    var m' := SplitTop(m, top, nb);
    Inside(m, top, top + nb);
    forall a | a in m'
      ensures Placed(m', a, base, limit, top + nb) && Tagged(m', a, top + nb)
    {
      if a == top || a == top + nb {
        SplitTopHalves(m, base, limit, top, nb);
      } else {
        SplitTopChunk(m, base, limit, top, nb, a);
      }
    }
    forall a, b | a in m' && b in m'
      ensures Apart(m', a, b)
    {
      SplitTopApart(m, top, nb, if a == top + nb then top else a, if b == top + nb then top else b);
      if a == top + nb && b == top + nb { ApartSelf(m', a); }
    }
  }

  // ---- release ----

  /** set_free_with_pinuse over all that is merged: the headers inside are headers no longer. */
  function Release(m: Mem, q: nat, total: nat): Mem {
    map a | a in m && !(q < a < q + total) ::
      if a == q then Head(total, false, true, m[a].prevFoot)
      else if a == q + total then m[a].(pinuse := false, prevFoot := total)
      else m[a]
  }

  /** From q, whose predecessor is in use, up to the chunk in use at n. */
  ghost predicate Mergeable(m: Mem, q: nat, n: nat, top: nat) {
    q in m && n in m && q < n && m[q].pinuse && m[n].cinuse && n < top
  }

  lemma ReleaseChunk(m: Mem, base: nat, limit: nat, top: nat, q: nat, n: nat, a: nat)
    requires Mergeable(m, q, n, top) && a in m && !(q <= a < n)
    requires Placed(m, a, base, limit, top) && Tagged(m, a, top) && Apart(m, a, q) && Apart(m, a, n)
    requires !m[a].pinuse && m[a].prevFoot <= a && a - m[a].prevFoot in m ==> Apart(m, a - m[a].prevFoot, n)
    ensures Placed(Release(m, q, n - q), a, base, limit, top) && Tagged(Release(m, q, n - q), a, top)
  {
  }

  lemma ReleaseMerged(m: Mem, base: nat, limit: nat, top: nat, q: nat, n: nat)
    requires Mergeable(m, q, n, top) && Placed(m, q, base, limit, top) && Placed(m, n, base, limit, top)
             && Apart(m, q, n)
    ensures Placed(Release(m, q, n - q), q, base, limit, top) && Tagged(Release(m, q, n - q), q, top)
  {
  }

  lemma ReleaseApart(m: Mem, q: nat, n: nat, a: nat, b: nat)
    requires q in m && n in m && q < n && a in m && b in m && !(q < a < n) && !(q < b < n)
    requires Apart(m, a, b) && Apart(m, a, q) && Apart(m, q, b)
    ensures Apart(Release(m, q, n - q), a, b)
  {
  }

  /** The one chunk in use among those merged. */
  ghost predicate OnlyLive(m: Mem, p: nat, q: nat, n: nat) {
    p in m && m[p].cinuse && q <= p < n && forall a :: a in m && q <= a < n && a != p ==> !m[a].cinuse
  }

  lemma ReleaseLayout(m: Mem, base: nat, limit: nat, top: nat, q: nat, total: nat, p: nat)
    requires Mergeable(m, q, q + total, top) && OnlyLive(m, p, q, q + total) && Layout(m, base, limit, top)
    ensures Layout(Release(m, q, total), base, limit, top)
    ensures Live(Release(m, q, total)) == Live(m) - {p}
    ensures forall a: nat, s: nat :: FreeOf(Release(m, q, total), a, s, top) <==>
                            (FreeOf(m, a, s, top) && !(q <= a < q + total)) || (a == q && s == total)
  {
    hide Placed, Tagged, Apart;
    var n := q + total;
    var m' := Release(m, q, total);
    PlacedFacts(m, q, base, limit, top);
    forall a | a in m'
      ensures Placed(m', a, base, limit, top) && Tagged(m', a, top)
    {
      if a == q {
        ReleaseMerged(m, base, limit, top, q, n);
      } else {
        ReleaseChunk(m, base, limit, top, q, n, a);
      }
    }
    forall a, b | a in m' && b in m'
      ensures Apart(m', a, b)
    {
      ReleaseApart(m, q, n, a, b);
    }
    ReleaseLive(m, q, total, p);
  }

  lemma ReleaseLive(m: Mem, q: nat, total: nat, p: nat)
    requires q in m && OnlyLive(m, p, q, q + total)
    ensures Live(Release(m, q, total)) == Live(m) - {p}
  {
    var m' := Release(m, q, total);
    assert forall a :: a in m' && m'[a].cinuse <==> a in m && m[a].cinuse && a != p;
    assert forall a :: a in m' && a != q ==> m'[a].size == m[a].size;
  }

  /** Merging into top: everything from q to the end of the segment. */
  function ReleaseTop(m: Mem, q: nat, limit: nat): Mem
    requires q <= limit
  {
    map a | a in m && a <= q :: if a == q then Head(limit - q, false, true, m[a].prevFoot) else m[a]
  }

  lemma ReleaseTopChunk(m: Mem, base: nat, limit: nat, top: nat, q: nat, a: nat)
    requires q in m && m[q].pinuse && q < limit && q <= top && a in m && a < q
    requires Placed(m, a, base, limit, top) && Tagged(m, a, top) && Apart(m, a, q)
    ensures Placed(ReleaseTop(m, q, limit), a, base, limit, q) && Tagged(ReleaseTop(m, q, limit), a, q)
  {
  }

  lemma ReleaseTopMerged(m: Mem, base: nat, limit: nat, top: nat, q: nat)
    requires q in m && Placed(m, q, base, limit, top) && limit % ALIGN == 0
    ensures Placed(ReleaseTop(m, q, limit), q, base, limit, q) && Tagged(ReleaseTop(m, q, limit), q, q)
  {
  }

  lemma ReleaseTopApart(m: Mem, q: nat, limit: nat, a: nat, b: nat)
    requires q in m && q <= limit && a in m && b in m && a <= q && b <= q && Apart(m, a, b)
    ensures Apart(ReleaseTop(m, q, limit), a, b)
  {
  }

  lemma ReleaseTopLayout(m: Mem, base: nat, limit: nat, top: nat, q: nat, p: nat)
    requires q < top < limit && OnlyLive(m, p, q, limit) && q in m && m[q].pinuse && Layout(m, base, limit, top)
    ensures Layout(ReleaseTop(m, q, limit), base, limit, q)
    ensures Live(ReleaseTop(m, q, limit)) == Live(m) - {p}
    ensures forall a: nat, s: nat :: FreeOf(ReleaseTop(m, q, limit), a, s, q) <==> FreeOf(m, a, s, top) && a < q
  {
    hide Placed, Tagged, Apart;
    var m' := ReleaseTop(m, q, limit);
    PlacedFacts(m, top, base, limit, top);
    PlacedFacts(m, q, base, limit, top);
    forall a | a in m'
      ensures Placed(m', a, base, limit, q) && Tagged(m', a, q)
    {
      if a == q {
        ReleaseTopMerged(m, base, limit, top, q);
      } else {
        ReleaseTopChunk(m, base, limit, top, q, a);
      }
    }
    forall a, b | a in m' && b in m'
      ensures Apart(m', a, b)
    {
      ReleaseTopApart(m, q, limit, a, b);
    }
    forall a | a in m
      ensures base <= a < limit
    {
      PlacedFacts(m, a, base, limit, top);
    }
    ReleaseTopLive(m, q, limit, p);
  }

  lemma ReleaseTopLive(m: Mem, q: nat, limit: nat, p: nat)
    requires q in m && q <= limit && OnlyLive(m, p, q, limit) && forall a :: a in m ==> a < limit
    ensures Live(ReleaseTop(m, q, limit)) == Live(m) - {p}
  {
    var m' := ReleaseTop(m, q, limit);
    assert forall a :: a in m' && m'[a].cinuse <==> a in m && m[a].cinuse && a != p;
  }

  // ---- tiling ----

  /** Every byte of the segment lies in exactly one chunk. */
  lemma {:induction false} Tiling(m: Mem, base: nat, limit: nat, top: nat, x: nat) returns (a: nat)
    requires Layout(m, base, limit, top) && base <= x < limit
    ensures a in m && a <= x < End(m, a)
    ensures forall b :: b in m && b <= x < End(m, b) ==> b == a
    decreases x - base
  {
    hide Placed, Tagged, Apart;
    if x == base {
      a := base;
    } else {
      a := Tiling(m, base, limit, top, x - 1);
      PlacedFacts(m, a, base, limit, top);
      if x == End(m, a) { a := x; }
    }
    PlacedFacts(m, a, base, limit, top);
    forall b | b in m && b <= x < End(m, b)
      ensures b == a
    {
      ApartOverlap(m, a, b, x);
    }
  }

  lemma ApartOverlap(m: Mem, a: nat, b: nat, x: nat)
    requires a in m && b in m && Apart(m, a, b) && a <= x < End(m, a) && b <= x < End(m, b)
    ensures a == b
  {
  }
}
