/**
  The heap invariant of an mspace: the chunks tile the segment, and every free
  chunk but top and the designated victim is on file exactly once
  (do_check_malloc_state in libopen-mx/dlmalloc.c).
*/
module Heaps {
  import opened TreeBins
  import opened Tries
  import opened HeapLayout
  import opened Filing

  /** struct malloc_state, with the one segment from base to limit. */
  datatype Heap = Heap(mem: Mem, files: Files, dv: nat, dvsize: nat, top: nat, topsize: nat, base: nat, limit: nat)

  ghost predicate OnFile(h: Heap)
    requires FilesOk(h.files)
  {
    forall a: nat, s: nat {:trigger Count(h.files, Chunk(a, s))} ::
      Count(h.files, Chunk(a, s)) == if FreeOf(h.mem, a, s, h.top) && a != h.dv then 1 else 0
  }

  ghost predicate VictimOk(h: Heap) {
    if h.dvsize == 0 then h.dv == 0 else FreeOf(h.mem, h.dv, h.dvsize, h.top)
  }

  ghost predicate HeapOk(h: Heap) {
    && 0 < h.base && SizeT(h.limit)
    && Layout(h.mem, h.base, h.limit, h.top)
    && h.top in h.mem && h.mem[h.top].size == h.topsize
    && FilesOk(h.files)
    && VictimOk(h)
    && OnFile(h)
  }

  /** One more chunk is in use: at p, large enough for nb and wasting less than a chunk. */
  ghost predicate Handed(before: map<nat, nat>, after: map<nat, nat>, p: nat, nb: nat) {
    && p !in before && p in after && after == before[p := after[p]]
    && nb <= after[p] < nb + MIN_CHUNK
    && p % ALIGN == 0
  }

  lemma FreeFacts(h: Heap, p: nat, s: nat)
    requires HeapOk(h) && FreeOf(h.mem, p, s, h.top)
    ensures End(h.mem, p) in h.mem && p % ALIGN == 0 && s % ALIGN == 0 && MIN_CHUNK <= s && SizeT(s) && 0 < p
    ensures s + 1 < h.limit && p + s < h.limit
  {
    hide Tagged, Apart, OnFile, FilesOk, VictimOk;
    PlacedFacts(h.mem, p, h.base, h.limit, h.top);
    PlacedFacts(h.mem, p + s, h.base, h.limit, h.top);
  }

  /** A chunk on file is free. */
  lemma FiledIsFree(h: Heap, p: nat, s: nat)
    requires HeapOk(h) && Count(h.files, Chunk(p, s)) > 0
    ensures FreeOf(h.mem, p, s, h.top) && p != h.dv
  {
    hide Layout, FilesOk, Count, VictimOk;
  }

  // ---- allocation ----

  /** A filed chunk is taken whole. */
  lemma TakeWhole(h: Heap, p: nat, s: nat, f: Files, nb: nat)
    requires HeapOk(h) && FilesOk(f) && Adds(f, Chunk(p, s), h.files) && nb <= s < nb + MIN_CHUNK
    ensures FreeOf(h.mem, p, s, h.top) && End(h.mem, p) in h.mem
    ensures var h' := h.(mem := Occupy(h.mem, p), files := f);
            HeapOk(h') && Handed(Live(h.mem), Live(h'.mem), p, nb)
  {
    hide Layout, FilesOk, Count, Occupy;
    FiledIsFree(h, p, s);
    FreeFacts(h, p, s);
    OccupyLayout(h.mem, h.base, h.limit, h.top, p);
    OccupyTop(h, p);
  }

  lemma OccupyTop(h: Heap, p: nat)
    requires HeapOk(h) && Free(h.mem, p, h.top) && End(h.mem, p) in h.mem
    ensures h.top in Occupy(h.mem, p) && Occupy(h.mem, p)[h.top].size == h.topsize
  {
  }

  lemma SplitTopKept(h: Heap, p: nat, nb: nat)
    requires HeapOk(h) && Free(h.mem, p, h.top) && End(h.mem, p) in h.mem && 0 < nb < h.mem[p].size
    ensures p + nb !in h.mem
    ensures h.top in Split(h.mem, p, nb) && Split(h.mem, p, nb)[h.top].size == h.topsize
  {
    hide Placed, Tagged, Apart, OnFile, FilesOk, VictimOk;
    Inside(h.mem, p, p + nb);
  }

  ghost predicate Splits(nb: nat, s: nat) {
    MIN_CHUNK <= nb && nb % ALIGN == 0 && nb + MIN_CHUNK <= s
  }

  /** replace_dv: a former victim goes on file. */
  ghost predicate Replaced(f: Files, h: Heap, f': Files)
    requires FilesOk(f) && FilesOk(f')
  {
    if h.dvsize == 0 then f' == f else Adds(f, Chunk(h.dv, h.dvsize), f')
  }

  /** A filed chunk is split and its remainder becomes the victim. */
  lemma SplitToVictim(h: Heap, p: nat, s: nat, f: Files, f': Files, nb: nat)
    requires HeapOk(h) && FilesOk(f) && Adds(f, Chunk(p, s), h.files) && Splits(nb, s)
    requires FilesOk(f') && Replaced(f, h, f')
    ensures FreeOf(h.mem, p, s, h.top) && End(h.mem, p) in h.mem
    ensures var h' := h.(mem := Split(h.mem, p, nb), files := f', dv := p + nb, dvsize := s - nb);
            HeapOk(h') && Handed(Live(h.mem), Live(h'.mem), p, nb)
  {
    hide Layout, FilesOk, Count, Split;
    FiledIsFree(h, p, s);
    FreeFacts(h, p, s);
    SplitLayout(h.mem, h.base, h.limit, h.top, p, nb);
    NoChunkAtZero(h);
    SplitTopKept(h, p, nb);
  }

  /** A filed chunk is split and its remainder goes on file. */
  lemma SplitToFile(h: Heap, p: nat, s: nat, f: Files, f': Files, nb: nat)
    requires HeapOk(h) && FilesOk(f) && Adds(f, Chunk(p, s), h.files) && Splits(nb, s)
    requires FilesOk(f') && Adds(f, Chunk(p + nb, s - nb), f')
    ensures FreeOf(h.mem, p, s, h.top) && End(h.mem, p) in h.mem
    ensures var h' := h.(mem := Split(h.mem, p, nb), files := f');
            HeapOk(h') && Handed(Live(h.mem), Live(h'.mem), p, nb)
  {
    hide Layout, FilesOk, Count, Split;
    FiledIsFree(h, p, s);
    FreeFacts(h, p, s);
    SplitLayout(h.mem, h.base, h.limit, h.top, p, nb);
    SplitTopKept(h, p, nb);
  }

  lemma SplitVictim(h: Heap, nb: nat)
    requires HeapOk(h) && Splits(nb, h.dvsize)
    ensures FreeOf(h.mem, h.dv, h.dvsize, h.top) && End(h.mem, h.dv) in h.mem
    ensures var h' := h.(mem := Split(h.mem, h.dv, nb), dv := h.dv + nb, dvsize := h.dvsize - nb);
            HeapOk(h') && Handed(Live(h.mem), Live(h'.mem), h.dv, nb)
  {
    hide Layout, FilesOk, Count, Split;
    FreeFacts(h, h.dv, h.dvsize);
    SplitLayout(h.mem, h.base, h.limit, h.top, h.dv, nb);
    SplitTopKept(h, h.dv, nb);
  }

  lemma ExhaustVictim(h: Heap, nb: nat)
    requires HeapOk(h) && 0 < nb <= h.dvsize < nb + MIN_CHUNK
    ensures FreeOf(h.mem, h.dv, h.dvsize, h.top) && End(h.mem, h.dv) in h.mem
    ensures var h' := h.(mem := Occupy(h.mem, h.dv), dv := 0, dvsize := 0);
            HeapOk(h') && Handed(Live(h.mem), Live(h'.mem), h.dv, nb)
  {
    hide Layout, FilesOk, Count, Occupy;
    FreeFacts(h, h.dv, h.dvsize);
    OccupyLayout(h.mem, h.base, h.limit, h.top, h.dv);
    OccupyTop(h, h.dv);
    NoChunkAtZero(h);
  }

  lemma NoChunkAtZero(h: Heap)
    requires HeapOk(h)
    ensures 0 !in h.mem
  {
    hide Tagged, Apart, OnFile, FilesOk, VictimOk, Placed;
    if 0 in h.mem { PlacedFacts(h.mem, 0, h.base, h.limit, h.top); }
  }

  lemma CutTop(h: Heap, nb: nat)
    requires HeapOk(h) && MIN_CHUNK <= nb < h.topsize && nb % ALIGN == 0
    ensures var h' := h.(mem := SplitTop(h.mem, h.top, nb), top := h.top + nb, topsize := h.topsize - nb);
            HeapOk(h') && Handed(Live(h.mem), Live(h'.mem), h.top, nb)
  {
    hide Layout, FilesOk, Count;
    SplitTopLayout(h.mem, h.base, h.limit, h.top, nb);
    TopFacts(h);
  }

  lemma TopFacts(h: Heap)
    requires HeapOk(h)
    ensures h.top % ALIGN == 0 && h.top + h.topsize == h.limit && 0 < h.topsize && h.top !in Live(h.mem)
    ensures h.topsize < h.limit
  {
    hide Tagged, Apart, OnFile, FilesOk, VictimOk, Placed;
    PlacedFacts(h.mem, h.top, h.base, h.limit, h.top);
  }

  // ---- release ----

  /** f files the free chunks outside q to n, the victim excepted. */
  ghost predicate FiledOutside(h: Heap, f: Files, q: nat, n: nat)
    requires FilesOk(f)
  {
    forall a: nat, s: nat {:trigger Count(f, Chunk(a, s))} ::
      Count(f, Chunk(a, s)) == if FreeOf(h.mem, a, s, h.top) && a != h.dv && !(q <= a < n) then 1 else 0
  }

  /** The chunks from q to n: p in use, the others free. */
  ghost predicate Run(h: Heap, p: nat, q: nat, n: nat) {
    q in h.mem && q < n && OnlyLive(h.mem, p, q, n)
  }

  lemma OwnRun(h: Heap, p: nat)
    requires HeapOk(h) && p in h.mem && h.mem[p].cinuse
    ensures var n := End(h.mem, p); n in h.mem && Run(h, p, p, n) && FiledOutside(h, h.files, p, n)
  {
    hide Placed, Tagged, Apart, FilesOk, VictimOk, Count;
    PlacedFacts(h.mem, p, h.base, h.limit, h.top);
    var n := End(h.mem, p);
    forall a | a in h.mem && p <= a < n
      ensures a == p
    {
      assert Apart(h.mem, a, p);
      ApartInside(h.mem, p, a);
    }
  }

  lemma ApartInside(m: Mem, p: nat, a: nat)
    requires p in m && a in m && Apart(m, a, p) && p <= a < End(m, p)
    ensures a == p
  {
  }

  /** The free chunk before the run joins it. */
  lemma ExtendBack(h: Heap, p: nat, q: nat, n: nat, f: Files, f': Files, prev: nat)
    requires HeapOk(h) && Run(h, p, q, n) && FilesOk(f) && FiledOutside(h, f, q, n)
    requires prev < q && Free(h.mem, prev, h.top) && End(h.mem, prev) == q
    requires FilesOk(f') && if prev == h.dv then f' == f else Adds(f', Chunk(prev, h.mem[prev].size), f)
    ensures Run(h, p, prev, n) && FiledOutside(h, f', prev, n)
  {
    hide Placed, Tagged, Apart, FilesOk, VictimOk, Count;
    forall a | a in h.mem && prev <= a < q
      ensures a == prev
    {
      assert Apart(h.mem, a, prev);
      ApartInside(h.mem, prev, a);
    }
  }

  /** The free chunk after the run joins it. */
  lemma ExtendForward(h: Heap, p: nat, q: nat, n: nat, f: Files, f': Files)
    requires HeapOk(h) && Run(h, p, q, n) && FilesOk(f) && FiledOutside(h, f, q, n)
    requires Free(h.mem, n, h.top)
    requires FilesOk(f') && if n == h.dv then f' == f else Adds(f', Chunk(n, h.mem[n].size), f)
    ensures Run(h, p, q, End(h.mem, n)) && FiledOutside(h, f', q, End(h.mem, n))
  {
    hide Placed, Tagged, Apart, FilesOk, VictimOk, Count;
    PlacedFacts(h.mem, n, h.base, h.limit, h.top);
    forall a | a in h.mem && n <= a < End(h.mem, n)
      ensures a == n
    {
      assert Apart(h.mem, a, n);
      ApartInside(h.mem, n, a);
    }
  }

  lemma BeforeTop(h: Heap, n: nat)
    requires HeapOk(h) && n in h.mem && n != h.top
    ensures n < h.top
  {
    hide Placed, Tagged, OnFile, FilesOk, VictimOk;
    PlacedFacts(h.mem, n, h.base, h.limit, h.top);
    assert Apart(h.mem, h.top, n);
  }

  /** The run becomes one free chunk: the victim, or on file. */
  lemma Merged(h: Heap, p: nat, q: nat, total: nat, f: Files, h': Heap)
    requires HeapOk(h) && Run(h, p, q, q + total) && FilesOk(f) && FiledOutside(h, f, q, q + total)
    requires h.mem[q].pinuse && q + total in h.mem && h.mem[q + total].cinuse
    requires h' == h.(mem := Release(h.mem, q, total), files := h'.files, dv := h'.dv, dvsize := h'.dvsize)
    requires FilesOk(h'.files)
    requires || (h'.files == f && h'.dv == q && h'.dvsize == total && (h.dvsize == 0 || q <= h.dv < q + total))
             || (Adds(f, Chunk(q, total), h'.files) && h'.dv == h.dv && h'.dvsize == h.dvsize
                && !(q <= h.dv < q + total))
    ensures HeapOk(h') && Live(h'.mem) == Live(h.mem) - {p}
  {
    hide Layout, FilesOk, Count, Release;
    NotTop(h, q + total);
    BeforeTop(h, q + total);
    ReleaseLayout(h.mem, h.base, h.limit, h.top, q, total, p);
    ReleaseKeepsTop(h, q, total);
    NoChunkAtZero(h);
  }

  lemma NotTop(h: Heap, n: nat)
    requires HeapOk(h) && n in h.mem && h.mem[n].cinuse
    ensures n != h.top
  {
  }

  lemma ReleaseKeepsTop(h: Heap, q: nat, total: nat)
    requires HeapOk(h) && q < q + total < h.top
    ensures var m := Release(h.mem, q, total); h.top in m && m[h.top].size == h.topsize
  {
  }

  /** The run joins top. */
  lemma MergedTop(h: Heap, p: nat, q: nat, f: Files, h': Heap)
    requires HeapOk(h) && Run(h, p, q, h.top) && FilesOk(f) && FiledOutside(h, f, q, h.top)
    requires h.mem[q].pinuse && q <= h.limit
    requires h' == h.(mem := ReleaseTop(h.mem, q, h.limit), files := f, top := q, topsize := h.limit - q,
                      dv := if q == h.dv then 0 else h.dv, dvsize := if q == h.dv then 0 else h.dvsize)
    requires h.dv != q ==> !(q <= h.dv < h.top)
    ensures HeapOk(h') && Live(h'.mem) == Live(h.mem) - {p}
  {
    hide Layout, FilesOk, Count, ReleaseTop;
    TopFacts(h);
    RunToLimit(h, p, q);
    ReleaseTopLayout(h.mem, h.base, h.limit, h.top, q, p);
    ReleaseTopIs(h, q);
    NoChunkAtZero(h);
    forall a: nat, s: nat | FreeOf(h.mem, a, s, h.top)
      ensures a < h.top
    {
      BeforeTop(h, a);
    }
  }

  lemma RunToLimit(h: Heap, p: nat, q: nat)
    requires HeapOk(h) && Run(h, p, q, h.top)
    ensures OnlyLive(h.mem, p, q, h.limit) && h.top < h.limit
  {
    hide Layout, FilesOk, OnFile, VictimOk;
    TopFacts(h);
    forall a | a in h.mem && q <= a < h.limit && a != p
      ensures !h.mem[a].cinuse
    {
      if a != h.top { BeforeTop(h, a); } else { TopFree(h); }
    }
  }

  lemma TopFree(h: Heap)
    requires HeapOk(h)
    ensures !h.mem[h.top].cinuse
  {
  }

  lemma ReleaseTopIs(h: Heap, q: nat)
    requires q in h.mem && q <= h.limit
    ensures var m := ReleaseTop(h.mem, q, h.limit); q in m && m[q].size == h.limit - q
  {
  }

  // ---- what the invariant means for the callers ----

  /** Chunks in use never overlap, and lie in the segment below top. */
  lemma LiveApart(h: Heap, a: nat, b: nat)
    requires HeapOk(h) && a in Live(h.mem) && b in Live(h.mem) && a < b
    ensures a + Live(h.mem)[a] <= b && h.base <= a && b + Live(h.mem)[b] <= h.top
  {
    hide Placed, Tagged, FilesOk, OnFile, VictimOk;
    PlacedFacts(h.mem, a, h.base, h.limit, h.top);
    assert Apart(h.mem, a, b);
    TopFree(h);
    BeforeTop(h, b);
    assert Apart(h.mem, b, h.top);
  }

  /** Once everything is freed, the whole segment is top again and nothing is on file. */
  lemma AllFreed(h: Heap)
    requires HeapOk(h) && Live(h.mem) == map[]
    ensures h.top == h.base && h.topsize == h.limit - h.base && h.dvsize == 0 && h.mem.Keys == {h.base}
    ensures forall c :: Count(h.files, c) == 0
  {
    hide Placed, Tagged, Apart, Count;
    TopFacts(h);
    assert forall a :: a in Live(h.mem) <==> a in h.mem && h.mem[a].cinuse;
    forall a | a in h.mem
      ensures a == h.top
    {
      if a != h.top { FreeNext(h.mem, h.base, h.limit, h.top, a); }
    }
    forall c
      ensures Count(h.files, c) == 0
    {
      assert c == Chunk(c.addr, c.size);
    }
  }
}
