/**
  mspace_malloc and mspace_free (libopen-mx/dlmalloc.c) on one segment.  Addresses
  are those of chunks; the caller's memory starts two words later.
*/
module Mspaces {
  import opened Options
  import opened Powers
  import opened TreeBins
  import opened Tries
  import opened BestFit
  import opened HeapLayout
  import opened Filing
  import opened Heaps

  const CHUNK_OVERHEAD := 8
  const MIN_REQUEST := MIN_CHUNK - CHUNK_OVERHEAD - 1
  const MAX_SMALL_REQUEST := 255 - 7 - CHUNK_OVERHEAD

  /** (-MIN_CHUNK_SIZE) << 2 */
  function MaxRequest(): nat {
    Pow2Value64();
    Pow2(SIZE_BITS) - 4 * MIN_CHUNK
  }

  lemma Pow2Value64()
    ensures Pow2(SIZE_BITS) >= 0x1_0000
  {
    Pow2Monotone(16, SIZE_BITS);
    Pow2Values();
  }

  function PadRequest(bytes: nat): nat {
    (bytes + CHUNK_OVERHEAD + 7) / 8 * 8
  }

  /** The chunk size that a request needs. */
  function Need(bytes: nat): nat {
    Pow2Value64();
    if bytes <= MAX_SMALL_REQUEST then if bytes < MIN_REQUEST then MIN_CHUNK else PadRequest(bytes)
    else if bytes >= MaxRequest() then Pow2(SIZE_BITS) - 1
    else PadRequest(bytes)
  }

  /** The padded size holds the request and is a chunk size; small requests are those that need small chunks. */
  lemma NeedFacts(bytes: nat)
    ensures MIN_CHUNK <= Need(bytes)
    ensures bytes < MaxRequest() ==>
              bytes + CHUNK_OVERHEAD <= Need(bytes) && Need(bytes) % ALIGN == 0 && SizeT(Need(bytes))
    ensures bytes <= MAX_SMALL_REQUEST <==> IsSmall(Need(bytes))
    ensures bytes <= MAX_SMALL_REQUEST ==> bytes < MaxRequest()
    ensures bytes >= MaxRequest() ==> Need(bytes) == Pow2(SIZE_BITS) - 1
  {
    hide Pow2;
    Pow2Value64();
  }

  /** A chunk of this size can be handed out for the request. */
  ghost predicate Serves(size: nat, bytes: nat) {
    size % ALIGN == 0 && MIN_CHUNK <= size && bytes + CHUNK_OVERHEAD <= size
  }

  /** The padded size is the least that serves the request. */
  lemma NeedLeast(bytes: nat, size: nat)
    requires bytes < MaxRequest()
    ensures Serves(Need(bytes), bytes)
    ensures Serves(size, bytes) ==> Need(bytes) <= size
    ensures Need(bytes) < MIN_CHUNK + 1 || Need(bytes) < bytes + CHUNK_OVERHEAD + ALIGN
  {
    hide Pow2;
    Pow2Value64();
  }

  /** Nothing fits the padded size: nothing serves the request. */
  lemma NothingServes(h: Heap, bytes: nat)
    requires HeapOk(h) && bytes < MaxRequest()
    requires (forall a: nat, s: nat :: FreeOf(h.mem, a, s, h.top) ==> s < Need(bytes)) && h.topsize <= Need(bytes)
    ensures forall a: nat, s: nat :: FreeOf(h.mem, a, s, h.top) ==> !Serves(s, bytes)
    ensures forall n: nat :: Serves(n, bytes) ==> h.topsize <= n
  {
    hide HeapOk, Need, FreeOf, MaxRequest;
    forall n: nat | Serves(n, bytes)
      ensures Need(bytes) <= n
    {
      NeedLeast(bytes, n);
    }
  }

  /** The chunk at p, which was not in use, holds the request and little more. */
  ghost predicate Granted(before: map<nat, nat>, after: map<nat, nat>, p: nat, bytes: nat) {
    && p !in before && p in after && after == before[p := after[p]] && p % ALIGN == 0
    && bytes + CHUNK_OVERHEAD <= after[p]
    && (after[p] < 2 * MIN_CHUNK || after[p] < bytes + CHUNK_OVERHEAD + ALIGN + MIN_CHUNK)
  }

  lemma HandedGranted(before: map<nat, nat>, after: map<nat, nat>, p: nat, bytes: nat)
    requires bytes < MaxRequest() && Handed(before, after, p, Need(bytes))
    ensures Granted(before, after, p, bytes)
  {
    hide Need, MaxRequest;
    NeedLeast(bytes, 0);
  }

  /** A free chunk that the bins hold. */
  ghost predicate OnBins(h: Heap, a: nat, s: nat) {
    FreeOf(h.mem, a, s, h.top) && a != h.dv
  }

  ghost predicate NoneFiled(h: Heap, nb: nat) {
    forall a: nat, s: nat :: OnBins(h, a, s) ==> s < nb
  }

  /** Every filed chunk that fits has at least this size. */
  ghost predicate FitsFrom(h: Heap, nb: nat, least: nat) {
    forall a: nat, s: nat :: OnBins(h, a, s) && nb <= s ==> least <= s
  }

  /** The least size of a small bin after those of nb and its successor, or of a tree bin. */
  function NotExact(nb: nat): nat {
    if nb + 16 <= 8 * NSMALLBINS then nb + 16 else 8 * NSMALLBINS
  }

  /**
    Which chunk a request may come from: the smallest filed one that fits; the
    victim only if no filed chunk is (nearly) exact, or none is smaller for a
    large request; top only if nothing else fits.
  */
  ghost predicate Policy(h: Heap, p: nat, nb: nat) {
    if p == h.top then NoneFiled(h, nb) && h.dvsize < nb
    else if p == h.dv then nb <= h.dvsize && FitsFrom(h, nb, if IsSmall(nb) then NotExact(nb) else h.dvsize)
    else
      && p in h.mem && !h.mem[p].cinuse && nb <= h.mem[p].size && FitsFrom(h, nb, h.mem[p].size)
      && (nb <= h.dvsize ==> if IsSmall(nb) then h.mem[p].size <= nb + 8 else h.mem[p].size < h.dvsize)
  }

  // ---- what the bitmaps say about the free chunks ----

  lemma FiledSmall(h: Heap, a: nat, s: nat)
    requires HeapOk(h) && OnBins(h, a, s)
    ensures Count(h.files, Chunk(a, s)) == 1 && s % 8 == 0
    ensures if IsSmall(s) then s / 8 in h.files.smallmap
            else TreeIndex(s) < NTREEBINS && s in Sizes(h.files.trees[TreeIndex(s)]) && h.files.treemap != {}
  {
    hide Count, Layout, TreeIndex, Sizes, Bins;
    LengthOk(h);
    FreeFacts(h, a, s);
    assert Count(h.files, Chunk(a, s)) == 1;
    if IsSmall(s) {
      SmallMember(h.files, a, s);
    } else {
      LargeMember(h.files, a, s);
    }
  }

  /** With the bins below i unmarked from nb's on, nothing on file fits better than bin i. */
  lemma FromSmallBin(h: Heap, nb: nat, i: nat)
    requires HeapOk(h) && IsSmall(nb) && nb % 8 == 0 && nb / 8 <= i <= NSMALLBINS
    requires forall j :: nb / 8 <= j < i ==> j !in h.files.smallmap
    ensures FitsFrom(h, nb, 8 * i)
  {
    hide HeapOk, FreeOf, TreeIndex;
    forall a: nat, s: nat | OnBins(h, a, s) && nb <= s
      ensures 8 * i <= s
    {
      FiledSmall(h, a, s);
    }
  }

  /** No small chunk fits: the best of the tries is the best on file. */
  lemma FromTries(h: Heap, nb: nat, v: Tree)
    requires HeapOk(h) && FitsFrom(h, nb, 8 * NSMALLBINS) && BestOf(h.files.trees, nb, v)
    ensures if v == Nil then NoneFiled(h, nb) else FitsFrom(h, nb, v.size)
  {
    hide HeapOk, FreeOf, TreeIndex, Sizes;
    LengthOk(h);
    forall a: nat, s: nat | OnBins(h, a, s) && nb <= s
      ensures v != Nil && v.size <= s
    {
      FiledSmall(h, a, s);
      assert Better(v, s);
    }
  }

  lemma LengthOk(h: Heap)
    requires HeapOk(h)
    ensures |h.files.trees| == NTREEBINS && |h.files.small| == NSMALLBINS && Bins(h.files.trees, h.files.treemap)
    ensures FilesOk(h.files)
  {
  }

  lemma NoTries(h: Heap, nb: nat)
    requires HeapOk(h) && FitsFrom(h, nb, 8 * NSMALLBINS) && h.files.treemap == {}
    ensures NoneFiled(h, nb)
  {
    hide HeapOk, FreeOf, TreeIndex, Sizes;
    LengthOk(h);
    forall a: nat, s: nat | OnBins(h, a, s)
      ensures s < nb
    {
      FiledSmall(h, a, s);
    }
  }

  lemma LargeFits(h: Heap, nb: nat)
    requires !IsSmall(nb)
    ensures FitsFrom(h, nb, 8 * NSMALLBINS)
  {
  }

  class Mspace {
    const base: nat
    const limit: nat
    var mem: Mem
    var files: Files
    var dv: nat
    var dvsize: nat
    var top: nat
    var topsize: nat

    function H(): Heap
      reads this
    {
      Heap(mem, files, dv, dvsize, top, topsize, base, limit)
    }

    ghost predicate Valid()
      reads this
    {
      HeapOk(H())
    }

    /** create_mspace_with_base: one top chunk. */
    constructor (base: nat, limit: nat)
      requires 0 < base < limit && base % ALIGN == 0 && limit % ALIGN == 0 && SizeT(limit)
      ensures Valid() && Live(mem) == map[] && this.base == base && this.limit == limit && topsize == limit - base
    {
      this.base, this.limit := base, limit;
      mem := map[base := Head(limit - base, false, true, 0)];
      files := Files(seq(NSMALLBINS, _ => []), {}, seq(NTREEBINS, _ => Nil), {});
      dv, dvsize, top, topsize := 0, 0, base, limit - base;
      new;
      hide HeapOk, Live;
      EmptyFiles(files);
      OneChunk(H());
    }

    /** Unlink the first chunk of a small bin and hand it out whole. */
    method TakeFirst(i: nat, nb: nat) returns (p: nat)
      requires Valid() && i in files.smallmap && nb <= 8 * i < nb + MIN_CHUNK
      modifies this
      ensures Valid() && Handed(old(Live(mem)), Live(mem), p, nb)
      ensures old(OnBins(H(), p, 8 * i))
    {
      hide Count, Layout, FilesOk, Occupy, UnlinkSmall, OnFile;
      LengthOk(H());
      FirstSmall(files, i);
      p := files.small[i][0];
      SmallMember(files, p, 8 * i);
      UnlinkSmallOk(files, p, 8 * i);
      TakeWhole(H(), p, 8 * i, UnlinkSmall(files, p, 8 * i), nb);
      FiledIsFree(H(), p, 8 * i);
      files := UnlinkSmall(files, p, 8 * i);
      mem := Occupy(mem, p);
    }

    /** unlink_chunk: small and large chunks are filed apart. */
    method UnlinkChunk(p: nat, s: nat)
      requires FilesOk(files) && Count(files, Chunk(p, s)) > 0
      modifies this`files
      ensures FilesOk(files) && Adds(files, Chunk(p, s), old(files))
    {
      hide Count, UnlinkSmall, UnlinkLarge, Adds;
      if IsSmall(s) {
        SmallSize(files, p, s);
        SmallMember(files, p, s);
        UnlinkSmallOk(files, p, s);
        files := UnlinkSmall(files, p, s);
      } else {
        UnlinkLargeOk(files, p, s);
        files := UnlinkLarge(files, p, s);
      }
    }

    /** insert_chunk */
    method InsertChunk(p: nat, s: nat)
      requires FilesOk(files) && s % 8 == 0 && SizeT(s)
      modifies this`files
      ensures FilesOk(files) && Adds(old(files), Chunk(p, s), files)
    {
      hide Count, InsertSmall, InsertLarge, Adds;
      if IsSmall(s) {
        InsertSmallOk(files, p, s);
        files := InsertSmall(files, p, s);
      } else {
        InsertLargeOk(files, p, s);
        files := InsertLarge(files, p, s);
      }
    }

    /** Unlink a chunk, hand out its front, make the rest the victim if it is a chunk (replace_dv). */
    method CarveToVictim(p: nat, s: nat, nb: nat)
      requires Valid() && Count(files, Chunk(p, s)) > 0 && MIN_CHUNK <= nb <= s && nb % ALIGN == 0 && dvsize < nb
      modifies this
      ensures Valid() && Handed(old(Live(mem)), Live(mem), p, nb)
    {
      hide Count, Layout, FilesOk, Occupy, Split, Adds, OnFile;
      ghost var h := H();
      FiledIsFree(h, p, s);
      UnlinkChunk(p, s);
      ghost var f := files;
      if s - nb < MIN_CHUNK {
        TakeWhole(h, p, s, f, nb);
        mem := Occupy(mem, p);
      } else {
        if dvsize != 0 {
          FreeFacts(h, dv, dvsize);
          InsertChunk(dv, dvsize);
        }
        SplitToVictim(h, p, s, f, files, nb);
        mem := Split(mem, p, nb);
        dv, dvsize := p + nb, s - nb;
      }
    }

    /** Unlink a chunk, hand out its front, put the rest on file if it is a chunk. */
    method CarveToFile(p: nat, s: nat, nb: nat)
      requires Valid() && Count(files, Chunk(p, s)) > 0 && MIN_CHUNK <= nb <= s && nb % ALIGN == 0
      modifies this
      ensures Valid() && Handed(old(Live(mem)), Live(mem), p, nb)
    {
      hide Count, Layout, FilesOk, Occupy, Split, Adds, OnFile;
      ghost var h := H();
      FiledIsFree(h, p, s);
      FreeFacts(h, p, s);
      UnlinkChunk(p, s);
      ghost var f := files;
      if s - nb < MIN_CHUNK {
        TakeWhole(h, p, s, f, nb);
        mem := Occupy(mem, p);
      } else {
        InsertChunk(p + nb, s - nb);
        SplitToFile(h, p, s, f, files, nb);
        mem := Split(mem, p, nb);
      }
    }

    /** Split dv, or exhaust it. */
    method FromVictim(nb: nat) returns (p: nat)
      requires Valid() && MIN_CHUNK <= nb <= dvsize && nb % ALIGN == 0
      modifies this
      ensures Valid() && Handed(old(Live(mem)), Live(mem), p, nb) && p == old(dv)
    {
      hide Count, Layout, FilesOk, Occupy, Split, OnFile;
      p := dv;
      if dvsize - nb >= MIN_CHUNK {
        SplitVictim(H(), nb);
        mem := Split(mem, p, nb);
        dv, dvsize := p + nb, dvsize - nb;
      } else {
        ExhaustVictim(H(), nb);
        mem := Occupy(mem, p);
        dv, dvsize := 0, 0;
      }
    }

    /** Split top. */
    method FromTop(nb: nat) returns (p: nat)
      requires Valid() && MIN_CHUNK <= nb < topsize && nb % ALIGN == 0
      modifies this
      ensures Valid() && Handed(old(Live(mem)), Live(mem), p, nb) && p == old(top)
    {
      hide Count, Layout, FilesOk, OnFile, SplitTop;
      CutTop(H(), nb);
      p := top;
      mem := SplitTop(mem, p, nb);
      top, topsize := p + nb, topsize - nb;
    }

    /**
      mspace_malloc up to the call of sys_alloc.  A request is met exactly if some
      free chunk other than top fits it or top is larger.
    */
    method Malloc(bytes: nat) returns (r: Option<nat>)
      requires Valid()
      modifies this
      ensures Valid()
      ensures r == None ==>
                && H() == old(H())
                && (forall a: nat, s: nat :: FreeOf(mem, a, s, top) ==> s < Need(bytes)) && topsize <= Need(bytes)
      ensures r == None && bytes < MaxRequest() ==>
                && (forall a: nat, s: nat :: FreeOf(mem, a, s, top) ==> !Serves(s, bytes))
                && (forall n: nat :: Serves(n, bytes) ==> topsize <= n)
      ensures r != None ==>
                && bytes < MaxRequest() && Granted(old(Live(mem)), Live(mem), r.value, bytes)
                && Policy(old(H()), r.value, Need(bytes))
    {
      hide HeapOk, Live, Policy, Handed, Granted, Need, FitsFrom, NoneFiled, Serves, FreeOf, MaxRequest;
      NeedFacts(bytes);
      ghost var h := H();
      var nb := Need(bytes);
      if bytes <= MAX_SMALL_REQUEST {
        r := MallocSmall(nb);
        if r != None {
          HandedGranted(old(Live(mem)), Live(mem), r.value, bytes);
          return;
        }
      } else if bytes < MaxRequest() {
        r := MallocLarge(nb);
        if r != None {
          HandedGranted(old(Live(mem)), Live(mem), r.value, bytes);
          return;
        }
      } else {
        TooLarge(h, nb);
        return None;
      }
      if nb <= dvsize {
        PolicyVictim(h, nb);
        var p := FromVictim(nb);
        HandedGranted(old(Live(mem)), Live(mem), p, bytes);
        r := Some(p);
      } else if nb < topsize {
        PolicyTop(h, nb);
        var p := FromTop(nb);
        HandedGranted(old(Live(mem)), Live(mem), p, bytes);
        r := Some(p);
      } else {
        NothingFits(h, nb);
        NothingServes(h, bytes);
        r := None;
      }
    }

    /** The part of mspace_malloc for small requests, before dv and top. */
    method MallocSmall(nb: nat) returns (r: Option<nat>)
      requires Valid() && IsSmall(nb) && MIN_CHUNK <= nb && nb % ALIGN == 0 && SizeT(nb)
      modifies this
      ensures Valid()
      ensures r == None ==>
                && H() == old(H())
                && (if nb <= dvsize then FitsFrom(H(), nb, NotExact(nb)) else NoneFiled(H(), nb))
      ensures r != None ==> Handed(old(Live(mem)), Live(mem), r.value, nb) && Policy(old(H()), r.value, nb)
    {
      hide HeapOk, Live, Handed, FitsFrom, NoneFiled, Policy, OnBins, BestOf, Filed, SizeT, Bins, SmallOk, Count,
           FreeOf;
      LengthOk(H());
      var idx := nb / 8;
      if idx in files.smallmap || idx + 1 in files.smallmap {
        var i := if idx in files.smallmap then idx else idx + 1;
        MarkedSmall(files, i);
        FromSmallBin(H(), nb, i);
        PolicySmall(H(), nb, i);
        var p := TakeFirst(i, nb);
        return Some(p);
      }
      if nb <= dvsize {
        FromSmallBin(H(), nb, if idx + 2 <= NSMALLBINS then idx + 2 else NSMALLBINS);
        return None;
      }
      var i := LeastFrom(files.smallmap, idx + 1);
      if i < NSMALLBINS {
        FirstSmall(files, i);
        FromSmallBin(H(), nb, i);
        var p := files.small[i][0];
        PolicyFiled(H(), p, 8 * i, nb);
        CarveToVictim(p, 8 * i, nb);
        return Some(p);
      }
      FromSmallBin(H(), nb, NSMALLBINS);
      if files.treemap != {} {
        var v := TmallocSmall(files.trees, files.treemap, nb);
        FromTries(H(), nb, v);
        FiledCount(files, v);
        PolicyFiled(H(), v.ring[0], v.size, nb);
        CarveToVictim(v.ring[0], v.size, nb);
        return Some(v.ring[0]);
      }
      NoTries(H(), nb);
      r := None;
    }

    /** The part of mspace_malloc for large requests, before dv and top. */
    method MallocLarge(nb: nat) returns (r: Option<nat>)
      requires Valid() && !IsSmall(nb) && nb % ALIGN == 0 && SizeT(nb)
      modifies this
      ensures Valid()
      ensures r == None ==> H() == old(H()) && (if nb <= dvsize then FitsFrom(H(), nb, dvsize) else NoneFiled(H(), nb))
      ensures r != None ==> Handed(old(Live(mem)), Live(mem), r.value, nb) && Policy(old(H()), r.value, nb)
    {
      hide HeapOk, Live, Handed, FitsFrom, NoneFiled, Policy, OnBins, BestOf, Filed, SizeT, Bins, SmallOk, Count,
           FreeOf, Sizes;
      LengthOk(H());
      LargeFits(H(), nb);
      if files.treemap == {} {
        NoTries(H(), nb);
        NoneFits(H(), nb, dvsize);
        return None;
      }
      VictimSizeT(H());
      var v := TmallocLarge(files.trees, files.treemap, nb, dvsize);
      if v == Nil {
        VictimFits(H(), nb);
        return None;
      }
      FromTries(H(), nb, v);
      FiledCount(files, v);
      PolicyFiled(H(), v.ring[0], v.size, nb);
      CarveToFile(v.ring[0], v.size, nb);
      r := Some(v.ring[0]);
    }

    /** mspace_free: the chunk joins its free neighbours, and what results is victim, top or on file. */
    method Free(ptr: Option<nat>)
      requires Valid() && (ptr != None ==> ptr.value in Live(mem))
      modifies this
      ensures Valid()
      ensures Live(mem) == if ptr == None then old(Live(mem)) else old(Live(mem)) - {ptr.value}
    {
      if ptr == None {
        return;
      }
      hide Layout, FilesOk, Count, Adds, OnFile, Release, VictimOk, Run, FiledOutside;
      var p := ptr.value;
      ghost var h := H();
      OwnRun(h, p);
      var q, psize := p, mem[p].size;
      var next := p + psize;
      NextTag(h, p);
      VictimOutside(h, p);
      if !mem[p].pinuse {
        var prevsize := mem[p].prevFoot;
        ghost var prev := UsedBack(mem, base, limit, top, p);
        assert prev == p - prevsize;
        q, psize := p - prevsize, psize + prevsize;
        if q != dv {
          FreeOnFile(h, q, prevsize);
          UnlinkChunk(q, prevsize);
          ExtendBack(h, p, p, next, h.files, files, q);
          VictimStays(h, p, q);
        } else {
          ExtendBack(h, p, p, next, h.files, files, q);
          if mem[next].cinuse && mem[next].pinuse {
            dvsize := psize;
            mem := Release(mem, q, psize);
            Merged(h, p, q, psize, h.files, H());
            return;
          }
        }
      }
      RunInside(h, p, q, next);
      ConsolidateForward(q, psize, h, p);
    }

    /** The part of mspace_free that looks at the following chunk. */
    method ConsolidateForward(q: nat, psize: nat, ghost h: Heap, ghost p: nat)
      requires HeapOk(h) && FilesOk(files) && H() == h.(files := files)
      requires Run(h, p, q, q + psize) && FiledOutside(h, files, q, q + psize) && q in mem && mem[q].pinuse
      requires q + psize in mem && (q == dv ==> !mem[q + psize].cinuse) && (q != dv ==> !(q <= dv < q + psize))
      modifies this
      ensures Valid() && Live(mem) == Live(h.mem) - {p}
    {
      hide Layout, FilesOk, Count, Adds, OnFile, Release, ReleaseTop, VictimOk, Run, FiledOutside, Live;
      var next := q + psize;
      if !mem[next].cinuse {
        if next == top {
          TopFacts(h);
          VictimBelow(h, q);
          topsize := topsize + psize;
          mem := ReleaseTop(mem, q, limit);
          top := q;
          ghost var f := files;
          if q == dv {
            dv, dvsize := 0, 0;
          }
          MergedTop(h, p, q, f, H());
        } else if next == dv {
          FreeAfter(h, next);
          ExtendForward(h, p, q, next, files, files);
          dvsize := dvsize + psize;
          dv := q;
          mem := Release(mem, q, dvsize);
          Merged(h, p, q, dvsize, files, H());
        } else {
          var nsize := mem[next].size;
          FreeAfter(h, next);
          ghost var f := files;
          OutsideOnFile(h, files, q, next);
          UnlinkChunk(next, nsize);
          ExtendForward(h, p, q, next, f, files);
          RunSize(h, q, next + nsize);
          f := files;
          VictimAfter(h, q, next);
          mem := Release(mem, q, psize + nsize);
          if q == dv {
            dvsize := psize + nsize;
          } else {
            InsertChunk(q, psize + nsize);
          }
          Merged(h, p, q, psize + nsize, f, H());
        }
      } else {
        RunInside(h, p, q, next);
        RunSize(h, q, next);
        ghost var f := files;
        mem := Release(mem, q, psize);
        InsertChunk(q, psize);
        Merged(h, p, q, psize, f, H());
      }
    }
  }

  // ---- the cases of Malloc ----

  lemma MarkedSmall(f: Files, i: nat)
    requires FilesOk(f) && i in f.smallmap
    ensures i < NSMALLBINS
  {
  }

  lemma PolicySmall(h: Heap, nb: nat, i: nat)
    requires IsSmall(nb) && nb <= 8 * i <= nb + 8 && FitsFrom(h, nb, 8 * i)
    ensures forall p: nat :: OnBins(h, p, 8 * i) ==> Policy(h, p, nb)
  {
  }

  lemma PolicyFiled(h: Heap, p: nat, s: nat, nb: nat)
    requires HeapOk(h) && Count(h.files, Chunk(p, s)) > 0 && nb <= s && FitsFrom(h, nb, s)
    requires nb <= h.dvsize ==> !IsSmall(nb) && s < h.dvsize
    ensures Policy(h, p, nb)
  {
    hide Layout, FilesOk, Count, OnFile;
    FiledIsFree(h, p, s);
  }

  lemma NoneFits(h: Heap, nb: nat, x: nat)
    requires NoneFiled(h, nb)
    ensures FitsFrom(h, nb, x)
  {
  }

  lemma VictimSizeT(h: Heap)
    requires HeapOk(h)
    ensures SizeT(h.dvsize) && h.dvsize + 1 < h.limit
  {
    hide Layout, FilesOk, OnFile, Pow2;
    TopFacts(h);
    if h.dvsize != 0 { FreeFacts(h, h.dv, h.dvsize); }
  }

  /** tmalloc_large left the request to the victim, or found nothing. */
  lemma VictimFits(h: Heap, nb: nat)
    requires HeapOk(h) && FitsFrom(h, nb, 8 * NSMALLBINS)
    requires nb <= h.dvsize ==>
               forall i, x :: 0 <= i < |h.files.trees| && x in Sizes(h.files.trees[i]) && nb <= x ==> h.dvsize <= x
    requires h.dvsize < nb ==> forall i, x :: 0 <= i < |h.files.trees| && x in Sizes(h.files.trees[i]) ==> x < nb
    ensures if nb <= h.dvsize then FitsFrom(h, nb, h.dvsize) else NoneFiled(h, nb)
  {
    hide HeapOk, FreeOf, TreeIndex, Sizes;
    LengthOk(h);
    forall a: nat, s: nat | OnBins(h, a, s) && nb <= s
      ensures nb <= h.dvsize && h.dvsize <= s
    {
      FiledSmall(h, a, s);
    }
  }

  lemma TooLarge(h: Heap, nb: nat)
    requires HeapOk(h) && nb == Pow2(SIZE_BITS) - 1
    ensures forall a: nat, s: nat :: FreeOf(h.mem, a, s, h.top) ==> s < nb
    ensures h.dvsize < nb && h.topsize <= nb
  {
    hide Layout, FilesOk, OnFile, Pow2;
    VictimSizeT(h);
    TopFacts(h);
    forall a: nat, s: nat | FreeOf(h.mem, a, s, h.top)
      ensures s < nb
    {
      FreeFacts(h, a, s);
    }
  }

  lemma PolicyVictim(h: Heap, nb: nat)
    requires HeapOk(h) && nb <= h.dvsize && 0 < nb && FitsFrom(h, nb, if IsSmall(nb) then NotExact(nb) else h.dvsize)
    ensures Policy(h, h.dv, nb)
  {
    hide Layout, FilesOk, OnFile;
  }

  lemma PolicyTop(h: Heap, nb: nat)
    requires NoneFiled(h, nb) && h.dvsize < nb
    ensures Policy(h, h.top, nb)
  {
  }

  lemma NothingFits(h: Heap, nb: nat)
    requires HeapOk(h) && NoneFiled(h, nb) && h.dvsize < nb
    ensures forall a: nat, s: nat :: FreeOf(h.mem, a, s, h.top) ==> s < nb
  {
    hide Layout, FilesOk, OnFile;
    forall a: nat, s: nat | FreeOf(h.mem, a, s, h.top)
      ensures s < nb
    {
      FreeFacts(h, a, s);
      if a != h.dv { assert OnBins(h, a, s); }
    }
  }

  // ---- the cases of Free ----

  lemma NextTag(h: Heap, p: nat)
    requires HeapOk(h) && p in h.mem && h.mem[p].cinuse && End(h.mem, p) in h.mem
    ensures h.mem[End(h.mem, p)].pinuse
  {
    assert Tagged(h.mem, p, h.top);
  }

  /** The victim does not lie in a chunk in use. */
  lemma VictimOutside(h: Heap, p: nat)
    requires HeapOk(h) && p in h.mem && h.mem[p].cinuse
    ensures !(p <= h.dv < End(h.mem, p))
  {
    hide Placed, Tagged, FilesOk, OnFile, Apart;
    NoChunkAtZero(h);
    PlacedFacts(h.mem, p, h.base, h.limit, h.top);
    if h.dv in h.mem && p <= h.dv < End(h.mem, p) { ApartInside(h.mem, p, h.dv); }
  }

  lemma VictimStays(h: Heap, p: nat, q: nat)
    requires HeapOk(h) && q in h.mem && p == End(h.mem, q) && q != h.dv && p in h.mem && !(p <= h.dv < End(h.mem, p))
    ensures !(q <= h.dv < End(h.mem, p))
  {
    hide Placed, Tagged, FilesOk, OnFile, Apart;
    NoChunkAtZero(h);
    PlacedFacts(h.mem, q, h.base, h.limit, h.top);
    if h.dv in h.mem && q <= h.dv < p { ApartInside(h.mem, q, h.dv); }
  }

  lemma VictimAfter(h: Heap, q: nat, next: nat)
    requires HeapOk(h) && q in h.mem && next in h.mem && next != h.dv && (q != h.dv ==> !(q <= h.dv < next))
    ensures q != h.dv ==> !(q <= h.dv < End(h.mem, next))
  {
    hide Placed, Tagged, FilesOk, OnFile, Apart;
    NoChunkAtZero(h);
    PlacedFacts(h.mem, q, h.base, h.limit, h.top);
    if h.dv in h.mem && next <= h.dv < End(h.mem, next) { ApartInside(h.mem, next, h.dv); }
  }

  lemma VictimBelow(h: Heap, q: nat)
    requires HeapOk(h) && q in h.mem
    ensures q <= h.limit
  {
    hide Placed, Tagged, FilesOk, OnFile, Apart, VictimOk;
    PlacedFacts(h.mem, q, h.base, h.limit, h.top);
  }

  lemma FreeOnFile(h: Heap, a: nat, s: nat)
    requires HeapOk(h) && FreeOf(h.mem, a, s, h.top) && a != h.dv
    ensures Count(h.files, Chunk(a, s)) > 0
  {
    hide Layout, FilesOk, Count;
  }

  lemma OutsideOnFile(h: Heap, f: Files, q: nat, n: nat)
    requires FilesOk(f) && FiledOutside(h, f, q, n) && Free(h.mem, n, h.top) && n != h.dv
    ensures Count(f, Chunk(n, h.mem[n].size)) > 0
  {
    hide FilesOk, Count;
    assert FreeOf(h.mem, n, h.mem[n].size, h.top);
  }

  lemma FreeAfter(h: Heap, n: nat)
    requires HeapOk(h) && Free(h.mem, n, h.top)
    ensures End(h.mem, n) in h.mem && h.mem[End(h.mem, n)].cinuse && (n == h.dv ==> h.dvsize == h.mem[n].size)
  {
    hide Layout, FilesOk, OnFile;
    FreeNext(h.mem, h.base, h.limit, h.top, n);
    FreeFacts(h, n, h.mem[n].size);
  }

  lemma RunSize(h: Heap, q: nat, n: nat)
    requires HeapOk(h) && q in h.mem && n in h.mem && q < n
    ensures (n - q) % 8 == 0 && SizeT(n - q)
  {
    hide Placed, Tagged, FilesOk, OnFile, Apart, VictimOk;
    PlacedFacts(h.mem, q, h.base, h.limit, h.top);
    PlacedFacts(h.mem, n, h.base, h.limit, h.top);
  }

  lemma RunInside(h: Heap, p: nat, q: nat, n: nat)
    requires Run(h, p, q, n)
    ensures q in h.mem && q < n
  {
  }

  lemma SmallSize(f: Files, p: nat, s: nat)
    requires FilesOk(f) && IsSmall(s) && Count(f, Chunk(p, s)) > 0
    ensures s % 8 == 0
  {
  }

  lemma OneChunk(h: Heap)
    requires 0 < h.base < h.limit && h.base % ALIGN == 0 && h.limit % ALIGN == 0 && SizeT(h.limit)
    requires h.mem == map[h.base := Head(h.limit - h.base, false, true, 0)] && h.top == h.base
    requires h.topsize == h.limit - h.base && h.dv == 0 && h.dvsize == 0
    requires FilesOk(h.files) && forall c :: Count(h.files, c) == 0
    ensures HeapOk(h) && Live(h.mem) == map[]
  {
    hide FilesOk, Count;
  }

  lemma EmptyFiles(f: Files)
    requires f == Files(seq(NSMALLBINS, _ => []), {}, seq(NTREEBINS, _ => Nil), {})
    ensures FilesOk(f) && forall c :: Count(f, c) == 0
  {
    hide TreeIndex;
    forall i | 0 <= i < NTREEBINS
      ensures Bin(f.trees[i], i)
    {
      NilForms(BinLow(i), BinBits(i));
    }
  }
}
