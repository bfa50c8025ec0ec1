/**
  Finding the best fitting large chunk: tmalloc_large and tmalloc_small
  (libopen-mx/dlmalloc.c).  The search looks at one path of one trie, at the
  deepest right subtree it passed by, and at no more than one further bin.
*/
module BestFit {
  import opened Powers
  import opened TreeBins
  import opened Tries

  /** size_t subtraction */
  function WrapSub(a: nat, b: nat): nat
    requires SizeT(a) && SizeT(b)
  {
    if b <= a then a - b else Pow2(SIZE_BITS) + a - b
  }

  /** The bin array and its bitmap; the bitmap is the set of its marked positions. */
  ghost predicate Bins(bins: seq<Tree>, treemap: set<nat>) {
    && |bins| == NTREEBINS
    && (forall i :: 0 <= i < NTREEBINS ==> Bin(bins[i], i))
    && (forall i :: i in treemap <==> 0 <= i < NTREEBINS && bins[i] != Nil)
  }

  /** A bin holds a trie of sizes that belong to it. */
  ghost predicate Bin(t: Tree, i: nat)
    requires i < NTREEBINS
  {
    Trie(t, BinLow(i), BinBits(i)) && forall s :: s in Sizes(t) ==> MinSize(i) <= s && SizeT(s)
  }

  ghost predicate Better(v: Tree, x: nat) {
    v != Nil && v.size <= x
  }

  /** Something in the tree is no larger than x. */
  ghost predicate Dominates(t: Tree, x: nat) {
    exists y :: y in Sizes(t) && y <= x
  }

  /** The best node so far and the remainder it would leave. */
  ghost predicate Candidate(v: Tree, rsize: nat, nb: nat) {
    if v == Nil then nb + rsize == Pow2(SIZE_BITS) else nb <= v.size && rsize == v.size - nb
  }

  /** A node is taken exactly when it fits and leaves less. */
  lemma Taking(t: Tree, v: Tree, rsize: nat, nb: nat)
    requires t != Nil && SizeT(t.size) && SizeT(nb) && 0 < nb && 0 < t.size && Candidate(v, rsize, nb)
    requires v != Nil ==> SizeT(v.size)
    ensures WrapSub(t.size, nb) < rsize <==> nb <= t.size && !Better(v, t.size)
  {
  }

  ghost predicate AllAtLeast(t: Tree, lo: nat) {
    forall s :: s in Sizes(t) ==> lo <= s
  }

  ghost predicate AllSizeT(t: Tree) {
    forall s :: s in Sizes(t) ==> SizeT(s) && 0 < s
  }

  /** A subtree files nothing that the tree does not. */
  ghost predicate Within(t: Tree, start: Tree) {
    Sizes(t) <= Sizes(start) && Chunks(t) <= Chunks(start)
  }

  /** The chunk at the head of v's ring is filed in the tree. */
  ghost predicate Holds(t: Tree, v: Tree)
    requires v != Nil
  {
    v.ring != [] && v.size in Sizes(t) && Chunk(v.ring[0], v.size) in Chunks(t)
  }

  lemma NodeHolds(t: Tree, lo: nat, k: nat, start: Tree)
    requires t != Nil && Trie(t, lo, k) && Within(t, start)
    ensures Holds(start, t) && Within(t.left, start) && Within(t.right, start)
  {
    hide Trie, Sizes, Chunks, RingChunks, Pow2;
    TrieNode(t, lo, k);
    SizesNode(t);
    ChunksNode(t);
    RingMember(t.ring, t.size, t.ring[0], t.size);
  }

  /** The walk to the leftmost leaf sees the smallest size of a subtree. */
  method Leftmost(start: Tree, nb: nat, v0: Tree, rsize0: nat, ghost lo0: nat, ghost k0: nat) returns (v: Tree)
    requires Trie(start, lo0, k0) && AllSizeT(start) && SizeT(nb) && 0 < nb
    requires Candidate(v0, rsize0, nb) && (v0 != Nil ==> SizeT(v0.size))
    requires AllAtLeast(start, nb) || (v0 != Nil && v0.size == nb)
    ensures v == v0 || (v != Nil && Holds(start, v))
    ensures v != Nil ==> nb <= v.size
    ensures forall x :: Better(v0, x) || (nb <= x && Dominates(start, x)) ==> Better(v, x)
  {
    hide Trie, Sizes, Chunks, Pow2, WrapSub, SizeT;
    var t: Tree, rsize: nat := start, rsize0;
    ghost var lo: nat, k: nat := lo0, k0;
    v := v0;
    NilForms(lo, k);
    while t != Nil
      invariant Trie(t, lo, k) && Within(t, start)
      invariant Candidate(v, rsize, nb) && (v != Nil ==> SizeT(v.size))
      invariant v == v0 || (v != Nil && Holds(start, v))
      invariant AllAtLeast(start, nb) || (v != Nil && v.size == nb)
      invariant forall x :: Better(v0, x) || (nb <= x && Dominates(start, x)) ==> Better(v, x) || Dominates(t, x)
      decreases t
    {
      TrieNode(t, lo, k);
      SizesNode(t);
      NodeHolds(t, lo, k, start);
      Taking(t, v, rsize, nb);
      var trem := WrapSub(t.size, nb);
      if trem < rsize {
        rsize := trem;
        v := t;
        Remainder(t.size, nb);
      }
      Descend(t, lo, k, nb, v);
      if k != 0 {
        lo, k := if t.left != Nil then lo else lo + Pow2(k - 1), k - 1;
      }
      t := if t.left != Nil then t.left else t.right;
      NilForms(lo, k);
    }
  }

  lemma Remainder(s: nat, nb: nat)
    requires SizeT(s) && SizeT(nb) && nb <= s
    ensures WrapSub(s, nb) == s - nb
  {
  }

  /** Going to the leftmost child loses nothing that the node or that child does not cover. */
  lemma Descend(t: Tree, lo: nat, k: nat, nb: nat, v: Tree)
    requires t != Nil && Trie(t, lo, k)
    requires nb <= t.size ==> Better(v, t.size)
    ensures var next := if t.left != Nil then t.left else t.right;
            forall x :: nb <= x && Dominates(t, x) && (AllAtLeast(t, nb) || Better(v, nb)) ==>
                Better(v, x) || Dominates(next, x)
  {
    hide Trie, Sizes, Pow2;
    TrieNode(t, lo, k);
    SizesNode(t);
    NilForms(lo, k);
    var next := if t.left != Nil then t.left else t.right;
    forall x | nb <= x && Dominates(t, x) && (AllAtLeast(t, nb) || Better(v, nb))
      ensures Better(v, x) || Dominates(next, x)
    {
      if !Better(v, nb) {
        var y :| y in Sizes(t) && y <= x;
        if y in Sizes(t.right) && t.left != Nil {
          TrieRange(t.left, lo, k - 1);
          TrieRange(t.right, lo + Pow2(k - 1), k - 1);
          SizesNode(t.left);
          assert t.left.size in Sizes(t.left) && t.left.size <= y;
        }
      }
    }
  }

  /** What a search of the bin of nb leaves to look at: everything that fits is covered. */
  ghost predicate Covers(start: Tree, v: Tree, t: Tree, nb: nat) {
    forall x :: x in Sizes(start) && nb <= x ==> Better(v, x) || Dominates(t, x)
  }

  /**
    The first loop of tmalloc_large: follow the bits of nb, remember the deepest
    right subtree not taken.
  */
  method SearchBin(start: Tree, nb: nat, shift: nat, ghost lo0: nat)
    returns (v: Tree, rsize: nat, t: Tree, ghost tlo: nat, ghost tk: nat)
    requires shift <= SIZE_BITS && Trie(start, lo0, SIZE_BITS - shift) && AllSizeT(start) && SizeT(nb) && 0 < nb
    requires Mod(lo0, Pow2(SIZE_BITS - shift)) == 0 && lo0 <= nb < lo0 + Pow2(SIZE_BITS - shift)
    ensures Candidate(v, rsize, nb)
    ensures v != Nil ==> Holds(start, v)
    ensures Trie(t, tlo, tk) && Within(t, start)
    ensures AllAtLeast(t, nb) || (v != Nil && v.size == nb)
    ensures Covers(start, v, t, nb)
  {
    hide Trie, Sizes, Chunks, Pow2, Mod, WrapSub, SizeT, Aligned, TopBit, Shl1;
    t, v := start, Nil;
    PowPositive(nb);
    rsize := Pow2(SIZE_BITS) - nb;
    var sizebits := Aligned(nb, SIZE_BITS - shift);
    var rst := Nil;
    tlo, tk := lo0, SIZE_BITS - shift;
    ghost var lo: nat, k: nat := lo0, SIZE_BITS - shift;
    NilForms(lo, k);
    if t == Nil {
      return;
    }
    while true
      invariant t != Nil && Trie(t, lo, k) && Within(t, start)
      invariant k <= SIZE_BITS && Mod(lo, Pow2(k)) == 0 && lo <= nb < lo + Pow2(k)
      invariant sizebits == Aligned(nb, k)
      invariant Candidate(v, rsize, nb) && (v != Nil ==> Holds(start, v))
      invariant Trie(rst, tlo, tk) && Within(rst, start) && AllAtLeast(rst, lo + Pow2(k))
      invariant forall x :: x in Sizes(start) && nb <= x ==> Better(v, x) || x in Sizes(t) || Dominates(rst, x)
      decreases t
    {
      TrieNode(t, lo, k);
      SizesNode(t);
      NodeHolds(t, lo, k, start);
      Taking(t, v, rsize, nb);
      var trem := WrapSub(t.size, nb);
      if trem < rsize {
        Remainder(t.size, nb);
        v := t;
        rsize := trem;
        if rsize == 0 {
          tlo, tk := lo, k;
          return;
        }
      }
      Turn(t, v, rst, lo, k, nb);
      var rt := t.right;
      var next := if TopBit(sizebits) then t.right else t.left;
      if rt != Nil && rt != next {
        rst := rt;
        tlo, tk := lo + Pow2(k - 1), k - 1;
      }
      if next == Nil {
        t := rst;
        return;
      }
      AlignedNext(nb, k);
      if TopBit(sizebits) {
        lo := lo + Pow2(k - 1);
      }
      t, sizebits, k := next, Shl1(sizebits), k - 1;
    }
  }

  lemma PowPositive(nb: nat)
    requires SizeT(nb)
    ensures nb < Pow2(SIZE_BITS)
  {
  }

  /** The two subtrees after following one bit of nb. */
  function Next(t: Tree, right: bool): Tree
    requires t != Nil
  {
    if right then t.right else t.left
  }

  function Passed(t: Tree, right: bool, rst: Tree): Tree
    requires t != Nil
  {
    if t.right != Nil && t.right != Next(t, right) then t.right else rst
  }

  /** One turn of the search loop loses no size that fits. */
  lemma Turn(t: Tree, v: Tree, rst: Tree, lo: nat, k: nat, nb: nat)
    requires t != Nil && Trie(t, lo, k) && (nb <= t.size ==> Better(v, t.size))
    requires k <= SIZE_BITS && Mod(lo, Pow2(k)) == 0 && lo <= nb < lo + Pow2(k)
    requires AllAtLeast(rst, lo + Pow2(k))
    ensures var right := TopBit(Aligned(nb, k)); var next := Next(t, right); var rst' := Passed(t, right, rst);
            && (next != Nil || rst' != rst ==> k != 0)
            && (next != Nil ==> var lo' := if right then lo + Pow2(k - 1) else lo;
                 && Trie(next, lo', k - 1) && Mod(lo', Pow2(k - 1)) == 0 && lo' <= nb < lo' + Pow2(k - 1)
                 && AllAtLeast(rst', lo' + Pow2(k - 1)))
            && (rst' != rst ==> Trie(rst', lo + Pow2(k - 1), k - 1))
            && (rst' == rst || rst' == t.right)
            && AllAtLeast(rst', nb)
            && Sizes(next) <= Sizes(t)
            && (forall x :: x in Sizes(t) && nb <= x ==> Better(v, x) || x in Sizes(next) || Dominates(rst', x))
            && (forall x :: Dominates(rst, x) ==> Dominates(rst', x))
  {
    hide Trie, Sizes, Pow2, Mod, Aligned, TopBit;
    TrieNode(t, lo, k);
    SizesNode(t);
    NilForms(lo, k);
    if k != 0 {
      PowHalf(k);
      TopBitIsHalf(nb, lo, k);
      HalfAligned(lo, k);
      TrieRange(t.left, lo, k - 1);
      TrieRange(t.right, lo + Pow2(k - 1), k - 1);
      if t.left != Nil { SizesNode(t.left); }
      if t.right != Nil {
        SizesNode(t.right);
        assert t.right.size in Sizes(t.right);
        assert forall x :: Dominates(rst, x) ==> t.right.size <= x;
      }
    }
  }

  /** The first marked bin from i on, NTREEBINS if none: least_bit and compute_bit2idx on the bitmap. */
  function LeastFrom(treemap: set<nat>, i: nat): (j: nat)
    ensures i <= j && (j < NTREEBINS ==> j in treemap)
    ensures forall m :: i <= m < j && m < NTREEBINS ==> m !in treemap
    decreases NTREEBINS - i
  {
    if NTREEBINS <= i || i in treemap then i else LeastFrom(treemap, i + 1)
  }

  /** v is the head of a ring in some bin. */
  ghost predicate Filed(bins: seq<Tree>, v: Tree) {
    v != Nil && exists i :: 0 <= i < |bins| && Holds(bins[i], v)
  }

  /** No filed chunk that is large enough is smaller than v; if v is Nil, none is large enough. */
  ghost predicate BestOf(bins: seq<Tree>, nb: nat, v: Tree) {
    forall i, x :: 0 <= i < |bins| && x in Sizes(bins[i]) && nb <= x ==> Better(v, x)
  }

  /** Sizes of later bins are larger. */
  lemma BinOrder(bins: seq<Tree>, treemap: set<nat>, i: nat, j: nat, x: nat, y: nat)
    requires Bins(bins, treemap) && i < j < NTREEBINS && x in Sizes(bins[i]) && y in Sizes(bins[j])
    ensures x < MinSize(j) <= y
  {
    hide Trie, Sizes, MinSize, SizeT;
    assert Bin(bins[i], i) && Bin(bins[j], j);
    TrieRange(bins[i], BinLow(i), BinBits(i));
    BinRange(i);
    MinSizeMonotone(i + 1, j);
  }

  lemma BinFacts(bins: seq<Tree>, treemap: set<nat>, i: nat)
    requires Bins(bins, treemap) && i < NTREEBINS
    ensures Trie(bins[i], BinLow(i), BinBits(i)) && AllSizeT(bins[i]) && AllAtLeast(bins[i], MinSize(i))
  {
    hide Trie, Sizes, SizeT;
    assert Bin(bins[i], i);
    Pow2Monotone(0, i / 2 + 8);
  }

  /** The bin of nb is the place to start: nb lies in its range. */
  lemma StartBin(nb: nat)
    requires 0x100 <= nb && SizeT(nb)
    ensures var i := TreeIndex(nb);
            && i < NTREEBINS
            && BinLow(i) <= nb < BinLow(i) + Pow2(BinBits(i))
            && MinSize(i) <= nb
            && Mod(BinLow(i), Pow2(BinBits(i))) == 0
            && LeftShift(i) <= SIZE_BITS && SIZE_BITS - LeftShift(i) == BinBits(i)
            && (i < NTREEBINS - 1 ==> nb < MinSize(i + 1))
  {
    hide TreeIndex, MinSize, Pow2, Mod;
    TreeIndexCorrect(nb);
    BinRange(TreeIndex(nb));
  }

  ghost predicate NoneBelow(bins: seq<Tree>, i: nat, nb: nat) {
    forall j, x :: 0 <= j < i && j < |bins| && x in Sizes(bins[j]) ==> x < nb
  }

  /** The best chunk of the first bin that has one is the best of all. */
  lemma Conclude(bins: seq<Tree>, treemap: set<nat>, nb: nat, i: nat, v: Tree)
    requires Bins(bins, treemap) && i < NTREEBINS && NoneBelow(bins, i, nb)
    requires v != Nil && Holds(bins[i], v)
    requires forall x :: x in Sizes(bins[i]) && nb <= x ==> Better(v, x)
    ensures BestOf(bins, nb, v) && Filed(bins, v)
  {
    hide Trie, Sizes, MinSize, Bin;
    forall j, x | 0 <= j < |bins| && x in Sizes(bins[j]) && nb <= x
      ensures Better(v, x)
    {
      if j > i { BinOrder(bins, treemap, i, j, v.size, x); }
    }
  }

  lemma BelowStart(bins: seq<Tree>, treemap: set<nat>, nb: nat, idx: nat)
    requires Bins(bins, treemap) && idx < NTREEBINS && MinSize(idx) <= nb
    ensures NoneBelow(bins, idx, nb)
  {
    hide Trie, Sizes, MinSize, SizeT, Bins;
    forall j, x | 0 <= j < idx && j < |bins| && x in Sizes(bins[j])
      ensures x < nb
    {
      BinBelow(bins, treemap, j, idx, x);
    }
  }

  lemma BinBelow(bins: seq<Tree>, treemap: set<nat>, i: nat, j: nat, x: nat)
    requires Bins(bins, treemap) && i < j < NTREEBINS && x in Sizes(bins[i])
    ensures x < MinSize(j)
  {
    hide Trie, Sizes, MinSize, SizeT;
    assert Bin(bins[i], i);
    TrieRange(bins[i], BinLow(i), BinBits(i));
    BinRange(i);
    MinSizeMonotone(i + 1, j);
  }

  /** The bins that are skipped are empty. */
  lemma SkippedBins(bins: seq<Tree>, treemap: set<nat>, nb: nat, idx: nat, i: nat)
    requires Bins(bins, treemap) && idx < NTREEBINS && NoneBelow(bins, idx, nb) && i == LeastFrom(treemap, idx + 1)
    requires forall x :: x in Sizes(bins[idx]) ==> x < nb
    ensures NoneBelow(bins, i, nb)
  {
    hide Trie, Bin, LeastFrom;
    forall j | idx < j < i && j < |bins|
      ensures Sizes(bins[j]) == {}
    {
      assert j !in treemap;
      assert bins[j] == Nil;
    }
  }

  lemma SelfDominates(t: Tree)
    ensures forall x :: x in Sizes(t) ==> Dominates(t, x)
  {
    hide Sizes;
  }

  lemma HoldsWithin(t: Tree, start: Tree, v: Tree)
    requires v != Nil && Holds(t, v) && Within(t, start)
    ensures Holds(start, v)
  {
    hide Sizes, Chunks;
  }

  lemma WithinSizeT(t: Tree, start: Tree)
    requires Within(t, start) && AllSizeT(start)
    ensures AllSizeT(t)
  {
    hide Sizes, Chunks, SizeT;
  }

  lemma NothingDominates(x: nat)
    ensures !Dominates(Nil, x)
  {
  }

  /** The search of tmalloc_large: the smallest filed chunk of at least nb bytes. */
  method FindBestFit(bins: seq<Tree>, treemap: set<nat>, nb: nat) returns (v: Tree)
    requires Bins(bins, treemap) && 0x100 <= nb && SizeT(nb)
    ensures v != Nil ==> nb <= v.size && Filed(bins, v)
    ensures BestOf(bins, nb, v)
  {
    hide Trie, Sizes, Chunks, Pow2, Mod, TreeIndex, MinSize, SizeT, BinLow, BinBits, LeftShift, Holds, Within, Bin,
         AllSizeT;
    StartBin(nb);
    var idx := TreeIndex(nb);
    BinFacts(bins, treemap, idx);
    BelowStart(bins, treemap, nb, idx);
    var rsize, t;
    ghost var tlo, tk;
    v, rsize, t, tlo, tk := SearchBin(bins[idx], nb, LeftShift(idx), BinLow(idx));
    ghost var source := idx;
    if t == Nil && v == Nil {
      NothingIn(bins[idx], nb);
      var i := LeastFrom(treemap, idx + 1);
      SkippedBins(bins, treemap, nb, idx, i);
      if NTREEBINS <= i {
        return;
      }
      t := bins[i];
      source, tlo, tk := i, BinLow(i), BinBits(i);
      BinFacts(bins, treemap, i);
      NextFacts(bins[i], nb, idx, i);
    }
    ghost var v0 := v;
    WithinSizeT(t, bins[source]);
    if v != Nil { HeldSizeT(bins[source], v); }
    v := Leftmost(t, nb, v, rsize, tlo, tk);
    Finish(bins, treemap, nb, source, v0, t, v);
  }

  lemma HeldSizeT(t: Tree, v: Tree)
    requires v != Nil && Holds(t, v) && AllSizeT(t)
    ensures SizeT(v.size)
  {
    hide Sizes, Chunks, SizeT;
  }

  /** Everything in the next bin is large enough, and it is searched whole. */
  lemma NextFacts(t: Tree, nb: nat, idx: nat, i: nat)
    requires idx < i < NTREEBINS && nb < MinSize(idx + 1) && AllAtLeast(t, MinSize(i))
    ensures AllAtLeast(t, nb) && Within(t, t) && Covers(t, Nil, t, nb)
  {
    hide Sizes, Chunks, MinSize;
    MinSizeMonotone(idx + 1, i);
  }

  lemma Finish(bins: seq<Tree>, treemap: set<nat>, nb: nat, i: nat, v0: Tree, t: Tree, v: Tree)
    requires Bins(bins, treemap) && i < NTREEBINS && NoneBelow(bins, i, nb)
    requires Within(t, bins[i]) && Covers(bins[i], v0, t, nb) && (v0 != Nil ==> Holds(bins[i], v0))
    requires v0 != Nil || t != Nil
    requires AllAtLeast(t, nb) || (v0 != Nil && v0.size == nb)
    requires v0 != Nil ==> nb <= v0.size
    requires v == v0 || (v != Nil && Holds(t, v))
    requires forall x :: Better(v0, x) || (nb <= x && Dominates(t, x)) ==> Better(v, x)
    ensures BestOf(bins, nb, v) && Filed(bins, v)
  {
    hide Bin, Sizes, Chunks, Holds, Within, NoneBelow;
    if v0 == Nil {
      RootDominates(t);
      assert Better(v, t.size);
    }
    if v != v0 { HoldsWithin(t, bins[i], v); }
    Conclude(bins, treemap, nb, i, v);
  }

  lemma RootDominates(t: Tree)
    requires t != Nil
    ensures t.size in Sizes(t) && Dominates(t, t.size)
  {
    SizesNode(t);
  }

  lemma NothingIn(t: Tree, nb: nat)
    requires Covers(t, Nil, Nil, nb)
    ensures forall x :: x in Sizes(t) ==> x < nb
  {
    hide Sizes;
    forall x { NothingDominates(x); }
  }

  /**
    tmalloc_large: the best fit, unless the designated victim fits at least as
    well; then, or when nothing fits, Nil leaves the request to dv and top.
  */
  method TmallocLarge(bins: seq<Tree>, treemap: set<nat>, nb: nat, dvsize: nat) returns (v: Tree)
    requires Bins(bins, treemap) && 0x100 <= nb && SizeT(nb) && SizeT(dvsize)
    ensures v != Nil ==> nb <= v.size && Filed(bins, v) && BestOf(bins, nb, v) && (nb <= dvsize ==> v.size < dvsize)
    ensures v == Nil && nb <= dvsize ==>
              forall i, x :: 0 <= i < |bins| && x in Sizes(bins[i]) && nb <= x ==> dvsize <= x
    ensures v == Nil && dvsize < nb ==> forall i, x :: 0 <= i < |bins| && x in Sizes(bins[i]) ==> x < nb
  {
    hide Bins, Sizes;
    var best := FindBestFit(bins, treemap, nb);
    v := best;
    forall i, x | 0 <= i < |bins| && x in Sizes(bins[i]) && nb <= x
      ensures best != Nil && best.size <= x
    {
      assert Better(best, x);
    }
    if best != Nil {
      FiledSizeT(bins, treemap, best);
      if !(best.size - nb < WrapSub(dvsize, nb)) {
        assert nb <= dvsize <= best.size;
        v := Nil;
      }
    }
  }

  lemma FiledSizeT(bins: seq<Tree>, treemap: set<nat>, v: Tree)
    requires Bins(bins, treemap) && Filed(bins, v)
    ensures SizeT(v.size) && 0x100 <= v.size
  {
    hide Trie, Sizes, Chunks, SizeT;
    var i :| 0 <= i < |bins| && Holds(bins[i], v);
    BinFacts(bins, treemap, i);
    Pow2Monotone(8, i / 2 + 8);
    Pow2Values();
  }

  /** tmalloc_small: every filed chunk is large enough, so the smallest of the first bin is the best fit. */
  method TmallocSmall(bins: seq<Tree>, treemap: set<nat>, nb: nat) returns (v: Tree)
    requires Bins(bins, treemap) && treemap != {} && 0 < nb < 0x100 && SizeT(nb)
    ensures v != Nil && nb <= v.size && Filed(bins, v) && BestOf(bins, nb, v)
  {
    hide Trie, Sizes, Chunks, Pow2, MinSize, SizeT, BinLow, Holds, Within, Bin, AllSizeT;
    var i := LeastFrom(treemap, 0);
    assert i < NTREEBINS by { var m :| m in treemap; }
    EmptyBins(bins, treemap, nb, i);
    BinFacts(bins, treemap, i);
    MinSizeAtLeast(i);
    var t := bins[i];
    SmallStart(t, nb, BinLow(i), BinBits(i));
    v := Leftmost(if t.left != Nil then t.left else t.right, nb, t, t.size - nb,
                  if t.left != Nil then BinLow(i) else BinLow(i) + Pow2(BinBits(i) - 1), BinBits(i) - 1);
    Finish(bins, treemap, nb, i, t, if t.left != Nil then t.left else t.right, v);
  }

  lemma MinSizeAtLeast(i: nat)
    ensures 0x100 <= MinSize(i)
  {
    Pow2Monotone(8, i / 2 + 8);
    Pow2Values();
  }

  lemma EmptyBins(bins: seq<Tree>, treemap: set<nat>, nb: nat, i: nat)
    requires Bins(bins, treemap) && i == LeastFrom(treemap, 0)
    ensures NoneBelow(bins, i, nb)
  {
    hide Trie, Bin, LeastFrom;
    forall j | 0 <= j < i && j < |bins|
      ensures Sizes(bins[j]) == {}
    {
      assert j !in treemap;
      assert bins[j] == Nil;
    }
  }

  /** The root is the first candidate, its leftmost child the next to look at. */
  lemma SmallStart(t: Tree, nb: nat, lo: nat, k: nat)
    requires t != Nil && Trie(t, lo, k) && AllSizeT(t) && AllAtLeast(t, nb) && 0 < k
    ensures var next := if t.left != Nil then t.left else t.right;
            && Holds(t, t) && Within(next, t) && Covers(t, t, next, nb)
            && nb <= t.size && SizeT(t.size)
            && AllAtLeast(next, nb) && AllSizeT(next)
            && Trie(next, if t.left != Nil then lo else lo + Pow2(k - 1), k - 1)
  {
    hide Trie, Sizes, Chunks, Pow2, SizeT, Within, Holds, Covers, AllSizeT;
    WithinSelf(t);
    NodeHolds(t, lo, k, t);
    TrieNode(t, lo, k);
    SizesNode(t);
    SmallCovers(t, nb, lo, k);
    HeldSizeT(t, t);
    var next := if t.left != Nil then t.left else t.right;
    WithinSizeT(next, t);
  }

  lemma SmallCovers(t: Tree, nb: nat, lo: nat, k: nat)
    requires t != Nil && Trie(t, lo, k) && AllAtLeast(t, nb)
    ensures Covers(t, t, if t.left != Nil then t.left else t.right, nb)
  {
    hide Trie, Sizes, Pow2, AllAtLeast;
    Descend(t, lo, k, nb, t);
    SelfDominates(t);
  }

  lemma WithinSelf(t: Tree)
    ensures Within(t, t)
  {
  }
}
