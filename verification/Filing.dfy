/**
  The free chunks on file: 32 lists of small chunks, one per size, and 32 tries of
  large ones, each with a bitmap of the bins in use (libopen-mx/dlmalloc.c).
*/
module Filing {
  import opened Powers
  import opened TreeBins
  import opened Tries
  import opened BestFit

  const NSMALLBINS := 32

  /** The bin arrays; a bitmap is the set of its marked positions. */
  datatype Files = Files(small: seq<seq<nat>>, smallmap: set<nat>, trees: seq<Tree>, treemap: set<nat>)

  /** is_small */
  predicate IsSmall(s: nat) {
    s / 8 < NSMALLBINS
  }

  ghost predicate SmallOk(small: seq<seq<nat>>, smallmap: set<nat>) {
    |small| == NSMALLBINS && forall i :: i in smallmap <==> 0 <= i < NSMALLBINS && small[i] != []
  }

  ghost predicate FilesOk(f: Files) {
    SmallOk(f.small, f.smallmap) && Bins(f.trees, f.treemap)
  }

  /** How often a chunk is on file, in the one bin its size allows. */
  ghost function Count(f: Files, c: Chunk): nat
    requires |f.small| == NSMALLBINS && |f.trees| == NTREEBINS
  {
    if IsSmall(c.size) then if c.size % 8 == 0 then multiset(f.small[c.size / 8])[c.addr] else 0
    else if TreeIndex(c.size) < NTREEBINS then Chunks(f.trees[TreeIndex(c.size)])[c]
    else 0
  }

  /** The change that filing or removing one chunk makes. */
  ghost predicate Adds(f: Files, c: Chunk, f': Files)
    requires FilesOk(f) && FilesOk(f')
  {
    forall d :: Count(f', d) == Count(f, d) + if d == c then 1 else 0
  }

  // ---- small bins ----

  /** insert_small_chunk: the new chunk comes first; an unmarked list counts as empty. */
  function InsertSmall(f: Files, p: nat, s: nat): Files
    requires IsSmall(s) && |f.small| == NSMALLBINS
  {
    var i := s / 8;
    f.(small := f.small[i := if i in f.smallmap then [p] + f.small[i] else [p]], smallmap := f.smallmap + {i})
  }

  lemma InsertSmallOk(f: Files, p: nat, s: nat)
    requires FilesOk(f) && IsSmall(s) && s % 8 == 0
    ensures FilesOk(InsertSmall(f, p, s)) && Adds(f, Chunk(p, s), InsertSmall(f, p, s))
  {
    hide Bins, Chunks, TreeIndex, Count;
    var f' := InsertSmall(f, p, s);
    var i := s / 8;
    assert f.small[i] == [] ==> i !in f.smallmap;
    assert f'.small[i] == [p] + f.small[i];
    SameTrees(f, f');
    OneBin(f, f', p, s);
  }

  /** Only the list of one size changes, by one chunk. */
  lemma OneBin(f: Files, f': Files, p: nat, s: nat)
    requires FilesOk(f) && FilesOk(f') && IsSmall(s) && s % 8 == 0
    requires multiset(f'.small[s / 8]) == multiset(f.small[s / 8]) + multiset{p}
    requires forall j :: 0 <= j < NSMALLBINS && j != s / 8 ==> f'.small[j] == f.small[j]
    ensures forall d: Chunk :: IsSmall(d.size) ==> Count(f', d) == Count(f, d) + if d == Chunk(p, s) then 1 else 0
  {
    hide Bins, Chunks, TreeIndex;
  }

  lemma SameTrees(f: Files, f': Files)
    requires FilesOk(f) && FilesOk(f') && f'.trees == f.trees
    ensures forall d: Chunk :: !IsSmall(d.size) ==> Count(f', d) == Count(f, d)
  {
  }

  lemma SameSmall(f: Files, f': Files)
    requires FilesOk(f) && FilesOk(f') && f'.small == f.small
    ensures forall d: Chunk :: IsSmall(d.size) ==> Count(f', d) == Count(f, d)
  {
  }

  /** unlink_small_chunk: the list without the chunk; the last one out clears the mark. */
  function UnlinkSmall(f: Files, p: nat, s: nat): Files
    requires IsSmall(s) && |f.small| == NSMALLBINS && p in f.small[s / 8]
  {
    var i := s / 8;
    var at := Find(f.small[i], p);
    if |f.small[i]| == 1 then f.(small := f.small[i := []], smallmap := f.smallmap - {i})
    else f.(small := f.small[i := f.small[i][..at] + f.small[i][at + 1..]])
  }

  lemma UnlinkSmallOk(f: Files, p: nat, s: nat)
    requires FilesOk(f) && IsSmall(s) && s % 8 == 0 && p in f.small[s / 8]
    ensures FilesOk(UnlinkSmall(f, p, s)) && Adds(UnlinkSmall(f, p, s), Chunk(p, s), f)
  {
    hide Bins, Chunks, TreeIndex, Count, Find;
    var f' := UnlinkSmall(f, p, s);
    var i := s / 8;
    var at := Find(f.small[i], p);
    CutBin(f.small[i], at);
    SameTrees(f, f');
    OneBin(f', f, p, s);
  }

  lemma CutBin(bin: seq<nat>, at: nat)
    requires at < |bin|
    ensures multiset(bin) == multiset(bin[..at] + bin[at + 1..]) + multiset{bin[at]}
    ensures |bin| == 1 ==> bin == [bin[at]] && at == 0
  {
    assert bin == bin[..at] + [bin[at]] + bin[at + 1..];
  }

  // ---- tree bins ----

  /** insert_large_chunk */
  function InsertLarge(f: Files, p: nat, s: nat): Files
    requires !IsSmall(s) && |f.trees| == NTREEBINS
  {
    TreeIndexCorrect(s);
    var i := TreeIndex(s);
    f.(trees := f.trees[i := if i in f.treemap then Insert(f.trees[i], s, p, Aligned(s, SIZE_BITS - LeftShift(i)))
                             else Node(s, [p], Nil, Nil)],
       treemap := f.treemap + {i})
  }

  lemma InsertBin(t: Tree, i: nat, p: nat, s: nat)
    requires !IsSmall(s) && SizeT(s) && i == TreeIndex(s) && i < NTREEBINS && Bin(t, i)
    ensures SIZE_BITS - LeftShift(i) == BinBits(i)
    ensures var t' := Insert(t, s, p, Aligned(s, BinBits(i)));
            t' != Nil && Bin(t', i) && Chunks(t') == Chunks(t) + multiset{Chunk(p, s)}
  {
    hide Trie, Sizes, Chunks, Aligned, TreeIndex, MinSize, SizeT, BinLow, BinBits, Mod, Pow2;
    StartBin(s);
    InsertTrie(t, s, p, BinLow(i), BinBits(i));
    InsertSizes(t, s, p, Aligned(s, BinBits(i)));
    InsertChunks(t, s, p, Aligned(s, BinBits(i)));
  }

  lemma InsertLargeOk(f: Files, p: nat, s: nat)
    requires FilesOk(f) && !IsSmall(s) && SizeT(s)
    ensures FilesOk(InsertLarge(f, p, s)) && Adds(f, Chunk(p, s), InsertLarge(f, p, s))
  {
    hide Chunks, TreeIndex, SizeT, Bin, SmallOk, Aligned, LeftShift;
    TreeIndexCorrect(s);
    var i := TreeIndex(s);
    var f' := InsertLarge(f, p, s);
    InsertBin(f.trees[i], i, p, s);
    assert f.trees[i] == Nil ==> i !in f.treemap;
    InsertNil(s, p, Aligned(s, BinBits(i)));
    SameSmall(f, f');
  }

  lemma InsertNil(s: nat, p: nat, word: nat)
    ensures Insert(Nil, s, p, word) == Node(s, [p], Nil, Nil)
  {
  }

  /** unlink_large_chunk: the last one out clears the mark. */
  function UnlinkLarge(f: Files, p: nat, s: nat): Files
    requires !IsSmall(s) && |f.trees| == NTREEBINS
  {
    TreeIndexCorrect(s);
    var i := TreeIndex(s);
    var t := Unlink(f.trees[i], s, p, Aligned(s, SIZE_BITS - LeftShift(i)));
    f.(trees := f.trees[i := t], treemap := if t == Nil then f.treemap - {i} else f.treemap)
  }

  lemma UnlinkBin(t: Tree, i: nat, p: nat, s: nat)
    requires i < NTREEBINS && Bin(t, i) && Chunk(p, s) in Chunks(t)
    ensures SIZE_BITS - LeftShift(i) == BinBits(i)
    ensures var t' := Unlink(t, s, p, Aligned(s, BinBits(i)));
            t != Nil && Bin(t', i) && Chunks(t) == Chunks(t') + multiset{Chunk(p, s)}
  {
    hide Trie, Sizes, Chunks, Aligned, MinSize, SizeT, BinLow, BinBits, Mod, Pow2;
    BinRange(i);
    NilForms(0, 0);
    UnlinkOk(t, s, p, BinLow(i), BinBits(i));
  }

  lemma UnlinkLargeOk(f: Files, p: nat, s: nat)
    requires FilesOk(f) && !IsSmall(s) && Count(f, Chunk(p, s)) > 0
    ensures FilesOk(UnlinkLarge(f, p, s)) && Adds(UnlinkLarge(f, p, s), Chunk(p, s), f)
  {
    hide Chunks, TreeIndex, SizeT, Bin, SmallOk, Aligned, LeftShift;
    TreeIndexCorrect(s);
    var i := TreeIndex(s);
    var f' := UnlinkLarge(f, p, s);
    UnlinkBin(f.trees[i], i, p, s);
    SameSmall(f, f');
  }

  // ---- what the files say ----

  /** A marked small bin has a first chunk, and it is on file. */
  lemma FirstSmall(f: Files, i: nat)
    requires FilesOk(f) && i in f.smallmap
    ensures i < NSMALLBINS && f.small[i] != [] && Count(f, Chunk(f.small[i][0], 8 * i)) > 0
  {
    hide Bins, Chunks, TreeIndex;
  }

  /** A small chunk is on file exactly if it is in the list of its size. */
  lemma SmallMember(f: Files, p: nat, s: nat)
    requires FilesOk(f) && IsSmall(s) && s % 8 == 0
    ensures Count(f, Chunk(p, s)) > 0 <==> p in f.small[s / 8]
  {
    hide Bins, Chunks, TreeIndex;
  }

  /** The head of a ring found by a search is on file. */
  lemma FiledCount(f: Files, v: Tree)
    requires FilesOk(f) && Filed(f.trees, v)
    ensures !IsSmall(v.size) && v.ring != [] && Count(f, Chunk(v.ring[0], v.size)) > 0
  {
    hide Trie, Sizes, Chunks, TreeIndex, MinSize, SizeT, BinLow, SmallOk;
    FiledSizeT(f.trees, f.treemap, v);
    var i :| 0 <= i < |f.trees| && Holds(f.trees[i], v);
    HomeBin(f.trees, f.treemap, i, v.size);
  }

  /** A size is found only in the bin that its index names. */
  lemma HomeBin(bins: seq<Tree>, treemap: set<nat>, i: nat, s: nat)
    requires Bins(bins, treemap) && i < NTREEBINS && s in Sizes(bins[i]) && 0x100 <= s
    ensures TreeIndex(s) == i
  {
    hide Trie, Sizes, TreeIndex, MinSize, SizeT;
    var j := TreeIndex(s);
    TreeIndexCorrect(s);
    assert Bin(bins[i], i);
    TrieRange(bins[i], BinLow(i), BinBits(i));
    BinRange(i);
    if j < i {
      MinSizeMonotone(j + 1, i);
    } else if i < j {
      MinSizeMonotone(i + 1, j);
    }
  }

  /** A large chunk on file is in one of the tries. */
  lemma LargeMember(f: Files, p: nat, s: nat)
    requires FilesOk(f) && !IsSmall(s) && Count(f, Chunk(p, s)) > 0
    ensures TreeIndex(s) < NTREEBINS && s in Sizes(f.trees[TreeIndex(s)]) && f.treemap != {}
  {
    hide Trie, Sizes, Chunks, TreeIndex, Bin, SmallOk;
    ChunkSize(f.trees[TreeIndex(s)], Chunk(p, s));
    NilForms(0, 0);
    assert TreeIndex(s) in f.treemap;
  }
}
