/**
  The bitwise tries that hold large free chunks, one per bin, keyed on chunk
  size (libopen-mx/dlmalloc.c).  A node stands for all free chunks of one size:
  the head of its ring is the chunk that is linked into the tree.
*/
module Tries {
  import opened Powers
  import opened TreeBins

  datatype Chunk = Chunk(addr: nat, size: nat)

  datatype Tree = Nil | Node(size: nat, ring: seq<nat>, left: Tree, right: Tree)

  function Sizes(t: Tree): set<nat> {
    if t == Nil then {} else {t.size} + Sizes(t.left) + Sizes(t.right)
  }

  function RingChunks(ring: seq<nat>, size: nat): multiset<Chunk> {
    if ring == [] then multiset{} else multiset{Chunk(ring[0], size)} + RingChunks(ring[1..], size)
  }

  /** Every chunk filed in the tree. */
  function Chunks(t: Tree): multiset<Chunk> {
    if t == Nil then multiset{} else RingChunks(t.ring, t.size) + Chunks(t.left) + Chunks(t.right)
  }

  function Depth(t: Tree): nat {
    if t == Nil then 0
    else 1 + if Depth(t.left) < Depth(t.right) then Depth(t.right) else Depth(t.left)
  }

  /**
    The order of do_check_tree: sizes between lo and lo + 2^k, the lower half of
    the range on the left, the upper half on the right, each size in one node.
  */
  ghost predicate Trie(t: Tree, lo: nat, k: nat)
    decreases t, 1
  {
    t != Nil ==> TrieHere(t, lo, k)
  }

  ghost predicate TrieHere(t: Tree, lo: nat, k: nat)
    requires t != Nil
    decreases t, 0
  {
    && lo <= t.size < lo + Pow2(k)
    && t.ring != []
    && t.size !in Sizes(t.left) && t.size !in Sizes(t.right)
    && if k == 0 then t.left == Nil && t.right == Nil
       else Trie(t.left, lo, k - 1) && Trie(t.right, lo + Pow2(k - 1), k - 1)
  }

  // One level of the definitions, so that proofs need not unfold them further.

  lemma SizesNode(t: Tree)
    requires t != Nil
    ensures Sizes(t) == {t.size} + Sizes(t.left) + Sizes(t.right)
  {
  }

  lemma ChunksNode(t: Tree)
    requires t != Nil
    ensures Chunks(t) == RingChunks(t.ring, t.size) + Chunks(t.left) + Chunks(t.right)
  {
  }

  lemma NilForms(lo: nat, k: nat)
    ensures Sizes(Nil) == {} && Chunks(Nil) == multiset{} && Trie(Nil, lo, k)
  {
  }

  lemma TrieNode(t: Tree, lo: nat, k: nat)
    requires t != Nil
    ensures Trie(t, lo, k) <==> TrieHere(t, lo, k)
  {
  }

  lemma PowHalf(k: nat)
    requires 0 < k
    ensures Pow2(k) == 2 * Pow2(k - 1)
  {
  }

  lemma {:induction false} TrieRange(t: Tree, lo: nat, k: nat)
    requires Trie(t, lo, k)
    ensures forall s :: s in Sizes(t) ==> lo <= s < lo + Pow2(k)
  {
    hide Sizes, Trie, Pow2;
    NilForms(lo, k);
    if t != Nil {
      TrieNode(t, lo, k);
      SizesNode(t);
      if k != 0 {
        PowHalf(k);
        TrieRange(t.left, lo, k - 1);
        TrieRange(t.right, lo + Pow2(k - 1), k - 1);
      } else {
        NilForms(lo, k);
      }
    }
  }

  /** The longest path is no longer than the number of bits that tell sizes apart, plus one. */
  lemma {:induction false} TrieDepth(t: Tree, lo: nat, k: nat)
    requires Trie(t, lo, k)
    ensures Depth(t) <= k + 1
  {
    if t != Nil && k != 0 {
      TrieDepth(t.left, lo, k - 1);
      TrieDepth(t.right, lo + Pow2(k - 1), k - 1);
    }
  }

  lemma {:induction false} RingConcat(a: seq<nat>, b: seq<nat>, size: nat)
    ensures RingChunks(a + b, size) == RingChunks(a, size) + RingChunks(b, size)
  {
    if a == [] {
      assert a + b == b;
    } else {
      assert (a + b)[1..] == a[1..] + b;
      RingConcat(a[1..], b, size);
    }
  }

  lemma RingOne(x: nat, size: nat)
    ensures RingChunks([x], size) == multiset{Chunk(x, size)}
  {
    assert [x][1..] == [];
  }

  // ---- insertion ----

  /** insert_large_chunk below a node: `word` has the deciding bit of the size on top. */
  function Insert(t: Tree, size: nat, addr: nat, word: nat): Tree {
    if t == Nil then Node(size, [addr], Nil, Nil)
    else if t.size == size then
      t.(ring := if t.ring == [] then [addr] else [t.ring[0], addr] + t.ring[1..])
    else if TopBit(word) then t.(right := Insert(t.right, size, addr, Shl1(word)))
    else t.(left := Insert(t.left, size, addr, Shl1(word)))
  }

  lemma {:induction false} InsertChunks(t: Tree, size: nat, addr: nat, word: nat)
    ensures Chunks(Insert(t, size, addr, word)) == Chunks(t) + multiset{Chunk(addr, size)}
    decreases t
  {
    hide Chunks, RingChunks, TopBit, Shl1;
    var t' := Insert(t, size, addr, word);
    ChunksNode(t');
    NilForms(0, 0);
    RingOne(addr, size);
    if t != Nil {
      ChunksNode(t);
      if t.size == size {
        if t.ring == [] { RingNone(size); } else { InsertRing(t.ring, addr, size); }
      } else if TopBit(word) {
        InsertChunks(t.right, size, addr, Shl1(word));
      } else {
        InsertChunks(t.left, size, addr, Shl1(word));
      }
    }
  }

  lemma RingNone(size: nat)
    ensures RingChunks([], size) == multiset{}
  {
  }

  lemma {:induction false} InsertSizes(t: Tree, size: nat, addr: nat, word: nat)
    ensures Sizes(Insert(t, size, addr, word)) == Sizes(t) + {size}
    decreases t
  {
    hide Sizes, TopBit, Shl1;
    var t' := Insert(t, size, addr, word);
    SizesNode(t');
    NilForms(0, 0);
    if t != Nil {
      SizesNode(t);
      if t.size == size {
      } else if TopBit(word) {
        InsertSizes(t.right, size, addr, Shl1(word));
      } else {
        InsertSizes(t.left, size, addr, Shl1(word));
      }
    }
  }

  /** Insertion keeps the trie. */
  lemma {:induction false} InsertTrie(t: Tree, size: nat, addr: nat, lo: nat, k: nat)
    requires Trie(t, lo, k) && k <= SIZE_BITS && Mod(lo, Pow2(k)) == 0 && lo <= size < lo + Pow2(k)
    ensures Trie(Insert(t, size, addr, Aligned(size, k)), lo, k)
    decreases t
  {
    hide Mod, Aligned, TopBit, Shl1, Trie, Sizes;
    var word := Aligned(size, k);
    var t' := Insert(t, size, addr, word);
    TrieNode(t', lo, k);
    NilForms(lo, k);
    if t == Nil {
      if k != 0 {
        NilForms(lo, k - 1);
        NilForms(lo + Pow2(k - 1), k - 1);
      }
    } else {
      TrieNode(t, lo, k);
      if t.size != size {
        assert k != 0;
        TopBitIsHalf(size, lo, k);
        AlignedNext(size, k);
        HalfAligned(lo, k);
        hide Pow2;
        PowHalf(k);
        if TopBit(word) {
          InsertTrie(t.right, size, addr, lo + Pow2(k - 1), k - 1);
          InsertSizes(t.right, size, addr, Shl1(word));
        } else {
          InsertTrie(t.left, size, addr, lo, k - 1);
          InsertSizes(t.left, size, addr, Shl1(word));
        }
      }
    }
  }

  lemma InsertRing(ring: seq<nat>, addr: nat, size: nat)
    requires ring != []
    ensures RingChunks([ring[0], addr] + ring[1..], size) == RingChunks(ring, size) + multiset{Chunk(addr, size)}
  {
    RingConcat([ring[0], addr], ring[1..], size);
    RingConcat([ring[0]], [addr], size);
    RingOne(ring[0], size);
    RingOne(addr, size);
    assert [ring[0], addr] == [ring[0]] + [addr];
  }

  // ---- removal ----

  /** The rightmost leaf below a node, and the tree without it. */
  datatype Popped = Popped(size: nat, ring: seq<nat>, rest: Tree)

  function PopLeaf(t: Tree): Popped
    requires t != Nil
  {
    if t.right != Nil then
      var p := PopLeaf(t.right);
      p.(rest := t.(right := p.rest))
    else if t.left != Nil then
      var p := PopLeaf(t.left);
      p.(rest := t.(left := p.rest))
    else
      Popped(t.size, t.ring, Nil)
  }

  lemma {:induction false} PopLeafChunks(t: Tree)
    requires t != Nil
    ensures Chunks(t) == Chunks(PopLeaf(t).rest) + RingChunks(PopLeaf(t).ring, PopLeaf(t).size)
    decreases t
  {
    hide Chunks, RingChunks;
    ChunksNode(t);
    NilForms(0, 0);
    var rest := PopLeaf(t).rest;
    if t.right != Nil {
      PopLeafChunks(t.right);
      ChunksNode(rest);
    } else if t.left != Nil {
      PopLeafChunks(t.left);
      ChunksNode(rest);
    }
  }

  lemma {:induction false} PopLeafOk(t: Tree, lo: nat, k: nat)
    requires Trie(t, lo, k) && t != Nil
    ensures var p := PopLeaf(t);
            && Trie(p.rest, lo, k)
            && p.ring != []
            && p.size in Sizes(t)
            && Sizes(p.rest) == Sizes(t) - {p.size}
    decreases t
  {
    hide Trie, Sizes, Pow2;
    TrieNode(t, lo, k);
    SizesNode(t);
    NilForms(lo, k);
    var p := PopLeaf(t);
    if t.right != Nil || t.left != Nil {
      PowHalf(k);
      TrieRange(t.left, lo, k - 1);
      TrieRange(t.right, lo + Pow2(k - 1), k - 1);
      if t.right != Nil {
        PopLeafOk(t.right, lo + Pow2(k - 1), k - 1);
      } else {
        PopLeafOk(t.left, lo, k - 1);
      }
      TrieNode(p.rest, lo, k);
      SizesNode(p.rest);
    }
  }

  /** A node whose last chunk leaves: the rightmost leaf below takes its place. */
  function RemoveNode(t: Tree): Tree
    requires t != Nil
  {
    if t.right != Nil then
      var p := PopLeaf(t.right);
      Node(p.size, p.ring, t.left, p.rest)
    else if t.left != Nil then
      var p := PopLeaf(t.left);
      Node(p.size, p.ring, p.rest, t.right)
    else
      Nil
  }

  lemma RemoveNodeChunks(t: Tree)
    requires t != Nil
    ensures Chunks(t) == Chunks(RemoveNode(t)) + RingChunks(t.ring, t.size)
  {
    hide Chunks, RingChunks, PopLeaf;
    ChunksNode(t);
    NilForms(0, 0);
    if t.right != Nil {
      PopLeafChunks(t.right);
      ChunksNode(RemoveNode(t));
    } else if t.left != Nil {
      PopLeafChunks(t.left);
      ChunksNode(RemoveNode(t));
    }
  }

  lemma RemoveNodeOk(t: Tree, lo: nat, k: nat)
    requires Trie(t, lo, k) && t != Nil
    ensures Trie(RemoveNode(t), lo, k)
    ensures Sizes(RemoveNode(t)) <= Sizes(t)
  {
    hide Trie, Sizes, Pow2, PopLeaf;
    TrieNode(t, lo, k);
    SizesNode(t);
    NilForms(lo, k);
    var t' := RemoveNode(t);
    if t.right != Nil || t.left != Nil {
      PowHalf(k);
      TrieRange(t.left, lo, k - 1);
      TrieRange(t.right, lo + Pow2(k - 1), k - 1);
      if t.right != Nil {
        PopLeafOk(t.right, lo + Pow2(k - 1), k - 1);
      } else {
        PopLeafOk(t.left, lo, k - 1);
      }
      TrieNode(t', lo, k);
      SizesNode(t');
    }
  }

  /** Position of a chunk in a ring, or the ring's length. */
  function Find(ring: seq<nat>, addr: nat): (i: nat)
    ensures i <= |ring| && (i < |ring| ==> ring[i] == addr)
    ensures addr in ring ==> i < |ring|
  {
    if ring == [] || ring[0] == addr then 0 else 1 + Find(ring[1..], addr)
  }

  /** A ring of several chunks without one of them; the last follows when the head leaves. */
  function Unring(ring: seq<nat>, addr: nat): seq<nat>
    requires |ring| > 1
  {
    var last := |ring| - 1;
    if ring[0] == addr then [ring[last]] + ring[1..last]
    else
      var i := Find(ring, addr);
      if i == |ring| then ring else ring[..i] + ring[i + 1..]
  }

  lemma UnringOk(ring: seq<nat>, addr: nat, size: nat)
    requires |ring| > 1 && addr in ring
    ensures |Unring(ring, addr)| == |ring| - 1
    ensures RingChunks(ring, size) == RingChunks(Unring(ring, addr), size) + multiset{Chunk(addr, size)}
  {
    var last := |ring| - 1;
    RingOne(addr, size);
    if ring[0] == addr {
      assert ring == [addr] + (ring[1..last] + [ring[last]]);
      RingConcat([addr], ring[1..last] + [ring[last]], size);
      RingConcat(ring[1..last], [ring[last]], size);
      RingConcat([ring[last]], ring[1..last], size);
    } else {
      var i := Find(ring, addr);
      assert ring == ring[..i] + ([addr] + ring[i + 1..]);
      RingConcat(ring[..i], [addr] + ring[i + 1..], size);
      RingConcat([addr], ring[i + 1..], size);
      RingConcat(ring[..i], ring[i + 1..], size);
    }
  }

  /** unlink_large_chunk of the chunk at `addr`, whose node lies on the path of its size. */
  function Unlink(t: Tree, size: nat, addr: nat, word: nat): Tree {
    if t == Nil then Nil
    else if t.size == size then
      if |t.ring| > 1 then t.(ring := Unring(t.ring, addr)) else RemoveNode(t)
    else if TopBit(word) then t.(right := Unlink(t.right, size, addr, Shl1(word)))
    else t.(left := Unlink(t.left, size, addr, Shl1(word)))
  }

  lemma {:induction false} RingMember(ring: seq<nat>, size: nat, addr: nat, s: nat)
    ensures Chunk(addr, s) in RingChunks(ring, size) <==> addr in ring && s == size
  {
    if ring != [] { RingMember(ring[1..], size, addr, s); }
  }

  lemma {:induction false} ChunkSize(t: Tree, c: Chunk)
    requires c in Chunks(t)
    ensures c.size in Sizes(t)
  {
    hide Chunks, Sizes, RingChunks;
    NilForms(0, 0);
    ChunksNode(t);
    SizesNode(t);
    RingMember(t.ring, t.size, c.addr, c.size);
    if c in Chunks(t.left) { ChunkSize(t.left, c); }
    if c in Chunks(t.right) { ChunkSize(t.right, c); }
  }

  /** A chunk that is not in the root's ring is on the side its size says. */
  lemma ChunkSide(t: Tree, size: nat, addr: nat, lo: nat, k: nat)
    requires Trie(t, lo, k) && t != Nil && k != 0 && t.size != size && Chunk(addr, size) in Chunks(t)
    ensures Chunk(addr, size) in Chunks(if lo + Pow2(k - 1) <= size then t.right else t.left)
    ensures lo <= size < lo + Pow2(k)
  {
    hide Trie, Sizes, Chunks, RingChunks, Pow2;
    TrieNode(t, lo, k);
    ChunksNode(t);
    PowHalf(k);
    RingMember(t.ring, t.size, addr, size);
    TrieRange(t.left, lo, k - 1);
    TrieRange(t.right, lo + Pow2(k - 1), k - 1);
    if Chunk(addr, size) in Chunks(t.left) { ChunkSize(t.left, Chunk(addr, size)); }
    if Chunk(addr, size) in Chunks(t.right) { ChunkSize(t.right, Chunk(addr, size)); }
  }

  /** Unlinking keeps the trie and takes exactly the one chunk out. */
  lemma {:induction false} UnlinkOk(t: Tree, size: nat, addr: nat, lo: nat, k: nat)
    requires Trie(t, lo, k) && k <= SIZE_BITS && Mod(lo, Pow2(k)) == 0
    requires Chunk(addr, size) in Chunks(t)
    ensures var t' := Unlink(t, size, addr, Aligned(size, k));
            && Trie(t', lo, k)
            && Sizes(t') <= Sizes(t)
            && Chunks(t) == Chunks(t') + multiset{Chunk(addr, size)}
    decreases t
  {
    hide Mod, Aligned, TopBit, Shl1, Unring, RemoveNode, Trie, Sizes, Chunks, Pow2;
    NilForms(lo, k);
    assert t != Nil;
    TrieNode(t, lo, k);
    if t.size == size {
      UnlinkHere(t, size, addr, lo, k);
    } else {
      AtLeaf(t, size, addr, lo, k);
      ChunkSide(t, size, addr, lo, k);
      TopBitIsHalf(size, lo, k);
      AlignedNext(size, k);
      HalfAligned(lo, k);
      var t' := Unlink(t, size, addr, Aligned(size, k));
      TrieNode(t', lo, k);
      SizesNode(t);
      SizesNode(t');
      ChunksNode(t);
      ChunksNode(t');
      if TopBit(Aligned(size, k)) {
        UnlinkOk(t.right, size, addr, lo + Pow2(k - 1), k - 1);
      } else {
        UnlinkOk(t.left, size, addr, lo, k - 1);
      }
    }
  }

  /** At the last level there is only one size. */
  lemma AtLeaf(t: Tree, size: nat, addr: nat, lo: nat, k: nat)
    requires Trie(t, lo, k) && t != Nil && Chunk(addr, size) in Chunks(t) && t.size != size
    ensures k != 0
  {
    hide Trie, Chunks, RingChunks;
    TrieNode(t, lo, k);
    ChunksNode(t);
    NilForms(lo, k);
    RingMember(t.ring, t.size, addr, size);
  }

  lemma UnlinkHere(t: Tree, size: nat, addr: nat, lo: nat, k: nat)
    requires Trie(t, lo, k) && t != Nil && t.size == size && Chunk(addr, size) in Chunks(t)
    ensures var t' := if |t.ring| > 1 then t.(ring := Unring(t.ring, addr)) else RemoveNode(t);
            && Trie(t', lo, k)
            && Sizes(t') <= Sizes(t)
            && Chunks(t) == Chunks(t') + multiset{Chunk(addr, size)}
  {
    hide Unring, RemoveNode, Trie, Sizes, Chunks, RingChunks, Pow2;
    TrieNode(t, lo, k);
    ChunksNode(t);
    RingMember(t.ring, t.size, addr, size);
    if Chunk(addr, size) in Chunks(t.left) { ChunkSize(t.left, Chunk(addr, size)); }
    if Chunk(addr, size) in Chunks(t.right) { ChunkSize(t.right, Chunk(addr, size)); }
    assert addr in t.ring;
    if |t.ring| > 1 {
      UnringOk(t.ring, addr, size);
      var t' := t.(ring := Unring(t.ring, addr));
      TrieNode(t', lo, k);
      ChunksNode(t');
      SizesNode(t);
      SizesNode(t');
    } else {
      assert t.ring == [addr];
      RingOne(addr, size);
      RemoveNodeOk(t, lo, k);
      RemoveNodeChunks(t);
    }
  }
}
