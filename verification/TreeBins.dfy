/** Powers of two, and products kept behind a name so that proofs go by their laws. */
module Powers {

  function Mul(a: int, b: int): int {
    a * b
  }

  function Div(a: int, b: int): int
    requires 0 < b
  {
    a / b
  }

  function Mod(a: int, b: int): int
    requires 0 < b
  {
    a % b
  }

  lemma MulAdd(a: int, b: int, c: int)
    ensures Mul(a + b, c) == Mul(a, c) + Mul(b, c)
  {
  }

  lemma MulTwice(a: int, b: int)
    ensures Mul(2 * a, b) == 2 * Mul(a, b) && Mul(a, 2 * b) == 2 * Mul(a, b)
  {
  }

  lemma MulAssoc(a: int, b: int, c: int)
    ensures Mul(Mul(a, b), c) == Mul(a, Mul(b, c))
  {
    assert a * b * c == a * (b * c);
  }

  lemma MulSmall(b: int)
    ensures Mul(0, b) == 0 && Mul(1, b) == b && Mul(2, b) == 2 * b && Mul(3, b) == 3 * b && Mul(b, 1) == b
  {
  }

  lemma MulOrder(x: int, y: int, b: int)
    requires x < y && 0 < b
    ensures Mul(x, b) + b <= Mul(y, b)
  {
    assert (y - x - 1) * b >= 0;
  }

  lemma MulPositive(x: int, b: int)
    requires 0 <= x && 0 < b
    ensures 0 <= Mul(x, b)
  {
  }

  lemma DivMod(a: int, b: int)
    requires 0 < b
    ensures a == Mul(Div(a, b), b) + Mod(a, b) && 0 <= Mod(a, b) < b
  {
  }

  lemma DivUnique(a: int, b: int, q: int, r: int)
    requires 0 < b && a == Mul(q, b) + r && 0 <= r < b
    ensures Div(a, b) == q && Mod(a, b) == r
  {
    hide Mul, Div, Mod;
    DivMod(a, b);
    var q' := Div(a, b);
    if q' < q {
      MulOrder(q', q, b);
    } else if q < q' {
      MulOrder(q, q', b);
    }
  }

  function Pow2(k: nat): (r: nat)
    ensures 0 < r
  {
    if k == 0 then 1 else 2 * Pow2(k - 1)
  }

  /** A number from its bits, lowest first. */
  function Value(bits: seq<bool>): nat {
    if bits == [] then 0 else (if bits[0] then 1 else 0) + 2 * Value(bits[1..])
  }

  lemma {:induction false} Pow2Add(a: nat, b: nat)
    ensures Pow2(a + b) == Mul(Pow2(a), Pow2(b))
  {
    hide Mul;
    if a == 0 {
      MulSmall(Pow2(b));
    } else {
      Pow2Add(a - 1, b);
      assert Pow2(a + b) == 2 * Pow2(a - 1 + b);
      MulTwice(Pow2(a - 1), Pow2(b));
    }
  }

  lemma {:induction false} Pow2Monotone(a: nat, b: nat)
    requires a <= b
    ensures Pow2(a) <= Pow2(b)
  {
    if a < b { Pow2Monotone(a, b - 1); }
  }

  lemma Pow2Eight(a: nat)
    ensures Pow2(a + 2) == 4 * Pow2(a) && Pow2(a + 4) == 16 * Pow2(a) && Pow2(a + 8) == 0x100 * Pow2(a)
  {
    Pow2Two(a);
    Pow2Two(a + 2);
    Pow2Two(a + 4);
    Pow2Two(a + 6);
  }

  lemma Pow2Two(a: nat)
    ensures Pow2(a + 1) == 2 * Pow2(a) && Pow2(a + 2) == 4 * Pow2(a)
  {
  }

  /** The powers the allocator names. */
  lemma Pow2Values()
    ensures Pow2(0) == 1 && Pow2(1) == 2 && Pow2(2) == 4 && Pow2(4) == 16 && Pow2(8) == 0x100
    ensures Pow2(14) == 0x4000 && Pow2(15) == 0x8000 && Pow2(16) == 0x1_0000
  {
    Pow2Two(0);
    Pow2Eight(0);
    Pow2Eight(8);
    Pow2Eight(4);
    Pow2Two(12);
    Pow2Two(14);
  }
}

/**
  The bins of large free chunks (libopen-mx/dlmalloc.c): the branch-free index
  computation, the smallest size of a bin, and the shift that brings the first
  undecided bit of a bin's sizes to the top of a word.
*/
module TreeBins {
  import opened Powers

  const NTREEBINS := 32
  const SIZE_BITS := 64
  const U32 := 0x1_0000_0000

  /** The bit of weight w of a word. */
  function BitOf(x: nat, w: nat): nat
    requires 0 < w
  {
    Div(x, w) % 2
  }

  /** compute_tree_index, portable form: 32-bit words wrap below zero. */
  function TreeIndex(s: nat): nat {
    var x := s / 0x100;
    if x == 0 then 0
    else if x > 0xFFFF then NTREEBINS - 1
    else
      var k := Log2Branchless(x);
      2 * k + BitOf(s, Pow2(k + 7))
  }

  /** The shifts by 8, 4 and 2 of the macro, each taken when a subtraction borrows. */
  function Log2Branchless(x: nat): nat
    requires 0 < x <= 0xFFFF
  {
    var n1 := 8 * BitOf((x - 0x100) % U32 / 0x1_0000, 8);
    var y1 := Mul(x, Pow2(n1));
    var k2 := 4 * BitOf((y1 - 0x1000) % U32 / 0x1_0000, 4);
    var y2 := Mul(y1, Pow2(k2));
    var k3 := 2 * BitOf((y2 - 0x4000) % U32 / 0x1_0000, 2);
    var y3 := Mul(y2, Pow2(k3));
    var n := n1 + k2 + k3;
    var k := 14 - n + y3 / 0x8000;
    if 0 <= k then k else 0
  }

  /** minsize_for_tree_index */
  function MinSize(i: nat): nat {
    Pow2(i / 2 + 8) + if i % 2 == 1 then Pow2(i / 2 + 7) else 0
  }

  /** leftshift_for_tree_index */
  function LeftShift(i: nat): nat
    requires i < NTREEBINS
  {
    if i == NTREEBINS - 1 then 0 else SIZE_BITS - 1 - (i / 2 + 6)
  }

  /** One conditional shift: y below the threshold borrows, and moves up. */
  lemma Borrow(y: nat, threshold: nat, w: nat)
    requires y < 0x1_0000 && 0 < threshold <= 0x4000 && (w == 2 || w == 4 || w == 8)
    ensures BitOf((y - threshold) % U32 / 0x1_0000, w) == if y < threshold then 1 else 0
  {
    if y < threshold {
      assert (y - threshold) % U32 == U32 + y - threshold;
      assert (U32 + y - threshold) / 0x1_0000 == 0xFFFF;
    } else {
      assert (y - threshold) % U32 == y - threshold;
    }
  }

  /** The branch-free computation is the logarithm. */
  lemma Log2Correct(x: nat)
    requires 0 < x <= 0xFFFF
    ensures Log2Branchless(x) <= 15
    ensures Pow2(Log2Branchless(x)) <= x < Pow2(Log2Branchless(x) + 1)
  {
    hide BitOf, Pow2;
    Pow2Values();
    Borrow(x, 0x100, 8);
    var n1 := if x < 0x100 then 8 else 0;
    var y1 := if x < 0x100 then x * 0x100 else x;
    assert y1 == Mul(x, Pow2(n1));
    Borrow(y1, 0x1000, 4);
    var k2 := if y1 < 0x1000 then 4 else 0;
    var y2 := if y1 < 0x1000 then y1 * 0x10 else y1;
    assert y2 == Mul(y1, Pow2(k2));
    Borrow(y2, 0x4000, 2);
    var k3 := if y2 < 0x4000 then 2 else 0;
    var y3 := if y2 < 0x4000 then y2 * 4 else y2;
    assert y3 == Mul(y2, Pow2(k3));
    ShiftTogether(x, n1, k2, k3);
    assert Log2Branchless(x) == 14 - (n1 + k2 + k3) + y3 / 0x8000;
    Normalised(x, n1 + k2 + k3, y3);
  }

  /** A number brought into the top two bits of sixteen tells how far it was from there. */
  lemma Normalised(x: nat, n: nat, y: nat)
    requires n <= 14 && y == Mul(x, Pow2(n)) && 0x4000 <= y < 0x1_0000
    ensures var k := 14 - n + y / 0x8000; k <= 15 && Pow2(k) <= x < Pow2(k + 1)
  {
    hide Pow2;
    Pow2Values();
    Scaled(x, n, 14 - n);
    Scaled(x, n, 15 - n);
    Scaled(x, n, 16 - n);
  }

  lemma ShiftTogether(x: nat, a: nat, b: nat, c: nat)
    ensures Mul(Mul(Mul(x, Pow2(a)), Pow2(b)), Pow2(c)) == Mul(x, Pow2(a + b + c))
  {
    hide Mul, Pow2;
    Pow2Add(a, b);
    Pow2Add(a + b, c);
    MulAssoc(x, Pow2(a), Pow2(b));
    MulAssoc(x, Pow2(a + b), Pow2(c));
  }

  /** Comparing after a shift by n is comparing before it. */
  lemma Scaled(x: nat, n: nat, k: nat)
    ensures Mul(x, Pow2(n)) < Pow2(n + k) <==> x < Pow2(k)
  {
    hide Mul, Pow2;
    Pow2Add(k, n);
    if x < Pow2(k) { MulOrder(x, Pow2(k), Pow2(n)); }
    else if Pow2(k) < x { MulOrder(Pow2(k), x, Pow2(n)); }
  }

  /** The sizes a bin holds share their upper bits; this many lower bits are free. */
  function BinBits(i: nat): nat
    requires i < NTREEBINS
  {
    if i == NTREEBINS - 1 then SIZE_BITS else i / 2 + 7
  }

  /** Where the range of a bin's trie starts. */
  function BinLow(i: nat): nat
    requires i < NTREEBINS
  {
    if i == NTREEBINS - 1 then 0 else MinSize(i)
  }

  /** Bins follow each other without gap or overlap. */
  lemma MinSizeNext(i: nat)
    ensures MinSize(i + 1) == MinSize(i) + Pow2(i / 2 + 7)
  {
    var k := i / 2;
    assert Pow2(k + 8) == 2 * Pow2(k + 7) && Pow2(k + 9) == 2 * Pow2(k + 8);
    if i % 2 == 0 {
      assert (i + 1) / 2 == k && (i + 1) % 2 == 1;
    } else {
      assert (i + 1) / 2 == k + 1 && (i + 1) % 2 == 0;
    }
  }

  lemma {:induction false} MinSizeMonotone(i: nat, j: nat)
    requires i <= j
    ensures MinSize(i) <= MinSize(j)
  {
    if i < j {
      MinSizeMonotone(i, j - 1);
      MinSizeNext(j - 1);
    }
  }

  /** A size lies in the bin its index names. */
  lemma TreeIndexCorrect(s: nat)
    requires 0x100 <= s
    ensures TreeIndex(s) < NTREEBINS
    ensures MinSize(TreeIndex(s)) <= s
    ensures TreeIndex(s) < NTREEBINS - 1 ==> s < MinSize(TreeIndex(s) + 1)
  {
    hide Pow2, Log2Branchless, BitOf;
    var x := s / 0x100;
    Pow2Values();
    if x > 0xFFFF {
      MinSizeLast();
    } else {
      Log2Correct(x);
      var k := Log2Branchless(x);
      IndexInOctave(s, k);
    }
  }

  lemma MinSizeLast()
    ensures MinSize(31) <= 0x100_0000
  {
    hide Pow2;
    Pow2Values();
    Pow2Eight(8);
    Pow2Eight(16);
    Pow2Two(22);
  }

  lemma IndexInOctave(s: nat, k: nat)
    requires k <= 15 && Pow2(k) <= s / 0x100 < Pow2(k + 1)
    ensures var i := 2 * k + BitOf(s, Pow2(k + 7));
            i < NTREEBINS && MinSize(i) <= s < MinSize(i + 1)
  {
    Pow2Eight(k);
    Pow2Eight(k + 1);
    var w := Pow2(k + 7);
    assert Pow2(k + 8) == 2 * w && Pow2(k + 9) == 2 * Pow2(k + 8);
    hide Pow2, Mul, Div;
    assert 2 * w <= s < 4 * w;
    MulSmall(w);
    if s < 3 * w { DivUnique(s, w, 2, s - 2 * w); } else { DivUnique(s, w, 3, s - 3 * w); }
    var i := 2 * k + BitOf(s, w);
    assert i / 2 == k && i % 2 == if s < 3 * w then 0 else 1;
    MinSizeNext(i);
  }

  /** Larger sizes never have smaller indices. */
  lemma TreeIndexMonotone(s: nat, s': nat)
    requires 0x100 <= s <= s'
    ensures TreeIndex(s) <= TreeIndex(s')
  {
    hide TreeIndex, MinSize;
    TreeIndexCorrect(s);
    TreeIndexCorrect(s');
    if TreeIndex(s') < TreeIndex(s) {
      MinSizeMonotone(TreeIndex(s') + 1, TreeIndex(s));
    }
  }

  /** The range of a bin is one aligned power of two. */
  lemma BinRange(i: nat)
    requires i < NTREEBINS
    ensures Mod(BinLow(i), Pow2(BinBits(i))) == 0
    ensures i < NTREEBINS - 1 ==> MinSize(i + 1) == BinLow(i) + Pow2(BinBits(i))
    ensures SIZE_BITS - LeftShift(i) == BinBits(i)
  {
    if i < NTREEBINS - 1 {
      MinSizeNext(i);
      var w := Pow2(i / 2 + 7);
      assert Pow2(i / 2 + 8) == 2 * w;
      hide Pow2, Mul, Mod;
      MulSmall(w);
      DivUnique(MinSize(i), w, 2 + i % 2, 0);
    } else {
      hide Pow2, Mul, Mod;
      MulSmall(Pow2(SIZE_BITS));
      DivUnique(0, Pow2(SIZE_BITS), 0, 0);
    }
  }

  /** A size_t. */
  predicate SizeT(s: int) {
    0 <= s < Pow2(SIZE_BITS)
  }

  /** The word whose top bit is bit k - 1 of s: s shifted left by 64 - k. */
  function Aligned(s: nat, k: nat): nat
    requires k <= SIZE_BITS
  {
    DivMod(Mul(s, Pow2(SIZE_BITS - k)), Pow2(SIZE_BITS));
    Mod(Mul(s, Pow2(SIZE_BITS - k)), Pow2(SIZE_BITS))
  }

  /** (word >> 63) & 1 */
  predicate TopBit(word: nat) {
    Div(word, Pow2(SIZE_BITS - 1)) % 2 == 1
  }

  /** word <<= 1 */
  function Shl1(word: nat): nat {
    DivMod(2 * word, Pow2(SIZE_BITS));
    Mod(2 * word, Pow2(SIZE_BITS))
  }

  /** Shifting drops everything above the k lowest bits. */
  lemma AlignedForm(s: nat, k: nat)
    requires k <= SIZE_BITS
    ensures Aligned(s, k) == Mul(Mod(s, Pow2(k)), Pow2(SIZE_BITS - k))
  {
    hide Mul, Div, Mod, Pow2;
    var p, up, all := Pow2(k), Pow2(SIZE_BITS - k), Pow2(SIZE_BITS);
    Pow2Add(k, SIZE_BITS - k);
    DivMod(s, p);
    var q, r := Div(s, p), Mod(s, p);
    MulAdd(Mul(q, p), r, up);
    MulAssoc(q, p, up);
    MulOrder(r, p, up);
    MulPositive(r, up);
    DivUnique(Mul(s, up), all, q, Mul(r, up));
  }

  /** The top bit says in which half of an aligned range a size lies. */
  lemma TopBitIsHalf(s: nat, lo: nat, k: nat)
    requires 0 < k <= SIZE_BITS && Mod(lo, Pow2(k)) == 0 && lo <= s < lo + Pow2(k)
    ensures TopBit(Aligned(s, k)) <==> lo + Pow2(k - 1) <= s
  {
    AlignedForm(s, k);
    var half, up, top := Pow2(k - 1), Pow2(SIZE_BITS - k), Pow2(SIZE_BITS - 1);
    assert Pow2(k) == 2 * half;
    hide Mul, Div, Mod, Pow2, Aligned;
    Pow2Add(k - 1, SIZE_BITS - k);
    var r := s - lo;
    DivMod(lo, Pow2(k));
    DivUnique(s, Pow2(k), Div(lo, Pow2(k)), r);
    MulSmall(top);
    if r < half {
      MulOrder(r, half, up);
      MulPositive(r, up);
      DivUnique(Mul(r, up), top, 0, Mul(r, up));
    } else {
      MulAdd(half, r - half, up);
      MulOrder(r - half, half, up);
      MulPositive(r - half, up);
      DivUnique(Mul(r, up), top, 1, Mul(r - half, up));
    }
  }

  /** Shifting once more brings the next bit to the top. */
  lemma AlignedNext(s: nat, k: nat)
    requires 0 < k <= SIZE_BITS
    ensures Shl1(Aligned(s, k)) == Aligned(s, k - 1)
  {
    AlignedForm(s, k);
    AlignedForm(s, k - 1);
    var half, up, all := Pow2(k - 1), Pow2(SIZE_BITS - k), Pow2(SIZE_BITS);
    assert Pow2(k) == 2 * half && Pow2(SIZE_BITS - (k - 1)) == 2 * up;
    hide Mul, Div, Mod, Pow2, Aligned;
    Pow2Add(k, SIZE_BITS - k);
    DivMod(s, 2 * half);
    var q, r := Div(s, 2 * half), Mod(s, 2 * half);
    var h := if r < half then 0 else 1;
    var l := r - h * half;
    MulTwice(q, half);
    MulAdd(2 * q, h, half);
    MulSmall(half);
    MulSmall(all);
    DivUnique(s, half, 2 * q + h, l);
    // 2 * (r * up) is h times the whole word plus l * (2 * up)
    MulAdd(h * half, l, up);
    MulTwice(half, up);
    MulTwice(l, up);
    MulSmall(up);
    MulOrder(l, half, 2 * up);
    MulTwice(half, up);
    MulPositive(l, 2 * up);
    DivUnique(2 * Mul(r, up), all, h, Mul(l, 2 * up));
  }

  /** Following one bit halves the range and keeps it aligned. */
  lemma HalfAligned(lo: nat, k: nat)
    requires 0 < k && Mod(lo, Pow2(k)) == 0
    ensures Mod(lo, Pow2(k - 1)) == 0 && Mod(lo + Pow2(k - 1), Pow2(k - 1)) == 0
  {
    var half := Pow2(k - 1);
    assert Pow2(k) == 2 * half;
    hide Pow2, Mul, Div, Mod;
    DivMod(lo, 2 * half);
    var m := Div(lo, 2 * half);
    MulTwice(m, half);
    DivUnique(lo, half, 2 * m, 0);
    MulAdd(2 * m, 1, half);
    MulSmall(half);
    DivUnique(lo + half, half, 2 * m + 1, 0);
  }
}
