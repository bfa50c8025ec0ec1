/**
  The bitmaps of the bins (libopen-mx/dlmalloc.c): least_bit, left_bits and the
  portable compute_bit2idx on 32-bit words find what LeastFrom finds in the set
  of marked bins.
*/
module BinMaps {
  import opened Powers
  import opened TreeBins
  import opened BestFit

  /** binmap_t, lowest bit first. */
  type Word = w: seq<bool> | |w| == NTREEBINS witness seq(NTREEBINS, _ => false)

  // ---- the operators of C ----

  function And(x: Word, y: Word): Word {
    seq(NTREEBINS, i requires 0 <= i < NTREEBINS => x[i] && y[i])
  }

  function Or(x: Word, y: Word): Word {
    seq(NTREEBINS, i requires 0 <= i < NTREEBINS => x[i] || y[i])
  }

  function Not(x: Word): Word {
    seq(NTREEBINS, i requires 0 <= i < NTREEBINS => !x[i])
  }

  function Shl(x: Word, n: nat): Word {
    seq(NTREEBINS, i requires 0 <= i < NTREEBINS => n <= i && x[i - n])
  }

  function Shr(x: Word, n: nat): Word {
    seq(NTREEBINS, i requires 0 <= i < NTREEBINS => i + n < NTREEBINS && x[i + n])
  }

  /** Adding one: the carry runs up to the lowest zero. */
  function Increment(x: seq<bool>): (r: seq<bool>)
    ensures |r| == |x|
  {
    if x == [] then [] else if x[0] then [false] + Increment(x[1..]) else [true] + x[1..]
  }

  /** Unsigned negation is the complement plus one. */
  function Neg(x: Word): Word {
    Increment(Not(x))
  }

  // ---- the macros ----

  function Idx2Bit(i: nat): Word {
    seq(NTREEBINS, j => i == j)
  }

  function LeastBit(x: Word): Word {
    And(x, Neg(x))
  }

  function LeftBits(x: Word): Word {
    Or(Shl(x, 1), Neg(Shl(x, 1)))
  }

  /** Y >> shift & bit, with low == 2^shift. */
  function Masked(y: int, low: nat, bit: nat): nat
    requires 0 < low && 0 < bit
  {
    if Mod(Div(Div(y, low), bit), 2) == 1 then bit else 0
  }

  function Narrowed(y: int, k: nat): int {
    Div(y, Pow2(k))
  }

  function Bit2Idx(x: nat): int
    requires 0 < x
  {
    var y0 := x - 1;
    var k0 := Masked(y0, 0x1000, 16);
    var y1 := Narrowed(y0, k0);
    var k1 := Masked(y1, 0x20, 8);
    var y2 := Narrowed(y1, k1);
    var k2 := Masked(y2, 4, 4);
    var y3 := Narrowed(y2, k2);
    var k3 := Masked(y3, 2, 2);
    var y4 := Narrowed(y3, k3);
    var k4 := Masked(y4, 1, 1);
    var y5 := Narrowed(y4, k4);
    k0 + k1 + k2 + k3 + k4 + y5
  }

  // ---- what they compute ----

  lemma {:induction false} IncrementIs(x: seq<bool>, i: nat)
    requires i < |x|
    ensures Increment(x)[i] == if forall j :: 0 <= j < i ==> x[j] then !x[i] else x[i]
  {
    if x[0] && 0 < i {
      var rest := x[1..];
      IncrementIs(rest, i - 1);
      if forall j :: 0 <= j < i - 1 ==> rest[j] {
        assert forall j :: 0 < j < i ==> x[j] == rest[j - 1];
      } else {
        var j :| 0 <= j < i - 1 && !rest[j];
        assert !x[j + 1];
      }
    }
  }

  /** Negation keeps the bits up to the least one and flips those above. */
  lemma NegIs(x: Word, i: nat)
    requires i < NTREEBINS
    ensures Neg(x)[i] == if forall j :: 0 <= j < i ==> !x[j] then x[i] else !x[i]
  {
    hide Increment;
    IncrementIs(Not(x), i);
    assert forall j :: 0 <= j < NTREEBINS ==> Not(x)[j] == !x[j];
  }

  ghost predicate IsLeast(x: Word, i: nat) {
    i < NTREEBINS && x[i] && forall j :: 0 <= j < i ==> !x[j]
  }

  lemma LeastBitIs(x: Word, i: nat)
    requires IsLeast(x, i)
    ensures LeastBit(x) == Idx2Bit(i)
  {
    hide Neg;
    forall k | 0 <= k < NTREEBINS
      ensures LeastBit(x)[k] == (k == i)
    {
      NegIs(x, k);
    }
  }

  /** All bits to the left of the one given. */
  lemma LeftBitsAre(i: nat, k: nat)
    requires i < NTREEBINS && k < NTREEBINS
    ensures LeftBits(Idx2Bit(i))[k] <==> i < k
  {
    hide Neg;
    var x := Shl(Idx2Bit(i), 1);
    assert forall j :: 0 <= j < NTREEBINS ==> x[j] == (j == i + 1);
    NegIs(x, k);
    if i + 1 < k { assert x[i + 1]; }
  }

  lemma {:induction false} ValueOfBit(x: seq<bool>, i: nat)
    requires i < |x| && forall j :: 0 <= j < |x| ==> x[j] == (j == i)
    ensures Value(x) == Pow2(i)
  {
    var rest := x[1..];
    if i == 0 {
      ValueOfNone(rest);
    } else {
      ValueOfBit(rest, i - 1);
    }
  }

  lemma {:induction false} ValueOfNone(x: seq<bool>)
    requires forall j :: 0 <= j < |x| ==> !x[j]
    ensures Value(x) == 0
  {
    if x != [] { ValueOfNone(x[1..]); }
  }

  lemma TopDigit(y: int, q: int, low: int)
    requires 0 < low && y == Mul(q, low) - 1
    ensures Div(y, low) == q - 1
  {
    hide Mul, Div, Mod;
    MulAdd(q - 1, 1, low);
    MulSmall(low);
    DivUnique(y, low, q - 1, low - 1);
  }

  lemma NoDigit(y: nat, low: nat, b: nat)
    requires 0 < low && 0 < b && y < Mul(b, low)
    ensures Div(Div(y, low), b) == 0
  {
    hide Mul, Div, Mod;
    DivMod(y, low);
    var d := Div(y, low);
    if b < d { MulOrder(b, d, low); }
    if d < 0 {
      MulOrder(d, 0, low);
      MulSmall(low);
    }
    MulSmall(b);
    DivUnique(d, b, 0, d);
  }

  lemma OddOnes(j: nat)
    requires 0 < j
    ensures Mod(Pow2(j) - 1, 2) == 1
  {
    hide Pow2;
    Pow2Two(j - 1);
    var r := Pow2(j - 1);
    assert (2 * r - 1) % 2 == 1;
  }

  /** One step of the search: of j ones, the bit tells whether there are more than b, and b are shifted out. */
  lemma Narrow(j: nat, b: nat, low: nat)
    requires 0 < b && 0 < low && j <= 2 * b && Mul(b, low) == Pow2(b)
    ensures var y := Pow2(j) - 1; var k := Masked(y, low, b);
            k == (if b < j then b else 0) && k <= j && j - k <= b && Narrowed(y, k) == Pow2(j - k) - 1
  {
    hide Mul, Div, Mod, Pow2;
    var y := Pow2(j) - 1;
    if b < j {
      var p := Pow2(j - b);
      Pow2Add(j - b, b);
      TopDigit(y, p, Pow2(b));
      MulAssoc(p, b, low);
      TopDigit(y, Mul(p, b), low);
      TopDigit(Mul(p, b) - 1, p, b);
      OddOnes(j - b);
    } else {
      Pow2Monotone(j, b);
      NoDigit(y, low, b);
      NothingShifted(y);
    }
  }

  lemma NothingShifted(y: nat)
    ensures Narrowed(y, 0) == y && Mod(0, 2) == 0
  {
  }

  lemma SmallPowers()
    ensures Mul(16, 0x1000) == Pow2(16) && Mul(8, 0x20) == Pow2(8) && Mul(4, 4) == Pow2(4)
    ensures Mul(2, 2) == Pow2(2) && Mul(1, 1) + 1 == Pow2(1)
  {
    Pow2Values();
  }

  /** The index of a word that has one bit set. */
  lemma Bit2IdxIs(i: nat)
    requires i < NTREEBINS
    ensures Bit2Idx(Pow2(i)) == i
  {
    hide Mul, Div, Mod, Pow2, Masked, Narrowed;
    SmallPowers();
    Narrow(i, 16, 0x1000);
    var i1 := if 16 < i then i - 16 else i;
    Narrow(i1, 8, 0x20);
    var i2 := if 8 < i1 then i1 - 8 else i1;
    Narrow(i2, 4, 4);
    var i3 := if 4 < i2 then i2 - 4 else i2;
    Narrow(i3, 2, 2);
    var i4 := if 2 < i3 then i3 - 2 else i3;
    LastStep(i4);
  }

  lemma LastStep(j: nat)
    requires j <= 2
    ensures var y := Pow2(j) - 1; var k := Masked(y, 1, 1); k + Narrowed(y, k) == j
  {
    hide Pow2, Div, Mod;
    Pow2Values();
    SmallQuotients(Pow2(j) - 1);
  }

  lemma SmallQuotients(y: int)
    ensures Div(y, 1) == y
    ensures Mod(0, 2) == 0 && Mod(1, 2) == 1 && Mod(3, 2) == 1 && Div(1, 2) == 0 && Div(3, 2) == 1
  {
  }

  // ---- the searches ----

  /** The word marks the members of the set. */
  ghost predicate Marks(x: Word, marked: set<nat>) {
    forall i :: 0 <= i < NTREEBINS ==> (x[i] <==> i in marked)
  }

  ghost predicate IsZero(x: Word) {
    forall i :: 0 <= i < NTREEBINS ==> !x[i]
  }

  lemma LeastIndex(x: Word, i: nat)
    requires IsLeast(x, i)
    ensures 0 < Value(LeastBit(x)) && Bit2Idx(Value(LeastBit(x))) == i
  {
    hide Bit2Idx, LeastBit, Value;
    LeastBitIs(x, i);
    ValueOfBit(Idx2Bit(i), i);
    Bit2IdxIs(i);
  }

  /** The least marked bin of all, as tmalloc_small finds it. */
  lemma LeastMarked(x: Word, marked: set<nat>)
    requires Marks(x, marked)
    ensures IsZero(x) <==> LeastFrom(marked, 0) >= NTREEBINS
    ensures !IsZero(x) ==> 0 < Value(LeastBit(x)) && Bit2Idx(Value(LeastBit(x))) == LeastFrom(marked, 0)
  {
    hide LeastFrom, Bit2Idx, LeastBit, Value;
    var i := LeastFrom(marked, 0);
    if i < NTREEBINS { LeastIndex(x, i); }
  }

  /**
    The least marked bin above idx, as tmalloc_large finds it; mspace_malloc, which has shifted the bits below idx
    out and back, finds the same.
  */
  lemma LeastMarkedAbove(x: Word, marked: set<nat>, idx: nat)
    requires Marks(x, marked) && idx < NTREEBINS
    ensures var bits := And(LeftBits(Idx2Bit(idx)), x);
            && And(Shl(Shr(x, idx), idx), LeftBits(Idx2Bit(idx))) == bits
            && (IsZero(bits) <==> LeastFrom(marked, idx + 1) >= NTREEBINS)
            && (!IsZero(bits) ==> 0 < Value(LeastBit(bits))
                                  && Bit2Idx(Value(LeastBit(bits))) == LeastFrom(marked, idx + 1))
  {
    hide LeastFrom, Bit2Idx, LeastBit, Value, LeftBits;
    var left := LeftBits(Idx2Bit(idx));
    var bits := And(left, x);
    forall k | 0 <= k < NTREEBINS
      ensures bits[k] <==> idx < k && k in marked
      ensures And(Shl(Shr(x, idx), idx), left)[k] == bits[k]
    {
      LeftBitsAre(idx, k);
    }
    var i := LeastFrom(marked, idx + 1);
    if i < NTREEBINS { LeastIndex(bits, i); }
  }
}
