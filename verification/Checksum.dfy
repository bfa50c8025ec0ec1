/**
  The checksum of a segment list (omx_checksum_segments in
  libopen-mx/omx_segments.h), against division of polynomials over GF(2).
  The generator is x^16 + x^12 + x^5 + 1, section 2 of ITU-T Recommendation V.41.
*/
module Checksum {

  import opened Fragments
  import opened Segments

  // ---- the code ----

  /** A uint16_t as its sixteen bits, bit i at position i. */
  type Reg = r: seq<bool> | |r| == 16 witness seq(16, _ => false)

  const ZERO: Reg := [false, false, false, false, false, false, false, false,
                      false, false, false, false, false, false, false, false]

  /** 0x1021 */
  const GENERATOR: Reg := [true, false, false, false, false, true, false, false,
                           false, false, false, false, true, false, false, false]

  /** 0x8000 */
  const HIGH: Reg := [false, false, false, false, false, false, false, false,
                      false, false, false, false, false, false, false, true]

  function Xor(a: Reg, b: Reg): Reg {
    seq(16, i requires 0 <= i < 16 => a[i] != b[i])
  }

  /** a << 1 */
  function Double(a: Reg): Reg {
    [false] + a[..15]
  }

  predicate Top(a: Reg) {
    a[15]
  }

  /** The bits of a byte, most significant first. */
  function Bits(b: byte): (s: seq<bool>)
    ensures |s| == 8
  {
    [b / 128 % 2 == 1, b / 64 % 2 == 1, b / 32 % 2 == 1, b / 16 % 2 == 1,
     b / 8 % 2 == 1, b / 4 % 2 == 1, b / 2 % 2 == 1, b % 2 == 1]
  }

  /** A message byte in the upper half of the register: b << 8. */
  function Word(b: byte): Reg {
    var s := Bits(b);
    [false, false, false, false, false, false, false, false, s[7], s[6], s[5], s[4], s[3], s[2], s[1], s[0]]
  }

  /** One turn of the inner loop. */
  function Shift(crc: Reg): Reg {
    if Top(crc) then Xor(Double(crc), GENERATOR) else Double(crc)
  }

  /** The inner loop. */
  function Shifts(crc: Reg, n: nat): Reg
    decreases n
  {
    if n == 0 then crc else Shifts(Shift(crc), n - 1)
  }

  /** One byte of the outer loop. */
  function Feed(crc: Reg, b: byte): Reg {
    Shifts(Xor(crc, Word(b)), 8)
  }

  function FeedAll(crc: Reg, bytes: seq<byte>): Reg {
    if bytes == [] then crc else Feed(FeedAll(crc, bytes[..|bytes| - 1]), bytes[|bytes| - 1])
  }

  /** The loop over the bytes of one segment. */
  method FeedSegment(before: Reg, bytes: seq<byte>, ghost taken: seq<byte>) returns (crc: Reg)
    requires before == FeedAll(ZERO, taken)
    ensures crc == FeedAll(ZERO, taken + bytes)
  {
    hide Feed, FeedAll;
    crc := before;
    assert taken + bytes[..0] == taken;
    for j := 0 to |bytes|
      invariant crc == FeedAll(ZERO, taken + bytes[..j])
    {
      FeedOne(taken + bytes[..j], bytes[j]);
      crc := Feed(crc, bytes[j]);
      assert taken + bytes[..j + 1] == taken + bytes[..j] + [bytes[j]];
    }
    assert bytes[..|bytes|] == bytes;
  }

  /** omx_checksum_segments: the result is that of the first `length` flattened bytes, however they are split. */
  method ChecksumSegments(segs: seq<seq<byte>>, length: nat) returns (crc: Reg)
    ensures crc == FeedAll(ZERO, if length <= |Flatten(segs)| then Flatten(segs)[..length] else Flatten(segs))
  {
    crc := ZERO;
    var left := length;
    var k := 0;
    ghost var taken: seq<byte> := [];
    hide FeedAll;
    FeedNone();
    while k < |segs| && left > 0
      invariant 0 <= k <= |segs| && 0 <= left
      invariant crc == FeedAll(ZERO, taken) && |taken| + left == length
      invariant if left > 0 then Flatten(segs) == taken + Flatten(segs[k..]) else taken <= Flatten(segs)
    {
      var cseg := segs[k];
      var chunk := if |cseg| > left then left else |cseg|;
      assert Flatten(segs[k..]) == cseg + Flatten(segs[k + 1..]) by { assert segs[k..][1..] == segs[k + 1..]; }
      crc := FeedSegment(crc, cseg[..chunk], taken);
      taken := taken + cseg[..chunk];
      left := left - chunk;
      k := k + 1;
    }
    if left > 0 {
      assert Flatten(segs) == taken;
    } else {
      assert Flatten(segs)[..length] == taken;
    }
  }

  lemma FeedNone()
    ensures FeedAll(ZERO, []) == ZERO
  {
  }

  lemma FeedOne(bytes: seq<byte>, b: byte)
    ensures FeedAll(ZERO, bytes + [b]) == Feed(FeedAll(ZERO, bytes), b)
  {
    assert (bytes + [b])[..|bytes|] == bytes;
  }

  // ---- the reference ----

  /** A polynomial over GF(2), coefficient of x^i at position i. */
  type Poly = seq<bool>

  function Coef(p: Poly, i: int): bool {
    if 0 <= i < |p| then p[i] else false
  }

  /** Coefficient i of q times the generator. */
  function TimesGenerator(q: Poly, i: int): bool {
    Coef(q, i - 16) != (Coef(q, i - 12) != (Coef(q, i - 5) != Coef(q, i)))
  }

  /** m times x^16 is q times the generator plus r, and r has degree below 16. */
  ghost predicate Divides(m: Poly, q: Poly, r: Poly) {
    |r| == 16 && forall i :: Coef(m, i - 16) == (TimesGenerator(q, i) != Coef(r, i))
  }

  /** Multiply by x and add a constant term. */
  function Push(b: bool, p: Poly): Poly {
    [b] + p
  }

  /** The register after one more message bit. */
  function StepPoly(r: Poly, b: bool): (r': Poly)
    requires |r| == 16
    ensures |r'| == 16
  {
    var f := r[15] != b;
    seq(16, i requires 0 <= i < 16 => (i != 0 && r[i - 1]) != (f && (i == 0 || i == 5 || i == 12)))
  }

  /** One step of long division. */
  lemma DivisionStep(m: Poly, q: Poly, r: Poly, b: bool)
    requires Divides(m, q, r)
    ensures Divides(Push(b, m), Push(r[15] != b, q), StepPoly(r, b))
  {
    var f := r[15] != b;
    var m', q', r' := Push(b, m), Push(f, q), StepPoly(r, b);
    forall i
      ensures Coef(m', i - 16) == (TimesGenerator(q', i) != Coef(r', i))
    {
      assert Coef(m, i - 1 - 16) == (TimesGenerator(q, i - 1) != Coef(r, i - 1));
      PushCoef(b, m, i - 16);
      PushCoef(f, q, i - 16);
      PushCoef(f, q, i - 12);
      PushCoef(f, q, i - 5);
      PushCoef(f, q, i);
      hide Push;
      StepCoef(r, b, i);
    }
  }

  lemma PushCoef(b: bool, p: Poly, i: int)
    ensures Coef(Push(b, p), i) == if i == 0 then b else Coef(p, i - 1)
  {
  }

  lemma StepCoef(r: Poly, b: bool, i: int)
    requires |r| == 16
    ensures var f := r[15] != b;
            Coef(StepPoly(r, b), i) ==
            (if i == 16 then false else Coef(r, i - 1) != (f && (i == 0 || i == 5 || i == 12)))
  {
  }

  /** The remainder is unique. */
  lemma RemainderUnique(m: Poly, q1: Poly, r1: Poly, q2: Poly, r2: Poly)
    requires Divides(m, q1, r1) && Divides(m, q2, r2)
    ensures r1 == r2
  {
    var top := if |q1| > |q2| then |q1| else |q2|;
    QuotientSame(m, q1, r1, q2, r2, top);
    forall i | 0 <= i < 16
      ensures r1[i] == r2[i]
    {
      assert Coef(m, i - 16) == (TimesGenerator(q1, i) != Coef(r1, i));
      assert Coef(m, i - 16) == (TimesGenerator(q2, i) != Coef(r2, i));
    }
  }

  /** From the top coefficient down, the quotients agree. */
  lemma {:induction false} QuotientSame(m: Poly, q1: Poly, r1: Poly, q2: Poly, r2: Poly, k: nat)
    requires Divides(m, q1, r1) && Divides(m, q2, r2)
    requires forall i :: k <= i ==> Coef(q1, i) == Coef(q2, i)
    ensures forall i :: Coef(q1, i) == Coef(q2, i)
  {
    if k != 0 {
      var i := k - 1 + 16;
      assert Coef(m, i - 16) == (TimesGenerator(q1, i) != Coef(r1, i));
      assert Coef(m, i - 16) == (TimesGenerator(q2, i) != Coef(r2, i));
      QuotientSame(m, q1, r1, q2, r2, k - 1);
    }
  }

  // ---- the code against the reference ----

  /** A message bit enters at the top of the register. */
  function ShiftIn(crc: Reg, b: bool): Reg {
    Shift(if b then Xor(crc, HIGH) else crc)
  }

  lemma DoubleXor(c: Reg, w: Reg)
    ensures Double(Xor(c, w)) == Xor(Double(c), Double(w))
  {
  }

  lemma TopXor(c: Reg, w: Reg)
    ensures Top(Xor(c, w)) == (Top(c) != Top(w))
  {
  }

  lemma SwapXor(c: Reg, w: Reg, k: Reg)
    ensures Xor(Xor(c, w), k) == Xor(Xor(c, k), w)
    ensures Xor(c, ZERO) == c
  {
  }

  lemma HighBit()
    ensures Double(HIGH) == ZERO && Top(HIGH)
  {
  }

  /** Shifting a bit in: the register doubles, and the generator goes in when bit and top differ. */
  lemma ShiftInForm(crc: Reg, b: bool)
    ensures ShiftIn(crc, b) == Xor(Double(crc), if Top(crc) != b then GENERATOR else ZERO)
  {
    hide Xor, Top, Double;
    HighBit();
    DoubleXor(crc, HIGH);
    TopXor(crc, HIGH);
    SwapXor(Double(crc), ZERO, ZERO);
  }

  /** What was xored into the register comes out at its top. */
  lemma ShiftXor(crc: Reg, w: Reg)
    ensures Shift(Xor(crc, w)) == Xor(ShiftIn(crc, Top(w)), Double(w))
  {
    hide Xor, Top, Double, ShiftIn;
    ShiftInForm(crc, Top(w));
    DoubleXor(crc, w);
    TopXor(crc, w);
    SwapXor(Double(crc), Double(w), GENERATOR);
    SwapXor(Double(crc), ZERO, ZERO);
  }

  lemma ShiftInIsStep(crc: Reg, b: bool)
    ensures ShiftIn(crc, b) == StepPoly(crc, b)
  {
    hide ShiftIn;
    ShiftInForm(crc, b);
    ConstantBits();
  }

  lemma ConstantBits()
    ensures forall i :: 0 <= i < 16 ==> GENERATOR[i] == (i == 0 || i == 5 || i == 12) && !ZERO[i]
  {
  }

  /** w << k */
  function Left(w: Reg, k: nat): Reg {
    seq(16, i requires 0 <= i < 16 => if i < k then false else w[i - k])
  }

  lemma DoubleLeft(w: Reg, k: nat)
    ensures Left(w, 0) == w && Double(Left(w, k)) == Left(w, k + 1)
    ensures k < 16 ==> Top(Left(w, k)) == w[15 - k]
  {
  }

  function ShiftInAll(crc: Reg, bits: seq<bool>): Reg
    decreases |bits|
  {
    if bits == [] then crc else ShiftInAll(ShiftIn(crc, bits[0]), bits[1..])
  }

  /** The bits of w from the top, n of them, after k have left. */
  function TopBits(w: Reg, k: nat, n: nat): seq<bool>
    requires k + n <= 16
    decreases n
  {
    if n == 0 then [] else [w[15 - k]] + TopBits(w, k + 1, n - 1)
  }

  /** What was xored in comes out at the top, bit after bit. */
  lemma {:induction false} ShiftsXor(crc: Reg, w: Reg, k: nat, n: nat)
    requires k + n <= 16
    ensures Shifts(Xor(crc, Left(w, k)), n) == Xor(ShiftInAll(crc, TopBits(w, k, n)), Left(w, k + n))
    decreases n
  {
    hide Shift, ShiftIn, Xor, Top, Double, Left;
    if n != 0 {
      DoubleLeft(w, k);
      ShiftXor(crc, Left(w, k));
      var s := TopBits(w, k, n);
      assert s[0] == w[15 - k] && s[1..] == TopBits(w, k + 1, n - 1);
      ShiftsXor(ShiftIn(crc, w[15 - k]), w, k + 1, n - 1);
    }
  }

  lemma {:induction false} TopBitsAt(w: Reg, k: nat, n: nat)
    requires k + n <= 16
    ensures |TopBits(w, k, n)| == n && forall i :: 0 <= i < n ==> TopBits(w, k, n)[i] == w[15 - k - i]
    decreases n
  {
    if n != 0 { TopBitsAt(w, k + 1, n - 1); }
  }

  lemma WordBits(b: byte)
    ensures Left(Word(b), 0) == Word(b) && Left(Word(b), 8) == ZERO && TopBits(Word(b), 0, 8) == Bits(b)
  {
    var w := Word(b);
    assert forall i :: 0 <= i < 8 ==> !w[i] && w[15 - i] == Bits(b)[i];
    ConstantBits();
    TopBitsAt(w, 0, 8);
  }

  /** Xoring a whole byte in and shifting eight times is feeding its bits one at a time. */
  lemma FeedIsBits(crc: Reg, b: byte)
    ensures Feed(crc, b) == ShiftInAll(crc, Bits(b))
  {
    hide Shifts, ShiftInAll, Xor, Word, Bits, Left, TopBits;
    WordBits(b);
    ShiftsXor(crc, Word(b), 0, 8);
    SwapXor(ShiftInAll(crc, Bits(b)), ZERO, ZERO);
  }

  /** The message as bits, in transmission order. */
  function MessageBits(bytes: seq<byte>): seq<bool> {
    if bytes == [] then [] else MessageBits(bytes[..|bytes| - 1]) + Bits(bytes[|bytes| - 1])
  }

  /** The message polynomial: the first bit sent has the highest power. */
  function MessagePoly(bits: seq<bool>): Poly {
    if bits == [] then [] else Push(bits[|bits| - 1], MessagePoly(bits[..|bits| - 1]))
  }

  /** Some quotient makes the register the remainder. */
  ghost predicate IsRemainder(bits: seq<bool>, crc: Reg) {
    exists q: Poly :: Divides(MessagePoly(bits), q, crc)
  }

  lemma NoBits(bits: seq<bool>, crc: Reg)
    requires bits == [] && crc == ZERO
    ensures IsRemainder(bits, crc)
  {
    var none: Poly := [];
    assert Divides(MessagePoly(bits), none, crc);
  }

  lemma OneBit(bits: seq<bool>, crc: Reg, b: bool)
    requires IsRemainder(bits, crc)
    ensures IsRemainder(bits + [b], ShiftIn(crc, b))
  {
    hide Divides, StepPoly, ShiftIn;
    var q: Poly :| Divides(MessagePoly(bits), q, crc);
    assert (bits + [b])[..|bits|] == bits;
    assert MessagePoly(bits + [b]) == Push(b, MessagePoly(bits));
    DivisionStepOf(MessagePoly(bits), q, crc, b);
  }

  lemma DivisionStepOf(m: Poly, q: Poly, crc: Reg, b: bool)
    requires Divides(m, q, crc)
    ensures exists q': Poly :: Divides(Push(b, m), q', ShiftIn(crc, b))
  {
    hide Divides, StepPoly, Push;
    DivisionStep(m, q, crc, b);
    ShiftInIsStep(crc, b);
  }

  lemma OneByte(bits: seq<bool>, crc: Reg, b: byte)
    requires IsRemainder(bits, crc)
    ensures IsRemainder(bits + Bits(b), Feed(crc, b))
  {
    hide IsRemainder, ShiftIn, Feed, Bits;
    SomeBits(bits, crc, Bits(b));
    FeedIsBits(crc, b);
  }

  lemma {:induction false} SomeBits(bits: seq<bool>, crc: Reg, more: seq<bool>)
    requires IsRemainder(bits, crc)
    ensures IsRemainder(bits + more, ShiftInAll(crc, more))
    decreases |more|
  {
    hide IsRemainder, ShiftIn;
    if more == [] {
      assert bits + more == bits;
    } else {
      OneBit(bits, crc, more[0]);
      SomeBits(bits + [more[0]], ShiftIn(crc, more[0]), more[1..]);
      assert bits + [more[0]] + more[1..] == bits + more;
    }
  }

  /** The checksum of a message is the remainder of its polynomial times x^16, and no other register value is. */
  lemma {:induction false} ChecksumIsRemainder(bytes: seq<byte>)
    ensures IsRemainder(MessageBits(bytes), FeedAll(ZERO, bytes))
  {
    hide IsRemainder, Feed;
    if bytes == [] {
      NoBits(MessageBits(bytes), FeedAll(ZERO, bytes));
    } else {
      ChecksumIsRemainder(bytes[..|bytes| - 1]);
      OneByte(MessageBits(bytes[..|bytes| - 1]), FeedAll(ZERO, bytes[..|bytes| - 1]), bytes[|bytes| - 1]);
    }
  }

  /** No other register value is a remainder of the same message. */
  lemma RemainderIsChecksum(bytes: seq<byte>, crc: Reg)
    requires IsRemainder(MessageBits(bytes), crc)
    ensures crc == FeedAll(ZERO, bytes)
  {
    ChecksumIsRemainder(bytes);
    hide Divides;
    var m := MessagePoly(MessageBits(bytes));
    var q1: Poly :| Divides(m, q1, crc);
    var q2: Poly :| Divides(m, q2, FeedAll(ZERO, bytes));
    RemainderUnique(m, q1, crc, q2, FeedAll(ZERO, bytes));
  }
}
