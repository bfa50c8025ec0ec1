/**
  The 16-bit numbers carried by messages and acks: 14 bits of sequence and
  2 bits of session (libopen-mx/omx_types.h).  The C macros mask a difference
  of two such numbers; on two's-complement words that mask is the Euclidean
  remainder, which is how it is written here.
*/
module Seqnums {

  /** 1 << OMX__SEQNUM_BITS */
  const SEQNUMS := 0x4000

  /** omx__seqnum_t */
  type Seqnum = x: int | 0 <= x < 0x10000

  /** The session part, shifted down: two bits. */
  type Session = x: int | 0 <= x < 4

  /** OMX__EARLY_PACKET_OFFSET_MAX */
  const EARLY_MAX := 0xff

  /** OMX__THROTTLING_OFFSET_MAX, half of the sequence mask. */
  const WINDOW := (SEQNUMS - 1) / 2

  /** OMX__SEQNUM */
  function Seq(x: int): nat {
    x % SEQNUMS
  }

  /** OMX__SESNUM_SHIFTED */
  function Ses(x: Seqnum): Session {
    x / SEQNUMS
  }

  /** OMX__SEQNUM_INCREASE_BY(x, 1): the session bits do not move. */
  function Increase(x: Seqnum): Seqnum {
    Ses(x) * SEQNUMS + Seq(x + 1)
  }

  /** The number on the wire of the n-th message of a session. */
  function Wire(ses: Session, n: nat): Seqnum {
    ses * SEQNUMS + n % SEQNUMS
  }

  lemma WireSession(ses: Session, n: nat)
    ensures Ses(Wire(ses, n)) == ses
  {
  }

  /** The masked difference of two wire numbers is the true difference, reduced. */
  lemma WireOffset(ses: Session, a: nat, b: nat)
    ensures Seq(Wire(ses, a) - Wire(ses, b)) == (a - b) % SEQNUMS
  {
    var qa, qb := a / SEQNUMS, b / SEQNUMS;
    assert Wire(ses, a) - Wire(ses, b) == (a - b) + (qb - qa) * SEQNUMS;
  }

  /** Within one turn of the counter the masked difference is exact. */
  lemma WireDistance(ses: Session, a: nat, b: nat)
    requires b <= a < b + SEQNUMS
    ensures Seq(Wire(ses, a) - Wire(ses, b)) == a - b
  {
    WireOffset(ses, a, b);
  }

  /** A number from behind wraps to the top of the range. */
  lemma WireBehind(ses: Session, a: nat, b: nat)
    requires a < b <= a + SEQNUMS
    ensures Seq(Wire(ses, a) - Wire(ses, b)) == SEQNUMS - (b - a)
  {
    WireOffset(ses, a, b);
  }

  lemma WireIncrease(ses: Session, n: nat)
    ensures Increase(Wire(ses, n)) == Wire(ses, n + 1)
  {
    WireSession(ses, n);
  }

  /** Two numbers less than a turn apart have the same wire form only if equal. */
  lemma WireInjective(ses: Session, a: nat, b: nat)
    requires a < b + SEQNUMS && b < a + SEQNUMS
    ensures Wire(ses, a) == Wire(ses, b) <==> a == b
  {
    WireOffset(ses, a, b);
  }
}
