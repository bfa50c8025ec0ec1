/**
  The mask of the fragments received so far (libopen-mx/omx_types.h,
  omx_recv.c): a word of 32 bits, while Fragments keeps a set of numbers.
*/
module FragMasks {
  const MASK_BITS := 32

  /** frags_received_mask, lowest bit first. */
  type Mask = m: seq<bool> | |m| == MASK_BITS witness seq(MASK_BITS, _ => false)

  /** The bit of 1 << frag.  The C standard ends at 31; the shift instructions of the x86 go on modulo 32. */
  function Bit(frag: nat): nat {
    frag % MASK_BITS
  }

  predicate Test(mask: Mask, frag: nat) {
    mask[Bit(frag)]
  }

  function Set(mask: Mask, frag: nat): Mask {
    mask[Bit(frag) := true]
  }

  /** The mask after these fragments. */
  function MaskOf(frags: seq<nat>): Mask {
    if frags == [] then seq(MASK_BITS, _ => false) else Set(MaskOf(frags[..|frags| - 1]), frags[|frags| - 1])
  }

  lemma {:induction false} MaskHolds(frags: seq<nat>, frag: nat)
    ensures Test(MaskOf(frags), frag) <==> exists g :: g in frags && Bit(g) == Bit(frag)
  {
    if frags != [] {
      var last := |frags| - 1;
      MaskHolds(frags[..last], frag);
      assert frags == frags[..last] + [frags[last]];
    }
  }

  /** All fragments are below n, and so is the one asked for. */
  ghost predicate AllBelow(frags: seq<nat>, frag: nat, n: nat) {
    frag < n && forall g :: g in frags ==> g < n
  }

  /** The mask tells which fragments have come, whatever came before. */
  ghost predicate Tells(n: nat) {
    forall frags, frag | AllBelow(frags, frag, n) :: Test(MaskOf(frags), frag) <==> frag in frags
  }

  /** The mask of a message of n fragments is the set of those received if and only if n is at most 32. */
  lemma MaskIsSet(n: nat)
    ensures Tells(n) <==> n <= 32
  {
    if n <= 32 {
      forall frags, frag | AllBelow(frags, frag, n)
        ensures Test(MaskOf(frags), frag) <==> frag in frags
      {
        MaskHolds(frags, frag);
      }
    } else {
      MaskHolds([0], 32);
      assert AllBelow([0], 32, n) && 0 in [0];
    }
  }
}
