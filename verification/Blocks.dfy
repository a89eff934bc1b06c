// The bitmap of a hazard pointer pool, one bit a block of hazard pointers
// (hazard_pointer.hpp:123-130): the set of its bits that are set.

module Blocks {
  import opened Powers

  const BLOCKS: nat := 32

  /** The first clear bit from `ix` on, as the mask is shifted up. */
  function Scan(expected: set<nat>, ix: nat): (r: nat)
    requires ix <= BLOCKS
    ensures ix <= r <= BLOCKS
    ensures r < BLOCKS ==> r !in expected
    ensures forall k | ix <= k < r :: k in expected
    decreases BLOCKS - ix
  {
    if ix < BLOCKS && ix in expected then Scan(expected, ix + 1) else ix
  }

  function Flip(bits: set<nat>, ix: nat): set<nat> {
    if ix in bits then bits - {ix} else bits + {ix}
  }

  /** Where a block starts in the pool's storage. */
  function Base(ix: nat, blk: nat): nat {
    ix * blk
  }

  lemma BaseFits(ix: nat, blk: nat)
    requires ix < BLOCKS
    ensures Base(ix, blk) + blk <= Base(BLOCKS, blk)
  {
    BasesApart(ix, BLOCKS, blk);
  }

  /** Blocks do not overlap. */
  lemma BasesApart(ix: nat, iy: nat, blk: nat)
    requires ix < iy
    ensures Base(ix, blk) + blk <= Base(iy, blk)
  {
    MultipleGap(ix, iy, blk);
  }

  /** Every slot is in some block. */
  lemma BlockOf(k: nat, blk: nat) returns (ix: nat)
    requires k < Base(BLOCKS, blk)
    ensures ix < BLOCKS && Base(ix, blk) <= k < Base(ix, blk) + blk
  {
    ix := k / blk;
  }
}
