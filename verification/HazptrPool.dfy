// A pool of hazard pointers, run by one thread (hazard_pointer.cpp:43-160).
//
// BlockOwnership.dfy has what several threads do to the bitmap; here the storage is
// the flat array of the source, and the loops over it are the source's.

module HazptrPool {
  import opened Blocks
  import opened Counting
  import opened Options
  import opened HazptrValues

  /** An address inside a pool's storage. */
  datatype Addr = Addr(pool: HazptrPool, offset: nat)

  class HazptrPool {
    const blkSize: nat
    const hpCount: nat
    const hazPtrs: array<nat>
    var bitmap: set<nat>
    var next: HazptrPool?

    function View(): Pool
      reads this, hazPtrs
    {
      Pool(blkSize, hazPtrs[..], bitmap)
    }

    ghost predicate Valid()
      reads this, hazPtrs
    {
      PoolOk(View()) && FreeNull(View()) && hpCount == hazPtrs.Length
    }

    constructor (blocksize: nat)
      ensures Valid() && View() == NewPool(blocksize) && next == null && fresh(hazPtrs)
    {
      blkSize, hpCount := blocksize, blocksize * BLOCKS;
      hazPtrs := new nat[blocksize * BLOCKS](_ => 0);
      bitmap, next := {}, null;
      new;
      assert hazPtrs[..] == NewPool(blocksize).slots;
    }

    /** The first free block, as an address; none if the size is wrong or all are taken. */
    method ReserveImpl(len: nat) returns (reserved: Option<Addr>)
      requires Valid()
      modifies this
      ensures Valid() && next == old(next)
      ensures var (p, ix) := Reserve(old(View()), len);
              View() == p && reserved == (if ix < BLOCKS then Some(Addr(this, Base(ix, blkSize))) else None)
    {
      ReserveKeeps(View(), len);
      reserved := None;
      var expected := bitmap;
      if len != blkSize {
        return;
      }
      var ix: nat := 0;
      while ix < BLOCKS && ix in expected
        invariant ix <= BLOCKS && Scan(expected, 0) == Scan(expected, ix)
      {
        ix := ix + 1;
      }
      if ix < BLOCKS {
        // With one thread the compare-and-swap of the bitmap succeeds.
        bitmap := expected + {ix};
        reserved := Some(Addr(this, Base(ix, blkSize)));
      }
    }

    /**
     * Frees the block that starts at `ptr`, if that is in the range of this pool's storage: nulls
     * it, then clears its bit.  A pool of blocks of no hazard pointers has an empty range.
     */
    method ReleaseImpl(ptr: Addr, ghost ix: nat) returns (released: bool)
      requires Valid() && (ptr.pool == this ==> ix in bitmap && ptr.offset == Base(ix, blkSize))
      modifies if ptr.pool == this then {this, hazPtrs} else {}
      ensures released == (ptr.pool == this && blkSize > 0) && Valid() && next == old(next)
      ensures ptr.pool == this ==> ix < BLOCKS && View() == Release(old(View()), ix)
      ensures ptr.pool != this ==> View() == old(View())
    {
      if ptr.pool == this {
        ReleaseKeeps(View(), ix);
        ReleaseFinds(View(), ix);
        BaseFits(ix, blkSize);
      }
      if ptr.pool != this || ptr.offset >= hpCount {
        return false;
      }
      NullBlock(ptr.offset);
      var iy: nat := 0;
      while iy < BLOCKS && ptr.offset != Base(iy, blkSize)
        invariant iy <= ix
      {
        iy := iy + 1;
      }
      if iy < ix {
        BasesApart(iy, ix, blkSize);
      }
      // With one thread the compare-and-swap of the bitmap succeeds.
      bitmap := Flip(bitmap, iy);
      released := true;
    }

    /** Stores null to every slot of a block that is not null. */
    method NullBlock(offset: nat)
      requires offset + blkSize <= hazPtrs.Length
      modifies hazPtrs
      ensures hazPtrs[..] == Nulled(old(hazPtrs[..]), offset, offset + blkSize)
    {
      var x: nat := 0;
      while x < blkSize
        invariant x <= blkSize
        invariant forall k | 0 <= k < hazPtrs.Length ::
          hazPtrs[k] == if offset <= k < offset + x then 0 else old(hazPtrs[..])[k]
      {
        if hazPtrs[offset + x] != 0 {
          hazPtrs[offset + x] := 0;
        }
        x := x + 1;
      }
    }

    /** Copies the non-null pointers of the whole pool to `dest`, from `start` on. */
    method CopyHazardPointers(dest: array<nat>, start: nat) returns (count: nat)
      requires Valid() && dest != hazPtrs && start + hpCount <= dest.Length
      modifies dest
      ensures count == |NonNull(hazPtrs[..])| <= hpCount
      ensures start + count <= dest.Length && dest[start..start + count] == NonNull(hazPtrs[..])
      ensures dest[..start] == old(dest[..start])
    {
      count := 0;
      var ixSrc := 0;
      while ixSrc < hpCount
        invariant ixSrc <= hpCount && count == |NonNull(hazPtrs[..ixSrc])| <= ixSrc
        invariant dest[start..start + count] == NonNull(hazPtrs[..ixSrc])
        invariant dest[..start] == old(dest[..start])
      {
        var p := hazPtrs[ixSrc];
        assert hazPtrs[..ixSrc + 1] == hazPtrs[..ixSrc] + [p];
        NonNullLast(hazPtrs[..ixSrc], p);
        if 0 != p {
          dest[start + count] := p;
          count := count + 1;
        }
        ixSrc := ixSrc + 1;
      }
      assert hazPtrs[..] == hazPtrs[..hpCount];
    }
  }
}
