// A context: one thread's hazard pointers and its array of retired items
// (hazard_pointer.hpp:561-701), run by one thread.

module HazptrContext {
  import opened Blocks
  import opened HazptrValues
  import opened HazptrPool
  import opened HazptrSnapshot
  import opened HazptrDomain

  class HazardPointerContext {
    const domain: HazptrDomain
    const deleted: array<nat>
    var delIndex: nat
    const hazardPtrs: Addr
    const size: nat
    /** The number of this context's pool, oldest first, and of its block. */
    ghost const pool: nat
    ghost const ix: nat

    /** The array and how far it is filled. */
    function Items(): Retired
      reads this, deleted
    {
      Retired(deleted[..], delIndex)
    }

    /** The block at `hazardPtrs` is reserved. */
    ghost predicate HasBlock()
      reads hazardPtrs.pool
    {
      ix in hazardPtrs.pool.bitmap && size == hazardPtrs.pool.blkSize && hazardPtrs.offset == Base(ix, size)
    }

    /** The domain is in order, and the block is one of its blocks. */
    ghost predicate Attached()
      reads this, domain, domain.pools, Storage(domain.pools), domain.pending
    {
      && domain.Valid() && pool < |domain.pools| && hazardPtrs.pool == domain.pools[pool] && HasBlock()
      && deleted !in Storage(domain.pools)
    }

    ghost predicate Valid()
      reads this, deleted, domain, domain.pools, Storage(domain.pools), domain.pending
    {
      Attached() && RetiredOk(Items()) && deleted.Length <= MAX_ITEMS
    }

    constructor (dom: HazptrDomain, reserved: Addr, S: nat, R: nat, ghost pool: nat, ghost ix: nat)
      ensures domain == dom && hazardPtrs == reserved && size == S && this.pool == pool && this.ix == ix
      ensures fresh(deleted) && Items() == Retired(seq(R, _ => 0), 0)
    {
      domain, hazardPtrs, size := dom, reserved, S;
      deleted, delIndex := new nat[R](_ => 0), 0;
      this.pool, this.ix := pool, ix;
    }

    /**
     * A context with a block of its own.  The block comes out of the domain all null, so that
     * constructing hazard pointers in it changes nothing.
     */
    static method Make(dom: HazptrDomain, S: nat, R: nat) returns (c: HazardPointerContext)
      requires dom.Valid() && R <= MAX_ITEMS
      requires dom.pools != [] ==> CanServe(Views(dom.pools)[|dom.pools| - 1], S)
      modifies dom, dom.pools
      ensures fresh(c) && fresh(c.deleted) && c.Valid() && c.domain == dom
      ensures c.Items() == Retired(seq(R, _ => 0), 0)
      ensures var (d, i) := DomReserve(old(dom.View()), S);
              dom.View() == d && c.pool == |dom.pools| - 1 && c.ix == i && c.size == S
      ensures dom.pools == old(dom.pools) || (old(dom.pools) == [] && |dom.pools| == 1 && fresh(dom.pools[0]) && fresh(dom.pools[0].hazPtrs))
      ensures dom.pending == old(dom.pending)
    {
      hide *;
      ghost var i := DomReserve(dom.View(), S).1;
      var reservation := dom.Reserve(S);
      c := Attach(dom, reservation, S, R, i);
    }

    static method Attach(dom: HazptrDomain, reserved: Addr, S: nat, R: nat, ghost i: nat) returns (c: HazardPointerContext)
      requires dom.Valid() && R <= MAX_ITEMS && |dom.pools| > 0
      requires reserved == Addr(dom.pools[|dom.pools| - 1], Base(i, S))
      requires i in reserved.pool.bitmap && reserved.pool.blkSize == S
      ensures dom.Valid() && dom.View() == old(dom.View())
      ensures fresh(c) && fresh(c.deleted) && c.Valid() && c.domain == dom
      ensures c.Items() == Retired(seq(R, _ => 0), 0) && c.pool == |dom.pools| - 1 && c.ix == i && c.size == S
    {
      hide PoolOk, FreeNull, HpCount, PoolsApart, Payloads;
      ghost var vs, ps := Views(dom.pools), dom.pools;
      c := new HazardPointerContext(dom, reserved, S, R, |dom.pools| - 1, i);
      assert PoolsAre(ps, dom.poolsHead, dom.hpCount, vs);
      NullArray(R, 1);
    }

    /** Stores a pointer to one of the context's hazard pointers. */
    method Store(index: nat, ptr: nat)
      requires hazardPtrs.pool.Valid() && HasBlock() && index < size
      modifies hazardPtrs.pool.hazPtrs
      ensures hazardPtrs.pool.Valid()
      ensures hazardPtrs.offset + index < hazardPtrs.pool.hazPtrs.Length
      ensures hazardPtrs.pool.hazPtrs[..] == old(hazardPtrs.pool.hazPtrs[..])[hazardPtrs.offset + index := ptr]
    {
      ghost var p := hazardPtrs.pool.View();
      hide PoolOk, FreeNull, Base;
      StoreInBlock(p, ix, index, ptr);
      hazardPtrs.pool.hazPtrs[hazardPtrs.offset + index] := ptr;
      assert hazardPtrs.pool.View() == p.(slots := p.slots[Base(ix, p.blk) + index := ptr]);
    }

    /** What a store means for the domain: the one slot of one pool is written. */
    method StoreAttached(index: nat, ptr: nat)
      requires Attached() && index < size
      modifies hazardPtrs.pool.hazPtrs
      ensures Attached() && Base(ix, size) + index < |old(domain.View()).pools[pool].slots|
      ensures domain.View() == StoreSlot(old(domain.View()), pool, Base(ix, size) + index, ptr)
    {
      hide PoolOk, FreeNull, HpCount, Payloads, Chain, NoTwice, Base, Linked, PoolsValid, PoolsApart, AsListed, Views;
      ghost var vs := Views(domain.pools);
      WhatPoolsAre(domain.pools, domain.poolsHead, domain.hpCount, vs);
      StoreListed(index, ptr, vs);
      WasStored(domain.pools, vs, pool, Base(ix, size) + index, ptr);
    }

    method StoreListed(index: nat, ptr: nat, ghost vs: seq<Pool>)
      requires HasBlock() && index < size && AsListed(domain.pools, vs) && PoolsApart(domain.pools)
      requires pool < |domain.pools| && hazardPtrs.pool == domain.pools[pool]
      modifies hazardPtrs.pool.hazPtrs
      ensures pool < |vs| && Base(ix, size) + index < |vs[pool].slots|
      ensures AsListed(domain.pools, vs[pool := Stored(vs[pool], Base(ix, size) + index, ptr)])
    {
      hide PoolOk, FreeNull, Base;
      PoolApart(domain.pools, pool);
      Store(index, ptr);
    }

    /** The sweep of `reclaim`: unprotected items are reclaimed and nulled, the fill index going down. */
    method SweepItems(hps: HazptrsSnapshot, ghost vs: seq<Pool>)
      requires hps.Valid() && hps.ptrvalues != deleted && deleted.Length <= MAX_ITEMS
      requires forall p: nat :: p in hps.Values() <==> Protected(vs, p)
      requires delIndex < SIZE_T
      modifies this, deleted, domain
      ensures Items() == Retired(Swept(vs, old(deleted[..])), SweptIndex(vs, old(Items())))
      ensures domain.reclaimed == old(domain.reclaimed) + Gone(vs, old(deleted[..]))
      ensures unchanged(domain`poolsHead) && unchanged(domain`hpCount) && unchanged(domain`pools)
      ensures unchanged(domain`deleteHead) && unchanged(domain`deleteCount) && unchanged(domain`pending)
    {
      hide Protected, Gone;
      ghost var items, index: nat, values := deleted[..], delIndex, hps.Values();
      var x := 0;
      GoneStarts(vs, items);
      while x < deleted.Length
        invariant x <= deleted.Length && hps.Valid() && hps.Values() == values
        invariant forall k | 0 <= k < x :: deleted[k] == if Protected(vs, items[k]) then items[k] else 0
        invariant deleted[x..] == items[x..]
        invariant delIndex == (index - |Gone(vs, items[..x])|) % SIZE_T
        invariant domain.reclaimed == old(domain.reclaimed) + Gone(vs, items[..x])
        invariant unchanged(domain`poolsHead) && unchanged(domain`hpCount) && unchanged(domain`pools)
        invariant unchanged(domain`deleteHead) && unchanged(domain`deleteCount) && unchanged(domain`pending)
      {
        GoneNext(vs, items, x);
        assert deleted[x] == deleted[x..][0] == items[x];
        var found := hps.Search(deleted[x]);
        if !found {
          OneLess(index, |Gone(vs, items[..x])|);
          delIndex := (delIndex - 1) % SIZE_T;
          domain.ReclaimObject(deleted[x]);
          deleted[x] := 0;
        }
        x := x + 1;
      }
      assert items[..x] == items;
    }

    /** Moves the remaining items to the front, from both ends inwards. */
    method CloseUp()
      requires deleted.Length > 0
      modifies deleted
      ensures deleted[..] == Compact(old(deleted[..]), 0, deleted.Length - 1)
    {
      var ixd: nat, ixs: nat := 0, deleted.Length - 1;
      ghost var all := Compact(deleted[..], 0, deleted.Length - 1);
      while ixd < ixs
        invariant ixs < deleted.Length && all == Compact(deleted[..], ixd, ixs)
        decreases ixs as int - ixd, 2
      {
        ghost var gap := ixs - ixd;
        while deleted[ixd] != 0 && ixd < ixs
          invariant ixd <= ixs < deleted.Length && all == Compact(deleted[..], ixd, ixs)
          invariant ixs - ixd <= gap
          decreases ixs - ixd
        {
          ixd := ixd + 1;
        }
        while deleted[ixs] == 0 && ixd < ixs
          invariant ixd <= ixs < deleted.Length && all == Compact(deleted[..], ixd, ixs)
          invariant ixs - ixd <= gap && (ixd < ixs ==> deleted[ixd] == 0)
          decreases ixs - ixd
        {
          ixs := ixs - 1;
        }
        if deleted[ixs] != 0 && deleted[ixd] == 0 {
          ghost var was := deleted[..];
          deleted[ixs], deleted[ixd] := deleted[ixd], deleted[ixs];
          assert deleted[..] == was[ixd := was[ixs]][ixs := 0];
          ixd := ixd + 1;
          ixs := ixs - 1;
        }
      }
    }

    /**
     * Reclaims what it can of the array.  Meant for a full array; ReclaimIndex says what the fill
     * index is worth otherwise.
     */
    method Reclaim()
      requires Attached() && delIndex <= deleted.Length <= MAX_ITEMS
      modifies this, deleted, domain, domain.pending
      ensures Attached() && domain.pools == old(domain.pools)
      ensures (domain.View(), Items()) == HazptrValues.Reclaim(old(domain.View()), old(Items()))
      ensures forall k | 0 <= k < |domain.pending| :: domain.pending[k] in old(domain.pending) || fresh(domain.pending[k])
    {
      hide Protected, Gone, Swept, Compact, SweptIndex, PoolOk, FreeNull, HpCount, Payloads, EnqueueAll, Linked, PoolsValid, Chain, NoTwice;
      EmptyIndex(domain.View().pools, Items());
      SweepAll();
      if delIndex == deleted.Length {
        SpillAll();
      } else {
        CloseUpAttached();
      }
    }

    /** The sweep against a snapshot of the domain as it is. */
    method SweepAll()
      requires Attached() && delIndex <= deleted.Length <= MAX_ITEMS
      modifies this, deleted, domain
      ensures Attached() && domain.pools == old(domain.pools) && domain.pending == old(domain.pending)
      ensures var vs := old(domain.View()).pools;
              && Items() == Retired(Swept(vs, old(deleted[..])), SweptIndex(vs, old(Items())))
              && domain.View() == old(domain.View()).(reclaimed := old(domain.reclaimed) + Gone(vs, old(deleted[..])))
    {
      hide Protected, Gone, SweptIndex, PoolOk, FreeNull, HpCount, Payloads, PoolsApart, Linked, PoolsValid, Views;
      ghost var vs := Views(domain.pools);
      var hps := domain.Snapshot();
      SweepItems(hps, vs);
      assert PoolsAre(domain.pools, domain.poolsHead, domain.hpCount, vs);
    }

    method SpillAll()
      requires Attached()
      modifies this, deleted, domain, domain.pending
      ensures Attached() && domain.pools == old(domain.pools)
      ensures domain.View() == HazptrValues.EnqueueAll(old(domain.View()), old(deleted[..]))
      ensures Items() == Retired(seq(deleted.Length, _ => 0), 0)
      ensures forall k | 0 <= k < |domain.pending| :: domain.pending[k] in old(domain.pending) || fresh(domain.pending[k])
    {
      hide PoolOk, FreeNull, HpCount, Payloads, PoolsApart, Linked, PoolsValid, Views, HazptrValues.EnqueueAll, Chain, NoTwice;
      domain.EnqueueAll(deleted);
      delIndex := 0;
      assert deleted[..] == seq(deleted.Length, _ => 0);
    }

    method CloseUpAttached()
      requires Attached() && deleted.Length > 0
      modifies deleted
      ensures Attached() && domain.View() == old(domain.View())
      ensures deleted[..] == Compact(old(deleted[..]), 0, deleted.Length - 1)
    {
      hide PoolOk, FreeNull, HpCount, Payloads, PoolsApart, Linked, PoolsValid, Views, Compact;
      ghost var vs := Views(domain.pools);
      CloseUp();
      assert PoolsAre(domain.pools, domain.poolsHead, domain.hpCount, vs);
    }

    /** Fills in the next item. */
    method PutItem(itemPtr: nat)
      requires Attached() && delIndex < deleted.Length
      modifies this, deleted
      ensures Attached() && domain.View() == old(domain.View())
      ensures Items() == Retired(old(deleted[..])[old(delIndex) := itemPtr], old(delIndex) + 1)
    {
      hide PoolOk, FreeNull, HpCount, Payloads, PoolsApart, Linked, PoolsValid, Views;
      ghost var vs := Views(domain.pools);
      deleted[delIndex] := itemPtr;
      delIndex := delIndex + 1;
      assert PoolsAre(domain.pools, domain.poolsHead, domain.hpCount, vs);
    }

    /** Gives up an object, which the source does not test for null: into the array, or to the domain. */
    method DeleteItem(itemPtr: nat)
      requires Valid()
      modifies this, deleted, domain, domain.pending
      ensures Attached() && domain.pools == old(domain.pools)
      ensures (domain.View(), Items()) == HazptrValues.DeleteItem(old(domain.View()), old(Items()), itemPtr)
      ensures itemPtr != 0 ==> RetiredOk(Items())
      ensures forall k | 0 <= k < |domain.pending| :: domain.pending[k] in old(domain.pending) || fresh(domain.pending[k])
    {
      hide HazptrValues.Reclaim, HazptrValues.Enqueue, PoolOk, FreeNull, HpCount, Payloads, Linked, PoolsValid, Chain, NoTwice;
      if deleted.Length > 0 {
        PutItem(itemPtr);
        if delIndex == deleted.Length {
          if itemPtr != 0 {
            ReclaimIs(domain.View(), Items(), 1);
          }
          Reclaim();
        }
      } else {
        EnqueueOne(itemPtr);
      }
    }

    method EnqueueOne(itemPtr: nat)
      requires Attached()
      modifies domain, domain.pending
      ensures Attached() && domain.pools == old(domain.pools)
      ensures domain.View() == HazptrValues.Enqueue(old(domain.View()), itemPtr)
      ensures forall k | 0 <= k < |domain.pending| :: domain.pending[k] in old(domain.pending) || fresh(domain.pending[k])
    {
      hide HazptrValues.Enqueue, PoolOk, FreeNull, HpCount, Payloads, Linked, PoolsValid, Chain, NoTwice;
      domain.Enqueue(itemPtr);
    }

    /**
     * The destructor: the block is released, the items go to the domain, which collects.  The
     * domain asserts that a pool has released the block, which fails for blocks of no slots.
     */
    method Destroy()
      requires Valid() && size > 0
      modifies deleted, domain, domain.pending, hazardPtrs.pool, hazardPtrs.pool.hazPtrs
      ensures domain.Valid() && domain.pools == old(domain.pools)
      ensures pool < |old(domain.View()).pools| && ix < BLOCKS && PoolOk(old(domain.View()).pools[pool])
      ensures domain.View() == CloseContext(old(domain.View()), pool, ix, old(Items()))
      ensures forall k | 0 <= k < |domain.pending| :: domain.pending[k] in old(domain.pending) || fresh(domain.pending[k])
    {
      hide HazptrValues.EnqueueAll, HazptrValues.Collect, HazptrValues.Release, PoolOk, FreeNull, HpCount, Payloads;
      var released := ReleaseBlock();
      assert released;
      domain.EnqueueAll(deleted);
      domain.Collect();
    }

    /** Finds the block if and only if it has at least one hazard pointer. */
    method ReleaseBlock() returns (released: bool)
      requires Attached()
      modifies hazardPtrs.pool, hazardPtrs.pool.hazPtrs
      ensures released == (size > 0) && domain.Valid()
      ensures domain.pools == old(domain.pools) && domain.pending == old(domain.pending)
      ensures deleted[..] == old(deleted[..])
      ensures pool < |old(domain.View()).pools| && ix < BLOCKS && PoolOk(old(domain.View()).pools[pool])
      ensures var d := old(domain.View());
              domain.View() == d.(pools := d.pools[pool := HazptrValues.Release(d.pools[pool], ix)])
    {
      hide HazptrValues.Release, PoolOk, FreeNull, HpCount, Payloads;
      released := domain.PoolsRelease(domain.poolsHead, hazardPtrs, pool, ix);
    }
  }

  lemma WasStored(pools: seq<HazptrPool>, vs: seq<Pool>, i: nat, n: nat, v: nat)
    requires i < |vs| && n < |vs[i].slots| && AsListed(pools, vs[i := Stored(vs[i], n, v)]) && PoolsApart(pools)
    ensures PoolsAre(pools, Head(pools), HpCount(vs), vs[i := Stored(vs[i], n, v)])
  {
    hide PoolOk, FreeNull, HpCount;
    OnePoolChanged(pools, vs, i);
  }

  /** An array of no items is always full. */
  lemma EmptyIndex(pools: seq<Pool>, r: Retired)
    ensures r.items == [] && r.index == 0 ==> SweptIndex(pools, r) == 0
  {
  }

  lemma GoneStarts(vs: seq<Pool>, items: seq<nat>)
    ensures Gone(vs, items[..0]) == []
  {
  }

  lemma {:induction false} GoneAppend(vs: seq<Pool>, a: seq<nat>, b: seq<nat>)
    ensures Gone(vs, a + b) == Gone(vs, a) + Gone(vs, b)
  {
    hide Protected;
    if a == [] {
      assert a + b == b;
    } else {
      assert (a + b)[1..] == a[1..] + b;
      GoneAppend(vs, a[1..], b);
    }
  }

  lemma GoneNext(vs: seq<Pool>, items: seq<nat>, x: nat)
    requires x < |items|
    ensures Gone(vs, items[..x + 1]) == Gone(vs, items[..x]) + if Protected(vs, items[x]) then [] else [items[x]]
  {
    hide Protected;
    assert items[..x + 1] == items[..x] + [items[x]];
    GoneAppend(vs, items[..x], [items[x]]);
    assert [items[x]][1..] == [];
  }

  /** One decrement in machine arithmetic. */
  lemma OneLess(index: nat, gone: nat)
    ensures ((index - gone) % SIZE_T - 1) % SIZE_T == (index - (gone + 1)) % SIZE_T
  {
  }

  /** A slot of a reserved block may hold anything. */
  lemma StoreInBlock(p: Pool, ix: nat, index: nat, v: nat)
    requires PoolOk(p) && FreeNull(p) && ix in p.taken && index < p.blk
    ensures Base(ix, p.blk) + index < |p.slots|
    ensures var slots: seq<nat> := p.slots[Base(ix, p.blk) + index := v];
            PoolOk(p.(slots := slots)) && FreeNull(p.(slots := slots))
  {
    BaseFits(ix, p.blk);
    hide Base;
    var slots: seq<nat> := p.slots[Base(ix, p.blk) + index := v];
    forall iy | 0 <= iy < BLOCKS && iy !in p.taken
      ensures BlockNull(p.(slots := slots), iy)
    {
      assert BlockNull(p, iy);
      BasesApart(if ix < iy then ix else iy, if ix < iy then iy else ix, p.blk);
    }
  }
}
