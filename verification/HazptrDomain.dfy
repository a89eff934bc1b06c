// The domain: its pools, and its list of pending deletes, run by one thread
// (hazard_pointer.hpp:297-435, 443-549; hazard_pointer.cpp:247-470).
//
// What the operations do to the domain as a value is in HazptrValues.dfy; what
// several threads do to the list at once is in Reclamation.dfy.

module HazptrDomain {
  import opened Blocks
  import opened Counting
  import opened Options
  import opened HazptrValues
  import opened HazptrPool
  import opened HazptrSnapshot

  class DeleteNode {
    const payload: nat
    var next: DeleteNode?

    constructor (datap: nat)
      ensures payload == datap && next == null
    {
      payload, next := datap, null;
    }
  }

  ghost function At(ns: seq<DeleteNode>, i: nat): DeleteNode? {
    if i < |ns| then ns[i] else null
  }

  /** The links lead through `ns` and then nowhere. */
  ghost predicate Chain(ns: seq<DeleteNode>)
    reads ns
  {
    forall i | 0 <= i < |ns| :: ns[i].next == At(ns, i + 1)
  }

  ghost predicate NoTwice(ns: seq<DeleteNode>) {
    forall i, j | 0 <= i < j < |ns| :: ns[i] != ns[j]
  }

  ghost function Payloads(ns: seq<DeleteNode>): (ps: seq<nat>)
    ensures |ps| == |ns| && forall i | 0 <= i < |ns| :: ps[i] == ns[i].payload
  {
    if ns == [] then [] else [ns[0].payload] + Payloads(ns[1..])
  }

  /** The list of pools that starts at `head`, and what is in them. */
  ghost predicate PoolsAre(pools: seq<HazptrPool>, head: HazptrPool?, hpCount: nat, vs: seq<Pool>)
    reads pools, Storage(pools)
  {
    && Linked(pools) && PoolsValid(pools) && PoolsApart(pools) && head == Head(pools)
    && vs == Views(pools) && hpCount == HpCount(vs)
  }

  /** Pools share no storage. */
  ghost predicate PoolsApart(pools: seq<HazptrPool>) {
    forall i, j | 0 <= i < j < |pools| :: pools[i] != pools[j] && pools[i].hazPtrs != pools[j].hazPtrs
  }

  class HazptrDomain {
    var poolsHead: HazptrPool?
    var hpCount: nat
    var deleteHead: DeleteNode?
    var deleteCount: nat
    ghost var pools: seq<HazptrPool>
    ghost var pending: seq<DeleteNode>
    /** A record of the calls of `reclaim_object`. */
    ghost var reclaimed: seq<nat>

    ghost predicate PoolsHeld()
      reads this, pools, Storage(pools)
    {
      PoolsAre(pools, poolsHead, hpCount, Views(pools))
    }

    ghost predicate ListHeld()
      reads this, pending
    {
      deleteHead == At(pending, 0) && Chain(pending) && NoTwice(pending)
    }

    ghost predicate Valid()
      reads this, pools, Storage(pools), pending
    {
      PoolsHeld() && ListHeld()
    }

    ghost function View(): Dom
      reads this, pools, Storage(pools)
    {
      Dom(Views(pools), Payloads(pending), deleteCount, reclaimed)
    }

    constructor ()
      ensures Valid() && View() == Dom([], [], 0, []) && pools == [] && pending == []
    {
      poolsHead, hpCount, deleteHead, deleteCount := null, 0, null, 0;
      pools, pending, reclaimed := [], [], [];
    }

    /** Puts a node at the head of the list; with one thread the compare-and-swap succeeds. */
    method PushDeleteNode(delNode: DeleteNode)
      requires ListHeld() && delNode !in pending
      modifies this, delNode
      ensures ListHeld() && pending == [delNode] + old(pending) && deleteCount == old(deleteCount) + 1
      ensures unchanged(`poolsHead) && unchanged(`hpCount) && unchanged(`pools) && unchanged(`reclaimed)
    {
      delNode.next := deleteHead;
      deleteHead := delNode;
      deleteCount := deleteCount + 1;
      pending := [delNode] + pending;
    }

    /**
     * Walks a private list through the link that leads to each node: nodes whose payload the
     * snapshot does not have are linked out and reclaimed.
     */
    method SweepLocal(hps: HazptrsSnapshot, localHead: DeleteNode?, ghost ns: seq<DeleteNode>, ghost vs: seq<Pool>)
      returns (head: DeleteNode?, ghost kept: seq<DeleteNode>)
      requires hps.Valid() && forall p: nat :: p in hps.Values() <==> Protected(vs, p)
      requires Chain(ns) && NoTwice(ns) && localHead == At(ns, 0)
      modifies this, ns
      ensures unchanged(`poolsHead) && unchanged(`hpCount) && unchanged(`pools)
      ensures unchanged(`deleteHead) && unchanged(`deleteCount) && unchanged(`pending)
      ensures Chain(kept) && NoTwice(kept) && head == At(kept, 0)
      ensures forall i | 0 <= i < |kept| :: kept[i] in ns
      ensures Payloads(kept) == Kept(vs, Payloads(ns)) && reclaimed == old(reclaimed) + Gone(vs, Payloads(ns))
    {
      hide Protected, Kept, Gone, Payloads, Chain, NoTwice, Sweeping;
      head, kept := localHead, ns;
      ghost var k: nat, gone: seq<nat> := 0, [];
      var prev: DeleteNode?, cur: DeleteNode? := null, head;
      SweepStarts(vs, ns);
      while cur != null
        invariant k <= |kept| && Chain(kept) && NoTwice(kept) && Subset(kept, ns)
        invariant head == At(kept, 0) && cur == At(kept, k) && prev == Before(kept, k)
        invariant Sweeping(vs, ns, kept, k, gone) && reclaimed == old(reclaimed) + gone
        invariant unchanged(`poolsHead) && unchanged(`hpCount) && unchanged(`pools)
        invariant unchanged(`deleteHead) && unchanged(`deleteCount) && unchanged(`pending)
        decreases |kept| - k
      {
        SweepSteps(vs, ns, kept, k, gone);
        NextInChain(kept, k);
        SubsetStep(kept, ns, k);
        var next := cur.next;
        var found := hps.Search(cur.payload);
        if !found {
          head := Delink(head, prev, cur, kept, k);
          gone := gone + [cur.payload];
          reclaimed := reclaimed + [cur.payload];
          kept := Dropped(kept, k);
        } else {
          prev := cur;
          k := k + 1;
        }
        cur := next;
      }
      SweepEnds(vs, ns, kept, gone);
    }

    /** Takes `cur` out of the list by the link that leads to it. */
    method Delink(localHead: DeleteNode?, prev: DeleteNode?, cur: DeleteNode, ghost ns: seq<DeleteNode>, ghost i: nat)
      returns (head: DeleteNode?)
      requires Chain(ns) && NoTwice(ns) && i < |ns| && cur == ns[i]
      requires localHead == At(ns, 0) && prev == Before(ns, i)
      modifies if prev == null then {} else {prev}
      ensures Chain(Dropped(ns, i)) && NoTwice(Dropped(ns, i)) && head == At(Dropped(ns, i), 0)
    {
      head := localHead;
      if prev == null {
        head := cur.next;
      } else {
        prev.next := cur.next;
      }
      Unchained(ns, i);
    }

    /** Pushes the nodes of a private list onto the shared one. */
    method PushBack(localHead: DeleteNode?, ghost ns: seq<DeleteNode>, ghost vs: seq<Pool>)
      requires ListHeld() && Chain(ns) && NoTwice(ns) && localHead == At(ns, 0) && Apart(ns, pending)
      modifies this, ns
      ensures unchanged(`poolsHead) && unchanged(`hpCount) && unchanged(`pools) && unchanged(`reclaimed)
      ensures ListHeld() && From(pending, ns, old(pending))
      ensures Dom(vs, Payloads(pending), deleteCount, reclaimed)
           == PushAll(Dom(vs, old(Payloads(pending)), old(deleteCount), old(reclaimed)), Payloads(ns))
    {
      hide Payloads, PushAll, Chain, NoTwice;
      ghost var all := PushAll(Dom(vs, Payloads(pending), deleteCount, reclaimed), Payloads(ns));
      ghost var rest, was := ns, pending;
      var head := localHead;
      while head != null
        invariant ListHeld() && Chain(rest) && NoTwice(rest) && head == At(rest, 0) && Apart(rest, pending)
        invariant Subset(rest, ns) && From(pending, ns, was)
        invariant unchanged(`poolsHead) && unchanged(`hpCount) && unchanged(`pools) && unchanged(`reclaimed)
        invariant all == PushAll(Dom(vs, Payloads(pending), deleteCount, reclaimed), Payloads(rest))
        decreases |rest|
      {
        PushSteps(Dom(vs, Payloads(pending), deleteCount, reclaimed), rest, pending);
        ChainTail(rest);
        var delEntry := head;
        head := head.next;
        PushDeleteNode(delEntry);
        rest := rest[1..];
      }
      assert all == Dom(vs, Payloads(pending), deleteCount, reclaimed) by {
        PushedAll(Dom(vs, Payloads(pending), deleteCount, reclaimed));
      }
    }

    /** Reclaims every pending object that no hazard pointer holds; the others stay pending. */
    method Collect()
      requires Valid()
      modifies this, pending
      ensures Valid() && View() == HazptrValues.Collect(old(View())) && pools == old(pools)
      ensures From(pending, old(pending), [])
    {
      hide Protected, PushAll, Kept, Gone, Payloads, PoolOk, FreeNull, AllSlots, HpCount, PoolsApart, Head, Linked;
      ghost var vs, ns := Views(pools), pending;
      NothingPending(View());
      var localDeleteHead := deleteHead;
      deleteHead := null;
      pending := [];
      EmptyChain();
      assert Views(pools) == vs;
      if localDeleteHead != null {
        CheckAll(localDeleteHead, ns);
      }
    }

    /** A snapshot of all hazard pointers as they are. */
    method Snapshot() returns (hps: HazptrsSnapshot)
      requires PoolsHeld()
      ensures PoolsHeld() && Views(pools) == old(Views(pools))
      ensures fresh(hps) && fresh(hps.ptrvalues) && hps.Valid()
      ensures forall p: nat :: p in hps.Values() <==> Protected(old(Views(pools)), p)
    {
      hide Protected, PoolOk, FreeNull, AllSlots, HpCount;
      ghost var vs := Views(pools);
      hps := new HazptrsSnapshot(poolsHead, pools);
      assert PoolsAre(pools, poolsHead, hpCount, vs);
    }

    /** Checks the nodes of a list that was swapped out. */
    method CheckAll(localHead: DeleteNode?, ghost ns: seq<DeleteNode>)
      requires Valid() && pending == [] && Chain(ns) && NoTwice(ns) && localHead == At(ns, 0)
      modifies this, ns
      ensures Valid() && pools == old(pools) && From(pending, ns, [])
      ensures View() == PushAll(
          old(View()).(reclaimed := old(reclaimed) + Gone(old(Views(pools)), Payloads(ns))),
          Kept(old(Views(pools)), Payloads(ns)))
    {
      hide Protected, PushAll, Kept, Gone, Payloads, PoolOk, FreeNull, AllSlots, Linked, HpCount, Chain, NoTwice, PoolsApart;
      ghost var vs := Views(pools);
      var hps := Snapshot();
      CheckAgainst(hps, localHead, ns, vs);
      assert Linked(pools) && PoolsValid(pools) && Views(pools) == vs;
    }

    method CheckAgainst(hps: HazptrsSnapshot, localHead: DeleteNode?, ghost ns: seq<DeleteNode>, ghost vs: seq<Pool>)
      requires hps.Valid() && forall p: nat :: p in hps.Values() <==> Protected(vs, p)
      requires ListHeld() && pending == [] && Chain(ns) && NoTwice(ns) && localHead == At(ns, 0)
      modifies this, ns
      ensures unchanged(`poolsHead) && unchanged(`hpCount) && unchanged(`pools)
      ensures ListHeld() && From(pending, ns, [])
      ensures Dom(vs, Payloads(pending), deleteCount, reclaimed) == PushAll(
          Dom(vs, [], old(deleteCount), old(reclaimed) + Gone(vs, Payloads(ns))), Kept(vs, Payloads(ns)))
    {
      hide Protected, PushAll, Kept, Gone, Payloads;
      EmptyChain();
      var head: DeleteNode?;
      ghost var kept;
      head, kept := SweepLocal(hps, localHead, ns, vs);
      PushBack(head, kept, vs);
    }

    /** Collects once the counter exceeds the number of hazard pointers, and restarts the counter. */
    method CollectIfRequired()
      requires Valid()
      modifies this, pending
      ensures Valid() && View() == HazptrValues.CollectIfRequired(old(View())) && pools == old(pools)
      ensures From(pending, old(pending), [])
    {
      hide Linked, Protected, PushAll, Kept, Gone, Payloads, PoolOk, FreeNull, AllSlots;
      var doCollect := false;
      ghost var vs := Views(pools);
      if deleteCount > hpCount {
        // With one thread the compare-and-swap succeeds, and zero ends the loop.
        deleteCount := 0;
        doCollect := true;
        assert Views(pools) == vs;
      }
      if doCollect {
        Collect();
      }
    }

    /** Adds a pool at the head of the list; with one thread the compare-and-swap succeeds. */
    method PoolsNew(blocklen: nat)
      requires PoolsHeld()
      modifies this
      ensures PoolsHeld() && |pools| == |old(pools)| + 1 && pools[..|old(pools)|] == old(pools)
      ensures fresh(pools[|old(pools)|]) && fresh(pools[|old(pools)|].hazPtrs)
      ensures Views(pools) == old(Views(pools)) + [NewPool(blocklen)]
      ensures unchanged(`deleteHead) && unchanged(`deleteCount) && unchanged(`pending) && unchanged(`reclaimed)
    {
      hide Linked, PoolOk, FreeNull, HpCount, NewPool, Head, PoolsApart;
      ghost var was, vs := pools, Views(pools);
      var pool := MakePool(blocklen, poolsHead);
      poolsHead := pool;
      hpCount := hpCount + pool.hpCount;
      pools := pools + [pool];
      assert Linked(was) && PoolsValid(was) && Views(was) == vs;
      AllOld(was, pool);
      OnePoolMore(was, vs, pool);
    }

    static method MakePool(blocklen: nat, head: HazptrPool?) returns (pool: HazptrPool)
      ensures fresh(pool) && fresh(pool.hazPtrs) && pool.Valid() && pool.View() == NewPool(blocklen) && pool.next == head
    {
      pool := new HazptrPool(blocklen);
      pool.next := head;
    }

    /**
     * Asks the newest pool for a block, over and over until it has one: the loop does not move on
     * to other pools.  PoolsReserveEnds says when that ends.
     */
    method PoolsReserve(head: HazptrPool?, blocklen: nat) returns (reservation: Option<Addr>)
      requires head != null ==> head.Valid() && CanServe(head.View(), blocklen)
      modifies head
      ensures head == null ==> reservation == None
      ensures head != null ==> head.Valid() && head.next == old(head.next)
      ensures head != null ==> Reserved(old(head.View()), blocklen, head, reservation)
    {
      reservation := None;
      var p := head;
      while p != null && reservation == None
        invariant p == head && (head != null ==> head.Valid() && head.next == old(head.next))
        invariant reservation == None && head != null ==> head.View() == old(head.View())
        invariant reservation != None ==> head != null && Reserved(old(head.View()), blocklen, head, reservation)
        decreases reservation == None
      {
        reservation := p.ReserveImpl(blocklen);
      }
    }

    method ReserveFromNewest(blocklen: nat) returns (reservation: Option<Addr>)
      requires PoolsHeld() && pools != [] && CanServe(Views(pools)[|pools| - 1], blocklen)
      modifies pools[|pools| - 1]
      ensures PoolsHeld() && unchanged(this) && Handed(old(Views(pools)), blocklen, pools, reservation)
    {
      hide PoolOk, FreeNull, HpCount, Scan;
      ghost var h, vs := |pools| - 1, Views(pools);
      reservation := PoolsReserve(poolsHead, blocklen);
      assert forall i | 0 <= i < h :: pools[i].View() == vs[i] && pools[i].Valid();
      OnePoolChanged(pools, vs, h);
    }

    /** Hands out a block, from a new pool if the domain has none. */
    method Reserve(blocklen: nat) returns (reservation: Addr)
      requires Valid()
      requires pools != [] ==> CanServe(Views(pools)[|pools| - 1], blocklen)
      modifies this, pools
      ensures Valid() && pending == old(pending) && |pools| > 0
      ensures pools == old(pools) || (old(pools) == [] && |pools| == 1 && fresh(pools[0]) && fresh(pools[0].hazPtrs))
      ensures var (d, ix) := DomReserve(old(View()), blocklen);
              && View() == d && ix < BLOCKS && reservation == Addr(pools[|pools| - 1], Base(ix, blocklen))
              && ix in reservation.pool.bitmap && reservation.pool.blkSize == blocklen
    {
      hide PoolOk, FreeNull, HpCount, Scan, NewPool, Linked, PoolsValid, PoolsApart, Chain, NoTwice, Payloads;
      NewPoolServes(blocklen);
      var reserved: Option<Addr> := None;
      if poolsHead != null {
        reserved := ReserveFromNewest(blocklen);
      }
      if reserved == None {
        PoolsNew(blocklen);
        reserved := ReserveFromNewest(blocklen);
      }
      reservation := reserved.value;
    }

    /** Walks the pools until one of them releases the block; none does if blocks have no slots. */
    method PoolsRelease(head: HazptrPool?, ptr: Addr, ghost i: nat, ghost ix: nat) returns (released: bool)
      requires PoolsHeld() && head == poolsHead && i < |pools| && ptr.pool == pools[i]
      requires ix in pools[i].bitmap && ptr.offset == Base(ix, pools[i].blkSize)
      modifies ptr.pool, ptr.pool.hazPtrs
      ensures released == (pools[i].blkSize > 0) && PoolsHeld() && unchanged(this)
      ensures ix < BLOCKS && PoolOk(old(Views(pools))[i])
      ensures Views(pools) == old(Views(pools))[i := HazptrValues.Release(old(Views(pools))[i], ix)]
    {
      hide PoolOk, FreeNull, HpCount, Release, PoolsApart, Linked, PoolsValid, AsListed;
      ghost var vs, k: nat := Views(pools), |pools|;
      WhatPoolsAre(pools, poolsHead, hpCount, vs);
      ValidAt(pools, i);
      BlockInRange(pools[i], ix);
      ghost var freed := vs[i := HazptrValues.Release(vs[i], ix)];
      released := false;
      var p := head;
      while p != null && !released
        invariant k <= |pools| && (!released ==> p == Newest(pools, k)) && (i < k ==> !released)
        invariant i < k ==> AsListed(pools, vs) && unchanged(ptr.pool)
        invariant k <= i ==> AsListed(pools, freed) && released == (pools[i].blkSize > 0)
        decreases k
      {
        released, p := TryRelease(p, ptr, i, ix, if i < k then vs else freed, k);
        k := k - 1;
      }
      WasFreed(pools, vs, i, ix);
    }

    /** One pool's turn; also says which pool is next. */
    method TryRelease(p: HazptrPool, ptr: Addr, ghost i: nat, ghost ix: nat, ghost vs: seq<Pool>, ghost k: nat)
      returns (released: bool, pnext: HazptrPool?)
      requires AsListed(pools, vs) && PoolsApart(pools)
      requires i < |pools| && 0 < k <= |pools| && p == pools[k - 1] && ptr.pool == pools[i]
      requires k - 1 == i ==> ix in p.bitmap && ptr.offset == Base(ix, p.blkSize)
      modifies ptr.pool, ptr.pool.hazPtrs
      ensures unchanged(this) && pnext == Newest(pools, k - 1)
      ensures k - 1 == i ==> ix < BLOCKS && i < |vs| && PoolOk(vs[i]) && released == (p.blkSize > 0)
      ensures k - 1 == i ==> AsListed(pools, vs[i := HazptrValues.Release(vs[i], ix)])
      ensures k - 1 != i ==> !released && AsListed(pools, vs) && unchanged(ptr.pool)
    {
      hide PoolOk, FreeNull, Release;
      pnext := p.next;
      if p == ptr.pool {
        PoolApart(pools, i);
        released := ReleaseHere(p, ptr, i, ix, vs);
      } else {
        released := p.ReleaseImpl(ptr, ix);
      }
    }

    method ReleaseHere(p: HazptrPool, ptr: Addr, ghost i: nat, ghost ix: nat, ghost vs: seq<Pool>)
      returns (released: bool)
      requires AsListed(pools, vs) && i < |pools| && p == pools[i] == ptr.pool
      requires forall j | 0 <= j < |pools| && j != i :: pools[j] != p && pools[j].hazPtrs != p.hazPtrs
      requires ix in p.bitmap && ptr.offset == Base(ix, p.blkSize)
      modifies p, p.hazPtrs
      ensures unchanged(this) && ix < BLOCKS && i < |vs| && PoolOk(vs[i]) && released == (p.blkSize > 0)
      ensures AsListed(pools, vs[i := HazptrValues.Release(vs[i], ix)])
    {
      hide PoolOk, FreeNull, Release;
      released := p.ReleaseImpl(ptr, ix);
    }

    /** Pushes a node for every non-null item, and nulls the items. */
    method EnqueueItems(items: array<nat>)
      requires Valid() && items !in Storage(pools)
      modifies this, items
      ensures Valid() && pools == old(pools)
      ensures View() == PushAll(old(View()), NonNull(old(items[..])))
      ensures forall k | 0 <= k < items.Length :: items[k] == 0
      ensures forall k | 0 <= k < |pending| :: pending[k] in old(pending) || fresh(pending[k])
    {
      hide PoolOk, FreeNull, HpCount, PushAll, NonNull, Payloads;
      ghost var vs := Views(pools);
      PushItems(items, vs);
      assert PoolsAre(pools, poolsHead, hpCount, vs);
    }

    method PushItems(items: array<nat>, ghost vs: seq<Pool>)
      requires ListHeld()
      modifies this, items
      ensures unchanged(`poolsHead) && unchanged(`hpCount) && unchanged(`pools) && unchanged(`reclaimed)
      ensures ListHeld() && Dom(vs, Payloads(pending), deleteCount, reclaimed)
        == PushAll(Dom(vs, old(Payloads(pending)), old(deleteCount), old(reclaimed)), NonNull(old(items[..])))
      ensures forall k | 0 <= k < items.Length :: items[k] == 0
      ensures forall k | 0 <= k < |pending| :: pending[k] in old(pending) || fresh(pending[k])
    {
      hide PushAll, NonNull, Payloads, Chain, NoTwice;
      ghost var was := items[..];
      ghost var d := Dom(vs, Payloads(pending), deleteCount, reclaimed);
      var x: nat := 0;
      PushesBegin(d, was);
      while x < items.Length
        invariant x <= items.Length && forall k | 0 <= k < items.Length :: items[k] == if k < x then 0 else was[k]
        invariant unchanged(`poolsHead) && unchanged(`hpCount) && unchanged(`pools) && unchanged(`reclaimed)
        invariant ListHeld() && forall k | 0 <= k < |pending| :: pending[k] in old(pending) || fresh(pending[k])
        invariant PushAll(d, NonNull(was))
          == PushAll(Dom(vs, Payloads(pending), deleteCount, reclaimed), NonNull(was[x..]))
      {
        NextPush(Dom(vs, Payloads(pending), deleteCount, reclaimed), was, x);
        if 0 != items[x] {
          PushNew(items[x]);
          items[x] := 0;
        }
        x := x + 1;
      }
      PushesEnd(Dom(vs, Payloads(pending), deleteCount, reclaimed), was);
    }

    method PushNew(itemPtr: nat)
      requires ListHeld()
      modifies this
      ensures unchanged(`poolsHead) && unchanged(`hpCount) && unchanged(`pools) && unchanged(`reclaimed)
      ensures ListHeld() && Payloads(pending) == [itemPtr] + old(Payloads(pending)) && deleteCount == old(deleteCount) + 1
      ensures forall k | 0 <= k < |pending| :: pending[k] in old(pending) || fresh(pending[k])
    {
      var node := new DeleteNode(itemPtr);
      PushDeleteNode(node);
      assert pending[1..] == old(pending);
    }

    /** Stands for running the object's destructor and freeing its memory. */
    method ReclaimObject(itemPtr: nat)
      modifies this
      ensures reclaimed == old(reclaimed) + [itemPtr] && unchanged(`poolsHead) && unchanged(`hpCount)
      ensures unchanged(`deleteHead) && unchanged(`deleteCount) && unchanged(`pools) && unchanged(`pending)
    {
      reclaimed := reclaimed + [itemPtr];
    }

    /** Gives up one object. */
    method EnqueueForDelete(itemPtr: nat)
      requires Valid()
      modifies this
      ensures Valid() && View() == Push(old(View()), itemPtr) && pools == old(pools)
      ensures forall k | 0 <= k < |pending| :: pending[k] in old(pending) || fresh(pending[k])
    {
      hide PoolOk, FreeNull, HpCount, Payloads, Chain, NoTwice;
      ghost var vs := Views(pools);
      PushNew(itemPtr);
      assert PoolsAre(pools, poolsHead, hpCount, vs);
    }

    /** Gives up an object to the domain, which then checks whether to collect. */
    method Enqueue(itemPtr: nat)
      requires Valid()
      modifies this, pending
      ensures Valid() && View() == HazptrValues.Enqueue(old(View()), itemPtr) && pools == old(pools)
      ensures forall k | 0 <= k < |pending| :: pending[k] in old(pending) || fresh(pending[k])
    {
      hide PoolOk, FreeNull, HpCount, PushAll, Payloads, PoolsApart, Linked, PoolsValid, Chain, NoTwice;
      EnqueueForDelete(itemPtr);
      CollectIfRequired();
    }

    /** Gives up an array of objects to the domain, which then checks whether to collect. */
    method EnqueueAll(items: array<nat>)
      requires Valid() && items !in Storage(pools)
      modifies this, pending, items
      ensures Valid() && View() == HazptrValues.EnqueueAll(old(View()), old(items[..])) && pools == old(pools)
      ensures forall k | 0 <= k < items.Length :: items[k] == 0
      ensures forall k | 0 <= k < |pending| :: pending[k] in old(pending) || fresh(pending[k])
    {
      hide PoolOk, FreeNull, HpCount, PushAll, NonNull, Payloads, PoolsApart, Linked, PoolsValid, Chain, NoTwice;
      EnqueueItems(items);
      CollectIfRequired();
    }
  }

  lemma PushesBegin(d: Dom, items: seq<nat>)
    ensures PushAll(d, NonNull(items)) == PushAll(d, NonNull(items[0..]))
  {
    assert items[0..] == items;
  }

  lemma PushesEnd(d: Dom, items: seq<nat>)
    ensures PushAll(d, NonNull(items[|items|..])) == d
  {
  }

  lemma NextPush(d: Dom, items: seq<nat>, x: nat)
    requires x < |items|
    ensures PushAll(d, NonNull(items[x..]))
         == PushAll(if items[x] == 0 then d else Push(d, items[x]), NonNull(items[x + 1..]))
  {
    assert items[x..][1..] == items[x + 1..];
    if items[x] != 0 {
      assert NonNull(items[x..]) == [items[x]] + NonNull(items[x + 1..]);
    } else {
      assert NonNull(items[x..]) == NonNull(items[x + 1..]);
    }
  }

  /** Every pool is in its place and as in `vs`. */
  ghost predicate AsListed(pools: seq<HazptrPool>, vs: seq<Pool>)
    reads pools, Storage(pools)
  {
    && |vs| == |pools|
    && forall j | 0 <= j < |pools| ::
         pools[j].Valid() && pools[j].next == Newest(pools, j) && pools[j].View() == vs[j]
  }

  lemma PoolApart(pools: seq<HazptrPool>, i: nat)
    requires PoolsApart(pools) && i < |pools|
    ensures forall j | 0 <= j < |pools| && j != i :: pools[j] != pools[i] && pools[j].hazPtrs != pools[i].hazPtrs
  {
  }

  lemma WhatPoolsAre(pools: seq<HazptrPool>, head: HazptrPool?, hpCount: nat, vs: seq<Pool>)
    requires PoolsAre(pools, head, hpCount, vs)
    ensures PoolsApart(pools) && head == Head(pools) && hpCount == HpCount(vs) && vs == Views(pools)
    ensures AsListed(pools, vs)
  {
    hide PoolOk, FreeNull, HpCount, PoolsApart;
  }

  lemma ValidAt(pools: seq<HazptrPool>, i: nat)
    requires PoolsValid(pools) && i < |pools|
    ensures pools[i].Valid()
  {
  }

  lemma BlockInRange(pool: HazptrPool, ix: nat)
    requires pool.Valid() && ix in pool.bitmap
    ensures ix < BLOCKS && PoolOk(pool.View())
  {
  }

  lemma NewPoolServes(len: nat)
    ensures CanServe(NewPool(len), len)
  {
  }

  lemma WasFreed(pools: seq<HazptrPool>, vs: seq<Pool>, i: nat, ix: nat)
    requires i < |vs| && ix < BLOCKS && PoolOk(vs[i])
    requires AsListed(pools, vs[i := HazptrValues.Release(vs[i], ix)]) && PoolsApart(pools)
    ensures PoolsAre(pools, Head(pools), HpCount(vs), vs[i := HazptrValues.Release(vs[i], ix)])
  {
    BaseFits(ix, vs[i].blk);
    OnePoolChanged(pools, vs, i);
  }

  /** The pool has handed out the block that `Reserve` picks. */
  ghost predicate Reserved(p: Pool, len: nat, pool: HazptrPool, reservation: Option<Addr>)
    reads pool, pool.hazPtrs
  {
    var (q, ix) := HazptrValues.Reserve(p, len);
    pool.View() == q && ix < BLOCKS && reservation == Some(Addr(pool, Base(ix, q.blk)))
  }

  /** The newest pool has; the others are as they were. */
  ghost predicate Handed(vs: seq<Pool>, len: nat, pools: seq<HazptrPool>, reservation: Option<Addr>)
    requires vs != []
    reads pools, Storage(pools)
  {
    var (q, ix) := HazptrValues.Reserve(vs[|vs| - 1], len);
    && |pools| == |vs| && Views(pools) == vs[|vs| - 1 := q]
    && ix < BLOCKS && reservation == Some(Addr(pools[|vs| - 1], Base(ix, q.blk)))
  }

  /** If one pool has changed, but not in its place, its size or its link, all is in order still. */
  lemma OnePoolChanged(pools: seq<HazptrPool>, vs: seq<Pool>, h: nat)
    requires |vs| == |pools| && h < |pools| && PoolsApart(pools)
    requires forall i | 0 <= i < |pools| :: pools[i].Valid() && pools[i].next == Newest(pools, i)
    requires forall i | 0 <= i < |pools| && i != h :: pools[i].View() == vs[i]
    requires |pools[h].View().slots| == |vs[h].slots|
    ensures PoolsAre(pools, Head(pools), HpCount(vs), vs[h := pools[h].View()])
  {
    hide PoolOk, FreeNull;
    assert Views(pools) == vs[h := pools[h].View()];
    SameHpCount(vs, Views(pools));
  }

  lemma {:induction false} SameHpCount(vs: seq<Pool>, ws: seq<Pool>)
    requires |vs| == |ws| && forall i | 0 <= i < |vs| :: |vs[i].slots| == |ws[i].slots|
    ensures HpCount(vs) == HpCount(ws)
  {
    if vs != [] {
      SameHpCount(vs[..|vs| - 1], ws[..|ws| - 1]);
    }
  }

  lemma AllOld(pools: seq<HazptrPool>, pool: HazptrPool)
    requires pool.hazPtrs !in Storage(pools) && pool !in pools
    ensures forall i | 0 <= i < |pools| :: pools[i] != pool && pools[i].hazPtrs != pool.hazPtrs
  {
  }

  lemma OnePoolMore(pools: seq<HazptrPool>, vs: seq<Pool>, pool: HazptrPool)
    requires Linked(pools) && PoolsValid(pools) && PoolsApart(pools) && vs == Views(pools)
    requires pool.Valid() && pool.next == Head(pools)
    requires forall i | 0 <= i < |pools| :: pools[i] != pool && pools[i].hazPtrs != pool.hazPtrs
    ensures PoolsAre(pools + [pool], pool, HpCount(vs) + pool.hpCount, vs + [pool.View()])
  {
    hide Linked, PoolsValid, Views, HpCount;
    LinkedMore(pools, pool);
    ValidMore(pools, pool);
    ViewsMore(pools, pool);
    OneViewMore(vs, pool.View());
  }

  lemma LinkedMore(pools: seq<HazptrPool>, pool: HazptrPool)
    requires Linked(pools) && pool.next == Head(pools)
    ensures Linked(pools + [pool]) && Head(pools + [pool]) == pool
  {
  }

  lemma ValidMore(pools: seq<HazptrPool>, pool: HazptrPool)
    requires PoolsValid(pools) && pool.Valid()
    ensures PoolsValid(pools + [pool])
  {
    hide PoolOk, FreeNull;
  }

  lemma ViewsMore(pools: seq<HazptrPool>, pool: HazptrPool)
    ensures Views(pools + [pool]) == Views(pools) + [pool.View()]
  {
    assert (pools + [pool])[..|pools|] == pools;
  }

  lemma OneViewMore(vs: seq<Pool>, p: Pool)
    ensures HpCount(vs + [p]) == HpCount(vs) + |p.slots|
  {
    assert (vs + [p])[..|vs|] == vs;
  }

  lemma EmptyChain()
    ensures Chain([]) && NoTwice([]) && Payloads([]) == []
  {
  }

  lemma NothingPending(d: Dom)
    ensures d.pending == [] ==> HazptrValues.Collect(d) == d
  {
    assert d.reclaimed + [] == d.reclaimed;
  }

  /** No node is in both lists. */
  ghost predicate Apart(ns: seq<DeleteNode>, ms: seq<DeleteNode>) {
    forall i, j | 0 <= i < |ns| && 0 <= j < |ms| :: ns[i] != ms[j]
  }

  ghost predicate From(ns: seq<DeleteNode>, a: seq<DeleteNode>, b: seq<DeleteNode>) {
    forall i | 0 <= i < |ns| :: ns[i] in a || ns[i] in b
  }

  lemma ChainTail(ns: seq<DeleteNode>)
    requires Chain(ns) && NoTwice(ns) && ns != []
    ensures ns[0].next == At(ns[1..], 0) && Chain(ns[1..]) && NoTwice(ns[1..])
    ensures forall i | 0 <= i < |ns[1..]| :: ns[1..][i] != ns[0]
  {
  }

  lemma PushSteps(d: Dom, ns: seq<DeleteNode>, ms: seq<DeleteNode>)
    requires ns != [] && d.pending == Payloads(ms)
    ensures PushAll(d, Payloads(ns)) == PushAll(Push(d, ns[0].payload), Payloads(ns[1..]))
    ensures Push(d, ns[0].payload) == d.(pending := Payloads([ns[0]] + ms), count := d.count + 1)
  {
    assert Payloads(ns)[1..] == Payloads(ns[1..]);
    assert Payloads([ns[0]] + ms) == [ns[0].payload] + Payloads(ms);
  }

  lemma PushedAll(d: Dom)
    ensures PushAll(d, Payloads([])) == d
  {
  }

  ghost function Before(ns: seq<DeleteNode>, k: nat): DeleteNode? {
    if 0 < k <= |ns| then ns[k - 1] else null
  }

  ghost function Dropped(ns: seq<DeleteNode>, k: nat): (ms: seq<DeleteNode>)
    requires k < |ns|
    ensures |ms| == |ns| - 1 && forall j | 0 <= j < |ms| :: ms[j] == if j < k then ns[j] else ns[j + 1]
  {
    ns[..k] + ns[k + 1..]
  }

  ghost predicate Subset(ns: seq<DeleteNode>, all: seq<DeleteNode>) {
    forall i | 0 <= i < |ns| :: ns[i] in all
  }

  lemma SubsetStep(ns: seq<DeleteNode>, all: seq<DeleteNode>, k: nat)
    requires Subset(ns, all) && k < |ns|
    ensures Subset(Dropped(ns, k), all) && (k > 0 ==> ns[k - 1] in all)
  {
  }

  lemma NextInChain(ns: seq<DeleteNode>, k: nat)
    requires Chain(ns) && k < |ns|
    ensures ns[k].next == At(ns, k + 1) && ns[k].next == At(Dropped(ns, k), k)
  {
  }

  /** The first `k` nodes of the list have been kept, `gone` has been reclaimed, the rest is still to be seen. */
  ghost predicate Sweeping(vs: seq<Pool>, ns: seq<DeleteNode>, list: seq<DeleteNode>, k: nat, gone: seq<nat>) {
    && k <= |list|
    && Kept(vs, Payloads(ns)) == Payloads(list)[..k] + Kept(vs, Payloads(list)[k..])
    && Gone(vs, Payloads(ns)) == gone + Gone(vs, Payloads(list)[k..])
  }

  lemma SweepStarts(vs: seq<Pool>, ns: seq<DeleteNode>)
    ensures Sweeping(vs, ns, ns, 0, [])
  {
    assert Payloads(ns)[0..] == Payloads(ns);
  }

  lemma SweepEnds(vs: seq<Pool>, ns: seq<DeleteNode>, list: seq<DeleteNode>, gone: seq<nat>)
    requires Sweeping(vs, ns, list, |list|, gone)
    ensures Payloads(list) == Kept(vs, Payloads(ns)) && gone == Gone(vs, Payloads(ns))
  {
    assert Payloads(list)[..|list|] == Payloads(list);
  }

  lemma SweepSteps(vs: seq<Pool>, ns: seq<DeleteNode>, list: seq<DeleteNode>, k: nat, gone: seq<nat>)
    requires k < |list| && Sweeping(vs, ns, list, k, gone)
    ensures Protected(vs, list[k].payload) ==> Sweeping(vs, ns, list, k + 1, gone)
    ensures !Protected(vs, list[k].payload) ==> Sweeping(vs, ns, Dropped(list, k), k, gone + [list[k].payload])
  {
    hide Protected, Kept, Gone, Payloads;
    var ps, qs := Payloads(list), Payloads(Dropped(list, k));
    var x, rest := ps[k], ps[k + 1..];
    assert ps[k..] == [x] + rest && qs[..k] == ps[..k] && qs[k..] == rest;
    assert ps[..k + 1] == ps[..k] + [x];
    OneMore(vs, x, rest);
    assert (ps[..k] + [x]) + Kept(vs, rest) == ps[..k] + ([x] + Kept(vs, rest));
    assert (gone + [x]) + Gone(vs, rest) == gone + ([x] + Gone(vs, rest));
  }

  /** Its predecessor's link leads past node `i`. */
  lemma Unchained(ns: seq<DeleteNode>, i: nat)
    requires i < |ns| && (i > 0 ==> ns[i - 1].next == At(ns, i + 1))
    requires forall j | 0 <= j < |ns| && j != i && j + 1 != i :: ns[j].next == At(ns, j + 1)
    ensures Chain(Dropped(ns, i))
  {
  }
}
