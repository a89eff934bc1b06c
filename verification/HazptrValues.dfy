// The hazard pointers of a domain and its pending deletes, as values.
//
// These functions say what the operations of hazptr_domain and of its contexts do;
// the classes of HazptrPool.dfy, HazptrDomain.dfy and HazptrContext.dfy are proved
// against them.  HazptrLifetime.dfy says what they add up to over a whole run.

module HazptrValues {
  import opened Blocks
  import opened Counting

  /** A pool: its block size, its slots block after block, and the blocks reserved. */
  datatype Pool = Pool(blk: nat, slots: seq<nat>, taken: set<nat>)

  predicate PoolOk(p: Pool) {
    && |p.slots| == Base(BLOCKS, p.blk)
    && forall ix | ix in p.taken :: ix < BLOCKS
  }

  /** All slots of block `ix` are null. */
  ghost predicate BlockNull(p: Pool, ix: nat) {
    forall k: nat | Base(ix, p.blk) <= k < Base(ix, p.blk) + p.blk && k < |p.slots| :: p.slots[k] == 0
  }

  /** Blocks nobody has reserved hold nothing. */
  ghost predicate FreeNull(p: Pool) {
    forall ix | 0 <= ix < BLOCKS && ix !in p.taken :: BlockNull(p, ix)
  }

  function NewPool(blk: nat): Pool {
    Pool(blk, seq(Base(BLOCKS, blk), _ => 0), {})
  }

  /** What `reserve_impl` does: the first free block, if the size is right and there is one. */
  function Reserve(p: Pool, len: nat): (r: (Pool, nat)) {
    var ix := Scan(p.taken, 0);
    if len != p.blk || ix == BLOCKS then (p, BLOCKS) else (p.(taken := p.taken + {ix}), ix)
  }

  predicate CanServe(p: Pool, len: nat) {
    len == p.blk && Scan(p.taken, 0) < BLOCKS
  }

  function Nulled(slots: seq<nat>, lo: nat, hi: nat): seq<nat>
    requires lo <= hi <= |slots|
  {
    slots[..lo] + seq(hi - lo, _ => 0) + slots[hi..]
  }

  /** The range check of `release_impl`. */
  predicate InRange(p: Pool, offset: nat) {
    offset < |p.slots|
  }

  /** What `release_impl` does with the start of a block, if that is in range. */
  function Release(p: Pool, ix: nat): Pool
    requires PoolOk(p) && ix < BLOCKS
  {
    BaseFits(ix, p.blk);
    if InRange(p, Base(ix, p.blk))
    then Pool(p.blk, Nulled(p.slots, Base(ix, p.blk), Base(ix, p.blk) + p.blk), Flip(p.taken, ix))
    else p
  }

  /** A release finds a block if and only if blocks have at least one hazard pointer. */
  lemma ReleaseFinds(p: Pool, ix: nat)
    requires PoolOk(p) && ix < BLOCKS
    ensures InRange(p, Base(ix, p.blk)) <==> p.blk > 0
  {
    BaseFits(ix, p.blk);
  }

  /** A block of no hazard pointers can be reserved, and then not released. */
  lemma ZeroSizeStays()
    ensures var (q, ix) := Reserve(NewPool(0), 0); ix == 0 && q.taken == {0} && !InRange(q, Base(ix, 0)) && Release(q, ix) == q
  {
    assert Base(BLOCKS, 0) == 0;
  }

  // ---- what a snapshot sees ----

  /** The values in all slots of all pools, the newest pool's first; pools are listed oldest first. */
  function AllSlots(pools: seq<Pool>): seq<nat> {
    if pools == [] then [] else pools[|pools| - 1].slots + AllSlots(pools[..|pools| - 1])
  }

  /** Some slot holds `p`, with or without the mark bit. */
  predicate Protected(pools: seq<Pool>, p: nat) {
    exists k | 0 <= k < |AllSlots(pools)| :: AllSlots(pools)[k] != 0 && Masked(AllSlots(pools)[k]) == p
  }

  lemma MaskedIs(v: nat, p: nat)
    requires p % 2 == 0
    ensures Masked(v) == p <==> v == p || v == p + 1
  {
  }

  lemma {:induction false} InSomePool(pools: seq<Pool>, i: nat, k: nat) returns (n: nat)
    requires i < |pools| && k < |pools[i].slots|
    ensures n < |AllSlots(pools)| && AllSlots(pools)[n] == pools[i].slots[k]
  {
    var h := |pools| - 1;
    if i == h {
      n := k;
    } else {
      var m := InSomePool(pools[..h], i, k);
      n := |pools[h].slots| + m;
    }
  }

  lemma {:induction false} FromSomePool(pools: seq<Pool>, n: nat) returns (i: nat, k: nat)
    requires n < |AllSlots(pools)|
    ensures i < |pools| && k < |pools[i].slots| && AllSlots(pools)[n] == pools[i].slots[k]
  {
    var h := |pools| - 1;
    if n < |pools[h].slots| {
      i, k := h, n;
    } else {
      i, k := FromSomePool(pools[..h], n - |pools[h].slots|);
    }
  }

  /** For a pointer that could have been retired: some slot of some pool holds it, plain or marked. */
  lemma ProtectedMeans(pools: seq<Pool>, p: nat)
    requires p != 0 && p % 2 == 0
    ensures Protected(pools, p) <==>
      exists i, k :: 0 <= i < |pools| && 0 <= k < |pools[i].slots| && (pools[i].slots[k] == p || pools[i].slots[k] == p + 1)
  {
    var s := AllSlots(pools);
    if Protected(pools, p) {
      var n :| 0 <= n < |s| && s[n] != 0 && Masked(s[n]) == p;
      MaskedIs(s[n], p);
      var i, k := FromSomePool(pools, n);
      assert pools[i].slots[k] == p || pools[i].slots[k] == p + 1;
    }
    if i, k :| 0 <= i < |pools| && 0 <= k < |pools[i].slots| && (pools[i].slots[k] == p || pools[i].slots[k] == p + 1) {
      var n := InSomePool(pools, i, k);
      MaskedIs(s[n], p);
    }
  }

  /** A pool none of whose blocks is reserved, and whose free blocks are null, holds nothing. */
  lemma UnreservedHoldsNothing(p: Pool, k: nat)
    requires PoolOk(p) && FreeNull(p) && p.taken == {} && k < |p.slots|
    ensures p.slots[k] == 0
  {
    var ix := BlockOf(k, p.blk);
    assert BlockNull(p, ix);
  }

  lemma AllReleased(pools: seq<Pool>, p: nat)
    requires forall i | 0 <= i < |pools| :: PoolOk(pools[i]) && FreeNull(pools[i]) && pools[i].taken == {}
    ensures !Protected(pools, p)
  {
    forall n | 0 <= n < |AllSlots(pools)|
      ensures AllSlots(pools)[n] == 0
    {
      var i, k := FromSomePool(pools, n);
      UnreservedHoldsNothing(pools[i], k);
    }
  }

  /** Handing out a block gives a block of nulls that nobody had, and keeps the rest null. */
  lemma ReserveKeeps(p: Pool, len: nat)
    requires PoolOk(p) && FreeNull(p)
    ensures var (q, ix) := Reserve(p, len);
            && PoolOk(q) && FreeNull(q) && q.slots == p.slots
            && (ix < BLOCKS <==> CanServe(p, len))
            && (ix < BLOCKS ==> ix !in p.taken && BlockNull(p, ix) && q.taken == p.taken + {ix})
            && (ix == BLOCKS ==> q == p)
  {
  }

  /** The pool and the reservation after `k` turns of the loop of `pools_reserve`. */
  function Tries(p: Pool, len: nat, k: nat): (r: (Pool, nat)) {
    if k == 0 then (p, BLOCKS)
    else if Tries(p, len, k - 1).1 < BLOCKS then Tries(p, len, k - 1)
    else Reserve(Tries(p, len, k - 1).0, len)
  }

  lemma {:induction false} TriesIs(p: Pool, len: nat, k: nat)
    ensures Tries(p, len, k) == if k == 0 then (p, BLOCKS) else Reserve(p, len)
  {
    if k > 0 {
      TriesIs(p, len, k - 1);
    }
  }

  /**
   * The loop of `pools_reserve` looks at the newest pool only, again and again: it ends if and
   * only if that pool has the right block size and a free block.
   */
  lemma PoolsReserveEnds(p: Pool, len: nat)
    ensures (exists k: nat :: Tries(p, len, k).1 < BLOCKS) <==> CanServe(p, len)
  {
    forall k: nat
      ensures Tries(p, len, k).1 < BLOCKS ==> CanServe(p, len)
    {
      TriesIs(p, len, k);
    }
    TriesIs(p, len, 1);
    assert CanServe(p, len) ==> Tries(p, len, 1).1 < BLOCKS;
  }

  /** A request for another block size than the newest pool's goes round for ever. */
  lemma OtherBlockSize(p: Pool, len: nat, k: nat)
    requires len != p.blk
    ensures Tries(p, len, k).1 == BLOCKS
  {
    TriesIs(p, len, k);
  }

  /** So does any request once all blocks of the newest pool are taken. */
  lemma FullPool(p: Pool, len: nat, k: nat)
    requires forall ix | 0 <= ix < BLOCKS :: ix in p.taken
    ensures Tries(p, len, k).1 == BLOCKS
  {
    TriesIs(p, len, k);
  }

  lemma ReleaseKeeps(p: Pool, ix: nat)
    requires PoolOk(p) && FreeNull(p) && ix in p.taken
    ensures var q := Release(p, ix);
            && PoolOk(q) && FreeNull(q) && |q.slots| == |p.slots| && q.blk == p.blk
            && q.taken == (if p.blk > 0 then p.taken - {ix} else p.taken)
            && (p.blk > 0 ==> BlockNull(q, ix))
  {
    BaseFits(ix, p.blk);
    ReleaseFinds(p, ix);
    var q := Release(p, ix);
    hide Base;
    forall iy | 0 <= iy < BLOCKS && iy !in q.taken
      ensures BlockNull(q, iy)
    {
      if iy != ix {
        assert BlockNull(p, iy);
        BasesApart(if ix < iy then ix else iy, if ix < iy then iy else ix, p.blk);
      }
    }
  }

  // ---- pending deletes ----

  /** `pending` are the payloads on the delete list, head first; `count` is the approximate counter. */
  datatype Dom = Dom(pools: seq<Pool>, pending: seq<nat>, count: nat, reclaimed: seq<nat>)

  /** How many hazard pointers the domain has. */
  function HpCount(pools: seq<Pool>): nat {
    |AllSlots(pools)|
  }

  function Push(d: Dom, p: nat): Dom {
    d.(pending := [p] + d.pending, count := d.count + 1)
  }

  /** Pushes the items in order, so that they end up in the opposite one. */
  function PushAll(d: Dom, items: seq<nat>): Dom
    decreases |items|
  {
    if items == [] then d else PushAll(Push(d, items[0]), items[1..])
  }

  function Kept(pools: seq<Pool>, items: seq<nat>): seq<nat> {
    if items == [] then []
    else (if Protected(pools, items[0]) then [items[0]] else []) + Kept(pools, items[1..])
  }

  function Gone(pools: seq<Pool>, items: seq<nat>): seq<nat> {
    if items == [] then []
    else (if Protected(pools, items[0]) then [] else [items[0]]) + Gone(pools, items[1..])
  }

  /** A collect: unprotected items are reclaimed in list order, the others pushed back. */
  function Collect(d: Dom): Dom {
    PushAll(
      d.(pending := [], reclaimed := d.reclaimed + Gone(d.pools, d.pending)),
      Kept(d.pools, d.pending))
  }

  function CollectIfRequired(d: Dom): Dom {
    if d.count > HpCount(d.pools) then Collect(d.(count := 0)) else d
  }

  function Enqueue(d: Dom, p: nat): Dom {
    CollectIfRequired(Push(d, p))
  }

  /** Items that are null are passed over. */
  function EnqueueAll(d: Dom, items: seq<nat>): Dom {
    CollectIfRequired(PushAll(d, NonNull(items)))
  }

  /** The domain's `reserve`; `BLOCKS` if the loop of `pools_reserve` would not end. */
  function DomReserve(d: Dom, len: nat): (r: (Dom, nat)) {
    var pools := if d.pools == [] then [NewPool(len)] else d.pools;
    var h := |pools| - 1;
    var (p, ix) := Reserve(pools[h], len);
    (d.(pools := pools[h := p]), ix)
  }

  function Stored(p: Pool, n: nat, v: nat): Pool
    requires n < |p.slots|
  {
    var slots: seq<nat> := p.slots[n := v];
    p.(slots := slots)
  }

  /** A pointer is stored in slot `n` of pool `i`. */
  function StoreSlot(d: Dom, i: nat, n: nat, v: nat): Dom
    requires i < |d.pools| && n < |d.pools[i].slots|
  {
    d.(pools := d.pools[i := Stored(d.pools[i], n, v)])
  }

  // ---- a context's retired items ----

  /** `index` items are filled in; the rest of the array is null. */
  datatype Retired = Retired(items: seq<nat>, index: nat)

  predicate RetiredOk(r: Retired) {
    && r.index <= |r.items| && (|r.items| > 0 ==> r.index < |r.items|)
    && (forall k | 0 <= k < r.index :: r.items[k] != 0)
    && (forall k | r.index <= k < |r.items| :: r.items[k] == 0)
  }

  /** Unprotected items are nulled. */
  function Swept(pools: seq<Pool>, items: seq<nat>): (r: seq<nat>)
    ensures |r| == |items|
    ensures forall k | 0 <= k < |items| :: r[k] == if Protected(pools, items[k]) then items[k] else 0
  {
    seq(|items|, k requires 0 <= k < |items| => if Protected(pools, items[k]) then items[k] else 0)
  }

  /** Fills nulls from the front with items from the back. */
  function Compact(items: seq<nat>, lo: nat, hi: int): (r: seq<nat>)
    requires hi < |items|
    ensures |r| == |items|
    decreases hi - lo
  {
    if lo >= hi then items
    else if items[lo] != 0 then Compact(items, lo + 1, hi)
    else if items[hi] == 0 then Compact(items, lo, hi - 1)
    else Compact(items[lo := items[hi]][hi := 0], lo + 1, hi - 1)
  }

  const SIZE_T: nat := 0x1_0000_0000_0000_0000

  /** An array of pointers is no longer than memory. */
  const MAX_ITEMS: nat := 0x2000_0000_0000_0000

  /** The fill index after a sweep: one less for every entry nulled, in machine arithmetic. */
  function SweptIndex(pools: seq<Pool>, r: Retired): nat {
    (r.index - |Gone(pools, r.items)|) % SIZE_T
  }

  /** What `reclaim` does to an array; see `ReclaimIndex` for when that makes sense. */
  function Reclaim(d: Dom, r: Retired): (Dom, Retired) {
    var e := d.(reclaimed := d.reclaimed + Gone(d.pools, r.items));
    var items, index := Swept(d.pools, r.items), SweptIndex(d.pools, r);
    if index == |items| then
      (EnqueueAll(e, items), Retired(seq(|items|, _ => 0), 0))
    else
      (e, Retired(Compact(items, 0, |items| - 1), index))
  }

  function DeleteItem(d: Dom, r: Retired, p: nat): (Dom, Retired)
    requires RetiredOk(r)
  {
    if r.items == [] then (Enqueue(d, p), r)
    else
      var s := Retired(r.items[r.index := p], r.index + 1);
      if s.index == |s.items| then Reclaim(d, s) else (d, s)
  }

  /** Destroying a context: its block is released, its items go to the domain, which collects. */
  function CloseContext(d: Dom, pool: nat, ix: nat, r: Retired): Dom
    requires pool < |d.pools| && PoolOk(d.pools[pool]) && ix < BLOCKS
  {
    var e := d.(pools := d.pools[pool := Release(d.pools[pool], ix)]);
    Collect(EnqueueAll(e, r.items))
  }

  // ---- properties ----

  lemma {:induction false} PushAllIs(d: Dom, items: seq<nat>, o: nat)
    ensures PushAll(d, items).pools == d.pools && PushAll(d, items).reclaimed == d.reclaimed
    ensures |PushAll(d, items).pending| == |d.pending| + |items|
    ensures PushAll(d, items).count == d.count + |items|
    ensures Count(PushAll(d, items).pending, o) == Count(d.pending, o) + Count(items, o)
    decreases |items|
  {
    hide Count;
    CountNone(o);
    if items != [] {
      PushAllIs(Push(d, items[0]), items[1..], o);
      assert items == [items[0]] + items[1..];
      CountFront(items[0], items[1..], o);
      CountFront(items[0], d.pending, o);
    }
  }

  /** Items are sorted into survivors, all protected, and the others, none of them protected. */
  lemma {:induction false} KeptIs(pools: seq<Pool>, items: seq<nat>, o: nat)
    ensures |Kept(pools, items)| + |Gone(pools, items)| == |items|
    ensures Count(Kept(pools, items), o) == if Protected(pools, o) then Count(items, o) else 0
    ensures Count(Gone(pools, items), o) == if Protected(pools, o) then 0 else Count(items, o)
  {
    hide Count, Protected;
    CountNone(o);
    if items != [] {
      KeptIs(pools, items[1..], o);
      assert items == [items[0]] + items[1..];
      CountFront(items[0], items[1..], o);
      CountFront(items[0], Kept(pools, items[1..]), o);
      CountFront(items[0], Gone(pools, items[1..]), o);
      assert [] + Kept(pools, items[1..]) == Kept(pools, items[1..]);
      assert [] + Gone(pools, items[1..]) == Gone(pools, items[1..]);
    }
  }

  /** What a collect does to one object: protected ones stay pending, the others are reclaimed. */
  lemma CollectIs(d: Dom, o: nat)
    ensures var e := Collect(d);
            && e.pools == d.pools && |e.pending| <= |d.pending| && e.count == d.count + |e.pending|
            && Count(e.pending, o) == (if Protected(d.pools, o) then Count(d.pending, o) else 0)
            && Count(e.reclaimed, o) == Count(d.reclaimed, o) + if Protected(d.pools, o) then 0 else Count(d.pending, o)
  {
    hide Count, Protected, PushAll, Kept, Gone;
    var gone := Gone(d.pools, d.pending);
    KeptIs(d.pools, d.pending, o);
    PushAllIs(d.(pending := [], reclaimed := d.reclaimed + gone), Kept(d.pools, d.pending), o);
    CountAppend(d.reclaimed, gone, o);
    CountNone(o);
  }

  lemma {:induction false} ValuesAtMost(s: seq<nat>) returns (vs: set<nat>)
    ensures |vs| <= |s| && forall k | 0 <= k < |s| :: Masked(s[k]) in vs
  {
    if s == [] {
      vs := {};
    } else {
      var ws := ValuesAtMost(s[1..]);
      vs := ws + {Masked(s[0])};
    }
  }

  lemma {:induction false} DistinctAtMost(items: seq<nat>, vs: set<nat>)
    requires Distinct(items) && forall k | 0 <= k < |items| :: items[k] in vs
    ensures |items| <= |vs|
  {
    if items != [] {
      DistinctAtMost(items[1..], vs - {items[0]});
    }
  }

  /** Distinct protected objects are no more than there are hazard pointers. */
  lemma ProtectedAtMost(pools: seq<Pool>, items: seq<nat>)
    requires Distinct(items) && forall k | 0 <= k < |items| :: Protected(pools, items[k])
    ensures |items| <= HpCount(pools)
  {
    var vs := ValuesAtMost(AllSlots(pools));
    DistinctAtMost(items, vs);
  }

  /** The counter is no less than the list is long, and no null is pending. */
  ghost predicate Counted(d: Dom) {
    |d.pending| <= d.count && 0 !in d.pending
  }

  lemma CollectCounted(d: Dom)
    requires 0 !in d.pending
    ensures Counted(Collect(d))
    ensures forall k | 0 <= k < |Collect(d).pending| :: Protected(d.pools, Collect(d).pending[k])
  {
    var e := Collect(d);
    hide Count, Collect, Protected;
    CollectIs(d, 0);
    CountIn(d.pending, 0);
    CountIn(e.pending, 0);
    forall k | 0 <= k < |e.pending|
      ensures Protected(d.pools, e.pending[k])
    {
      CollectIs(d, e.pending[k]);
      CountIn(e.pending, e.pending[k]);
    }
  }

  /**
   * The pending-delete bound: after the check that follows an enqueue, if no object is pending
   * twice, no more deletes are pending than the domain has hazard pointers.
   */
  lemma PendingBound(d: Dom)
    requires Counted(d)
    ensures var e := CollectIfRequired(d); Counted(e) && (Distinct(e.pending) ==> |e.pending| <= HpCount(d.pools))
  {
    hide Collect, Protected, HpCount;
    if d.count > HpCount(d.pools) {
      var e := Collect(d.(count := 0));
      CollectCounted(d.(count := 0));
      if Distinct(e.pending) {
        ProtectedAtMost(d.pools, e.pending);
      }
    }
  }

  lemma CollectIfRequiredIs(d: Dom, o: nat)
    ensures var e := CollectIfRequired(d);
            && e.pools == d.pools
            && Count(e.reclaimed, o) + Count(e.pending, o) == Count(d.reclaimed, o) + Count(d.pending, o)
            && (Protected(d.pools, o) ==> Count(e.reclaimed, o) == Count(d.reclaimed, o))
  {
    hide Collect, Protected, HpCount, Count;
    if d.count > HpCount(d.pools) {
      CollectIs(d.(count := 0), o);
    }
  }

  lemma EnqueueAllIs(d: Dom, items: seq<nat>, o: nat)
    requires o != 0
    ensures var e := EnqueueAll(d, items);
            && e.pools == d.pools
            && Count(e.reclaimed, o) + Count(e.pending, o) == Count(d.reclaimed, o) + Count(d.pending, o) + Count(items, o)
            && (Protected(d.pools, o) ==> Count(e.reclaimed, o) == Count(d.reclaimed, o))
  {
    hide CollectIfRequired, Protected, Count, PushAll, NonNull;
    PushAllIs(d, NonNull(items), o);
    CountNonNull(items, o);
    CollectIfRequiredIs(PushAll(d, NonNull(items)), o);
  }

  // ---- reclaiming a full array ----

  /** A full array: every item filled in. */
  ghost predicate Full(r: Retired) {
    r.index == |r.items| && 0 !in r.items
  }

  /** Closing up loses and doubles nothing. */
  lemma {:induction false} CompactCounts(items: seq<nat>, lo: nat, hi: int, o: nat)
    requires hi < |items|
    ensures Count(Compact(items, lo, hi), o) == Count(items, o)
    decreases hi - lo
  {
    hide Count;
    if lo >= hi {
    } else if items[lo] != 0 {
      CompactCounts(items, lo + 1, hi, o);
    } else if items[hi] == 0 {
      CompactCounts(items, lo, hi - 1, o);
    } else {
      var moved := items[lo := items[hi]];
      CountUpdate(moved, hi, 0, o);
      CountUpdate(items, lo, items[hi], o);
      CompactCounts(moved[hi := 0], lo + 1, hi - 1, o);
    }
  }

  /** All nulls end up behind all items. */
  lemma {:induction false} CompactSorts(items: seq<nat>, lo: nat, hi: int)
    requires lo <= hi + 1 && hi < |items|
    requires forall k | 0 <= k < lo :: items[k] != 0
    requires forall k | hi < k < |items| :: items[k] == 0
    ensures NullsLast(Compact(items, lo, hi))
    decreases hi - lo
  {
    if lo >= hi {
    } else if items[lo] != 0 {
      CompactSorts(items, lo + 1, hi);
    } else if items[hi] == 0 {
      CompactSorts(items, lo, hi - 1);
    } else {
      CompactSorts(items[lo := items[hi]][hi := 0], lo + 1, hi - 1);
    }
  }

  /** One item more in front: it is kept, or given up and nulled. */
  /** Items either stay where they are, or leave a null and fill one further in front. */
  lemma {:induction false} CompactMoves(items: seq<nat>, lo: nat, hi: int, k: nat)
    requires hi < |items| && k < |items|
    ensures var r := Compact(items, lo, hi);
            && (k < lo || k > hi ==> r[k] == items[k])
            && (items[k] != 0 ==> r[k] == items[k] || r[k] == 0)
            && (items[k] == 0 && r[k] != 0 ==> exists j :: k < j < |items| && items[j] == r[k])
    decreases hi - lo
  {
    if lo < hi {
      if items[lo] != 0 {
        CompactMoves(items, lo + 1, hi, k);
      } else if items[hi] == 0 {
        CompactMoves(items, lo, hi - 1, k);
      } else {
        var next: seq<nat> := items[lo := items[hi]][hi := 0];
        CompactMoves(next, lo + 1, hi - 1, k);
        var r := Compact(items, lo, hi);
        if lo < k < hi && items[k] == 0 && r[k] != 0 {
          var j :| k < j < |next| && next[j] == r[k];
          assert items[j] == r[k];
        }
      }
    }
  }

  lemma OneMore(vs: seq<Pool>, x: nat, rest: seq<nat>)
    ensures Kept(vs, [x] + rest) == if Protected(vs, x) then [x] + Kept(vs, rest) else Kept(vs, rest)
    ensures Gone(vs, [x] + rest) == if Protected(vs, x) then Gone(vs, rest) else [x] + Gone(vs, rest)
    ensures Swept(vs, [x] + rest) == [if Protected(vs, x) then x else 0] + Swept(vs, rest)
  {
    hide Protected;
    assert ([x] + rest)[1..] == rest;
    assert [] + Kept(vs, rest) == Kept(vs, rest) && [] + Gone(vs, rest) == Gone(vs, rest);
  }

  lemma {:induction false} SweptCounts(pools: seq<Pool>, items: seq<nat>, o: nat)
    requires 0 !in items
    ensures Count(Swept(pools, items), o)
         == if o == 0 then |Gone(pools, items)| else if Protected(pools, o) then Count(items, o) else 0
  {
    if items == [] {
      assert Swept(pools, items) == [];
    } else {
      hide Count, Protected, Swept, Gone;
      var x, rest := items[0], items[1..];
      SweptCounts(pools, rest, o);
      assert items == [x] + rest;
      OneMore(pools, x, rest);
      CountFront(x, rest, o);
      CountFront(if Protected(pools, x) then x else 0, Swept(pools, rest), o);
    }
  }

  lemma {:induction false} NoneGone(pools: seq<Pool>, items: seq<nat>)
    ensures Gone(pools, items) == [] ==> Swept(pools, items) == items
  {
    if items == [] {
      assert Swept(pools, items) == [];
    } else {
      hide Protected, Swept, Gone;
      NoneGone(pools, items[1..]);
      assert items == [items[0]] + items[1..];
      OneMore(pools, items[0], items[1..]);
    }
  }

  /**
   * `reclaim` leaves a fill index that says how many items survived if and only if it was
   * called on a full array: every null entry costs it one decrement too many.
   */
  lemma ReclaimIndex(pools: seq<Pool>, r: Retired)
    requires r.index <= |r.items| <= MAX_ITEMS
    ensures SweptIndex(pools, r) == |Kept(pools, r.items)| <==> r.index == |r.items|
    ensures SweptIndex(pools, r) == |r.items| <==> r.index == |r.items| && Gone(pools, r.items) == []
  {
    KeptIs(pools, r.items, 0);
    hide Kept, Gone;
    Wrapped(r.index - |Gone(pools, r.items)|);
  }

  lemma Wrapped(x: int)
    requires 0 <= x + MAX_ITEMS && x <= MAX_ITEMS
    ensures x % SIZE_T == if x < 0 then x + SIZE_T else x
  {
  }

  /** It also hands a null pointer to the reclaimer unless some slot holds a marked null. */
  lemma ReclaimOfNull(pools: seq<Pool>, r: Retired)
    requires 0 in r.items
    ensures 0 in Gone(pools, r.items) <==> !Protected(pools, 0)
  {
    KeptIs(pools, r.items, 0);
    CountIn(r.items, 0);
    CountIn(Gone(pools, r.items), 0);
  }

  /**
   * Reclaiming a full array: exactly the unprotected items are reclaimed.  If there are any,
   * exactly the protected ones stay, moved to the front; if not, all items go to the domain.
   */
  lemma ReclaimIs(d: Dom, r: Retired, o: nat)
    requires Full(r) && o != 0 && |r.items| <= MAX_ITEMS
    ensures var (e, q) := Reclaim(d, r);
            && e.pools == d.pools && |q.items| == |r.items| && RetiredOk(q)
            && Count(e.reclaimed, o) + Count(e.pending, o) + Count(q.items, o)
               == Count(d.reclaimed, o) + Count(d.pending, o) + Count(r.items, o)
            && (Protected(d.pools, o) ==> Count(e.reclaimed, o) == Count(d.reclaimed, o))
            && (Gone(d.pools, r.items) != [] ==>
                  e.pending == d.pending && Count(q.items, o) == if Protected(d.pools, o) then Count(r.items, o) else 0)
            && (Gone(d.pools, r.items) == [] ==> q.index == 0 && e == EnqueueAll(d, r.items))
  {
    hide Count, Protected, Kept, Gone, Swept, Compact, EnqueueAll, SweptIndex;
    ReclaimIndex(d.pools, r);
    var gone, items := Gone(d.pools, r.items), Swept(d.pools, r.items);
    KeptIs(d.pools, r.items, o);
    NoneGone(d.pools, r.items);
    if gone == [] {
      assert d.reclaimed + gone == d.reclaimed;
      EnqueueAllIs(d, items, o);
      NullArray(|items|, o);
    } else {
      CountAppend(d.reclaimed, gone, o);
      SweptCounts(d.pools, r.items, o);
      SweptCounts(d.pools, r.items, 0);
      ClosedUp(items, |Kept(d.pools, r.items)|, o);
    }
  }

  lemma NullArray(n: nat, o: nat)
    requires o != 0
    ensures RetiredOk(Retired(seq(n, _ => 0), 0)) && Count(seq(n, _ => 0), o) == 0
  {
    CountIn(seq(n, _ => 0), o);
  }

  lemma ClosedUp(items: seq<nat>, n: nat, o: nat)
    requires n < |items| && Count(items, 0) == |items| - n
    ensures RetiredOk(Retired(Compact(items, 0, |items| - 1), n))
    ensures Count(Compact(items, 0, |items| - 1), o) == Count(items, o)
  {
    CompactSorts(items, 0, |items| - 1);
    CompactCounts(items, 0, |items| - 1, 0);
    CompactCounts(items, 0, |items| - 1, o);
    NullsBegin(Compact(items, 0, |items| - 1), n);
  }

  lemma {:induction false} PushAllCounted(d: Dom, items: seq<nat>)
    requires Counted(d) && 0 !in items
    ensures Counted(PushAll(d, items))
    decreases |items|
  {
    if items != [] {
      PushAllCounted(Push(d, items[0]), items[1..]);
    }
  }

  lemma {:induction false} NonNullHasNoNull(s: seq<nat>)
    ensures 0 !in NonNull(s)
  {
    if s != [] {
      NonNullHasNoNull(s[1..]);
    }
  }

  lemma EnqueueAllCounted(d: Dom, items: seq<nat>)
    requires Counted(d)
    ensures Counted(EnqueueAll(d, items))
    ensures Distinct(EnqueueAll(d, items).pending) ==> |EnqueueAll(d, items).pending| <= HpCount(d.pools)
  {
    hide CollectIfRequired, HpCount;
    NonNullHasNoNull(items);
    PushAllCounted(d, NonNull(items));
    PushAllIs(d, NonNull(items), 0);
    PendingBound(PushAll(d, NonNull(items)));
  }

  /** Giving up one object: it becomes pending, retired, or reclaimed, and nothing else changes sides wrongly. */
  lemma DeleteItemIs(d: Dom, r: Retired, p: nat, o: nat)
    requires RetiredOk(r) && |r.items| <= MAX_ITEMS && p != 0 && o != 0 && Counted(d)
    ensures var (e, q) := DeleteItem(d, r, p);
            && e.pools == d.pools && |q.items| == |r.items| && RetiredOk(q) && Counted(e)
            && Count(e.reclaimed, o) + Count(e.pending, o) + Count(q.items, o)
               == Count(d.reclaimed, o) + Count(d.pending, o) + Count(r.items, o) + (if o == p then 1 else 0)
            && (Protected(d.pools, o) ==> Count(e.reclaimed, o) == Count(d.reclaimed, o))
  {
    hide Count, Protected, CollectIfRequired, Reclaim;
    if r.items == [] {
      CountFront(p, d.pending, o);
      CollectIfRequiredIs(Push(d, p), o);
      PendingBound(Push(d, p));
    } else {
      var s := Retired(r.items[r.index := p], r.index + 1);
      CountUpdate(r.items, r.index, p, o);
      if s.index == |s.items| {
        ReclaimIs(d, s, o);
        ReclaimCounted(d, s);
      }
    }
  }

  lemma ReclaimCounted(d: Dom, r: Retired)
    requires Counted(d)
    ensures Counted(Reclaim(d, r).0)
  {
    hide EnqueueAll, Gone, Swept, Compact, SweptIndex;
    var e := d.(reclaimed := d.reclaimed + Gone(d.pools, r.items));
    EnqueueAllCounted(e, Swept(d.pools, r.items));
  }

  lemma CloseContextIs(d: Dom, pool: nat, ix: nat, r: Retired, o: nat)
    requires pool < |d.pools| && PoolOk(d.pools[pool]) && ix < BLOCKS && o != 0 && Counted(d)
    ensures var e := CloseContext(d, pool, ix, r);
            && e.pools == d.pools[pool := Release(d.pools[pool], ix)] && Counted(e)
            && Count(e.reclaimed, o) + Count(e.pending, o)
               == Count(d.reclaimed, o) + Count(d.pending, o) + Count(r.items, o)
            && (Protected(e.pools, o) ==> Count(e.reclaimed, o) == Count(d.reclaimed, o))
            && (!Protected(e.pools, o) ==> Count(e.pending, o) == 0)
  {
    var e := d.(pools := d.pools[pool := Release(d.pools[pool], ix)]);
    hide Count, Protected, EnqueueAll, Collect, Release;
    EnqueueAllIs(e, r.items, o);
    EnqueueAllCounted(e, r.items);
    CollectIs(EnqueueAll(e, r.items), o);
    CollectCounted(EnqueueAll(e, r.items));
  }
}
