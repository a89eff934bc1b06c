// A domain and its contexts from beginning to end, one operation at a time
// (hazard_pointer.hpp:458-468, 587-606, 614-681; hazard_pointer.cpp:306-329).
//
// The main results: over any run nothing given up for deletion is lost or reclaimed
// twice, nothing is reclaimed while a slot holds it, and once all contexts are gone
// a collect leaves the delete list empty with everything reclaimed exactly once.

module HazptrLifetime {
  import opened Blocks
  import opened Counting
  import opened HazptrValues

  /** A context: its block of hazard pointers and its array of retired items. */
  datatype Ctx = Ctx(live: bool, pool: nat, ix: nat, retired: Retired)

  /** `given` records the objects given up for deletion. */
  datatype World = World(dom: Dom, ctxs: seq<Ctx>, given: seq<nat>)

  datatype Op =
    | Open(size: nat, limit: nat)
    | Store(c: nat, k: nat, v: nat)
    | Delete(c: nat, p: nat)
    | Close(c: nat)
    | CollectNow

  const EMPTY: World := World(Dom([], [], 0, []), [], [])

  ghost predicate Live(w: World, c: nat) {
    c < |w.ctxs| && w.ctxs[c].live
  }

  /** What a client has to respect. */
  ghost predicate OpOk(w: World, op: Op) {
    match op
    case Open(size, limit) =>
      && limit <= MAX_ITEMS
      && (w.dom.pools != [] ==> CanServe(w.dom.pools[|w.dom.pools| - 1], size))
    case Store(c, k, _) =>
      Live(w, c) && w.ctxs[c].pool < |w.dom.pools| && k < w.dom.pools[w.ctxs[c].pool].blk
    case Delete(c, p) => Live(w, c) && p != 0 && p % 2 == 0 && p !in w.given
    case Close(c) =>
      // The domain asserts that a pool has released the block.
      Live(w, c) && w.ctxs[c].pool < |w.dom.pools| && w.dom.pools[w.ctxs[c].pool].blk > 0
    case CollectNow => true
  }

  // ---- the invariant ----

  ghost predicate PoolsOk(pools: seq<Pool>) {
    forall i | 0 <= i < |pools| :: PoolOk(pools[i]) && FreeNull(pools[i])
  }

  ghost predicate CtxOk(pools: seq<Pool>, c: Ctx) {
    if c.live then
      && c.pool < |pools| && c.ix in pools[c.pool].taken
      && RetiredOk(c.retired) && |c.retired.items| <= MAX_ITEMS
    else c.retired == Retired([], 0)
  }

  ghost predicate Apart(ctxs: seq<Ctx>) {
    forall c, d | 0 <= c < d < |ctxs| && ctxs[c].live && ctxs[d].live ::
      (ctxs[c].pool, ctxs[c].ix) != (ctxs[d].pool, ctxs[d].ix)
  }

  /** Every reserved block is some live context's. */
  ghost predicate AllOwned(w: World) {
    forall i: nat, ix | i < |w.dom.pools| && ix in w.dom.pools[i].taken ::
      exists c: nat :: Live(w, c) && w.ctxs[c].pool == i && w.ctxs[c].ix == ix
  }

  ghost function HeldBy(ctxs: seq<Ctx>, o: nat): nat {
    if ctxs == [] then 0 else Count(ctxs[0].retired.items, o) + HeldBy(ctxs[1..], o)
  }

  /** Reclaimed, pending, or in some context's array: nothing is lost or doubled. */
  ghost predicate Ledger(w: World) {
    forall o: nat | o != 0 ::
      Count(w.given, o) == Count(w.dom.reclaimed, o) + Count(w.dom.pending, o) + HeldBy(w.ctxs, o)
  }

  ghost predicate Inv(w: World) {
    && PoolsOk(w.dom.pools) && (forall c | 0 <= c < |w.ctxs| :: CtxOk(w.dom.pools, w.ctxs[c]))
    && Apart(w.ctxs) && AllOwned(w)
    && Ledger(w) && Distinct(w.given) && Counted(w.dom)
  }

  // ---- steps ----

  function OpenOf(w: World, size: nat, limit: nat): World {
    var (d, ix) := DomReserve(w.dom, size);
    World(d, w.ctxs + [Ctx(true, |d.pools| - 1, ix, Retired(seq(limit, _ => 0), 0))], w.given)
  }

  function StoreOf(w: World, c: nat, k: nat, v: nat): World
    requires c < |w.ctxs| && w.ctxs[c].pool < |w.dom.pools|
  {
    var i, ix := w.ctxs[c].pool, w.ctxs[c].ix;
    var p := w.dom.pools[i];
    if Base(ix, p.blk) + k < |p.slots| then w.(dom := StoreSlot(w.dom, i, Base(ix, p.blk) + k, v)) else w
  }

  function DeleteOf(w: World, c: nat, p: nat): World
    requires c < |w.ctxs| && RetiredOk(w.ctxs[c].retired)
  {
    var (d, r) := DeleteItem(w.dom, w.ctxs[c].retired, p);
    World(d, w.ctxs[c := w.ctxs[c].(retired := r)], w.given + [p])
  }

  function CloseOf(w: World, c: nat): World
    requires c < |w.ctxs| && w.ctxs[c].pool < |w.dom.pools|
    requires PoolOk(w.dom.pools[w.ctxs[c].pool]) && w.ctxs[c].ix < BLOCKS
  {
    var x := w.ctxs[c];
    World(CloseContext(w.dom, x.pool, x.ix, x.retired), w.ctxs[c := Ctx(false, 0, 0, Retired([], 0))], w.given)
  }

  ghost function Apply(w: World, op: Op): World
    requires Inv(w) && OpOk(w, op)
  {
    match op
    case Open(size, limit) => OpenOf(w, size, limit)
    case Store(c, k, v) => StoreOf(w, c, k, v)
    case Delete(c, p) => DeleteOf(w, c, p)
    case Close(c) => CloseOf(w, c)
    case CollectNow => w.(dom := Collect(w.dom))
  }

  lemma {:induction false} HeldByUpdate(ctxs: seq<Ctx>, c: nat, x: Ctx, o: nat)
    requires c < |ctxs|
    ensures HeldBy(ctxs[c := x], o) + Count(ctxs[c].retired.items, o) == HeldBy(ctxs, o) + Count(x.retired.items, o)
  {
    hide Count;
    if c > 0 {
      HeldByUpdate(ctxs[1..], c - 1, x, o);
      assert ctxs[c := x][1..] == ctxs[1..][c - 1 := x];
    } else {
      assert ctxs[c := x][1..] == ctxs[1..];
    }
  }

  lemma {:induction false} HeldByAppend(ctxs: seq<Ctx>, x: Ctx, o: nat)
    ensures HeldBy(ctxs + [x], o) == HeldBy(ctxs, o) + Count(x.retired.items, o)
  {
    hide Count;
    if ctxs == [] {
      assert ctxs + [x] == [x] && [x][1..] == [];
    } else {
      assert (ctxs + [x])[1..] == ctxs[1..] + [x];
      HeldByAppend(ctxs[1..], x, o);
    }
  }

  lemma LedgerDistinct(w: World)
    requires Ledger(w) && Distinct(w.given) && Counted(w.dom)
    ensures Distinct(w.dom.pending)
  {
    hide Count, Distinct, HeldBy;
    forall o: nat
      ensures Count(w.dom.pending, o) <= 1
    {
      DistinctCount(w.given, o);
      CountIn(w.dom.pending, 0);
    }
    CountsDistinct(w.dom.pending);
  }

  // ---- opening ----

  /** The domain hands out a block nobody has, of nulls, in its newest pool. */
  lemma ReserveIs(d: Dom, len: nat)
    requires PoolsOk(d.pools)
    requires d.pools != [] ==> CanServe(d.pools[|d.pools| - 1], len)
    ensures var (e, ix) := DomReserve(d, len); var h := |e.pools| - 1;
            && PoolsOk(e.pools) && e == d.(pools := e.pools) && h >= 0 && |d.pools| <= |e.pools|
            && ix < BLOCKS && ix in e.pools[h].taken && e.pools[h].blk == len && BlockNull(e.pools[h], ix)
            && (d.pools != [] ==> |e.pools| == |d.pools| && ix !in d.pools[h].taken)
            && (d.pools == [] ==> e.pools[h].taken == {ix})
            && (forall i | 0 <= i < |d.pools| :: d.pools[i].taken <= e.pools[i].taken <= d.pools[i].taken + {ix})
            && (forall i | 0 <= i < h :: e.pools[i] == d.pools[i])
  {
    var pools := if d.pools == [] then [NewPool(len)] else d.pools;
    NewPoolOk(len);
    hide Scan, Base, PoolOk, FreeNull;
    ReserveKeeps(pools[|pools| - 1], len);
  }

  lemma NewPoolOk(len: nat)
    ensures PoolOk(NewPool(len)) && FreeNull(NewPool(len)) && CanServe(NewPool(len), len)
  {
  }

  lemma OpenKeeps(w: World, size: nat, limit: nat)
    requires Inv(w) && OpOk(w, Open(size, limit))
    ensures Inv(OpenOf(w, size, limit))
  {
    hide PoolOk, FreeNull, DomReserve, Ledger, Distinct, AllOwned, CanServe, BlockNull, Counted;
    ReserveIs(w.dom, size);
    OpenLedger(w, size, limit);
    OpenOwned(w, size, limit);
    var v := OpenOf(w, size, limit);
    assert Counted(v.dom) by { SameCounted(w.dom, v.dom); }
    NullArray(limit, 1);
    forall c | 0 <= c < |w.ctxs|
      ensures CtxOk(v.dom.pools, v.ctxs[c])
    {
      assert CtxOk(w.dom.pools, w.ctxs[c]);
    }
  }

  lemma OpenLedger(w: World, size: nat, limit: nat)
    requires Ledger(w) && PoolsOk(w.dom.pools) && OpOk(w, Open(size, limit))
    ensures Ledger(OpenOf(w, size, limit))
  {
    ReserveIs(w.dom, size);
    hide Count, HeldBy, DomReserve, PoolsOk;
    var v := OpenOf(w, size, limit);
    forall o: nat | o != 0
      ensures HeldBy(v.ctxs, o) == HeldBy(w.ctxs, o)
    {
      NullArray(limit, o);
      HeldByAppend(w.ctxs, v.ctxs[|w.ctxs|], o);
    }
  }

  lemma OpenOwned(w: World, size: nat, limit: nat)
    requires AllOwned(w) && PoolsOk(w.dom.pools) && OpOk(w, Open(size, limit))
    ensures AllOwned(OpenOf(w, size, limit))
  {
    ReserveIs(w.dom, size);
    hide DomReserve, PoolsOk, CanServe;
    var v := OpenOf(w, size, limit);
    forall i: nat, ix | i < |v.dom.pools| && ix in v.dom.pools[i].taken
      ensures exists c: nat :: Live(v, c) && v.ctxs[c].pool == i && v.ctxs[c].ix == ix
    {
      if i < |w.dom.pools| && ix in w.dom.pools[i].taken {
        var c: nat :| Live(w, c) && w.ctxs[c].pool == i && w.ctxs[c].ix == ix;
        assert Live(v, c) && v.ctxs[c] == w.ctxs[c];
      } else {
        assert Live(v, |w.ctxs|);
      }
    }
  }

  // ---- storing ----

  /** The same blocks are reserved, by the same contexts. */
  ghost predicate SameBlocks(w: World, u: World) {
    && |u.dom.pools| == |w.dom.pools| && |u.ctxs| == |w.ctxs|
    && (forall i | 0 <= i < |w.dom.pools| :: u.dom.pools[i].taken == w.dom.pools[i].taken)
    && forall c | 0 <= c < |w.ctxs| ::
         u.ctxs[c].live == w.ctxs[c].live && u.ctxs[c].pool == w.ctxs[c].pool && u.ctxs[c].ix == w.ctxs[c].ix
  }

  lemma SameOwners(w: World, u: World)
    requires SameBlocks(w, u) && AllOwned(w) && Apart(w.ctxs)
    ensures AllOwned(u) && Apart(u.ctxs)
  {
    forall i: nat, ix | i < |u.dom.pools| && ix in u.dom.pools[i].taken
      ensures exists c: nat :: Live(u, c) && u.ctxs[c].pool == i && u.ctxs[c].ix == ix
    {
      var c: nat :| Live(w, c) && w.ctxs[c].pool == i && w.ctxs[c].ix == ix;
      assert Live(u, c);
    }
  }

  /** A store reaches the slot meant, in the context's own block. */
  lemma StoreWrites(w: World, c: nat, k: nat, v: nat)
    requires Live(w, c) && w.ctxs[c].pool < |w.dom.pools| && CtxOk(w.dom.pools, w.ctxs[c])
    requires PoolsOk(w.dom.pools) && k < w.dom.pools[w.ctxs[c].pool].blk
    ensures var x := w.ctxs[c]; var p, q := w.dom.pools[x.pool], StoreOf(w, c, k, v).dom.pools[x.pool];
            && PoolOk(q) && FreeNull(q) && q.taken == p.taken && q.blk == p.blk
            && Base(x.ix, p.blk) + k < |p.slots| && q.slots == p.slots[Base(x.ix, p.blk) + k := v]
  {
    var x := w.ctxs[c];
    var p := w.dom.pools[x.pool];
    BaseFits(x.ix, p.blk);
    hide Base;
    var slots: seq<nat> := p.slots[Base(x.ix, p.blk) + k := v];
    StoreFree(p, x.ix, Base(x.ix, p.blk) + k, slots);
  }

  lemma StoreKeeps(w: World, c: nat, k: nat, v: nat)
    requires Inv(w) && OpOk(w, Store(c, k, v))
    ensures Inv(StoreOf(w, c, k, v))
  {
    hide Ledger, Distinct, Apart, AllOwned, PoolOk, FreeNull, Counted;
    assert CtxOk(w.dom.pools, w.ctxs[c]);
    StoreWrites(w, c, k, v);
    var u := StoreOf(w, c, k, v);
    SameOwners(w, u);
    SameLedger(w, u);
    assert Counted(u.dom) by { SameCounted(w.dom, u.dom); }
    forall d | 0 <= d < |w.ctxs|
      ensures CtxOk(u.dom.pools, w.ctxs[d])
    {
      assert CtxOk(w.dom.pools, w.ctxs[d]);
    }
  }

  lemma SameCounted(d: Dom, e: Dom)
    requires Counted(d) && e.pending == d.pending && e.count == d.count
    ensures Counted(e)
  {
  }

  lemma SameLedger(w: World, u: World)
    requires Ledger(w) && u.ctxs == w.ctxs && u.given == w.given
    requires u.dom.reclaimed == w.dom.reclaimed && u.dom.pending == w.dom.pending
    ensures Ledger(u)
  {
  }

  lemma StoreFree(p: Pool, ix: nat, n: nat, slots: seq<nat>)
    requires PoolOk(p) && FreeNull(p) && ix in p.taken
    requires Base(ix, p.blk) <= n < Base(ix, p.blk) + p.blk <= |p.slots| == |slots|
    requires forall m | 0 <= m < |slots| && m != n :: slots[m] == p.slots[m]
    ensures PoolOk(p.(slots := slots)) && FreeNull(p.(slots := slots))
  {
    hide Base;
    forall iy | 0 <= iy < BLOCKS && iy !in p.taken
      ensures BlockNull(p.(slots := slots), iy)
    {
      assert BlockNull(p, iy);
      BasesApart(if ix < iy then ix else iy, if ix < iy then iy else ix, p.blk);
    }
  }

  // ---- deleting ----

  lemma DeleteKeeps(w: World, c: nat, p: nat)
    requires Inv(w) && OpOk(w, Delete(c, p)) && RetiredOk(w.ctxs[c].retired)
    ensures Inv(DeleteOf(w, c, p))
  {
    hide Ledger, Distinct, PoolsOk, DeleteItem, Count, Apart, AllOwned, Counted, RetiredOk;
    var x := w.ctxs[c];
    assert CtxOk(w.dom.pools, x);
    DeleteItemIs(w.dom, x.retired, p, 1);
    DeleteLedger(w, c, p);
    var u := DeleteOf(w, c, p);
    SameOwners(w, u);
    DistinctAppend(w.given, p);
    forall d | 0 <= d < |w.ctxs|
      ensures CtxOk(u.dom.pools, u.ctxs[d])
    {
      assert CtxOk(w.dom.pools, w.ctxs[d]);
    }
  }

  lemma DistinctAppend(s: seq<nat>, p: nat)
    requires Distinct(s) && p !in s
    ensures Distinct(s + [p])
  {
  }

  lemma DeleteLedger(w: World, c: nat, p: nat)
    requires Ledger(w) && c < |w.ctxs| && RetiredOk(w.ctxs[c].retired) && |w.ctxs[c].retired.items| <= MAX_ITEMS
    requires p != 0 && Counted(w.dom)
    ensures Ledger(DeleteOf(w, c, p))
  {
    hide Count, DeleteItem, HeldBy;
    var u := DeleteOf(w, c, p);
    forall o: nat | o != 0
      ensures Count(u.given, o) == Count(u.dom.reclaimed, o) + Count(u.dom.pending, o) + HeldBy(u.ctxs, o)
    {
      DeleteItemIs(w.dom, w.ctxs[c].retired, p, o);
      HeldByUpdate(w.ctxs, c, u.ctxs[c], o);
      CountLast(w.given, p, o);
    }
  }

  // ---- closing ----

  ghost predicate Closable(w: World, c: nat) {
    && Live(w, c) && w.ctxs[c].pool < |w.dom.pools| && CtxOk(w.dom.pools, w.ctxs[c])
    && PoolsOk(w.dom.pools) && w.ctxs[c].ix < BLOCKS && w.dom.pools[w.ctxs[c].pool].blk > 0
  }

  /** The context's block is free again and null; other pools are as before. */
  lemma ClosePools(w: World, c: nat)
    requires Closable(w, c) && Counted(w.dom)
    ensures var x, u := w.ctxs[c], CloseOf(w, c);
            && PoolsOk(u.dom.pools) && |u.dom.pools| == |w.dom.pools| && Counted(u.dom)
            && (forall i | 0 <= i < |w.dom.pools| ::
                  u.dom.pools[i].taken == if i == x.pool then w.dom.pools[i].taken - {x.ix} else w.dom.pools[i].taken)
  {
    hide PoolOk, FreeNull, CloseContext, Release;
    var x := w.ctxs[c];
    CloseContextIs(w.dom, x.pool, x.ix, x.retired, 1);
    ReleaseKeeps(w.dom.pools[x.pool], x.ix);
  }

  lemma CloseLedger(w: World, c: nat)
    requires Closable(w, c) && Ledger(w) && Counted(w.dom)
    ensures Ledger(CloseOf(w, c))
  {
    hide Count, CloseContext, HeldBy;
    var x, u := w.ctxs[c], CloseOf(w, c);
    forall o: nat | o != 0
      ensures Count(u.given, o) == Count(u.dom.reclaimed, o) + Count(u.dom.pending, o) + HeldBy(u.ctxs, o)
    {
      CloseContextIs(w.dom, x.pool, x.ix, x.retired, o);
      HeldByUpdate(w.ctxs, c, u.ctxs[c], o);
      CountNone(o);
    }
  }

  lemma CloseKeeps(w: World, c: nat)
    requires Inv(w) && Closable(w, c)
    ensures Inv(CloseOf(w, c))
  {
    hide Ledger, Distinct, FreeNull, Counted, CloseContext, RetiredOk, PoolOk;
    ClosePools(w, c);
    CloseLedger(w, c);
    var x, u := w.ctxs[c], CloseOf(w, c);
    forall d | 0 <= d < |w.ctxs|
      ensures CtxOk(u.dom.pools, u.ctxs[d])
    {
      assert CtxOk(w.dom.pools, w.ctxs[d]);
    }
    forall i: nat, ix | i < |u.dom.pools| && ix in u.dom.pools[i].taken
      ensures exists d: nat :: Live(u, d) && u.ctxs[d].pool == i && u.ctxs[d].ix == ix
    {
      var d: nat :| Live(w, d) && w.ctxs[d].pool == i && w.ctxs[d].ix == ix;
      assert Live(u, d);
    }
  }

  lemma InvMeansClosable(w: World, c: nat)
    requires Inv(w) && Live(w, c)
    ensures w.ctxs[c].pool < |w.dom.pools| && RetiredOk(w.ctxs[c].retired) && |w.ctxs[c].retired.items| <= MAX_ITEMS
    ensures w.dom.pools[w.ctxs[c].pool].blk > 0 ==> Closable(w, c)
  {
    assert CtxOk(w.dom.pools, w.ctxs[c]);
  }

  // ---- collecting ----

  lemma CollectKeeps(w: World)
    requires Inv(w)
    ensures Inv(w.(dom := Collect(w.dom)))
  {
    hide Distinct, Count, Collect, HeldBy, Counted, Apart, PoolsOk, CtxOk;
    var u := w.(dom := Collect(w.dom));
    CollectIs(w.dom, 0);
    assert Counted(u.dom) by { CountedCollect(w.dom); }
    SameOwners(w, u);
    forall o: nat | o != 0
      ensures Count(u.given, o) == Count(u.dom.reclaimed, o) + Count(u.dom.pending, o) + HeldBy(u.ctxs, o)
    {
      CollectIs(w.dom, o);
    }
  }

  lemma CountedCollect(d: Dom)
    requires Counted(d)
    ensures Counted(Collect(d))
  {
    CollectCounted(d);
  }

  // ---- every step, every run ----

  lemma StepKeepsInv(w: World, op: Op)
    requires Inv(w) && OpOk(w, op)
    ensures Inv(Apply(w, op))
  {
    match op
    case Open(size, limit) => OpenKeeps(w, size, limit);
    case Store(c, k, v) => StoreKeeps(w, c, k, v);
    case Delete(c, p) =>
      InvMeansClosable(w, c);
      DeleteKeeps(w, c, p);
    case Close(c) =>
      InvMeansClosable(w, c);
      CloseKeeps(w, c);
    case CollectNow => CollectKeeps(w);
  }

  /** No step reclaims an object that a slot holds while the step looks. */
  lemma HeldIsNotReclaimed(w: World, op: Op, o: nat)
    requires Inv(w) && OpOk(w, op) && o != 0
    requires Protected(Apply(w, op).dom.pools, o)
    ensures Count(Apply(w, op).dom.reclaimed, o) == Count(w.dom.reclaimed, o)
  {
    hide Count, Protected, Collect, CloseContext, DeleteItem, DomReserve;
    match op
    case Open(size, limit) => ReserveIs(w.dom, size);
    case Store(c, k, v) =>
    case Delete(c, p) =>
      InvMeansClosable(w, c);
      DeleteItemIs(w.dom, w.ctxs[c].retired, p, o);
    case Close(c) =>
      InvMeansClosable(w, c);
      var x := w.ctxs[c];
      CloseContextIs(w.dom, x.pool, x.ix, x.retired, o);
    case CollectNow => CollectIs(w.dom, o);
  }

  /** A domain and its contexts in good order; a new domain is. */
  type Sound = w: World | Inv(w) ghost witness EMPTY

  ghost function After(w: Sound, op: Op): Sound
    requires OpOk(w, op)
  {
    StepKeepsInv(w, op);
    Apply(w, op)
  }

  /** Every operation of the run respects what is asked of the client when its turn comes. */
  ghost predicate RunOk(w: Sound, ops: seq<Op>)
    decreases |ops|
  {
    ops == [] || (OpOk(w, ops[0]) && RunOk(After(w, ops[0]), ops[1..]))
  }

  ghost function Run(w: Sound, ops: seq<Op>): Sound
    requires RunOk(w, ops)
    decreases |ops|
  {
    if ops == [] then w else Run(After(w, ops[0]), ops[1..])
  }

  ghost predicate AllClosed(w: World) {
    forall c | 0 <= c < |w.ctxs| :: !w.ctxs[c].live
  }

  lemma {:induction false} NothingHeld(ctxs: seq<Ctx>, o: nat)
    requires forall c | 0 <= c < |ctxs| :: ctxs[c].retired.items == []
    ensures HeldBy(ctxs, o) == 0
  {
    if ctxs != [] {
      NothingHeld(ctxs[1..], o);
    }
  }

  lemma ClosedHoldsNothing(w: World, o: nat)
    requires Inv(w) && AllClosed(w)
    ensures !Protected(w.dom.pools, o) && HeldBy(w.ctxs, o) == 0
  {
    forall c | 0 <= c < |w.ctxs|
      ensures w.ctxs[c].retired.items == []
    {
      assert CtxOk(w.dom.pools, w.ctxs[c]);
    }
    NothingHeld(w.ctxs, o);
    AllReleased(w.dom.pools, o);
  }

  /** With all contexts gone no block is reserved, as the destructor of the domain expects. */
  lemma NoReservations(w: World, i: nat)
    requires Inv(w) && AllClosed(w) && i < |w.dom.pools|
    ensures w.dom.pools[i].taken == {}
  {
  }

  /**
   * The whole lifetime: after any run that ends with all contexts destroyed, the domain's final
   * collect leaves nothing pending, and every object ever given up has been reclaimed exactly once.
   */
  lemma WholeLifetime(ops: seq<Op>, o: nat)
    requires RunOk(EMPTY, ops) && AllClosed(Run(EMPTY, ops)) && o != 0
    ensures var w := Run(EMPTY, ops); var d := Collect(w.dom);
            && d.pending == []
            && (forall i | 0 <= i < |d.pools| :: d.pools[i].taken == {})
            && Count(d.reclaimed, o) == if o in w.given then 1 else 0
  {
    var w: Sound := Run(EMPTY, ops);
    var d := Collect(w.dom);
    hide Collect, Count, Run, RunOk, Protected;
    if d.pending != [] {
      CollectCounted(w.dom);
      assert Protected(w.dom.pools, d.pending[0]);
      ClosedHoldsNothing(w, d.pending[0]);
    }
    ClosedHoldsNothing(w, o);
    CollectIs(w.dom, o);
    forall i | 0 <= i < |w.dom.pools|
      ensures w.dom.pools[i].taken == {}
    {
      NoReservations(w, i);
    }
    DistinctCount(w.given, o);
    CountIn(w.given, o);
  }

  /** At every moment of every run: nothing is reclaimed twice, and what is not reclaimed is still there. */
  lemma NothingLost(ops: seq<Op>, o: nat)
    requires RunOk(EMPTY, ops) && o != 0
    ensures var w := Run(EMPTY, ops);
            (if o in w.given then 1 else 0)
              == Count(w.dom.reclaimed, o) + Count(w.dom.pending, o) + HeldBy(w.ctxs, o)
  {
    var w: Sound := Run(EMPTY, ops);
    hide Run, RunOk, Count;
    DistinctCount(w.given, o);
    CountIn(w.given, o);
  }

  // ---- the bound on pending deletes ----

  ghost predicate Bounded(w: World) {
    |w.dom.pending| <= HpCount(w.dom.pools)
  }

  /** What giving up an object leaves pending is bounded, or as it was. */
  lemma DeleteBound(w: World, c: nat, p: nat)
    requires Inv(w) && OpOk(w, Delete(c, p)) && Bounded(w)
    ensures Bounded(Apply(w, Delete(c, p)))
  {
    StepKeepsInv(w, Delete(c, p));
    InvMeansClosable(w, c);
    LedgerDistinct(DeleteOf(w, c, p));
    DeleteItemIs(w.dom, w.ctxs[c].retired, p, 1);
    hide Inv, OpOk, CollectIfRequired, EnqueueAll, HpCount, Ledger, Distinct;
    DeleteItemBound(w.dom, w.ctxs[c].retired, p);
  }

  lemma DeleteItemBound(d: Dom, r: Retired, p: nat)
    requires Counted(d) && RetiredOk(r) && p != 0
    ensures var e := DeleteItem(d, r, p).0;
            Distinct(e.pending) && e.pending != d.pending ==> |e.pending| <= HpCount(d.pools)
  {
    hide CollectIfRequired, EnqueueAll, HpCount, Distinct, Gone, Swept, Compact, SweptIndex;
    if r.items == [] {
      PendingBound(Push(d, p));
    } else {
      var s := Retired(r.items[r.index := p], r.index + 1);
      EnqueueAllCounted(d.(reclaimed := d.reclaimed + Gone(d.pools, s.items)), Swept(d.pools, s.items));
    }
  }

  /** After a collect only protected objects are pending, each once. */
  lemma CollectedBound(d: Dom)
    requires 0 !in d.pending && Distinct(Collect(d).pending)
    ensures |Collect(d).pending| <= HpCount(d.pools) && Collect(d).pools == d.pools
  {
    hide Collect, Protected, HpCount, Distinct;
    CollectCounted(d);
    CollectIs(d, 0);
    ProtectedAtMost(d.pools, Collect(d).pending);
  }

  lemma CloseBound(w: World, c: nat)
    requires Inv(w) && OpOk(w, Close(c))
    ensures Bounded(Apply(w, Close(c)))
  {
    StepKeepsInv(w, Close(c));
    InvMeansClosable(w, c);
    LedgerDistinct(CloseOf(w, c));
    var x := w.ctxs[c];
    var e := w.dom.(pools := w.dom.pools[x.pool := HazptrValues.Release(w.dom.pools[x.pool], x.ix)]);
    hide Inv, OpOk, Ledger, Distinct, HpCount, EnqueueAll, Collect;
    EnqueueAllCounted(e, x.retired.items);
    EnqueueAllIs(e, x.retired.items, 1);
    CollectedBound(EnqueueAll(e, x.retired.items));
  }

  lemma {:induction false} SlotsUpdated(pools: seq<Pool>, i: nat, p: Pool)
    requires i < |pools| && |p.slots| == |pools[i].slots|
    ensures HpCount(pools[i := p]) == HpCount(pools)
  {
    var h := |pools| - 1;
    assert pools[i := p][..h] == if i < h then pools[..h][i := p] else pools[..h];
    if i < h {
      SlotsUpdated(pools[..h], i, p);
    }
  }

  lemma OpenBound(w: World, size: nat, limit: nat)
    requires Inv(w) && OpOk(w, Open(size, limit)) && Bounded(w)
    ensures Bounded(Apply(w, Open(size, limit)))
  {
    if w.dom.pools != [] {
      var h := |w.dom.pools| - 1;
      SlotsUpdated(w.dom.pools, h, Reserve(w.dom.pools[h], size).0);
    }
  }

  lemma StepBound(w: World, op: Op)
    requires Inv(w) && OpOk(w, op) && Bounded(w)
    ensures Bounded(Apply(w, op))
  {
    match op
    case Open(size, limit) => OpenBound(w, size, limit);
    case Store(c, k, v) =>
      InvMeansClosable(w, c);
      var p := w.dom.pools[w.ctxs[c].pool];
      if Base(w.ctxs[c].ix, p.blk) + k < |p.slots| {
        var slots: seq<nat> := p.slots[Base(w.ctxs[c].ix, p.blk) + k := v];
        SlotsUpdated(w.dom.pools, w.ctxs[c].pool, p.(slots := slots));
      }
    case Delete(c, p) => DeleteBound(w, c, p);
    case Close(c) => CloseBound(w, c);
    case CollectNow =>
      StepKeepsInv(w, op);
      LedgerDistinct(Apply(w, op));
      CollectedBound(w.dom);
  }

  lemma {:induction false} RunBound(w: Sound, ops: seq<Op>)
    requires Bounded(w) && RunOk(w, ops)
    ensures Bounded(Run(w, ops))
    decreases |ops|
  {
    if ops != [] {
      StepBound(w, ops[0]);
      RunBound(After(w, ops[0]), ops[1..]);
    }
  }

  /**
   * The pending-delete bound: at the end of any run, and so after every operation of it, no more
   * deletes are pending than the domain has hazard pointers.
   */
  lemma PendingBounded(ops: seq<Op>)
    requires RunOk(EMPTY, ops)
    ensures |Run(EMPTY, ops).dom.pending| <= HpCount(Run(EMPTY, ops).dom.pools)
  {
    RunBound(EMPTY, ops);
  }
}
