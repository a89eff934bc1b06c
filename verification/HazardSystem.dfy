// Pools and reclamation together (hazard_pointer.cpp:43-160, 182-470): the slots that
// snapshots read in Reclamation.dfy are those of the blocks that threads reserve, store
// to and release in BlockOwnership.dfy.
//
// A system is a state of each: one state of BlockOwnership for every pool.  A store to a
// block, by its owner or by a release, is a store to a slot.

module HazardSystem {
  import opened Options
  import opened Blocks
  import opened Counting
  import B = BlockOwnership
  import R = Reclamation
  import E = ReclamationEnd

  datatype System = System(rec: R.State, pools: seq<B.State>)

  datatype Event = Work(t: nat, call: R.Call) | OnPool(i: nat, e: B.Event)

  ghost predicate EventOk(s: System, e: Event) {
    match e
    case Work(t, call) => R.EventOk(s.rec, R.By(t, call))
    case OnPool(i, f) => i < |s.pools| && B.EventOk(s.pools[i], f)
  }

  /** A new pool, of which `n` threads may reserve blocks. */
  function NewPool(blk: nat, n: nat): B.State {
    B.State(B.Pool(blk, {}, seq(BLOCKS, _ => seq(blk, _ => 0))), seq(n, _ => B.Thread(B.Idle, {}, None)))
  }

  datatype Write = Write(ix: nat, x: nat, v: nat)

  /** What the event stores to which slot of which block. */
  function Written(p: B.State, f: B.Event): Option<Write>
    requires f.t < |p.threads|
  {
    match p.threads[f.t].pc
    case Idle => (match f.call case Store(ix, x, v) => Some(Write(ix, x, v)) case _ => None)
    case Null(ix, x) => Some(Write(ix, x, 0))
    case _ => None
  }

  /** The store to the flat storage that snapshots read. */
  ghost function StoreTo(rec: R.State, i: nat, blk: nat, w: Option<Write>): R.State {
    if w.Some? && R.EventOk(rec, R.Store(i, Base(w.value.ix, blk) + w.value.x, w.value.v))
    then R.Apply(rec, R.Store(i, Base(w.value.ix, blk) + w.value.x, w.value.v))
    else rec
  }

  ghost function Apply(s: System, e: Event): System
    requires EventOk(s, e)
  {
    match e
    case Work(t, call) =>
      var rec := R.Apply(s.rec, R.By(t, call));
      System(rec, if |rec.mem.pools| == |s.rec.mem.pools| then s.pools
                  else s.pools + [NewPool(AddedSize(s.rec.threads[t]), |s.rec.threads|)])
    case OnPool(i, f) =>
      System(StoreTo(s.rec, i, s.pools[i].pool.blk, Written(s.pools[i], f)), s.pools[i := B.Apply(s.pools[i], f)])
  }

  function AddedSize(th: R.Thread): nat {
    match th.pc
    case PoolCas(blk, _) => blk
    case _ => 0
  }

  // ---- the invariant ----

  /** The slots of a pool are those of its blocks, one after the other. */
  ghost predicate SameSlots(slots: seq<nat>, p: B.Pool) {
    && B.PoolOk(p) && |slots| == Base(BLOCKS, p.blk)
    && forall ix, x | 0 <= ix < BLOCKS && 0 <= x < p.blk :: Slot(slots, ix, p.blk, x) == p.blocks[ix][x]
  }

  ghost function Slot(slots: seq<nat>, ix: nat, blk: nat, x: nat): nat
    requires ix < BLOCKS && x < blk && |slots| == Base(BLOCKS, blk)
  {
    BaseFits(ix, blk);
    slots[Base(ix, blk) + x]
  }

  ghost predicate Joined(s: System) {
    && |s.pools| == |s.rec.mem.pools|
    && forall i | 0 <= i < |s.pools| :: B.Inv(s.pools[i]) && SameSlots(s.rec.mem.pools[i], s.pools[i].pool)
  }

  ghost predicate Inv(s: System) {
    R.Inv(s.rec) && Joined(s)
  }

  /** A thread's own work leaves the pools alone, but for adding one. */
  lemma WorkPools(s: R.State, t: nat, call: R.Call)
    requires R.EventOk(s, R.By(t, call))
    ensures var pools := R.Apply(s, R.By(t, call)).mem.pools;
            || pools == s.mem.pools
            || (s.threads[t].pc.PoolCas? && pools == s.mem.pools + [seq(32 * s.threads[t].pc.blk, _ => 0)])
  {
  }

  lemma NewPoolOk(blk: nat, n: nat)
    ensures B.Inv(NewPool(blk, n)) && SameSlots(seq(32 * blk, _ => 0), NewPool(blk, n).pool)
  {
    NewSlots(blk, n);
    hide SameSlots;
  }

  lemma NewSlots(blk: nat, n: nat)
    ensures SameSlots(seq(32 * blk, _ => 0), NewPool(blk, n).pool)
  {
    var slots: seq<nat> := seq(32 * blk, _ => 0);
    var p := NewPool(blk, n).pool;
    assert |slots| == Base(BLOCKS, blk);
    hide Base;
    forall ix, x | 0 <= ix < BLOCKS && 0 <= x < blk
      ensures Slot(slots, ix, blk, x) == p.blocks[ix][x]
    {
      BaseFits(ix, blk);
    }
  }

  lemma WorkKeepsInv(s: System, t: nat, call: R.Call)
    requires Inv(s) && EventOk(s, Work(t, call))
    ensures Inv(Apply(s, Work(t, call)))
  {
    hide R.Inv, B.Inv, R.Apply, SameSlots;
    R.StepInv(s.rec, R.By(t, call));
    WorkPools(s.rec, t, call);
    NewPoolOk(AddedSize(s.rec.threads[t]), |s.rec.threads|);
  }

  /** What an event does to the blocks is what it is said to write. */
  lemma WrittenIs(p: B.State, f: B.Event)
    requires B.Inv(p) && B.EventOk(p, f)
    ensures var q, w := B.Apply(p, f).pool, Written(p, f);
            && q.blk == p.pool.blk
            && if w.None? then q.blocks == p.pool.blocks
               else w.value.ix < BLOCKS && w.value.x < q.blk && w.value.ix in p.threads[f.t].owned
                    && q.blocks == B.Put(p.pool, w.value.ix, w.value.x, w.value.v).blocks
  {
    assert B.ThreadOk(p.pool, p.threads[f.t]) && B.PoolOk(p.pool);
    hide B.Inv, B.Put;
  }

  lemma SlotsWritten(slots: seq<nat>, p: B.Pool, q: B.Pool, ix: nat, x: nat, v: nat)
    requires SameSlots(slots, p) && ix < BLOCKS && x < p.blk && B.PoolOk(q)
    requires q.blk == p.blk && q.blocks == B.Put(p, ix, x, v).blocks
    ensures Base(ix, p.blk) + x < |slots| && SameSlots(slots[Base(ix, p.blk) + x := v], q)
  {
    BaseFits(ix, p.blk);
    hide Base;
    var next: seq<nat> := slots[Base(ix, p.blk) + x := v];
    forall iy, y | 0 <= iy < BLOCKS && 0 <= y < p.blk
      ensures Slot(next, iy, p.blk, y) == q.blocks[iy][y]
    {
      assert Slot(slots, iy, p.blk, y) == p.blocks[iy][y];
      BaseFits(iy, p.blk);
      if iy != ix {
        BasesApart(if ix < iy then ix else iy, if ix < iy then iy else ix, p.blk);
      }
    }
  }

  /** The pool that an event is about, and its slots, go on together. */
  lemma PoolGoesOn(slots: seq<nat>, p: B.State, f: B.Event)
    requires B.Inv(p) && B.EventOk(p, f) && SameSlots(slots, p.pool)
    ensures var q, w := B.Apply(p, f), Written(p, f);
            && B.Inv(q)
            && if w.None? then SameSlots(slots, q.pool)
               else && Base(w.value.ix, p.pool.blk) + w.value.x < |slots|
                    && SameSlots(slots[Base(w.value.ix, p.pool.blk) + w.value.x := w.value.v], q.pool)
  {
    hide B.Inv, SameSlots, B.Apply, B.ThreadOk, B.CallOk, B.PoolOk, Written, Base;
    var q, w := B.Apply(p, f), Written(p, f);
    WrittenIs(p, f);
    B.StepKeepsInv(p, f);
    InvPoolOk(q);
    InvPoolOk(p);
    if w.Some? {
      SlotsWritten(slots, p.pool, q.pool, w.value.ix, w.value.x, w.value.v);
    } else {
      SameBlocks(slots, p.pool, q.pool);
    }
  }

  lemma PoolKeepsInv(s: System, i: nat, f: B.Event)
    requires Inv(s) && EventOk(s, OnPool(i, f))
    ensures Inv(Apply(s, OnPool(i, f)))
    ensures Written(s.pools[i], f).Some? ==> Stores(s, i, f)
  {
    hide R.Inv, B.Inv, SameSlots, B.Apply, B.ThreadOk, B.CallOk, B.PoolOk, Written, Base;
    var p, w := s.pools[i], Written(s.pools[i], f);
    PoolGoesOn(s.rec.mem.pools[i], p, f);
    if w.Some? {
      R.StepInv(s.rec, R.Store(i, Base(w.value.ix, p.pool.blk) + w.value.x, w.value.v));
    }
  }

  lemma InvPoolOk(p: B.State)
    requires B.Inv(p)
    ensures B.PoolOk(p.pool)
  {
  }

  lemma SameBlocks(slots: seq<nat>, p: B.Pool, q: B.Pool)
    requires SameSlots(slots, p) && B.PoolOk(q) && q.blk == p.blk && q.blocks == p.blocks
    ensures SameSlots(slots, q)
  {
  }

  /** The event's store is one of Reclamation's events. */
  ghost predicate Stores(s: System, i: nat, f: B.Event)
    requires EventOk(s, OnPool(i, f))
  {
    var w := Written(s.pools[i], f);
    && w.Some?
    && var e := R.Store(i, Base(w.value.ix, s.pools[i].pool.blk) + w.value.x, w.value.v);
       R.EventOk(s.rec, e) && Apply(s, OnPool(i, f)).rec == R.Apply(s.rec, e)
  }

  lemma StepKeepsInv(s: System, e: Event)
    requires Inv(s) && EventOk(s, e)
    ensures Inv(Apply(s, e))
  {
    match e
    case Work(t, call) => WorkKeepsInv(s, t, call);
    case OnPool(i, f) => PoolKeepsInv(s, i, f);
  }

  // ---- runs ----

  ghost predicate Start(s: System) {
    R.Start(s.rec) && s.pools == []
  }

  ghost predicate Run(ss: seq<System>, es: seq<Event>) {
    && |ss| == |es| + 1
    && forall k | 0 <= k < |es| :: EventOk(ss[k], es[k]) && ss[k + 1] == Apply(ss[k], es[k])
  }

  lemma {:induction false} RunInv(ss: seq<System>, es: seq<Event>, k: nat)
    requires Run(ss, es) && Start(ss[0]) && k < |ss|
    ensures Inv(ss[k])
  {
    if k == 0 {
      R.StartInv(ss[0].rec);
    } else {
      hide EventOk, Apply, Inv;
      RunInv(ss, es, k - 1);
      StepKeepsInv(ss[k - 1], es[k - 1]);
    }
  }

  // ---- what an owner stores protects ----

  /** Thread `q` owns block `ix` of pool `i`, whose slot `x` holds `o`. */
  ghost predicate OwnerHolds(s: System, i: nat, q: nat, ix: nat, x: nat, o: nat) {
    && i < |s.pools| && q < |s.pools[i].threads| && ix in s.pools[i].threads[q].owned
    && B.PoolOk(s.pools[i].pool) && ix < BLOCKS && x < s.pools[i].pool.blk
    && Masked(s.pools[i].pool.blocks[ix][x]) == o
  }

  /** A store by the owner of a block puts the pointer into that slot, where snapshots read it. */
  lemma OwnerStores(s: System, e: Event, i: nat, q: nat, ix: nat, x: nat, v: nat)
    requires Inv(s) && i < |s.pools| && q < |s.pools[i].threads| && s.pools[i].threads[q].pc.Idle?
    requires e == OnPool(i, B.Event(q, B.Store(ix, x, v))) && EventOk(s, e)
    ensures Joined(Apply(s, e)) && OwnerHolds(Apply(s, e), i, q, ix, x, Masked(v))
    ensures R.Holds(Apply(s, e).rec, i, Base(ix, Apply(s, e).pools[i].pool.blk) + x, Masked(v))
  {
    hide R.Inv, B.Inv, B.Apply, SameSlots, Base, Masked, R.Holds, B.PoolOk, B.ThreadOk;
    PoolKeepsInv(s, i, e.e);
    StoredInBlock(s.pools[i], q, ix, x, v);
    OwnerHoldsSlot(Apply(s, e), i, q, ix, x, Masked(v));
  }

  lemma StoredInBlock(p: B.State, q: nat, ix: nat, x: nat, v: nat)
    requires B.Inv(p) && B.EventOk(p, B.Event(q, B.Store(ix, x, v))) && p.threads[q].pc.Idle?
    ensures var p' := B.Apply(p, B.Event(q, B.Store(ix, x, v)));
            && B.PoolOk(p'.pool) && |p'.threads| == |p.threads| && p'.threads[q] == p.threads[q]
            && ix in p.threads[q].owned && ix < BLOCKS && x < p.pool.blk == p'.pool.blk
            && p'.pool.blocks[ix][x] == v
            && forall iy, y | 0 <= iy < BLOCKS && 0 <= y < p.pool.blk && (iy, y) != (ix, x) ::
                 p'.pool.blocks[iy][y] == p.pool.blocks[iy][y]
  {
  }

  lemma OwnerHoldsSlot(s: System, i: nat, q: nat, ix: nat, x: nat, o: nat)
    requires Joined(s) && OwnerHolds(s, i, q, ix, x, o)
    ensures R.Holds(s.rec, i, Base(ix, s.pools[i].pool.blk) + x, o)
  {
    hide B.Inv;
    BaseFits(ix, s.pools[i].pool.blk);
    assert Slot(s.rec.mem.pools[i], ix, s.pools[i].pool.blk, x) == s.pools[i].pool.blocks[ix][x];
  }

  /** Other threads leave an owned block as it is. */
  lemma OthersLeaveBlock(p: B.State, f: B.Event, q: nat, ix: nat)
    requires B.Inv(p) && B.EventOk(p, f) && q < |p.threads| && f.t != q && ix in p.threads[q].owned
    ensures var p' := B.Apply(p, f);
            && B.PoolOk(p'.pool) && ix < BLOCKS && p'.pool.blk == p.pool.blk
            && p'.pool.blocks[ix] == p.pool.blocks[ix]
            && |p'.threads| == |p.threads| && p'.threads[q] == p.threads[q]
  {
    B.StepLocal(p, f);
    hide B.StepOf;
    assert ix !in p.threads[f.t].owned;
  }

  /** Unless the owner lets go by a step of its own, it holds on, and the object stays guarded. */
  lemma OwnerStep(s: System, e: Event, i: nat, q: nat, ix: nat, x: nat, o: nat)
    requires Inv(s) && EventOk(s, e) && OwnerHolds(s, i, q, ix, x, o) && o != 0
    requires e.OnPool? && e.i == i && e.e.t == q ==> OwnerHolds(Apply(s, e), i, q, ix, x, o)
    requires R.Guarded(s.rec, i, Base(ix, s.pools[i].pool.blk) + x, o)
    ensures OwnerHolds(Apply(s, e), i, q, ix, x, o) && Apply(s, e).pools[i].pool.blk == s.pools[i].pool.blk
    ensures R.Guarded(Apply(s, e).rec, i, Base(ix, s.pools[i].pool.blk) + x, o)
  {
    hide R.Guarded, R.Holds, R.Inv, B.Inv, Base, SameSlots, Written, Masked;
    OwnerHoldsSlot(s, i, q, ix, x, o);
    R.InvOk(s.rec);
    match e
    case Work(t, call) =>
      R.StepGuards(s.rec, R.By(t, call), i, Base(ix, s.pools[i].pool.blk) + x, o);
    case OnPool(j, f) =>
      PoolKeepsInv(s, j, f);
      WrittenIs(s.pools[j], f);
      if j == i && f.t != q {
        OthersLeaveBlock(s.pools[i], f, q, ix);
      }
      var w := Written(s.pools[j], f);
      if w.Some? {
        R.StepGuards(s.rec, R.Store(j, Base(w.value.ix, s.pools[j].pool.blk) + w.value.x, w.value.v),
          i, Base(ix, s.pools[i].pool.blk) + x, o);
      }
  }

  /**
   * An object that the owner of a block had in one of its slots before the object was retired is
   * safe until the owner itself lets go of it, whatever all other threads do.
   */
  lemma {:induction false} OwnerProtects(ss: seq<System>, es: seq<Event>, m: nat, n: nat, i: nat, q: nat, ix: nat, x: nat, o: nat)
    requires Run(ss, es) && Start(ss[0]) && m <= n < |ss| && o != 0
    requires OwnerHolds(ss[m], i, q, ix, x, o) && o !in ss[m].rec.mem.retired
    requires forall k | m <= k < n && es[k].OnPool? && es[k].i == i && es[k].e.t == q ::
               OwnerHolds(ss[k + 1], i, q, ix, x, o)
    ensures OwnerHolds(ss[n], i, q, ix, x, o) && o !in ss[n].rec.mem.reclaimed
    ensures R.Guarded(ss[n].rec, i, Base(ix, ss[n].pools[i].pool.blk) + x, o)
  {
    hide Inv, EventOk, Apply, OwnerHolds, Base, R.Guarded, R.Inv, Start;
    RunInv(ss, es, n);
    if m == n {
      OwnerIn(ss[m], i, q, ix, x, o);
      R.Unretired(ss[m].rec, i, Base(ix, ss[m].pools[i].pool.blk) + x, o);
    } else {
      OwnerProtects(ss, es, m, n - 1, i, q, ix, x, o);
      RunInv(ss, es, n - 1);
      OwnerIn(ss[n - 1], i, q, ix, x, o);
      OwnerStep(ss[n - 1], es[n - 1], i, q, ix, x, o);
    }
    OwnerIn(ss[n], i, q, ix, x, o);
    R.GuardedMeans(ss[n].rec, i, Base(ix, ss[n].pools[i].pool.blk) + x, o);
  }

  lemma OwnerIn(s: System, i: nat, q: nat, ix: nat, x: nat, o: nat)
    requires OwnerHolds(s, i, q, ix, x, o) && Inv(s)
    ensures i < |s.pools| && R.Inv(s.rec)
  {
  }

  // ---- the end of life ----

  /** A run of the system is a run of Reclamation, without the steps that store nothing. */
  lemma {:induction false} AsReclamation(ss: seq<System>, es: seq<Event>, k: nat) returns (b: seq<R.State>, fs: seq<R.Event>)
    requires Run(ss, es) && Start(ss[0]) && k < |ss|
    ensures R.Run(b, fs) && |b| == |fs| + 1 && b[0] == ss[0].rec && b[|fs|] == ss[k].rec
  {
    hide Inv, EventOk, R.EventOk, R.Apply, Stores, R.Start;
    if k == 0 {
      b, fs := [ss[0].rec], [];
    } else {
      b, fs := AsReclamation(ss, es, k - 1);
      RunInv(ss, es, k - 1);
      var f := AsEvent(ss[k - 1], es[k - 1]);
      if f.Some? {
        b, fs := b + [ss[k].rec], fs + [f.value];
      }
    }
  }

  lemma AsEvent(s: System, e: Event) returns (f: Option<R.Event>)
    requires Inv(s) && EventOk(s, e)
    ensures f.None? ==> Apply(s, e).rec == s.rec
    ensures f.Some? ==> R.EventOk(s.rec, f.value) && Apply(s, e).rec == R.Apply(s.rec, f.value)
  {
    hide Inv, B.ThreadOk, B.CallOk, B.PoolOk, Base;
    f := None;
    match e
    case Work(t, call) => f := Some(R.By(t, call));
    case OnPool(i, g) =>
      PoolKeepsInv(s, i, g);
      var w := Written(s.pools[i], g);
      if w.Some? {
        f := Some(R.Store(i, Base(w.value.ix, s.pools[i].pool.blk) + w.value.x, w.value.v));
      }
  }

  /** Every block has been given back, and every thread is done. */
  ghost predicate AllGone(s: System) {
    && (forall i | 0 <= i < |s.pools| :: NoOwners(s.pools[i]))
    && forall t | 0 <= t < |s.rec.threads| :: E.AtRest(s.rec.threads[t])
  }

  ghost predicate NoOwners(p: B.State) {
    forall q | 0 <= q < |p.threads| :: p.threads[q].owned == {}
  }

  lemma NoOwnersNull(slots: seq<nat>, p: B.State, j: nat)
    requires B.Inv(p) && NoOwners(p) && SameSlots(slots, p.pool) && j < |slots|
    ensures p.pool.taken == {} && slots[j] == 0
  {
    var ix := BlockOf(j, p.pool.blk);
    assert Slot(slots, ix, p.pool.blk, j - Base(ix, p.pool.blk)) == p.pool.blocks[ix][j - Base(ix, p.pool.blk)];
    assert B.AllNull(p.pool.blocks[ix]);
  }

  /**
   * The end of life: after any run that ends with all blocks given back and all threads done, one
   * more collect by any thread empties the list, with everything retired reclaimed exactly once.
   */
  lemma EndOfLife(ss: seq<System>, es: seq<Event>, t: nat) returns (c: seq<R.State>, fs: seq<R.Event>)
    requires Run(ss, es) && Start(ss[0]) && AllGone(ss[|es|]) && t < |ss[|es|].rec.threads|
    ensures R.Run(c, fs) && c[0] == ss[|es|].rec && fs != [] && forall e | e in fs :: e == R.By(t, R.Collect)
    ensures var m := c[|fs|].mem;
            && m.shared == [] && m.head == None && m.retired == ss[|es|].rec.mem.retired
            && forall o: nat | o != 0 :: Count(m.reclaimed, o) == if o in m.retired then 1 else 0
  {
    hide EventOk, Apply, R.Run, R.Start, R.Inv, B.Inv, SameSlots, NoOwners, E.AtRest;
    var s := ss[|es|];
    RunInv(ss, es, |es|);
    forall i, j | 0 <= i < |s.rec.mem.pools| && 0 <= j < |s.rec.mem.pools[i]|
      ensures s.rec.mem.pools[i][j] == 0
    {
      NoOwnersNull(s.rec.mem.pools[i], s.pools[i], j);
    }
    var b, gs := AsReclamation(ss, es, |es|);
    c, fs := E.LastCollect(b, gs, t);
  }
}
