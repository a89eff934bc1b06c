// A domain and the contexts a program makes from it, run by one thread
// (hazard_pointer.hpp:450-468, 587-606, 614-681, 704-713): the objects of
// HazptrDomain.dfy and HazptrContext.dfy together do what HazptrLifetime.dfy says.

module HazptrProgram {
  import opened Blocks
  import opened Counting
  import opened HazptrValues
  import opened HazptrPool
  import opened HazptrSnapshot
  import opened HazptrDomain
  import opened HazptrContext
  import opened HazptrLifetime

  /** The contexts of a program; those it has destroyed are null. */
  type Contexts = seq<HazardPointerContext?>

  ghost function Arrays(cs: Contexts): set<array<nat>> {
    set c: HazardPointerContext | c in cs :: c.deleted
  }

  ghost function CtxOf(c: HazardPointerContext?): Ctx
    reads c, if c == null then {} else {c.deleted}
  {
    if c == null then Ctx(false, 0, 0, Retired([], 0)) else Ctx(true, c.pool, c.ix, c.Items())
  }

  ghost function Ctxs(cs: Contexts): (xs: seq<Ctx>)
    reads cs, Arrays(cs)
    ensures |xs| == |cs| && forall i | 0 <= i < |cs| :: xs[i] == CtxOf(cs[i])
  {
    if cs == [] then [] else Ctxs(cs[..|cs| - 1]) + [CtxOf(cs[|cs| - 1])]
  }

  /** No context is in the list twice, and no two share an array. */
  ghost predicate Separate(cs: Contexts) {
    forall c, d | 0 <= c < |cs| && 0 <= d < |cs| && c != d && cs[c] != null && cs[d] != null ::
      cs[c] != cs[d] && cs[c].deleted != cs[d].deleted
  }

  /** The contexts belong to the domain: blocks in its pools, arrays of their own. */
  ghost predicate Bound(cs: Contexts, dom: HazptrDomain, pools: seq<HazptrPool>) {
    forall k | 0 <= k < |cs| && cs[k] != null ::
      && cs[k].domain == dom && cs[k].pool < |pools| && cs[k].hazardPtrs.pool == pools[cs[k].pool]
      && cs[k].size == cs[k].hazardPtrs.pool.blkSize && cs[k].hazardPtrs.offset == Base(cs[k].ix, cs[k].size)
      && cs[k].deleted !in Storage(pools)
  }

  /** The objects are in order. */
  ghost predicate Held(dom: HazptrDomain, cs: Contexts)
    reads dom, dom.pools, Storage(dom.pools), dom.pending
  {
    dom.Valid() && Separate(cs) && Bound(cs, dom, dom.pools)
  }

  /** The objects as a value; `given` records what has been given up for deletion. */
  ghost function WorldOf(dom: HazptrDomain, cs: Contexts, given: seq<nat>): World
    reads cs, Arrays(cs), dom, dom.pools, Storage(dom.pools)
  {
    World(dom.View(), Ctxs(cs), given)
  }

  /** Then each context that is there is in order: no other can have disturbed it. */
  lemma Undisturbed(dom: HazptrDomain, cs: Contexts, given: seq<nat>, c: nat)
    requires Held(dom, cs) && Inv(WorldOf(dom, cs, given)) && c < |cs| && cs[c] != null
    ensures cs[c].Valid() && cs[c].domain == dom
  {
    hide HazptrDomain.PoolsHeld, HazptrDomain.ListHeld, AllOwned, HazptrLifetime.Apart, Ledger, Distinct, Counted, PoolsOk, RetiredOk;
    assert CtxOk(WorldOf(dom, cs, given).dom.pools, CtxOf(cs[c]));
  }

  /** All pools and nodes of the domain that were not here before are new objects. */
  twostate predicate OnlyNew(dom: HazptrDomain)
    reads dom
  {
    && (forall i | 0 <= i < |dom.pools| ::
          dom.pools[i] in old(dom.pools) || (fresh(dom.pools[i]) && fresh(dom.pools[i].hazPtrs)))
    && (forall i | 0 <= i < |dom.pending| :: dom.pending[i] in old(dom.pending) || fresh(dom.pending[i]))
  }

  // ---- opening ----

  lemma OneMoreContext(cs: Contexts, c: HazardPointerContext, dom: HazptrDomain)
    requires Separate(cs) && c !in cs && c.deleted !in Arrays(cs)
    requires Bound(cs, dom, dom.pools) && Bound([c], dom, dom.pools)
    ensures Separate(cs + [c]) && Ctxs(cs + [c]) == Ctxs(cs) + [CtxOf(c)] && Bound(cs + [c], dom, dom.pools)
  {
    hide CtxOf, Base, Storage;
    assert [c][0] == c;
  }

  /** A new context; the others stay as they are. */
  method Make(dom: HazptrDomain, ghost cs: Contexts, size: nat, limit: nat) returns (c: HazardPointerContext)
    requires Held(dom, cs) && limit <= MAX_ITEMS
    requires dom.pools != [] ==> CanServe(Views(dom.pools)[|dom.pools| - 1], size)
    modifies dom, dom.pools
    ensures fresh(c) && fresh(c.deleted) && Held(dom, cs) && Bound([c], dom, dom.pools) && OnlyNew(dom)
    ensures Ctxs(cs) == old(Ctxs(cs))
    ensures var (d, i) := DomReserve(old(dom.View()), size);
            dom.View() == d && CtxOf(c) == Ctx(true, |d.pools| - 1, i, Retired(seq(limit, _ => 0), 0))
  {
    hide PoolOk, FreeNull, DomReserve, CanServe, RetiredOk, PoolsAre, Chain, NoTwice, Payloads, Base, Separate, Storage;
    c := HazardPointerContext.Make(dom, size, limit);
  }

  method Open(dom: HazptrDomain, cs: Contexts, ghost given: seq<nat>, size: nat, limit: nat)
    returns (more: Contexts)
    requires Held(dom, cs) && OpOk(WorldOf(dom, cs, given), Op.Open(size, limit))
    modifies dom, dom.pools
    ensures Held(dom, more) && OnlyNew(dom)
    ensures WorldOf(dom, more, given) == OpenOf(old(WorldOf(dom, cs, given)), size, limit)
    ensures forall k | 0 <= k < |more| && more[k] != null :: more[k] in cs || (fresh(more[k]) && fresh(more[k].deleted))
  {
    hide DomReserve, CanServe, Bound, Separate, Ctxs, CtxOf, OnlyNew, PoolsAre, Chain, NoTwice, Payloads, Views;
    var c := Make(dom, cs, size, limit);
    OneMoreContext(cs, c, dom);
    more := cs + [c];
  }

  // ---- storing ----

  method Store(dom: HazptrDomain, cs: Contexts, ghost given: seq<nat>, c: nat, k: nat, v: nat)
    requires Held(dom, cs) && Inv(WorldOf(dom, cs, given)) && OpOk(WorldOf(dom, cs, given), Op.Store(c, k, v))
    modifies Storage(dom.pools)
    ensures Held(dom, cs) && OnlyNew(dom)
    ensures WorldOf(dom, cs, given) == Apply(old(WorldOf(dom, cs, given)), Op.Store(c, k, v))
  {
    hide Inv, PoolsAre, Payloads, Chain, NoTwice, Base, Separate, RetiredOk, Views, StoreSlot, CanServe;
    Undisturbed(dom, cs, given, c);
    cs[c].StoreAttached(k, v);
  }

  // ---- giving up an object ----

  method Delete(dom: HazptrDomain, cs: Contexts, ghost given: seq<nat>, c: nat, p: nat)
    requires Held(dom, cs) && Inv(WorldOf(dom, cs, given)) && OpOk(WorldOf(dom, cs, given), Op.Delete(c, p))
    modifies dom, dom.pending, cs, Arrays(cs)
    ensures Held(dom, cs) && OnlyNew(dom)
    ensures WorldOf(dom, cs, given + [p]) == Apply(old(WorldOf(dom, cs, given)), Op.Delete(c, p))
  {
    hide Inv, PoolsAre, Payloads, Chain, NoTwice, Base, DeleteItem, RetiredOk, Views, Storage, CanServe;
    Undisturbed(dom, cs, given, c);
    cs[c].DeleteItem(p);
  }

  // ---- closing ----

  lemma OneContextLess(cs: Contexts, c: nat, dom: HazptrDomain)
    requires Separate(cs) && c < |cs| && Bound(cs, dom, dom.pools)
    ensures Separate(cs[c := null]) && Bound(cs[c := null], dom, dom.pools)
    ensures |Ctxs(cs[c := null])| == |cs| && Ctxs(cs[c := null])[c] == Ctx(false, 0, 0, Retired([], 0))
    ensures forall k | 0 <= k < |cs| && k != c :: Ctxs(cs[c := null])[k] == CtxOf(cs[k])
  {
    hide Base, Storage;
  }

  /** The domain after the destructor of context `c`; the other contexts stay as they are. */
  method Destroy(dom: HazptrDomain, cs: Contexts, c: nat)
    requires Held(dom, cs) && c < |cs| && cs[c] != null && cs[c].Valid() && cs[c].domain == dom && cs[c].size > 0
    modifies dom, dom.pools, Storage(dom.pools), dom.pending, Arrays(cs)
    ensures Held(dom, cs) && OnlyNew(dom) && dom.pools == old(dom.pools)
    ensures forall k | 0 <= k < |cs| && k != c :: CtxOf(cs[k]) == old(CtxOf(cs[k]))
    ensures cs[c].pool < |old(dom.View()).pools| && cs[c].ix < BLOCKS && PoolOk(old(dom.View()).pools[cs[c].pool])
    ensures dom.View() == CloseContext(old(dom.View()), cs[c].pool, cs[c].ix, old(cs[c].Items()))
  {
    hide PoolsAre, Payloads, Chain, NoTwice, Base, CloseContext, PoolOk, FreeNull, RetiredOk;
    cs[c].Destroy();
  }

  method Close(dom: HazptrDomain, cs: Contexts, ghost given: seq<nat>, c: nat) returns (rest: Contexts)
    requires Held(dom, cs) && Inv(WorldOf(dom, cs, given)) && OpOk(WorldOf(dom, cs, given), Op.Close(c))
    modifies dom, dom.pools, Storage(dom.pools), dom.pending, Arrays(cs)
    ensures Held(dom, rest) && OnlyNew(dom) && forall k | 0 <= k < |rest| && rest[k] != null :: rest[k] in cs
    ensures WorldOf(dom, rest, given) == Apply(old(WorldOf(dom, cs, given)), Op.Close(c))
  {
    hide Inv, PoolsAre, Payloads, Chain, NoTwice, CloseContext, PoolOk, Separate, Bound, Views;
    ghost var w := WorldOf(dom, cs, given);
    Undisturbed(dom, cs, given, c);
    IsClosable(dom, cs, given, c);
    Destroy(dom, cs, c);
    OneContextLess(cs, c, dom);
    rest := cs[c := null];
    assert Ctxs(rest) == w.ctxs[c := Ctx(false, 0, 0, Retired([], 0))];
  }

  lemma IsClosable(dom: HazptrDomain, cs: Contexts, given: seq<nat>, c: nat)
    requires Held(dom, cs) && Inv(WorldOf(dom, cs, given)) && OpOk(WorldOf(dom, cs, given), Op.Close(c))
    ensures cs[c] != null && cs[c].size > 0
  {
    hide Inv, PoolsAre, Payloads, Chain, NoTwice;
  }

  // ---- whole programs ----

  /** One operation of a program, on the objects. */
  method Perform(dom: HazptrDomain, cs: Contexts, ghost given: seq<nat>, op: Op)
    returns (next: Contexts, ghost now: seq<nat>)
    requires Held(dom, cs) && Inv(WorldOf(dom, cs, given)) && OpOk(WorldOf(dom, cs, given), op)
    modifies dom, dom.pools, Storage(dom.pools), dom.pending, cs, Arrays(cs)
    ensures Held(dom, next) && OnlyNew(dom)
    ensures WorldOf(dom, next, now) == Apply(old(WorldOf(dom, cs, given)), op)
    ensures forall k | 0 <= k < |next| && next[k] != null :: next[k] in cs || (fresh(next[k]) && fresh(next[k].deleted))
  {
    hide Inv, OpOk, PoolsAre, Payloads, Chain, NoTwice, Bound, Separate, Ctxs, Views, StoreOf, DeleteOf, CloseOf, OpenOf;
    next, now := cs, given;
    match op
    case Open(size, limit) => next := Open(dom, cs, given, size, limit);
    case Store(c, k, v) => Store(dom, cs, given, c, k, v);
    case Delete(c, p) =>
      Delete(dom, cs, given, c, p);
      now := given + [p];
    case Close(c) => next := Close(dom, cs, given, c);
    case CollectNow => CollectAll(dom, cs);
  }

  method CollectAll(dom: HazptrDomain, ghost cs: Contexts)
    requires Held(dom, cs)
    modifies dom, dom.pending
    ensures Held(dom, cs) && OnlyNew(dom) && dom.View() == Collect(old(dom.View())) && Ctxs(cs) == old(Ctxs(cs))
  {
    hide PoolsAre, Payloads, Chain, NoTwice, Bound, Separate, Views, Collect;
    dom.Collect();
  }

  /** What is left of the run, from `w` on, ends as the whole run does. */
  ghost predicate Left(ops: seq<Op>, k: nat, w: World) {
    k <= |ops| && RunOk(EMPTY, ops) && Inv(w) && RunOk(w, ops[k..]) && Run(w, ops[k..]) == Run(EMPTY, ops)
  }

  lemma LeftAtFirst(ops: seq<Op>)
    requires RunOk(EMPTY, ops)
    ensures Left(ops, 0, EMPTY)
  {
    hide RunOk, Run;
    assert ops[0..] == ops;
  }

  lemma OneLeftLess(ops: seq<Op>, k: nat, w: World)
    requires Left(ops, k, w) && k < |ops|
    ensures Inv(w) && OpOk(w, ops[k]) && Left(ops, k + 1, Apply(w, ops[k]))
  {
    hide Inv, OpOk, Apply;
    StepKeepsInv(w, ops[k]);
    assert ops[k..][1..] == ops[k + 1..];
  }

  lemma NoneLeft(ops: seq<Op>, w: World)
    requires Left(ops, |ops|, w)
    ensures Inv(w) && w == Run(EMPTY, ops)
  {
    hide Inv, OpOk, Apply;
    assert ops[|ops|..] == [];
  }

  /** Objects made since. */
  twostate predicate AllNew(new dom: HazptrDomain, new cs: Contexts)
    reads dom
  {
    && fresh(dom)
    && (forall i | 0 <= i < |dom.pools| :: fresh(dom.pools[i]) && fresh(dom.pools[i].hazPtrs))
    && (forall i | 0 <= i < |dom.pending| :: fresh(dom.pending[i]))
    && (forall i | 0 <= i < |cs| && cs[i] != null :: fresh(cs[i]) && fresh(cs[i].deleted))
  }

  method NewDomain() returns (dom: HazptrDomain)
    ensures AllNew(dom, []) && Held(dom, []) && WorldOf(dom, [], []) == EMPTY
  {
    dom := new HazptrDomain();
  }

  /**
   * A program that makes a domain and then any number of contexts, uses and destroys them in any
   * order: domain and contexts end as the run of HazptrLifetime does, and no context has been
   * disturbed by another.
   */
  method PerformAll(ops: seq<Op>) returns (dom: HazptrDomain, cs: Contexts, ghost given: seq<nat>)
    requires RunOk(EMPTY, ops)
    ensures AllNew(dom, cs) && Held(dom, cs) && WorldOf(dom, cs, given) == Run(EMPTY, ops)
    ensures forall c | 0 <= c < |cs| && cs[c] != null :: cs[c].Valid() && cs[c].domain == dom
  {
    hide Left, Inv, RunOk, Run, OpOk, Apply, Held, WorldOf;
    LeftAtFirst(ops);
    dom := NewDomain();
    cs, given := [], [];
    var k := 0;
    while k < |ops|
      invariant k <= |ops| && AllNew(dom, cs) && Held(dom, cs) && Left(ops, k, WorldOf(dom, cs, given))
    {
      OneLeftLess(ops, k, WorldOf(dom, cs, given));
      cs, given := Perform(dom, cs, given, ops[k]);
      k := k + 1;
    }
    NoneLeft(ops, WorldOf(dom, cs, given));
    forall c | 0 <= c < |cs| && cs[c] != null
      ensures cs[c].Valid() && cs[c].domain == dom
    {
      Undisturbed(dom, cs, given, c);
    }
  }

  /**
   * A program's end: once every context is destroyed the domain's destructor leaves no object
   * queued, and each object given up has been reclaimed exactly once.
   */
  method PerformToTheEnd(ops: seq<Op>) returns (dom: HazptrDomain, ghost given: seq<nat>)
    requires RunOk(EMPTY, ops) && AllClosed(Run(EMPTY, ops))
    ensures dom.Valid() && dom.deleteHead == null && given == Run(EMPTY, ops).given
    ensures forall o: nat | o != 0 :: Count(dom.reclaimed, o) == if o in given then 1 else 0
    ensures forall i | 0 <= i < |dom.pools| :: dom.pools[i].bitmap == {}
  {
    hide RunOk, Run, Inv, AllClosed, PoolsAre, Chain, NoTwice;
    var cs: Contexts;
    dom, cs, given := PerformAll(ops);
    CollectAll(dom, cs);
    forall o: nat | o != 0
      ensures Count(dom.reclaimed, o) == if o in given then 1 else 0
    {
      WholeLifetime(ops, o);
    }
    WholeLifetime(ops, 1);
  }
}
