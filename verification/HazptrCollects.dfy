// When the domain collects, and how often (hazard_pointer.cpp:364-411,
// hazard_pointer.hpp:508-523, 614-634): an object given up is only pushed as long as
// the counter stays within the number of hazard pointers, and each collect sets the
// counter back to the number of objects that are still held.

module HazptrCollects {
  import opened Powers
  import opened Counting
  import opened HazptrValues

  /** Up to the number of hazard pointers, giving up an object pushes it and does nothing else. */
  lemma EnqueueBelow(d: Dom, p: nat)
    requires d.count < HpCount(d.pools)
    ensures Enqueue(d, p) == Dom(d.pools, [p] + d.pending, d.count + 1, d.reclaimed)
  {
  }

  /** Beyond, every object that no slot holds is reclaimed, and the counter counts the others. */
  lemma EnqueueCollects(d: Dom, p: nat, o: nat)
    requires d.count >= HpCount(d.pools)
    ensures var e, all := Enqueue(d, p), [p] + d.pending;
            && e.pools == d.pools && e.count == |e.pending| <= |all|
            && Count(e.pending, o) == (if Protected(d.pools, o) then Count(all, o) else 0)
            && Count(e.reclaimed, o) == Count(d.reclaimed, o) + if Protected(d.pools, o) then 0 else Count(all, o)
  {
    hide Count, Protected, Collect;
    CollectIs(Push(d, p).(count := 0), o);
  }

  lemma {:induction false} PushAllOrder(d: Dom, items: seq<nat>)
    ensures var e, k := PushAll(d, items), |items|;
            && e.pools == d.pools && e.reclaimed == d.reclaimed && e.count == d.count + k
            && |e.pending| == k + |d.pending| && e.pending[k..] == d.pending
            && forall i | 0 <= i < k :: e.pending[i] == items[k - 1 - i]
    decreases |items|
  {
    if items != [] {
      PushAllOrder(Push(d, items[0]), items[1..]);
      var e, k := PushAll(d, items), |items|;
      assert e.pending[k - 1..][0] == items[0] && e.pending[k..] == e.pending[k - 1..][1..];
    }
  }

  /** The same for an array: its items are pushed, the last one to the front. */
  lemma EnqueueAllBelow(d: Dom, items: seq<nat>)
    requires d.count + |NonNull(items)| <= HpCount(d.pools)
    ensures var e, ps := EnqueueAll(d, items), NonNull(items); var k := |ps|;
            && e.pools == d.pools && e.reclaimed == d.reclaimed && e.count == d.count + k
            && |e.pending| == k + |d.pending| && e.pending[k..] == d.pending
            && forall i | 0 <= i < k :: e.pending[i] == ps[k - 1 - i]
  {
    PushAllOrder(d, NonNull(items));
  }

  lemma EnqueueAllCollects(d: Dom, items: seq<nat>, o: nat)
    requires d.count + |NonNull(items)| > HpCount(d.pools) && o != 0
    ensures var e, all := EnqueueAll(d, items), items + d.pending;
            && e.pools == d.pools && e.count == |e.pending|
            && Count(e.pending, o) == (if Protected(d.pools, o) then Count(all, o) else 0)
            && Count(e.reclaimed, o) == Count(d.reclaimed, o) + if Protected(d.pools, o) then 0 else Count(all, o)
  {
    hide Count, Protected, Collect, NonNull, HpCount;
    var ps := NonNull(items);
    PushAllOrder(d, ps);
    PushAllIs(d, ps, o);
    CountNonNull(items, o);
    CountAppend(items, d.pending, o);
    CollectIs(PushAll(d, ps).(count := 0), o);
  }

  // ---- how often a domain collects ----

  /** One object after the other is given up. */
  function EnqueueEach(d: Dom, ps: seq<nat>): Dom
    decreases |ps|
  {
    if ps == [] then d else EnqueueEach(Enqueue(d, ps[0]), ps[1..])
  }

  /** How many of these find the counter at the number of hazard pointers, and so collect. */
  function Collects(d: Dom, ps: seq<nat>): nat
    decreases |ps|
  {
    if ps == [] then 0
    else (if d.count >= HpCount(d.pools) then 1 else 0) + Collects(Enqueue(d, ps[0]), ps[1..])
  }

  /** How many hazard pointers hold something. */
  function InUse(pools: seq<Pool>): nat {
    |NonNull(AllSlots(pools))|
  }

  lemma {:induction false} NonNullAtMost(s: seq<nat>)
    ensures |NonNull(s)| <= |s|
  {
    if s != [] {
      NonNullAtMost(s[1..]);
    }
  }

  /** Distinct objects that slots hold are no more than the slots that hold something. */
  lemma HeldAtMost(pools: seq<Pool>, items: seq<nat>)
    requires Distinct(items) && forall k | 0 <= k < |items| :: Protected(pools, items[k])
    ensures |items| <= InUse(pools) <= HpCount(pools)
  {
    var s := AllSlots(pools);
    NonNullAtMost(s);
    var vs := ValuesAtMost(NonNull(s));
    forall k | 0 <= k < |items|
      ensures items[k] in vs
    {
      var n :| 0 <= n < |s| && s[n] != 0 && Masked(s[n]) == items[k];
      NonNullIn(s, s[n]);
      var m :| 0 <= m < |NonNull(s)| && NonNull(s)[m] == s[n];
    }
    DistinctAtMost(items, vs);
  }

  /** Each object is pending or yet to be given up at most once. */
  ghost predicate OnceEach(pending: seq<nat>, ps: seq<nat>) {
    forall o: nat :: Count(pending, o) + Count(ps, o) <= 1
  }

  lemma OneGivenUp(d: Dom, ps: seq<nat>)
    requires OnceEach(d.pending, ps) && ps != []
    ensures OnceEach(Enqueue(d, ps[0]).pending, ps[1..]) && Enqueue(d, ps[0]).pools == d.pools
  {
    hide Count, Enqueue, HpCount;
    var e := Enqueue(d, ps[0]);
    EnqueuePools(d, ps[0]);
    forall o: nat
      ensures Count(e.pending, o) + Count(ps[1..], o) <= 1
    {
      assert Count(d.pending, o) + Count(ps, o) <= 1;
      assert [ps[0]] + ps[1..] == ps;
      CountFront(ps[0], ps[1..], o);
      CountFront(ps[0], d.pending, o);
      if d.count < HpCount(d.pools) {
        EnqueueBelow(d, ps[0]);
      } else {
        EnqueueCollects(d, ps[0], o);
      }
    }
  }

  lemma EnqueuePools(d: Dom, p: nat)
    ensures Enqueue(d, p).pools == d.pools
  {
    CollectIs(Push(d, p).(count := 0), 0);
  }

  /** A collect sets the counter back to no more than the number of hazard pointers in use. */
  lemma SetBack(d: Dom, p: nat)
    requires d.count >= HpCount(d.pools) && OnceEach(d.pending, [p])
    ensures Enqueue(d, p).count <= InUse(d.pools) <= HpCount(d.pools)
  {
    hide Count, Enqueue, HpCount, InUse, Protected;
    var e := Enqueue(d, p);
    EnqueueCollects(d, p, p);
    OneGivenUp(d, [p]);
    forall o: nat
      ensures Count(e.pending, o) <= 1 && (o in e.pending ==> Protected(d.pools, o))
    {
      assert Count(e.pending, o) + Count([p][1..], o) <= 1;
      EnqueueCollects(d, p, o);
      CountIn(e.pending, o);
    }
    CountsDistinct(e.pending);
    HeldAtMost(d.pools, e.pending);
  }

  lemma FirstOnce(pending: seq<nat>, ps: seq<nat>)
    requires OnceEach(pending, ps) && ps != []
    ensures OnceEach(pending, [ps[0]])
  {
    hide Count;
    forall o: nat
      ensures Count(pending, o) + Count([ps[0]], o) <= 1
    {
      assert Count(pending, o) + Count(ps, o) <= 1;
      assert [ps[0]] + ps[1..] == ps && [ps[0]] + [] == [ps[0]];
      CountFront(ps[0], ps[1..], o);
      CountFront(ps[0], [], o);
      CountNone(o);
    }
  }

  /**
   * Collects are rare: between two of them the counter has to climb from the hazard pointers in
   * use to all of them.
   */
  lemma {:induction false} CollectsBound(d: Dom, ps: seq<nat>)
    requires OnceEach(d.pending, ps)
    ensures InUse(d.pools) <= HpCount(d.pools)
    ensures Collects(d, ps) * (HpCount(d.pools) + 1 - InUse(d.pools)) + EnqueueEach(d, ps).count <= d.count + |ps|
    decreases |ps|
  {
    hide Count, Enqueue, HpCount, InUse, OnceEach;
    var w := HpCount(d.pools) + 1 - InUse(d.pools);
    InUseAtMost(d.pools);
    if ps != [] {
      var e := Enqueue(d, ps[0]);
      OneGivenUp(d, ps);
      CollectsBound(e, ps[1..]);
      MulDistributes(1, Collects(e, ps[1..]), w);
      if d.count >= HpCount(d.pools) {
        FirstOnce(d.pending, ps);
        SetBack(d, ps[0]);
      } else {
        EnqueueBelow(d, ps[0]);
      }
    }
  }

  lemma InUseAtMost(pools: seq<Pool>)
    ensures InUse(pools) <= HpCount(pools)
  {
    NonNullAtMost(AllSlots(pools));
  }

  // ---- when a context reclaims ----

  /** With room for one more the object is only stored. */
  lemma DeleteItemStores(d: Dom, r: Retired, p: nat)
    requires RetiredOk(r) && r.index + 1 < |r.items|
    ensures DeleteItem(d, r, p) == (d, Retired(r.items[r.index := p], r.index + 1))
  {
  }

  /**
   * The object that fills the array: what no slot holds is reclaimed and the rest stays in the
   * array, or, if all is held, the whole array goes to the domain.
   */
  lemma DeleteItemReclaims(d: Dom, r: Retired, p: nat, o: nat)
    requires RetiredOk(r) && r.index + 1 == |r.items| <= MAX_ITEMS && p != 0 && o != 0
    ensures var (e, q) := DeleteItem(d, r, p); var all: seq<nat> := r.items[r.index := p];
            if exists k :: 0 <= k < |all| && !Protected(d.pools, all[k]) then
              && e.pending == d.pending && e.count == d.count
              && Count(q.items, o) == (if Protected(d.pools, o) then Count(all, o) else 0)
              && Count(e.reclaimed, o) == Count(d.reclaimed, o) + if Protected(d.pools, o) then 0 else Count(all, o)
            else e == EnqueueAll(d, all) && q == Retired(seq(|all|, _ => 0), 0)
  {
    hide Count, Protected, Gone, Swept, Compact, EnqueueAll, SweptIndex;
    var s := Retired(r.items[r.index := p], r.index + 1);
    ReclaimIs(d, s, o);
    ReclaimIndex(d.pools, s);
    SomeGone(d.pools, s.items);
  }

  lemma SomeGone(pools: seq<Pool>, items: seq<nat>)
    ensures Gone(pools, items) != [] <==> exists k :: 0 <= k < |items| && !Protected(pools, items[k])
  {
    hide Count, Protected, Gone;
    if k :| 0 <= k < |items| && !Protected(pools, items[k]) {
      KeptIs(pools, items, items[k]);
      CountIn(items, items[k]);
      CountIn(Gone(pools, items), items[k]);
    } else if Gone(pools, items) != [] {
      var o := Gone(pools, items)[0];
      KeptIs(pools, items, o);
      CountIn(items, o);
      CountIn(Gone(pools, items), o);
    }
  }
}
