// What a collect reclaims, in any interleaving (hazard_pointer.cpp:56-82, 182-237,
// 418-470; hazard_pointer.hpp:594-681): exactly those of the objects it decides about
// that its snapshot has not read in any slot.

module ReclamationExact {
  import opened Options
  import opened Counting
  import opened Reclamation

  /** A thread between the start of its snapshot and the end of that. */
  predicate Looking(pc: Pc, own: bool) {
    pc == OpenPools(own) || (pc.CountPool? && pc.own == own) || (pc.CopySlot? && pc.own == own)
  }

  /** A thread that decides about a private list, or about its context's array. */
  predicate Deciding(pc: Pc, own: bool) {
    if own then pc.SweepOwn? else pc.Sweep?
  }

  // ---- what a step leaves of other threads ----

  lemma OthersKeep(s: State, e: Event, t: nat)
    requires EventOk(s, e) && t < |s.threads| && (e.By? ==> e.t != t)
    ensures |Apply(s, e).threads| == |s.threads| && Apply(s, e).threads[t] == s.threads[t]
  {
  }

  lemma OwnStep(s: State, e: Event)
    requires EventOk(s, e) && e.By? && !s.threads[e.t].pc.Idle?
    ensures var (m, th) := Act(s.mem, s.threads[e.t]);
            Apply(s, e).mem == m && |Apply(s, e).threads| == |s.threads| && Apply(s, e).threads[e.t] == th
  {
  }

  lemma ReclaimedGrows(s: State, e: Event, o: nat)
    requires EventOk(s, e) && o in s.mem.reclaimed
    ensures o in Apply(s, e).mem.reclaimed
  {
  }

  // ---- what a snapshot reads ----

  /** The next slot to be copied holds `o`, plain or marked. */
  predicate ReadsNow(m: Memory, pc: Pc, o: nat) {
    && pc.CopySlot? && 0 < pc.i <= |m.pools| && pc.j < |m.pools[pc.i - 1]|
    && m.pools[pc.i - 1][pc.j] != 0 && Masked(m.pools[pc.i - 1][pc.j]) == o
  }

  /** Step `k` is thread `t`'s, and it copies `o`. */
  ghost predicate Reads(b: seq<State>, es: seq<Event>, t: nat, k: nat, o: nat)
    requires k < |es| && k < |b|
  {
    es[k].By? && es[k].t == t < |b[k].threads| && ReadsNow(b[k].mem, b[k].threads[t].pc, o)
  }

  ghost predicate HasRead(b: seq<State>, es: seq<Event>, t: nat, p: nat, q: nat, o: nat) {
    q <= |es| && q <= |b| && exists k: nat :: p <= k < q && Reads(b, es, t, k, o)
  }

  lemma CoveredLast(buf: seq<nat>, v: nat, o: nat)
    ensures Covered(buf + [v], o) <==> Covered(buf, o) || Masked(v) == o
  {
    if Covered(buf, o) {
      var k :| 0 <= k < |buf| && Masked(buf[k]) == o;
      assert (buf + [v])[k] == buf[k];
    }
    assert (buf + [v])[|buf|] == v;
  }

  /** One step of a snapshot: the buffer covers what it did, and what the step reads. */
  lemma LookStep(m: Memory, th: Thread, own: bool, o: nat)
    requires ThreadOk(m, th) && Looking(th.pc, own) && (th.pc.CountPool? ==> th.buf == [])
    ensures var th' := Act(m, th).1;
            && (th'.pc.CountPool? ==> th'.buf == [])
            && (Looking(th'.pc, own) || th'.pc == if own then SweepOwn(0) else Sweep(0))
            && th'.local == th.local && th'.deleted == th.deleted && Act(m, th).0 == m && !th'.pc.OpenPools?
            && (if th.pc.OpenPools? then th'.buf == []
                else (Covered(th'.buf, o) <==> (Covered(th.buf, o) || ReadsNow(m, th.pc, o))))
  {
    if th.pc.CopySlot? && th.pc.i > 0 && th.pc.j < |m.pools[th.pc.i - 1]| {
      CoveredLast(th.buf, m.pools[th.pc.i - 1][th.pc.j], o);
    }
  }

  /** Thread `t` takes a snapshot from state `p` on, still or just ended in state `q`. */
  ghost predicate Snapshot(b: seq<State>, es: seq<Event>, t: nat, own: bool, p: nat, q: nat) {
    && Run(b, es) && Start(b[0]) && p <= q < |b|
    && (forall k | p <= k <= q :: t < |b[k].threads|)
    && b[p].threads[t].pc == OpenPools(own) && (forall k | p <= k < q :: Looking(b[k].threads[t].pc, own))
    && (Looking(b[q].threads[t].pc, own) || b[q].threads[t].pc == if own then SweepOwn(0) else Sweep(0))
  }

  /** The buffer covers exactly what the thread has read; its list and its array are as they were. */
  lemma {:induction false} SnapshotIs(b: seq<State>, es: seq<Event>, t: nat, own: bool, p: nat, q: nat, o: nat)
    requires Snapshot(b, es, t, own, p, q)
    ensures b[q].threads[t].local == b[p].threads[t].local && b[q].threads[t].deleted == b[p].threads[t].deleted
    ensures b[q].threads[t].pc.CountPool? ==> b[q].threads[t].buf == []
    ensures HasRead(b, es, t, p, q, o) <==> !b[q].threads[t].pc.OpenPools? && Covered(b[q].threads[t].buf, o)
    decreases q
  {
    hide Start, EventOk, Apply, Act;
    if p < q {
      var k := q - 1;
      SnapshotIs(b, es, t, own, p, k, o);
      if es[k].By? && es[k].t == t {
        MeansOk(b[k], es[k]);
        LookStep(b[k].mem, b[k].threads[t], own, o);
        OwnStep(b[k], es[k]);
        ReadsOne(b, es, t, p, k, o);
      } else {
        OthersKeep(b[k], es[k], t);
        ReadsOne(b, es, t, p, k, o);
      }
    }
  }

  lemma MeansOk(s: State, e: Event)
    requires EventOk(s, e) && e.By?
    ensures e.t < |s.threads| && ThreadOk(s.mem, s.threads[e.t])
  {
  }

  lemma ReadsOne(b: seq<State>, es: seq<Event>, t: nat, p: nat, k: nat, o: nat)
    requires p <= k < |es| && k + 1 < |b|
    ensures HasRead(b, es, t, p, k + 1, o) <==> HasRead(b, es, t, p, k, o) || Reads(b, es, t, k, o)
  {
    hide Reads;
  }

  // ---- what is decided ----

  /** Thread `t` decides from state `q` on, still in state `n` or until then. */
  ghost predicate SweepRun(b: seq<State>, es: seq<Event>, t: nat, own: bool, q: nat, n: nat) {
    && Run(b, es) && Start(b[0]) && q <= n < |b|
    && (forall k | q <= k <= n :: t < |b[k].threads|)
    && b[q].threads[t].pc == (if own then SweepOwn(0) else Sweep(0))
    && forall k | q <= k < n :: Deciding(b[k].threads[t].pc, own)
  }

  /** The object is on the thread's private list, or in its array. */
  ghost predicate Given(s: State, t: nat, own: bool, o: nat) {
    t < |s.threads| && ThreadOk(s.mem, s.threads[t]) && Has(s.mem, s.threads[t], own, o)
  }

  /** What still has a thread's name on it has not been reclaimed. */
  lemma HeldNotReclaimed(s: State, t: nat, o: nat)
    requires Inv(s) && t < |s.threads| && o != 0 && Held(s.mem, s.threads[t], o) > 0
    ensures o !in s.mem.reclaimed
  {
    hide Held, Partition, Chains, Fits;
    HeldByOne(s.mem, s.threads, t, o);
    DistinctCount(s.mem.retired, o);
    CountIn(s.mem.reclaimed, o);
  }

  /** In the middle of a list: covered objects are still on it, others reclaimed or still to be seen. */
  ghost predicate ListFate(m: Memory, th: Thread, buf: seq<nat>, o: nat) {
    && ThreadOk(m, th) && th.pc.Sweep? && th.buf == buf
    && if Covered(buf, o) then Has(m, th, false, o)
       else o in m.reclaimed || exists x :: th.pc.k <= x < |th.local| && m.nodes[th.local[x]].payload == o
  }

  lemma ListStep(m: Memory, th: Thread, buf: seq<nat>, o: nat)
    requires MemoryOk(m) && ListFate(m, th, buf, o) && o != 0
    ensures var (m', th') := Act(m, th);
            if th'.pc.Sweep? then ListFate(m', th', buf, o)
            else if Covered(buf, o) then Held(m', th', o) > 0 else o in m'.reclaimed
  {
    SweepOk(m, th, th.pc.k);
    var k := th.pc.k;
    var (m', th') := SweepOf(m, th, k);
    if k == |th.local| {
      if Covered(buf, o) {
        DecidingHolds(m, th, o);
        PushedPays(m, th, false, o);
      }
    } else if x :| 0 <= x < |th.local| && (Covered(buf, o) || k <= x) && m.nodes[th.local[x]].payload == o {
      if th'.local != th.local && x != k {
        assert th'.local[if x < k then x else x - 1] == th.local[x];
      }
    }
  }

  lemma ListStays(m: Memory, m': Memory, th: Thread, buf: seq<nat>, o: nat)
    requires ListFate(m, th, buf, o) && Evolves(m, m') && (o in m.reclaimed ==> o in m'.reclaimed)
    ensures ListFate(m', th, buf, o)
  {
    StaysOk(m, m', th);
    if Covered(buf, o) {
      var x :| 0 <= x < |th.local| && m.nodes[th.local[x]].payload == o;
      assert m'.nodes[th.local[x]].payload == o;
    } else if o !in m.reclaimed {
      var x :| th.pc.k <= x < |th.local| && m.nodes[th.local[x]].payload == o;
      assert m'.nodes[th.local[x]].payload == o;
    }
  }

  /** Of the objects on a collector's list exactly those its snapshot does not cover are reclaimed. */
  lemma {:induction false} ListDecided(b: seq<State>, es: seq<Event>, t: nat, q: nat, n: nat, o: nat)
    requires SweepRun(b, es, t, false, q, n) && o != 0
    requires Given(b[q], t, false, o)
    ensures var buf := b[q].threads[t].buf;
            if b[n].threads[t].pc.Sweep? then ListFate(b[n].mem, b[n].threads[t], buf, o)
            else o in b[n].mem.reclaimed <==> !Covered(buf, o)
    decreases n
  {
    hide Start, EventOk, Apply, Act, Inv, MemoryOk, ThreadOk, ListFate, Held, Covered;
    var buf := b[q].threads[t].buf;
    if q == n {
      FateAtFirst(b[q].mem, b[q].threads[t], o);
    } else {
      var k := n - 1;
      ListDecided(b, es, t, q, k, o);
      RunInv(b, es, k);
      RunInv(b, es, n);
      InvOk(b[k]);
      if es[k].By? && es[k].t == t {
        OwnStep(b[k], es[k]);
        ListStep(b[k].mem, b[k].threads[t], buf, o);
        if !b[n].threads[t].pc.Sweep? && Covered(buf, o) {
          HeldNotReclaimed(b[n], t, o);
        }
      } else {
        OthersKeep(b[k], es[k], t);
        StepOk(b[k], es[k]);
        if o in b[k].mem.reclaimed {
          ReclaimedGrows(b[k], es[k], o);
        }
        ListStays(b[k].mem, b[n].mem, b[k].threads[t], buf, o);
      }
    }
  }

  lemma FateAtFirst(m: Memory, th: Thread, o: nat)
    requires ThreadOk(m, th) && th.pc == Sweep(0) && Has(m, th, false, o)
    ensures ListFate(m, th, th.buf, o)
  {
  }

  // ---- a context's array ----

  /** The items that the buffer covers, in order. */
  ghost function CoveredOnly(buf: seq<nat>, items: seq<nat>): seq<nat> {
    if items == [] then [] else (if Covered(buf, items[0]) then [items[0]] else []) + CoveredOnly(buf, items[1..])
  }

  /** Items before `k` have been decided: nulled, and reclaimed, unless covered. */
  ghost predicate ArrayFate(m: Memory, th: Thread, buf: seq<nat>, items: seq<nat>) {
    && th.pc.SweepOwn? && th.pc.k <= |items| == |th.deleted| && th.buf == buf
    && (forall x | 0 <= x < |items| ::
          th.deleted[x] == if x < th.pc.k && !Covered(buf, items[x]) then 0 else items[x])
    && forall x | 0 <= x < th.pc.k && !Covered(buf, items[x]) :: items[x] in m.reclaimed
  }

  lemma {:induction false} NonNullCovered(buf: seq<nat>, items: seq<nat>, left: seq<nat>)
    requires |left| == |items| && 0 !in items
    requires forall x | 0 <= x < |items| :: left[x] == if Covered(buf, items[x]) then items[x] else 0
    ensures NonNull(left) == CoveredOnly(buf, items)
  {
    hide Covered;
    if items != [] {
      assert items[0] in items && forall x | 0 <= x < |items| - 1 :: items[1..][x] == items[x + 1];
      NonNullCovered(buf, items[1..], left[1..]);
    }
  }

  /** What becomes of an array that has been decided about. */
  ghost predicate ArrayDone(m: Memory, th: Thread, buf: seq<nat>, items: seq<nat>) {
    && th.deleted == CoveredOnly(buf, items)
    && th.pc == (if forall x | 0 <= x < |items| :: Covered(buf, items[x]) then Spill else Idle)
    && forall x | 0 <= x < |items| && !Covered(buf, items[x]) :: items[x] in m.reclaimed
  }

  lemma ArrayStep(m: Memory, th: Thread, buf: seq<nat>, items: seq<nat>)
    requires ThreadOk(m, th) && ArrayFate(m, th, buf, items) && 0 !in items
    ensures var (m', th') := Act(m, th);
            if th'.pc.SweepOwn? then ArrayFate(m', th', buf, items) else ArrayDone(m', th', buf, items)
  {
    hide Covered, NonNull, CoveredOnly;
    var k := th.pc.k;
    if k == |items| {
      NonNullCovered(buf, items, th.deleted);
      if 0 !in th.deleted {
        forall x | 0 <= x < |items|
          ensures Covered(buf, items[x])
        {
          assert th.deleted[x] in th.deleted;
        }
        assert th.deleted == items;
        AllCovered(buf, items);
      } else {
        var x :| 0 <= x < |th.deleted| && th.deleted[x] == 0;
        assert items[x] in items;
      }
    } else {
      assert items[k] in items;
    }
  }

  lemma {:induction false} AllCovered(buf: seq<nat>, items: seq<nat>)
    requires forall x | 0 <= x < |items| :: Covered(buf, items[x])
    ensures CoveredOnly(buf, items) == items
  {
    hide Covered;
    if items != [] {
      AllCovered(buf, items[1..]);
    }
  }

  /**
   * Of the items of a context's array exactly those the snapshot does not cover are reclaimed; the
   * others close up in order, or, if all are covered, go to the domain.
   */
  lemma {:induction false} ArrayDecided(b: seq<State>, es: seq<Event>, t: nat, q: nat, n: nat)
    requires SweepRun(b, es, t, true, q, n) && 0 !in b[q].threads[t].deleted
    ensures var buf, items, th := b[q].threads[t].buf, b[q].threads[t].deleted, b[n].threads[t];
            if th.pc.SweepOwn? then ArrayFate(b[n].mem, th, buf, items)
            else ArrayDone(b[n].mem, th, buf, items)
    decreases n
  {
    hide Start, EventOk, Apply, Act, Inv, MemoryOk, ThreadOk, Covered, CoveredOnly;
    var buf, items := b[q].threads[t].buf, b[q].threads[t].deleted;
    if q < n {
      var k := n - 1;
      ArrayDecided(b, es, t, q, k);
      if es[k].By? && es[k].t == t {
        MeansOk(b[k], es[k]);
        OwnStep(b[k], es[k]);
        ArrayStep(b[k].mem, b[k].threads[t], buf, items);
      } else {
        OthersKeep(b[k], es[k], t);
        forall x | 0 <= x < |items| && items[x] in b[k].mem.reclaimed
          ensures items[x] in b[n].mem.reclaimed
        {
          ReclaimedGrows(b[k], es[k], items[x]);
        }
      }
    }
  }

  // ---- room in the array ----

  /** The array never overflows, is full when its context reclaims, and has room when it is idle. */
  ghost predicate Room(th: Thread) {
    && |th.deleted| <= th.limit && (!th.pc.SweepOwn? ==> 0 !in th.deleted)
    && match th.pc
       case OpenPools(own) => own ==> |th.deleted| == th.limit > 0
       case CountPool(own, _) => own ==> |th.deleted| == th.limit > 0
       case CopySlot(own, _, _) => own ==> |th.deleted| == th.limit > 0
       case SweepOwn(_) => |th.deleted| == th.limit > 0
       case PushRead(_, spill) => spill ==> |th.deleted| < th.limit
       case PushCas(_, spill) => spill ==> |th.deleted| < th.limit
       case _ => true
  }

  /** Threads that are not at work on their array have room in it. */
  ghost predicate HasRoom(th: Thread) {
    Room(th) && (!th.pc.SweepOwn? && !th.pc.Spill? && !Looking(th.pc, true) ==> th.limit == 0 || |th.deleted| < th.limit)
  }

  lemma NonNullShorter(s: seq<nat>)
    ensures |NonNull(s)| <= |s| && 0 !in NonNull(s) && (0 in s ==> |NonNull(s)| < |s|)
  {
  }

  lemma RoomStep(m: Memory, th: Thread, call: Call)
    requires ThreadOk(m, th) && HasRoom(th) && (th.pc.Idle? ==> CallOk(m, call))
    ensures var (m', th') := if th.pc.Idle? then Begin(m, th, call) else Act(m, th);
            HasRoom(th') && th'.limit == th.limit
  {
    hide Covered;
    NonNullShorter(th.deleted);
  }

  /** In every state of every run each context's array has room for the next object. */
  lemma {:induction false} AlwaysRoom(b: seq<State>, es: seq<Event>, k: nat, t: nat)
    requires Run(b, es) && Start(b[0]) && k < |b| && t < |b[k].threads|
    ensures HasRoom(b[k].threads[t])
  {
    hide HasRoom, EventOk, Apply, ThreadOk, CallOk;
    if k == 0 {
      StartRoom(b[0], t);
    } else {
      SameThreads(b[k - 1], es[k - 1]);
      AlwaysRoom(b, es, k - 1, t);
      StepRoom(b[k - 1], es[k - 1], t);
    }
  }

  lemma StartRoom(s: State, t: nat)
    requires Start(s) && t < |s.threads|
    ensures HasRoom(s.threads[t])
  {
  }

  lemma SameThreads(s: State, e: Event)
    requires EventOk(s, e)
    ensures |Apply(s, e).threads| == |s.threads|
  {
  }

  lemma StepRoom(s: State, e: Event, t: nat)
    requires EventOk(s, e) && t < |s.threads| && HasRoom(s.threads[t])
    ensures t < |Apply(s, e).threads| && HasRoom(Apply(s, e).threads[t])
  {
    hide HasRoom, Begin, Act, ThreadOk;
    if e.By? && e.t == t {
      RoomStep(s.mem, s.threads[t], e.call);
    }
  }

  /** A collect of an empty list is over at once: it takes no snapshot. */
  lemma CollectOfNothing(b: seq<State>, es: seq<Event>, k: nat, t: nat)
    requires Run(b, es) && Start(b[0]) && k < |es| && es[k] == By(t, Collect)
    requires t < |b[k].threads| && b[k].threads[t].pc.Idle? && b[k].mem.shared == []
    ensures b[k + 1] == b[k]
  {
    hide Partition, Ledger, Fits, Distinct, AllOk;
    RunInv(b, es, k);
    assert b[k].threads[t := b[k].threads[t]] == b[k].threads;
  }

  // ---- whole collects ----

  /** Thread `t` takes a snapshot from state `p` on and decides; in state `n` it has done so. */
  ghost predicate Collected(b: seq<State>, es: seq<Event>, t: nat, own: bool, p: nat, n: nat) {
    && Run(b, es) && Start(b[0]) && p < n < |b|
    && (forall k | p <= k <= n :: t < |b[k].threads|)
    && b[p].threads[t].pc == OpenPools(own)
    && (forall k | p <= k < n :: Looking(b[k].threads[t].pc, own) || Deciding(b[k].threads[t].pc, own))
    && !Looking(b[n].threads[t].pc, own) && !Deciding(b[n].threads[t].pc, own)
  }

  /** A snapshot ends, and then the thread decides to the end. */
  lemma {:induction false} SnapshotEnds(b: seq<State>, es: seq<Event>, t: nat, own: bool, p: nat, n: nat) returns (q: nat)
    requires Run(b, es) && Start(b[0]) && p <= n < |b| && (forall k | p <= k <= n :: t < |b[k].threads|)
    requires b[p].threads[t].pc == OpenPools(own)
    requires forall k | p <= k < n :: Looking(b[k].threads[t].pc, own) || Deciding(b[k].threads[t].pc, own)
    ensures p <= q <= n && Snapshot(b, es, t, own, p, q)
    ensures Looking(b[n].threads[t].pc, own) ==> q == n
    ensures !Looking(b[n].threads[t].pc, own) ==> SweepRun(b, es, t, own, q, n)
    decreases n
  {
    hide Start, EventOk, Apply, Act, ThreadOk, HasRead, Covered;
    if p == n {
      q := n;
    } else {
      var k := n - 1;
      q := SnapshotEnds(b, es, t, own, p, k);
      if Looking(b[k].threads[t].pc, own) {
        SnapshotIs(b, es, t, own, p, k, 0);
      }
      assert EventOk(b[k], es[k]) && b[k + 1] == Apply(b[k], es[k]);
      NextPhase(b[k], es[k], t, own);
      if Looking(b[k].threads[t].pc, own) {
        q := n;
      }
    }
  }

  lemma NextPhase(s: State, e: Event, t: nat, own: bool)
    requires EventOk(s, e) && t < |s.threads| && t < |Apply(s, e).threads|
    requires s.threads[t].pc.CountPool? ==> s.threads[t].buf == []
    ensures var pc, pc' := s.threads[t].pc, Apply(s, e).threads[t].pc;
            && (Looking(pc, own) ==> Looking(pc', own) || pc' == if own then SweepOwn(0) else Sweep(0))
            && (Deciding(pc, own) ==> !Looking(pc', own))
  {
    hide Apply, Act, Covered;
    if e.By? && e.t == t && !s.threads[t].pc.Idle? {
      OwnStep(s, e);
      if Looking(s.threads[t].pc, own) {
        LookStep(s.mem, s.threads[t], own, 0);
      } else if Deciding(s.threads[t].pc, own) {
        DecideStep(s.mem, s.threads[t], own);
      }
    } else if !(e.By? && e.t == t) {
      OthersKeep(s, e, t);
    }
  }

  lemma DecideStep(m: Memory, th: Thread, own: bool)
    requires ThreadOk(m, th) && Deciding(th.pc, own)
    ensures !Looking(Act(m, th).1.pc, own)
  {
  }

  /** No slot is copied while the thread decides. */
  lemma ReadsBefore(b: seq<State>, es: seq<Event>, t: nat, own: bool, p: nat, q: nat, n: nat, o: nat)
    requires p <= q <= n <= |es| && n <= |b| && forall k | q <= k < n :: t < |b[k].threads| && Deciding(b[k].threads[t].pc, own)
    ensures HasRead(b, es, t, p, n, o) <==> HasRead(b, es, t, p, q, o)
  {
    hide ReadsNow;
    if k: nat :| p <= k < n && Reads(b, es, t, k, o) {
      assert ReadsNow(b[k].mem, b[k].threads[t].pc, o);
      OnlyCopiers(b[k].mem, b[k].threads[t].pc, o);
    }
  }

  lemma OnlyCopiers(m: Memory, pc: Pc, o: nat)
    requires ReadsNow(m, pc, o)
    ensures pc.CopySlot?
  {
  }

  /**
   * What a collect reclaims: an object on its private list has been reclaimed when the collect has
   * decided if and only if its snapshot has not read the object in any slot.
   */
  lemma CollectReclaims(b: seq<State>, es: seq<Event>, t: nat, p: nat, n: nat, o: nat)
    requires Collected(b, es, t, false, p, n) && Given(b[p], t, false, o) && o != 0
    ensures o in b[n].mem.reclaimed <==> !HasRead(b, es, t, p, n, o)
  {
    hide Run, Start, Reads, HasRead, Inv, ThreadOk, Covered;
    var q := SnapshotEnds(b, es, t, false, p, n);
    SnapshotIs(b, es, t, false, p, q, o);
    StillGiven(b, es, t, false, p, q, o);
    ListDecided(b, es, t, q, n, o);
    RunIs(b, es);
    ReadsBefore(b, es, t, false, p, q, n, o);
  }

  lemma RunIs(b: seq<State>, es: seq<Event>)
    requires Run(b, es)
    ensures |b| == |es| + 1
  {
  }

  lemma StillGiven(b: seq<State>, es: seq<Event>, t: nat, own: bool, p: nat, q: nat, o: nat)
    requires Snapshot(b, es, t, own, p, q) && Given(b[p], t, own, o)
    ensures Given(b[q], t, own, o)
  {
    hide Start, EventOk, Apply, Inv;
    SnapshotIs(b, es, t, own, p, q, o);
    RunInv(b, es, q);
    InvOk(b[q]);
    PayloadsStay(b, es, p, q);
    hide Snapshot;
  }

  lemma {:induction false} PayloadsStay(b: seq<State>, es: seq<Event>, p: nat, q: nat)
    requires Run(b, es) && Start(b[0]) && p <= q < |b|
    ensures |b[p].mem.nodes| <= |b[q].mem.nodes|
    ensures forall d | 0 <= d < |b[p].mem.nodes| :: b[q].mem.nodes[d].payload == b[p].mem.nodes[d].payload
    decreases q
  {
    hide Start, EventOk, Apply, Inv, AllOk;
    if p < q {
      PayloadsStay(b, es, p, q - 1);
      RunInv(b, es, q - 1);
      InvOk(b[q - 1]);
      StepOk(b[q - 1], es[q - 1]);
    }
  }

  /**
   * What a context reclaims when its array is full: of each item the same is true; items that have
   * been read close up in order, or, if all have been, the whole array is to go to the domain.
   */
  lemma ArrayReclaims(b: seq<State>, es: seq<Event>, t: nat, p: nat, n: nat, o: nat)
    requires Collected(b, es, t, true, p, n) && Given(b[p], t, true, o) && o != 0
    ensures o in b[n].mem.reclaimed <==> !HasRead(b, es, t, p, n, o)
    ensures o in b[n].threads[t].deleted <==> HasRead(b, es, t, p, n, o)
    ensures b[n].threads[t].pc.Idle? ==> |b[n].threads[t].deleted| < |b[p].threads[t].deleted|
    ensures !b[n].threads[t].pc.Idle? ==> b[n].threads[t].pc.Spill? && b[n].threads[t].deleted == b[p].threads[t].deleted
  {
    hide Run, Start, Reads, HasRead, Inv, ThreadOk, Covered, CoveredOnly;
    var q := SnapshotEnds(b, es, t, true, p, n);
    SnapshotIs(b, es, t, true, p, q, o);
    AlwaysRoom(b, es, p, t);
    var buf, items := b[q].threads[t].buf, b[p].threads[t].deleted;
    ArrayDecided(b, es, t, q, n);
    RunIs(b, es);
    ReadsBefore(b, es, t, true, p, q, n, o);
    CoveredOnlyIn(buf, items, o);
    if (forall x | 0 <= x < |items| :: Covered(buf, items[x])) {
      AllCovered(buf, items);
    } else {
      SomeLess(buf, items);
    }
    if Covered(buf, o) {
      RunInv(b, es, n);
      CountIn(b[n].threads[t].deleted, o);
      HeldNotReclaimed(b[n], t, o);
    }
  }

  lemma {:induction false} CoveredOnlyIn(buf: seq<nat>, items: seq<nat>, o: nat)
    ensures o in CoveredOnly(buf, items) <==> o in items && Covered(buf, o)
    ensures |CoveredOnly(buf, items)| <= |items|
  {
    hide Covered;
    if items != [] {
      CoveredOnlyIn(buf, items[1..], o);
    }
  }

  lemma {:induction false} SomeLess(buf: seq<nat>, items: seq<nat>)
    requires exists x :: 0 <= x < |items| && !Covered(buf, items[x])
    ensures |CoveredOnly(buf, items)| < |items|
  {
    hide Covered;
    if Covered(buf, items[0]) {
      var x :| 0 <= x < |items| && !Covered(buf, items[x]);
      assert items[x] == items[1..][x - 1];
      SomeLess(buf, items[1..]);
    } else {
      CoveredOnlyIn(buf, items[1..], 0);
    }
  }

  /**
   * An object that a collect or a context decides about, and that no slot holds while the snapshot
   * copies, has been reclaimed when that is over.
   */
  lemma UnheldIsReclaimed(b: seq<State>, es: seq<Event>, t: nat, own: bool, p: nat, n: nat, o: nat)
    requires Collected(b, es, t, own, p, n) && Given(b[p], t, own, o) && o != 0
    requires forall k, i, j | p <= k < n && b[k].threads[t].pc.CopySlot? :: !Holds(b[k], i, j, o)
    ensures o in b[n].mem.reclaimed
  {
    if own {
      ArrayReclaims(b, es, t, p, n, o);
    } else {
      CollectReclaims(b, es, t, p, n, o);
    }
    hide Run, Start, Reads;
    if HasRead(b, es, t, p, n, o) {
      var k: nat :| p <= k < n && Reads(b, es, t, k, o);
      ReadMeans(b, es, t, k, o);
      ReadHolds(b[k], t, o);
    }
  }

  lemma ReadMeans(b: seq<State>, es: seq<Event>, t: nat, k: nat, o: nat)
    requires k < |es| && k < |b| && Reads(b, es, t, k, o)
    ensures t < |b[k].threads| && ReadsNow(b[k].mem, b[k].threads[t].pc, o)
  {
  }

  lemma ReadHolds(s: State, t: nat, o: nat)
    requires t < |s.threads| && ReadsNow(s.mem, s.threads[t].pc, o)
    ensures s.threads[t].pc.CopySlot? && s.threads[t].pc.i > 0
    ensures Holds(s, s.threads[t].pc.i - 1, s.threads[t].pc.j, o)
  {
  }

  // ---- leaving, and adding pools ----

  /** Thread `t`, idle in state `lo`, starts `call` there; the call ends in state `hi`. */
  ghost predicate CallIs(b: seq<State>, es: seq<Event>, t: nat, call: Call, lo: nat, hi: nat) {
    && Run(b, es) && Start(b[0]) && lo < hi < |b| && es[lo] == By(t, call)
    && (forall k | lo <= k <= hi :: t < |b[k].threads|)
    && (forall k | lo < k < hi :: !b[k].threads[t].pc.Idle?)
    && b[lo].threads[t].pc.Idle? && b[hi].threads[t].pc.Idle?
  }

  /** A context on its way out: it pushes its items, one after the other. */
  predicate Leaving(th: Thread) {
    && (th.pc.Spill? || (th.pc.PushRead? && th.pc.spill) || (th.pc.PushCas? && th.pc.spill))
    && th.local == []
  }

  lemma LeaveStep(m: Memory, th: Thread)
    requires ThreadOk(m, th) && Leaving(th)
    ensures var th' := Act(m, th).1; Leaving(th') || (th'.pc.Idle? && th'.deleted == [])
  {
  }

  lemma {:induction false} LeavingSo(b: seq<State>, es: seq<Event>, t: nat, lo: nat, k: nat)
    requires Run(b, es) && lo < k < |b| && es[lo] == By(t, Leave)
    requires (forall j | lo <= j <= k :: t < |b[j].threads|) && ThreadOk(b[lo].mem, b[lo].threads[t])
    requires b[lo].threads[t].pc.Idle? && forall j | lo < j < k :: !b[j].threads[t].pc.Idle?
    ensures Leaving(b[k].threads[t]) || (b[k].threads[t].pc.Idle? && b[k].threads[t].deleted == [])
    decreases k
  {
    hide EventOk, Act, ThreadOk;
    if k == lo + 1 {
      LeaveBegins(b[lo], es[lo]);
    } else {
      LeavingSo(b, es, t, lo, k - 1);
      if es[k - 1].By? && es[k - 1].t == t {
        MeansOk(b[k - 1], es[k - 1]);
        OwnStep(b[k - 1], es[k - 1]);
        LeaveStep(b[k - 1].mem, b[k - 1].threads[t]);
      } else {
        OthersKeep(b[k - 1], es[k - 1], t);
      }
    }
  }

  lemma LeaveBegins(s: State, e: Event)
    requires EventOk(s, e) && e.By? && e.call.Leave? && s.threads[e.t].pc.Idle? && ThreadOk(s.mem, s.threads[e.t])
    ensures e.t < |Apply(s, e).threads| && Leaving(Apply(s, e).threads[e.t])
  {
  }

  /** A context that leaves leaves nothing in its array, nor with its thread. */
  lemma LeaveEmpties(b: seq<State>, es: seq<Event>, t: nat, lo: nat, hi: nat)
    requires CallIs(b, es, t, Leave, lo, hi)
    ensures b[hi].threads[t].deleted == [] && b[hi].threads[t].local == []
  {
    hide EventOk, Act, Inv, Start;
    RunInv(b, es, lo);
    InvOk(b[lo]);
    LeavingSo(b, es, t, lo, hi);
    RunInv(b, es, hi);
    InvOk(b[hi]);
    assert ThreadOk(b[hi].mem, b[hi].threads[t]);
  }

  /** Adding a pool, up to its compare-and-swap. */
  lemma {:induction false} AddingSo(b: seq<State>, es: seq<Event>, t: nat, blk: nat, lo: nat, k: nat)
    requires Run(b, es) && lo < k < |b| && es[lo] == By(t, NewPool(blk))
    requires forall j | lo <= j <= k :: t < |b[j].threads|
    requires b[lo].threads[t].pc.Idle? && forall j | lo < j <= k :: !b[j].threads[t].pc.Idle?
    ensures var pc := b[k].threads[t].pc; pc == PoolRead(blk) || (pc.PoolCas? && pc.blk == blk)
    decreases k
  {
    if k > lo + 1 {
      AddingSo(b, es, t, blk, lo, k - 1);
      if es[k - 1].By? && es[k - 1].t == t {
        OwnStep(b[k - 1], es[k - 1]);
      } else {
        OthersKeep(b[k - 1], es[k - 1], t);
      }
    }
  }

  /** A call that adds a pool ends with the step that does so: 32 blocks, all null, newer than all others. */
  lemma PoolAdded(b: seq<State>, es: seq<Event>, t: nat, blk: nat, lo: nat, hi: nat)
    requires CallIs(b, es, t, NewPool(blk), lo, hi)
    ensures b[hi].mem.pools == b[hi - 1].mem.pools + [seq(32 * blk, _ => 0)]
  {
    if hi > lo + 1 {
      AddingSo(b, es, t, blk, lo, hi - 1);
      if es[hi - 1].By? && es[hi - 1].t == t {
        OwnStep(b[hi - 1], es[hi - 1]);
      }
    }
  }
}
