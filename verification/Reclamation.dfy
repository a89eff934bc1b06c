// Reclamation as an interleaved step model (hazard_pointer.cpp:56-82, 182-237,
// 252-261, 332-345, 365-387, 418-470; hazard_pointer.hpp:594-681).
//
// One event is one atomic load, store, exchange or compare-and-swap of one
// thread, or one store to a hazard slot by whoever owns it.  Pools are listed
// oldest first, so a new pool goes to the end and "the head pool" is the last.
// Delete nodes are numbered in the order of their allocation and never reused.
//
// `shared`, `freed`, `reclaimed` and `retired` are records the program does not
// keep: the nodes reachable from the list head, the nodes given back, the
// objects handed to `reclaim_object`, and the objects given up for deletion.

module Reclamation {
  import opened Options
  import opened Counting

  datatype Node = Node(payload: nat, next: Option<nat>)

  datatype Pc =
    | Idle
    | PushRead(node: nat, spill: bool)
    | PushCas(node: nat, spill: bool)
    | OpenPools(own: bool)
    | CountPool(own: bool, i: nat)
    | CopySlot(own: bool, i: nat, j: nat)
    | Sweep(k: nat)
    | SweepOwn(k: nat)
    | Spill
    | PoolRead(blk: nat)
    | PoolCas(blk: nat, seen: nat)

  /** A thread, its context's array of retired items, and its collector's locals. */
  datatype Thread = Thread(
    pc: Pc, limit: nat, deleted: seq<nat>, local: seq<nat>, n: nat, size: nat, buf: seq<nat>)

  datatype Memory = Memory(
    pools: seq<seq<nat>>, nodes: seq<Node>, head: Option<nat>,
    shared: seq<nat>, freed: seq<nat>, reclaimed: seq<nat>, retired: seq<nat>)

  datatype State = State(mem: Memory, threads: seq<Thread>)

  /** What an idle thread may start. */
  datatype Call = Enqueue(o: nat) | DeleteItem(o: nat) | Collect | Leave | NewPool(blk: nat)

  datatype Event = By(t: nat, call: Call) | Store(i: nat, j: nat, v: nat)

  // ---- steps ----

  /** The snapshot's answer: some copied value is `o`, possibly with the mark bit. */
  predicate Covered(buf: seq<nat>, o: nat) {
    exists k | 0 <= k < |buf| :: Masked(buf[k]) == o
  }

  function First(ids: seq<nat>): Option<nat> {
    if ids == [] then None else Some(ids[0])
  }

  /** A collector between its exchange of the list head and its last push. */
  predicate Collecting(pc: Pc) {
    match pc
    case PushRead(_, spill) => !spill
    case PushCas(_, spill) => !spill
    case OpenPools(own) => !own
    case CountPool(own, _) => !own
    case CopySlot(own, _, _) => !own
    case Sweep(_) => true
    case _ => false
  }

  predicate ThreadOk(m: Memory, th: Thread) {
    && (Collecting(th.pc) || th.local == [])
    && th.n <= |m.pools| && (forall k | 0 <= k < |th.local| :: th.local[k] < |m.nodes|)
    && match th.pc
       case PushRead(d, _) => d < |m.nodes|
       case PushCas(d, _) => d < |m.nodes|
       case CountPool(_, i) => i <= th.n
       case CopySlot(_, i, j) => i <= th.n && (i > 0 ==> j <= |m.pools[i - 1]|)
       case Sweep(k) => k <= |th.local|
       case SweepOwn(k) => k <= |th.deleted|
       case _ => true
  }

  function Alloc(m: Memory, o: nat): Memory {
    m.(nodes := m.nodes + [Node(o, None)])
  }

  function Relink(m: Memory, d: nat, next: Option<nat>): Memory
    requires d < |m.nodes|
  {
    m.(nodes := m.nodes[d := m.nodes[d].(next := next)])
  }

  function Begin(m: Memory, th: Thread, call: Call): (r: (Memory, Thread)) {
    match call
    case Enqueue(o) =>
      (Alloc(m.(retired := m.retired + [o]), o), th.(pc := PushRead(|m.nodes|, false)))
    case DeleteItem(o) =>
      if th.limit == 0 then
        (Alloc(m.(retired := m.retired + [o]), o), th.(pc := PushRead(|m.nodes|, false)))
      else
        (m.(retired := m.retired + [o]),
         th.(deleted := th.deleted + [o], pc := if |th.deleted| + 1 == th.limit then OpenPools(true) else Idle))
    case Collect =>
      (m.(head := None, shared := []),
       if m.head == None then th else th.(pc := OpenPools(false), local := m.shared))
    case Leave => (m, th.(pc := Spill))
    case NewPool(blk) => (m, th.(pc := PoolRead(blk)))
  }

  /** The list head becomes `d`, unless it is no longer what `d` links to. */
  function PushOf(m: Memory, th: Thread, d: nat, spill: bool): (r: (Memory, Thread))
    requires d < |m.nodes|
  {
    if m.head == m.nodes[d].next then
      (m.(head := Some(d), shared := [d] + m.shared), Pushed(th, spill))
    else
      (Relink(m, d, m.head), th.(pc := PushRead(d, spill)))
  }

  /** On to the next survivor of a collect, or the next item of a spilled array. */
  function Pushed(th: Thread, spill: bool): Thread {
    if th.local != [] then th.(pc := PushRead(th.local[0], spill), local := th.local[1..])
    else th.(pc := if spill then Spill else Idle)
  }

  function CopyOf(m: Memory, th: Thread, own: bool, i: nat, j: nat): (r: (Memory, Thread))
    requires i <= |m.pools| && (i > 0 ==> j <= |m.pools[i - 1]|)
  {
    if i == 0 then (m, th.(pc := if own then SweepOwn(0) else Sweep(0)))
    else if j == |m.pools[i - 1]| then (m, th.(pc := CopySlot(own, i - 1, 0)))
    else
      var v := m.pools[i - 1][j];
      (m, th.(pc := CopySlot(own, i, j + 1), buf := if v == 0 then th.buf else th.buf + [v]))
  }

  /** One node of a collector's list: reclaimed and unlinked, or stepped over. */
  function SweepOf(m: Memory, th: Thread, k: nat): (r: (Memory, Thread))
    requires ThreadOk(m, th) && k <= |th.local|
  {
    if k == |th.local| then (m, Pushed(th, false))
    else
      var d := th.local[k];
      var o := m.nodes[d].payload;
      if Covered(th.buf, o) then (m, th.(pc := Sweep(k + 1)))
      else
        var m1 := m.(reclaimed := m.reclaimed + [o], freed := m.freed + [d]);
        (if k == 0 then m1 else Relink(m1, th.local[k - 1], m.nodes[d].next),
         th.(local := th.local[..k] + th.local[k + 1..]))
  }

  /** One item of a context's array: reclaimed and nulled, or stepped over. */
  function SweepOwnOf(m: Memory, th: Thread, k: nat): (r: (Memory, Thread))
    requires k <= |th.deleted|
  {
    if k == |th.deleted| then
      // A wholly protected array moves to the domain; otherwise the survivors close up.
      if 0 !in th.deleted then (m, th.(pc := Spill))
      else (m, th.(pc := Idle, deleted := NonNull(th.deleted)))
    else
      var o := th.deleted[k];
      if Covered(th.buf, o) then (m, th.(pc := SweepOwn(k + 1)))
      else (m.(reclaimed := m.reclaimed + [o]), th.(pc := SweepOwn(k + 1), deleted := th.deleted[k := 0]))
  }

  function SpillOf(m: Memory, th: Thread): (r: (Memory, Thread)) {
    if th.deleted == [] then (m, th.(pc := Idle))
    else if th.deleted[0] == 0 then (m, th.(deleted := th.deleted[1..]))
    else
      (Alloc(m, th.deleted[0]), th.(deleted := th.deleted[1..], pc := PushRead(|m.nodes|, true)))
  }

  function Act(m: Memory, th: Thread): (r: (Memory, Thread))
    requires ThreadOk(m, th)
  {
    match th.pc
    case Idle => (m, th)
    case PushRead(d, spill) => (Relink(m, d, m.head), th.(pc := PushCas(d, spill)))
    case PushCas(d, spill) => PushOf(m, th, d, spill)
    case OpenPools(own) => (m, th.(pc := CountPool(own, |m.pools|), n := |m.pools|, size := 0, buf := []))
    case CountPool(own, i) =>
      if i == 0 then (m, th.(pc := CopySlot(own, th.n, 0)))
      else (m, th.(pc := CountPool(own, i - 1), size := th.size + |m.pools[i - 1]|))
    case CopySlot(own, i, j) => CopyOf(m, th, own, i, j)
    case Sweep(k) => SweepOf(m, th, k)
    case SweepOwn(k) => SweepOwnOf(m, th, k)
    case Spill => SpillOf(m, th)
    case PoolRead(blk) => (m, th.(pc := PoolCas(blk, |m.pools|)))
    case PoolCas(blk, seen) =>
      if |m.pools| == seen then (m.(pools := m.pools + [seq(32 * blk, _ => 0)]), th.(pc := Idle))
      else (m, th.(pc := PoolRead(blk)))
  }

  /** Objects are non-null, unmarked, and given up for deletion once. */
  ghost predicate CallOk(m: Memory, call: Call) {
    (call.Enqueue? || call.DeleteItem?) ==> call.o != 0 && call.o % 2 == 0 && call.o !in m.retired
  }

  ghost predicate EventOk(s: State, e: Event) {
    match e
    case By(t, call) =>
      t < |s.threads| && ThreadOk(s.mem, s.threads[t]) && (s.threads[t].pc.Idle? ==> CallOk(s.mem, call))
    case Store(i, j, _) => i < |s.mem.pools| && j < |s.mem.pools[i]|
  }

  ghost function StepOf(s: State, t: nat, call: Call): (r: (Memory, Thread))
    requires EventOk(s, By(t, call))
  {
    if s.threads[t].pc.Idle? then Begin(s.mem, s.threads[t], call) else Act(s.mem, s.threads[t])
  }

  function Stored(pools: seq<seq<nat>>, i: nat, j: nat, v: nat): seq<seq<nat>>
    requires i < |pools| && j < |pools[i]|
  {
    var pool: seq<nat> := pools[i][j := v];
    pools[i := pool]
  }

  ghost function Apply(s: State, e: Event): State
    requires EventOk(s, e)
  {
    match e
    case By(t, call) =>
      var (m, th) := StepOf(s, t, call);
      State(m, s.threads[t := th])
    case Store(i, j, v) => s.(mem := s.mem.(pools := Stored(s.mem.pools, i, j, v)))
  }

  /** A run: `b` the states, `es` the events between them. */
  ghost predicate Run(b: seq<State>, es: seq<Event>) {
    && |b| == |es| + 1
    && forall k | 0 <= k < |es| :: EventOk(b[k], es[k]) && b[k + 1] == Apply(b[k], es[k])
  }

  // ---- what every step leaves alone ----

  ghost predicate MemoryOk(m: Memory) {
    forall k | 0 <= k < |m.shared| :: m.shared[k] < |m.nodes|
  }

  ghost predicate AllOk(s: State) {
    MemoryOk(s.mem) && forall t | 0 <= t < |s.threads| :: ThreadOk(s.mem, s.threads[t])
  }

  /** Nodes keep their payload; pools keep their place and their size. */
  ghost predicate Evolves(m: Memory, m': Memory) {
    && |m.nodes| <= |m'.nodes| && (forall d | 0 <= d < |m.nodes| :: m'.nodes[d].payload == m.nodes[d].payload)
    && |m.pools| <= |m'.pools| && (forall i | 0 <= i < |m.pools| :: |m'.pools[i]| == |m.pools[i]|)
  }

  lemma StaysOk(m: Memory, m': Memory, th: Thread)
    requires Evolves(m, m') && ThreadOk(m, th)
    ensures ThreadOk(m', th)
  {
  }

  lemma BeginOk(m: Memory, th: Thread, call: Call)
    requires MemoryOk(m) && ThreadOk(m, th) && th.pc.Idle?
    ensures var (m', th') := Begin(m, th, call); MemoryOk(m') && ThreadOk(m', th') && Evolves(m, m')
  {
  }

  lemma SweepOk(m: Memory, th: Thread, k: nat)
    requires MemoryOk(m) && ThreadOk(m, th) && th.pc == Sweep(k)
    ensures var (m', th') := SweepOf(m, th, k); MemoryOk(m') && ThreadOk(m', th') && Evolves(m, m')
  {
  }

  lemma PushOk(m: Memory, th: Thread, d: nat, spill: bool)
    requires MemoryOk(m) && ThreadOk(m, th) && th.pc == PushCas(d, spill) && d < |m.nodes|
    ensures var (m', th') := PushOf(m, th, d, spill); MemoryOk(m') && ThreadOk(m', th') && Evolves(m, m')
  {
  }

  lemma CopyOk(m: Memory, th: Thread)
    requires ThreadOk(m, th) && th.pc.CopySlot?
    ensures var (m', th') := CopyOf(m, th, th.pc.own, th.pc.i, th.pc.j); m' == m && ThreadOk(m, th')
  {
  }

  lemma SweepOwnOk(m: Memory, th: Thread, k: nat)
    requires MemoryOk(m) && ThreadOk(m, th) && th.pc == SweepOwn(k) && k <= |th.deleted|
    ensures var (m', th') := SweepOwnOf(m, th, k); MemoryOk(m') && ThreadOk(m', th') && Evolves(m, m')
  {
  }

  lemma SpillOk(m: Memory, th: Thread)
    requires MemoryOk(m) && ThreadOk(m, th) && th.pc.Spill?
    ensures var (m', th') := SpillOf(m, th); MemoryOk(m') && ThreadOk(m', th') && Evolves(m, m')
  {
  }

  lemma ActOk(m: Memory, th: Thread)
    requires MemoryOk(m) && ThreadOk(m, th)
    ensures var (m', th') := Act(m, th); MemoryOk(m') && ThreadOk(m', th') && Evolves(m, m')
  {
    hide SweepOf, PushOf, CopyOf, SweepOwnOf, SpillOf;
    match th.pc
    case PushCas(d, spill) => PushOk(m, th, d, spill);
    case CopySlot(_, _, _) => CopyOk(m, th);
    case Sweep(k) => SweepOk(m, th, k);
    case SweepOwn(k) => SweepOwnOk(m, th, k);
    case Spill => SpillOk(m, th);
    case _ =>
  }

  lemma StepOk(s: State, e: Event)
    requires AllOk(s) && EventOk(s, e)
    ensures AllOk(Apply(s, e)) && Evolves(s.mem, Apply(s, e).mem)
  {
    var s' := Apply(s, e);
    if e.By? {
      if s.threads[e.t].pc.Idle? {
        BeginOk(s.mem, s.threads[e.t], e.call);
      } else {
        ActOk(s.mem, s.threads[e.t]);
      }
    }
    hide ThreadOk, MemoryOk, Evolves, Begin, Act;
    assert Evolves(s.mem, s'.mem) by { StoreEvolves(s, e); }
    forall t | 0 <= t < |s.threads|
      ensures ThreadOk(s'.mem, s'.threads[t])
    {
      StaysOk(s.mem, s'.mem, s.threads[t]);
    }
  }

  lemma StoreEvolves(s: State, e: Event)
    requires EventOk(s, e)
    ensures e.Store? ==> Evolves(s.mem, Apply(s, e).mem) && (MemoryOk(s.mem) ==> MemoryOk(Apply(s, e).mem))
  {
  }

  // ---- safety ----

  /** Slot `j` of pool `i` holds `o`, with or without the mark bit. */
  ghost predicate Holds(s: State, i: nat, j: nat, o: nat) {
    i < |s.mem.pools| && j < |s.mem.pools[i]| && Masked(s.mem.pools[i][j]) == o
  }

  /** `o` is among the objects the thread is deciding about. */
  ghost predicate Deciding(m: Memory, th: Thread, o: nat)
    requires ThreadOk(m, th)
  {
    match th.pc
    case OpenPools(own) => Has(m, th, own, o)
    case CountPool(own, _) => Has(m, th, own, o)
    case CopySlot(own, _, _) => Has(m, th, own, o)
    case Sweep(_) => Has(m, th, false, o)
    case SweepOwn(_) => Has(m, th, true, o)
    case _ => false
  }

  ghost predicate Has(m: Memory, th: Thread, own: bool, o: nat)
    requires ThreadOk(m, th)
  {
    if own then o in th.deleted
    else exists k | 0 <= k < |th.local| :: m.nodes[th.local[k]].payload == o
  }

  /** The snapshot has yet to pass the slot, or has copied `o`. */
  ghost predicate WillSee(th: Thread, i: nat, j: nat, o: nat) {
    match th.pc
    case CountPool(_, _) => i < th.n
    case CopySlot(_, x, y) => i < th.n && (i >= x || (i == x - 1 && j < y) ==> Covered(th.buf, o))
    case Sweep(_) => Covered(th.buf, o)
    case SweepOwn(_) => Covered(th.buf, o)
    case _ => true
  }

  ghost predicate Guarded(s: State, i: nat, j: nat, o: nat) {
    && o !in s.mem.reclaimed
    && forall t | 0 <= t < |s.threads| ::
         ThreadOk(s.mem, s.threads[t]) && (Deciding(s.mem, s.threads[t], o) ==> WillSee(s.threads[t], i, j, o))
  }

  lemma SameDecision(m: Memory, m': Memory, th: Thread, o: nat)
    requires Evolves(m, m') && ThreadOk(m, th)
    ensures ThreadOk(m', th) && Deciding(m', th, o) == Deciding(m, th, o)
  {
  }

  lemma BeginGuards(m: Memory, th: Thread, call: Call, i: nat, j: nat, o: nat)
    requires MemoryOk(m) && ThreadOk(m, th) && th.pc.Idle?
    ensures var (m', th') := Begin(m, th, call);
            MemoryOk(m') && ThreadOk(m', th') && m'.reclaimed == m.reclaimed && WillSee(th', i, j, o)
  {
    BeginOk(m, th, call);
  }

  /** Copying one slot: the one that holds `o` puts `o` in the buffer. */
  lemma CopySees(m: Memory, th: Thread, i: nat, j: nat, o: nat)
    requires ThreadOk(m, th) && th.pc.CopySlot? && o != 0
    requires i < |m.pools| && j < |m.pools[i]| && Masked(m.pools[i][j]) == o
    requires WillSee(th, i, j, o)
    ensures WillSee(CopyOf(m, th, th.pc.own, th.pc.i, th.pc.j).1, i, j, o)
  {
    var th' := CopyOf(m, th, th.pc.own, th.pc.i, th.pc.j).1;
    if Covered(th.buf, o) {
      var k :| 0 <= k < |th.buf| && Masked(th.buf[k]) == o;
      assert th'.buf[k] == th.buf[k];
    } else if th.pc.i > 0 && i == th.pc.i - 1 && j == th.pc.j {
      assert Masked(th'.buf[|th.buf|]) == o;
    }
  }

  lemma CopyGuards(m: Memory, th: Thread, i: nat, j: nat, o: nat)
    requires ThreadOk(m, th) && th.pc.CopySlot? && o != 0
    requires i < |m.pools| && j < |m.pools[i]| && Masked(m.pools[i][j]) == o
    requires Deciding(m, th, o) ==> WillSee(th, i, j, o)
    ensures var (m', th') := CopyOf(m, th, th.pc.own, th.pc.i, th.pc.j);
            && ThreadOk(m', th') && m' == m
            && (Deciding(m', th', o) ==> WillSee(th', i, j, o))
  {
    if WillSee(th, i, j, o) {
      CopySees(m, th, i, j, o);
    }
    hide WillSee;
  }

  lemma SweepGuards(m: Memory, th: Thread, i: nat, j: nat, o: nat)
    requires MemoryOk(m) && ThreadOk(m, th) && th.pc.Sweep?
    requires Deciding(m, th, o) ==> Covered(th.buf, o)
    ensures var (m', th') := SweepOf(m, th, th.pc.k);
            && ThreadOk(m', th') && (o in m'.reclaimed ==> o in m.reclaimed)
            && (Deciding(m', th', o) ==> WillSee(th', i, j, o))
  {
    SweepOk(m, th, th.pc.k);
    var (m', th') := SweepOf(m, th, th.pc.k);
    if th'.pc.Sweep? && Deciding(m', th', o) {
      var x :| 0 <= x < |th'.local| && m'.nodes[th'.local[x]].payload == o;
      assert th'.local[x] == th.local[x] || (x + 1 < |th.local| && th'.local[x] == th.local[x + 1]);
    }
  }

  lemma SweepOwnGuards(m: Memory, th: Thread, i: nat, j: nat, o: nat)
    requires ThreadOk(m, th) && th.pc.SweepOwn? && o != 0
    requires Deciding(m, th, o) ==> Covered(th.buf, o)
    ensures var (m', th') := SweepOwnOf(m, th, th.pc.k);
            && ThreadOk(m', th') && (o in m'.reclaimed ==> o in m.reclaimed)
            && (Deciding(m', th', o) ==> WillSee(th', i, j, o))
  {
  }

  lemma ActGuards(m: Memory, th: Thread, i: nat, j: nat, o: nat)
    requires MemoryOk(m) && ThreadOk(m, th) && o != 0
    requires i < |m.pools| && j < |m.pools[i]| && Masked(m.pools[i][j]) == o
    requires Deciding(m, th, o) ==> WillSee(th, i, j, o)
    ensures var (m', th') := Act(m, th);
            && ThreadOk(m', th') && (o in m'.reclaimed ==> o in m.reclaimed)
            && (Deciding(m', th', o) ==> WillSee(th', i, j, o))
  {
    hide CopyOf, SweepOf, SweepOwnOf;
    ActOk(m, th);
    match th.pc
    case CopySlot(_, _, _) => CopyGuards(m, th, i, j, o);
    case Sweep(_) => SweepGuards(m, th, i, j, o);
    case SweepOwn(_) => SweepOwnGuards(m, th, i, j, o);
    case _ =>
  }

  /** While the slot holds the object, no step of any thread reclaims it. */
  lemma StepGuards(s: State, e: Event, i: nat, j: nat, o: nat)
    requires AllOk(s) && EventOk(s, e) && o != 0
    requires Holds(s, i, j, o) && Guarded(s, i, j, o)
    ensures Guarded(Apply(s, e), i, j, o)
  {
    var s' := Apply(s, e);
    StepOk(s, e);
    if e.By? {
      if s.threads[e.t].pc.Idle? {
        BeginGuards(s.mem, s.threads[e.t], e.call, i, j, o);
      } else {
        ActGuards(s.mem, s.threads[e.t], i, j, o);
      }
    }
    hide Begin, Act, WillSee, Deciding, ThreadOk;
    forall t | 0 <= t < |s.threads| && s'.threads[t] == s.threads[t]
      ensures ThreadOk(s'.mem, s'.threads[t]) && (Deciding(s'.mem, s'.threads[t], o) ==> WillSee(s'.threads[t], i, j, o))
    {
      SameDecision(s.mem, s'.mem, s.threads[t], o);
    }
  }

  // ---- where nodes are ----

  /** The nodes in a thread's hands: its private list, and the one it is pushing. */
  ghost function Owned(th: Thread): seq<nat> {
    match th.pc
    case PushRead(d, _) => [d] + th.local
    case PushCas(d, _) => [d] + th.local
    case _ => th.local
  }

  ghost function OwnedBy(ths: seq<Thread>, d: nat): nat {
    if ths == [] then 0 else Count(Owned(ths[0]), d) + OwnedBy(ths[1..], d)
  }

  /** How often a node is in the shared list, among the freed ones, or in a thread's hands. */
  ghost function Places(s: State, d: nat): nat {
    Count(s.mem.shared, d) + Count(s.mem.freed, d) + OwnedBy(s.threads, d)
  }

  /** Every node ever allocated is in exactly one place. */
  ghost predicate Partition(s: State) {
    forall d: nat :: Places(s, d) == if d < |s.mem.nodes| then 1 else 0
  }

  lemma {:induction false} OwnedByUpdate(ths: seq<Thread>, t: nat, th: Thread, d: nat)
    requires t < |ths|
    ensures OwnedBy(ths[t := th], d) + Count(Owned(ths[t]), d) == OwnedBy(ths, d) + Count(Owned(th), d)
  {
    hide Owned, Count;
    if t > 0 {
      OwnedByUpdate(ths[1..], t - 1, th, d);
      assert ths[t := th][1..] == ths[1..][t - 1 := th];
    } else {
      assert ths[t := th][1..] == ths[1..];
    }
  }

  ghost function Local(m: Memory, th: Thread, d: nat): nat {
    Count(m.shared, d) + Count(m.freed, d) + Count(Owned(th), d)
  }

  /** One more if `d` is a node allocated by the step. */
  ghost function New(m: Memory, m': Memory, d: nat): nat {
    if |m.nodes| <= d < |m'.nodes| then 1 else 0
  }

  lemma PushedMoves(th: Thread, spill: bool, d: nat)
    ensures Count(Owned(Pushed(th, spill)), d) == Count(th.local, d)
  {
    if th.local != [] {
      assert [th.local[0]] + th.local[1..] == th.local;
    }
  }

  lemma BeginMoves(m: Memory, th: Thread, call: Call, d: nat)
    requires ThreadOk(m, th) && th.pc.Idle? && m.head == First(m.shared)
    ensures var (m', th') := Begin(m, th, call);
            |m.nodes| <= |m'.nodes| <= |m.nodes| + 1 && Local(m', th', d) == Local(m, th, d) + New(m, m', d)
  {
    hide Count;
    CountFront(|m.nodes|, [], d);
    CountNone(d);
  }

  lemma PushMoves(m: Memory, th: Thread, x: nat, spill: bool, d: nat)
    requires ThreadOk(m, th) && th.pc == PushCas(x, spill)
    ensures var (m', th') := PushOf(m, th, x, spill);
            |m'.nodes| == |m.nodes| && Local(m', th', d) == Local(m, th, d)
  {
    hide Count;
    PushedMoves(th, spill, d);
    CountFront(x, m.shared, d);
    CountFront(x, th.local, d);
  }

  lemma SweepMoves(m: Memory, th: Thread, k: nat, d: nat)
    requires ThreadOk(m, th) && th.pc == Sweep(k)
    ensures var (m', th') := SweepOf(m, th, k);
            |m'.nodes| == |m.nodes| && Local(m', th', d) == Local(m, th, d)
  {
    hide Count;
    PushedMoves(th, false, d);
    if k < |th.local| {
      CountDrop(th.local, k, d);
      CountLast(m.freed, th.local[k], d);
    }
  }

  lemma ActMoves(m: Memory, th: Thread, d: nat)
    requires ThreadOk(m, th)
    ensures var (m', th') := Act(m, th);
            |m.nodes| <= |m'.nodes| <= |m.nodes| + 1 && Local(m', th', d) == Local(m, th, d) + New(m, m', d)
  {
    hide Count, PushOf, SweepOf;
    match th.pc
    case PushCas(x, spill) => PushMoves(m, th, x, spill, d);
    case Sweep(k) => SweepMoves(m, th, k, d);
    case _ => CountFront(|m.nodes|, [], d);
  }

  lemma PartitionStep(s: State, e: Event)
    requires EventOk(s, e) && Partition(s) && s.mem.head == First(s.mem.shared)
    ensures Partition(Apply(s, e))
  {
    hide Begin, Act, ThreadOk, Count, Owned, First;
    var s' := Apply(s, e);
    forall d: nat
      ensures Places(s', d) == if d < |s'.mem.nodes| then 1 else 0
    {
      assert Places(s, d) == if d < |s.mem.nodes| then 1 else 0;
      if e.By? {
        if s.threads[e.t].pc.Idle? {
          BeginMoves(s.mem, s.threads[e.t], e.call, d);
        } else {
          ActMoves(s.mem, s.threads[e.t], d);
        }
        OwnedByUpdate(s.threads, e.t, s'.threads[e.t], d);
      }
    }
  }

  // ---- the lists in memory ----

  ghost function At(ids: seq<nat>, k: nat): Option<nat> {
    if k < |ids| then Some(ids[k]) else None
  }

  /** The links lead through `ids` in order, and then nowhere. */
  ghost predicate Chain(nodes: seq<Node>, ids: seq<nat>) {
    forall k | 0 <= k < |ids| :: ids[k] < |nodes| && nodes[ids[k]].next == At(ids, k + 1)
  }

  ghost predicate Chains(s: State) {
    && s.mem.head == First(s.mem.shared) && Chain(s.mem.nodes, s.mem.shared)
    && forall t | 0 <= t < |s.threads| :: Chain(s.mem.nodes, s.threads[t].local)
  }

  /** A thread's nodes are its own. */
  ghost predicate Private(m: Memory, th: Thread) {
    Distinct(Owned(th)) && forall d | d in Owned(th) :: d !in m.shared
  }

  /** Only links of the thread's own nodes change. */
  ghost predicate WritesOwn(m: Memory, m': Memory, th: Thread) {
    |m.nodes| <= |m'.nodes| && forall d: nat | d < |m.nodes| && d !in Owned(th) :: m'.nodes[d] == m.nodes[d]
  }

  ghost predicate ChainsKept(m: Memory, th: Thread, m': Memory, th': Thread) {
    && m'.head == First(m'.shared) && Chain(m'.nodes, m'.shared)
    && Chain(m'.nodes, th'.local) && WritesOwn(m, m', th)
  }

  lemma PushedChain(nodes: seq<Node>, th: Thread, spill: bool)
    requires Chain(nodes, th.local)
    ensures Chain(nodes, Pushed(th, spill).local)
  {
  }

  lemma BeginChains(m: Memory, th: Thread, call: Call)
    requires ThreadOk(m, th) && th.pc.Idle? && m.head == First(m.shared) && Chain(m.nodes, m.shared)
    ensures var (m', th') := Begin(m, th, call); ChainsKept(m, th, m', th')
  {
  }

  /** The node being pushed is in no list. */
  lemma PushedNode(m: Memory, th: Thread, d: nat)
    requires (th.pc.PushRead? || th.pc.PushCas?) && th.pc.node == d && Private(m, th)
    ensures d in Owned(th) && d !in m.shared && d !in th.local
  {
    assert Owned(th)[0] == d;
    assert forall k | 0 <= k < |th.local| :: Owned(th)[k + 1] == th.local[k];
  }

  lemma RelinkChain(m: Memory, ids: seq<nat>, d: nat, next: Option<nat>)
    requires Chain(m.nodes, ids) && d < |m.nodes| && d !in ids
    ensures Chain(Relink(m, d, next).nodes, ids)
  {
  }

  lemma PushReadChains(m: Memory, th: Thread, d: nat)
    requires d < |m.nodes| && (th.pc.PushRead? || th.pc.PushCas?) && th.pc.node == d && Private(m, th)
    requires m.head == First(m.shared) && Chain(m.nodes, m.shared) && Chain(m.nodes, th.local)
    ensures ChainsKept(m, th, Relink(m, d, m.head), th)
  {
    PushedNode(m, th, d);
    RelinkChain(m, m.shared, d, m.head);
    RelinkChain(m, th.local, d, m.head);
    hide Owned, Private, Chain;
  }

  lemma PushChains(m: Memory, th: Thread, d: nat, spill: bool)
    requires ThreadOk(m, th) && th.pc == PushCas(d, spill) && Private(m, th)
    requires m.head == First(m.shared) && Chain(m.nodes, m.shared) && Chain(m.nodes, th.local)
    ensures var (m', th') := PushOf(m, th, d, spill); ChainsKept(m, th, m', th')
  {
    hide Owned, Private;
    PushedChain(m.nodes, th, spill);
    PushReadChains(m, th, d);
    LongerChain(m.nodes, m.shared, d);
  }

  /** A node that links to the first of a chain can head it. */
  lemma LongerChain(nodes: seq<Node>, ids: seq<nat>, d: nat)
    requires Chain(nodes, ids) && d < |nodes|
    ensures nodes[d].next == First(ids) ==> Chain(nodes, [d] + ids)
  {
  }

  /** Unlinking node `k` of a private list: its predecessor takes over its link. */
  lemma SweepChains(m: Memory, th: Thread, k: nat)
    requires ThreadOk(m, th) && th.pc == Sweep(k) && k <= |th.local| && Private(m, th)
    requires m.head == First(m.shared) && Chain(m.nodes, m.shared) && Chain(m.nodes, th.local)
    ensures var (m', th') := SweepOf(m, th, k); ChainsKept(m, th, m', th')
  {
    hide ThreadOk, Chain, Private, Owned, Distinct;
    PushedChain(m.nodes, th, false);
    if k < |th.local| {
      SweptNode(m, th, k);
      DropFromChain(m, th.local, k);
      if k > 0 {
        RelinkChain(m, m.shared, th.local[k - 1], m.nodes[th.local[k]].next);
      }
    }
  }

  lemma SweptNode(m: Memory, th: Thread, k: nat)
    requires th.pc.Sweep? && k < |th.local| && Private(m, th) && Chain(m.nodes, th.local)
    ensures th.local[k] < |m.nodes| && Distinct(th.local)
    ensures k > 0 ==> th.local[k - 1] in Owned(th) && th.local[k - 1] !in m.shared && th.local[k - 1] < |m.nodes|
  {
  }

  lemma DropFromChain(m: Memory, ids: seq<nat>, k: nat)
    requires Chain(m.nodes, ids) && Distinct(ids) && k < |ids|
    ensures k == 0 ==> Chain(m.nodes, ids[..k] + ids[k + 1..])
    ensures k > 0 ==> Chain(Relink(m, ids[k - 1], m.nodes[ids[k]].next).nodes, ids[..k] + ids[k + 1..])
  {
    var rest := ids[..k] + ids[k + 1..];
    assert forall x | 0 <= x < |rest| :: rest[x] == (if x < k then ids[x] else ids[x + 1]);
  }

  lemma ActChains(m: Memory, th: Thread)
    requires ThreadOk(m, th) && Private(m, th)
    requires m.head == First(m.shared) && Chain(m.nodes, m.shared) && Chain(m.nodes, th.local)
    ensures var (m', th') := Act(m, th); ChainsKept(m, th, m', th')
  {
    hide PushOf, SweepOf, CopyOf, SweepOwnOf, SpillOf, Private, Chain, Owned;
    match th.pc
    case PushRead(d, _) => PushReadChains(m, th, d);
    case PushCas(d, spill) => PushChains(m, th, d, spill);
    case Sweep(k) => SweepChains(m, th, k);
    case _ => OtherChains(m, th);
  }

  /** No other step changes a link or a private list; a spill allocates a node. */
  lemma OtherChains(m: Memory, th: Thread)
    requires ThreadOk(m, th) && !th.pc.PushRead? && !th.pc.PushCas? && !th.pc.Sweep?
    requires m.head == First(m.shared) && Chain(m.nodes, m.shared) && Chain(m.nodes, th.local)
    ensures var (m', th') := Act(m, th); ChainsKept(m, th, m', th')
  {
    hide PushOf, SweepOf;
  }

  lemma {:induction false} OwnedByOne(ths: seq<Thread>, t: nat, d: nat)
    requires t < |ths|
    ensures Count(Owned(ths[t]), d) <= OwnedBy(ths, d)
  {
    hide Owned, Count;
    if t > 0 {
      OwnedByOne(ths[1..], t - 1, d);
    }
  }

  lemma {:induction false} OwnedByTwo(ths: seq<Thread>, t: nat, u: nat, d: nat)
    requires t < u < |ths|
    ensures Count(Owned(ths[t]), d) + Count(Owned(ths[u]), d) <= OwnedBy(ths, d)
  {
    hide Owned, Count;
    if t > 0 {
      OwnedByTwo(ths[1..], t - 1, u - 1, d);
    } else {
      OwnedByOne(ths[1..], u - 1, d);
    }
  }

  lemma PartitionMeansPrivate(s: State, t: nat)
    requires Partition(s) && t < |s.threads|
    ensures Private(s.mem, s.threads[t])
  {
    var ids := Owned(s.threads[t]);
    hide Owned, Count, OwnedBy;
    forall d | d in ids
      ensures d !in s.mem.shared
    {
      InPlace(s, t, d);
    }
    forall p, q | 0 <= p < q < |ids|
      ensures ids[p] != ids[q]
    {
      InPlace(s, t, ids[p]);
      if ids[p] == ids[q] {
        CountTwice(ids, p, q);
      }
    }
  }

  lemma InPlace(s: State, t: nat, d: nat)
    requires Partition(s) && t < |s.threads| && d in Owned(s.threads[t])
    ensures Count(Owned(s.threads[t]), d) == 1 && d !in s.mem.shared && d !in s.mem.freed
    ensures forall u | 0 <= u < |s.threads| && u != t :: d !in Owned(s.threads[u])
  {
    hide Owned, Count, OwnedBy;
    assert Places(s, d) <= 1;
    OwnedByOne(s.threads, t, d);
    CountIn(Owned(s.threads[t]), d);
    CountIn(s.mem.shared, d);
    CountIn(s.mem.freed, d);
    forall u | 0 <= u < |s.threads| && u != t
      ensures d !in Owned(s.threads[u])
    {
      OwnedByTwo(s.threads, if t < u then t else u, if t < u then u else t, d);
      CountIn(Owned(s.threads[u]), d);
    }
  }

  lemma ChainsStep(s: State, e: Event)
    requires EventOk(s, e) && Partition(s) && Chains(s)
    ensures Chains(Apply(s, e))
  {
    hide Begin, Act, ThreadOk, Partition, Chain, First;
    var s' := Apply(s, e);
    if e.By? {
      var th := s.threads[e.t];
      PartitionMeansPrivate(s, e.t);
      if th.pc.Idle? {
        BeginChains(s.mem, th, e.call);
      } else {
        ActChains(s.mem, th);
      }
      forall u | 0 <= u < |s.threads| && u != e.t
        ensures Chain(s'.mem.nodes, s'.threads[u].local)
      {
        OtherChain(s, s'.mem, e.t, u);
      }
    }
  }

  lemma OtherChain(s: State, m': Memory, t: nat, u: nat)
    requires Partition(s) && t < |s.threads| && u < |s.threads| && u != t
    requires WritesOwn(s.mem, m', s.threads[t]) && Chain(s.mem.nodes, s.threads[u].local)
    ensures Chain(m'.nodes, s.threads[u].local)
  {
    hide Partition;
    var ids := s.threads[u].local;
    forall k | 0 <= k < |ids|
      ensures m'.nodes[ids[k]] == s.mem.nodes[ids[k]]
    {
      LocalOwned(s.threads[u], k);
      InPlace(s, u, ids[k]);
    }
  }

  lemma LocalOwned(th: Thread, k: nat)
    requires k < |th.local|
    ensures th.local[k] in Owned(th)
  {
  }

  // ---- where objects are ----

  ghost function PayloadOf(m: Memory, d: nat): nat {
    if d < |m.nodes| then m.nodes[d].payload else 0
  }

  /** How many of the nodes `ids` carry `o`. */
  ghost function Pay(m: Memory, ids: seq<nat>, o: nat): nat {
    if ids == [] then 0 else (if PayloadOf(m, ids[0]) == o then 1 else 0) + Pay(m, ids[1..], o)
  }

  /** How often a thread has `o` in its array or on a node in its hands. */
  ghost function Held(m: Memory, th: Thread, o: nat): nat {
    Pay(m, Owned(th), o) + Count(th.deleted, o)
  }

  ghost function HeldBy(m: Memory, ths: seq<Thread>, o: nat): nat {
    if ths == [] then 0 else Held(m, ths[0], o) + HeldBy(m, ths[1..], o)
  }

  /** Reclaimed, on the shared list, or still with some thread: nothing is lost or doubled. */
  ghost predicate Ledger(s: State) {
    forall o: nat | o != 0 ::
      Count(s.mem.retired, o) == Count(s.mem.reclaimed, o) + Pay(s.mem, s.mem.shared, o) + HeldBy(s.mem, s.threads, o)
  }

  ghost predicate Below(m: Memory, ids: seq<nat>) {
    forall k | 0 <= k < |ids| :: ids[k] < |m.nodes|
  }

  lemma {:induction false} PayStable(m: Memory, m': Memory, ids: seq<nat>, o: nat)
    requires Below(m, ids) && Evolves(m, m')
    ensures Pay(m', ids, o) == Pay(m, ids, o)
  {
    if ids != [] {
      PayStable(m, m', ids[1..], o);
    }
  }

  lemma {:induction false} PayAppend(m: Memory, a: seq<nat>, b: seq<nat>, o: nat)
    ensures Pay(m, a + b, o) == Pay(m, a, o) + Pay(m, b, o)
  {
    if a == [] {
      assert a + b == b;
    } else {
      assert (a + b)[1..] == a[1..] + b;
      PayAppend(m, a[1..], b, o);
    }
  }

  lemma PayFront(m: Memory, d: nat, ids: seq<nat>, o: nat)
    ensures Pay(m, [d] + ids, o) == (if PayloadOf(m, d) == o then 1 else 0) + Pay(m, ids, o)
  {
    assert ([d] + ids)[1..] == ids;
  }

  lemma PayDrop(m: Memory, ids: seq<nat>, k: nat, o: nat)
    requires k < |ids|
    ensures Pay(m, ids, o) == Pay(m, ids[..k] + ids[k + 1..], o) + if PayloadOf(m, ids[k]) == o then 1 else 0
  {
    PayAppend(m, ids[..k], ids[k..], o);
    PayAppend(m, ids[..k], ids[k + 1..], o);
    assert ids == ids[..k] + ids[k..];
  }

  lemma {:induction false} HeldByUpdate(m: Memory, ths: seq<Thread>, t: nat, th: Thread, o: nat)
    requires t < |ths|
    ensures HeldBy(m, ths[t := th], o) + Held(m, ths[t], o) == HeldBy(m, ths, o) + Held(m, th, o)
  {
    hide Held;
    if t > 0 {
      HeldByUpdate(m, ths[1..], t - 1, th, o);
      assert ths[t := th][1..] == ths[1..][t - 1 := th];
    } else {
      assert ths[t := th][1..] == ths[1..];
    }
  }

  lemma {:induction false} HeldByStable(m: Memory, m': Memory, ths: seq<Thread>, o: nat)
    requires Evolves(m, m') && forall t | 0 <= t < |ths| :: ThreadOk(m, ths[t])
    ensures HeldBy(m', ths, o) == HeldBy(m, ths, o)
  {
    hide ThreadOk, Owned, Pay, Evolves;
    if ths != [] {
      OwnedBelow(m, ths[0]);
      PayStable(m, m', Owned(ths[0]), o);
      HeldByStable(m, m', ths[1..], o);
    }
  }

  lemma OwnedBelow(m: Memory, th: Thread)
    requires ThreadOk(m, th)
    ensures Below(m, Owned(th))
  {
  }

  lemma SharedBelow(m: Memory)
    requires MemoryOk(m)
    ensures Below(m, m.shared)
  {
  }

  /** What one thread's step conserves, for one object. */
  ghost function Share(m: Memory, th: Thread, o: nat): nat {
    Count(m.reclaimed, o) + Pay(m, m.shared, o) + Held(m, th, o)
  }

  ghost predicate Conserves(m: Memory, th: Thread, m': Memory, th': Thread, o: nat) {
    Share(m', th', o) + Count(m.retired, o) == Share(m, th, o) + Count(m'.retired, o)
  }

  lemma AllocPays(m: Memory, x: nat, ids: seq<nat>, o: nat)
    requires Below(m, ids)
    ensures Pay(Alloc(m, x), ids, o) == Pay(m, ids, o)
    ensures PayloadOf(Alloc(m, x), |m.nodes|) == x
  {
    PayStable(m, Alloc(m, x), ids, o);
  }

  lemma BeginConserves(m: Memory, th: Thread, call: Call, o: nat)
    requires MemoryOk(m) && ThreadOk(m, th) && th.pc.Idle? && m.head == First(m.shared) && o != 0
    ensures var (m', th') := Begin(m, th, call); Conserves(m, th, m', th', o)
  {
    hide Count, Pay, Evolves;
    var (m', th') := Begin(m, th, call);
    match call
    case Collect =>
      BeginOk(m, th, call);
      PayStable(m, m', m.shared, o);
      PayNone(m', o);
      PayNone(m, o);
    case Enqueue(x) => EnqueueConserves(m, th, x, o);
    case DeleteItem(x) =>
      if th.limit == 0 {
        EnqueueConserves(m, th, x, o);
      } else {
        BeginOk(m, th, call);
        PayStable(m, m', m.shared, o);
        PayStable(m, m', th.local, o);
        CountLast(m.retired, x, o);
        CountLast(th.deleted, x, o);
      }
    case _ =>
  }

  lemma PayNone(m: Memory, o: nat)
    ensures Pay(m, [], o) == 0
  {
  }

  lemma EnqueueConserves(m: Memory, th: Thread, x: nat, o: nat)
    requires MemoryOk(m) && ThreadOk(m, th) && th.pc.Idle?
    ensures var (m', th') := Begin(m, th, Enqueue(x)); Conserves(m, th, m', th', o)
  {
    hide Count, Pay, Evolves;
    var m1 := m.(retired := m.retired + [x]);
    AllocPays(m1, x, m.shared, o);
    AllocPays(m1, x, th.local, o);
    PayStable(m, m1, m.shared, o);
    PayStable(m, m1, th.local, o);
    PayFront(Alloc(m1, x), |m.nodes|, th.local, o);
    CountLast(m.retired, x, o);
  }

  lemma PushedPays(m: Memory, th: Thread, spill: bool, o: nat)
    ensures Pay(m, Owned(Pushed(th, spill)), o) == Pay(m, th.local, o)
  {
    if th.local != [] {
      assert [th.local[0]] + th.local[1..] == th.local;
    }
  }

  lemma PushConserves(m: Memory, th: Thread, d: nat, spill: bool, o: nat)
    requires MemoryOk(m) && ThreadOk(m, th) && th.pc == PushCas(d, spill) && d < |m.nodes|
    ensures var (m', th') := PushOf(m, th, d, spill); Conserves(m, th, m', th', o)
  {
    hide Count, Pay, Evolves, ThreadOk, MemoryOk;
    SharedBelow(m);
    ActOk(m, th);
    OwnedBelow(m, th);
    var m' := PushOf(m, th, d, spill).0;
    PayStable(m, m', m.shared, o);
    PayStable(m, m', Owned(th), o);
    PushedPays(m', th, spill, o);
    PayFront(m', d, m.shared, o);
    PayFront(m', d, th.local, o);
  }

  lemma SweepConserves(m: Memory, th: Thread, k: nat, o: nat)
    requires MemoryOk(m) && ThreadOk(m, th) && th.pc == Sweep(k) && k <= |th.local|
    ensures var (m', th') := SweepOf(m, th, k); Conserves(m, th, m', th', o)
  {
    hide Count, Pay, Evolves, Below;
    SweepOk(m, th, k);
    OwnedBelow(m, th);
    var m' := SweepOf(m, th, k).0;
    PayStable(m, m', m.shared, o);
    PayStable(m, m', th.local, o);
    PushedPays(m', th, false, o);
    if k < |th.local| {
      PayDrop(m', th.local, k, o);
      CountLast(m.reclaimed, m.nodes[th.local[k]].payload, o);
    }
  }

  lemma SweepOwnConserves(m: Memory, th: Thread, k: nat, o: nat)
    requires MemoryOk(m) && ThreadOk(m, th) && th.pc == SweepOwn(k) && k <= |th.deleted| && o != 0
    ensures var (m', th') := SweepOwnOf(m, th, k); Conserves(m, th, m', th', o)
  {
    hide Count, Pay, Evolves, NonNull;
    var m' := SweepOwnOf(m, th, k).0;
    assert Evolves(m, m') by { ActOk(m, th); }
    PayStable(m, m', m.shared, o);
    PayStable(m, m', th.local, o);
    CountNonNull(th.deleted, o);
    if k < |th.deleted| {
      CountUpdate(th.deleted, k, 0, o);
      CountLast(m.reclaimed, th.deleted[k], o);
    }
  }

  lemma SpillConserves(m: Memory, th: Thread, o: nat)
    requires MemoryOk(m) && ThreadOk(m, th) && th.pc == Spill && o != 0
    ensures var (m', th') := SpillOf(m, th); Conserves(m, th, m', th', o)
  {
    hide Count, Pay, Evolves;
    if th.deleted != [] {
      var x := th.deleted[0];
      AllocPays(m, x, m.shared, o);
      AllocPays(m, x, th.local, o);
      PayFront(Alloc(m, x), |m.nodes|, th.local, o);
      CountFront(x, th.deleted[1..], o);
      assert [x] + th.deleted[1..] == th.deleted;
    }
  }

  lemma ActConserves(m: Memory, th: Thread, o: nat)
    requires MemoryOk(m) && ThreadOk(m, th) && o != 0
    ensures var (m', th') := Act(m, th); Conserves(m, th, m', th', o)
  {
    hide Count, Pay, Evolves, MemoryOk, PushOf, SweepOf, SweepOwnOf, SpillOf;
    SharedBelow(m);
    ActOk(m, th);
    OwnedBelow(m, th);
    PayStable(m, Act(m, th).0, m.shared, o);
    PayStable(m, Act(m, th).0, Owned(th), o);
    match th.pc
    case PushCas(d, spill) => PushConserves(m, th, d, spill, o);
    case Sweep(k) => SweepConserves(m, th, k, o);
    case SweepOwn(k) => SweepOwnConserves(m, th, k, o);
    case Spill => SpillConserves(m, th, o);
    case _ =>
  }

  lemma LedgerStep(s: State, e: Event)
    requires AllOk(s) && EventOk(s, e) && Ledger(s) && s.mem.head == First(s.mem.shared)
    ensures Ledger(Apply(s, e))
  {
    StepOk(s, e);
    hide Begin, Act, ThreadOk, Count, Pay, Held, First, Evolves;
    var s' := Apply(s, e);
    forall o: nat | o != 0
      ensures Count(s'.mem.retired, o) == Count(s'.mem.reclaimed, o) + Pay(s'.mem, s'.mem.shared, o) + HeldBy(s'.mem, s'.threads, o)
    {
      HeldByStable(s.mem, s'.mem, s.threads, o);
      if e.By? {
        var th := s.threads[e.t];
        OwnedBelow(s.mem, th);
        PayStable(s.mem, s'.mem, Owned(th), o);
        if th.pc.Idle? {
          BeginConserves(s.mem, th, e.call, o);
        } else {
          ActConserves(s.mem, th, o);
        }
        HeldByUpdate(s'.mem, s.threads, e.t, s'.threads[e.t], o);
        assert Held(s'.mem, th, o) == Held(s.mem, th, o) by { SameHeld(s.mem, s'.mem, th, o); }
      } else {
        PayStable(s.mem, s'.mem, s.mem.shared, o);
      }
    }
  }

  lemma SameHeld(m: Memory, m': Memory, th: Thread, o: nat)
    requires Evolves(m, m') && ThreadOk(m, th)
    ensures Held(m', th, o) == Held(m, th, o)
  {
    OwnedBelow(m, th);
    PayStable(m, m', Owned(th), o);
  }

  // ---- the snapshot buffer ----

  /** How many hazard pointers the oldest `i` pools have. */
  ghost function Total(m: Memory, i: nat): nat
    requires i <= |m.pools|
  {
    if i == 0 then 0 else Total(m, i - 1) + |m.pools[i - 1]|
  }

  /** The first pass has counted room for all that the second pass has yet to copy. */
  ghost predicate Fits(m: Memory, th: Thread)
    requires ThreadOk(m, th)
  {
    match th.pc
    case CountPool(_, i) => th.buf == [] && th.size + Total(m, i) == Total(m, th.n)
    case CopySlot(_, i, j) => th.size == Total(m, th.n) && |th.buf| + Total(m, i) <= th.size + if i > 0 then j else 0
    case Sweep(_) => |th.buf| <= th.size
    case SweepOwn(_) => |th.buf| <= th.size
    case _ => true
  }

  lemma {:induction false} TotalStable(m: Memory, m': Memory, i: nat)
    requires Evolves(m, m') && i <= |m.pools|
    ensures Total(m', i) == Total(m, i)
  {
    if i > 0 {
      TotalStable(m, m', i - 1);
    }
  }

  lemma FitsStable(m: Memory, m': Memory, th: Thread)
    requires Evolves(m, m') && ThreadOk(m, th) && Fits(m, th)
    ensures ThreadOk(m', th) && Fits(m', th)
  {
    TotalStable(m, m', th.n);
    match th.pc
    case CountPool(_, i) => TotalStable(m, m', i);
    case CopySlot(_, i, _) => TotalStable(m, m', i);
    case _ =>
  }

  lemma ActFits(m: Memory, th: Thread)
    requires MemoryOk(m) && ThreadOk(m, th) && Fits(m, th)
    ensures var (m', th') := Act(m, th); ThreadOk(m', th') && Fits(m', th')
  {
    hide PushOf, SweepOf;
    ActOk(m, th);
    match th.pc
    case PushCas(d, spill) => PushFits(m, th, d, spill);
    case Sweep(k) => SweepFits(m, th, k);
    case _ =>
  }

  lemma PushFits(m: Memory, th: Thread, d: nat, spill: bool)
    requires ThreadOk(m, th) && th.pc == PushCas(d, spill)
    requires ThreadOk(PushOf(m, th, d, spill).0, PushOf(m, th, d, spill).1)
    ensures Fits(PushOf(m, th, d, spill).0, PushOf(m, th, d, spill).1)
  {
  }

  lemma SweepFits(m: Memory, th: Thread, k: nat)
    requires ThreadOk(m, th) && th.pc == Sweep(k) && k <= |th.local| && Fits(m, th)
    requires ThreadOk(SweepOf(m, th, k).0, SweepOf(m, th, k).1)
    ensures Fits(SweepOf(m, th, k).0, SweepOf(m, th, k).1)
  {
  }

  lemma FitsStep(s: State, e: Event)
    requires AllOk(s) && EventOk(s, e) && forall t | 0 <= t < |s.threads| :: Fits(s.mem, s.threads[t])
    ensures AllOk(Apply(s, e))
    ensures var s' := Apply(s, e); forall t | 0 <= t < |s'.threads| :: Fits(s'.mem, s'.threads[t])
  {
    var s' := Apply(s, e);
    StepOk(s, e);
    if e.By? {
      if s.threads[e.t].pc.Idle? {
        BeginFits(s.mem, s.threads[e.t], e.call);
      } else {
        ActFits(s.mem, s.threads[e.t]);
      }
    }
    hide Begin, Act, Fits, ThreadOk, Evolves;
    forall t | 0 <= t < |s'.threads| && s'.threads[t] == s.threads[t]
      ensures Fits(s'.mem, s'.threads[t])
    {
      FitsStable(s.mem, s'.mem, s.threads[t]);
    }
  }

  lemma BeginFits(m: Memory, th: Thread, call: Call)
    requires MemoryOk(m) && ThreadOk(m, th) && th.pc.Idle?
    ensures var (m', th') := Begin(m, th, call); ThreadOk(m', th') && Fits(m', th')
  {
    BeginOk(m, th, call);
  }

  // ---- whole runs ----

  ghost predicate Start(s: State) {
    && s.mem == Memory([], [], None, [], [], [], [])
    && forall t | 0 <= t < |s.threads| ::
         s.threads[t] == Thread(Idle, s.threads[t].limit, [], [], 0, 0, [])
  }

  ghost predicate Inv(s: State) {
    && AllOk(s) && Partition(s) && Chains(s) && Ledger(s)
    && (forall t | 0 <= t < |s.threads| :: Fits(s.mem, s.threads[t]))
    && Distinct(s.mem.retired)
  }

  lemma {:induction false} NothingYet(m: Memory, ths: seq<Thread>, d: nat)
    requires forall t | 0 <= t < |ths| :: Owned(ths[t]) == [] && ths[t].deleted == []
    ensures OwnedBy(ths, d) == 0 && HeldBy(m, ths, d) == 0
  {
    if ths != [] {
      NothingYet(m, ths[1..], d);
    }
  }

  lemma StartInv(s: State)
    requires Start(s)
    ensures Inv(s)
  {
    forall d: nat
      ensures OwnedBy(s.threads, d) == 0 && HeldBy(s.mem, s.threads, d) == 0
    {
      NothingYet(s.mem, s.threads, d);
    }
  }

  lemma StepInv(s: State, e: Event)
    requires Inv(s) && EventOk(s, e)
    ensures Inv(Apply(s, e))
  {
    RetiredStep(s, e);
    hide Ledger, Partition, Fits, Distinct, Begin, Act, ThreadOk, MemoryOk, Chain;
    StepOk(s, e);
    PartitionStep(s, e);
    ChainsStep(s, e);
    LedgerStep(s, e);
    FitsStep(s, e);
  }

  lemma RetiredStep(s: State, e: Event)
    requires EventOk(s, e) && Distinct(s.mem.retired)
    ensures Distinct(Apply(s, e).mem.retired)
    ensures forall o | o in s.mem.retired :: o in Apply(s, e).mem.retired
  {
  }

  lemma {:induction false} RunInv(b: seq<State>, es: seq<Event>, k: nat)
    requires Run(b, es) && Start(b[0]) && k < |b|
    ensures Inv(b[k])
  {
    hide Inv, Start, EventOk;
    if k == 0 {
      StartInv(b[0]);
    } else {
      RunInv(b, es, k - 1);
      StepInv(b[k - 1], es[k - 1]);
    }
  }

  /** An object not yet retired is nobody's business. */
  lemma Unretired(s: State, i: nat, j: nat, o: nat)
    requires Inv(s) && o != 0 && o !in s.mem.retired
    ensures Guarded(s, i, j, o)
  {
    hide Pay, Count, HeldBy, Partition, Chains, Fits, Distinct, Owned, WillSee, Deciding;
    CountIn(s.mem.retired, o);
    CountIn(s.mem.reclaimed, o);
    forall t | 0 <= t < |s.threads|
      ensures !Deciding(s.mem, s.threads[t], o)
    {
      if Deciding(s.mem, s.threads[t], o) {
        HeldByOne(s.mem, s.threads, t, o);
        DecidingHolds(s.mem, s.threads[t], o);
      }
    }
  }

  lemma {:induction false} HeldByOne(m: Memory, ths: seq<Thread>, t: nat, o: nat)
    requires t < |ths|
    ensures Held(m, ths[t], o) <= HeldBy(m, ths, o)
  {
    hide Held;
    if t > 0 {
      HeldByOne(m, ths[1..], t - 1, o);
    }
  }

  lemma DecidingHolds(m: Memory, th: Thread, o: nat)
    requires ThreadOk(m, th) && Deciding(m, th, o)
    ensures Held(m, th, o) > 0
  {
    hide Count;
    CountIn(th.deleted, o);
    if k :| 0 <= k < |th.local| && m.nodes[th.local[k]].payload == o {
      PayDrop(m, th.local, k, o);
    }
  }

  /** A slot of a pool, pools numbered oldest first. */
  datatype Slot = Slot(pool: nat, ix: nat)

  /** A snapshot reads the newest pool first, and a pool's slots upwards: `q` not before `p`. */
  predicate NotBefore(p: Slot, q: Slot) {
    q.pool < p.pool || (q.pool == p.pool && p.ix <= q.ix)
  }

  /** Whoever has yet to pass a slot has yet to pass every later one. */
  lemma SeesLater(th: Thread, p: Slot, q: Slot, o: nat)
    requires NotBefore(p, q) && WillSee(th, p.pool, p.ix, o)
    ensures WillSee(th, q.pool, q.ix, o)
  {
  }

  lemma GuardsLater(s: State, p: Slot, q: Slot, o: nat)
    requires NotBefore(p, q) && Guarded(s, p.pool, p.ix, o)
    ensures Guarded(s, q.pool, q.ix, o)
  {
    hide WillSee, Deciding, ThreadOk, NotBefore;
    forall t | 0 <= t < |s.threads| && ThreadOk(s.mem, s.threads[t]) && Deciding(s.mem, s.threads[t], o)
      ensures WillSee(s.threads[t], q.pool, q.ix, o)
    {
      SeesLater(s.threads[t], p, q, o);
    }
  }

  /**
   * Reclamation safety: an object that hazard slots have held ever since before it was retired,
   * handed on from slot to slot in the order in which snapshots read them, has not been reclaimed,
   * whatever the threads did meanwhile.
   */
  lemma {:induction false} HandedOn(b: seq<State>, es: seq<Event>, m: nat, n: nat, at: seq<Slot>, o: nat)
    requires Run(b, es) && Start(b[0]) && m <= n < |b| == |at|
    requires o != 0 && o !in b[m].mem.retired
    requires forall k | m <= k <= n :: Holds(b[k], at[k].pool, at[k].ix, o)
    requires forall k | m <= k < n :: NotBefore(at[k], at[k + 1])
    ensures Guarded(b[n], at[n].pool, at[n].ix, o) && o !in b[n].mem.reclaimed
  {
    hide EventOk, Inv, Start, Guarded, Holds, AllOk, NotBefore;
    RunInv(b, es, n);
    if m == n {
      Unretired(b[n], at[n].pool, at[n].ix, o);
    } else {
      var k := n - 1;
      HandedOn(b, es, m, k, at, o);
      RunInv(b, es, k);
      InvOk(b[k]);
      StepGuards(b[k], es[k], at[k].pool, at[k].ix, o);
      GuardsLater(b[n], at[k], at[n], o);
    }
    GuardedMeans(b[n], at[n].pool, at[n].ix, o);
  }

  /** So it is with an object that one slot has held all the time. */
  lemma HeldIsNotReclaimed(b: seq<State>, es: seq<Event>, m: nat, n: nat, i: nat, j: nat, o: nat)
    requires Run(b, es) && Start(b[0]) && m <= n < |b|
    requires o != 0 && o !in b[m].mem.retired
    requires forall k | m <= k <= n :: Holds(b[k], i, j, o)
    ensures o !in b[n].mem.reclaimed
  {
    hide Run, Start, Holds, Guarded;
    HandedOn(b, es, m, n, seq(|b|, _ => Slot(i, j)), o);
  }

  lemma InvOk(s: State)
    requires Inv(s)
    ensures AllOk(s)
  {
  }

  lemma GuardedMeans(s: State, i: nat, j: nat, o: nat)
    requires Guarded(s, i, j, o)
    ensures o !in s.mem.reclaimed
  {
  }

  /** Nothing is reclaimed twice. */
  lemma ReclaimedOnce(b: seq<State>, es: seq<Event>, k: nat, o: nat)
    requires Run(b, es) && Start(b[0]) && k < |b| && o != 0
    ensures Count(b[k].mem.reclaimed, o) <= 1
  {
    RunInv(b, es, k);
    DistinctCount(b[k].mem.retired, o);
  }

  /** A retired object is reclaimed, on the shared list, or with some thread: exactly one of these. */
  lemma NothingLost(b: seq<State>, es: seq<Event>, k: nat, o: nat)
    requires Run(b, es) && Start(b[0]) && k < |b| && o in b[k].mem.retired && o != 0
    ensures 1 == Count(b[k].mem.reclaimed, o) + Pay(b[k].mem, b[k].mem.shared, o) + HeldBy(b[k].mem, b[k].threads, o)
  {
    RunInv(b, es, k);
    DistinctCount(b[k].mem.retired, o);
    CountIn(b[k].mem.retired, o);
  }

  /** Two collectors never hold a node in common, nor one that is shared or freed. */
  lemma CollectorsApart(b: seq<State>, es: seq<Event>, k: nat, t: nat, u: nat, d: nat)
    requires Run(b, es) && Start(b[0]) && k < |b|
    requires t < |b[k].threads| && u < |b[k].threads| && t != u && d in b[k].threads[t].local
    ensures d !in b[k].threads[u].local && d !in b[k].mem.shared && d !in b[k].mem.freed
  {
    RunInv(b, es, k);
    var x :| 0 <= x < |b[k].threads[t].local| && b[k].threads[t].local[x] == d;
    LocalOwned(b[k].threads[t], x);
    hide Owned;
    InPlace(b[k], t, d);
    if y :| 0 <= y < |b[k].threads[u].local| && b[k].threads[u].local[y] == d {
      LocalOwned(b[k].threads[u], y);
    }
  }

  /** The first pass makes room for all hazard pointers, and the second never copies more. */
  lemma BufferFits(b: seq<State>, es: seq<Event>, k: nat, t: nat)
    requires Run(b, es) && Start(b[0]) && k < |b| && t < |b[k].threads|
    ensures var th := b[k].threads[t];
            th.pc.CopySlot? ==> th.n <= |b[k].mem.pools| && |th.buf| <= th.size == Total(b[k].mem, th.n)
  {
    RunInv(b, es, k);
    var th := b[k].threads[t];
    if th.pc.CopySlot? && th.pc.i > 0 {
      assert Total(b[k].mem, th.pc.i) == Total(b[k].mem, th.pc.i - 1) + |b[k].mem.pools[th.pc.i - 1]|;
    }
  }
}
