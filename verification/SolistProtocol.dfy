// The lock-free protocol of the list (solist.hpp:239-248, 397-565): any number of
// threads insert, delete and look up, one shared load, store or
// compare-and-swap at a time, in any interleaving.
//
// The number of buckets is fixed and every bucket is initialised; memory is
// never reused.  A walk ignores marks and may pass through nodes that were
// unlinked under it.

module SolistProtocol {
  import opened Powers
  import opened SplitOrder
  import opened MarkPtr
  import opened Options
  import opened LinkedHeap

  datatype Kind = Insert | Delete | Find

  /** What a thread does next; each step is one access to shared memory. */
  datatype Pc =
    | Idle
    | Seek      // find_node: load the bucket
    | Read      // find_node: load cur->next, then advance or stop
    | LinkNew   // insert_node: dnode->next = next
    | Publish   // insert_node: cur->next.CAS(next, dnode)
    | SetMark   // delete_node: cur->next.CAS(next, next, true)
    | Unlink    // delete_node: prev->next.CAS(cur, next)
    | Done(result: bool)

  datatype Thread = Thread(pc: Pc, kind: Kind, hash: nat, dnode: nat, prev: nat, cur: nat, next: Option<nat>)

  datatype State = State(heap: Heap, bits: nat, buckets: seq<nat>, threads: seq<Thread>)

  // ---- steps ----

  ghost predicate HashOk(kind: Kind, hash: nat) {
    hash < Pow2(32) && (kind.Insert? ==> hash < Pow2(31))
  }

  /** The addresses the next step of `th` goes through are those of allocated nodes. */
  ghost predicate Addressable(s: State, th: Thread) {
    && HashOk(th.kind, th.hash)
    && s.bits <= 31 && |s.buckets| == Pow2(s.bits)
    && (th.kind.Insert? && (th.pc.LinkNew? || th.pc.Publish?) ==> th.dnode < |s.heap|)
    && (th.pc.Read? ==> th.cur < |s.heap| && CellOk(s.heap, th.cur))
    && (th.pc.Publish? || th.pc.SetMark? ==> th.cur < |s.heap|)
    && (th.pc.LinkNew? || th.pc.Publish? ==> th.dnode < |s.heap|)
    && (th.pc.Unlink? ==> th.prev < |s.heap|)
  }

  function CasCell(h: Heap, u: nat, expected: Link, desired: Link): (r: (Heap, bool))
    requires u < |h|
    ensures |r.0| == |h|
  {
    var (w, ok) := Cas(h[u].next, expected, desired);
    if ok then (SetNext(h, u, w), true) else (h, false)
  }

  function Published(h: Heap, u: nat): (g: Heap)
    requires u < |h|
    ensures |g| == |h|
  {
    h[u := h[u].(published := true)]
  }

  /** Where a walk that stopped at `cur` goes on, by operation. */
  function Verdict(kind: Kind, found: bool): Pc {
    match kind
    case Insert => if found then Done(false) else LinkNew
    case Delete => if found then Pc.SetMark else Done(false)
    case Find => Done(found)
  }

  ghost function ReadStep(h: Heap, th: Thread): Thread
    requires HashOk(th.kind, th.hash) && th.cur < |h| && CellOk(h, th.cur)
  {
    var n, key := h[th.cur].next.ptr, NodeKey(th.hash);
    if n.Some? && h[n.value].key <= key
    then th.(next := n, prev := th.cur, cur := n.value)
    else th.(next := n, pc := Verdict(th.kind, h[th.cur].key == key))
  }

  /** The new memory and thread record after one step of a thread inside an operation. */
  ghost function StepOf(s: State, th: Thread): (r: (Heap, Thread))
    requires Addressable(s, th) && !th.pc.Idle?
  {
    var h := s.heap;
    match th.pc
    case Seek =>
      var b := s.buckets[SlotOf(th.hash, s.bits)];
      (h, th.(pc := Read, prev := b, cur := b))
    case Read =>
      (h, ReadStep(h, th))
    case LinkNew =>
      (SetNext(h, th.dnode, MarkedPtr(th.next, h[th.dnode].next.mark)), th.(pc := Publish))
    case Publish =>
      var (g, ok) := CasCell(h, th.cur, MarkedPtr(th.next, false), MarkedPtr(Some(th.dnode), false));
      if ok then (Published(g, th.dnode), th.(pc := Done(true))) else (g, th.(pc := Seek))
    case SetMark =>
      var (g, ok) := CasCell(h, th.cur, MarkedPtr(th.next, false), MarkedPtr(th.next, true));
      (g, th.(pc := if ok then Unlink else Seek))
    case Unlink =>
      var (g, ok) := CasCell(h, th.prev, MarkedPtr(Some(th.cur), false), MarkedPtr(th.next, false));
      (g, th.(pc := if ok then Done(true) else Seek))
    case Done(_) =>
      (h, th.(pc := Idle))
  }

  /** Starting an operation; insert allocates its node first. */
  ghost function BeginOf(s: State, th: Thread, kind: Kind, hash: nat): (Heap, Thread)
    requires HashOk(kind, hash)
  {
    var begun := Thread(Seek, kind, hash, |s.heap|, 0, 0, None);
    if kind.Insert?
    then (s.heap + [Cell(NodeKey(hash), MarkedPtr(None, false), false)], begun)
    else (s.heap, begun)
  }

  ghost function With(s: State, t: nat, r: (Heap, Thread)): State
    requires t < |s.threads|
  {
    s.(heap := r.0, threads := s.threads[t := r.1])
  }

  ghost predicate Begins(s: State, t: nat, s': State, kind: Kind, hash: nat)
    requires t < |s.threads|
  {
    HashOk(kind, hash) && s' == With(s, t, BeginOf(s, s.threads[t], kind, hash))
  }

  ghost predicate Step(s: State, t: nat, s': State) {
    && t < |s.threads|
    && var th := s.threads[t];
    if th.pc.Idle?
    then exists kind, hash: nat :: Begins(s, t, s', kind, hash)
    else Addressable(s, th) && s' == With(s, t, StepOf(s, th))
  }

  ghost predicate Next(s: State, s': State) {
    exists t: nat :: Step(s, t, s')
  }

  // ---- the invariant ----

  ghost predicate Linked(h: Heap, u: nat)
    requires HeapOk(h) && 0 < |h|
  {
    u in Reach(h, 0)
  }

  ghost predicate CellInv(h: Heap, u: nat)
    requires HeapOk(h) && 0 < |h| && u < |h|
  {
    && (Linked(h, u) ==> h[u].published)
    && (h[u].published && !Linked(h, u) ==> h[u].next.mark)
    && (h[u].published && h[u].next.ptr.Some? && h[u].next.ptr.value < |h| ==> h[h[u].next.ptr.value].published)
    && (h[u].key % 2 == 0 || !h[u].published ==> !h[u].next.mark)
  }

  /** A published node that is out of reach is marked; bucket nodes are never marked. */
  ghost predicate HeapInv(h: Heap) {
    && HeapOk(h) && 0 < |h| && h[0].key == 0
    && forall u: nat | u < |h| :: CellInv(h, u)
  }

  ghost predicate BucketsInv(s: State) {
    && s.bits <= 31 && |s.buckets| == Pow2(s.bits) <= Pow2(31)
    && forall slot: nat | slot < |s.buckets| ::
         s.buckets[slot] < |s.heap| && s.heap[s.buckets[slot]].published && s.heap[s.buckets[slot]].key == BucketKey(slot)
  }

  predicate Pub(h: Heap, u: nat) {
    u < |h| && h[u].published
  }

  predicate NextAbove(h: Heap, next: Option<nat>, key: nat) {
    next.Some? ==> Pub(h, next.value) && h[next.value].key > key
  }

  /** An insert that still holds its node privately. */
  predicate Owns(th: Thread) {
    th.kind.Insert? && (th.pc.Seek? || th.pc.Read? || th.pc.LinkNew? || th.pc.Publish?)
  }

  ghost predicate ThreadInv(h: Heap, th: Thread) {
    !th.pc.Idle? ==>
      && HashOk(th.kind, th.hash)
      && var key := NodeKey(th.hash);
      && (Owns(th) ==> th.dnode < |h| && !h[th.dnode].published && h[th.dnode].key == key)
      && match th.pc
         case Read =>
           Pub(h, th.cur) && h[th.cur].key <= key && Pub(h, th.prev) && h[th.prev].key < key
         case LinkNew =>
           th.kind.Insert? && Pub(h, th.cur) && h[th.cur].key < key && NextAbove(h, th.next, key)
         case Publish =>
           && th.kind.Insert? && Pub(h, th.cur) && h[th.cur].key < key && NextAbove(h, th.next, key)
           && h[th.dnode].next == MarkedPtr(th.next, false)
         case SetMark =>
           && th.kind.Delete? && Pub(h, th.cur) && h[th.cur].key == key && NextAbove(h, th.next, key)
           && Pub(h, th.prev) && h[th.prev].key < key
         case Unlink =>
           && th.kind.Delete? && Pub(h, th.cur) && h[th.cur].key == key && NextAbove(h, th.next, key)
           && Pub(h, th.prev) && h[th.prev].key < key
           && h[th.cur].next == MarkedPtr(th.next, true)
         case _ => true
  }

  ghost predicate Inv(s: State) {
    && HeapInv(s.heap)
    && BucketsInv(s)
    && (forall t: nat | t < |s.threads| :: ThreadInv(s.heap, s.threads[t]))
    && (forall t: nat, r: nat | t < r < |s.threads| ::
          Owns(s.threads[t]) && Owns(s.threads[r]) ==> s.threads[t].dnode != s.threads[r].dnode)
  }

  /** The keys in the list: those of the data nodes a walk from the head visits. */
  ghost function Keys(h: Heap): set<nat>
    requires HeapOk(h) && 0 < |h|
  {
    set u | u in Reach(h, 0) && u < |h| && h[u].key % 2 == 1 :: h[u].key
  }

  lemma KeysHas(h: Heap, key: nat) returns (u: nat)
    requires HeapOk(h) && 0 < |h| && key in Keys(h)
    ensures Linked(h, u) && u < |h| && h[u].key == key
  {
    u :| u in Reach(h, 0) && u < |h| && h[u].key % 2 == 1 && h[u].key == key;
  }

  lemma KeysOf(h: Heap, u: nat)
    requires HeapOk(h) && 0 < |h| && u < |h| && Linked(h, u) && h[u].key % 2 == 1
    ensures h[u].key in Keys(h)
  {
  }

  /** A linked `cur` below `key` whose link jumps above it proves `key` absent. */
  lemma GapMeansAbsent(h: Heap, cur: nat, key: nat)
    requires HeapOk(h) && 0 < |h| && cur < |h| && Linked(h, cur) && h[cur].key < key
    requires h[cur].next.ptr.None? || (h[cur].next.ptr.value < |h| && h[h[cur].next.ptr.value].key > key)
    ensures key !in Keys(h)
  {
    if key in Keys(h) {
      var u := KeysHas(h, key);
      ReachGap(h, 0, cur, u);
    }
  }

  // ---- how memory may change ----

  /** Nodes keep their keys, stay published, stay frozen once marked; private nodes
      other than `x` are untouched. */
  ghost predicate Evolves(h: Heap, g: Heap, x: nat) {
    && |h| <= |g|
    && forall u: nat | u < |h| ::
         && g[u].key == h[u].key
         && (h[u].published ==> g[u].published)
         && (h[u].next.mark ==> g[u].next == h[u].next)
         && (!h[u].published && u != x ==> g[u] == h[u])
  }

  lemma ThreadStable(h: Heap, g: Heap, x: nat, th: Thread)
    requires ThreadInv(h, th) && Evolves(h, g, x) && (Owns(th) ==> th.dnode != x)
    ensures ThreadInv(g, th)
  {
  }

  lemma BucketsStable(s: State, s': State, x: nat)
    requires BucketsInv(s) && Evolves(s.heap, s'.heap, x) && s'.bits == s.bits && s'.buckets == s.buckets
    ensures BucketsInv(s')
  {
  }

  // ---- the five changes of memory ----

  lemma SameWalk(h: Heap, g: Heap)
    requires HeapInv(h) && HeapOk(g) && |h| <= |g|
    requires forall u: nat | u < |h| && h[u].published :: g[u].next.ptr == h[u].next.ptr && g[u].key == h[u].key
    ensures Reach(g, 0) == Reach(h, 0) && Keys(g) == Keys(h)
  {
    forall v: nat | v < |h| && v in Reach(h, 0)
      ensures g[v].next.ptr == h[v].next.ptr && g[v].key == h[v].key
    {
      assert CellInv(h, v);
    }
    ReachFrame(h, g, 0);
    SameKeys(h, g);
  }

  lemma SameKeys(h: Heap, g: Heap)
    requires HeapInv(h) && HeapOk(g) && |h| <= |g| && Reach(g, 0) == Reach(h, 0)
    requires forall u: nat | u < |h| && u in Reach(h, 0) :: g[u].key == h[u].key
    ensures Keys(g) == Keys(h)
  {
    forall key | key in Keys(g)
      ensures key in Keys(h)
    {
      var u := KeysHas(g, key);
      ReachAbove(h, 0, u);
      KeysOf(h, u);
    }
    forall key | key in Keys(h)
      ensures key in Keys(g)
    {
      var u := KeysHas(h, key);
      KeysOf(g, u);
    }
  }

  lemma Allocate(h: Heap, key: nat)
    requires HeapInv(h) && key < KEYS
    ensures var g := h + [Cell(key, MarkedPtr(None, false), false)];
            HeapInv(g) && Evolves(h, g, |h|) && Reach(g, 0) == Reach(h, 0) && Keys(g) == Keys(h)
  {
    var g := h + [Cell(key, MarkedPtr(None, false), false)];
    forall u: nat | u < |g|
      ensures CellOk(g, u)
    {
      assert u < |h| ==> CellOk(h, u) && g[u] == h[u];
    }
    SameWalk(h, g);
    if |h| in Reach(h, 0) {
      ReachAbove(h, 0, |h|);
    }
    forall u: nat | u < |g|
      ensures CellInv(g, u)
    {
      if u < |h| {
        assert CellInv(h, u) && CellOk(h, u);
      }
    }
  }

  /** Redirecting a private node. */
  lemma LinkPrivate(h: Heap, d: nat, next: Option<nat>)
    requires HeapInv(h) && d < |h| && !h[d].published && NextAbove(h, next, h[d].key)
    ensures var g := SetNext(h, d, MarkedPtr(next, h[d].next.mark));
            HeapInv(g) && Evolves(h, g, d) && Reach(g, 0) == Reach(h, 0) && Keys(g) == Keys(h)
  {
    var g := SetNext(h, d, MarkedPtr(next, h[d].next.mark));
    assert CellInv(h, d);
    forall u: nat | u < |g|
      ensures CellOk(g, u)
    {
      assert CellOk(h, u);
    }
    SameWalk(h, g);
    forall u: nat | u < |g|
      ensures CellInv(g, u)
    {
      assert CellInv(h, u) && CellOk(h, u);
    }
  }

  /** Marking a published data node. */
  lemma MarkNode(h: Heap, u: nat)
    requires HeapInv(h) && Pub(h, u) && !h[u].next.mark && h[u].key % 2 == 1
    ensures var g := SetNext(h, u, MarkedPtr(h[u].next.ptr, true));
            HeapInv(g) && Evolves(h, g, |h|) && Reach(g, 0) == Reach(h, 0) && Keys(g) == Keys(h)
  {
    var g := SetNext(h, u, MarkedPtr(h[u].next.ptr, true));
    forall v: nat | v < |g|
      ensures CellOk(g, v)
    {
      assert CellOk(h, v);
    }
    SameWalk(h, g);
    forall v: nat | v < |g|
      ensures CellInv(g, v)
    {
      assert CellInv(h, v) && CellOk(h, v);
    }
  }

  lemma PublishedWalk(h: Heap, d: nat)
    requires HeapOk(h) && 0 < |h| && d < |h|
    ensures HeapOk(Published(h, d)) && Reach(Published(h, d), 0) == Reach(h, 0)
  {
    var g := Published(h, d);
    forall v: nat | v < |g|
      ensures CellOk(g, v)
    {
      assert CellOk(h, v);
    }
    ReachFrame(h, g, 0);
  }

  /** The successful compare-and-swap of an insert adds exactly its own, absent, key. */
  lemma PublishNode(h: Heap, cur: nat, d: nat)
    requires HeapInv(h) && Pub(h, cur) && !h[cur].next.mark
    requires d < |h| && !h[d].published && h[d].key % 2 == 1
    requires h[cur].key < h[d].key && h[d].next == h[cur].next && NextAbove(h, h[d].next.ptr, h[d].key)
    ensures var g := Published(SetNext(h, cur, MarkedPtr(Some(d), false)), d);
            && HeapInv(g) && Evolves(h, g, d)
            && Reach(g, 0) == Reach(h, 0) + {d}
            && h[d].key !in Keys(h) && Keys(g) == Keys(h) + {h[d].key}
  {
    var f := SetNext(h, cur, MarkedPtr(Some(d), false));
    var g := Published(f, d);
    assert CellInv(h, cur) && CellInv(h, d);
    forall v: nat | v < |f|
      ensures CellOk(f, v)
    {
      assert CellOk(h, v);
    }
    ReachInsert(h, 0, cur, d, false);
    PublishedWalk(f, d);
    GapMeansAbsent(h, cur, h[d].key);
    PublishedCells(h, cur, d);
    AddedKey(h, g, d);
  }

  lemma PublishedCells(h: Heap, cur: nat, d: nat)
    requires HeapInv(h) && Pub(h, cur) && !h[cur].next.mark
    requires d < |h| && !h[d].published && h[d].next == h[cur].next && d != cur
    requires HeapOk(Published(SetNext(h, cur, MarkedPtr(Some(d), false)), d))
    requires Reach(Published(SetNext(h, cur, MarkedPtr(Some(d), false)), d), 0) == Reach(h, 0) + {d}
    ensures HeapInv(Published(SetNext(h, cur, MarkedPtr(Some(d), false)), d))
  {
    var g := Published(SetNext(h, cur, MarkedPtr(Some(d), false)), d);
    assert CellInv(h, cur) && CellInv(h, d);
    forall v: nat | v < |g|
      ensures CellInv(g, v)
    {
      assert CellInv(h, v) && CellOk(h, v);
    }
  }

  lemma AddedKey(h: Heap, g: Heap, d: nat)
    requires HeapOk(h) && HeapOk(g) && 0 < |h| == |g| && d < |h| && h[d].key % 2 == 1
    requires Reach(g, 0) == Reach(h, 0) + {d}
    requires forall u: nat | u < |h| :: g[u].key == h[u].key
    ensures Keys(g) == Keys(h) + {h[d].key}
  {
    forall key | key in Keys(g)
      ensures key in Keys(h) + {h[d].key}
    {
      var u := KeysHas(g, key);
      if u != d {
        KeysOf(h, u);
      }
    }
    forall key | key in Keys(h)
      ensures key in Keys(g)
    {
      var u := KeysHas(h, key);
      KeysOf(g, u);
    }
    KeysOf(g, d);
  }

  /** The successful unlink of a marked node removes exactly that node and its key. */
  lemma UnlinkNode(h: Heap, prev: nat, cur: nat)
    requires HeapInv(h) && Pub(h, prev) && Pub(h, cur) && h[prev].key < h[cur].key && h[cur].key % 2 == 1
    requires h[prev].next == MarkedPtr(Some(cur), false) && h[cur].next.mark
    ensures var g := SetNext(h, prev, MarkedPtr(h[cur].next.ptr, false));
            && HeapInv(g) && Evolves(h, g, |h|)
            && Linked(h, cur) && Reach(g, 0) == Reach(h, 0) - {cur}
            && h[cur].key in Keys(h) && Keys(g) == Keys(h) - {h[cur].key}
  {
    var g := SetNext(h, prev, MarkedPtr(h[cur].next.ptr, false));
    assert CellInv(h, prev) && CellInv(h, cur) && CellOk(h, cur);
    forall v: nat | v < |g|
      ensures CellOk(g, v)
    {
      assert CellOk(h, v);
    }
    ReachNext(h, 0, prev);
    ReachUnlink(h, 0, prev, cur, false);
    forall v: nat | v < |g|
      ensures CellInv(g, v)
    {
      assert CellInv(h, v) && CellOk(h, v);
    }
    RemovedKey(h, g, cur);
  }

  lemma RemovedKey(h: Heap, g: Heap, c: nat)
    requires HeapOk(h) && HeapOk(g) && 0 < |h| == |g| && c < |h| && h[c].key % 2 == 1
    requires c in Reach(h, 0) && Reach(g, 0) == Reach(h, 0) - {c}
    requires forall u: nat | u < |h| :: g[u].key == h[u].key
    ensures h[c].key in Keys(h) && Keys(g) == Keys(h) - {h[c].key}
  {
    KeysOf(h, c);
    forall key | key in Keys(g)
      ensures key in Keys(h) && key != h[c].key
    {
      var u := KeysHas(g, key);
      KeysOf(h, u);
      ReachGap(h, 0, u, c);
    }
    forall key | key in Keys(h) && key != h[c].key
      ensures key in Keys(g)
    {
      var u := KeysHas(h, key);
      KeysOf(g, u);
    }
  }

  // ---- every step keeps the invariant ----

  /** What one step of `th`, ending as `th'`, does to the list. */
  ghost predicate Effect(h: Heap, g: Heap, th: Thread, th': Thread)
    requires HeapOk(h) && HeapOk(g) && 0 < |h| && 0 < |g|
    requires !th.pc.Idle? ==> HashOk(th.kind, th.hash)
  {
    if th.pc.Publish? && th'.pc.Done? then
      && Reach(g, 0) == Reach(h, 0) + {th.dnode}
      && NodeKey(th.hash) !in Keys(h) && Keys(g) == Keys(h) + {NodeKey(th.hash)}
    else if th.pc.Unlink? && th'.pc.Done? then
      && th.cur in Reach(h, 0) && Reach(g, 0) == Reach(h, 0) - {th.cur}
      && NodeKey(th.hash) in Keys(h) && Keys(g) == Keys(h) - {NodeKey(th.hash)}
    else
      Reach(g, 0) == Reach(h, 0) && Keys(g) == Keys(h)
  }

  /** A step's outcome: memory and own record are fine, others are not disturbed. */
  ghost predicate Good(h: Heap, th: Thread, r: (Heap, Thread))
    requires HeapOk(h) && 0 < |h|
    requires !th.pc.Idle? ==> HashOk(th.kind, th.hash)
  {
    var (g, th') := r;
    && HeapInv(g)
    && Evolves(h, g, if Owns(th) then th.dnode else |h|)
    && ThreadInv(g, th')
    && (Owns(th') ==> th'.dnode == |h| || (Owns(th) && th'.dnode == th.dnode))
    && Effect(h, g, th, th')
  }

  lemma EvolvesSame(h: Heap, x: nat)
    ensures Evolves(h, h, x)
  {
  }

  lemma NodeKeyBelowLimit(hash: nat)
    requires hash < Pow2(32)
    ensures NodeKey(hash) < KEYS
  {
    Pow2Values();
  }

  lemma BeginGood(s: State, th: Thread, kind: Kind, hash: nat)
    requires Inv(s) && HashOk(kind, hash) && th.pc.Idle?
    ensures Good(s.heap, th, BeginOf(s, th, kind, hash))
  {
    if kind.Insert? {
      NodeKeyBelowLimit(hash);
      Allocate(s.heap, NodeKey(hash));
    } else {
      EvolvesSame(s.heap, |s.heap|);
    }
  }

  lemma SeekGood(s: State, th: Thread)
    requires Inv(s) && ThreadInv(s.heap, th) && Addressable(s, th) && th.pc.Seek?
    ensures Good(s.heap, th, StepOf(s, th))
  {
    EvolvesSame(s.heap, if Owns(th) then th.dnode else |s.heap|);
    KeyInInterval(th.hash, s.bits);
  }

  lemma ReadGood(s: State, th: Thread)
    requires Inv(s) && ThreadInv(s.heap, th) && Addressable(s, th) && th.pc.Read?
    ensures Good(s.heap, th, StepOf(s, th))
  {
    var h := s.heap;
    EvolvesSame(h, if Owns(th) then th.dnode else |h|);
    assert CellOk(h, th.cur) && CellInv(h, th.cur);
  }

  lemma LinkNewGood(s: State, th: Thread)
    requires Inv(s) && ThreadInv(s.heap, th) && Addressable(s, th) && th.pc.LinkNew?
    ensures Good(s.heap, th, StepOf(s, th))
  {
    assert CellInv(s.heap, th.dnode);
    LinkPrivate(s.heap, th.dnode, th.next);
  }

  lemma PublishGood(s: State, th: Thread)
    requires Inv(s) && ThreadInv(s.heap, th) && Addressable(s, th) && th.pc.Publish?
    ensures Good(s.heap, th, StepOf(s, th))
  {
    var h := s.heap;
    EvolvesSame(h, th.dnode);
    if h[th.cur].next == MarkedPtr(th.next, false) {
      PublishNode(h, th.cur, th.dnode);
    }
  }

  lemma SetMarkGood(s: State, th: Thread)
    requires Inv(s) && ThreadInv(s.heap, th) && Addressable(s, th) && th.pc.SetMark?
    ensures Good(s.heap, th, StepOf(s, th))
  {
    var h := s.heap;
    EvolvesSame(h, |h|);
    if h[th.cur].next == MarkedPtr(th.next, false) {
      MarkNode(h, th.cur);
    }
  }

  lemma UnlinkGood(s: State, th: Thread)
    requires Inv(s) && ThreadInv(s.heap, th) && Addressable(s, th) && th.pc.Unlink?
    ensures Good(s.heap, th, StepOf(s, th))
  {
    var h := s.heap;
    EvolvesSame(h, |h|);
    if h[th.prev].next == MarkedPtr(Some(th.cur), false) {
      UnlinkNode(h, th.prev, th.cur);
    }
  }

  lemma StepGood(s: State, th: Thread)
    requires Inv(s) && ThreadInv(s.heap, th) && Addressable(s, th) && !th.pc.Idle?
    ensures Good(s.heap, th, StepOf(s, th))
  {
    match th.pc
    case Seek => SeekGood(s, th);
    case Read => ReadGood(s, th);
    case LinkNew => LinkNewGood(s, th);
    case Publish => PublishGood(s, th);
    case SetMark => SetMarkGood(s, th);
    case Unlink => UnlinkGood(s, th);
    case Done(_) => EvolvesSame(s.heap, |s.heap|);
  }

  /** If one thread's step is good, the whole system keeps its invariant. */
  lemma GoodKeepsInv(s: State, t: nat, r: (Heap, Thread))
    requires Inv(s) && t < |s.threads| && Good(s.heap, s.threads[t], r)
    ensures Inv(With(s, t, r))
  {
    var s' := With(s, t, r);
    var th := s.threads[t];
    var x := if Owns(th) then th.dnode else |s.heap|;
    BucketsStable(s, s', x);
    forall q: nat | q < |s'.threads|
      ensures ThreadInv(s'.heap, s'.threads[q])
    {
      if q != t {
        ThreadStable(s.heap, s'.heap, x, s.threads[q]);
      }
    }
  }

  /** The invariant, and what the step did, for any step of any thread. */
  lemma StepKeepsInv(s: State, t: nat, s': State)
    requires Inv(s) && Step(s, t, s')
    ensures Inv(s') && Effect(s.heap, s'.heap, s.threads[t], s'.threads[t])
  {
    var th := s.threads[t];
    if th.pc.Idle? {
      var kind, hash: nat :| Begins(s, t, s', kind, hash);
      BeginGood(s, th, kind, hash);
      GoodKeepsInv(s, t, BeginOf(s, th, kind, hash));
    } else {
      StepGood(s, th);
      GoodKeepsInv(s, t, StepOf(s, th));
    }
  }

  /** No step ever goes through an address that is not an allocated node: nothing is stuck. */
  lemma NeverStuck(s: State, t: nat)
    requires Inv(s) && t < |s.threads| && !s.threads[t].pc.Idle?
    ensures Addressable(s, s.threads[t]) && Step(s, t, With(s, t, StepOf(s, s.threads[t])))
  {
    var th := s.threads[t];
    assert ThreadInv(s.heap, th);
    if th.pc.Read? {
      assert CellOk(s.heap, th.cur);
    }
  }

  // ---- runs ----

  /** A well-formed list with every bucket in place and no operation under way. */
  ghost predicate Init(s: State) {
    && HeapInv(s.heap) && BucketsInv(s)
    && forall t: nat | t < |s.threads| :: s.threads[t].pc.Idle?
  }

  ghost predicate Behavior(b: seq<State>) {
    && 0 < |b| && Init(b[0])
    && forall i: nat | i + 1 < |b| :: Next(b[i], b[i + 1])
  }

  lemma {:induction false} BehaviorInv(b: seq<State>, i: nat)
    requires Behavior(b) && i < |b|
    ensures Inv(b[i]) && |b[i].threads| == |b[0].threads|
  {
    if i > 0 {
      BehaviorInv(b, i - 1);
      assert Next(b[i - 1], b[i - 1 + 1]);
      var t: nat :| Step(b[i - 1], t, b[i]);
      StepKeepsInv(b[i - 1], t, b[i]);
    }
  }

  lemma StepAt(b: seq<State>, i: nat) returns (q: nat)
    requires Behavior(b) && i + 1 < |b|
    ensures Inv(b[i]) && Inv(b[i + 1]) && Step(b[i], q, b[i + 1])
    ensures Effect(b[i].heap, b[i + 1].heap, b[i].threads[q], b[i + 1].threads[q])
    ensures q < |b[i].threads| == |b[i + 1].threads| == |b[0].threads|
  {
    BehaviorInv(b, i);
    BehaviorInv(b, i + 1);
    assert Next(b[i], b[i + 1]);
    q :| Step(b[i], q, b[i + 1]);
    StepKeepsInv(b[i], q, b[i + 1]);
  }

  /** States `lo` to `hi` lie within one call of thread `t`, whose search starts, maybe again, at `lo`. */
  ghost predicate Searching(b: seq<State>, t: nat, lo: nat, hi: nat) {
    && Behavior(b) && lo <= hi < |b| && t < |b[0].threads|
    && (forall i: nat | lo <= i <= hi :: t < |b[i].threads| && !b[i].threads[t].pc.Idle?)
    && b[lo].threads[t].pc.Seek?
  }

  /** States `lo` to `hi` lie within one call of thread `t`, `lo` being its first. */
  ghost predicate InCall(b: seq<State>, t: nat, lo: nat, hi: nat) {
    Searching(b, t, lo, hi) && (lo > 0 ==> t < |b[lo - 1].threads| && b[lo - 1].threads[t].pc.Idle?)
  }

  /** A call keeps its operation and its hash. */
  lemma {:induction false} CallFixed(b: seq<State>, t: nat, lo: nat, hi: nat)
    requires Searching(b, t, lo, hi)
    ensures b[hi].threads[t].kind == b[lo].threads[t].kind && b[hi].threads[t].hash == b[lo].threads[t].hash
    decreases hi
  {
    hide Behavior, Inv, Step, Effect;
    if hi > lo {
      CallFixed(b, t, lo, hi - 1);
      var q := StepAt(b, hi - 1);
      RecordAfter(b[hi - 1], q, b[hi], t);
    }
  }

  /** A step leaves other threads alone and does not change its own operation. */
  lemma RecordAfter(s: State, q: nat, s': State, t: nat)
    requires Step(s, q, s') && t < |s.threads|
    ensures t < |s'.threads|
    ensures q != t ==> s'.threads[t] == s.threads[t]
    ensures !s.threads[t].pc.Idle? ==> s'.threads[t].kind == s.threads[t].kind && s'.threads[t].hash == s.threads[t].hash
  {
  }

  /** A node that was linked when last changed: if it left the list since, its link is frozen. */
  lemma {:induction false} LinkWhileLinked(b: seq<State>, m0: nat, j: nat, u: nat) returns (m: nat)
    requires Behavior(b) && m0 <= j < |b|
    requires Inv(b[m0]) && Linked(b[m0].heap, u)
    ensures m0 <= m <= j && Inv(b[m]) && Linked(b[m].heap, u)
    ensures u < |b[m].heap| && u < |b[j].heap| && b[m].heap[u].next.ptr == b[j].heap[u].next.ptr
    ensures b[m].heap[u].key == b[j].heap[u].key && b[j].heap[u].published
    decreases j
  {
    hide Behavior, Step, Effect, HashOk;
    BehaviorInv(b, j);
    if j == m0 {
      m := j;
      ReachAbove(b[j].heap, 0, u);
      assert CellInv(b[j].heap, u);
    } else {
      m := LinkWhileLinked(b, m0, j - 1, u);
      var q := StepAt(b, j - 1);
      StepEvolves(b[j - 1], q, b[j]);
      if Linked(b[j].heap, u) {
        m := j;
      } else {
        LeavingFreezes(b[j - 1], q, b[j], u);
      }
    }
  }

  lemma StepEvolves(s: State, t: nat, s': State)
    requires Inv(s) && Step(s, t, s')
    ensures |s.heap| <= |s'.heap|
    ensures forall u: nat | u < |s.heap| :: s'.heap[u].key == s.heap[u].key && (s.heap[u].published ==> s'.heap[u].published)
    ensures forall u: nat | u < |s.heap| && s.heap[u].next.mark :: s'.heap[u].next == s.heap[u].next
  {
    var th := s.threads[t];
    if th.pc.Idle? {
      var kind, hash: nat :| Begins(s, t, s', kind, hash);
      BeginGood(s, th, kind, hash);
    } else {
      StepGood(s, th);
    }
  }

  /** The step after which a published node is out of reach does not touch that node's link. */
  lemma LeavingFreezes(s: State, t: nat, s': State, u: nat)
    requires Inv(s) && Inv(s') && Step(s, t, s') && u < |s.heap| <= |s'.heap| && s.heap[u].published
    requires Effect(s.heap, s'.heap, s.threads[t], s'.threads[t])
    requires !Linked(s'.heap, u)
    ensures s'.heap[u].next.ptr == s.heap[u].next.ptr
  {
    assert CellInv(s.heap, u);
    if s.heap[u].next.mark {
      StepEvolves(s, t, s');
    }
  }

  /** Wherever a walk stands, that node was in the list at some moment of the call. */
  lemma {:induction false} CurWasLinked(b: seq<State>, t: nat, lo: nat, j: nat) returns (m: nat)
    requires Searching(b, t, lo, j) && b[j].threads[t].pc.Read?
    ensures lo <= m <= j && Inv(b[m]) && Linked(b[m].heap, b[j].threads[t].cur)
    decreases j
  {
    hide Behavior, Inv, Step, Effect, HashOk, HeapInv, CellOk;
    var q := StepAt(b, j - 1);
    RecordAfter(b[j - 1], q, b[j], t);
    if q != t {
      m := CurWasLinked(b, t, lo, j - 1);
    } else {
      var u := ReachedFrom(b[j - 1], t, b[j]);
      if u.None? {
        m := j;
      } else {
        var m0 := CurWasLinked(b, t, lo, j - 1);
        m := LinkWhileLinked(b, m0, j - 1, u.value);
        LinkedOk(b[m]);
        ReachNext(b[m].heap, 0, u.value);
      }
    }
  }

  /** A walk that has moved off its bucket, or a delete that has found its node. */
  predicate Past(th: Thread) {
    (th.pc.Read? && th.prev != th.cur) || th.pc.SetMark? || th.pc.Unlink?
  }

  /** Its predecessor was in the list, with a link to where it stands, at some moment of the call. */
  lemma {:induction false} PrevWasLinked(b: seq<State>, t: nat, lo: nat, j: nat) returns (m: nat)
    requires Searching(b, t, lo, j) && Past(b[j].threads[t])
    ensures lo <= m <= j && Inv(b[m]) && Linked(b[m].heap, b[j].threads[t].prev)
    ensures b[j].threads[t].prev < |b[m].heap|
    ensures b[m].heap[b[j].threads[t].prev].next.ptr == Some(b[j].threads[t].cur)
    decreases j
  {
    hide Behavior, Inv, Step, Effect, HashOk, HeapInv, CellOk;
    var q := StepAt(b, j - 1);
    RecordAfter(b[j - 1], q, b[j], t);
    if q != t {
      m := PrevWasLinked(b, t, lo, j - 1);
    } else {
      var moved := PastFrom(b[j - 1], t, b[j]);
      if moved {
        var m0 := CurWasLinked(b, t, lo, j - 1);
        m := LinkWhileLinked(b, m0, j - 1, b[j].threads[t].prev);
      } else {
        m := PrevWasLinked(b, t, lo, j - 1);
      }
    }
  }

  /** A walk gets past its bucket by a link it has read, and then keeps both ends of it. */
  lemma PastFrom(s: State, t: nat, s': State) returns (moved: bool)
    requires Inv(s) && Inv(s') && Step(s, t, s') && t < |s.threads| && t < |s'.threads|
    requires !s.threads[t].pc.Idle? && Past(s'.threads[t])
    ensures var th, th' := s.threads[t], s'.threads[t];
            if moved
            then th.pc.Read? && th'.prev == th.cur < |s.heap| && s.heap[th.cur].next.ptr == Some(th'.cur)
            else Past(th) && th'.prev == th.prev && th'.cur == th.cur
  {
    var th, th' := s.threads[t], s'.threads[t];
    assert ThreadInv(s'.heap, th');
    moved := th.pc.Read? && th'.pc.Read?;
  }

  lemma LinkedOk(s: State)
    requires Inv(s)
    ensures HeapOk(s.heap) && 0 < |s.heap|
  {
  }

  /** A walk's new position is a bucket, or what its last position links to. */
  lemma ReachedFrom(s: State, t: nat, s': State) returns (u: Option<nat>)
    requires Inv(s) && Inv(s') && Step(s, t, s') && t < |s.threads| && t < |s'.threads|
    requires !s.threads[t].pc.Idle? && s'.threads[t].pc.Read?
    ensures u.None? ==> Linked(s'.heap, s'.threads[t].cur)
    ensures u.Some? ==> s.threads[t].pc.Read? && u.value == s.threads[t].cur && u.value < |s.heap|
                        && s.heap[u.value].next.ptr == Some(s'.threads[t].cur)
  {
    var th := s.threads[t];
    if th.pc.Seek? {
      u := None;
      BucketLinked(s, SlotOf(th.hash, s.bits));
    } else {
      u := Some(th.cur);
    }
  }

  /** Bucket nodes never leave the list. */
  lemma BucketLinked(s: State, slot: nat)
    requires Inv(s) && slot < |s.buckets|
    ensures Linked(s.heap, s.buckets[slot])
  {
    hide Pow2, BucketKey, ThreadInv, CellOk;
    BucketKeyEven(slot);
    assert CellInv(s.heap, s.buckets[slot]);
  }

  ghost predicate PresentAt(b: seq<State>, m: nat, key: nat) {
    m < |b| && HeapInv(b[m].heap) && key in Keys(b[m].heap)
  }

  ghost predicate AbsentAt(b: seq<State>, m: nat, key: nat) {
    m < |b| && HeapInv(b[m].heap) && key !in Keys(b[m].heap)
  }

  /** Step `m` is thread `t`'s own successful update, and it adds exactly `key`. */
  ghost predicate AddedAt(b: seq<State>, t: nat, m: nat, key: nat) {
    && AbsentAt(b, m, key) && PresentAt(b, m + 1, key) && Step(b[m], t, b[m + 1])
    && Keys(b[m + 1].heap) == Keys(b[m].heap) + {key}
  }

  ghost predicate RemovedAt(b: seq<State>, t: nat, m: nat, key: nat) {
    && PresentAt(b, m, key) && AbsentAt(b, m + 1, key) && Step(b[m], t, b[m + 1])
    && Keys(b[m + 1].heap) == Keys(b[m].heap) - {key}
  }

  /** The answer `r` is right at some moment of the call that spans states `lo` to `hi`. */
  ghost predicate Answered(b: seq<State>, t: nat, lo: nat, hi: nat, kind: Kind, key: nat, r: bool) {
    match kind
    case Find =>
      if r then exists m: nat :: lo <= m <= hi && PresentAt(b, m, key)
      else exists m: nat :: lo <= m <= hi && AbsentAt(b, m, key)
    case Insert =>
      if r then exists m: nat :: lo <= m < hi && AddedAt(b, t, m, key)
      else exists m: nat :: lo <= m <= hi && PresentAt(b, m, key)
    case Delete =>
      if r then exists m: nat :: lo <= m < hi && RemovedAt(b, t, m, key)
      else exists m: nat :: lo <= m <= hi && AbsentAt(b, m, key)
  }

  ghost predicate AddsKey(s: State, s': State, key: nat) {
    && HeapInv(s.heap) && HeapInv(s'.heap)
    && key !in Keys(s.heap) && Keys(s'.heap) == Keys(s.heap) + {key}
  }

  ghost predicate RemovesKey(s: State, s': State, key: nat) {
    && HeapInv(s.heap) && HeapInv(s'.heap)
    && key in Keys(s.heap) && Keys(s'.heap) == Keys(s.heap) - {key}
  }

  /** The walk of `th`, about to read, is about to stop with verdict `found`. */
  ghost predicate StopsWith(s: State, th: Thread, found: bool) {
    && th.pc.Read? && Addressable(s, th)
    && ReadStep(s.heap, th).pc == Verdict(th.kind, found) && !ReadStep(s.heap, th).pc.Read?
  }

  /** A walk's verdict is right at some moment of the call. */
  lemma WalkVerdict(b: seq<State>, t: nat, lo: nat, j: nat, found: bool) returns (m: nat)
    requires Searching(b, t, lo, j) && Inv(b[j]) && StopsWith(b[j], b[j].threads[t], found)
    ensures lo <= m <= j
    ensures if found then PresentAt(b, m, NodeKey(b[j].threads[t].hash)) else AbsentAt(b, m, NodeKey(b[j].threads[t].hash))
  {
    var th := b[j].threads[t];
    var key := NodeKey(th.hash);
    var m0 := CurWasLinked(b, t, lo, j);
    m := LinkWhileLinked(b, m0, j, th.cur);
    if found {
      KeysOf(b[m].heap, th.cur);
    } else {
      LinkedSuccessor(b, m, j, th.cur);
      GapMeansAbsent(b[m].heap, th.cur, key);
    }
  }

  /** The successor of `u` has the same key in both states. */
  lemma LinkedSuccessor(b: seq<State>, m: nat, j: nat, u: nat)
    requires Behavior(b) && m <= j < |b| && Inv(b[m]) && Inv(b[j])
    requires u < |b[m].heap| && u < |b[j].heap| && b[m].heap[u].next.ptr == b[j].heap[u].next.ptr
    ensures b[m].heap[u].next.ptr.Some? ==>
              var v := b[m].heap[u].next.ptr.value;
              v < |b[m].heap| && v < |b[j].heap| && b[m].heap[v].key == b[j].heap[v].key
  {
    assert CellOk(b[m].heap, u) && CellOk(b[j].heap, u);
    if b[m].heap[u].next.ptr.Some? {
      KeyFixed(b, m, j, b[m].heap[u].next.ptr.value);
    }
  }

  lemma {:induction false} KeyFixed(b: seq<State>, m: nat, j: nat, v: nat)
    requires Behavior(b) && m <= j < |b| && v < |b[m].heap|
    ensures v < |b[j].heap| && b[m].heap[v].key == b[j].heap[v].key
    decreases j
  {
    hide Behavior, Inv, Step, Effect;
    if m < j {
      KeyFixed(b, m, j - 1, v);
      var q := StepAt(b, j - 1);
      StepEvolves(b[j - 1], q, b[j]);
    }
  }

  /** Every answer of every call in every run is right at some moment of that call. */
  lemma {:induction false} Linearizable(b: seq<State>, t: nat, lo: nat, hi: nat)
    requires InCall(b, t, lo, hi) && b[hi].threads[t].pc.Done?
    requires HashOk(b[lo].threads[t].kind, b[lo].threads[t].hash)
    ensures Answered(b, t, lo, hi, b[lo].threads[t].kind, NodeKey(b[lo].threads[t].hash), b[hi].threads[t].pc.result)
    decreases hi
  {
    hide Behavior, Inv, Step, Effect, HashOk, HeapInv, Keys;
    var q := StepAt(b, hi - 1);
    RecordAfter(b[hi - 1], q, b[hi], t);
    if q != t {
      Linearizable(b, t, lo, hi - 1);
    } else {
      LastStep(b, t, lo, hi);
    }
  }

  /** An operation ends with a walk's verdict, or with its own successful compare-and-swap. */
  lemma DoneCases(s: State, t: nat, s': State)
    requires Inv(s) && Inv(s') && Step(s, t, s') && Effect(s.heap, s'.heap, s.threads[t], s'.threads[t])
    requires !s.threads[t].pc.Idle? && s'.threads[t].pc.Done?
    ensures var th, r := s.threads[t], s'.threads[t].pc.result;
            && HashOk(th.kind, th.hash)
            && (|| (th.kind.Insert? && r && AddsKey(s, s', NodeKey(th.hash)))
                || (th.kind.Delete? && r && RemovesKey(s, s', NodeKey(th.hash)))
                || (th.kind.Delete? && !r && StopsWith(s, th, false))
                || (th.kind.Find? && StopsWith(s, th, r))
                || (StopsWith(s, th, true) && th.kind.Insert? && !r))
  {
  }

  lemma LastStep(b: seq<State>, t: nat, lo: nat, hi: nat)
    requires InCall(b, t, lo, hi) && lo < hi && b[hi].threads[t].pc.Done?
    requires Inv(b[hi - 1]) && Inv(b[hi]) && Step(b[hi - 1], t, b[hi])
    requires Effect(b[hi - 1].heap, b[hi].heap, b[hi - 1].threads[t], b[hi].threads[t])
    requires HashOk(b[lo].threads[t].kind, b[lo].threads[t].hash)
    ensures Answered(b, t, lo, hi, b[lo].threads[t].kind, NodeKey(b[lo].threads[t].hash), b[hi].threads[t].pc.result)
  {
    hide Behavior, Step, Effect, Inv, ReadStep, Addressable, Keys, StopsWith, HeapInv;
    var s, s', th := b[hi - 1], b[hi], b[hi - 1].threads[t];
    CallFixed(b, t, lo, hi - 1);
    DoneCases(s, t, s');
    var key := NodeKey(th.hash);
    if th.kind.Insert? && AddsKey(s, s', key) && s'.threads[t].pc.result {
      assert AddedAt(b, t, hi - 1, key);
    } else if th.kind.Delete? && RemovesKey(s, s', key) && s'.threads[t].pc.result {
      assert RemovedAt(b, t, hi - 1, key);
    } else {
      var m := WalkVerdict(b, t, lo, hi - 1, if th.kind.Insert? then true else s'.threads[t].pc.result);
    }
  }

  /** Each step is one thread's: no two calls can claim the same change. */
  lemma OneMover(s: State, q: nat, t: nat, s': State)
    requires Inv(s) && Step(s, q, s') && Step(s, t, s')
    ensures q == t
  {
    if q != t {
      RecordAfter(s, t, s', q);
      MoverChanges(s, q, s');
    }
  }

  lemma MoverChanges(s: State, t: nat, s': State)
    requires Inv(s) && Step(s, t, s')
    ensures s'.threads[t] != s.threads[t]
  {
    var th := s.threads[t];
    if th.pc.Read? {
      assert CellOk(s.heap, th.cur);
    }
  }

  /** The set of keys changes only at the compare-and-swap that ends a successful update. */
  lemma OnlyUpdatesChangeKeys(b: seq<State>, i: nat) returns (t: nat)
    requires Behavior(b) && i + 1 < |b|
    ensures Inv(b[i]) && Inv(b[i + 1])
    ensures t < |b[i].threads| && t < |b[i + 1].threads|
    ensures Keys(b[i].heap) == Keys(b[i + 1].heap)
            || (b[i + 1].threads[t].pc == Done(true) && !b[i].threads[t].kind.Find?
                && b[i].threads[t].hash < Pow2(32)
                && var key := NodeKey(b[i].threads[t].hash);
                   AddsKey(b[i], b[i + 1], key) || RemovesKey(b[i], b[i + 1], key))
  {
    t := StepAt(b, i);
    ChangeIsUpdate(b[i], t, b[i + 1]);
  }

  lemma ChangeIsUpdate(s: State, t: nat, s': State)
    requires Inv(s) && Inv(s') && Step(s, t, s') && Effect(s.heap, s'.heap, s.threads[t], s'.threads[t])
    ensures Keys(s.heap) == Keys(s'.heap)
            || (s'.threads[t].pc == Done(true) && !s.threads[t].kind.Find? && s.threads[t].hash < Pow2(32)
                && var key := NodeKey(s.threads[t].hash);
                   AddsKey(s, s', key) || RemovesKey(s, s', key))
  {
  }

  // ---- a delete whose unlink fails ----

  /** Nodes about to be unlinked are still in the list, and each is one thread's business. */
  ghost predicate Unlinking(s: State)
    requires Inv(s)
  {
    && (forall t: nat | t < |s.threads| && s.threads[t].pc.Unlink? :: Linked(s.heap, s.threads[t].cur))
    && forall t: nat, r: nat | t < r < |s.threads| && s.threads[t].pc.Unlink? && s.threads[r].pc.Unlink? ::
         s.threads[t].cur != s.threads[r].cur
  }

  /** Marked, in the list, and no thread is about to unlink it. */
  ghost predicate Stranded(s: State, u: nat)
    requires Inv(s)
  {
    && u < |s.heap| && s.heap[u].next.mark && Linked(s.heap, u)
    && forall t: nat | t < |s.threads| && s.threads[t].pc.Unlink? :: s.threads[t].cur != u
  }

  /** A thread comes to an unlink only by marking, unmarked until then, the node it stands at. */
  lemma UnlinkAfterMark(s: State, t: nat, s': State)
    requires Inv(s) && Step(s, t, s') && s'.threads[t].pc.Unlink?
    ensures var th, th' := s.threads[t], s'.threads[t];
            th.pc.SetMark? && th'.cur == th.cur < |s.heap| && !s.heap[th.cur].next.mark && s.heap[th.cur].published
  {
  }

  lemma StrandedStep(s: State, t: nat, s': State, u: nat)
    requires Inv(s) && Inv(s') && Step(s, t, s') && Stranded(s, u)
    requires Effect(s.heap, s'.heap, s.threads[t], s'.threads[t])
    ensures Stranded(s', u)
  {
    StepEvolves(s, t, s');
    if s'.threads[t].pc.Unlink? {
      UnlinkAfterMark(s, t, s');
    }
    OthersUnlink(s, t, s');
    hide Inv, Step, ThreadInv;
  }

  lemma OthersUnlink(s: State, t: nat, s': State)
    requires Inv(s) && Step(s, t, s')
    ensures |s'.threads| == |s.threads|
    ensures forall r: nat | r < |s.threads| && r != t :: s'.threads[r] == s.threads[r]
  {
  }

  lemma UnlinkingStep(s: State, t: nat, s': State)
    requires Inv(s) && Inv(s') && Step(s, t, s') && Unlinking(s)
    requires Effect(s.heap, s'.heap, s.threads[t], s'.threads[t])
    ensures Unlinking(s')
  {
    OthersUnlink(s, t, s');
    if s'.threads[t].pc.Unlink? {
      UnlinkAfterMark(s, t, s');
      assert CellInv(s.heap, s.threads[t].cur);
      forall r: nat | r < |s.threads| && r != t && s.threads[r].pc.Unlink?
        ensures s.threads[r].cur != s.threads[t].cur
      {
        assert ThreadInv(s.heap, s.threads[r]);
      }
    }
    hide Inv, Step, ThreadInv;
  }

  lemma {:induction false} UnlinkingAlways(b: seq<State>, i: nat)
    requires Behavior(b) && i < |b|
    ensures Inv(b[i]) && Unlinking(b[i])
  {
    hide Inv, Step, Effect;
    BehaviorInv(b, i);
    if i > 0 {
      hide Behavior, Unlinking;
      UnlinkingAlways(b, i - 1);
      var q := StepAt(b, i - 1);
      UnlinkingStep(b[i - 1], q, b[i]);
    }
  }

  /** The marked node of a failed unlink is stranded at once. */
  lemma FailedUnlinkStrands(s: State, t: nat, s': State)
    requires Inv(s) && Inv(s') && Step(s, t, s') && Unlinking(s)
    requires Effect(s.heap, s'.heap, s.threads[t], s'.threads[t])
    requires s.threads[t].pc.Unlink? && s'.threads[t].pc.Seek?
    ensures Stranded(s', s.threads[t].cur)
  {
    assert ThreadInv(s.heap, s.threads[t]);
    StepEvolves(s, t, s');
    OthersUnlink(s, t, s');
    hide Inv, Step, ThreadInv;
  }

  lemma {:induction false} StrandedForEver(b: seq<State>, i: nat, j: nat, u: nat)
    requires Behavior(b) && i <= j < |b| && Inv(b[i]) && Stranded(b[i], u)
    ensures Inv(b[j]) && Stranded(b[j], u)
    decreases j
  {
    hide Behavior, Inv, Step, Effect, Stranded;
    if i < j {
      StrandedForEver(b, i, j - 1, u);
      var q := StepAt(b, j - 1);
      StrandedStep(b[j - 1], q, b[j], u);
    }
  }

  /**
   * A delete that has marked its node but fails to unlink it has failed for good: the key stays
   * in the list through every continuation of the run.
   */
  lemma FailedUnlinkKeepsKey(b: seq<State>, k: nat, t: nat, j: nat)
    requires FailsToUnlink(b, k, t) && k < j < |b|
    ensures PresentAt(b, j, NodeKey(b[k].threads[t].hash))
  {
    hide Inv, Stranded, Step;
    FailureStrands(b, k, t, j);
    StrandedPresent(b[j], b[k].threads[t].cur);
  }

  /**
   * Exactly when a delete that has marked its node gets rid of the key: if and only if the
   * predecessor still links, unmarked, to the node.  Otherwise the key stays for good.
   */
  lemma UnlinkDecides(b: seq<State>, k: nat, t: nat)
    requires Behavior(b) && k + 1 < |b| && t < |b[k].threads| && b[k].threads[t].pc.Unlink?
    requires Step(b[k], t, b[k + 1])
    ensures b[k].threads[t].prev < |b[k].heap| && HashOk(Delete, b[k].threads[t].hash)
    ensures b[k].heap[b[k].threads[t].prev].next == MarkedPtr(Some(b[k].threads[t].cur), false)
            <==> AbsentAt(b, k + 1, NodeKey(b[k].threads[t].hash))
    ensures b[k].heap[b[k].threads[t].prev].next != MarkedPtr(Some(b[k].threads[t].cur), false)
            ==> forall j: nat | k < j < |b| :: PresentAt(b, j, NodeKey(b[k].threads[t].hash))
  {
    BehaviorInv(b, k);
    BehaviorInv(b, k + 1);
    StepKeepsInv(b[k], t, b[k + 1]);
    UnlinkStep(b[k], t, b[k + 1]);
    hide Behavior, Inv, Step, Effect, HeapInv, Keys;
    if b[k + 1].threads[t].pc.Seek? {
      forall j: nat | k < j < |b|
        ensures PresentAt(b, j, NodeKey(b[k].threads[t].hash))
      {
        FailedUnlinkKeepsKey(b, k, t, j);
      }
      assert PresentAt(b, k + 1, NodeKey(b[k].threads[t].hash));
    }
  }

  /** The unlink succeeds by the predecessor's link, and then the key is gone. */
  lemma UnlinkStep(s: State, t: nat, s': State)
    requires Inv(s) && Inv(s') && Step(s, t, s') && s.threads[t].pc.Unlink?
    requires Effect(s.heap, s'.heap, s.threads[t], s'.threads[t])
    ensures var th, th' := s.threads[t], s'.threads[t];
            && th.prev < |s.heap| && HashOk(Delete, th.hash) && t < |s'.threads|
            && if s.heap[th.prev].next == MarkedPtr(Some(th.cur), false)
               then th'.pc.Done? && HeapInv(s'.heap) && NodeKey(th.hash) !in Keys(s'.heap)
               else th'.pc.Seek?
  {
    assert ThreadInv(s.heap, s.threads[t]);
  }

  /** A delete that is after a stranded node walks to it, fails to mark it, and starts again. */
  predicate GoesRound(th: Thread, u: nat) {
    th.pc.Seek? || th.pc.Read? || (th.pc.SetMark? && th.cur == u)
  }

  lemma DeleteReads(s: State, t: nat, s': State)
    requires Inv(s) && Step(s, t, s') && s.threads[t].pc.Read? && s.threads[t].kind.Delete?
    ensures var th, th' := s.threads[t], s'.threads[t];
            && HashOk(th.kind, th.hash)
            && (|| th'.pc.Read? || StopsWith(s, th, false)
                || (th'.pc.SetMark? && th'.cur == th.cur < |s.heap| && s.heap[th.cur].key == NodeKey(th.hash)))
  {
  }

  lemma SeeksOrFailsToMark(s: State, t: nat, s': State)
    requires Inv(s) && Step(s, t, s')
    ensures s.threads[t].pc.Seek? ==> s'.threads[t].pc.Read?
    ensures s.threads[t].pc.SetMark? ==> s.threads[t].cur < |s.heap|
    ensures s.threads[t].pc.SetMark? && s.heap[s.threads[t].cur].next.mark ==> s'.threads[t].pc.Seek?
  {
  }

  lemma StrandedIs(s: State, u: nat)
    requires Inv(s) && Stranded(s, u)
    ensures u < |s.heap| && s.heap[u].next.mark && HeapInv(s.heap) && Linked(s.heap, u)
  {
  }

  lemma StrandedPresent(s: State, u: nat)
    requires Inv(s) && Stranded(s, u) && s.heap[u].key % 2 == 1
    ensures HeapInv(s.heap) && s.heap[u].key in Keys(s.heap)
  {
    KeysOf(s.heap, u);
  }

  /** The walk's node is the stranded one if it has its key: both were in the list at once. */
  lemma FindsStranded(b: seq<State>, lo: nat, t: nat, u: nat, j: nat)
    requires Searching(b, t, lo, j) && b[j].threads[t].pc.Read? && Inv(b[lo]) && Stranded(b[lo], u)
    requires b[j].threads[t].cur < |b[j].heap| && b[j].heap[b[j].threads[t].cur].key == b[lo].heap[u].key
    ensures b[j].threads[t].cur == u
  {
    hide Inv, Stranded, Behavior;
    var m := CurWasLinked(b, t, lo, j);
    StrandedForEver(b, lo, m, u);
    StrandedIs(b[lo], u);
    StrandedIs(b[m], u);
    KeyFixed(b, lo, m, u);
    ReachAbove(b[m].heap, 0, b[j].threads[t].cur);
    KeyFixed(b, m, j, b[j].threads[t].cur);
    ReachGap(b[m].heap, 0, u, b[j].threads[t].cur);
  }

  /** While a node of its key is stranded, a search never ends with the key not found. */
  lemma NeverMisses(b: seq<State>, lo: nat, t: nat, u: nat, j: nat)
    requires Searching(b, t, lo, j) && Inv(b[lo]) && Inv(b[j]) && Stranded(b[lo], u)
    requires b[j].threads[t].hash < Pow2(32) && b[lo].heap[u].key == NodeKey(b[j].threads[t].hash)
    ensures !StopsWith(b[j], b[j].threads[t], false)
  {
    hide Inv, Stranded, Behavior, StopsWith;
    if StopsWith(b[j], b[j].threads[t], false) {
      var m := WalkVerdict(b, t, lo, j, false);
      StrandedForEver(b, lo, m, u);
      StrandedIs(b[lo], u);
      KeyFixed(b, lo, m, u);
      StrandedPresent(b[m], u);
    }
  }

  /** A delete that searches for the key of a stranded node goes round for ever. */
  lemma {:induction false} StrandedTraps(b: seq<State>, lo: nat, t: nat, u: nat, hi: nat)
    requires Searching(b, t, lo, hi) && Inv(b[lo]) && Stranded(b[lo], u)
    requires b[lo].threads[t].kind.Delete? && b[lo].threads[t].hash < Pow2(32)
    requires b[lo].heap[u].key == NodeKey(b[lo].threads[t].hash)
    ensures GoesRound(b[hi].threads[t], u)
    decreases hi
  {
    hide Inv, Stranded, Behavior, StopsWith, Step, Effect, HashOk, NodeKey;
    if lo < hi {
      var j := hi - 1;
      StrandedTraps(b, lo, t, u, j);
      var q := StepAt(b, j);
      RecordAfter(b[j], q, b[hi], t);
      CallFixed(b, t, lo, j);
      if q == t && b[j].threads[t].pc.Read? {
        DeleteReads(b[j], t, b[hi]);
        NeverMisses(b, lo, t, u, j);
        if b[hi].threads[t].pc.SetMark? {
          FindsStranded(b, lo, t, u, j);
        }
      } else if q == t {
        StrandedForEver(b, lo, j, u);
        StrandedIs(b[j], u);
        SeeksOrFailsToMark(b[j], t, b[hi]);
      }
    }
  }

  /** A thread's delete has marked its node in state `k` and then fails to unlink it. */
  ghost predicate FailsToUnlink(b: seq<State>, k: nat, t: nat) {
    && Behavior(b) && k + 1 < |b| && t < |b[k].threads| && t < |b[k + 1].threads|
    && Inv(b[k]) && Step(b[k], t, b[k + 1]) && HashOk(Delete, b[k].threads[t].hash)
    && b[k].threads[t].pc.Unlink? && b[k + 1].threads[t].pc.Seek?
  }

  lemma FailureStrands(b: seq<State>, k: nat, t: nat, lo: nat)
    requires FailsToUnlink(b, k, t) && k < lo < |b|
    ensures var u := b[k].threads[t].cur;
            && Inv(b[lo]) && Stranded(b[lo], u) && u < |b[lo].heap|
            && b[lo].heap[u].key == NodeKey(b[k].threads[t].hash)
            && b[k + 1].threads[t].kind.Delete? && b[k + 1].threads[t].hash == b[k].threads[t].hash
  {
    var u := b[k].threads[t].cur;
    UnlinkingAlways(b, k);
    StepKeepsInv(b[k], t, b[k + 1]);
    FailedUnlinkStrands(b[k], t, b[k + 1]);
    RecordAfter(b[k], t, b[k + 1], t);
    assert ThreadInv(b[k].heap, b[k].threads[t]);
    hide Inv, Stranded, Behavior, Step, Effect;
    StrandedForEver(b, k + 1, lo, u);
    StrandedIs(b[lo], u);
    KeyFixed(b, k, lo, u);
  }

  /** The delete that has failed never returns: it searches again and again. */
  lemma FailedDeleteNeverReturns(b: seq<State>, k: nat, t: nat, hi: nat)
    requires FailsToUnlink(b, k, t) && Searching(b, t, k + 1, hi)
    ensures GoesRound(b[hi].threads[t], b[k].threads[t].cur)
  {
    hide Inv, Stranded, Step;
    FailureStrands(b, k, t, k + 1);
    StrandedTraps(b, k + 1, t, b[k].threads[t].cur, hi);
  }

  /** Nor does any later delete of that key. */
  lemma LaterDeletesNeverReturn(b: seq<State>, k: nat, t: nat, r: nat, lo: nat, hi: nat)
    requires FailsToUnlink(b, k, t) && Searching(b, r, lo, hi) && k < lo
    requires b[lo].threads[r].kind.Delete? && HashOk(Delete, b[lo].threads[r].hash)
    requires NodeKey(b[lo].threads[r].hash) == NodeKey(b[k].threads[t].hash)
    ensures GoesRound(b[hi].threads[r], b[k].threads[t].cur)
  {
    hide Inv, Stranded, Step;
    FailureStrands(b, k, t, lo);
    StrandedTraps(b, lo, r, b[k].threads[t].cur, hi);
  }
}
