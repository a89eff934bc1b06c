// Operations of the list that run alone for a while (solist.hpp:398-565): if no node
// in the list is marked, an operation that nobody disturbs ends with the right answer,
// and the steps it takes are counted exactly.

module SolistAlone {
  import opened Powers
  import opened SplitOrder
  import opened MarkPtr
  import opened Options
  import opened LinkedHeap
  import opened SolistProtocol

  /** All steps from `b[0]` on are thread `t`'s. */
  ghost predicate Alone(b: seq<State>, t: nat) {
    b != [] && forall i: nat | i + 1 < |b| :: Step(b[i], t, b[i + 1])
  }

  /** No node in the list is marked: no delete is under way or has failed there. */
  ghost predicate Clean(h: Heap) {
    HeapInv(h) && forall u: nat | u < |h| && Linked(h, u) :: !h[u].next.mark
  }

  lemma OneFirst(s: State, t: nat, b: seq<State>)
    requires Alone(b, t) && Step(s, t, b[0])
    ensures Alone([s] + b, t)
  {
    hide Step;
    forall i: nat | i + 1 < |[s] + b|
      ensures Step(([s] + b)[i], t, ([s] + b)[i + 1])
    {
      if i > 0 {
        assert ([s] + b)[i] == b[i - 1] && ([s] + b)[i + 1] == b[i - 1 + 1];
      }
    }
  }

  /** The next state, when a thread inside an operation takes its step. */
  ghost function Go(s: State, t: nat): State
    requires Inv(s) && t < |s.threads| && !s.threads[t].pc.Idle?
  {
    NeverStuck(s, t);
    With(s, t, StepOf(s, s.threads[t]))
  }

  lemma Goes(s: State, t: nat)
    requires Inv(s) && t < |s.threads| && !s.threads[t].pc.Idle?
    ensures Step(s, t, Go(s, t)) && Inv(Go(s, t)) && |Go(s, t).threads| == |s.threads|
    ensures Effect(s.heap, Go(s, t).heap, s.threads[t], Go(s, t).threads[t])
    ensures var th, th' := s.threads[t], Go(s, t).threads[t]; th'.kind == th.kind && th'.hash == th.hash
    ensures HashOk(s.threads[t].kind, s.threads[t].hash)
  {
    NeverStuck(s, t);
    StepKeepsInv(s, t, Go(s, t));
    RecordAfter(s, t, Go(s, t), t);
  }

  // ---- walks ----

  /** The nodes in the list with keys from `lo` to `hi`. */
  ghost function Between(h: Heap, lo: nat, hi: nat): set<nat>
    requires HeapOk(h) && 0 < |h|
  {
    set u | u in Reach(h, 0) && u < |h| && lo <= h[u].key <= hi
  }

  /** Where a walk that is not disturbed stands. */
  ghost predicate Standing(h: Heap, th: Thread)
    requires HeapOk(h) && 0 < |h|
  {
    && th.cur < |h| && Linked(h, th.cur)
    && (th.prev != th.cur ==> th.prev < |h| && Linked(h, th.prev) && h[th.prev].next.ptr == Some(th.cur))
  }

  /** The node walked over is the only one that the rest of the walk does not see. */
  lemma OneLess(h: Heap, u: nat, hi: nat)
    requires HeapOk(h) && 0 < |h| && u < |h| && Linked(h, u) && h[u].next.ptr.Some? && h[u].key <= hi
    ensures CellOk(h, u) && h[u].next.ptr.value < |h|
    ensures |Between(h, h[u].key, hi)| == 1 + |Between(h, h[h[u].next.ptr.value].key, hi)|
  {
    assert CellOk(h, u);
    var v := h[u].next.ptr.value;
    forall w: nat | w in Reach(h, 0) && w < |h|
      ensures h[u].key <= h[w].key <==> w == u || h[v].key <= h[w].key
    {
      ReachGap(h, 0, u, w);
    }
    assert Between(h, h[u].key, hi) == Between(h, h[v].key, hi) + {u};
  }

  lemma OnlyOne(h: Heap, u: nat, hi: nat)
    requires HeapOk(h) && 0 < |h| && u < |h| && Linked(h, u) && CellOk(h, u) && h[u].key <= hi
    requires h[u].next.ptr.Some? ==> h[h[u].next.ptr.value].key > hi
    ensures |Between(h, h[u].key, hi)| == 1
  {
    forall w: nat | w in Between(h, h[u].key, hi)
      ensures w == u
    {
      ReachGap(h, 0, u, w);
    }
    assert Between(h, h[u].key, hi) == {u};
  }

  /** A walk has stopped, in the memory it started in. */
  ghost predicate Stopped(s: State, h: Heap, t: nat) {
    && Inv(s) && s.heap == h && t < |s.threads| && HeapOk(h) && 0 < |h|
    && var th := s.threads[t];
    && th.hash < Pow2(32) && Standing(h, th) && th.next == h[th.cur].next.ptr
    && var key := NodeKey(th.hash);
    && h[th.cur].key <= key && th.pc == Verdict(th.kind, h[th.cur].key == key)
    && (h[th.cur].key == key <==> key in Keys(h))
    && (h[th.cur].key == key ==> th.prev != th.cur)
  }

  lemma ReadMoves(s: State, t: nat)
    requires Inv(s) && t < |s.threads| && s.threads[t].pc.Read? && Standing(s.heap, s.threads[t])
    ensures var h, th, s' := s.heap, s.threads[t], Go(s, t);
            var th', n := s'.threads[t], h[th.cur].next.ptr;
            && s'.heap == h && th.hash < Pow2(32) && h[th.cur].key <= NodeKey(th.hash)
            && CellOk(h, th.cur) && (th'.pc.Read? <==> n.Some? && h[n.value].key <= NodeKey(th.hash))
            && if n.Some? && h[n.value].key <= NodeKey(th.hash)
               then th'.pc.Read? && th'.cur == n.value && th'.prev == th.cur && Standing(h, th')
               else Stopped(s', h, t)
  {
    var h, th := s.heap, s.threads[t];
    Goes(s, t);
    assert ThreadInv(h, th) && CellOk(h, th.cur);
    ReachAbove(h, 0, th.cur);
    var key := NodeKey(th.hash);
    if h[th.cur].next.ptr.Some? {
      ReachNext(h, 0, th.cur);
    }
    if h[th.cur].key == key {
      KeysOf(h, th.cur);
    } else if h[th.cur].next.ptr.None? || h[h[th.cur].next.ptr.value].key > key {
      GapMeansAbsent(h, th.cur, key);
    }
  }

  lemma {:induction false} WalksOn(s: State, t: nat) returns (b: seq<State>)
    requires Inv(s) && t < |s.threads| && s.threads[t].pc.Read? && Standing(s.heap, s.threads[t])
    requires HashOk(s.threads[t].kind, s.threads[t].hash)
    ensures Alone(b, t) && b[0] == s && Stopped(b[|b| - 1], s.heap, t)
    ensures b[|b| - 1].threads[t].kind == s.threads[t].kind && b[|b| - 1].threads[t].hash == s.threads[t].hash
    ensures |b| == 1 + |Between(s.heap, s.heap[s.threads[t].cur].key, NodeKey(s.threads[t].hash))|
    ensures forall i: nat | i + 1 < |b| :: t < |b[i].threads| && b[i].threads[t].pc.Read?
    decreases KEYS - s.heap[s.threads[t].cur].key
  {
    hide Step, StepOf, Stopped, Effect, ThreadInv, BucketsInv, CellInv, HashOk, NodeKey, Between;
    var s' := Go(s, t);
    Goes(s, t);
    ReadMoves(s, t);
    if s'.threads[t].pc.Read? {
      OneLess(s.heap, s.threads[t].cur, NodeKey(s.threads[t].hash));
      b := WalksOn(s', t);
      OneFirst(s, t, b);
      b := [s] + b;
    } else {
      OnlyOne(s.heap, s.threads[t].cur, NodeKey(s.threads[t].hash));
      b := [s, s'];
    }
  }

  // ---- whole operations ----

  /** What a set with the keys `before` answers, and what it is afterwards. */
  ghost predicate RightAnswer(kind: Kind, key: nat, before: set<nat>, r: bool, after: set<nat>) {
    match kind
    case Insert => r == (key !in before) && after == before + {key}
    case Delete => r == (key in before) && after == before - {key}
    case Find => r == (key in before) && after == before
  }

  /** Thread `t` has done its operation, and the list is as a set would be. */
  ghost predicate DoneRight(s: State, t: nat, before: set<nat>, kind: Kind, hash: nat) {
    && Inv(s) && t < |s.threads| && s.threads[t].pc.Done? && hash < Pow2(32)
    && RightAnswer(kind, NodeKey(hash), before, s.threads[t].pc.result, Keys(s.heap))
  }

  /** An insert's and a delete's last two steps, when nothing comes in between. */
  lemma TwoSteps(s: State, t: nat)
    requires Inv(s) && t < |s.threads| && Stopped(s, s.heap, t) && Clean(s.heap)
    requires s.threads[t].pc.LinkNew? || s.threads[t].pc.SetMark?
    ensures var s' := Go(s, t);
            && Inv(s') && t < |s'.threads| && (s'.threads[t].pc.Publish? || s'.threads[t].pc.Unlink?)
            && DoneRight(Go(s', t), t, Keys(s.heap), s.threads[t].kind, s.threads[t].hash)
  {
    if s.threads[t].pc.LinkNew? {
      LinksAndPublishes(s, t);
    } else {
      MarksAndUnlinks(s, t);
    }
  }

  lemma LinksAndPublishes(s: State, t: nat)
    requires Inv(s) && t < |s.threads| && Stopped(s, s.heap, t) && Clean(s.heap) && s.threads[t].pc.LinkNew?
    ensures var s' := Go(s, t);
            && Inv(s') && t < |s'.threads| && s'.threads[t].pc.Publish?
            && DoneRight(Go(s', t), t, Keys(s.heap), s.threads[t].kind, s.threads[t].hash)
  {
    hide BucketsInv, Keys;
    var th, s' := s.threads[t], Go(s, t);
    assert ThreadInv(s.heap, th) && CellInv(s.heap, th.cur);
    Goes(s, t);
    assert s'.heap[th.cur] == s.heap[th.cur];
    Goes(s', t);
  }

  lemma MarksAndUnlinks(s: State, t: nat)
    requires Inv(s) && t < |s.threads| && Stopped(s, s.heap, t) && Clean(s.heap) && s.threads[t].pc.SetMark?
    ensures var s' := Go(s, t);
            && Inv(s') && t < |s'.threads| && s'.threads[t].pc.Unlink?
            && DoneRight(Go(s', t), t, Keys(s.heap), s.threads[t].kind, s.threads[t].hash)
  {
    hide BucketsInv, Keys;
    var th, s' := s.threads[t], Go(s, t);
    assert ThreadInv(s.heap, th);
    Goes(s, t);
    assert th.prev != th.cur && s'.heap[th.prev] == s.heap[th.prev];
    Goes(s', t);
  }

  lemma EndsFromStop(s: State, t: nat) returns (b: seq<State>)
    requires Stopped(s, s.heap, t) && Clean(s.heap)
    ensures Alone(b, t) && b[0] == s
    ensures DoneRight(b[|b| - 1], t, Keys(s.heap), s.threads[t].kind, s.threads[t].hash)
    ensures |b| == if s.threads[t].pc.Done? then 1 else 3
    ensures forall i: nat | i + 1 < |b| :: t < |b[i].threads| && !b[i].threads[t].pc.Done?
  {
    var th := s.threads[t];
    if th.pc.Done? {
      b := [s];
    } else {
      hide StepOf, Step, DoneRight, ThreadInv, BucketsInv, Effect;
      TwoSteps(s, t);
      var s' := Go(s, t);
      Goes(s, t);
      Goes(s', t);
      b := [s, s', Go(s', t)];
    }
  }

  lemma Joined(b: seq<State>, c: seq<State>, t: nat)
    requires Alone(b, t) && Alone(c, t) && b[|b| - 1] == c[0]
    ensures Alone(b + c[1..], t) && (b + c[1..])[|b| + |c| - 2] == c[|c| - 1]
  {
    hide Step;
    var d := b + c[1..];
    forall i: nat | i + 1 < |d|
      ensures Step(d[i], t, d[i + 1])
    {
      if i + 1 >= |b| {
        assert d[i] == c[i + 1 - |b|] && d[i + 1] == c[i + 1 - |b| + 1];
      }
    }
  }

  /** The steps of an undisturbed search and of what follows it. */
  ghost function StepCount(s: State, kind: Kind, hash: nat): nat
    requires Inv(s) && HashOk(kind, hash)
  {
    var key, present := NodeKey(hash), NodeKey(hash) in Keys(s.heap);
    1 + |Between(s.heap, BucketKey(SlotOf(hash, s.bits)), key)|
      + match kind
        case Insert => if present then 0 else 2
        case Delete => if present then 2 else 0
        case Find => 0
  }

  /** A search starts at the dummy of the hash's own bucket. */
  lemma SeekStands(s: State, t: nat)
    requires Inv(s) && t < |s.threads| && s.threads[t].pc.Seek?
    ensures var th, s' := s.threads[t], Go(s, t); var th' := s'.threads[t];
            && Inv(s') && s'.heap == s.heap && th'.pc.Read? && Standing(s.heap, th')
            && th'.kind == th.kind && th'.hash == th.hash && HashOk(th.kind, th.hash)
            && s.heap[th'.cur].key == BucketKey(SlotOf(th.hash, s.bits))
  {
    var th := s.threads[t];
    Goes(s, t);
    assert ThreadInv(s.heap, th);
    BucketLinked(s, SlotOf(th.hash, s.bits));
    assert s.buckets[SlotOf(th.hash, s.bits)] < |s.heap|;
  }

  /**
   * With no marked node in the list, an operation whose search starts and which runs alone from
   * there ends with the answer, and with the effect, that it has on a set.  It visits exactly the
   * nodes from its bucket's dummy to its key.
   */
  lemma FinishesAlone(s: State, t: nat) returns (b: seq<State>)
    requires Inv(s) && Clean(s.heap) && t < |s.threads| && s.threads[t].pc.Seek?
    ensures Alone(b, t) && b[0] == s && HashOk(s.threads[t].kind, s.threads[t].hash)
    ensures DoneRight(b[|b| - 1], t, Keys(s.heap), s.threads[t].kind, s.threads[t].hash)
    ensures |b| == 1 + StepCount(s, s.threads[t].kind, s.threads[t].hash)
    ensures forall i: nat | i + 1 < |b| :: t < |b[i].threads| && !b[i].threads[t].pc.Done?
  {
    hide Step, StepOf, ThreadInv, BucketsInv, DoneRight, Effect;
    SeekStands(s, t);
    Goes(s, t);
    var c := WalksOn(Go(s, t), t);
    OneFirst(s, t, c);
    var d := EndsFromStop(c[|c| - 1], t);
    Joined([s] + c, d, t);
    b := ([s] + c) + d[1..];
  }

  /** So it is with a whole call of a thread that was idle. */
  lemma CallAlone(s: State, t: nat, kind: Kind, hash: nat) returns (b: seq<State>)
    requires Inv(s) && Clean(s.heap) && t < |s.threads| && s.threads[t].pc.Idle? && HashOk(kind, hash)
    ensures Alone(b, t) && b[0] == s && |b| == 2 + StepCount(s, kind, hash) && Begins(s, t, b[1], kind, hash)
    ensures DoneRight(b[|b| - 1], t, Keys(s.heap), kind, hash)
    ensures forall i: nat | i + 1 < |b| :: t < |b[i].threads| && !b[i].threads[t].pc.Done?
  {
    var s' := With(s, t, BeginOf(s, s.threads[t], kind, hash));
    assert Begins(s, t, s', kind, hash);
    StepKeepsInv(s, t, s');
    BegunIsSame(s, t, kind, hash);
    hide Step, StepOf, ThreadInv, BucketsInv, DoneRight, Effect;
    var c := FinishesAlone(s', t);
    OneFirst(s, t, c);
    b := [s] + c;
  }

  /** Allocating a node that is not in the list changes nothing there. */
  lemma SameList(h: Heap, g: Heap, lo: nat, hi: nat)
    requires Clean(h) && HeapInv(g) && h <= g && Reach(g, 0) == Reach(h, 0)
    ensures Clean(g) && Between(g, lo, hi) == Between(h, lo, hi)
  {
    hide CellInv;
    forall u: nat | u in Reach(h, 0)
      ensures u < |h| && g[u] == h[u]
    {
      ReachAbove(h, 0, u);
    }
  }

  lemma BegunIsSame(s: State, t: nat, kind: Kind, hash: nat)
    requires Inv(s) && Clean(s.heap) && t < |s.threads| && s.threads[t].pc.Idle? && HashOk(kind, hash)
    ensures var s' := With(s, t, BeginOf(s, s.threads[t], kind, hash));
            && Inv(s') && Clean(s'.heap) && Keys(s'.heap) == Keys(s.heap)
            && StepCount(s', kind, hash) == StepCount(s, kind, hash)
  {
    hide ThreadInv, HeapInv, Clean, Between, Keys, BucketKey, NodeKey;
    var s' := With(s, t, BeginOf(s, s.threads[t], kind, hash));
    assert Begins(s, t, s', kind, hash);
    StepKeepsInv(s, t, s');
    SameList(s.heap, s'.heap, BucketKey(SlotOf(hash, s.bits)), NodeKey(hash));
  }

  // ---- operations caught in the middle ----

  /** An operation has ended, or is a delete that has just failed to unlink its node. */
  ghost predicate Ended(b: seq<State>, t: nat, kind: Kind) {
    && b != [] && t < |b[|b| - 1].threads|
    && (|| b[|b| - 1].threads[t].pc.Done?
        || (kind.Delete? && |b| > 1 && t < |b[|b| - 2].threads|
            && b[|b| - 2].threads[t].pc.Unlink? && b[|b| - 1].threads[t].pc.Seek?))
  }

  ghost function Phase(th: Thread): nat {
    match th.pc
    case Read => 3
    case LinkNew => 2
    case Publish => 1
    case SetMark => 1
    case _ => 0
  }

  /** A step that neither marks nor ends anything leaves the list without marks, and gets on. */
  lemma GetsOn(s: State, t: nat)
    requires Inv(s) && Clean(s.heap) && t < |s.threads| && Phase(s.threads[t]) > 0
    ensures var th, s' := s.threads[t], Go(s, t); var th' := s'.threads[t];
            && Inv(s') && th'.kind == th.kind
            && (th'.pc.Done? || (th.kind.Delete? && th'.pc.Unlink?)
                || (Clean(s'.heap) && (th'.pc.Seek? || Phase(th') > 0)))
            && (Phase(th') < Phase(th)
                || (th.pc.Read? && th'.pc.Read? && th.cur < |s.heap| && th'.cur < |s'.heap|
                    && s.heap[th.cur].key < s'.heap[th'.cur].key < KEYS))
  {
    var th, s' := s.threads[t], Go(s, t);
    assert ThreadInv(s.heap, th);
    Goes(s, t);
    if th.pc.LinkNew? {
      assert CellInv(s.heap, th.dnode);
    } else if th.pc.Read? {
      assert CellOk(s.heap, th.cur);
      if s'.threads[t].pc.Read? {
        assert CellOk(s.heap, s'.threads[t].cur);
      }
    }
  }

  ghost function Left(s: State, t: nat): nat {
    if t < |s.threads| && s.threads[t].cur < |s.heap| && s.heap[s.threads[t].cur].key < KEYS
    then KEYS - s.heap[s.threads[t].cur].key else 0
  }

  lemma UnlinkEnds(s: State, t: nat)
    requires Inv(s) && t < |s.threads| && s.threads[t].pc.Unlink?
    ensures Inv(Go(s, t)) && s.threads[t].kind.Delete?
    ensures Go(s, t).threads[t].pc.Done? || Go(s, t).threads[t].pc.Seek?
  {
    assert ThreadInv(s.heap, s.threads[t]);
    Goes(s, t);
  }

  /**
   * With no marked node in the list, an operation that runs alone from wherever it stands ends,
   * unless it is a delete that fails to unlink its node; after any other failed compare-and-swap
   * it searches again.
   */
  lemma {:induction false} EndsAlone(s: State, t: nat) returns (b: seq<State>)
    requires Inv(s) && Clean(s.heap) && t < |s.threads| && !s.threads[t].pc.Idle?
    ensures Alone(b, t) && b[0] == s && Ended(b, t, s.threads[t].kind)
    decreases Phase(s.threads[t]), Left(s, t)
  {
    hide Step, StepOf, ThreadInv, BucketsInv, Effect, HeapInv, Clean;
    if s.threads[t].pc.Done? {
      b := [s];
    } else if s.threads[t].pc.Seek? {
      b := FinishesAlone(s, t);
    } else {
      var s' := Go(s, t);
      Goes(s, t);
      if s.threads[t].pc.Unlink? {
        UnlinkEnds(s, t);
        b := [s, s'];
      } else {
        GetsOn(s, t);
        if s'.threads[t].pc.Unlink? {
          UnlinkEnds(s', t);
          Goes(s', t);
          b := [s, s', Go(s', t)];
        } else {
          var c := [s'];
          if !s'.threads[t].pc.Done? {
            c := EndsAlone(s', t);
          }
          OneFirst(s, t, c);
          b := [s] + c;
        }
      }
    }
  }
}
