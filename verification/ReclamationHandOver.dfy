// Handing an object on from one hazard slot to another (hazard_pointer.cpp:56-82,
// 191-208): the new slot holds the object before the old one lets go of it, and yet
// the object is safe only if snapshots do not read the new slot before the old one.

module ReclamationHandOver {
  import opened Options
  import opened Reclamation

  ghost predicate HoldsAt(s: State, p: Slot, o: nat) {
    Holds(s, p.pool, p.ix, o)
  }

  /** A run in which `p` holds the object, not yet retired, from `m` to `k`, and `q` from `k` to `n`. */
  ghost predicate HandOver(b: seq<State>, es: seq<Event>, m: nat, k: nat, n: nat, p: Slot, q: Slot, o: nat) {
    && Run(b, es) && Start(b[0]) && m <= k <= n < |b| && o !in b[m].mem.retired
    && (forall x | m <= x <= k :: HoldsAt(b[x], p, o))
    && (forall x | k <= x <= n :: HoldsAt(b[x], q, o))
  }

  /** In no such run is the object reclaimed. */
  ghost predicate Safe(p: Slot, q: Slot, o: nat) {
    forall b: seq<State>, es: seq<Event>, m: nat, k: nat, n: nat | HandOver(b, es, m, k, n, p, q, o) :: o !in b[n].mem.reclaimed
  }

  lemma OnwardsIsSafe(b: seq<State>, es: seq<Event>, m: nat, k: nat, n: nat, p: Slot, q: Slot, o: nat)
    requires HandOver(b, es, m, k, n, p, q, o) && NotBefore(p, q) && o != 0
    ensures o !in b[n].mem.reclaimed
  {
    var at: seq<Slot> := seq(|b|, x => if x <= k then p else q);
    hide Run, Start, Holds, Guarded;
    HandedOn(b, es, m, n, at, o);
  }

  // ---- a run in which the object is handed back ----

  const CLEAR: Thread := Thread(Idle, 0, [], [], 0, 0, [])

  ghost function Alone(m: Memory, th: Thread): State {
    State(m, [th])
  }

  /** `n` pools of null slots. */
  ghost function Nulls(n: nat, blk: nat): (pools: seq<seq<nat>>)
    ensures |pools| == n
    ensures forall i | 0 <= i < n :: |pools[i]| == 32 * blk && forall j | 0 <= j < 32 * blk :: pools[i][j] == 0
  {
    seq(n, _ => seq(32 * blk, _ => 0))
  }

  ghost function Fresh(pools: seq<seq<nat>>): Memory {
    Memory(pools, [], None, [], [], [], [])
  }

  /** The object is on a collector's private list; `pools` are as they are. */
  ghost function Swapped(pools: seq<seq<nat>>, o: nat): Memory {
    Memory(pools, [Node(o, None)], None, [], [], [], [o])
  }

  ghost predicate Ends(b: seq<State>, es: seq<Event>, s: State) {
    Run(b, es) && |b| == |es| + 1 && b[|es|] == s
  }

  /** The run that goes on with one event more. */
  lemma OneMore(b: seq<State>, es: seq<Event>, s: State, e: Event) returns (c: seq<State>, fs: seq<Event>)
    requires Ends(b, es, s) && EventOk(s, e)
    ensures Ends(c, fs, Apply(s, e)) && c == b + [Apply(s, e)] && |fs| == |es| + 1
  {
    c, fs := b + [Apply(s, e)], es + [e];
    hide EventOk, Apply;
  }

  const GO: Event := By(0, Collect)

  /** Three steps add a pool. */
  lemma AddPool(b: seq<State>, es: seq<Event>, n: nat, blk: nat) returns (c: seq<State>, fs: seq<Event>)
    requires Ends(b, es, Alone(Fresh(Nulls(n, blk)), CLEAR))
    ensures Ends(c, fs, Alone(Fresh(Nulls(n + 1, blk)), CLEAR)) && b <= c
  {
    hide Run;
    var m := Fresh(Nulls(n, blk));
    c, fs := OneMore(b, es, Alone(m, CLEAR), By(0, NewPool(blk)));
    c, fs := OneMore(c, fs, Alone(m, CLEAR.(pc := PoolRead(blk))), GO);
    c, fs := OneMore(c, fs, Alone(m, CLEAR.(pc := PoolCas(blk, n))), GO);
    assert Nulls(n, blk) + [seq(32 * blk, _ => 0)] == Nulls(n + 1, blk);
  }

  lemma {:induction false} AddPools(n: nat, blk: nat) returns (b: seq<State>, es: seq<Event>)
    ensures Ends(b, es, Alone(Fresh(Nulls(n, blk)), CLEAR)) && Start(b[0])
  {
    if n == 0 {
      b, es := [Alone(Fresh([]), CLEAR)], [];
      assert Nulls(0, blk) == [];
    } else {
      b, es := AddPools(n - 1, blk);
      b, es := AddPool(b, es, n - 1, blk);
    }
  }

  /** A longer run, whose new states have the object in slot `p`. */
  ghost predicate Holding(b: seq<State>, c: seq<State>, p: Slot, o: nat) {
    b <= c && forall x | |b| <= x < |c| :: HoldsAt(c[x], p, o)
  }

  lemma HoldingOn(b: seq<State>, c: seq<State>, d: seq<State>, p: Slot, o: nat)
    requires Holding(b, c, p, o) && Holding(c, d, p, o)
    ensures Holding(b, d, p, o)
  {
    hide HoldsAt;
    forall x | |b| <= x < |d|
      ensures HoldsAt(d[x], p, o)
    {
      if x < |c| {
        assert d[x] == c[x];
      }
    }
  }

  /** One event more that leaves slot `p` as it is. */
  lemma OneHolding(b: seq<State>, es: seq<Event>, s: State, e: Event, p: Slot, o: nat)
    returns (c: seq<State>, fs: seq<Event>)
    requires Ends(b, es, s) && EventOk(s, e) && HoldsAt(Apply(s, e), p, o)
    ensures Ends(c, fs, Apply(s, e)) && Holding(b, c, p, o) && c == b + [Apply(s, e)]
  {
    c, fs := OneMore(b, es, s, e);
    hide *;
  }

  ghost function Collector(pc: Pc, n: nat, size: nat): Thread {
    Thread(pc, 0, [], [0], n, size, [])
  }

  /** The object is retired, and a collect swaps the list out. */
  lemma Retire(b: seq<State>, es: seq<Event>, pools: seq<seq<nat>>, p: Slot, o: nat)
    returns (c: seq<State>, fs: seq<Event>)
    requires Ends(b, es, Alone(Fresh(pools), CLEAR)) && o != 0 && o % 2 == 0
    requires HoldsAt(Alone(Fresh(pools), CLEAR), p, o)
    ensures Ends(c, fs, Alone(Swapped(pools, o), Collector(OpenPools(false), 0, 0))) && Holding(b, c, p, o)
  {
    hide Run;
    var d: seq<State>;
    var m := Swapped(pools, o);
    d, fs := OneHolding(b, es, Alone(Fresh(pools), CLEAR), By(0, Enqueue(o)), p, o);
    c, fs := OneHolding(d, fs, Alone(m, CLEAR.(pc := PushRead(0, false))), GO, p, o);
    HoldingOn(b, d, c, p, o);
    d, fs := OneHolding(c, fs, Alone(m, CLEAR.(pc := PushCas(0, false))), GO, p, o);
    HoldingOn(b, c, d, p, o);
    c, fs := OneHolding(d, fs, Alone(m.(head := Some(0), shared := [0]), CLEAR), GO, p, o);
    HoldingOn(b, d, c, p, o);
  }

  /** The first pass counts all pools. */
  lemma {:induction false} CountDown(b: seq<State>, es: seq<Event>, m: Memory, i: nat, size: nat, p: Slot, o: nat)
    returns (c: seq<State>, fs: seq<Event>, total: nat)
    requires Ends(b, es, Alone(m, Collector(CountPool(false, i), |m.pools|, size)))
    requires i <= |m.pools| && |m.nodes| == 1 && Holds(Alone(m, CLEAR), p.pool, p.ix, o)
    ensures Ends(c, fs, Alone(m, Collector(CopySlot(false, |m.pools|, 0), |m.pools|, total))) && Holding(b, c, p, o)
    decreases i
  {
    hide Run, Holding;
    var d: seq<State>;
    var s := Alone(m, Collector(CountPool(false, i), |m.pools|, size));
    d, fs := OneHolding(b, es, s, GO, p, o);
    if i == 0 {
      c, total := d, size;
    } else {
      c, fs, total := CountDown(d, fs, m, i - 1, size + |m.pools[i - 1]|, p, o);
      HoldingOn(b, d, c, p, o);
    }
  }

  /** A place in the second pass: about to read slot `y` of pool `x - 1`, or past all pools. */
  ghost predicate PlaceOk(pools: seq<seq<nat>>, x: nat, y: nat) {
    x <= |pools| && if x == 0 then y == 0 else y <= |pools[x - 1]|
  }

  predicate Before(x: nat, y: nat, u: nat, v: nat) {
    u < x || (u == x && y < v)
  }

  /** No slot between the two places holds anything. */
  ghost predicate NullBetween(pools: seq<seq<nat>>, x: nat, y: nat, u: nat, v: nat) {
    forall i, j | 0 <= i < |pools| && 0 <= j < |pools[i]| && !Before(i + 1, j, x, y) && Before(i + 1, j, u, v) ::
      pools[i][j] == 0
  }

  /** The second pass from one place to another, past slots that hold nothing. */
  lemma {:induction false} CopyOn(b: seq<State>, es: seq<Event>, m: Memory, size: nat, x: nat, y: nat, u: nat, v: nat, p: Slot, o: nat)
    returns (c: seq<State>, fs: seq<Event>)
    requires Ends(b, es, Alone(m, Collector(CopySlot(false, x, y), |m.pools|, size)))
    requires |m.nodes| == 1 && Holds(Alone(m, CLEAR), p.pool, p.ix, o)
    requires PlaceOk(m.pools, x, y) && PlaceOk(m.pools, u, v) && (Before(x, y, u, v) || (x == u && y == v))
    requires NullBetween(m.pools, x, y, u, v)
    ensures Ends(c, fs, Alone(m, Collector(CopySlot(false, u, v), |m.pools|, size))) && Holding(b, c, p, o)
    decreases x, if x > 0 then |m.pools[x - 1]| - y else 0
  {
    hide Run, Holding;
    c, fs := b, es;
    if x == u && y == v {
      HoldsNothingNew(b, p, o);
    } else {
      var d: seq<State>;
      d, fs := OneHolding(b, es, Alone(m, Collector(CopySlot(false, x, y), |m.pools|, size)), GO, p, o);
      if y == |m.pools[x - 1]| {
        c, fs := CopyOn(d, fs, m, size, x - 1, 0, u, v, p, o);
      } else {
        assert m.pools[x - 1][y] == 0;
        c, fs := CopyOn(d, fs, m, size, x, y + 1, u, v, p, o);
      }
      HoldingOn(b, d, c, p, o);
    }
  }

  lemma HoldsNothingNew(b: seq<State>, p: Slot, o: nat)
    ensures Holding(b, b, p, o)
  {
  }

  /** The pools when only slot `p` holds the object; a pool for each slot, and large enough. */
  ghost function Only(n: nat, blk: nat, p: Slot, o: nat): (pools: seq<seq<nat>>)
    requires p.pool < n && p.ix < 32 * blk
    ensures |pools| == n
    ensures forall i | 0 <= i < n :: |pools[i]| == 32 * blk
    ensures forall i, j | 0 <= i < n && 0 <= j < 32 * blk :: pools[i][j] == if i == p.pool && j == p.ix then o else 0
  {
    Stored(Nulls(n, blk), p.pool, p.ix, o)
  }

  ghost function Both(n: nat, blk: nat, p: Slot, q: Slot, o: nat): (pools: seq<seq<nat>>)
    requires p.pool < n && p.ix < 32 * blk && q.pool < n && q.ix < 32 * blk
    ensures |pools| == n && forall i | 0 <= i < n :: |pools[i]| == 32 * blk
  {
    Stored(Only(n, blk, p, o), q.pool, q.ix, o)
  }

  lemma LetGo(n: nat, blk: nat, p: Slot, q: Slot, o: nat)
    requires p.pool < n && p.ix < 32 * blk && q.pool < n && q.ix < 32 * blk && p != q
    ensures Stored(Both(n, blk, p, q, o), p.pool, p.ix, 0) == Only(n, blk, q, o)
  {
    var a, c := Stored(Both(n, blk, p, q, o), p.pool, p.ix, 0), Only(n, blk, q, o);
    forall i | 0 <= i < n
      ensures a[i] == c[i]
    {
      assert |a[i]| == |c[i]| && forall j | 0 <= j < 32 * blk :: a[i][j] == c[i][j];
    }
  }

  /** The object is in slot `p`, retired, and a collect has read slot `q` and all before it. */
  lemma UpToTheMove(n: nat, blk: nat, p: Slot, q: Slot, o: nat)
    returns (b: seq<State>, es: seq<Event>, m: nat, size: nat)
    requires p.pool < n && p.ix < 32 * blk && q.pool < n && q.ix < 32 * blk && !NotBefore(p, q) && o != 0 && o % 2 == 0
    ensures Ends(b, es, Alone(Swapped(Only(n, blk, p, o), o), Collector(CopySlot(false, q.pool + 1, q.ix + 1), n, size)))
    ensures m < |b| && Start(b[0]) && o !in b[m].mem.retired && forall x | m <= x < |b| :: HoldsAt(b[x], p, o)
  {
    hide Run, Start;
    var pools := Only(n, blk, p, o);
    var a, fs := AddPools(n, blk);
    var c, gs := OneMore(a, fs, Alone(Fresh(Nulls(n, blk)), CLEAR), Store(p.pool, p.ix, o));
    m := |a|;
    b, es := Retire(c, gs, pools, p, o);
    var d := b;
    d, es := OneHolding(b, es, Alone(Swapped(pools, o), Collector(OpenPools(false), 0, 0)), GO, p, o);
    HoldingOn(c, b, d, p, o);
    b, es, size := CountDown(d, es, Swapped(pools, o), n, 0, p, o);
    HoldingOn(c, d, b, p, o);
    d := b;
    b, es := CopyOn(b, es, Swapped(pools, o), size, n, 0, q.pool + 1, q.ix + 1, p, o);
    HoldingOn(c, d, b, p, o);
  }

  /** The object is in slot `q` only, which the collect has passed: it is reclaimed. */
  lemma AfterTheMove(b: seq<State>, es: seq<Event>, n: nat, blk: nat, q: Slot, o: nat, size: nat)
    returns (c: seq<State>, fs: seq<Event>)
    requires q.pool < n && q.ix < 32 * blk && o != 0 && o % 2 == 0
    requires Ends(b, es, Alone(Swapped(Only(n, blk, q, o), o), Collector(CopySlot(false, q.pool + 1, q.ix + 1), n, size)))
    ensures Run(c, fs) && Holding(b, c, q, o) && c != [] && o in c[|c| - 1].mem.reclaimed
  {
    hide Run, Holding;
    var m := Swapped(Only(n, blk, q, o), o);
    var d: seq<State>;
    c, fs := CopyOn(b, es, m, size, q.pool + 1, q.ix + 1, 0, 0, q, o);
    d, fs := OneHolding(c, fs, Alone(m, Collector(CopySlot(false, 0, 0), n, size)), GO, q, o);
    HoldingOn(b, c, d, q, o);
    c, fs := OneHolding(d, fs, Alone(m, Collector(Sweep(0), n, size)), GO, q, o);
    HoldingOn(b, d, c, q, o);
  }

  /** Handed back, against the order of snapshots, an object can be reclaimed while it is held. */
  lemma BackwardsFails(p: Slot, q: Slot, o: nat) returns (b: seq<State>, es: seq<Event>, m: nat, k: nat)
    requires !NotBefore(p, q) && o != 0 && o % 2 == 0
    ensures b != [] && HandOver(b, es, m, k, |b| - 1, p, q, o) && o in b[|b| - 1].mem.reclaimed
  {
    var n, blk := p.pool + q.pool + 1, p.ix + q.ix + 1;
    hide Run, Start;
    var size: nat, a: seq<State>, c: seq<State>;
    a, es, m, size := UpToTheMove(n, blk, p, q, o);
    var th := Collector(CopySlot(false, q.pool + 1, q.ix + 1), n, size);
    c, es := OneHolding(a, es, Alone(Swapped(Only(n, blk, p, o), o), th), Store(q.pool, q.ix, o), p, o);
    k := |a|;
    LetGo(n, blk, p, q, o);
    var d, fs := OneHolding(c, es, Alone(Swapped(Both(n, blk, p, q, o), o), th), Store(p.pool, p.ix, 0), q, o);
    b, es := AfterTheMove(d, fs, n, blk, q, o, size);
    HoldingOn(c, d, b, q, o);
    HeldThroughout(a, c, b, m, p, q, o);
  }

  lemma HeldThroughout(a: seq<State>, c: seq<State>, b: seq<State>, m: nat, p: Slot, q: Slot, o: nat)
    requires Holding(a, c, p, o) && Holding(c, b, q, o) && |c| == |a| + 1 && HoldsAt(c[|a|], q, o) && m < |a|
    requires forall x | m <= x < |a| :: HoldsAt(a[x], p, o)
    ensures |a| < |b| && b[0] == a[0] && b[m] == a[m]
    ensures forall x | m <= x <= |a| :: HoldsAt(b[x], p, o)
    ensures forall x | |a| <= x < |b| :: HoldsAt(b[x], q, o)
  {
    hide HoldsAt;
    forall x | m <= x <= |a|
      ensures HoldsAt(b[x], p, o)
    {
      assert b[x] == c[x] && (x < |a| ==> b[x] == a[x]);
    }
    assert b[|a|] == c[|a|];
  }

  /** Handing over is safe in every run if and only if snapshots do not read the new slot first. */
  lemma HandOverSafe(p: Slot, q: Slot, o: nat)
    requires o != 0 && o % 2 == 0
    ensures Safe(p, q, o) <==> NotBefore(p, q)
  {
    hide Run, Start, HoldsAt;
    if NotBefore(p, q) {
      forall b: seq<State>, es: seq<Event>, m: nat, k: nat, n: nat | HandOver(b, es, m, k, n, p, q, o)
        ensures o !in b[n].mem.reclaimed
      {
        OnwardsIsSafe(b, es, m, k, n, p, q, o);
      }
    } else {
      var b, es, m, k := BackwardsFails(p, q, o);
    }
  }
}
