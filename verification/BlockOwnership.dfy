// Who owns which block of a hazard pointer pool, when threads reserve and release
// blocks at the same time (hazard_pointer.cpp:84-160).
//
// One event is one atomic load, store or compare-and-swap.  The bitmap is the set
// `taken` of its bits; exclusive-or with one bit's mask is `Flip`.  A client
// releases a block it reserved, once, and stores only to blocks it has.

module BlockOwnership {
  import opened Options
  import opened Blocks

  datatype Pc =
    | Idle
    | Load(len: nat)
    | ReserveCas(expected: set<nat>)
    | Test(ix: nat, x: nat)
    | Null(ix: nat, x: nat)
    | ReleaseLoad(ix: nat)
    | ReleaseCas(ix: nat, expected: set<nat>)

  /** `owned` are the blocks a thread was handed and has not given back. */
  datatype Thread = Thread(pc: Pc, owned: set<nat>, result: Option<nat>)

  datatype Pool = Pool(blk: nat, taken: set<nat>, blocks: seq<seq<nat>>)

  datatype State = State(pool: Pool, threads: seq<Thread>)

  datatype Call = Reserve(len: nat) | Release(ix: nat) | Store(ix: nat, x: nat, v: nat)

  predicate PoolOk(p: Pool) {
    && (forall ix | ix in p.taken :: ix < BLOCKS)
    && |p.blocks| == BLOCKS && forall ix | 0 <= ix < BLOCKS :: |p.blocks[ix]| == p.blk
  }

  predicate ThreadOk(p: Pool, th: Thread) {
    && (forall ix | ix in th.owned :: ix < BLOCKS)
    && match th.pc
       case Test(ix, x) => ix in th.owned && x <= p.blk
       case Null(ix, x) => ix in th.owned && x < p.blk
       case ReleaseLoad(ix) => ix in th.owned
       case ReleaseCas(ix, _) => ix in th.owned
       case ReserveCas(expected) => forall ix | ix in expected :: ix < BLOCKS
       case _ => true
  }

  predicate CallOk(p: Pool, th: Thread, call: Call) {
    match call
    case Reserve(_) => true
    case Release(ix) => ix in th.owned
    case Store(ix, x, _) => ix in th.owned && x < p.blk
  }

  function Put(p: Pool, ix: nat, x: nat, v: nat): Pool
    requires PoolOk(p) && ix < BLOCKS && x < p.blk
  {
    var block: seq<nat> := p.blocks[ix][x := v];
    p.(blocks := p.blocks[ix := block])
  }

  function Begin(p: Pool, th: Thread, call: Call): (r: (Pool, Thread))
    requires PoolOk(p) && ThreadOk(p, th) && CallOk(p, th, call)
  {
    match call
    case Reserve(len) => (p, th.(pc := Load(len)))
    case Release(ix) => (p, th.(pc := Test(ix, 0)))
    case Store(ix, x, v) => (Put(p, ix, x, v), th)
  }

  function ReserveOf(p: Pool, th: Thread, expected: set<nat>): (r: (Pool, Thread)) {
    var ix := Scan(expected, 0);
    if ix == BLOCKS then (p, th.(pc := Idle, result := None))
    else if p.taken == expected then
      (p.(taken := expected + {ix}), th.(pc := Idle, owned := th.owned + {ix}, result := Some(ix)))
    else (p, th.(pc := ReserveCas(p.taken)))
  }

  function Act(p: Pool, th: Thread): (r: (Pool, Thread))
    requires PoolOk(p) && ThreadOk(p, th)
  {
    match th.pc
    case Idle => (p, th)
    case Load(len) =>
      (p, th.(pc := if len == p.blk then ReserveCas(p.taken) else Idle, result := None))
    case ReserveCas(expected) => ReserveOf(p, th, expected)
    case Test(ix, x) =>
      if x == p.blk then (p, th.(pc := ReleaseLoad(ix)))
      else (p, th.(pc := if p.blocks[ix][x] != 0 then Null(ix, x) else Test(ix, x + 1)))
    case Null(ix, x) => (Put(p, ix, x, 0), th.(pc := Test(ix, x + 1)))
    case ReleaseLoad(ix) => (p, th.(pc := ReleaseCas(ix, p.taken)))
    case ReleaseCas(ix, expected) =>
      if p.taken == expected then (p.(taken := Flip(expected, ix)), th.(pc := Idle, owned := th.owned - {ix}))
      else (p, th.(pc := ReleaseLoad(ix)))
  }

  datatype Event = Event(t: nat, call: Call)

  predicate EventOk(s: State, e: Event) {
    && e.t < |s.threads| && PoolOk(s.pool) && ThreadOk(s.pool, s.threads[e.t])
    && (s.threads[e.t].pc.Idle? ==> CallOk(s.pool, s.threads[e.t], e.call))
  }

  function StepOf(s: State, e: Event): (Pool, Thread)
    requires EventOk(s, e)
  {
    if s.threads[e.t].pc.Idle? then Begin(s.pool, s.threads[e.t], e.call) else Act(s.pool, s.threads[e.t])
  }

  function Apply(s: State, e: Event): State
    requires EventOk(s, e)
  {
    var (p, th) := StepOf(s, e);
    State(p, s.threads[e.t := th])
  }

  // ---- the invariant ----

  ghost predicate AllNull(block: seq<nat>) {
    forall x | 0 <= x < |block| :: block[x] == 0
  }

  /** A release has nulled its block up to where it stands, and stores only where there is something. */
  ghost predicate Cleared(p: Pool, th: Thread)
    requires PoolOk(p) && ThreadOk(p, th)
  {
    match th.pc
    case Test(ix, x) => forall k | 0 <= k < x :: p.blocks[ix][k] == 0
    case Null(ix, x) => p.blocks[ix][x] != 0 && forall k | 0 <= k < x :: p.blocks[ix][k] == 0
    case ReleaseLoad(ix) => AllNull(p.blocks[ix])
    case ReleaseCas(ix, _) => AllNull(p.blocks[ix])
    case _ => true
  }

  ghost predicate Inv(s: State) {
    && PoolOk(s.pool)
    && (forall t | 0 <= t < |s.threads| :: ThreadOk(s.pool, s.threads[t]) && Cleared(s.pool, s.threads[t]))
    && (forall ix | ix in s.pool.taken :: exists t :: 0 <= t < |s.threads| && ix in s.threads[t].owned)
    && (forall t | 0 <= t < |s.threads| :: s.threads[t].owned <= s.pool.taken)
    && (forall t, u | 0 <= t < u < |s.threads| :: s.threads[t].owned !! s.threads[u].owned)
    && (forall ix | 0 <= ix < BLOCKS && ix !in s.pool.taken :: AllNull(s.pool.blocks[ix]))
  }

  /** What one thread's step may do to the pool: its own blocks, and the bits it gains or loses. */
  ghost predicate Local(p: Pool, th: Thread, p': Pool, th': Thread)
    requires PoolOk(p) && ThreadOk(p, th)
  {
    && PoolOk(p') && p'.blk == p.blk && ThreadOk(p', th')
    && (forall ix | 0 <= ix < BLOCKS && ix !in th.owned :: p'.blocks[ix] == p.blocks[ix])
    && (forall ix: nat | ix !in th.owned && ix !in th'.owned :: ix in p'.taken <==> ix in p.taken)
    && (forall ix | ix in th'.owned && ix !in th.owned :: ix !in p.taken)
    && th'.owned <= p'.taken
    && (forall ix | ix in th.owned && ix !in th'.owned :: ix !in p'.taken && AllNull(p'.blocks[ix]))
  }

  lemma BeginLocal(p: Pool, th: Thread, call: Call)
    requires PoolOk(p) && ThreadOk(p, th) && CallOk(p, th, call) && th.owned <= p.taken && th.pc.Idle?
    ensures var (p', th') := Begin(p, th, call); Local(p, th, p', th') && Cleared(p', th')
  {
  }

  lemma ActLocal(p: Pool, th: Thread)
    requires PoolOk(p) && ThreadOk(p, th) && Cleared(p, th) && th.owned <= p.taken
    ensures var (p', th') := Act(p, th); Local(p, th, p', th') && Cleared(p', th')
  {
  }

  lemma StepLocal(s: State, e: Event)
    requires Inv(s) && EventOk(s, e)
    ensures var (p, th) := StepOf(s, e); Local(s.pool, s.threads[e.t], p, th) && Cleared(p, th)
  {
    if s.threads[e.t].pc.Idle? {
      BeginLocal(s.pool, s.threads[e.t], e.call);
    } else {
      ActLocal(s.pool, s.threads[e.t]);
    }
  }

  lemma OthersStay(s: State, e: Event, u: nat)
    requires Inv(s) && EventOk(s, e) && u < |s.threads| && u != e.t
    requires Local(s.pool, s.threads[e.t], StepOf(s, e).0, StepOf(s, e).1)
    ensures var (p, th) := StepOf(s, e); var v := s.threads[u];
            && ThreadOk(p, v) && Cleared(p, v) && v.owned <= p.taken && v.owned !! th.owned
  {
    hide Begin, Act;
    var th := s.threads[e.t];
    assert th.owned !! s.threads[u].owned;
  }

  lemma SetBitsHaveOwners(s: State, e: Event, ix: nat)
    requires Inv(s) && EventOk(s, e) && ix in Apply(s, e).pool.taken
    requires Local(s.pool, s.threads[e.t], StepOf(s, e).0, StepOf(s, e).1)
    ensures exists t :: 0 <= t < |s.threads| && ix in Apply(s, e).threads[t].owned
  {
    hide Begin, Act;
    var s' := Apply(s, e);
    if ix !in s'.threads[e.t].owned {
      assert ix in s.pool.taken;
      var t :| 0 <= t < |s.threads| && ix in s.threads[t].owned;
      assert t != e.t;
      assert ix in s'.threads[t].owned;
    }
  }

  /** Every step keeps the invariant. */
  lemma StepKeepsInv(s: State, e: Event)
    requires Inv(s) && EventOk(s, e)
    ensures Inv(Apply(s, e))
  {
    hide Begin, Act, CallOk, AllNull, Cleared, ThreadOk;
    StepLocal(s, e);
    var s' := Apply(s, e);
    forall u: nat | u < |s.threads| && u != e.t
      ensures ThreadOk(s'.pool, s'.threads[u]) && Cleared(s'.pool, s'.threads[u])
      ensures s'.threads[u].owned <= s'.pool.taken && s'.threads[u].owned !! s'.threads[e.t].owned
    {
      OthersStay(s, e, u);
    }
    forall ix | ix in s'.pool.taken
      ensures exists t :: 0 <= t < |s'.threads| && ix in s'.threads[t].owned
    {
      SetBitsHaveOwners(s, e, ix);
    }
  }

  // ---- runs ----

  ghost predicate Start(s: State) {
    && PoolOk(s.pool) && s.pool.taken == {} && (forall ix | 0 <= ix < BLOCKS :: AllNull(s.pool.blocks[ix]))
    && forall t | 0 <= t < |s.threads| :: s.threads[t] == Thread(Idle, {}, None)
  }

  ghost predicate Run(b: seq<State>, es: seq<Event>) {
    && |b| == |es| + 1
    && forall k | 0 <= k < |es| :: EventOk(b[k], es[k]) && b[k + 1] == Apply(b[k], es[k])
  }

  lemma {:induction false} RunInv(b: seq<State>, es: seq<Event>, k: nat)
    requires Run(b, es) && Start(b[0]) && k < |b|
    ensures Inv(b[k])
  {
    hide EventOk;
    if k > 0 {
      RunInv(b, es, k - 1);
      hide Inv;
      StepKeepsInv(b[k - 1], es[k - 1]);
    }
  }

  /** A set bit has exactly one owner, a clear bit none; a block nobody has is all null. */
  lemma OneOwner(b: seq<State>, es: seq<Event>, k: nat, ix: nat)
    requires Run(b, es) && Start(b[0]) && k < |b| && ix < BLOCKS
    ensures ix in b[k].pool.taken <==> exists t :: 0 <= t < |b[k].threads| && ix in b[k].threads[t].owned
    ensures forall t, u | 0 <= t < |b[k].threads| && 0 <= u < |b[k].threads| ::
              ix in b[k].threads[t].owned && ix in b[k].threads[u].owned ==> t == u
    ensures ix !in b[k].pool.taken ==> ix < |b[k].pool.blocks| && AllNull(b[k].pool.blocks[ix])
  {
    RunInv(b, es, k);
  }

  /** A thread is never stuck: in every state of a run its next event is possible. */
  lemma NeverStuck(b: seq<State>, es: seq<Event>, k: nat, t: nat)
    requires Run(b, es) && Start(b[0]) && k < |b| && t < |b[k].threads|
    ensures EventOk(b[k], Event(t, Reserve(0)))
  {
    RunInv(b, es, k);
  }

  /** A block is handed out only when nobody has it, all null, and it is the first free one. */
  lemma HandedOut(b: seq<State>, es: seq<Event>, k: nat, ix: nat)
    requires Run(b, es) && Start(b[0]) && k < |es|
    requires ix in b[k + 1].threads[es[k].t].owned && ix !in b[k].threads[es[k].t].owned
    ensures ix < BLOCKS && ix !in b[k].pool.taken && b[k + 1].pool.taken == b[k].pool.taken + {ix}
    ensures forall j | 0 <= j < ix :: j in b[k].pool.taken
    ensures forall t | 0 <= t < |b[k].threads| :: ix !in b[k].threads[t].owned
    ensures ix < |b[k + 1].pool.blocks| && AllNull(b[k + 1].pool.blocks[ix])
    ensures b[k + 1].threads[es[k].t].result == Some(ix)
  {
    RunInv(b, es, k);
  }

  /** Giving a block back clears its own bit and no other. */
  lemma GivenBack(b: seq<State>, es: seq<Event>, k: nat, ix: nat)
    requires Run(b, es) && Start(b[0]) && k < |es|
    requires ix in b[k].threads[es[k].t].owned && ix !in b[k + 1].threads[es[k].t].owned
    ensures ix in b[k].pool.taken && b[k + 1].pool.taken == b[k].pool.taken - {ix}
    ensures ix < |b[k + 1].pool.blocks| && AllNull(b[k + 1].pool.blocks[ix])
  {
    RunInv(b, es, k);
    RunInv(b, es, k + 1);
  }

  /** A reservation comes back empty-handed only for another block size or from a full bitmap it read. */
  lemma FailsWhenFull(p: Pool, th: Thread)
    requires PoolOk(p) && ThreadOk(p, th) && th.pc.ReserveCas?
    ensures var (p', th') := Act(p, th);
            th'.pc.Idle? && th'.result.None? <==> forall ix | 0 <= ix < BLOCKS :: ix in th.pc.expected
  {
    var r := Scan(th.pc.expected, 0);
    assert r < BLOCKS ==> r !in th.pc.expected;
  }

  // ---- whole calls ----

  /** Thread `t`, idle in state `lo`, starts `call` there; the call ends in state `hi`. */
  ghost predicate CallIs(b: seq<State>, es: seq<Event>, t: nat, call: Call, lo: nat, hi: nat) {
    && Run(b, es) && Start(b[0]) && lo < hi < |b| && t < |b[lo].threads| && es[lo] == Event(t, call)
    && (forall k | lo <= k <= hi :: t < |b[k].threads|)
    && (forall k | lo < k < hi :: !b[k].threads[t].pc.Idle?)
    && b[lo].threads[t].pc.Idle? && b[hi].threads[t].pc.Idle?
  }

  lemma OthersKeep(s: State, e: Event, t: nat)
    requires EventOk(s, e) && t < |s.threads| && t != e.t
    ensures |Apply(s, e).threads| == |s.threads| && Apply(s, e).threads[t] == s.threads[t]
  {
  }

  /** A reservation so far: it has the block size of the pool, and has seen the bitmap it expects. */
  ghost predicate Reserving(b: seq<State>, t: nat, len: nat, lo: nat, k: nat)
    requires lo < k < |b| && t < |b[lo].threads| && t < |b[k].threads|
  {
    var th := b[k].threads[t];
    && b[k].pool.blk == b[lo].pool.blk && th.owned == b[lo].threads[t].owned
    && (th.pc == Load(len)
        || (th.pc.ReserveCas? && len == b[lo].pool.blk && SeenBy(b, lo, k, th.pc.expected)))
  }

  /** The bitmap had this value at a moment of the call. */
  ghost predicate SeenBy(b: seq<State>, lo: nat, k: nat, bits: set<nat>) {
    exists m :: lo <= m <= k < |b| && b[m].pool.taken == bits
  }

  lemma {:induction false} ReservingSo(b: seq<State>, es: seq<Event>, t: nat, len: nat, lo: nat, k: nat)
    requires Run(b, es) && lo < k < |b| && es[lo] == Event(t, Reserve(len))
    requires forall j | lo <= j <= k :: t < |b[j].threads|
    requires b[lo].threads[t].pc.Idle? && forall j | lo < j <= k :: !b[j].threads[t].pc.Idle?
    ensures Reserving(b, t, len, lo, k)
    decreases k
  {
    if k > lo + 1 {
      ReservingSo(b, es, t, len, lo, k - 1);
      if es[k - 1].t != t {
        OthersKeep(b[k - 1], es[k - 1], t);
        SameSize(b[k - 1], es[k - 1]);
        if b[k].threads[t].pc.ReserveCas? {
          SeenLater(b, lo, k - 1, b[k].threads[t].pc.expected);
        }
      } else if b[k].threads[t].pc.ReserveCas? {
        assert b[k - 1].pool.taken == b[k].threads[t].pc.expected;
      }
    }
  }

  lemma SeenLater(b: seq<State>, lo: nat, k: nat, bits: set<nat>)
    requires SeenBy(b, lo, k, bits) && k + 1 < |b|
    ensures SeenBy(b, lo, k + 1, bits)
  {
  }

  lemma SameSize(s: State, e: Event)
    requires EventOk(s, e)
    ensures Apply(s, e).pool.blk == s.pool.blk
  {
  }

  /**
   * What a whole reservation answers: the block that it has come to own, or nothing, and then the
   * size is not the pool's or every block was taken at some moment of the call.
   */
  lemma WholeReserve(b: seq<State>, es: seq<Event>, t: nat, len: nat, lo: nat, hi: nat)
    requires CallIs(b, es, t, Reserve(len), lo, hi)
    ensures var th, th' := b[lo].threads[t], b[hi].threads[t];
            match th'.result
            case Some(ix) => len == b[lo].pool.blk && ix < BLOCKS && ix !in th.owned && th'.owned == th.owned + {ix}
            case None => th'.owned == th.owned && (len != b[lo].pool.blk || FullAt(b, lo, hi))
  {
    hide Inv, Apply, ThreadOk, PoolOk;
    var k := hi - 1;
    ReserveBegins(b[lo], es[lo]);
    ReservingSo(b, es, t, len, lo, k);
    RunInv(b, es, k);
    ReserveEnds(b[k], es[k], t, len);
  }

  lemma ReserveBegins(s: State, e: Event)
    requires EventOk(s, e) && e.call.Reserve? && s.threads[e.t].pc.Idle?
    ensures !Apply(s, e).threads[e.t].pc.Idle?
  {
  }

  lemma ReserveEnds(s: State, e: Event, t: nat, len: nat)
    requires Inv(s) && EventOk(s, e) && t < |s.threads| && (s.threads[t].pc == Load(len) || s.threads[t].pc.ReserveCas?)
    requires t < |Apply(s, e).threads| && Apply(s, e).threads[t].pc.Idle?
    ensures var th, th' := s.threads[t], Apply(s, e).threads[t];
            match th'.result
            case Some(ix) => th.pc.ReserveCas? && ix < BLOCKS && ix !in th.owned && th'.owned == th.owned + {ix}
            case None => th'.owned == th.owned && (if th.pc.Load? then len != s.pool.blk
                                                   else forall ix | 0 <= ix < BLOCKS :: ix in th.pc.expected)
  {
  }

  ghost predicate FullAt(b: seq<State>, lo: nat, hi: nat) {
    exists m :: lo <= m <= hi < |b| && forall ix | 0 <= ix < BLOCKS :: ix in b[m].pool.taken
  }

  ghost predicate Releasing(th: Thread, ix: nat, owned: set<nat>) {
    && th.owned == owned
    && match th.pc
       case Test(iy, _) => iy == ix
       case Null(iy, _) => iy == ix
       case ReleaseLoad(iy) => iy == ix
       case ReleaseCas(iy, _) => iy == ix
       case _ => false
  }

  lemma {:induction false} ReleasingSo(b: seq<State>, es: seq<Event>, t: nat, ix: nat, lo: nat, k: nat)
    requires Run(b, es) && lo < k < |b| && es[lo] == Event(t, Release(ix))
    requires forall j | lo <= j <= k :: t < |b[j].threads|
    requires b[lo].threads[t].pc.Idle? && forall j | lo < j <= k :: !b[j].threads[t].pc.Idle?
    ensures Releasing(b[k].threads[t], ix, b[lo].threads[t].owned)
    decreases k
  {
    if k > lo + 1 {
      ReleasingSo(b, es, t, ix, lo, k - 1);
      if es[k - 1].t != t {
        OthersKeep(b[k - 1], es[k - 1], t);
      }
    }
  }

  /** A whole release gives the block back, and no other, and leaves it null. */
  lemma WholeRelease(b: seq<State>, es: seq<Event>, t: nat, ix: nat, lo: nat, hi: nat)
    requires CallIs(b, es, t, Release(ix), lo, hi)
    ensures ix in b[lo].threads[t].owned && b[hi].threads[t].owned == b[lo].threads[t].owned - {ix}
    ensures ix !in b[hi].pool.taken && ix < |b[hi].pool.blocks| && AllNull(b[hi].pool.blocks[ix])
  {
    hide Inv, Apply, ThreadOk, PoolOk, AllNull;
    var k := hi - 1;
    ReleaseBegins(b[lo], es[lo]);
    ReleasingSo(b, es, t, ix, lo, k);
    ReleaseEnds(b[k], es[k], t, ix, b[lo].threads[t].owned);
    GivenBack(b, es, k, ix);
  }

  lemma ReleaseBegins(s: State, e: Event)
    requires EventOk(s, e) && e.call.Release? && s.threads[e.t].pc.Idle?
    ensures !Apply(s, e).threads[e.t].pc.Idle? && e.call.ix in s.threads[e.t].owned
  {
  }

  lemma ReleaseEnds(s: State, e: Event, t: nat, ix: nat, owned: set<nat>)
    requires EventOk(s, e) && t < |s.threads| && Releasing(s.threads[t], ix, owned)
    requires t < |Apply(s, e).threads| && Apply(s, e).threads[t].pc.Idle?
    ensures e.t == t && Apply(s, e).threads[t].owned == owned - {ix}
  {
  }
}
