// The end of the interleaved model's life: when every thread is idle, no context
// has items left and no hazard slot holds anything, one collect reclaims all that
// is left (hazard_pointer.hpp:458-468; hazard_pointer.cpp:306-329, 418-470).

module ReclamationEnd {
  import opened Options
  import opened Counting
  import opened Reclamation

  /** Thread `u` is idle, with an empty array and an empty private list. */
  ghost predicate AtRest(th: Thread) {
    th.pc.Idle? && th.deleted == [] && th.local == []
  }

  ghost predicate NothingHeld(m: Memory) {
    forall i, j | 0 <= i < |m.pools| && 0 <= j < |m.pools[i]| :: m.pools[i][j] == 0
  }

  /** All contexts have been destroyed: their arrays are empty and their slots null. */
  ghost predicate Quiet(s: State) {
    NothingHeld(s.mem) && forall u | 0 <= u < |s.threads| :: AtRest(s.threads[u])
  }

  /** A collector that has swapped out the list and finds nothing protected. */
  ghost predicate Winding(s: State, t: nat) {
    && t < |s.threads| && Inv(s) && NothingHeld(s.mem) && s.mem.shared == []
    && (forall u | 0 <= u < |s.threads| && u != t :: AtRest(s.threads[u]))
    && s.threads[t].deleted == []
    && match s.threads[t].pc
       case Idle => s.threads[t].local == []
       case OpenPools(own) => !own
       case CountPool(own, _) => !own && s.threads[t].buf == []
       case CopySlot(own, _, _) => !own && s.threads[t].buf == []
       case Sweep(k) => k == 0 && s.threads[t].buf == []
       case _ => false
  }

  lemma WindStep(s: State, t: nat)
    requires Winding(s, t) && !s.threads[t].pc.Idle?
    ensures EventOk(s, By(t, Collect)) && Winding(Apply(s, By(t, Collect)), t)
    ensures Apply(s, By(t, Collect)).mem.retired == s.mem.retired
  {
    hide Partition, Chains, Ledger, Fits, Distinct, Begin;
    var th := s.threads[t];
    assert ThreadOk(s.mem, th);
    StepInv(s, By(t, Collect));
    hide Inv;
  }

  lemma WindBegin(s: State, t: nat)
    requires Inv(s) && Quiet(s) && t < |s.threads|
    ensures EventOk(s, By(t, Collect)) && Winding(Apply(s, By(t, Collect)), t)
    ensures Apply(s, By(t, Collect)).mem.retired == s.mem.retired
  {
    assert ThreadOk(s.mem, s.threads[t]);
    StepInv(s, By(t, Collect));
  }

  /** How far a collector is from its end. */
  ghost function Phase(th: Thread): nat {
    match th.pc
    case OpenPools(_) => 3
    case CountPool(_, _) => 2
    case CopySlot(_, _, _) => 1
    case _ => 0
  }

  ghost function Pools(th: Thread): nat {
    match th.pc
    case CountPool(_, i) => i
    case CopySlot(_, i, _) => i
    case Sweep(_) => |th.local| + 1
    case _ => 0
  }

  ghost function Slots(m: Memory, th: Thread): nat {
    match th.pc
    case CopySlot(_, i, j) => if 0 < i <= |m.pools| && j <= |m.pools[i - 1]| then |m.pools[i - 1]| - j else 0
    case _ => 0
  }

  lemma Nearer(s: State, t: nat)
    requires Winding(s, t) && !s.threads[t].pc.Idle? && EventOk(s, By(t, Collect))
    ensures var th, s' := s.threads[t], Apply(s, By(t, Collect)); var th' := s'.threads[t];
            || Phase(th') < Phase(th)
            || (Phase(th') == Phase(th) && Pools(th') < Pools(th))
            || (Phase(th') == Phase(th) && Pools(th') == Pools(th) && Slots(s'.mem, th') < Slots(s.mem, th))
  {
    assert ThreadOk(s.mem, s.threads[t]);
  }

  lemma RunFront(s: State, e: Event, b: seq<State>, es: seq<Event>)
    requires EventOk(s, e) && Run(b, es) && b[0] == Apply(s, e)
    ensures Run([s] + b, [e] + es)
  {
    hide EventOk, Apply;
  }

  lemma RunLength(b: seq<State>, es: seq<Event>)
    requires Run(b, es)
    ensures |b| == |es| + 1
  {
  }

  /** The collector's steps, to its end. */
  lemma {:induction false} WindUp(s: State, t: nat) returns (b: seq<State>, es: seq<Event>)
    requires Winding(s, t)
    ensures Run(b, es) && b[0] == s && forall e | e in es :: e == By(t, Collect)
    ensures Winding(b[|es|], t) && b[|es|].threads[t].pc.Idle? && b[|es|].mem.retired == s.mem.retired
    decreases Phase(s.threads[t]), Pools(s.threads[t]), Slots(s.mem, s.threads[t])
  {
    b, es := [s], [];
    hide Inv, Apply, EventOk, Phase, Pools, Slots;
    if !s.threads[t].pc.Idle? {
      WindStep(s, t);
      Nearer(s, t);
      var c, fs := WindUp(Apply(s, By(t, Collect)), t);
      RunFront(s, By(t, Collect), c, fs);
      b, es := [s] + c, [By(t, Collect)] + fs;
    }
  }

  /** At the end nothing is left: all that was retired has been reclaimed, each object once. */
  lemma WoundUp(s: State, t: nat, o: nat)
    requires Winding(s, t) && s.threads[t].pc.Idle? && o != 0
    ensures Quiet(s) && s.mem.shared == [] && s.mem.head == None
    ensures Count(s.mem.reclaimed, o) == Count(s.mem.retired, o) == if o in s.mem.retired then 1 else 0
  {
    forall u | 0 <= u < |s.threads|
      ensures Held(s.mem, s.threads[u], o) == 0
    {
    }
    NobodyHolds(s.mem, s.threads, o);
    DistinctCount(s.mem.retired, o);
    CountIn(s.mem.retired, o);
  }

  lemma {:induction false} NobodyHolds(m: Memory, ths: seq<Thread>, o: nat)
    requires forall u | 0 <= u < |ths| :: Held(m, ths[u], o) == 0
    ensures HeldBy(m, ths, o) == 0
  {
    if ths != [] {
      NobodyHolds(m, ths[1..], o);
    }
  }

  /**
   * The end of life: from any run that has come to rest with no slot holding anything, one more
   * collect by any thread runs to its end and leaves an empty list, with everything ever retired
   * reclaimed exactly once.
   */
  lemma LastCollect(b: seq<State>, es: seq<Event>, t: nat) returns (c: seq<State>, fs: seq<Event>)
    requires Run(b, es) && Start(b[0]) && Quiet(b[|es|]) && t < |b[|es|].threads|
    ensures Run(c, fs) && c[0] == b[|es|] && fs != [] && forall e | e in fs :: e == By(t, Collect)
    ensures var m := c[|fs|].mem;
            && Quiet(c[|fs|]) && m.shared == [] && m.head == None && m.retired == b[|es|].mem.retired
            && forall o: nat | o != 0 :: Count(m.reclaimed, o) == if o in m.retired then 1 else 0
  {
    hide Run, Inv, Quiet, Winding, Apply, EventOk, Start, Count;
    RunLength(b, es);
    RunInv(b, es, |es|);
    var s := b[|es|];
    WindBegin(s, t);
    var d, gs := WindUp(Apply(s, By(t, Collect)), t);
    RunLength(d, gs);
    RunFront(s, By(t, Collect), d, gs);
    c, fs := [s] + d, [By(t, Collect)] + gs;
    forall o: nat | o != 0
      ensures Quiet(d[|gs|]) && d[|gs|].mem.shared == [] && d[|gs|].mem.head == None
      ensures Count(d[|gs|].mem.reclaimed, o) == if o in d[|gs|].mem.retired then 1 else 0
    {
      WoundUp(d[|gs|], t, o);
    }
    WoundUp(d[|gs|], t, 1);
  }
}
