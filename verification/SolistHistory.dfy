// One sequential history for a whole run of the list's protocol
// (solist.hpp:398-565): the finished calls can be put in one order, each at a
// moment inside the call, in which a plain set of keys gives every answer.

module SolistHistory {
  import opened SplitOrder
  import opened Powers
  import opened SolistProtocol

  /** A finished call: its thread, operation and answer, its first state and the one it ends in. */
  datatype Call = Call(t: nat, kind: Kind, key: nat, result: bool, lo: nat, hi: nat)

  // ---- the sequential set ----

  ghost predicate Answers(c: Call, s: set<nat>) {
    c.result <==> if c.kind.Insert? then c.key !in s else c.key in s
  }

  ghost function Change(c: Call, s: set<nat>): set<nat> {
    match c.kind
    case Insert => s + {c.key}
    case Delete => s - {c.key}
    case Find => s
  }

  /** One call after the other on a set that starts as `s` gives every answer and ends as `s'`. */
  ghost predicate Replays(s: set<nat>, calls: seq<Call>, s': set<nat>)
    decreases |calls|
  {
    if calls == [] then s == s'
    else Answers(calls[0], s) && Replays(Change(calls[0], s), calls[1..], s')
  }

  lemma {:induction false} ReplaysAppend(s: set<nat>, a: seq<Call>, u: set<nat>, c: seq<Call>, v: set<nat>)
    requires Replays(s, a, u) && Replays(u, c, v)
    ensures Replays(s, a + c, v)
    decreases |a|
  {
    if a == [] {
      assert a + c == c;
    } else {
      assert (a + c)[1..] == a[1..] + c;
      ReplaysAppend(Change(a[0], s), a[1..], u, c, v);
    }
  }

  /** A call that changes nothing may come first. */
  lemma ReplaysFirst(s: set<nat>, c: Call, calls: seq<Call>, s': set<nat>)
    requires Answers(c, s) && Change(c, s) == s && Replays(s, calls, s')
    ensures Replays(s, [c] + calls, s')
  {
    assert ([c] + calls)[1..] == calls;
  }

  lemma ReplaysLast(s: set<nat>, calls: seq<Call>, u: set<nat>, c: Call)
    requires Replays(s, calls, u) && Answers(c, u)
    ensures Replays(s, calls + [c], Change(c, u))
  {
    assert [c][1..] == [];
    ReplaysAppend(s, calls, u, [c], Change(c, u));
  }

  // ---- finished calls ----

  /** The keys in the list in state `i` of the run. */
  ghost function KeysAt(b: seq<State>, i: nat): set<nat>
    requires Behavior(b) && i < |b|
  {
    BehaviorInv(b, i);
    Keys(b[i].heap)
  }

  /** The call ended by state `n`. */
  ghost predicate Finished(b: seq<State>, c: Call, n: nat) {
    && c.lo < c.hi <= n < |b| && InCall(b, c.t, c.lo, c.hi)
    && b[c.hi].threads[c.t].pc == Done(c.result) && !b[c.hi - 1].threads[c.t].pc.Done?
    && c.kind == b[c.lo].threads[c.t].kind
    && HashOk(c.kind, b[c.lo].threads[c.t].hash) && c.key == NodeKey(b[c.lo].threads[c.t].hash)
  }

  /** A thread inside an operation began it at some state. */
  lemma {:induction false} CallStarts(b: seq<State>, t: nat, n: nat) returns (lo: nat)
    requires Behavior(b) && n < |b| && t < |b[0].threads| && t < |b[n].threads| && !b[n].threads[t].pc.Idle?
    ensures InCall(b, t, lo, n)
  {
    hide Inv, Step, Effect, HashOk;
    NotFirst(b, t, n);
    var q := StepAt(b, n - 1);
    RecordAfter(b[n - 1], q, b[n], t);
    if b[n - 1].threads[t].pc.Idle? {
      JustBegun(b[n - 1], q, b[n], t);
      lo := n;
    } else {
      lo := CallStarts(b, t, n - 1);
    }
  }

  lemma NotFirst(b: seq<State>, t: nat, n: nat)
    requires Behavior(b) && n < |b| && t < |b[0].threads| && t < |b[n].threads| && !b[n].threads[t].pc.Idle?
    ensures n > 0
  {
  }

  lemma JustBegun(s: State, q: nat, s': State, t: nat)
    requires Step(s, q, s') && t < |s.threads| && t < |s'.threads|
    requires s.threads[t].pc.Idle? && !s'.threads[t].pc.Idle?
    ensures s'.threads[t].pc.Seek?
  {
  }

  /** Only one state can be a call's first. */
  lemma OneStart(b: seq<State>, t: nat, lo: nat, lo': nat, hi: nat)
    requires InCall(b, t, lo, hi) && InCall(b, t, lo', hi)
    ensures lo == lo'
  {
    hide Behavior;
  }

  // ---- histories by moments ----

  /** The step from state `n` changes no key. */
  ghost predicate Quiet(b: seq<State>, n: nat)
    requires Behavior(b) && n + 1 < |b|
  {
    KeysAt(b, n + 1) == KeysAt(b, n)
  }

  /**
   * `segs[i]` are the calls put at moment `i`: replayed on the keys in state `i` they give their
   * answers and lead to the keys in the next state.
   */
  ghost predicate Replay(b: seq<State>, segs: seq<seq<Call>>, n: nat)
    requires Behavior(b) && n < |b|
  {
    && |segs| == n + 1
    && (forall i: nat | i < n :: Replays(KeysAt(b, i), segs[i], KeysAt(b, i + 1)))
    && Replays(KeysAt(b, n), segs[n], KeysAt(b, n))
  }

  /** The calls in the segments are finished calls, each at a moment inside it. */
  ghost predicate Timely(b: seq<State>, segs: seq<seq<Call>>, n: nat) {
    forall i: nat, j: nat | i < |segs| && j < |segs[i]| ::
      Finished(b, segs[i][j], n) && segs[i][j].lo <= i <= segs[i][j].hi
  }

  ghost predicate Complete(b: seq<State>, segs: seq<seq<Call>>, n: nat) {
    forall c: Call | Finished(b, c, n) :: Listed(segs, c)
  }

  ghost predicate Listed(segs: seq<seq<Call>>, c: Call) {
    exists i: nat, j: nat :: i < |segs| && j < |segs[i]| && segs[i][j] == c
  }

  ghost predicate Once(segs: seq<seq<Call>>) {
    forall i: nat, j: nat, k: nat, l: nat |
      i < |segs| && j < |segs[i]| && k < |segs| && l < |segs[k]| && segs[i][j] == segs[k][l] :: i == k && j == l
  }

  ghost predicate History(b: seq<State>, segs: seq<seq<Call>>, n: nat) {
    && Behavior(b) && n < |b|
    && Replay(b, segs, n) && Timely(b, segs, n) && Complete(b, segs, n) && Once(segs)
  }

  /** A call that changes no key, put first at moment `m`. */
  ghost function Earlier(segs: seq<seq<Call>>, m: nat, c: Call): seq<seq<Call>>
    requires m < |segs|
  {
    segs[m := [c] + segs[m]]
  }

  /** The calls finished by state `n + 1` are those finished before, and the one that step ends. */
  lemma FinishedNext(b: seq<State>, n: nat, c: Call)
    requires n + 1 < |b| && Finished(b, c, n + 1)
    ensures Finished(b, c, n) || c.hi == n + 1
  {
  }

  lemma NotYetFinished(b: seq<State>, n: nat, c: Call)
    requires c.hi > n
    ensures !Finished(b, c, n)
  {
  }

  /** The step to `n + 1` ends at most one call. */
  lemma OneEnds(b: seq<State>, n: nat, c: Call, d: Call)
    requires n + 1 < |b| && Finished(b, c, n + 1) && Finished(b, d, n + 1) && c.hi == d.hi == n + 1
    ensures c == d
  {
    hide Inv, Step, Effect, HashOk, Behavior;
    var q := StepAt(b, n);
    RecordAfter(b[n], q, b[n + 1], c.t);
    RecordAfter(b[n], q, b[n + 1], d.t);
    OneStart(b, c.t, c.lo, d.lo, n + 1);
  }

  // ---- one step more ----

  /** After a step that changes no key there is one more moment, with no call yet. */
  lemma Extended(b: seq<State>, segs: seq<seq<Call>>, n: nat)
    requires History(b, segs, n) && n + 1 < |b| && Quiet(b, n)
    ensures Replay(b, segs + [[]], n + 1) && Timely(b, segs + [[]], n + 1) && Once(segs + [[]])
    ensures forall c: Call | Listed(segs + [[]], c) :: Finished(b, c, n)
    ensures forall c: Call | Finished(b, c, n + 1) :: c.hi == n + 1 || Listed(segs + [[]], c)
  {
    hide Behavior, InCall, Replays, KeysAt;
    var more := segs + [[]];
    EmptyReplays(KeysAt(b, n + 1));
    forall c: Call | Finished(b, c, n + 1) && c.hi != n + 1
      ensures Listed(more, c)
    {
      FinishedNext(b, n, c);
      var i: nat, j: nat :| i < |segs| && j < |segs[i]| && segs[i][j] == c;
      assert more[i][j] == c;
    }
  }

  lemma NoCallEnds(b: seq<State>, segs: seq<seq<Call>>, n: nat)
    requires History(b, segs, n) && n + 1 < |b| && Quiet(b, n)
    requires forall c: Call | Finished(b, c, n + 1) :: c.hi <= n
    ensures History(b, segs + [[]], n + 1)
  {
    hide Behavior, Replay, Timely, Once, Finished, Quiet, Listed;
    Extended(b, segs, n);
  }

  lemma ReadEnds(b: seq<State>, segs: seq<seq<Call>>, n: nat, c: Call, m: nat)
    requires History(b, segs, n) && n + 1 < |b| && Quiet(b, n)
    requires Finished(b, c, n + 1) && c.hi == n + 1 && c.lo <= m <= n
    requires Answers(c, KeysAt(b, m)) && Change(c, KeysAt(b, m)) == KeysAt(b, m)
    ensures History(b, Earlier(segs + [[]], m, c), n + 1)
  {
    hide Behavior, Replay, Timely, Once, Quiet, Listed, InCall, KeysAt, Change, Answers, Finished;
    Extended(b, segs, n);
    NotYetFinished(b, n, c);
    forall d: Call | Finished(b, d, n + 1)
      ensures d == c || Listed(segs + [[]], d)
    {
      if d.hi == n + 1 {
        OneEnds(b, n, c, d);
      }
    }
    AddRead(b, segs + [[]], n + 1, m, c);
  }

  /** A call that changes the keys goes to the moment of the step that does so. */
  lemma UpdateEnds(b: seq<State>, segs: seq<seq<Call>>, n: nat, c: Call)
    requires History(b, segs, n) && n + 1 < |b|
    requires Finished(b, c, n + 1) && c.hi == n + 1
    requires Answers(c, KeysAt(b, n)) && Change(c, KeysAt(b, n)) == KeysAt(b, n + 1)
    ensures History(b, Later(segs, c), n + 1)
  {
    hide Behavior, InCall, KeysAt, Change, Answers, Replays, Once, Listed;
    var more := Later(segs, c);
    NotYetFinished(b, n, c);
    NotListed(b, segs, n, c);
    AddLast(segs, c);
    UpdateReplays(b, segs, n, c);
    UpdateTimely(b, segs, n, c);
    forall d: Call | Finished(b, d, n + 1)
      ensures Listed(more, d)
    {
      FinishedNext(b, n, d);
      if d.hi == n + 1 {
        OneEnds(b, n, c, d);
      }
    }
  }

  /** A call put last at the last moment, and a moment more. */
  ghost function Later(segs: seq<seq<Call>>, c: Call): seq<seq<Call>>
    requires segs != []
  {
    segs[|segs| - 1 := segs[|segs| - 1] + [c]] + [[]]
  }

  lemma NotListed(b: seq<State>, segs: seq<seq<Call>>, n: nat, c: Call)
    requires Timely(b, segs, n) && !Finished(b, c, n)
    ensures !Listed(segs, c)
  {
    hide Finished;
  }

  lemma AddLast(segs: seq<seq<Call>>, c: Call)
    requires segs != [] && Once(segs) && !Listed(segs, c)
    ensures Once(Later(segs, c)) && Listed(Later(segs, c), c)
    ensures forall d: Call | Listed(segs, d) :: Listed(Later(segs, c), d)
  {
    var more, n := Later(segs, c), |segs| - 1;
    assert more[n][|segs[n]|] == c;
    assert forall i: nat, j: nat | i < |segs| && j < |segs[i]| :: more[i][j] == segs[i][j];
    forall d: Call | Listed(segs, d)
      ensures Listed(more, d)
    {
      var i: nat, j: nat :| i < |segs| && j < |segs[i]| && segs[i][j] == d;
      assert more[i][j] == d;
    }
  }

  lemma UpdateReplays(b: seq<State>, segs: seq<seq<Call>>, n: nat, c: Call)
    requires Behavior(b) && n + 1 < |b| && Replay(b, segs, n)
    requires Answers(c, KeysAt(b, n)) && Change(c, KeysAt(b, n)) == KeysAt(b, n + 1)
    ensures Replay(b, Later(segs, c), n + 1)
  {
    hide Behavior, KeysAt, Change, Answers, Replays;
    var more := Later(segs, c);
    ReplaysLast(KeysAt(b, n), segs[n], KeysAt(b, n), c);
    EmptyReplays(KeysAt(b, n + 1));
    assert forall i: nat | i < n :: more[i] == segs[i];
    assert more[n] == segs[n] + [c];
  }

  lemma UpdateTimely(b: seq<State>, segs: seq<seq<Call>>, n: nat, c: Call)
    requires |segs| == n + 1 && Timely(b, segs, n) && n + 1 < |b| && Finished(b, c, n + 1) && c.hi == n + 1
    ensures Timely(b, Later(segs, c), n + 1)
  {
    hide Behavior, InCall;
    var more := Later(segs, c);
    forall i: nat, j: nat | i < |more| && j < |more[i]|
      ensures Finished(b, more[i][j], n + 1) && more[i][j].lo <= i <= more[i][j].hi
    {
      if i < n || j < |segs[n]| {
        assert more[i][j] == segs[i][j];
      }
    }
  }

  lemma EmptyReplays(s: set<nat>)
    ensures Replays(s, [], s)
  {
  }

  /** A call that ends without changing a key goes to a moment at which its answer is right. */
  lemma AddRead(b: seq<State>, segs: seq<seq<Call>>, n: nat, m: nat, c: Call)
    requires Behavior(b) && n < |b| && Replay(b, segs, n) && Timely(b, segs, n) && Once(segs) && !Listed(segs, c)
    requires m <= n && c.lo <= m <= c.hi && Finished(b, c, n)
    requires Answers(c, KeysAt(b, m)) && Change(c, KeysAt(b, m)) == KeysAt(b, m)
    requires forall d: Call | Finished(b, d, n) :: d == c || Listed(segs, d)
    ensures History(b, Earlier(segs, m, c), n)
  {
    hide Behavior, InCall, Replays, Replay, Timely, Once, Listed, Earlier, KeysAt, Finished, Answers, Change;
    ReadReplays(b, segs, n, m, c);
    AddFirst(segs, m, c);
    ReadTimely(b, segs, n, m, c);
    forall d: Call | Finished(b, d, n)
      ensures Listed(Earlier(segs, m, c), d)
    {
      if d != c {
        StillListed(segs, m, c, d);
      }
    }
  }

  lemma ReadReplays(b: seq<State>, segs: seq<seq<Call>>, n: nat, m: nat, c: Call)
    requires Behavior(b) && n < |b| && Replay(b, segs, n) && m <= n
    requires Answers(c, KeysAt(b, m)) && Change(c, KeysAt(b, m)) == KeysAt(b, m)
    ensures |segs| == n + 1 && Replay(b, Earlier(segs, m, c), n)
  {
    hide Behavior, Replays, KeysAt, Answers, Change;
    ReplaysFirst(KeysAt(b, m), c, segs[m], if m < n then KeysAt(b, m + 1) else KeysAt(b, n));
    assert forall i: nat | i < |segs| && i != m :: Earlier(segs, m, c)[i] == segs[i];
  }

  lemma ReadTimely(b: seq<State>, segs: seq<seq<Call>>, n: nat, m: nat, c: Call)
    requires m < |segs| && Timely(b, segs, n) && c.lo <= m <= c.hi && Finished(b, c, n)
    requires Once(segs) && !Listed(segs, c)
    ensures Timely(b, Earlier(segs, m, c), n)
  {
    hide Finished, Once, Listed;
    AddFirst(segs, m, c);
  }

  lemma AddFirst(segs: seq<seq<Call>>, m: nat, c: Call)
    requires m < |segs| && Once(segs) && !Listed(segs, c)
    ensures Once(Earlier(segs, m, c)) && Listed(Earlier(segs, m, c), c)
    ensures forall i: nat, j: nat | i < |segs| && j < |Earlier(segs, m, c)[i]| ::
              Earlier(segs, m, c)[i][j] == if i != m then segs[i][j] else if j == 0 then c else segs[m][j - 1]
  {
    var more := Earlier(segs, m, c);
    assert more[m][0] == c;
    assert forall i: nat, j: nat | i < |segs| && j < |segs[i]| :: segs[i][j] != c;
  }

  lemma StillListed(segs: seq<seq<Call>>, m: nat, c: Call, d: Call)
    requires m < |segs| && Listed(segs, d)
    ensures Listed(Earlier(segs, m, c), d)
  {
    var more := Earlier(segs, m, c);
    var i: nat, j: nat :| i < |segs| && j < |segs[i]| && segs[i][j] == d;
    assert more[i][if i == m then j + 1 else j] == d;
  }

  // ---- the whole run ----

  /** The call that a step ends, and what its answer rests on. */
  lemma EndedCall(b: seq<State>, n: nat, q: nat) returns (c: Call)
    requires Behavior(b) && n + 1 < |b| && q < |b[0].threads| && q < |b[n].threads| && q < |b[n + 1].threads|
    requires Step(b[n], q, b[n + 1]) && b[n + 1].threads[q].pc.Done? && !b[n].threads[q].pc.Done?
    ensures Finished(b, c, n + 1) && c.hi == n + 1 && c.t == q
    ensures c.kind == b[n].threads[q].kind && b[n].threads[q].hash < Pow2(32) && c.key == NodeKey(b[n].threads[q].hash)
    ensures c.result == b[n + 1].threads[q].pc.result && InCall(b, q, c.lo, n)
  {
    hide Behavior, Inv, Step, HashOk;
    BehaviorInv(b, n);
    NotIdle(b[n], q, b[n + 1]);
    var lo := CallStarts(b, q, n);
    CallFixed(b, q, lo, n);
    var th := b[n].threads[q];
    c := Call(q, th.kind, NodeKey(th.hash), b[n + 1].threads[q].pc.result, lo, n + 1);
  }

  lemma NotIdle(s: State, q: nat, s': State)
    requires Inv(s) && Step(s, q, s') && s'.threads[q].pc.Done?
    ensures !s.threads[q].pc.Idle? && HashOk(s.threads[q].kind, s.threads[q].hash)
  {
    assert ThreadInv(s.heap, s.threads[q]);
  }

  /** An update's own compare-and-swap: its answer and its change of the keys. */
  lemma UpdateIs(b: seq<State>, n: nat, c: Call)
    requires Behavior(b) && n + 1 < |b| && c.result && Inv(b[n]) && Inv(b[n + 1])
    requires (c.kind.Insert? && AddsKey(b[n], b[n + 1], c.key)) || (c.kind.Delete? && RemovesKey(b[n], b[n + 1], c.key))
    ensures Answers(c, KeysAt(b, n)) && Change(c, KeysAt(b, n)) == KeysAt(b, n + 1)
  {
    hide Behavior, Inv, Keys;
  }

  /** A walk's verdict: the answer of a call that changes nothing, at some moment of it. */
  lemma ReadIs(b: seq<State>, n: nat, q: nat, c: Call) returns (m: nat)
    requires n + 1 < |b| && InCall(b, q, c.lo, n) && Inv(b[n])
    requires c.kind == b[n].threads[q].kind && b[n].threads[q].hash < Pow2(32) && c.key == NodeKey(b[n].threads[q].hash)
    requires StopsWith(b[n], b[n].threads[q], if c.kind.Insert? then !c.result else c.result)
    requires c.kind.Find? || !c.result
    ensures c.lo <= m <= n && Answers(c, KeysAt(b, m)) && Change(c, KeysAt(b, m)) == KeysAt(b, m)
  {
    m := WalkVerdict(b, q, c.lo, n, if c.kind.Insert? then !c.result else c.result);
    hide Inv, Keys, StopsWith;
  }

  /** A step of a walk changes no key. */
  lemma WalkIsQuiet(b: seq<State>, n: nat, q: nat)
    requires Behavior(b) && n + 1 < |b| && q < |b[n].threads| && q < |b[n + 1].threads|
    requires Inv(b[n]) && Inv(b[n + 1]) && Effect(b[n].heap, b[n + 1].heap, b[n].threads[q], b[n + 1].threads[q])
    requires !b[n + 1].threads[q].pc.Done? || b[n].threads[q].pc.Read? || b[n].threads[q].pc.Done?
    ensures Quiet(b, n)
  {
    hide Behavior, Inv, Keys;
  }

  /** A call ends only by its own thread's step. */
  lemma NoOtherEnds(b: seq<State>, n: nat, q: nat, c: Call)
    requires Behavior(b) && n + 1 < |b| && q < |b[n].threads| && q < |b[n + 1].threads|
    requires Step(b[n], q, b[n + 1]) && (!b[n + 1].threads[q].pc.Done? || b[n].threads[q].pc.Done?)
    requires Finished(b, c, n + 1)
    ensures c.hi <= n
  {
    hide Behavior, Inv, Step;
    if c.hi == n + 1 {
      RecordAfter(b[n], q, b[n + 1], c.t);
    }
  }

  lemma StepHistory(b: seq<State>, segs: seq<seq<Call>>, n: nat) returns (more: seq<seq<Call>>)
    requires History(b, segs, n) && n + 1 < |b|
    ensures History(b, more, n + 1)
  {
    hide Behavior, Inv, Step, Effect, Timely, Complete, Once, Finished, InCall, KeysAt, Answers, Change;
    var q := StepAt(b, n);
    if b[n + 1].threads[q].pc.Done? && !b[n].threads[q].pc.Done? {
      more := EndHistory(b, segs, n, q);
    } else {
      WalkIsQuiet(b, n, q);
      forall c: Call | Finished(b, c, n + 1)
        ensures c.hi <= n
      {
        NoOtherEnds(b, n, q, c);
      }
      NoCallEnds(b, segs, n);
      more := segs + [[]];
    }
  }

  lemma EndHistory(b: seq<State>, segs: seq<seq<Call>>, n: nat, q: nat) returns (more: seq<seq<Call>>)
    requires History(b, segs, n) && |segs| == n + 1 < |b| && Inv(b[n]) && Inv(b[n + 1])
    requires q < |b[0].threads| && q < |b[n].threads| && q < |b[n + 1].threads| && Step(b[n], q, b[n + 1])
    requires Effect(b[n].heap, b[n + 1].heap, b[n].threads[q], b[n + 1].threads[q])
    requires b[n + 1].threads[q].pc.Done? && !b[n].threads[q].pc.Done?
    ensures History(b, more, n + 1)
  {
    hide Behavior, Inv, Step, Effect, Replay, Timely, Complete, Once, Finished, InCall, KeysAt, Answers, Change, AddsKey, RemovesKey, HashOk;
    var c := EndedCall(b, n, q);
    NotIdle(b[n], q, b[n + 1]);
    DoneCases(b[n], q, b[n + 1]);
    if c.result && ((c.kind.Insert? && AddsKey(b[n], b[n + 1], c.key)) || (c.kind.Delete? && RemovesKey(b[n], b[n + 1], c.key))) {
      UpdateIs(b, n, c);
      UpdateEnds(b, segs, n, c);
      more := Later(segs, c);
    } else {
      WalkIsQuiet(b, n, q);
      var m := ReadIs(b, n, q, c);
      ReadEnds(b, segs, n, c, m);
      more := Earlier(segs + [[]], m, c);
    }
  }

  lemma {:induction false} SomeHistory(b: seq<State>, n: nat) returns (segs: seq<seq<Call>>)
    requires Behavior(b) && n < |b|
    ensures History(b, segs, n)
  {
    hide Behavior, InCall, KeysAt;
    if n == 0 {
      segs := [[]];
      EmptyReplays(KeysAt(b, 0));
    } else {
      segs := SomeHistory(b, n - 1);
      segs := StepHistory(b, segs, n - 1);
    }
  }

  // ---- one sequence ----

  /** A call and the moment it is put at. */
  datatype Placed = Placed(call: Call, at: nat)

  function PlacedAll(calls: seq<Call>, at: nat): (ps: seq<Placed>)
    ensures |ps| == |calls| && forall i | 0 <= i < |calls| :: ps[i] == Placed(calls[i], at)
  {
    seq(|calls|, i requires 0 <= i < |calls| => Placed(calls[i], at))
  }

  function CallsOf(ps: seq<Placed>): (calls: seq<Call>)
    ensures |calls| == |ps| && forall i | 0 <= i < |ps| :: calls[i] == ps[i].call
  {
    seq(|ps|, i requires 0 <= i < |ps| => ps[i].call)
  }

  /** The segments up to moment `n`, one after the other. */
  function Flat(segs: seq<seq<Call>>, n: nat): seq<Placed>
    requires n <= |segs|
  {
    if n == 0 then [] else Flat(segs, n - 1) + PlacedAll(segs[n - 1], n - 1)
  }

  lemma {:induction false} FlatReplays(b: seq<State>, segs: seq<seq<Call>>, n: nat, k: nat)
    requires Behavior(b) && n < |b| && Replay(b, segs, n) && k <= n
    ensures Replays(KeysAt(b, 0), CallsOf(Flat(segs, k)), KeysAt(b, k))
  {
    hide Behavior, KeysAt, Replays;
    EmptyReplays(KeysAt(b, 0));
    if k > 0 {
      FlatReplays(b, segs, n, k - 1);
      assert CallsOf(Flat(segs, k)) == CallsOf(Flat(segs, k - 1)) + segs[k - 1];
      ReplaysAppend(KeysAt(b, 0), CallsOf(Flat(segs, k - 1)), KeysAt(b, k - 1), segs[k - 1], KeysAt(b, k));
    }
  }

  /** What is in the flat sequence, and in what order. */
  lemma {:induction false} FlatIs(segs: seq<seq<Call>>, n: nat)
    requires n <= |segs|
    ensures forall p | p in Flat(segs, n) :: p.at < n && p.call in segs[p.at]
    ensures forall i: nat, j: nat | i < n && j < |segs[i]| :: Placed(segs[i][j], i) in Flat(segs, n)
    ensures forall i, j | 0 <= i < j < |Flat(segs, n)| :: Flat(segs, n)[i].at <= Flat(segs, n)[j].at
  {
    if n > 0 {
      FlatIs(segs, n - 1);
      var a: seq<Placed>, c: seq<Placed> := Flat(segs, n - 1), PlacedAll(segs[n - 1], n - 1);
      forall i: nat, j: nat | i < n && j < |segs[i]|
        ensures Placed(segs[i][j], i) in a + c
      {
        if i == n - 1 {
          assert c[j] == Placed(segs[i][j], i);
        }
      }
      forall i, j | 0 <= i < j < |a + c|
        ensures (a + c)[i].at <= (a + c)[j].at
      {
        if j >= |a| && i < |a| {
          assert a[i] in a;
        }
      }
    }
  }

  lemma {:induction false} FlatOnce(segs: seq<seq<Call>>, n: nat)
    requires n <= |segs| && Once(segs)
    ensures forall i, j | 0 <= i < j < |Flat(segs, n)| :: Flat(segs, n)[i].call != Flat(segs, n)[j].call
  {
    if n > 0 {
      FlatOnce(segs, n - 1);
      FlatIs(segs, n - 1);
      var a: seq<Placed>, c: seq<Placed> := Flat(segs, n - 1), PlacedAll(segs[n - 1], n - 1);
      forall i, j | 0 <= i < j < |a + c|
        ensures (a + c)[i].call != (a + c)[j].call
      {
        if j >= |a| {
          assert (a + c)[j].call == segs[n - 1][j - |a|];
          if i < |a| {
            assert a[i] in a && a[i].call in segs[a[i].at];
          } else {
            assert (a + c)[i].call == segs[n - 1][i - |a|];
          }
        }
      }
    }
  }

  /**
   * Linearizability: in every run the finished calls, each exactly once, can be put in one order,
   * each at a moment inside the call and so no call before one that ended before it began, such
   * that replaying them on a plain set, from the keys of the first state, gives every answer and
   * ends with the keys of the last.
   */
  lemma OneHistory(b: seq<State>) returns (h: seq<Placed>)
    requires Behavior(b)
    ensures Replays(KeysAt(b, 0), CallsOf(h), KeysAt(b, |b| - 1))
    ensures forall i | 0 <= i < |h| :: Finished(b, h[i].call, |b| - 1) && h[i].call.lo <= h[i].at <= h[i].call.hi
    ensures forall c: Call | Finished(b, c, |b| - 1) :: c in CallsOf(h)
    ensures forall i, j | 0 <= i < j < |h| :: h[i].at <= h[j].at && h[i].call != h[j].call
    ensures forall i, j | 0 <= i < j < |h| :: h[i].call.lo <= h[j].call.hi
  {
    hide *;
    var n := Last(b);
    var segs := SomeHistory(b, n);
    HistoryMeans(b, segs, n);
    h := Flat(segs, n + 1);
    WholeReplays(b, segs, n);
    FlatOnce(segs, n + 1);
    FlatTimely(b, segs, n);
    FlatComplete(b, segs, n);
    InOrder(segs, n + 1);
  }

  lemma HistoryMeans(b: seq<State>, segs: seq<seq<Call>>, n: nat)
    requires History(b, segs, n)
    ensures |segs| == n + 1 && n < |b| && Replay(b, segs, n) && Timely(b, segs, n) && Complete(b, segs, n) && Once(segs)
  {
  }

  lemma Last(b: seq<State>) returns (n: nat)
    requires Behavior(b)
    ensures n + 1 == |b|
  {
    n := |b| - 1;
  }

  lemma InOrder(segs: seq<seq<Call>>, n: nat)
    requires n <= |segs|
    ensures forall i, j | 0 <= i < j < |Flat(segs, n)| :: Flat(segs, n)[i].at <= Flat(segs, n)[j].at
  {
    FlatIs(segs, n);
  }

  lemma FlatTimely(b: seq<State>, segs: seq<seq<Call>>, n: nat)
    requires |segs| == n + 1 && Timely(b, segs, n)
    ensures var h := Flat(segs, n + 1);
            forall i | 0 <= i < |h| :: Finished(b, h[i].call, n) && h[i].call.lo <= h[i].at <= h[i].call.hi
  {
    hide Finished;
    FlatIs(segs, n + 1);
    hide Flat;
    var h := Flat(segs, n + 1);
    forall i | 0 <= i < |h|
      ensures Finished(b, h[i].call, n) && h[i].call.lo <= h[i].at <= h[i].call.hi
    {
      assert h[i] in h;
      var j: nat :| j < |segs[h[i].at]| && segs[h[i].at][j] == h[i].call;
    }
  }

  lemma FlatComplete(b: seq<State>, segs: seq<seq<Call>>, n: nat)
    requires |segs| == n + 1 && Complete(b, segs, n)
    ensures forall c: Call | Finished(b, c, n) :: c in CallsOf(Flat(segs, n + 1))
  {
    hide Finished;
    FlatIs(segs, n + 1);
    hide Flat;
    var h := Flat(segs, n + 1);
    forall c: Call | Finished(b, c, n)
      ensures c in CallsOf(h)
    {
      var i: nat, j: nat :| i < |segs| && j < |segs[i]| && segs[i][j] == c;
      var k :| 0 <= k < |h| && h[k] == Placed(c, i);
      assert CallsOf(h)[k] == c;
    }
  }

  lemma WholeReplays(b: seq<State>, segs: seq<seq<Call>>, n: nat)
    requires Behavior(b) && n < |b| && Replay(b, segs, n)
    ensures Replays(KeysAt(b, 0), CallsOf(Flat(segs, n + 1)), KeysAt(b, n))
  {
    hide Behavior, KeysAt, Replays;
    FlatReplays(b, segs, n, n);
    assert CallsOf(Flat(segs, n + 1)) == CallsOf(Flat(segs, n)) + segs[n];
    ReplaysAppend(KeysAt(b, 0), CallsOf(Flat(segs, n)), KeysAt(b, n), segs[n], KeysAt(b, n));
  }
}
