// A run in which a delete fails for good (solist.hpp:521-550), from a new list on:
// one thread inserts a key and starts to delete it; before it marks the node,
// another thread inserts a smaller key in front of it.
//
// SolistProtocol.dfy proves what follows from such a failure.

module SolistFailedDelete {
  import opened Powers
  import opened BitReversal
  import opened SplitOrder
  import opened MarkPtr
  import opened Options
  import opened LinkedHeap
  import opened SolistProtocol
  import opened SolistStart

  /** The dummy of the only bucket, linked to `next`. */
  function Dummy(next: Option<nat>): Cell {
    Cell(0, MarkedPtr(next, false), true)
  }

  const NEW: Heap := [Dummy(None)]

  /** The node of hash 1, by its key, before and after it is linked in. */
  function Made(key: nat): Heap {
    NEW + [Cell(key, MarkedPtr(None, false), false)]
  }

  function WithOne(key: nat): Heap {
    [Dummy(Some(1)), Cell(key, MarkedPtr(None, false), true)]
  }

  /** The node of hash 0, whose key is 1: made, set to link to the other node, linked in. */
  function SecondMade(key: nat): Heap {
    WithOne(key) + [Cell(1, MarkedPtr(None, false), false)]
  }

  function SecondSet(key: nat): Heap {
    WithOne(key) + [Cell(1, MarkedPtr(Some(1), false), false)]
  }

  function WithTwo(key: nat, mark: bool): Heap {
    [Dummy(Some(2)), Cell(key, MarkedPtr(None, mark), true), Cell(1, MarkedPtr(Some(1), false), true)]
  }

  const IDLE: Thread := Thread(Idle, Find, 0, 0, 0, 0, None)

  function Inserting(pc: Pc): Thread {
    Thread(pc, Insert, 1, 1, 0, 0, None)
  }

  function Deleting(pc: Pc, cur: nat, next: Option<nat>): Thread {
    Thread(pc, Delete, 1, 2, 0, cur, next)
  }

  function Inserting2(pc: Pc, next: Option<nat>): Thread {
    Thread(pc, Insert, 0, 2, 0, 0, next)
  }

  function At(h: Heap, t: Thread, u: Thread): State {
    State(h, 0, [0], [t, u])
  }

  /** The insert of hash 1. */
  function FirstInsert(key: nat): seq<State> {
    [ At(NEW, IDLE, IDLE),
      At(Made(key), Inserting(Seek), IDLE),
      At(Made(key), Inserting(Read), IDLE),
      At(Made(key), Inserting(LinkNew), IDLE),
      At(Made(key), Inserting(Publish), IDLE),
      At(WithOne(key), Inserting(Done(true)), IDLE),
      At(WithOne(key), Inserting(Idle), IDLE) ]
  }

  /** The delete of hash 1, up to its mark. */
  function DeleteBegins(key: nat): seq<State> {
    [ At(WithOne(key), Deleting(Seek, 0, None), IDLE),
      At(WithOne(key), Deleting(Read, 0, None), IDLE),
      At(WithOne(key), Deleting(Read, 1, Some(1)), IDLE),
      At(WithOne(key), Deleting(Pc.SetMark, 1, None), IDLE) ]
  }

  /** The insert of hash 0 comes in between. */
  function SecondInsert(key: nat): seq<State> {
    var d := Deleting(Pc.SetMark, 1, None);
    [ At(SecondMade(key), d, Inserting2(Seek, None)),
      At(SecondMade(key), d, Inserting2(Read, None)),
      At(SecondMade(key), d, Inserting2(LinkNew, Some(1))),
      At(SecondSet(key), d, Inserting2(Publish, Some(1))),
      At(WithTwo(key, false), d, Inserting2(Done(true), Some(1))) ]
  }

  /** The mark succeeds, the unlink does not. */
  function DeleteFails(key: nat): seq<State> {
    var i := Inserting2(Done(true), Some(1));
    [ At(WithTwo(key, true), Deleting(Unlink, 1, None), i),
      At(WithTwo(key, true), Deleting(Seek, 1, None), i) ]
  }

  lemma KeysOfOneAndZero()
    ensures 1 < Pow2(31) < Pow2(32) && Pow2(0) == 1
    ensures SlotOf(0, 0) == SlotOf(1, 0) == 0
    ensures NodeKey(0) == 1 < NodeKey(1) < KEYS
  {
    Pow2Values();
    assert SlotOf(0, 31) == 0 && SlotOf(1, 31) == 1;
    hide Rev;
    RevZero(31);
    NodeKeyFoldsTopBit(0);
    NodeKeyFoldsTopBit(1);
    NodeKeyEqual(0, 1);
  }

  /** One step of one thread to the next state. */
  ghost predicate Steps(b: seq<State>) {
    forall i: nat | i + 1 < |b| :: Next(b[i], b[i + 1])
  }

  lemma Chained(a: seq<State>, c: seq<State>)
    requires Steps(a) && Steps(c) && a != [] && c != [] && Next(a[|a| - 1], c[0])
    ensures Steps(a + c)
  {
    var b := a + c;
    forall i: nat | i + 1 < |b|
      ensures Next(b[i], b[i + 1])
    {
      if i + 1 < |a| {
        assert b[i] == a[i] && b[i + 1] == a[i + 1];
      } else if i >= |a| {
        assert b[i] == c[i - |a|] && b[i + 1] == c[i - |a| + 1];
      }
    }
  }

  lemma FirstInsertSteps(key: nat)
    requires key == NodeKey(1)
    ensures Steps(FirstInsert(key))
  {
    KeysOfOneAndZero();
    hide Pow2, SlotOf, NodeKey;
    var b := FirstInsert(key);
    assert Begins(b[0], 0, b[1], Insert, 1);
    assert Step(b[0], 0, b[1]);
    assert Step(b[1], 0, b[2]);
    assert Step(b[2], 0, b[3]);
    assert Step(b[3], 0, b[4]);
    assert Step(b[4], 0, b[5]);
    assert Step(b[5], 0, b[6]);
  }

  lemma DeleteBeginsSteps(key: nat)
    requires key == NodeKey(1)
    ensures Steps(DeleteBegins(key))
    ensures Next(FirstInsert(key)[6], DeleteBegins(key)[0])
  {
    KeysOfOneAndZero();
    hide Pow2, SlotOf, NodeKey;
    var a, b := FirstInsert(key), DeleteBegins(key);
    assert Begins(a[6], 0, b[0], Delete, 1);
    assert Step(a[6], 0, b[0]);
    assert Step(b[0], 0, b[1]);
    assert Step(b[1], 0, b[2]);
    assert Step(b[2], 0, b[3]);
  }

  lemma SecondInsertSteps(key: nat)
    requires key == NodeKey(1)
    ensures Steps(SecondInsert(key))
    ensures Next(DeleteBegins(key)[3], SecondInsert(key)[0])
  {
    KeysOfOneAndZero();
    hide Pow2, SlotOf, NodeKey;
    var a, b := DeleteBegins(key), SecondInsert(key);
    assert Begins(a[3], 1, b[0], Insert, 0);
    assert Step(a[3], 1, b[0]);
    assert Step(b[0], 1, b[1]);
    assert Step(b[1], 1, b[2]);
    assert Step(b[2], 1, b[3]);
    assert Step(b[3], 1, b[4]);
  }

  lemma DeleteFailsSteps(key: nat)
    requires key == NodeKey(1)
    ensures Steps(DeleteFails(key))
    ensures Next(SecondInsert(key)[4], DeleteFails(key)[0])
    ensures Step(DeleteFails(key)[0], 0, DeleteFails(key)[1])
  {
    KeysOfOneAndZero();
    hide Pow2, SlotOf, NodeKey;
    var a, b := SecondInsert(key), DeleteFails(key);
    assert Step(a[4], 0, b[0]);
    assert Step(b[0], 0, b[1]);
  }

  function WholeRun(key: nat): seq<State> {
    ((FirstInsert(key) + DeleteBegins(key)) + SecondInsert(key)) + DeleteFails(key)
  }

  /**
   * The failure is real: a run of two threads from a new list that ends in a failed unlink.
   * By FailedDeleteNeverReturns and LaterDeletesNeverReturn no delete of hash 1 returns after it.
   */
  lemma DeleteCanFail() returns (b: seq<State>)
    ensures Behavior(b) && |b| == 18 && b[0] == At(NEW, IDLE, IDLE)
    ensures FailsToUnlink(b, 16, 0) && b[16].threads[0].kind.Delete? && b[16].threads[0].hash == 1
    ensures NodeKey(1) < KEYS && PresentAt(b, 17, NodeKey(1))
  {
    hide Pow2, NodeKey, SlotOf, Behavior, Step, Inv, WholeRun;
    KeysOfOneAndZero();
    b := WholeRun(NodeKey(1));
    WholeRunFails(NodeKey(1));
    BehaviorInv(b, 16);
    FailedUnlinkKeepsKey(b, 16, 0, 17);
  }

  lemma WholeRunFails(key: nat)
    requires key == NodeKey(1) && 1 < Pow2(32)
    ensures var b := WholeRun(key);
            && Behavior(b) && |b| == 18 && b[0] == At(NEW, IDLE, IDLE) && Step(b[16], 0, b[17])
            && |b[16].threads| == |b[17].threads| == 2
            && b[16].threads[0].pc.Unlink? && b[16].threads[0].kind.Delete? && b[16].threads[0].hash == 1
            && b[17].threads[0].pc.Seek?
  {
    hide Init, Next, Step, NodeKey, Pow2;
    WholeRunSteps(key);
    FreshListIsInit([IDLE, IDLE]);
    var b := WholeRun(key);
    assert b[0] == At(NEW, IDLE, IDLE);
    assert b[16] == DeleteFails(key)[0] && b[17] == DeleteFails(key)[1];
  }

  lemma WholeRunSteps(key: nat)
    requires key == NodeKey(1)
    ensures Steps(WholeRun(key)) && Step(DeleteFails(key)[0], 0, DeleteFails(key)[1])
  {
    hide Steps, Next, Step, NodeKey;
    FirstInsertSteps(key);
    DeleteBeginsSteps(key);
    SecondInsertSteps(key);
    DeleteFailsSteps(key);
    Chained(FirstInsert(key), DeleteBegins(key));
    Chained(FirstInsert(key) + DeleteBegins(key), SecondInsert(key));
    Chained((FirstInsert(key) + DeleteBegins(key)) + SecondInsert(key), DeleteFails(key));
  }
}
