// Where runs of the list's protocol may start: a new list, or a table of any size
// whose buckets all have their dummies (solist.hpp:132-158).

module SolistStart {
  import opened Powers
  import opened BitReversal
  import opened SplitOrder
  import opened MarkPtr
  import opened Options
  import opened LinkedHeap
  import opened SolistProtocol

  /** The constructor's list of size one is such a starting point, for any number of threads. */
  lemma FreshListIsInit(threads: seq<Thread>)
    requires forall t: nat | t < |threads| :: threads[t].pc.Idle?
    ensures Init(State([Cell(0, MarkedPtr(None, false), true)], 0, [0], threads))
  {
    hide BucketKey;
    var h := [Cell(0, MarkedPtr(None, false), true)];
    assert CellOk(h, 0);
    assert CellInv(h, 0);
    assert Pow2(0) == 1;
    Pow2Mono(0, 31);
    RevZeroKey();
  }

  /** A list of 2^bits buckets without items: their dummies in the order of their keys. */
  ghost function Dummies(bits: nat): (h: Heap)
    requires bits <= 31
    ensures |h| == Pow2(bits) > 0
  {
    seq(Pow2(bits), u requires 0 <= u < Pow2(bits) => DummyCell(bits, u))
  }

  ghost function DummyCell(bits: nat, u: nat): Cell
    requires bits <= 31
  {
    NatProduct(u, Width(bits));
    Cell(u * Width(bits), MarkedPtr(if u + 1 < Pow2(bits) then Some(u + 1) else None, false), true)
  }

  ghost function Slots(bits: nat): seq<nat> {
    seq(Pow2(bits), slot requires 0 <= slot < Pow2(bits) => Rev(bits, slot))
  }

  lemma DummyOk(bits: nat, u: nat)
    requires bits <= 31 && u < Pow2(bits)
    ensures CellOk(Dummies(bits), u)
  {
    WidthPow(bits);
    hide Width, Rev, BucketKey, Pow2;
    MultipleIsBucketKey(u, bits);
    MultipleGap(u, u + 1, Width(bits));
    TopKey();
  }

  lemma TopKey()
    ensures Pow2(32) == KEYS
  {
    Pow2Values();
  }

  lemma {:induction false} DummyLinked(bits: nat, u: nat)
    requires bits <= 31 && u < Pow2(bits) && HeapOk(Dummies(bits))
    ensures Linked(Dummies(bits), u)
  {
    if u > 0 {
      DummyLinked(bits, u - 1);
      ReachNext(Dummies(bits), 0, u - 1);
    }
  }

  /** Runs may start from a table of any size, all its buckets initialised, for any number of threads. */
  lemma FullIndexIsInit(bits: nat, threads: seq<Thread>)
    requires bits <= 31 && forall t: nat | t < |threads| :: threads[t].pc.Idle?
    ensures Init(State(Dummies(bits), bits, Slots(bits), threads))
  {
    hide Width, Rev, BucketKey, Pow2;
    Pow2Mono(bits, 31);
    var h := Dummies(bits);
    forall u: nat | u < |h|
      ensures CellOk(h, u)
    {
      DummyOk(bits, u);
    }
    forall u: nat | u < |h|
      ensures CellInv(h, u)
    {
      DummyLinked(bits, u);
    }
    forall slot: nat | slot < Pow2(bits)
      ensures h[Rev(bits, slot)].key == BucketKey(slot)
    {
      BucketKeyParts(slot, bits);
    }
  }

  lemma RevZeroKey()
    ensures BucketKey(0) == 0
  {
    BucketKeyParts(0, 0);
  }
}
