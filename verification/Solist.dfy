// The split-ordered list and its accessor (solist.hpp:114-202, 214-566), run by
// one thread at a time.
//
// The ghost sequence `nodes` is the list in order.  `View` is what a caller sees
// (SolistTable); every public method says how it moves `View` and what it
// answers, and keeps `Valid`.

module Solist {
  import opened Powers
  import opened BitReversal
  import opened SplitOrder
  import opened MarkPtr
  import opened Options
  import opened SolistTable
  import opened SolistNodes

  class Solist<T> {
    var nBuckets: nat
    const maxBucketLength: nat
    var nItems: nat
    var buckets: array<Node?<T>>
    ghost var nodes: seq<Node<T>>
    ghost var bits: nat

    ghost predicate Valid()
      reads this, buckets, nodes
    {
      && Shape(nodes, bits, buckets[..]) && LinkedUp(nodes)
      && nBuckets == Pow2(bits) && nItems == |Contents(nodes)|
    }

    ghost function View(): Table<T>
      reads this, buckets
    {
      Table(Contents(nodes), bits, Init(buckets[..]), maxBucketLength)
    }

    /** The source relies on `size` being a power of two without checking it. */
    constructor (size: nat, bucketLength: nat, ghost bits: nat)
      requires bits <= 31 && size == Pow2(bits) && bucketLength < UINT32
      ensures Valid() && fresh(buckets) && fresh(nodes)
      ensures View() == Table(map[], bits, {0}, bucketLength)
    {
      hide Shape, Contents, Init, NodeKey, BucketKey, NodeOk, Pow2;
      nBuckets, maxBucketLength, nItems := size, bucketLength, 0;
      buckets := new Node?<T>[size];
      this.bits := bits;
      new;
      var x := 0;
      while x < nBuckets
        invariant x <= nBuckets == buckets.Length
        invariant forall s | 0 <= s < x :: buckets[s] == null
        modifies buckets
      {
        buckets[x] := null;
        x := x + 1;
      }
      var head := new Node<T>.Bucket(0);
      buckets[0] := head;
      nodes := [head];
      FirstDummyOk(head);
      OneDummy(head, bits, buckets[..]);
    }

    method IncItemCount()
      modifies this`nItems
      ensures nItems == (old(nItems) + 1) % UINT32
    {
      nItems := (nItems + 1) % UINT32;
    }

    /** The list has become `ns`, one item longer. */
    method CountIn(ghost ns: seq<Node<T>>)
      requires LinkedUp(ns) && Shape(ns, bits, buckets[..]) && nBuckets == Pow2(bits)
      requires nItems + 1 == |Contents(ns)| < UINT32
      modifies this
      ensures Valid() && nodes == ns && buckets == old(buckets) && bits == old(bits)
    {
      hide Shape, LinkedUp, Contents, Pow2;
      nodes := ns;
      IncItemCount();
    }

    /** The list has become `ns`, one item shorter. */
    method CountOut(ghost ns: seq<Node<T>>)
      requires LinkedUp(ns) && Shape(ns, bits, buckets[..]) && nBuckets == Pow2(bits)
      requires nItems == |Contents(ns)| + 1 < UINT32
      modifies this
      ensures Valid() && nodes == ns && buckets == old(buckets) && bits == old(bits)
    {
      hide Shape, LinkedUp, Contents, Pow2;
      nodes := ns;
      DecItemCount();
    }

    method DecItemCount()
      modifies this`nItems
      ensures nItems == (old(nItems) + UINT32 - 1) % UINT32
    {
      nItems := (nItems + UINT32 - 1) % UINT32;
    }

    /** A larger bucket array: the old entries, then nulls. */
    method GrownBuckets(newSize: nat) returns (newBuckets: array<Node?<T>>)
      requires buckets.Length == nBuckets <= newSize
      ensures fresh(newBuckets) && newBuckets.Length == newSize
      ensures forall s | 0 <= s < nBuckets :: newBuckets[s] == buckets[s]
      ensures forall s | nBuckets <= s < newSize :: newBuckets[s] == null
    {
      newBuckets := new Node?<T>[newSize];
      var x := 0;
      while x < nBuckets
        invariant x <= nBuckets
        invariant forall s | 0 <= s < x :: newBuckets[s] == buckets[s]
        modifies newBuckets
      {
        newBuckets[x] := buckets[x];
        x := x + 1;
      }
      while x < newSize
        invariant nBuckets <= x <= newSize
        invariant forall s | 0 <= s < nBuckets :: newBuckets[s] == buckets[s]
        invariant forall s | nBuckets <= s < x :: newBuckets[s] == null
        modifies newBuckets
      {
        newBuckets[x] := null;
        x := x + 1;
      }
    }

    /** Doubles the bucket array, unless it has grown since the caller looked. */
    method Expand(currSize: nat)
      requires Valid() && (bits <= 30 || currSize < nBuckets)
      modifies this
      ensures Valid() && nodes == old(nodes)
      ensures if currSize < old(nBuckets) then unchanged(this)
              else fresh(buckets) && View() == old(View()).(bits := old(bits) + 1)
    {
      hide Contents, LinkedUp, Sorted, NodesOk, Indexed, Init;
      if currSize < nBuckets {
        return;
      }
      var newSize := nBuckets * 2;
      var newBuckets := GrownBuckets(newSize);
      assert newBuckets[..][..|buckets[..]|] == buckets[..];
      Doubled(nodes, bits, buckets[..], newBuckets[..]);
      buckets := newBuckets;
      nBuckets := newSize;
      bits := bits + 1;
    }
  }

  lemma FirstDummyOk<T>(head: Node<T>)
    requires head.payload.None? && head.hashv == 0 && head.key == BucketKey(0)
    ensures NodeOk(head)
  {
    TopBitClear(0);
    Pow2Mono(31, 32);
  }

  /** The list of a new table: the dummy of bucket 0. */
  lemma OneDummy<T>(head: Node<T>, bits: nat, buckets: seq<Node?<T>>)
    requires bits <= 31 && |buckets| == Pow2(bits)
    requires NodeOk(head) && head.hashv == 0 && head.payload.None?
    requires buckets[0] == head && forall s | 0 < s < |buckets| :: buckets[s] == null
    ensures Shape([head], bits, buckets) && Contents([head]) == map[] && Init(buckets) == {0}
  {
    assert [head][..0] == [];
  }

  /** No more data nodes fit the 31-bit hash space than the item counter can count. */
  lemma ItemsFit<T>(ns: seq<Node<T>>)
    requires NodesOk(ns)
    ensures |Contents(ns)| <= Pow2(31) < UINT32
  {
    Pow2Values();
    ContentsBelow31(ns);
    BoundedSet(Contents(ns).Keys, Pow2(31));
  }

  lemma {:induction false} BoundedSet(s: set<nat>, n: nat)
    requires forall x | x in s :: x < n
    ensures |s| <= n
    decreases n
  {
    if n == 0 {
      assert s == {};
    } else {
      BoundedSet(s - {n - 1}, n - 1);
    }
  }

  /** The only bucket key in the width above `c` widths is that of slot `Rev(c)`. */
  lemma SlotOfInterval(c: nat, bits: nat, u: nat)
    requires bits <= 31 && c < Pow2(bits) && u < Pow2(bits)
    ensures u < Pow2(31)
    ensures c * Width(bits) <= BucketKey(u) < c * Width(bits) + Width(bits) ==> u == Rev(bits, c)
  {
    hide Rev, Pow2, Width, BucketKey;
    BucketKeyParts(u, bits);
    MultiplesApart(c, Rev(bits, u), Width(bits));
    MultiplesApart(Rev(bits, u), c, Width(bits));
    RevInvolutive(bits, u);
    if c != Rev(bits, u) {
      NotSameMultiple(c, Rev(bits, u), Width(bits));
    }
  }

  lemma NotSameMultiple(a: nat, b: nat, d: nat)
    requires a != b && d > 0
    ensures a * d != b * d
  {
    if a < b {
      MultipleGap(a, b, d);
    } else {
      MultipleGap(b, a, d);
    }
  }

  // ---- relinking ----

  /** Node `i` is at no other place of the list. */
  ghost predicate Alone<T>(ns: seq<Node<T>>, i: nat) {
    forall j | 0 <= j < |ns| && j != i && i < |ns| :: ns[j] != ns[i]
  }

  /** Every node but `i` and `k` has its proper link. */
  ghost predicate LinkedExcept<T>(ns: seq<Node<T>>, i: nat, k: nat)
    reads ns
  {
    forall j | 0 <= j < |ns| && j != i && j != k :: ns[j].next == MarkedPtr(At(ns, j + 1), false)
  }

  /** Two links put `x` behind node `i`. */
  lemma Relinked<T>(ns: seq<Node<T>>, i: nat, x: Node<T>)
    requires i < |ns| && LinkedExcept(ns, i, i)
    requires x.next == MarkedPtr(At(ns, i + 1), false) && ns[i].next == MarkedPtr(x, false)
    ensures LinkedUp(Put(ns, i, x))
  {
    var ms := Put(ns, i, x);
    forall j | 0 <= j < |ms|
      ensures ms[j].next == MarkedPtr(At(ms, j + 1), false)
    {
      if j <= i {
        assert ms[j] == ns[j];
      } else if j > i + 1 {
        assert ms[j] == ns[j - 1];
      }
    }
  }

  /** The successor's link in the predecessor takes node `i` out. */
  lemma Unlinked<T>(ns: seq<Node<T>>, i: nat)
    requires 0 < i < |ns| && LinkedExcept(ns, i - 1, i)
    requires ns[i - 1].next == MarkedPtr(At(ns, i + 1), false)
    ensures LinkedUp(Drop(ns, i))
  {
    var ms := Drop(ns, i);
    forall j | 0 <= j < |ms|
      ensures ms[j].next == MarkedPtr(At(ms, j + 1), false)
    {
      assert ms[j] == (if j < i then ns[j] else ns[j + 1]);
    }
  }

  // ---- counting ----

  ghost function HashesBetween<T>(ns: seq<Node<T>>, b: nat, e: nat): set<nat>
    requires b < e <= |ns|
  {
    set j | b < j < e :: ns[j].hashv
  }

  lemma {:induction false} CountBetween<T>(ns: seq<Node<T>>, b: nat, e: nat)
    requires Sorted(ns) && NodesOk(ns) && b < e <= |ns|
    requires forall j | b < j < e :: ns[j].payload.Some?
    ensures |HashesBetween(ns, b, e)| == e - b - 1
    decreases e - b
  {
    hide NodesOk, Sorted;
    if b + 1 == e {
      assert HashesBetween(ns, b, e) == {};
    } else {
      CountBetween(ns, b, e - 1);
      var h := ns[e - 1].hashv;
      forall j | b < j < e - 1
        ensures ns[j].hashv != h
      {
        if ns[j].hashv == h {
          HashOnce(ns, j, e - 1);
        }
      }
      assert HashesBetween(ns, b, e) == HashesBetween(ns, b, e - 1) + {h};
    }
  }

  /** The walk from a bucket to the next dummy counts exactly that bucket's chain. */
  lemma ChainCount<T>(ns: seq<Node<T>>, t: Table<T>, buckets: seq<Node?<T>>, slot: nat, b: nat, e: nat)
    requires Shape(ns, t.bits, buckets) && t.contents == Contents(ns) && t.init == Init(buckets)
    requires slot < Pow2(31) && b < e <= |ns| && ns[b].payload.None? && ns[b].hashv == slot
    requires forall j | b < j < e :: ns[j].payload.Some?
    requires e < |ns| ==> ns[e].payload.None?
    ensures |Chain(t, slot)| == e - b - 1
  {
    CountBetween(ns, b, e);
    forall h | h in HashesBetween(ns, b, e)
      ensures h in Chain(t, slot)
    {
      var j :| b < j < e && ns[j].hashv == h;
      BetweenInChain(ns, t, buckets, slot, b, e, j);
    }
    forall h | h in Chain(t, slot)
      ensures h in HashesBetween(ns, b, e)
    {
      ContentsHas(ns, h);
      var j :| 0 <= j < |ns| && ns[j].payload.Some? && ns[j].hashv == h;
      InChainBetween(ns, t, buckets, slot, b, e, j);
    }
    assert Chain(t, slot) == HashesBetween(ns, b, e);
  }

  lemma BetweenInChain<T>(ns: seq<Node<T>>, t: Table<T>, buckets: seq<Node?<T>>, slot: nat, b: nat, e: nat, j: nat)
    requires Shape(ns, t.bits, buckets) && t.contents == Contents(ns) && t.init == Init(buckets)
    requires slot < Pow2(31) && b < j < e <= |ns| && ns[b].payload.None? && ns[b].hashv == slot
    requires forall p | b < p < e :: ns[p].payload.Some?
    ensures ns[j].hashv in Chain(t, slot)
  {
    hide Pow2, NodeKey, BucketKey;
    ContentsAt(ns, j);
    var h := ns[j].hashv;
    assert NodeOk(ns[j]) && NodeOk(ns[b]);
    forall u: nat | u in t.init && u < Pow2(31)
      ensures !(BucketKey(slot) < BucketKey(u) < NodeKey(h))
    {
      var p :| 0 <= p < |ns| && ns[p] == buckets[u];
      assert NodeOk(ns[p]);
      OrderOfKeys(ns, b, p);
      OrderOfKeys(ns, p, j);
    }
    OrderOfKeys(ns, b, j);
  }

  /** In a sorted list, keys compare as positions do. */
  lemma OrderOfKeys<T>(ns: seq<Node<T>>, p: nat, q: nat)
    requires Sorted(ns) && p < |ns| && q < |ns|
    ensures ns[p].key < ns[q].key <==> p < q
  {
  }

  lemma InChainBetween<T>(ns: seq<Node<T>>, t: Table<T>, buckets: seq<Node?<T>>, slot: nat, b: nat, e: nat, j: nat)
    requires Shape(ns, t.bits, buckets) && t.contents == Contents(ns) && t.init == Init(buckets)
    requires slot < Pow2(31) && b < e <= |ns| && j < |ns| && ns[b].payload.None? && ns[b].hashv == slot
    requires ns[j].payload.Some? && ns[j].hashv in Chain(t, slot)
    requires e < |ns| ==> ns[e].payload.None?
    ensures b < j < e
  {
    hide Pow2, NodeKey, BucketKey;
    assert NodeOk(ns[j]) && NodeOk(ns[b]);
    OrderOfKeys(ns, b, j);
    if e < |ns| {
      assert NodeOk(ns[e]);
      var u := ns[e].hashv;
      assert buckets[u] == ns[e] && u in t.init;
      OrderOfKeys(ns, b, e);
      OrderOfKeys(ns, e, j);
    }
  }

  // ---- stepping down the bucket keys ----

  /** No slot above `key - c` widths and below `key` is initialised. */
  ghost predicate NoneBetween<T>(buckets: seq<Node?<T>>, low: nat, key: nat) {
    forall u: nat | u < |buckets| && u < Pow2(31) && low <= BucketKey(u) < key :: buckets[u] == null
  }

  /** The key `c` widths up. */
  function WidthsUp(c: nat, bits: nat): nat
    requires bits <= 31
  {
    c * Width(bits)
  }

  /** One step down: the slot looked at is the only one the step passes. */
  lemma StepDown<T>(bits: nat, c: nat, slot: nat, buckets: seq<Node?<T>>, key: nat)
    requires bits <= 31 && c < Pow2(bits) && slot == Rev(bits, c) < |buckets| == Pow2(bits)
    requires NoneBetween(buckets, WidthsUp(c, bits) + Width(bits), key)
    ensures buckets[slot] == null ==> NoneBetween(buckets, WidthsUp(c, bits), key)
    ensures buckets[slot] != null ==> NoneBetween(buckets, WidthsUp(c, bits) + 1, key)
  {
    hide Rev, Width, BucketKey, ReverseHash, Pow2;
    MultipleIsBucketKey(c, bits);
    forall u: nat | u < |buckets| && u < Pow2(31) && WidthsUp(c, bits) <= BucketKey(u) < key && u != slot
      ensures buckets[u] == null
    {
      SlotOfInterval(c, bits, u);
    }
  }

  /** The search stands at `pbKey`, `c` widths up; no bucket from there to `key` is initialised. */
  ghost predicate Searching<T>(bits: nat, buckets: seq<Node?<T>>, c: nat, pbKey: nat, key: nat)
    requires bits <= 31
  {
    && |buckets| == Pow2(bits) && buckets[0] != null
    && 0 < c < Pow2(bits) && pbKey == WidthsUp(c, bits) <= key
    && NoneBetween(buckets, pbKey, key)
  }

  lemma SearchStarts<T>(bits: nat, buckets: seq<Node?<T>>, slot: nat) returns (c: nat)
    requires bits <= 31 && |buckets| == Pow2(bits) && buckets[0] != null
    requires slot < |buckets| && slot < Pow2(31) && buckets[slot] == null
    ensures |buckets| / 2 < Pow2(31) && BucketKey(|buckets| / 2) == Width(bits)
    ensures Searching(bits, buckets, c, BucketKey(slot), BucketKey(slot))
  {
    assert bits >= 1;
    hide Rev, Width, BucketKey, Pow2;
    c := Rev(bits, slot);
    RevPositive(bits, slot);
    KeyStep(bits);
    BucketKeyParts(slot, bits);
  }

  lemma SearchSteps<T>(bits: nat, buckets: seq<Node?<T>>, c: nat, pbKey: nat, key: nat) returns (q: nat)
    requires bits <= 31 && Searching(bits, buckets, c, pbKey, key)
    ensures c > 0 && q + Width(bits) == pbKey && q < Pow2(32)
    ensures ReverseHash(q) < |buckets| && ReverseHash(q) < Pow2(31)
    ensures BucketKey(ReverseHash(q)) == q < key
    ensures buckets[ReverseHash(q)] == null ==> q > 0 && Searching(bits, buckets, c - 1, q, key)
    ensures buckets[ReverseHash(q)] != null ==> NoneBetween(buckets, q + 1, key)
  {
    hide Rev, Width, BucketKey, ReverseHash, Pow2, NoneBetween;
    var w := Width(bits);
    ZeroKey();
    MulDistributes(c - 1, 1, w);
    NatProduct(c - 1, w);
    MultipleIsBucketKey(c - 1, bits);
    StepDown(bits, c - 1, Rev(bits, c - 1), buckets, key);
    q := (c - 1) * w;
    if c == 1 {
      BucketKeyInjective(Rev(bits, 0), 0);
    }
  }

  lemma ZeroKey()
    ensures 0 < Pow2(31) && BucketKey(0) == 0
  {
    RevZero(32);
  }

  class SolistAccessor<T> {
    const soList: Solist<T>
    var next: Node?<T>
    var cur: Node?<T>
    var prev: Node?<T>
    var steps: nat

    constructor (sl: Solist<T>)
      ensures soList == sl && next == null && cur == null && prev == null
    {
      soList := sl;
      next, cur, prev, steps := null, null, null, 0;
    }

    /** `cur` is node `i` and `next` the one behind it. */
    ghost predicate Standing(i: nat)
      reads this, soList
    {
      i < |soList.nodes| && cur == soList.nodes[i] && next == At(soList.nodes, i + 1)
    }

    /** After a walk from node `b` to node `i`, `prev` is the node before `cur`, if it moved. */
    ghost predicate CameBy(b: nat, i: nat)
      reads this, soList
    {
      b < i ==> i - 1 < |soList.nodes| && prev == soList.nodes[i - 1]
    }

    /** One node further. */
    method Advance(ghost i: nat)
      requires soList.Valid() && Standing(i) && next != null
      modifies this
      ensures prev == old(cur) && Standing(i + 1) && CameBy(i, i + 1) && steps == old(steps)
    {
      prev := cur;
      cur := next;
      if cur != null {
        next := cur.next.ptr;
      }
    }

    method Zap()
      modifies this
      ensures prev == null && cur == null && next == null
    {
      prev, cur, next := null, null, null;
    }

    /** Stands at the dummy of an initialised bucket. */
    method StandAt(slot: nat) returns (ghost b: nat)
      requires soList.Valid() && slot < soList.nBuckets && soList.buckets[slot] != null
      modifies this
      ensures Standing(b) && soList.nodes[b] == soList.buckets[slot] && soList.nodes[b].payload.None?
      ensures soList.nodes[b].hashv == slot < Pow2(31) && soList.nodes[b].key == BucketKey(slot)
    {
      cur := soList.buckets[slot];
      prev := cur;
      next := cur.next.ptr;
      b := Position(soList.nodes, soList.bits, soList.buckets[..], slot);
    }

    /** The initialised bucket with the greatest key below `key`, by stepping down. */
    method NearestBucket(slot: nat, key: nat) returns (pbSlot: nat)
      requires soList.Valid()
      requires slot < soList.nBuckets && slot < Pow2(31) && key == BucketKey(slot) && soList.buckets[slot] == null
      ensures pbSlot < soList.nBuckets && pbSlot < Pow2(31) && soList.buckets[pbSlot] != null
      ensures BucketKey(pbSlot) < key
      ensures NoneBetween(soList.buckets[..], BucketKey(pbSlot) + 1, key)
    {
      hide Rev, Width, BucketKey, ReverseHash, Pow2, Contents, LinkedUp, Sorted, NodesOk, Indexed, NoneBetween, Searching, WidthsUp;
      ghost var bits, bs := soList.bits, soList.buckets[..];
      ghost var c: nat := SearchStarts(bits, bs, slot);
      var keyStep := BucketKey(soList.nBuckets / 2);
      var pbKey: nat := key;
      pbSlot := slot;
      var searching := true;
      while searching
        invariant searching ==> Searching(bits, bs, c, pbKey, key)
        invariant !searching ==> pbSlot < |bs| && pbSlot < Pow2(31) && BucketKey(pbSlot) == pbKey < key && bs[pbSlot] != null
        invariant !searching ==> NoneBetween(bs, pbKey + 1, key)
        decreases c, searching
      {
        ghost var q := SearchSteps(bits, bs, c, pbKey, key);
        pbKey := pbKey - keyStep;
        pbSlot := ReverseHash(pbKey);
        searching := soList.buckets[pbSlot] == null && 0 != pbKey;
        if searching {
          c := c - 1;
        }
      }
    }

    /** Walks from the node `cur` stands at while the next key is below `key`. */
    method WalkBelow(key: nat, ghost b: nat) returns (ghost i: nat)
      requires soList.Valid() && Standing(b) && soList.nodes[b].key < key
      modifies this
      ensures b <= i && Standing(i) && soList.nodes[i].key < key && (next != null ==> next.key >= key)
    {
      hide Shape, Contents, LinkedUp;
      ghost var ns := soList.nodes;
      i := b;
      while next != null && next.key < key
        invariant b <= i && Standing(i) && ns[i].key < key
        decreases |ns| - i
      {
        Advance(i);
        i := i + 1;
      }
    }

    /** Stands at the last node below `key`, found from the nearest initialised bucket. */
    method GetParent(slot: nat, key: nat) returns (ghost i: nat)
      requires soList.Valid()
      requires slot < soList.nBuckets && slot < Pow2(31) && key == BucketKey(slot) && soList.buckets[slot] == null
      modifies this
      ensures Standing(i) && soList.nodes[i].key < key && (next != null ==> next.key >= key)
    {
      hide Shape, Contents, Pow2, BucketKey, NoneBetween;
      var pbSlot := NearestBucket(slot, key);
      ghost var b := StandAt(pbSlot);
      i := WalkBelow(key, b);
    }

    /** Links `node` in behind `cur`; with one thread the compare-and-swap succeeds. */
    method LinkBehind(node: Node<T>, ghost ns: seq<Node<T>>, ghost i: nat, ghost at: Node<T>)
      requires i < |ns| && cur == ns[i] == at && next == At(ns, i + 1) && LinkedUp(ns) && Alone(ns, i)
      requires node !in ns && !node.next.mark
      modifies node, at
      ensures unchanged(this) && unchanged(soList) && unchanged(soList.buckets)
      ensures LinkedUp(Put(ns, i, node)) && cur.next.ptr == node
    {
      node.next := MarkedPtr(next, node.next.mark);
      var ok := cur.Cas(next, node, false);
      assert ok;
      Relinked(ns, i, node);
    }

    /** Gives bucket `slot` its dummy node, unless it has one. */
    method InitialiseBucket(slot: nat)
      requires soList.Valid() && slot < soList.nBuckets
      modifies this, soList, soList.buckets, soList.nodes
      ensures soList.Valid() && soList.buckets == old(soList.buckets)
      ensures soList.View() == Touch(old(soList.View()), slot)
      ensures fresh(Members(soList.nodes) - old(Members(soList.nodes)))
    {
      if soList.buckets[slot] != null {
        return;
      }
      WidthPow(soList.bits);
      var node := new Node<T>.Bucket(slot);
      ghost var i := GetParent(slot, node.key);
      hide Contents, Init, Pow2, BucketKey, NodeKey, Shape, LinkedUp;
      PlaceDummy(slot, node, i);
    }

    method PlaceDummy(slot: nat, node: Node<T>, ghost i: nat)
      requires soList.Valid() && slot < soList.buckets.Length && soList.buckets[slot] == null
      requires NodeOk(node) && node.payload.None? && node.hashv == slot
      requires node !in soList.nodes && !node.next.mark
      requires Standing(i) && soList.nodes[i].key < node.key && (next != null ==> next.key >= node.key)
      modifies this, soList, soList.buckets, soList.nodes, node
      ensures soList.buckets == old(soList.buckets) && soList.bits == old(soList.bits)
      ensures soList.Valid()
      ensures Contents(soList.nodes) == old(Contents(soList.nodes))
      ensures Init(soList.buckets[..]) == old(Init(soList.buckets[..])) + {slot}
      ensures Members(soList.nodes) == old(Members(soList.nodes)) + {node}
    {
      hide Contents, Init, Pow2, BucketKey, NodeKey, NodeOk, LinkedUp, Shape, Put;
      ghost var ns, bs := soList.nodes, soList.buckets[..];
      DummyFits(ns, soList.bits, bs, i, node);
      LinkBehind(node, ns, i, ns[i]);
      // With one thread nobody else can have linked this dummy or filled the slot.
      if soList.buckets[slot] == null && cur.next.ptr == node {
        FillSlot(slot, node, i);
      } else {
        assert false;
      }
    }

    method FillSlot(slot: nat, node: Node<T>, ghost i: nat)
      requires i < |soList.nodes| && slot < soList.buckets.Length && soList.nBuckets == Pow2(soList.bits)
      requires LinkedUp(Put(soList.nodes, i, node))
      requires Shape(Put(soList.nodes, i, node), soList.bits, soList.buckets[..][slot := node])
      requires soList.nItems == |Contents(Put(soList.nodes, i, node))|
      modifies this, soList, soList.buckets
      ensures soList.buckets == old(soList.buckets) && soList.bits == old(soList.bits)
      ensures soList.Valid() && soList.nodes == Put(old(soList.nodes), i, node)
      ensures soList.buckets[..] == old(soList.buckets[..])[slot := node]
    {
      hide Contents, Init, Pow2, BucketKey, NodeKey, Shape, LinkedUp;
      soList.buckets[slot] := node;
      next := node;
      soList.nodes := Put(soList.nodes, i, node);
      assert soList.buckets[..] == old(soList.buckets[..])[slot := node];
    }

    method CountedAdvance(ghost b: nat, ghost i: nat)
      requires soList.Valid() && Standing(i) && next != null && b <= i
      modifies this
      ensures Standing(i + 1) && CameBy(b, i + 1) && steps == old(steps) + 1
    {
      Advance(i);
      steps := steps + 1;
    }

    /** Walks from the node `cur` stands at while the next key is at most `key`, counting. */
    method WalkThrough(key: nat, ghost b: nat) returns (ghost i: nat)
      requires soList.Valid() && Standing(b) && soList.nodes[b].key <= key
      modifies this
      ensures b <= i && Standing(i) && steps == i - b
      ensures soList.nodes[i].key <= key && (next != null ==> next.key > key)
      ensures CameBy(b, i)
    {
      hide Shape, Contents, Pow2;
      ghost var ns := soList.nodes;
      i := b;
      steps := 0;
      while next != null && next.key <= key
        invariant b <= i && Standing(i) && steps == i - b && ns[i].key <= key
        invariant CameBy(b, i)
        decreases |ns| - i
      {
        CountedAdvance(b, i);
        i := i + 1;
      }
    }

    /** Lazy initialisation of a bucket. */
    method ReadyBucket(slot: nat)
      requires soList.Valid() && slot < soList.nBuckets
      modifies this, soList, soList.buckets, soList.nodes
      ensures soList.Valid() && soList.buckets == old(soList.buckets) && soList.buckets[slot] != null
      ensures soList.View() == Touch(old(soList.View()), slot)
      ensures fresh(Members(soList.nodes) - old(Members(soList.nodes)))
    {
      if soList.buckets[slot] == null {
        InitialiseBucket(slot);
        assert slot in Init(soList.buckets[..]);
      }
    }

    /** Stands at the dummy of the bucket of `hashv`, made now if the bucket had none. */
    method EnterBucket(hashv: nat) returns (ghost b: nat)
      requires soList.Valid() && hashv < Pow2(32)
      modifies this, soList, soList.buckets, soList.nodes
      ensures soList.Valid() && soList.buckets == old(soList.buckets)
      ensures soList.View() == Touch(old(soList.View()), SlotOf(hashv, soList.bits))
      ensures fresh(Members(soList.nodes) - old(Members(soList.nodes)))
      ensures Standing(b) && soList.nodes[b].payload.None?
      ensures soList.nodes[b].hashv == SlotOf(hashv, soList.bits) && soList.nodes[b].key < NodeKey(hashv)
    {
      hide Contents, Pow2, SlotOf, NodeKey, BucketKey, LinkedUp, Sorted, NodesOk, Indexed;
      ghost var bits := soList.bits;
      SlotIs(hashv, soList.nBuckets, bits);
      var slot := hashv % soList.nBuckets;
      ReadyBucket(slot);
      b := StandAt(slot);
      KeyInInterval(hashv, bits);
    }

    /** Stands at the place of `hashv`; the answer and the place are those of a full scan. */
    method FindNode(hashv: nat) returns (found: bool, ghost b: nat, ghost i: nat)
      requires soList.Valid() && hashv < Pow2(32)
      modifies this, soList, soList.buckets, soList.nodes
      ensures soList.Valid() && soList.buckets == old(soList.buckets)
      ensures soList.View() == Touch(old(soList.View()), SlotOf(hashv, soList.bits))
      ensures fresh(Members(soList.nodes) - old(Members(soList.nodes)))
      ensures found <==> SlotOf(hashv, 31) in soList.View().contents
      ensures Found(soList.nodes, hashv, soList.bits, b, i, found)
      ensures Standing(i) && steps == i - b && CameBy(b, i)
    {
      hide Shape, Contents, Pow2, SlotOf, NodeKey, BucketKey;
      b := EnterBucket(hashv);
      var key := NodeKey(hashv);
      i := WalkThrough(key, b);
      found := !(cur == null || cur.key != key);
      hide Found;
      PlaceFound(soList.nodes, soList.bits, soList.buckets[..], hashv, b, i);
    }

    method Attach(hashv: nat, dnode: Node<T>, ghost b: nat, ghost i: nat)
      requires soList.Valid() && hashv < Pow2(32) && soList.bits <= 31 && Standing(i)
      requires Found(soList.nodes, hashv, soList.bits, b, i, false)
      requires NodeOk(dnode) && dnode.payload.Some? && dnode.hashv == hashv && !dnode.next.mark
      requires dnode !in soList.nodes
      modifies soList, soList.nodes, dnode
      ensures soList.bits == old(soList.bits) && soList.buckets == old(soList.buckets)
      ensures soList.buckets[..] == old(soList.buckets[..])
      ensures soList.Valid()
      ensures Members(soList.nodes) == old(Members(soList.nodes)) + {dnode}
      ensures Contents(soList.nodes) == old(Contents(soList.nodes))[hashv := dnode.payload.value]
      ensures InBucket(soList.nodes, b, i, SlotOf(hashv, soList.bits)) && i < |soList.nodes| && cur == soList.nodes[i]
    {
      hide Found, Shape, Contents, Pow2, SlotOf, Init, LinkedUp, Put, InBucket;
      FoundInBucket(soList.nodes, hashv, soList.bits, b, i);
      PutKeepsBucket(soList.nodes, b, i, SlotOf(hashv, soList.bits), dnode);
      Splice(dnode, i);
    }

    /** The insert proper: link, count. */
    method Splice(dnode: Node<T>, ghost i: nat)
      requires soList.Valid() && Standing(i)
      requires soList.nodes[i].key < dnode.key && (next != null ==> dnode.key < next.key)
      requires NodeOk(dnode) && dnode.payload.Some? && !dnode.next.mark && dnode !in soList.nodes
      modifies soList, soList.nodes, dnode
      ensures soList.buckets == old(soList.buckets) && soList.bits == old(soList.bits)
      ensures unchanged(soList.buckets)
      ensures soList.Valid() && soList.nodes == Put(old(soList.nodes), i, dnode)
      ensures Members(soList.nodes) == old(Members(soList.nodes)) + {dnode}
      ensures Contents(soList.nodes) == old(Contents(soList.nodes))[dnode.hashv := dnode.payload.value]
    {
      hide Shape, Contents, Pow2, SlotOf, LinkedUp, Scan, Put, NodeOk;
      ghost var ns, bits, bs := soList.nodes, soList.bits, soList.buckets[..];
      DataFits(ns, bits, bs, i, dnode);
      LinkBehind(dnode, ns, i, ns[i]);
      soList.CountIn(Put(ns, i, dnode));
    }

    /** Reloads `next`, as the node behind `cur` has changed. */
    method LookOn(ghost i: nat)
      requires soList.Valid() && i < |soList.nodes| && cur == soList.nodes[i]
      modifies this
      ensures Standing(i) && steps == old(steps)
    {
      hide Shape, Contents, Pow2;
      next := cur.next.ptr;
    }

    /** Counts on from the inserted node's place to the end of its bucket's chain. */
    method CountChain(ghost slot: nat, ghost b: nat, ghost i: nat)
      requires soList.Valid() && slot < Pow2(31) && InBucket(soList.nodes, b, i, slot)
      requires i < |soList.nodes| && cur == soList.nodes[i] && steps == i - b
      modifies this
      ensures steps == |Chain(soList.View(), slot)|
    {
      hide Contents, Pow2, Chain, InBucket, LinkedUp, Sorted, NodesOk, Indexed;
      ghost var ns := soList.nodes;
      LookOn(i);
      ghost var e := i;
      while next != null && next.IsNode()
        invariant Standing(e) && b <= e && steps == e - b
        invariant InBucket(ns, b, e, slot)
        decreases |ns| - e
      {
        BucketStep(ns, b, e, slot);
        CountedAdvance(e, e);
        e := e + 1;
      }
      ChainCounted(ns, soList.View(), soList.buckets[..], slot, b, e);
    }

    /** The expansion check of an insert: grow the array, split the bucket, or neither. */
    method GrowIfFull(hashv: nat, nbuckets: nat)
      requires soList.Valid() && hashv < Pow2(31) && nbuckets == soList.nBuckets
      requires soList.bits <= 30 || !Grows(soList.View(), steps)
      modifies this, soList, soList.buckets, soList.nodes
      ensures soList.Valid()
      ensures soList.View() == Grow(old(soList.View()), SlotOf(hashv, old(soList.bits)), old(steps))
      ensures fresh(Members(soList.nodes) - old(Members(soList.nodes)))
      ensures soList.buckets == old(soList.buckets) || fresh(soList.buckets)
    {
      hide Shape, Contents, LinkedUp, Init, Pow2, SlotOf;
      TableIsOk(soList.nodes, soList.bits, soList.buckets[..], soList.View());
      SplitSlots(hashv, soList.nBuckets, soList.bits);
      if steps > soList.maxBucketLength {
        var slot := hashv % soList.nBuckets;
        if steps >= soList.maxBucketLength * 2 % UINT32
          || soList.nItems >= soList.maxBucketLength * soList.nBuckets % UINT32
        {
          soList.Expand(nbuckets);
          InitialiseBucket(slot + nbuckets);
        } else {
          var ibSlot := slot + nbuckets / 2;
          if ibSlot < soList.nBuckets {
            InitialiseBucket(ibSlot);
          }
        }
      }
    }

    /** What an insert does once the hash is known to be absent. */
    method InsertAt(hashv: nat, dnode: Node<T>, nbuckets: nat, ghost b: nat, ghost i: nat)
      requires soList.Valid() && hashv < Pow2(31) < Pow2(32) && soList.bits <= 31 && nbuckets == soList.nBuckets
      requires dnode.payload.Some? && RoomToGrow(soList.View(), hashv, dnode.payload.value)
      requires Standing(i) && steps == i - b && Found(soList.nodes, hashv, soList.bits, b, i, false)
      requires NodeOk(dnode) && dnode.payload.Some? && dnode.hashv == hashv && !dnode.next.mark
      requires dnode !in soList.nodes
      modifies this, soList, soList.buckets, soList.nodes, dnode
      ensures soList.Valid()
      ensures soList.View() == WithItem(old(soList.View()), hashv, dnode.payload.value)
      ensures fresh(Members(soList.nodes) - old(Members(soList.nodes)) - {dnode})
      ensures soList.buckets == old(soList.buckets) || fresh(soList.buckets)
    {
      hide Shape, Contents, LinkedUp, Pow2, SlotOf, NodeKey, BucketKey, Found, InBucket, Init, NodeOk, Chain, Grow;
      ghost var was := Members(soList.nodes);
      Attach(hashv, dnode, b, i);
      ghost var now := Members(soList.nodes);
      assert forall k | 0 <= k < |soList.nodes| :: soList.nodes[k] in now;
      assert now == was + {dnode};
      CountChain(SlotOf(hashv, soList.bits), b, i);
      GrowIfFull(hashv, nbuckets);
    }

    /** Adds an item unless its hash is there already; may grow or split the index. */
    method InsertNode(hashv: nat, payload: T) returns (result: bool)
      requires soList.Valid() && OpOk(soList.View(), DoInsert(hashv, payload))
      modifies this, soList, soList.buckets, soList.nodes
      ensures soList.Valid() && prev == null && cur == null && next == null
      ensures (soList.View(), result) == Insert(old(soList.View()), hashv, payload)
      ensures fresh(Members(soList.nodes) - old(Members(soList.nodes)))
      ensures soList.buckets == old(soList.buckets) || fresh(soList.buckets)
    {
      hide Shape, Contents, LinkedUp, Pow2, SlotOf, NodeKey, BucketKey, Found, InBucket, Init, WithItem, NodeOk;
      OwnLow31(hashv);
      var nbuckets := soList.nBuckets;
      var dnode := new Node<T>.Data(payload, hashv);
      NewNodeOk(dnode, hashv);
      var found: bool;
      ghost var b, i;
      found, b, i := FindNode(hashv);
      ghost var now := Members(soList.nodes);
      assert forall k | 0 <= k < |soList.nodes| :: soList.nodes[k] in now;
      result := !found;
      if result {
        InsertAt(hashv, dnode, nbuckets, b, i);
      }
      Zap();
    }

    /** Marks node `i`, then links it out; with one thread both compare-and-swaps succeed. */
    method Unlink(ghost ns: seq<Node<T>>, ghost i: nat, ghost before: Node<T>, ghost at: Node<T>)
      requires 0 < i < |ns| && prev == ns[i - 1] == before && cur == ns[i] == at && next == At(ns, i + 1)
      requires LinkedUp(ns) && Alone(ns, i) && Alone(ns, i - 1)
      modifies before, at
      ensures unchanged(this) && unchanged(soList) && unchanged(soList.buckets)
      ensures LinkedUp(Drop(ns, i))
    {
      var ok := cur.Cas(next, next, true);
      assert ok;
      ok := prev.Cas(cur, next, false);
      assert ok;
      Unlinked(ns, i);
    }

    /** What a delete does once the hash is known to be there. */
    method Remove(ghost hashv: nat, ghost b: nat, ghost i: nat)
      requires soList.Valid() && hashv < Pow2(32) && soList.bits <= 31
      requires Standing(i) && CameBy(b, i) && Found(soList.nodes, hashv, soList.bits, b, i, true)
      modifies soList, soList.nodes
      ensures soList.Valid() && soList.buckets == old(soList.buckets)
      ensures soList.View() == Without(old(soList.View()), hashv)
      ensures Members(soList.nodes) <= old(Members(soList.nodes))
    {
      hide Shape, Contents, LinkedUp, Pow2, SlotOf, Found, Init, Drop;
      ghost var ns := soList.nodes;
      DataGoes(ns, soList.bits, soList.buckets[..], hashv, b, i);
      Unlink(ns, i, ns[i - 1], ns[i]);
      soList.CountOut(Drop(ns, i));
    }

    /** Removes the item of a hash, whose top bit does not count. */
    method DeleteNode(hashv: nat) returns (result: bool)
      requires soList.Valid() && hashv < Pow2(32)
      modifies this, soList, soList.buckets, soList.nodes
      ensures soList.Valid() && prev == null && cur == null && next == null
      ensures (soList.View(), result) == Delete(old(soList.View()), hashv)
      ensures soList.buckets == old(soList.buckets)
      ensures fresh(Members(soList.nodes) - old(Members(soList.nodes)))
    {
      hide Shape, Contents, LinkedUp, Pow2, SlotOf, NodeKey, BucketKey, Found, Init;
      ghost var b, i;
      result, b, i := FindNode(hashv);
      ghost var now := Members(soList.nodes);
      assert forall k | 0 <= k < |soList.nodes| :: soList.nodes[k] in now;
      if result {
        ShapeBits(soList.nodes, soList.bits, soList.buckets[..]);
        Remove(hashv, b, i);
      } else {
        NothingLess(soList.View().contents, SlotOf(hashv, 31));
      }
      Zap();
    }

    /** The data node of a hash, whose top bit does not count; the source hands out its payload. */
    method FindItemNode(hashv: nat) returns (node: Node?<T>)
      requires soList.Valid() && hashv < Pow2(32)
      modifies this, soList, soList.buckets, soList.nodes
      ensures soList.Valid()
      ensures (soList.View(), if node == null then None else node.payload) == Find(old(soList.View()), hashv)
      ensures node != null ==> node in soList.nodes && node.payload.Some? && node.hashv == SlotOf(hashv, 31)
      ensures soList.buckets == old(soList.buckets)
      ensures fresh(Members(soList.nodes) - old(Members(soList.nodes)))
    {
      hide Shape, Contents, LinkedUp, Pow2, SlotOf, NodeKey, BucketKey, Init;
      var found: bool;
      ghost var b, i;
      found, b, i := FindNode(hashv);
      node := if found then cur else null;
      if found {
        ItemAt(soList.nodes, soList.bits, soList.buckets[..], i);
      }
    }

    /** One call of a client's run. */
    method Perform(op: Op<T>) returns (answer: Answer<T>)
      requires soList.Valid() && OpOk(soList.View(), op)
      modifies this, soList, soList.buckets, soList.nodes
      ensures soList.Valid() && (soList.View(), answer) == Do(old(soList.View()), op)
      ensures soList.buckets == old(soList.buckets) || fresh(soList.buckets)
      ensures fresh(Members(soList.nodes) - old(Members(soList.nodes)))
    {
      hide Shape, Contents, LinkedUp, Init, Pow2, SlotOf, Insert, Delete, Find, Touch, Members;
      answer := Nothing;
      match op
      case DoInsert(hash, payload) =>
        var b := InsertNode(hash, payload);
        answer := Flag(b);
      case DoDelete(hash) =>
        var b := DeleteNode(hash);
        answer := Flag(b);
      case DoFind(hash) =>
        var node := FindItemNode(hash);
        answer := Item(if node == null then None else node.payload);
      case DoInitBucket(slot) =>
        InitialiseBucket(slot);
      case DoExpand =>
        soList.Expand(soList.nBuckets);
    }

    /** A client's whole run: the list answers, and ends, as a plain map does. */
    method PerformAll(ops: seq<Op<T>>) returns (answers: seq<Answer<T>>)
      requires soList.Valid() && RunOk(soList.View(), ops)
      modifies this, soList, soList.buckets, soList.nodes
      ensures soList.Valid()
      ensures (soList.View().contents, answers) == RunPlain(old(soList.View()).contents, ops)
      ensures soList.nItems == |soList.View().contents|
    {
      hide Shape, Contents, LinkedUp, Init, Pow2, OpOk, Do, After, RunPlain;
      answers := [];
      ghost var t := soList.View();
      TableIsOk(soList.nodes, soList.bits, soList.buckets[..], t);
      AfterNone(t, ops);
      var k := 0;
      while k < |ops|
        invariant k <= |ops| && soList.Valid() && After(t, ops, k, soList.View(), answers)
        invariant soList.buckets == old(soList.buckets) || fresh(soList.buckets)
        invariant fresh(Members(soList.nodes) - old(Members(soList.nodes)))
      {
        assert forall j | 0 <= j < |soList.nodes| :: soList.nodes[j] in Members(soList.nodes);
        AfterOneMore(t, ops, k, soList.View(), answers);
        var a := Perform(ops[k]);
        answers := answers + [a];
        k := k + 1;
      }
      AfterAll(t, ops, soList.View(), answers);
    }
  }

  lemma TableIsOk<T>(ns: seq<Node<T>>, bits: nat, buckets: seq<Node?<T>>, t: Table<T>)
    requires Shape(ns, bits, buckets) && t == Table(Contents(ns), bits, Init(buckets), t.maxLen)
    ensures TableOk(t)
  {
    ContentsBelow31(ns);
  }

  lemma NewNodeOk<T>(x: Node<T>, hashv: nat)
    requires hashv < Pow2(31) && hashv < Pow2(32)
    requires x.payload.Some? && x.hashv == hashv && x.key == NodeKey(hashv)
    ensures NodeOk(x) && Pow2(31) < Pow2(32)
  {
  }

  lemma ShapeBits<T>(ns: seq<Node<T>>, bits: nat, buckets: seq<Node?<T>>)
    requires Shape(ns, bits, buckets)
    ensures bits <= 31
  {
  }

  lemma NothingLess<T>(m: map<nat, T>, h: nat)
    requires h !in m
    ensures m - {h} == m
  {
  }

  lemma ItemAt<T>(ns: seq<Node<T>>, bits: nat, buckets: seq<Node?<T>>, i: nat)
    requires Shape(ns, bits, buckets) && i < |ns| && ns[i].payload.Some?
    ensures ns[i].hashv in Contents(ns) && Contents(ns)[ns[i].hashv] == ns[i].payload.value
  {
    ContentsAt(ns, i);
  }

  /** Everything that holds once the data node a lookup found is dropped. */
  lemma DataGoes<T>(ns: seq<Node<T>>, bits: nat, buckets: seq<Node?<T>>, hashv: nat, b: nat, i: nat)
    requires Shape(ns, bits, buckets) && hashv < Pow2(32) && bits <= 31
    requires Found(ns, hashv, bits, b, i, true)
    ensures b < i < |ns| && Alone(ns, i) && Alone(ns, i - 1)
    ensures Shape(Drop(ns, i), bits, buckets)
    ensures Contents(Drop(ns, i)) == Contents(ns) - {SlotOf(hashv, 31)}
    ensures |Contents(ns)| == |Contents(Drop(ns, i))| + 1 < UINT32
    ensures Members(Drop(ns, i)) <= Members(ns)
  {
    hide Pow2, SlotOf, NodeKey, BucketKey, Scan, Indexed, Sorted, NodesOk, Contents;
    DropData(ns, bits, buckets, i);
    ItemsFit(ns);
    OneKeyLess(Contents(ns), SlotOf(hashv, 31));
    Distinct(ns, i);
    Distinct(ns, i - 1);
    DropMembers(ns, i);
  }

  lemma Distinct<T>(ns: seq<Node<T>>, i: nat)
    requires Sorted(ns) && i < |ns|
    ensures Alone(ns, i)
  {
  }

  lemma DropMembers<T>(ns: seq<Node<T>>, i: nat)
    requires i < |ns|
    ensures Members(Drop(ns, i)) <= Members(ns)
  {
  }

  lemma OneKeyLess<T>(m: map<nat, T>, h: nat)
    requires h in m
    ensures |m| == |m - {h}| + 1
  {
    assert (m - {h}).Keys == m.Keys - {h};
  }

  /** The slots an insert may initialise exist when it does. */
  lemma SplitSlots(hashv: nat, n: nat, bits: nat)
    requires bits <= 31 && n == Pow2(bits)
    ensures n > 0 && hashv % n == SlotOf(hashv, bits) < n
    ensures hashv % n + n < Pow2(bits + 1)
  {
  }

  lemma BucketStep<T>(ns: seq<Node<T>>, b: nat, e: nat, slot: nat)
    requires NodesOk(ns) && InBucket(ns, b, e, slot) && e + 1 < |ns| && ns[e + 1].IsNode()
    ensures InBucket(ns, b, e + 1, slot)
  {
    KeyParity(ns[e + 1]);
  }

  lemma ChainCounted<T>(ns: seq<Node<T>>, t: Table<T>, buckets: seq<Node?<T>>, slot: nat, b: nat, e: nat)
    requires Shape(ns, t.bits, buckets) && t.contents == Contents(ns) && t.init == Init(buckets)
    requires slot < Pow2(31) && InBucket(ns, b, e, slot)
    requires e + 1 < |ns| ==> !ns[e + 1].IsNode()
    ensures |Chain(t, slot)| == e - b
  {
    if e + 1 < |ns| {
      KeyParity(ns[e + 1]);
    }
    hide Shape, Chain;
    ChainCount(ns, t, buckets, slot, b, e + 1);
  }

  lemma SlotIs(hashv: nat, n: nat, bits: nat)
    requires bits <= 31 && n == Pow2(bits)
    ensures n > 0 && hashv % n == SlotOf(hashv, bits)
  {
  }

  /** Where the dummy of an initialised bucket is in the list. */
  lemma Position<T>(ns: seq<Node<T>>, bits: nat, buckets: seq<Node?<T>>, slot: nat) returns (b: nat)
    requires Shape(ns, bits, buckets) && slot < |buckets| && buckets[slot] != null
    ensures b < |ns| && ns[b] == buckets[slot] && ns[b].payload.None? && ns[b].hashv == slot < Pow2(31)
    ensures ns[b].key == BucketKey(slot)
  {
    b :| 0 <= b < |ns| && ns[b] == buckets[slot];
    assert NodeOk(ns[b]);
  }

  /** Everything that holds once an uninitialised bucket's dummy is put in its place. */
  lemma DummyFits<T>(ns: seq<Node<T>>, bits: nat, buckets: seq<Node?<T>>, i: nat, node: Node<T>)
    requires Shape(ns, bits, buckets) && i < |ns| && NodeOk(node) && node.payload.None?
    requires node.hashv < |buckets| && buckets[node.hashv] == null
    requires ns[i].key < node.key && (i + 1 < |ns| ==> ns[i + 1].key >= node.key)
    ensures |buckets| == Pow2(bits)
    ensures Shape(Put(ns, i, node), bits, buckets[node.hashv := node])
    ensures Contents(Put(ns, i, node)) == Contents(ns)
    ensures Init(buckets[node.hashv := node]) == Init(buckets) + {node.hashv}
    ensures Members(Put(ns, i, node)) == Members(ns) + {node} && Alone(ns, i)
  {
    NotYetThere(ns, bits, buckets, i, node);
    PutDummy(ns, bits, buckets, i, node);
    PutMembers(ns, i, node);
  }

  /** Behind the place of an uninitialised bucket comes a strictly greater key. */
  lemma NotYetThere<T>(ns: seq<Node<T>>, bits: nat, buckets: seq<Node?<T>>, i: nat, node: Node<T>)
    requires Shape(ns, bits, buckets) && i < |ns| && NodeOk(node) && node.payload.None?
    requires node.hashv < |buckets| && buckets[node.hashv] == null
    requires i + 1 < |ns| ==> ns[i + 1].key >= node.key
    ensures i + 1 < |ns| ==> ns[i + 1].key > node.key
  {
    if i + 1 < |ns| && ns[i + 1].key == node.key {
      var y := ns[i + 1];
      assert NodeOk(y);
      KeyParity(y);
      KeyParity(node);
      BucketKeyInjective(y.hashv, node.hashv);
    }
  }

  /** Where a lookup of `hashv` ends: started at its bucket's dummy `b`, stopped at `i`. */
  ghost predicate Found<T>(ns: seq<Node<T>>, hashv: nat, bits: nat, b: nat, i: nat, found: bool)
    requires hashv < Pow2(32) && bits <= 31
  {
    && b <= i < |ns|
    && ns[b].payload.None? && ns[b].hashv == SlotOf(hashv, bits)
    && (forall j | b < j <= i :: ns[j].payload.Some?)
    && i == Scan(ns, 0, NodeKey(hashv)) == Scan(ns, b, NodeKey(hashv))
    && ns[i].key <= NodeKey(hashv) && (i + 1 < |ns| ==> NodeKey(hashv) < ns[i + 1].key)
    && (found <==> ns[i].key == NodeKey(hashv))
    && (found ==> ns[i].payload.Some? && ns[i].hashv == SlotOf(hashv, 31))
  }

  /** The walk passes no dummy, stops where a scan from the head does, and decides membership. */
  lemma PlaceFound<T>(ns: seq<Node<T>>, bits: nat, buckets: seq<Node?<T>>, hashv: nat, b: nat, i: nat)
    requires Shape(ns, bits, buckets) && hashv < Pow2(32) && b <= i < |ns|
    requires ns[b].payload.None? && ns[b].hashv == SlotOf(hashv, bits) && ns[b].key < NodeKey(hashv)
    requires ns[i].key <= NodeKey(hashv) && (i + 1 < |ns| ==> NodeKey(hashv) < ns[i + 1].key)
    ensures Found(ns, hashv, bits, b, i, ns[i].key == NodeKey(hashv))
    ensures ns[i].key == NodeKey(hashv) <==> SlotOf(hashv, 31) in Contents(ns)
  {
    hide Pow2, SlotOf, NodeKey, BucketKey;
    ScanStops(ns, 0, i, NodeKey(hashv));
    ScanStops(ns, b, i, NodeKey(hashv));
    forall j | b < j <= i
      ensures ns[j].payload.Some?
    {
      DataInInterval(ns, bits, buckets, hashv, b, i, j);
    }
    FoundIff(ns, hashv, i);
    KeyIdentifiesAt(ns, hashv, i);
  }

  lemma KeyIdentifiesAt<T>(ns: seq<Node<T>>, hashv: nat, i: nat)
    requires NodesOk(ns) && hashv < Pow2(32) && i < |ns|
    ensures ns[i].key == NodeKey(hashv) <==> ns[i].payload.Some? && ns[i].hashv == SlotOf(hashv, 31)
  {
    assert NodeOk(ns[i]);
    KeyIdentifies(ns[i], hashv);
  }

  lemma DataInInterval<T>(ns: seq<Node<T>>, bits: nat, buckets: seq<Node?<T>>, hashv: nat, b: nat, i: nat, j: nat)
    requires Shape(ns, bits, buckets) && hashv < Pow2(32) && b < j <= i < |ns|
    requires ns[b].payload.None? && ns[b].hashv == SlotOf(hashv, bits) && ns[i].key <= NodeKey(hashv)
    ensures ns[j].payload.Some?
  {
    hide Pow2, SlotOf, NodeKey, BucketKey;
    assert NodeOk(ns[j]) && NodeOk(ns[b]);
    OrderOfKeys(ns, b, j);
    OrderOfKeys(ns, i, j);
    if ns[j].payload.None? {
      NoDummyBetween(hashv, ns[j].hashv, bits);
    }
  }

  lemma FoundIff<T>(ns: seq<Node<T>>, hashv: nat, i: nat)
    requires Sorted(ns) && NodesOk(ns) && hashv < Pow2(32) && i < |ns|
    requires ns[i].key <= NodeKey(hashv) && (i + 1 < |ns| ==> NodeKey(hashv) < ns[i + 1].key)
    ensures ns[i].key == NodeKey(hashv) <==> SlotOf(hashv, 31) in Contents(ns)
  {
    hide Pow2, SlotOf, NodeKey, BucketKey;
    var h := SlotOf(hashv, 31);
    ContentsHas(ns, h);
    KeyIdentifiesAt(ns, hashv, i);
    if h in Contents(ns) {
      var j: nat :| j < |ns| && ns[j].payload.Some? && ns[j].hashv == h;
      KeyIdentifiesAt(ns, hashv, j);
      OrderOfKeys(ns, i, j);
      if i + 1 < |ns| {
        OrderOfKeys(ns, j, i + 1);
      }
    }
  }

  /** Everything that holds once a new data node is put in its place. */
  lemma DataFits<T>(ns: seq<Node<T>>, bits: nat, buckets: seq<Node?<T>>, i: nat, x: Node<T>)
    requires Shape(ns, bits, buckets) && i < |ns| && NodeOk(x) && x.payload.Some?
    requires ns[i].key < x.key && (i + 1 < |ns| ==> x.key < ns[i + 1].key)
    ensures Shape(Put(ns, i, x), bits, buckets)
    ensures Contents(Put(ns, i, x)) == Contents(ns)[x.hashv := x.payload.value]
    ensures |Contents(Put(ns, i, x))| == |Contents(ns)| + 1 < UINT32
    ensures Members(Put(ns, i, x)) == Members(ns) + {x} && Alone(ns, i)
  {
    PutData(ns, bits, buckets, i, x);
    PutMembers(ns, i, x);
    ItemsFit(Put(ns, i, x));
  }

  /** Nodes `b + 1` to `i` are data nodes right behind `b`, the dummy of bucket `slot`. */
  ghost predicate InBucket<T>(ns: seq<Node<T>>, b: nat, i: nat, slot: nat) {
    && b <= i < |ns| && ns[b].payload.None? && ns[b].hashv == slot
    && forall j | b < j <= i :: ns[j].payload.Some?
  }

  lemma FoundInBucket<T>(ns: seq<Node<T>>, hashv: nat, bits: nat, b: nat, i: nat)
    requires hashv < Pow2(32) && bits <= 31 && Found(ns, hashv, bits, b, i, false)
    ensures InBucket(ns, b, i, SlotOf(hashv, bits))
    ensures ns[i].key < NodeKey(hashv) && (i + 1 < |ns| ==> NodeKey(hashv) < ns[i + 1].key)
  {
    hide Scan, Pow2, SlotOf, NodeKey;
  }

  lemma PutKeepsBucket<T>(ns: seq<Node<T>>, b: nat, i: nat, slot: nat, x: Node<T>)
    requires InBucket(ns, b, i, slot)
    ensures InBucket(Put(ns, i, x), b, i, slot) && i < |Put(ns, i, x)| && Put(ns, i, x)[i] == ns[i]
  {
    assert forall j | 0 <= j <= i :: Put(ns, i, x)[j] == ns[j];
  }
}
