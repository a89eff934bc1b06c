// The nodes of the list and the sequence they form (solist.hpp:56-101).
//
// Everything about a node but its link is fixed when it is made, so order, keys,
// contents and the bucket index are facts about a sequence of nodes; only
// `LinkedUp` looks at memory.

module SolistNodes {
  import opened Powers
  import opened SplitOrder
  import opened MarkPtr
  import opened Options

  class Node<T> {
    const hashv: nat
    const key: nat
    const payload: Option<T>
    var next: MarkedPtr<Node?<T>>

    /** A bucket's dummy node. */
    constructor Bucket(hashv: nat)
      requires hashv < Pow2(31)
      ensures this.hashv == hashv && key == BucketKey(hashv) && payload == None
      ensures next == MarkedPtr(null, false)
    {
      this.hashv, key, payload := hashv, BucketKey(hashv), None;
      next := MarkedPtr(null, false);
    }

    /** A data node; its base class asserts that the hash has its top bit clear. */
    constructor Data(data: T, hashv: nat)
      requires hashv < Pow2(31)
      ensures hashv < Pow2(32) && this.hashv == hashv && key == NodeKey(hashv) && payload == Some(data)
      ensures next == MarkedPtr(null, false)
    {
      TopBitClear(hashv);
      var k := BucketKey(hashv);
      this.hashv, payload := hashv, Some(data);
      key := if k % 2 == DATABIT then k else k + DATABIT;
      next := MarkedPtr(null, false);
    }

    predicate IsNode() {
      key % 2 == DATABIT
    }

    method Cas(expected: Node?<T>, desired: Node?<T>, mark: bool) returns (ok: bool)
      modifies this
      ensures (next, ok) == MarkPtr.Cas(old(next), MarkedPtr(expected, false), MarkedPtr(desired, mark))
    {
      ok := next == MarkedPtr(expected, false);
      if ok {
        next := MarkedPtr(desired, mark);
      }
    }
  }

  // ---- sequences of nodes ----

  ghost predicate Sorted<T>(ns: seq<Node<T>>) {
    forall i, j | 0 <= i < j < |ns| :: ns[i].key < ns[j].key
  }

  ghost predicate NodeOk<T>(x: Node<T>) {
    && x.hashv < Pow2(31) < Pow2(32)
    && x.key == (if x.payload.Some? then NodeKey(x.hashv) else BucketKey(x.hashv))
  }

  ghost predicate NodesOk<T>(ns: seq<Node<T>>) {
    forall i | 0 <= i < |ns| :: NodeOk(ns[i])
  }

  /** Dummies in the list and entries of the bucket array are the same thing. */
  ghost predicate Indexed<T>(ns: seq<Node<T>>, buckets: seq<Node?<T>>) {
    && (forall i | 0 <= i < |ns| && ns[i].payload.None? :: ns[i].hashv < |buckets| && buckets[ns[i].hashv] == ns[i])
    && (forall s: nat | s < |buckets| && buckets[s] != null ::
          buckets[s] in ns && buckets[s].payload.None? && buckets[s].hashv == s)
  }

  ghost predicate Shape<T>(ns: seq<Node<T>>, bits: nat, buckets: seq<Node?<T>>) {
    && bits <= 31 && |buckets| == Pow2(bits)
    && Sorted(ns) && NodesOk(ns) && Indexed(ns, buckets)
    && |ns| > 0 && buckets[0] == ns[0]
  }

  ghost predicate LinkedUp<T>(ns: seq<Node<T>>)
    reads ns
  {
    forall i | 0 <= i < |ns| :: ns[i].next == MarkedPtr(At(ns, i + 1), false)
  }

  /** Node `i`, or null past the end. */
  ghost function At<T>(ns: seq<Node<T>>, i: nat): Node?<T> {
    if i < |ns| then ns[i] else null
  }

  ghost function Contents<T>(ns: seq<Node<T>>): map<nat, T> {
    if ns == [] then map[]
    else
      var x, m := ns[|ns| - 1], Contents(ns[..|ns| - 1]);
      if x.payload.Some? then m[x.hashv := x.payload.value] else m
  }

  ghost function Init<T>(buckets: seq<Node?<T>>): set<nat> {
    set s: nat | s < |buckets| && buckets[s] != null
  }

  // ---- contents ----

  lemma {:induction false} ContentsHas<T>(ns: seq<Node<T>>, h: nat)
    ensures h in Contents(ns) <==> exists i :: 0 <= i < |ns| && ns[i].payload.Some? && ns[i].hashv == h
  {
    if ns != [] {
      var k := |ns| - 1;
      ContentsHas(ns[..k], h);
      if h in Contents(ns[..k]) {
        var i :| 0 <= i < k && ns[..k][i].payload.Some? && ns[..k][i].hashv == h;
        assert ns[i] == ns[..k][i];
      }
      if i :| 0 <= i < k && ns[i].payload.Some? && ns[i].hashv == h {
        assert ns[..k][i] == ns[i];
      }
    }
  }

  /** Data nodes of a sorted list have distinct hashes. */
  lemma HashOnce<T>(ns: seq<Node<T>>, i: nat, j: nat)
    requires Sorted(ns) && NodesOk(ns) && i < |ns| && j < |ns|
    requires ns[i].payload.Some? == ns[j].payload.Some? && ns[i].hashv == ns[j].hashv
    ensures i == j
  {
    assert NodeOk(ns[i]) && NodeOk(ns[j]);
  }

  lemma {:induction false} ContentsAt<T>(ns: seq<Node<T>>, i: nat)
    requires Sorted(ns) && NodesOk(ns) && i < |ns| && ns[i].payload.Some?
    ensures ns[i].hashv in Contents(ns) && Contents(ns)[ns[i].hashv] == ns[i].payload.value
  {
    var k := |ns| - 1;
    if i < k {
      ContentsAt(ns[..k], i);
      assert NodeOk(ns[i]) && NodeOk(ns[k]);
    }
  }

  /** Adding a data node anywhere adds its hash and payload; a dummy adds nothing. */
  lemma {:induction false} ContentsInsert<T>(a: seq<Node<T>>, x: Node<T>, b: seq<Node<T>>)
    requires x.payload.Some? ==> x.hashv !in Contents(b)
    ensures Contents(a + [x] + b) == (if x.payload.Some? then Contents(a + b)[x.hashv := x.payload.value] else Contents(a + b))
    decreases |b|
  {
    if b == [] {
      assert a + b == a && a + [x] + b == a + [x];
      assert (a + [x])[..|a|] == a;
    } else {
      var k := |b| - 1;
      var c, y := b[..k], b[k];
      assert (a + [x] + b)[..|a| + 1 + k] == a + [x] + c;
      assert (a + b)[..|a| + k] == a + c;
      ContentsInsert(a, x, c);
    }
  }

  lemma {:induction false} ContentsBelow31<T>(ns: seq<Node<T>>)
    requires NodesOk(ns)
    ensures forall h | h in Contents(ns) :: h < Pow2(31)
  {
    if ns != [] {
      var k := |ns| - 1;
      assert NodeOk(ns[k]);
      ContentsBelow31(ns[..k]);
    }
  }

  // ---- the place of a key ----

  /** Walking from node `i` while the next key is at most `key`: where the walk stops. */
  ghost function Scan<T>(ns: seq<Node<T>>, i: nat, key: nat): (r: nat)
    requires i < |ns|
    ensures i <= r < |ns|
    decreases |ns| - i
  {
    if i + 1 < |ns| && ns[i + 1].key <= key then Scan(ns, i + 1, key) else i
  }

  /** A stopping place is where a scan from any node not above it stops. */
  lemma {:induction false} ScanStops<T>(ns: seq<Node<T>>, i: nat, r: nat, key: nat)
    requires Sorted(ns) && i <= r < |ns| && ns[r].key <= key
    requires r + 1 < |ns| ==> ns[r + 1].key > key
    ensures Scan(ns, i, key) == r
    decreases r - i
  {
    if i < r {
      assert i + 1 < r ==> ns[i + 1].key < ns[r].key;
      ScanStops(ns, i + 1, r, key);
    }
  }

  // ---- keys tell dummies from data ----

  lemma KeyParity<T>(x: Node<T>)
    requires NodeOk(x)
    ensures x.IsNode() <==> x.payload.Some?
  {
    if x.payload.None? {
      BucketKeyEven(x.hashv);
    }
  }

  /** The node with a hash's key is the data node of that hash without its top bit. */
  lemma KeyIdentifies<T>(x: Node<T>, hash: nat)
    requires NodeOk(x) && hash < Pow2(32)
    ensures x.key == NodeKey(hash) <==> x.payload.Some? && x.hashv == SlotOf(hash, 31)
  {
    hide Pow2, SlotOf, NodeKey, BucketKey;
    NodeKeyFoldsTopBit(hash);
    if x.payload.Some? {
      NodeKeyEqual(x.hashv, hash);
      OwnLow31(x.hashv);
    } else {
      BucketKeyEven(x.hashv);
    }
  }

  // ---- changes ----

  ghost function Put<T>(ns: seq<Node<T>>, i: nat, x: Node<T>): seq<Node<T>>
    requires i < |ns|
  {
    ns[..i + 1] + [x] + ns[i + 1..]
  }

  lemma PutSorted<T>(ns: seq<Node<T>>, i: nat, x: Node<T>)
    requires Sorted(ns) && i < |ns| && ns[i].key < x.key
    requires i + 1 < |ns| ==> x.key < ns[i + 1].key
    ensures Sorted(Put(ns, i, x))
  {
    var ms := Put(ns, i, x);
    forall p, q | 0 <= p < q < |ms|
      ensures ms[p].key < ms[q].key
    {
      assert ms[p] == (if p <= i then ns[p] else if p == i + 1 then x else ns[p - 1]);
      assert ms[q] == (if q <= i then ns[q] else if q == i + 1 then x else ns[q - 1]);
    }
  }

  lemma PutNodesOk<T>(ns: seq<Node<T>>, i: nat, x: Node<T>)
    requires NodesOk(ns) && i < |ns| && NodeOk(x)
    ensures NodesOk(Put(ns, i, x))
  {
    var ms := Put(ns, i, x);
    forall p | 0 <= p < |ms|
      ensures NodeOk(ms[p])
    {
      assert ms[p] == (if p <= i then ns[p] else if p == i + 1 then x else ns[p - 1]);
    }
  }

  /** Adding a data node at its place. */
  lemma PutData<T>(ns: seq<Node<T>>, bits: nat, buckets: seq<Node?<T>>, i: nat, x: Node<T>)
    requires Shape(ns, bits, buckets) && i < |ns| && NodeOk(x) && x.payload.Some?
    requires ns[i].key < x.key && (i + 1 < |ns| ==> x.key < ns[i + 1].key)
    ensures Shape(Put(ns, i, x), bits, buckets)
    ensures x.hashv !in Contents(ns)
    ensures Contents(Put(ns, i, x)) == Contents(ns)[x.hashv := x.payload.value]
  {
    hide Pow2, NodeKey, BucketKey;
    PutSorted(ns, i, x);
    PutNodesOk(ns, i, x);
    PutIndexed(ns, buckets, i, x);
    AbsentInGap(ns, i, x);
    ContentsOfSuffix(ns, i + 1, x.hashv);
    ContentsInsert(ns[..i + 1], x, ns[i + 1..]);
    assert ns[..i + 1] + ns[i + 1..] == ns;
  }

  lemma PutIndexed<T>(ns: seq<Node<T>>, buckets: seq<Node?<T>>, i: nat, x: Node<T>)
    requires Indexed(ns, buckets) && i < |ns| && x.payload.Some?
    ensures Indexed(Put(ns, i, x), buckets)
  {
    PutMembers(ns, i, x);
  }

  ghost function Members<T>(ns: seq<Node<T>>): set<Node<T>> {
    set y | y in ns
  }

  lemma PutMembers<T>(ns: seq<Node<T>>, i: nat, x: Node<T>)
    requires i < |ns|
    ensures forall y :: y in Put(ns, i, x) <==> y in ns || y == x
    ensures Members(Put(ns, i, x)) == Members(ns) + {x}
  {
    var ms := Put(ns, i, x);
    assert ns == ns[..i + 1] + ns[i + 1..];
    assert ms[i + 1] == x;
  }

  /** A key that fits strictly between two neighbours is not in the list. */
  lemma AbsentInGap<T>(ns: seq<Node<T>>, i: nat, x: Node<T>)
    requires Sorted(ns) && NodesOk(ns) && i < |ns| && NodeOk(x) && x.payload.Some?
    requires ns[i].key < x.key && (i + 1 < |ns| ==> x.key < ns[i + 1].key)
    ensures x.hashv !in Contents(ns)
  {
    ContentsHas(ns, x.hashv);
  }

  lemma ContentsOfSuffix<T>(ns: seq<Node<T>>, i: nat, h: nat)
    requires i <= |ns| && h !in Contents(ns)
    ensures h !in Contents(ns[i..])
  {
    ContentsHas(ns, h);
    ContentsHas(ns[i..], h);
  }

  /** Adding the dummy of an uninitialised bucket at its place. */
  lemma PutDummy<T>(ns: seq<Node<T>>, bits: nat, buckets: seq<Node?<T>>, i: nat, x: Node<T>)
    requires Shape(ns, bits, buckets) && i < |ns| && NodeOk(x) && x.payload.None?
    requires x.hashv < |buckets| && buckets[x.hashv] == null
    requires ns[i].key < x.key && (i + 1 < |ns| ==> x.key < ns[i + 1].key)
    ensures Shape(Put(ns, i, x), bits, buckets[x.hashv := x])
    ensures Contents(Put(ns, i, x)) == Contents(ns)
    ensures Init(buckets[x.hashv := x]) == Init(buckets) + {x.hashv}
  {
    hide Pow2, NodeKey, BucketKey, NodeOk, Sorted, NodesOk, Indexed, Contents;
    PutSorted(ns, i, x);
    PutNodesOk(ns, i, x);
    DummyIndexed(ns, buckets, i, x);
    ContentsInsert(ns[..i + 1], x, ns[i + 1..]);
    assert ns[..i + 1] + ns[i + 1..] == ns;
  }

  lemma DummyIndexed<T>(ns: seq<Node<T>>, buckets: seq<Node?<T>>, i: nat, x: Node<T>)
    requires Indexed(ns, buckets) && i < |ns| && x.payload.None? && x.hashv < |buckets| && buckets[x.hashv] == null
    ensures Indexed(Put(ns, i, x), buckets[x.hashv := x])
  {
    PutMembers(ns, i, x);
    var ms, bs := Put(ns, i, x), buckets[x.hashv := x];
    forall p | 0 <= p < |ms| && ms[p].payload.None?
      ensures ms[p].hashv < |bs| && bs[ms[p].hashv] == ms[p]
    {
      assert ms[p] in ns || ms[p] == x;
      if ms[p] in ns {
        var j :| 0 <= j < |ns| && ns[j] == ms[p];
      }
    }
  }

  ghost function Drop<T>(ns: seq<Node<T>>, i: nat): seq<Node<T>>
    requires i < |ns|
  {
    ns[..i] + ns[i + 1..]
  }

  /** Removing a data node removes exactly its hash. */
  lemma DropData<T>(ns: seq<Node<T>>, bits: nat, buckets: seq<Node?<T>>, i: nat)
    requires Shape(ns, bits, buckets) && 0 < i < |ns| && ns[i].payload.Some?
    ensures Shape(Drop(ns, i), bits, buckets)
    ensures Contents(Drop(ns, i)) == Contents(ns) - {ns[i].hashv}
    ensures ns[i].hashv in Contents(ns)
  {
    hide Pow2, NodeKey, BucketKey;
    DropOrder(ns, i);
    DropIndexed(ns, buckets, i);
    DropContents(ns, i);
  }

  lemma DropOrder<T>(ns: seq<Node<T>>, i: nat)
    requires Sorted(ns) && NodesOk(ns) && i < |ns|
    ensures Sorted(Drop(ns, i)) && NodesOk(Drop(ns, i))
  {
    var ms := Drop(ns, i);
    assert forall p | 0 <= p < |ms| :: ms[p] == (if p < i then ns[p] else ns[p + 1]);
  }

  lemma DropIndexed<T>(ns: seq<Node<T>>, buckets: seq<Node?<T>>, i: nat)
    requires Indexed(ns, buckets) && i < |ns| && ns[i].payload.Some?
    ensures Indexed(Drop(ns, i), buckets)
  {
    var ms := Drop(ns, i);
    assert ns == ns[..i] + [ns[i]] + ns[i + 1..];
    assert forall y :: y in ns <==> y in ms || y == ns[i];
    forall p | 0 <= p < |ms| && ms[p].payload.None?
      ensures ms[p].hashv < |buckets| && buckets[ms[p].hashv] == ms[p]
    {
      assert ms[p] in ns;
      var j :| 0 <= j < |ns| && ns[j] == ms[p];
    }
  }

  lemma DropContents<T>(ns: seq<Node<T>>, i: nat)
    requires Sorted(ns) && NodesOk(ns) && i < |ns| && ns[i].payload.Some?
    ensures ns[i].hashv in Contents(ns)
    ensures Contents(Drop(ns, i)) == Contents(ns) - {ns[i].hashv}
  {
    hide NodeOk, Sorted, NodesOk, Contents;
    var ms, x := Drop(ns, i), ns[i];
    ContentsAt(ns, i);
    HashGone(ns, i);
    ContentsOfSuffix(ms, i, x.hashv);
    assert ms[i..] == ns[i + 1..] && ms[..i] == ns[..i];
    ContentsInsert(ns[..i], x, ns[i + 1..]);
    assert ns == ns[..i] + [x] + ns[i + 1..];
    MapRestored(Contents(ms), x.hashv, x.payload.value);
  }

  lemma HashGone<T>(ns: seq<Node<T>>, i: nat)
    requires Sorted(ns) && NodesOk(ns) && i < |ns| && ns[i].payload.Some?
    ensures ns[i].hashv !in Contents(Drop(ns, i))
  {
    var ms := Drop(ns, i);
    ContentsHas(ms, ns[i].hashv);
    assert NodeOk(ns[i]);
    assert forall p | 0 <= p < |ms| :: ms[p] == (if p < i then ns[p] else ns[p + 1]);
  }

  lemma MapRestored<T>(m: map<nat, T>, h: nat, v: T)
    requires h !in m
    ensures m[h := v] - {h} == m
  {
  }

  /** Doubling the bucket array leaves the list as it is. */
  lemma Doubled<T>(ns: seq<Node<T>>, bits: nat, buckets: seq<Node?<T>>, more: seq<Node?<T>>)
    requires Shape(ns, bits, buckets) && bits <= 30
    requires |more| == 2 * |buckets| && more[..|buckets|] == buckets
    requires forall s | |buckets| <= s < |more| :: more[s] == null
    ensures Shape(ns, bits + 1, more) && Init(more) == Init(buckets)
  {
    assert forall s | 0 <= s < |buckets| :: more[s] == buckets[s];
  }
}
