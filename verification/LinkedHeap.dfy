// The memory of the lock-free list: nodes named by their position in a growing
// sequence, linked by marked pointers, with keys rising along every link.
//
// `Reach` is what a walk from a node visits.  The lemmas say what the two
// successful compare-and-swaps of the list do to it: linking a node in adds
// exactly that node, swinging a link past a node removes exactly that node.

module LinkedHeap {
  import opened MarkPtr
  import opened Options

  const KEYS: nat := 0x1_0000_0000

  type Link = MarkedPtr<Option<nat>>

  /** `published` records that a compare-and-swap has put the node into the list at some time. */
  datatype Cell = Cell(key: nat, next: Link, published: bool)

  type Heap = seq<Cell>

  predicate CellOk(h: Heap, u: nat)
    requires u < |h|
  {
    && h[u].key < KEYS
    && match h[u].next.ptr
       case None => true
       case Some(v) => v < |h| && h[u].key < h[v].key
  }

  /** Every link leads to a strictly greater key. */
  ghost predicate HeapOk(h: Heap) {
    forall u: nat | u < |h| :: CellOk(h, u)
  }

  ghost function Reach(h: Heap, u: nat): (r: set<nat>)
    requires HeapOk(h) && u < |h|
    ensures u in r
    decreases KEYS - h[u].key
  {
    assert CellOk(h, u);
    match h[u].next.ptr
    case None => {u}
    case Some(v) => assert CellOk(h, v); {u} + Reach(h, v)
  }

  lemma {:induction false} ReachAbove(h: Heap, u: nat, v: nat)
    requires HeapOk(h) && u < |h| && v in Reach(h, u)
    ensures v < |h| && (v == u || h[u].key < h[v].key)
    decreases KEYS - h[u].key
  {
    assert CellOk(h, u);
    if v != u {
      var w := h[u].next.ptr.value;
      assert CellOk(h, w);
      ReachAbove(h, w, v);
    }
  }

  lemma {:induction false} ReachNext(h: Heap, u: nat, v: nat)
    requires HeapOk(h) && u < |h| && v in Reach(h, u) && v < |h| && h[v].next.ptr.Some?
    ensures h[v].next.ptr.value in Reach(h, u)
    decreases KEYS - h[u].key
  {
    assert CellOk(h, u);
    if v == u {
      assert CellOk(h, h[u].next.ptr.value);
    } else {
      var w := h[u].next.ptr.value;
      assert CellOk(h, w);
      ReachNext(h, w, v);
    }
  }

  /** Along one walk, the next greater key after `v` is the one `v` links to. */
  lemma {:induction false} ReachGap(h: Heap, u: nat, v: nat, w: nat)
    requires HeapOk(h) && u < |h| && v in Reach(h, u) && w in Reach(h, u)
    ensures v < |h| && w < |h|
    ensures h[v].key < h[w].key ==> h[v].next.ptr.Some? && h[v].next.ptr.value < |h|
                                    && h[h[v].next.ptr.value].key <= h[w].key
    ensures h[v].key == h[w].key ==> v == w
    decreases KEYS - h[u].key
  {
    ReachAbove(h, u, v);
    ReachAbove(h, u, w);
    assert CellOk(h, u);
    if h[u].next.ptr.Some? {
      var x := h[u].next.ptr.value;
      assert CellOk(h, x);
      if v == u {
        if w != u {
          ReachAbove(h, x, w);
        }
      } else if w != u {
        ReachGap(h, x, v, w);
      }
    }
  }

  /** A walk only depends on the links of the nodes it visits. */
  lemma {:induction false} ReachFrame(h: Heap, g: Heap, u: nat)
    requires HeapOk(h) && HeapOk(g) && u < |h| <= |g|
    requires forall v: nat | v < |h| && v in Reach(h, u) :: g[v].next.ptr == h[v].next.ptr && g[v].key == h[v].key
    ensures Reach(g, u) == Reach(h, u)
    decreases KEYS - h[u].key
  {
    assert CellOk(h, u) && CellOk(g, u);
    if h[u].next.ptr.Some? {
      var w := h[u].next.ptr.value;
      assert CellOk(h, w);
      ReachFrame(h, g, w);
    }
  }

  function SetNext(h: Heap, u: nat, link: Link): (g: Heap)
    requires u < |h|
    ensures |g| == |h|
  {
    h[u := h[u].(next := link)]
  }

  /** Linking `d` in behind `c` adds exactly `d`. */
  lemma {:induction false} ReachInsert(h: Heap, u: nat, c: nat, d: nat, m: bool)
    requires HeapOk(h) && u < |h| && c in Reach(h, u) && c < |h| && d < |h| && d !in Reach(h, u)
    requires h[d].next.ptr == h[c].next.ptr
    requires HeapOk(SetNext(h, c, MarkedPtr(Some(d), m)))
    ensures Reach(SetNext(h, c, MarkedPtr(Some(d), m)), u) == Reach(h, u) + {d}
    decreases KEYS - h[u].key
  {
    var g := SetNext(h, c, MarkedPtr(Some(d), m));
    assert CellOk(h, u) && CellOk(g, u) && CellOk(g, d);
    if u == c {
      ReachAfterInsert(h, c, d, m);
    } else {
      var w := h[u].next.ptr.value;
      assert CellOk(h, w);
      ReachInsert(h, w, c, d, m);
    }
  }

  lemma ReachAfterInsert(h: Heap, c: nat, d: nat, m: bool)
    requires HeapOk(h) && c < |h| && d < |h| && d !in Reach(h, c)
    requires h[d].next.ptr == h[c].next.ptr
    requires HeapOk(SetNext(h, c, MarkedPtr(Some(d), m)))
    ensures Reach(SetNext(h, c, MarkedPtr(Some(d), m)), c) == Reach(h, c) + {d}
  {
    var g := SetNext(h, c, MarkedPtr(Some(d), m));
    assert CellOk(h, c) && CellOk(g, c) && CellOk(g, d);
    assert Reach(g, c) == {c} + Reach(g, d);
    if h[c].next.ptr.Some? {
      var w := h[c].next.ptr.value;
      assert CellOk(h, w);
      NotBelow(h, w, c);
      ReachFrame(h, g, w);
    }
  }

  /** A walk never visits a node with a smaller key than where it starts. */
  lemma NotBelow(h: Heap, u: nat, v: nat)
    requires HeapOk(h) && u < |h| && v < |h| && h[v].key < h[u].key
    ensures v !in Reach(h, u)
  {
    if v in Reach(h, u) {
      ReachAbove(h, u, v);
    }
  }

  /** Swinging `p`'s link past its successor `c` removes exactly `c`. */
  lemma {:induction false} ReachUnlink(h: Heap, u: nat, p: nat, c: nat, m: bool)
    requires HeapOk(h) && u < |h| && p in Reach(h, u) && p < |h| && c < |h|
    requires h[p].next.ptr == Some(c)
    requires HeapOk(SetNext(h, p, MarkedPtr(h[c].next.ptr, m)))
    ensures Reach(SetNext(h, p, MarkedPtr(h[c].next.ptr, m)), u) == Reach(h, u) - {c}
    decreases KEYS - h[u].key
  {
    var g := SetNext(h, p, MarkedPtr(h[c].next.ptr, m));
    assert CellOk(h, u) && CellOk(g, u) && CellOk(h, p);
    ReachAbove(h, u, p);
    if u == p {
      ReachAfterUnlink(h, p, c, m);
    } else {
      var w := h[u].next.ptr.value;
      assert CellOk(h, w);
      ReachUnlink(h, w, p, c, m);
    }
  }

  lemma ReachAfterUnlink(h: Heap, p: nat, c: nat, m: bool)
    requires HeapOk(h) && p < |h| && c < |h| && h[p].next.ptr == Some(c)
    requires HeapOk(SetNext(h, p, MarkedPtr(h[c].next.ptr, m)))
    ensures Reach(SetNext(h, p, MarkedPtr(h[c].next.ptr, m)), p) == Reach(h, p) - {c}
  {
    var g := SetNext(h, p, MarkedPtr(h[c].next.ptr, m));
    assert CellOk(h, p) && CellOk(h, c) && CellOk(g, p);
    assert Reach(h, p) == {p} + Reach(h, c);
    if h[c].next.ptr.Some? {
      var w := h[c].next.ptr.value;
      assert CellOk(h, w);
      NotBelow(h, w, p);
      NotBelow(h, w, c);
      ReachFrame(h, g, w);
    }
  }
}
