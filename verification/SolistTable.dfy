// The list as its callers may think of it: a finite map, plus the state of the
// index (how many buckets, which of them have a dummy node).
//
// `Insert`, `Delete` and `Find` say what one call does to both; `solist` in
// Solist.dfy is proved against them.  The lemmas show that the index never
// influences an answer: over any run the table answers as a plain map does,
// whatever its size, its bucket length limit and the state of its buckets.

module SolistTable {
  import opened Powers
  import opened SplitOrder
  import opened Options

  const UINT32: nat := 0x1_0000_0000

  /** `contents` maps 31-bit hashes to payloads; `init` are the buckets with a dummy node. */
  datatype Table<T> = Table(contents: map<nat, T>, bits: nat, init: set<nat>, maxLen: nat)

  ghost predicate TableOk<T>(t: Table<T>) {
    && t.bits <= 31
    && 0 in t.init && (forall s: nat | s in t.init :: s < Pow2(t.bits))
    && (forall h: nat | h in t.contents :: h < Pow2(31))
  }

  /** `h` sits behind bucket `slot`: above its dummy, and no other dummy in between. */
  ghost predicate InChain(init: set<nat>, slot: nat, h: nat)
    requires slot < Pow2(31) && h < Pow2(31)
  {
    TopBitClear(h);
    && BucketKey(slot) < NodeKey(h)
    && forall u: nat | u in init && u < Pow2(31) :: !(BucketKey(slot) < BucketKey(u) < NodeKey(h))
  }

  /** The data nodes an insert counts: those from bucket `slot` to the next dummy or the end. */
  ghost function Chain<T>(t: Table<T>, slot: nat): set<nat>
    requires slot < Pow2(31)
  {
    set h | h in t.contents && h < Pow2(31) && InChain(t.init, slot, h)
  }

  /** An insert that counted `steps` nodes doubles the index. */
  ghost predicate Grows<T>(t: Table<T>, steps: nat) {
    steps > t.maxLen && (steps >= t.maxLen * 2 % UINT32 || |t.contents| >= t.maxLen * Pow2(t.bits) % UINT32)
  }

  /** The outcome of the expansion check after an insert that counted `steps` nodes. */
  ghost function Grow<T>(t: Table<T>, slot: nat, steps: nat): Table<T> {
    var n := Pow2(t.bits);
    if steps <= t.maxLen then t
    else if Grows(t, steps) then t.(bits := t.bits + 1, init := t.init + {slot + n})
    else if slot + n / 2 < n then t.(init := t.init + {slot + n / 2})
    else t
  }

  ghost function Touch<T>(t: Table<T>, slot: nat): Table<T> {
    t.(init := t.init + {slot})
  }

  /** The table with an item linked in, before the expansion check. */
  ghost function Added<T>(t: Table<T>, hash: nat, payload: T): Table<T> {
    t.(contents := t.contents[hash := payload])
  }

  /** A table with one more item, after the expansion check that its insert makes. */
  ghost function WithItem<T>(t: Table<T>, hash: nat, payload: T): Table<T>
    requires t.bits <= 31
  {
    var slot := SlotOf(hash, t.bits);
    var u := Added(t, hash, payload);
    Grow(u, slot, |Chain(u, slot)|)
  }

  /** A doubled table, if the insert asks for one, has a size that 32 bits hold. */
  ghost predicate RoomToGrow<T>(t: Table<T>, hash: nat, payload: T)
    requires t.bits <= 31
  {
    var slot := SlotOf(hash, t.bits);
    var u := Added(t, hash, payload);
    t.bits <= 30 || !Grows(u, |Chain(u, slot)|)
  }

  /** The doubled size is what 32 bits hold of it if and only if there are at most 2^30 buckets. */
  lemma DoublingFits(bits: nat)
    requires bits <= 31
    ensures 2 * Pow2(bits) % UINT32 == Pow2(bits + 1) <==> bits <= 30
    ensures bits == 31 ==> 2 * Pow2(bits) % UINT32 == 0
  {
    Pow2Values();
    if bits <= 30 {
      Pow2Mono(bits + 1, 31);
    }
  }

  ghost function Insert<T>(t: Table<T>, hash: nat, payload: T): (Table<T>, bool)
    requires t.bits <= 31
  {
    var t1 := Touch(t, SlotOf(hash, t.bits));
    if hash in t.contents then (t1, false) else (WithItem(t1, hash, payload), true)
  }

  ghost function Without<T>(t: Table<T>, hash: nat): Table<T> {
    t.(contents := t.contents - {SlotOf(hash, 31)})
  }

  /** Delete and find see a hash without its top bit. */
  ghost function Delete<T>(t: Table<T>, hash: nat): (Table<T>, bool)
    requires t.bits <= 31
  {
    var h := SlotOf(hash, 31);
    (Without(Touch(t, SlotOf(hash, t.bits)), hash), h in t.contents)
  }

  ghost function Find<T>(t: Table<T>, hash: nat): (Table<T>, Option<T>)
    requires t.bits <= 31
  {
    var h := SlotOf(hash, 31);
    (Touch(t, SlotOf(hash, t.bits)), if h in t.contents then Some(t.contents[h]) else None)
  }

  // ---- runs ----

  datatype Op<T> =
    | DoInsert(hash: nat, payload: T)
    | DoDelete(hash: nat)
    | DoFind(hash: nat)
    | DoInitBucket(slot: nat)
    | DoExpand

  datatype Answer<T> = Flag(b: bool) | Item(item: Option<T>) | Nothing

  /** What the source asks of the caller, and that doubling stays within 32 bits. */
  ghost predicate OpOk<T>(t: Table<T>, op: Op<T>) {
    && t.bits <= 31
    && match op
       case DoInsert(hash, payload) =>
         hash < Pow2(31) && (hash !in t.contents ==> RoomToGrow(Touch(t, SlotOf(hash, t.bits)), hash, payload))
       case DoDelete(hash) => hash < Pow2(32)
       case DoFind(hash) => hash < Pow2(32)
       case DoInitBucket(slot) => slot < Pow2(t.bits)
       case DoExpand => t.bits <= 30
  }

  ghost function Do<T>(t: Table<T>, op: Op<T>): (Table<T>, Answer<T>)
    requires t.bits <= 31
  {
    match op
    case DoInsert(hash, payload) => var (u, b) := Insert(t, hash, payload); (u, Flag(b))
    case DoDelete(hash) => var (u, b) := Delete(t, hash); (u, Flag(b))
    case DoFind(hash) => var (u, r) := Find(t, hash); (u, Item(r))
    case DoInitBucket(slot) => (Touch(t, slot), Nothing)
    case DoExpand => (t.(bits := t.bits + 1), Nothing)
  }

  /** The same operation on a plain map. */
  ghost function DoPlain<T>(m: map<nat, T>, op: Op<T>): (map<nat, T>, Answer<T>) {
    match op
    case DoInsert(hash, payload) =>
      if hash in m then (m, Flag(false)) else (m[hash := payload], Flag(true))
    case DoDelete(hash) => (m - {SlotOf(hash, 31)}, Flag(SlotOf(hash, 31) in m))
    case DoFind(hash) => (m, Item(if SlotOf(hash, 31) in m then Some(m[SlotOf(hash, 31)]) else None))
    case DoInitBucket(_) => (m, Nothing)
    case DoExpand => (m, Nothing)
  }

  /** Every operation keeps the table well formed; the buckets it sets up exist. */
  lemma DoKeepsOk<T>(t: Table<T>, op: Op<T>)
    requires TableOk(t) && OpOk(t, op)
    ensures TableOk(Do(t, op).0)
  {
    var n := Pow2(t.bits);
    if t.bits <= 30 {
      assert Pow2(t.bits + 1) == 2 * n;
    }
    match op
    case DoInsert(hash, payload) => InsertKeepsOk(t, hash, payload);
    case _ =>
  }

  lemma InsertKeepsOk<T>(t: Table<T>, hash: nat, payload: T)
    requires TableOk(t) && OpOk(t, DoInsert(hash, payload))
    ensures TableOk(Insert(t, hash, payload).0)
  {
    var n, slot := Pow2(t.bits), SlotOf(hash, t.bits);
    assert Pow2(t.bits + 1) == 2 * n;
    hide Pow2;
    if hash !in t.contents {
      var t2 := Touch(t, slot).(contents := t.contents[hash := payload]);
      GrowKeepsOk(t2, slot, |Chain(t2, slot)|);
    }
  }

  lemma GrowKeepsOk<T>(t: Table<T>, slot: nat, steps: nat)
    requires TableOk(t) && slot < Pow2(t.bits) && (t.bits <= 30 || !Grows(t, steps))
    ensures TableOk(Grow(t, slot, steps))
  {
    hide Grows;
    assert Pow2(t.bits + 1) == 2 * Pow2(t.bits);
    hide Pow2;
  }

  ghost function Run<T>(t: Table<T>, ops: seq<Op<T>>): (r: (Table<T>, seq<Answer<T>>))
    requires RunOk(t, ops)
    decreases |ops|
  {
    if ops == [] then (t, [])
    else
      var (u, a) := Do(t, ops[0]);
      var (v, as_) := Run(u, ops[1..]);
      (v, [a] + as_)
  }

  /** Every operation of the run meets its precondition when its turn comes. */
  ghost predicate RunOk<T>(t: Table<T>, ops: seq<Op<T>>)
    decreases |ops|
  {
    ops == [] || (OpOk(t, ops[0]) && RunOk(Do(t, ops[0]).0, ops[1..]))
  }

  ghost function RunPlain<T>(m: map<nat, T>, ops: seq<Op<T>>): (r: (map<nat, T>, seq<Answer<T>>))
    decreases |ops|
  {
    if ops == [] then (m, [])
    else
      var (u, a) := DoPlain(m, ops[0]);
      var (v, as_) := RunPlain(u, ops[1..]);
      (v, [a] + as_)
  }

  /** Over any run, from any state of the index, the list is a plain map. */
  lemma {:induction false} RunIsPlainMap<T>(t: Table<T>, ops: seq<Op<T>>)
    requires TableOk(t) && RunOk(t, ops)
    ensures TableOk(Run(t, ops).0)
    ensures (Run(t, ops).0.contents, Run(t, ops).1) == RunPlain(t.contents, ops)
    decreases |ops|
  {
    if ops != [] {
      DoKeepsOk(t, ops[0]);
      DoIsPlain(t, ops[0]);
      RunIsPlainMap(Do(t, ops[0]).0, ops[1..]);
    }
  }

  lemma DoIsPlain<T>(t: Table<T>, op: Op<T>)
    requires TableOk(t) && OpOk(t, op)
    ensures (Do(t, op).0.contents, Do(t, op).1) == DoPlain(t.contents, op)
  {
    hide Pow2, Chain, InChain;
  }

  /** After `k` operations of the run the table is `u`, and `answers` were given. */
  ghost predicate After<T>(t: Table<T>, ops: seq<Op<T>>, k: nat, u: Table<T>, answers: seq<Answer<T>>) {
    && k <= |ops| && RunOk(t, ops) && RunOk(u, ops[k..])
    && Run(t, ops).0 == Run(u, ops[k..]).0
    && Run(t, ops).1 == answers + Run(u, ops[k..]).1
  }

  lemma AfterNone<T>(t: Table<T>, ops: seq<Op<T>>)
    requires RunOk(t, ops)
    ensures After(t, ops, 0, t, [])
  {
    assert ops[0..] == ops;
    assert [] + Run(t, ops).1 == Run(t, ops).1;
  }

  lemma AfterOneMore<T>(t: Table<T>, ops: seq<Op<T>>, k: nat, u: Table<T>, answers: seq<Answer<T>>)
    requires k < |ops| && After(t, ops, k, u, answers)
    ensures OpOk(u, ops[k]) && u.bits <= 31
    ensures var (v, a) := Do(u, ops[k]); After(t, ops, k + 1, v, answers + [a])
  {
    assert ops[k..][0] == ops[k];
    assert u.bits <= 31;
    hide OpOk, Do;
    assert ops[k..][0] == ops[k] && ops[k..][1..] == ops[k + 1..];
    var (v, a) := Do(u, ops[k]);
    var rest := Run(v, ops[k + 1..]).1;
    assert answers + ([a] + rest) == (answers + [a]) + rest;
  }

  lemma AfterAll<T>(t: Table<T>, ops: seq<Op<T>>, u: Table<T>, answers: seq<Answer<T>>)
    requires TableOk(t) && After(t, ops, |ops|, u, answers)
    ensures (u.contents, answers) == RunPlain(t.contents, ops)
  {
    hide TableOk, DoPlain, Do;
    assert ops[|ops|..] == [];
    assert answers + [] == answers;
    RunIsPlainMap(t, ops);
  }

  /** Tables with equal contents but any sizes, limits and buckets answer alike for ever. */
  lemma IndexIsTransparent<T>(t: Table<T>, u: Table<T>, ops: seq<Op<T>>)
    requires TableOk(t) && TableOk(u) && RunOk(t, ops) && RunOk(u, ops)
    requires t.contents == u.contents
    ensures Run(t, ops).1 == Run(u, ops).1
    ensures Run(t, ops).0.contents == Run(u, ops).0.contents
  {
    RunIsPlainMap(t, ops);
    RunIsPlainMap(u, ops);
  }

  // ---- how long chains get ----

  /** Once its bucket is initialised, a hash sits behind that bucket and no other. */
  lemma InOwnChain<T>(t: Table<T>, h: nat)
    requires TableOk(t) && h in t.contents && SlotOf(h, t.bits) in t.init
    ensures h in Chain(t, SlotOf(h, t.bits))
  {
    var slot := SlotOf(h, t.bits);
    TopBitClear(h);
    KeyInInterval(h, t.bits);
    forall u: nat | u in t.init && u < Pow2(31)
      ensures !(BucketKey(slot) < BucketKey(u) < NodeKey(h))
    {
      NoDummyBetween(h, u, t.bits);
    }
  }

  // ---- what an insert does to the index ----

  /** A new dummy one width above a bucket's own cuts the bucket's chain there. */
  lemma CutChain<T>(t: Table<T>, u: Table<T>, slot: nat, v: nat, k: nat)
    requires k <= 31 && slot < Pow2(k) && slot < Pow2(31) && v < Pow2(31)
    requires BucketKey(v) == BucketKey(slot) + Width(k)
    requires u.contents == t.contents && u.init == t.init + {v}
    ensures Chain(u, slot) == set h | h in Chain(t, slot) && SlotOf(h, k) == slot
  {
    hide SlotOf, Pow2, Width, BucketKey, NodeKey, InChain;
    forall h | h in t.contents && h < Pow2(31)
      ensures h in Chain(u, slot) <==> h in Chain(t, slot) && SlotOf(h, k) == slot
    {
      StaysBelow(t.init, slot, v, k, h);
    }
  }

  lemma StaysBelow(init: set<nat>, slot: nat, v: nat, k: nat, h: nat)
    requires k <= 31 && slot < Pow2(k) && slot < Pow2(31) && v < Pow2(31) && h < Pow2(31)
    requires BucketKey(v) == BucketKey(slot) + Width(k)
    ensures InChain(init + {v}, slot, h) <==> InChain(init, slot, h) && SlotOf(h, k) == slot
  {
    hide SlotOf, Pow2, Width, BucketKey, NodeKey;
    TopBitClear(h);
    if BucketKey(slot) < NodeKey(h) {
      BelowDummy(slot, v, k, h);
    }
  }

  lemma BelowDummy(slot: nat, v: nat, k: nat, h: nat)
    requires k <= 31 && slot < Pow2(k) && slot < Pow2(31) && v < Pow2(31) && h < Pow2(31) && h < Pow2(32)
    requires BucketKey(v) == BucketKey(slot) + Width(k) && BucketKey(slot) < NodeKey(h)
    ensures SlotOf(h, k) == slot <==> !(BucketKey(slot) < BucketKey(v) < NodeKey(h))
  {
    hide SlotOf, Pow2, BucketKey, Width;
    IntervalIsBucket(h, slot, k);
    BucketKeyEven(v);
  }

  /** What is cut off is the new dummy's chain, if no dummy was in between. */
  lemma CutOff<T>(t: Table<T>, u: Table<T>, slot: nat, v: nat)
    requires slot < Pow2(31) && v < Pow2(31) && BucketKey(slot) < BucketKey(v)
    requires forall w: nat | w in t.init && w < Pow2(31) :: !(BucketKey(slot) < BucketKey(w) <= BucketKey(v))
    requires u.contents == t.contents && u.init == t.init + {v}
    ensures Chain(u, v) == Chain(t, slot) - Chain(u, slot)
  {
    hide Pow2, BucketKey, NodeKey;
    forall h | h in t.contents && h < Pow2(31)
      ensures h in Chain(u, v) <==> h in Chain(t, slot) && h !in Chain(u, slot)
    {
      TopBitClear(h);
      BucketKeyEven(v);
    }
  }

  /** No dummy of the table lies from a bucket's dummy to that of its upper half. */
  lemma NoneToUpperHalf<T>(t: Table<T>, slot: nat)
    requires TableOk(t) && t.bits <= 30 && slot < Pow2(t.bits)
    ensures slot + Pow2(t.bits) < Pow2(31) && slot < Pow2(31)
    ensures BucketKey(slot + Pow2(t.bits)) == BucketKey(slot) + Width(t.bits + 1)
    ensures forall w: nat | w in t.init && w < Pow2(31) ::
              !(BucketKey(slot) < BucketKey(w) <= BucketKey(slot + Pow2(t.bits)))
  {
    DoublingHalvesInterval(slot, t.bits);
    hide SlotOf, BitSet, Pow2, Width, BucketKey;
    forall w: nat | w in t.init && w < Pow2(31)
      ensures !(BucketKey(slot) < BucketKey(w) <= BucketKey(slot + Pow2(t.bits)))
    {
      BucketKeysApart(slot, w, t.bits);
    }
  }

  lemma HalfParts(a: nat, b: nat, n: nat, r: nat)
    requires b < 2 && r < n
    ensures b * n + r < 2 * n && (2 * a + b) * n + r == a * (2 * n) + (b * n + r)
  {
    MulDistributes(2 * a, b, n);
    MulAssoc(a, 2, n);
  }

  lemma Division(h: nat, n: nat)
    requires n > 0
    ensures h == h / n * n + h % n
  {
  }

  lemma HalfOf(h: nat, n: nat)
    requires n > 0
    ensures h % (2 * n) == h % n + if h / n % 2 == 1 then n else 0
  {
    var q, r := h / n, h % n;
    var a, b := q / 2, q % 2;
    Division(h, n);
    HalfParts(a, b, n, r);
    DivModUnique(a, 2 * n, b * n + r);
  }

  /** Bit `k` of a hash. */
  predicate BitSet(h: nat, k: nat) {
    h / Pow2(k) % 2 == 1
  }

  /** The next bit of a hash says which half of its bucket it is in. */
  lemma HalfByBit(h: nat, k: nat)
    requires k <= 30
    ensures SlotOf(h, k + 1) == SlotOf(h, k) + if BitSet(h, k) then Pow2(k) else 0
  {
    hide Pow2;
    DoubleSize(k);
    HalfOf(h, Pow2(k));
  }

  /** How an insert that has linked its item and counted `c` items changes buckets and dummies. */
  ghost predicate IndexAfter<T>(linked: Table<T>, slot: nat, u: Table<T>)
    requires linked.bits <= 31 && slot < Pow2(linked.bits) && slot < Pow2(31)
  {
    var n, limit, chain := Pow2(linked.bits), linked.maxLen, Chain(linked, slot);
    if |chain| > limit && (|chain| >= limit * 2 % UINT32 || |linked.contents| >= limit * n % UINT32) then
      && u.bits == linked.bits + 1 && Pow2(u.bits) == 2 * n <= Pow2(31) && u.init == linked.init + {slot + n}
      && slot + n < Pow2(31) && slot + n !in linked.init
      && Chain(u, slot) == (set h | h in chain && SlotOf(h, u.bits) == slot)
      && Chain(u, slot + n) == chain - Chain(u, slot)
      && forall h | h in chain && SlotOf(h, linked.bits) == slot :: h in Chain(u, slot + n) <==> BitSet(h, linked.bits)
    else if |chain| > limit && slot + n / 2 < n then
      && u.bits == linked.bits && u.init == linked.init + {slot + n / 2}
      && Chain(u, slot) == set h | h in chain && SlotOf(h, linked.bits) == slot
    else
      u.bits == linked.bits && u.init == linked.init
  }

  lemma GrownIndex<T>(t: Table<T>, slot: nat)
    requires TableOk(t) && slot < Pow2(t.bits) && slot < Pow2(31)
    requires t.bits <= 30 || !Grows(t, |Chain(t, slot)|)
    ensures IndexAfter(t, slot, Grow(t, slot, |Chain(t, slot)|))
  {
    hide Chain, TableOk, Pow2;
    var n, steps := Pow2(t.bits), |Chain(t, slot)|;
    var u := Grow(t, slot, steps);
    if Grows(t, steps) {
      DoubledIndex(t, slot, u);
    } else if steps > t.maxLen && slot + n / 2 < n {
      SplitIndex(t, slot, u);
    }
  }

  lemma DoubleSize(k: nat)
    requires k <= 30
    ensures Pow2(k + 1) == 2 * Pow2(k) <= Pow2(31) && Pow2(k) < Pow2(31)
  {
    Pow2Mono(k + 1, 31);
  }

  lemma DoubledIndex<T>(t: Table<T>, slot: nat, u: Table<T>)
    requires TableOk(t) && t.bits <= 30 && slot < Pow2(t.bits)
    requires u == t.(bits := t.bits + 1, init := t.init + {slot + Pow2(t.bits)})
    ensures var n := Pow2(t.bits);
            && Pow2(u.bits) == 2 * n <= Pow2(31) && slot + n < Pow2(31) && slot < Pow2(31) && slot + n !in t.init
            && Chain(u, slot) == (set h | h in Chain(t, slot) && SlotOf(h, u.bits) == slot)
            && Chain(u, slot + n) == Chain(t, slot) - Chain(u, slot)
            && forall h | h in Chain(t, slot) && SlotOf(h, t.bits) == slot :: h in Chain(u, slot + n) <==> BitSet(h, t.bits)
  {
    hide SlotOf, BitSet, Pow2, Width, BucketKey, NodeKey, Chain;
    var n := Pow2(t.bits);
    DoubleSize(t.bits);
    NoneToUpperHalf(t, slot);
    CutChain(t, u, slot, slot + n, t.bits + 1);
    CutOff(t, u, slot, slot + n);
    UpperHalf(Chain(t, slot), Chain(u, slot), Chain(u, slot + n), t.bits, slot);
  }

  lemma UpperHalf(chain: set<nat>, low: set<nat>, high: set<nat>, k: nat, slot: nat)
    requires k <= 30 && low == (set h | h in chain && SlotOf(h, k + 1) == slot) && high == chain - low
    ensures forall h | h in chain && SlotOf(h, k) == slot :: h in high <==> BitSet(h, k)
  {
    forall h | h in chain && SlotOf(h, k) == slot
      ensures SlotOf(h, k + 1) == slot <==> !BitSet(h, k)
    {
      HalfByBit(h, k);
    }
  }

  /** A bucket's own dummy does not cut its chain. */
  lemma SameChain<T>(t: Table<T>, u: Table<T>, slot: nat)
    requires slot < Pow2(31) && u.contents == t.contents && u.init == t.init + {slot}
    ensures Chain(u, slot) == Chain(t, slot)
  {
    hide Pow2, BucketKey, NodeKey;
  }

  lemma OneBucket<T>(t: Table<T>, slot: nat)
    requires t.bits == 0 && slot < Pow2(31) && slot == 0
    ensures Chain(t, slot) == set h | h in Chain(t, slot) && SlotOf(h, t.bits) == slot
  {
    hide Chain;
  }

  lemma SplitIndex<T>(t: Table<T>, slot: nat, u: Table<T>)
    requires TableOk(t) && slot + Pow2(t.bits) / 2 < Pow2(t.bits)
    requires u == t.(init := t.init + {slot + Pow2(t.bits) / 2})
    ensures slot < Pow2(31) && Chain(u, slot) == set h | h in Chain(t, slot) && SlotOf(h, t.bits) == slot
  {
    hide SlotOf, BitSet, Width, BucketKey, NodeKey, Chain;
    if t.bits == 0 {
      SameChain(t, u, slot);
      OneBucket(t, slot);
    } else {
      hide Pow2;
      var k := t.bits - 1;
      DoubleSize(k);
      DoublingHalvesInterval(slot, k);
      CutChain(t, u, slot, slot + Pow2(k), t.bits);
    }
  }

  /** An insert of an absent hash: its item is linked, its bucket has its dummy, and the index is as it should be. */
  lemma InsertIndex<T>(t: Table<T>, hash: nat, payload: T)
    requires TableOk(t) && OpOk(t, DoInsert(hash, payload)) && hash !in t.contents
    ensures var slot := hash % Pow2(t.bits);
            var linked := t.(contents := t.contents[hash := payload], init := t.init + {slot});
            var (u, ok) := Insert(t, hash, payload);
            && slot < Pow2(t.bits) && slot < Pow2(31)
            && ok && u.contents == linked.contents && u.maxLen == t.maxLen && IndexAfter(linked, slot, u)
  {
    var slot := SlotOf(hash, t.bits);
    var linked := t.(contents := t.contents[hash := payload], init := t.init + {slot});
    assert Added(Touch(t, slot), hash, payload) == linked;
    hide Pow2, Chain, IndexAfter;
    GrownIndex(linked, slot);
  }

  /** Any other operation on a hash sets up the bucket of the hash, and does nothing else to the index. */
  lemma OwnBucketSetUp<T>(t: Table<T>, op: Op<T>)
    requires TableOk(t) && OpOk(t, op)
    requires op.DoDelete? || op.DoFind? || (op.DoInsert? && op.hash in t.contents)
    ensures var u := Do(t, op).0; u.bits == t.bits && u.init == t.init + {op.hash % Pow2(t.bits)}
  {
  }
}
