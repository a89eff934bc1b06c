// Split-ordered keys (solist.hpp:36-54): a hash is reversed, the low bit tells a
// data node from a bucket's dummy node.
//
// With 2^k buckets every bucket owns one aligned interval of keys of width
// 2^(32-k), opened by its dummy's key.  Everything the index relies on follows
// from that: no dummy lies between a bucket's dummy and a key of that bucket,
// doubling cuts each interval in half, and stepping down by one width visits
// exactly the bucket keys.

module SplitOrder {
  import opened Powers
  import opened BitReversal

  const DATABIT: nat := 1

  function ReverseHash(h: nat): (r: nat)
    requires h < Pow2(32)
    ensures r < Pow2(32)
  {
    Rev(32, h)
  }

  /** `reverse_hasht_bits(h) | DATABIT`. */
  function NodeKey(h: nat): (key: nat)
    requires h < Pow2(32)
    ensures key % 2 == DATABIT
  {
    var r := ReverseHash(h);
    if r % 2 == 0 then r + DATABIT else r
  }

  /** The key of bucket `h`; the source asserts that its low bit is clear. */
  function BucketKey(h: nat): nat
    requires h < Pow2(31)
  {
    TopBitClear(h);
    ReverseHash(h)
  }

  lemma TopBitClear(h: nat)
    requires h < Pow2(31)
    ensures h < Pow2(32)
  {
    Pow2Mono(31, 32);
  }

  /** The top bit of the hash is the low bit of its reversal. */
  lemma Halves(h: nat, q: nat, s: nat)
    requires s < Pow2(31) && q < 2 && h == q * Pow2(31) + s
    ensures h < Pow2(32) && Rev(32, h) == 2 * Rev(31, s) + q
  {
    hide Rev, Pow2;
    RevTopBit(31, s, q);
  }

  /** A bucket key has its low bit clear, as the source asserts. */
  lemma BucketKeyEven(s: nat)
    requires s < Pow2(31)
    ensures BucketKey(s) == 2 * Rev(31, s) < Pow2(32)
  {
    hide Rev, Pow2;
    Halves(s, 0, s);
  }

  /** The source's assertion on bucket keys holds exactly for hashes below 2^31. */
  lemma AssertionHolds(h: nat)
    requires h < Pow2(32)
    ensures ReverseHash(h) % 2 == 0 <==> h < Pow2(31)
  {
    assert Pow2(32) == 2 * Pow2(31);
    hide Rev, Pow2;
    if h < Pow2(31) {
      Halves(h, 0, h);
    } else {
      Halves(h, 1, h - Pow2(31));
    }
  }

  /** `hashv % n_buckets` for 2^k buckets. */
  function SlotOf(h: nat, k: nat): (s: nat)
    requires k <= 31
    ensures s < Pow2(k) <= Pow2(31)
  {
    Pow2Mono(k, 31);
    h % Pow2(k)
  }

  lemma OwnLow31(h: nat)
    requires h < Pow2(31)
    ensures SlotOf(h, 31) == h
  {
    hide Pow2;
    SmallRemainder(h, Pow2(31));
  }

  lemma SmallRemainder(h: nat, d: nat)
    requires h < d
    ensures h % d == h
  {
  }

  lemma Rank(h: nat, k: nat) returns (q: nat)
    requires h < Pow2(32) && k <= 31
    ensures q < Pow2(32 - k) && h == q * Pow2(k) + SlotOf(h, k)
  {
    hide Pow2;
    Pow2Add(32 - k, k);
    assert (32 - k) + k == 32;
    Quotient(h, Pow2(k), Pow2(32 - k));
    q := h / Pow2(k);
  }

  /** Find and delete cannot tell hashes apart that differ in bit 31 only. */
  lemma NodeKeyFoldsTopBit(h: nat)
    requires h < Pow2(32)
    ensures SlotOf(h, 31) < Pow2(32)
    ensures NodeKey(h) == 2 * Rev(31, SlotOf(h, 31)) + 1 == NodeKey(SlotOf(h, 31))
  {
    hide Rev, Pow2, SlotOf;
    var q := Rank(h, 31);
    var s := SlotOf(h, 31);
    RevOneBit(0);
    Halves(h, q, s);
    Halves(s, 0, s);
  }

  /** Two hashes share a node key exactly when their low 31 bits agree. */
  lemma NodeKeyEqual(g: nat, h: nat)
    requires g < Pow2(32) && h < Pow2(32)
    ensures NodeKey(g) == NodeKey(h) <==> SlotOf(g, 31) == SlotOf(h, 31)
  {
    hide Rev, Pow2, SlotOf;
    NodeKeyFoldsTopBit(g);
    NodeKeyFoldsTopBit(h);
    if NodeKey(g) == NodeKey(h) {
      RevInjective(31, SlotOf(g, 31), SlotOf(h, 31));
    }
  }

  lemma BucketKeyInjective(s: nat, u: nat)
    requires s < Pow2(31) && u < Pow2(31)
    requires BucketKey(s) == BucketKey(u)
    ensures s == u
  {
    hide Rev, Pow2;
    TopBitClear(s);
    TopBitClear(u);
    RevInjective(32, s, u);
  }

  // ---- the interval of a bucket ----

  /** The width of one bucket's key interval when there are 2^k buckets. */
  function Width(k: nat): (w: nat)
    requires k <= 31
    ensures w > 0 && w % 2 == 0
  {
    2 * Pow2(31 - k)
  }

  lemma WidthPow(k: nat)
    requires k <= 31
    ensures Width(k) == Pow2(32 - k) && Pow2(k) * Width(k) == Pow2(32) && Pow2(k) <= Pow2(31) < Pow2(32)
  {
    assert Pow2(32 - k) == 2 * Pow2(31 - k);
    hide Pow2;
    Pow2Add(k, 32 - k);
    Pow2Mono(k, 31);
    Pow2Mono(31, 32);
  }

  /** A hash's reversal is its bucket's ordinal, then its rank in the bucket. */
  lemma KeyParts(h: nat, k: nat) returns (rank: nat)
    requires h < Pow2(32) && k <= 31
    ensures rank < Width(k)
    ensures Rev(32, h) == Rev(k, SlotOf(h, k)) * Width(k) + rank
  {
    var q := Rank(h, k);
    WidthPow(k);
    hide Rev, Pow2, SlotOf, Width;
    RevSplit(k, 32 - k, SlotOf(h, k), q);
    assert k + (32 - k) == 32;
    rank := Rev(32 - k, q);
  }

  lemma BucketKeyParts(s: nat, k: nat)
    requires k <= 31 && s < Pow2(k)
    ensures s < Pow2(31) && BucketKey(s) == Rev(k, s) * Width(k)
  {
    WidthPow(k);
    hide Rev, Pow2, Width;
    RevLow(k, 32 - k, s);
    assert k + (32 - k) == 32;
  }

  /** A key of bucket `s` lies above the bucket's dummy, inside its interval. */
  lemma KeyInInterval(h: nat, k: nat)
    requires h < Pow2(32) && k <= 31
    ensures BucketKey(SlotOf(h, k)) < NodeKey(h) < BucketKey(SlotOf(h, k)) + Width(k)
  {
    hide Rev, Pow2, SlotOf, Width;
    var rank := KeyParts(h, k);
    BucketKeyParts(SlotOf(h, k), k);
    BucketKeyEven(SlotOf(h, k));
    SetLowBit(BucketKey(SlotOf(h, k)), rank, Width(k));
  }

  /** Setting the low bit does not leave an interval with even ends. */
  lemma SetLowBit(b: nat, rank: nat, w: nat)
    requires b % 2 == 0 && w % 2 == 0 && rank < w
    ensures (b + rank) % 2 == 0 ==> b + rank + 1 < b + w
    ensures (b + rank) % 2 == 1 ==> b < b + rank
  {
  }

  /** Distinct bucket keys are at least one width apart. */
  lemma BucketKeysApart(s: nat, u: nat, k: nat)
    requires k <= 31 && s < Pow2(k) && u < Pow2(k)
    ensures s < Pow2(31) && u < Pow2(31)
    ensures BucketKey(s) < BucketKey(u) ==> BucketKey(s) + Width(k) <= BucketKey(u)
  {
    hide Rev, Pow2, Width;
    BucketKeyParts(s, k);
    BucketKeyParts(u, k);
    MultiplesApart(Rev(k, s), Rev(k, u), Width(k));
  }

  /** The keys of the hashes of bucket `s` are exactly the data keys of its interval. */
  lemma IntervalIsBucket(h: nat, s: nat, k: nat)
    requires h < Pow2(32) && k <= 31 && s < Pow2(k)
    ensures s < Pow2(31)
    ensures SlotOf(h, k) == s <==> BucketKey(s) <= NodeKey(h) < BucketKey(s) + Width(k)
  {
    hide Rev, Pow2, SlotOf, Width;
    KeyInInterval(h, k);
    var t := SlotOf(h, k);
    BucketKeysApart(s, t, k);
    BucketKeysApart(t, s, k);
    if BucketKey(s) == BucketKey(t) {
      BucketKeyInjective(s, t);
    }
  }

  /** No bucket's dummy lies between the dummy of `h`'s own bucket and `h`'s key. */
  lemma NoDummyBetween(h: nat, u: nat, k: nat)
    requires h < Pow2(32) && k <= 31 && u < Pow2(k)
    ensures u < Pow2(31) && !(BucketKey(SlotOf(h, k)) < BucketKey(u) <= NodeKey(h))
  {
    hide Rev, Pow2, SlotOf, Width;
    KeyInInterval(h, k);
    BucketKeysApart(SlotOf(h, k), u, k);
  }

  /** Doubling the number of buckets cuts the interval of `s` in its middle. */
  lemma DoublingHalvesInterval(s: nat, k: nat)
    requires k <= 30 && s < Pow2(k)
    ensures s + Pow2(k) < Pow2(k + 1) <= Pow2(31)
    ensures Width(k) == 2 * Width(k + 1)
    ensures BucketKey(s + Pow2(k)) == BucketKey(s) + Width(k + 1)
  {
    hide Rev, Width, BucketKey;
    assert Pow2(k + 1) == 2 * Pow2(k);
    hide Pow2;
    WidthHalves(k);
    Pow2Mono(k + 1, 31);
    BucketKeyParts(s, k);
    BucketKeyParts(s + Pow2(k), k + 1);
    RevTopBit(k, s, 1);
    var a: nat, w: nat := Rev(k, s), Width(k + 1);
    OddMultiple(a, w);
  }

  lemma OddMultiple(a: nat, w: nat)
    ensures (2 * a + 1) * w == a * (2 * w) + w
  {
    MulDistributes(2 * a, 1, w);
    MulAssoc(a, 2, w);
  }

  lemma WidthHalves(k: nat)
    requires k <= 30
    ensures Width(k) == 2 * Width(k + 1)
  {
    assert Pow2(31 - k) == 2 * Pow2(31 - (k + 1));
  }

  // ---- stepping through bucket keys ----

  /** `sol_bucket_key(n_buckets / 2)` is the width: `get_parent`'s step. */
  lemma KeyStep(k: nat)
    requires 1 <= k <= 31
    ensures Pow2(k) / 2 == Pow2(k - 1) < Pow2(31)
    ensures BucketKey(Pow2(k) / 2) == Width(k)
  {
    var m := 33 - k;
    assert Pow2(k) == 2 * Pow2(k - 1);
    assert Rev(m, 1) == Pow2(m - 1) by {
      assert Pow2(m) == 2 * Pow2(m - 1);
      RevZero(m - 1);
    }
    assert 1 < Pow2(m);
    hide Rev, Pow2;
    Pow2Mono(k - 1, k);
    WidthPow(k);
    hide Width;
    RevHigh(k - 1, m, 1);
    assert (k - 1) + m == 32 && m - 1 == 32 - k;
  }

  /** A key that is a multiple of the width names a slot, and that slot's key it is. */
  lemma MultipleIsBucketKey(c: nat, k: nat)
    requires k <= 31 && c < Pow2(k)
    ensures c * Width(k) < Pow2(32)
    ensures ReverseHash(c * Width(k)) == Rev(k, c) < Pow2(k) <= Pow2(31)
    ensures BucketKey(Rev(k, c)) == c * Width(k)
  {
    hide Rev, Pow2, Width;
    WidthPow(k);
    MultipleGap(c, Pow2(k), Width(k));
    RevHigh(32 - k, k, c);
    assert (32 - k) + k == 32;
    RevInvolutive(k, c);
    BucketKeyParts(Rev(k, c), k);
  }

  /** The slots below 2^k are mapped one to one onto the multiples of the width. */
  lemma BucketKeysAreMultiples(v: nat, k: nat)
    requires k <= 31 && v < Pow2(32)
    ensures Pow2(k) <= Pow2(31)
    ensures v % Width(k) == 0 <==> ReverseHash(v) < Pow2(k)
    ensures v % Width(k) == 0 ==> BucketKey(ReverseHash(v)) == v
  {
    WidthPow(k);
    hide Rev, Pow2, Width, ReverseHash, BucketKey;
    if v % Width(k) == 0 {
      MultipleNamesSlot(v, k);
    }
    if ReverseHash(v) < Pow2(k) {
      SlotNamesMultiple(v, k);
    }
  }

  lemma MultipleNamesSlot(v: nat, k: nat)
    requires k <= 31 && v < Pow2(32) && v % Width(k) == 0
    ensures ReverseHash(v) < Pow2(k) <= Pow2(31) && BucketKey(ReverseHash(v)) == v
  {
    hide Rev, Pow2, Width, ReverseHash, BucketKey;
    WidthPow(k);
    Quotient(v, Width(k), Pow2(k));
    MultipleIsBucketKey(v / Width(k), k);
  }

  lemma SlotNamesMultiple(v: nat, k: nat)
    requires k <= 31 && v < Pow2(32) && ReverseHash(v) < Pow2(k)
    ensures v % Width(k) == 0
  {
    hide Rev, Pow2, Width;
    RevInvolutive(32, v);
    BucketKeyParts(ReverseHash(v), k);
    DivModUnique(Rev(k, ReverseHash(v)), Width(k), 0);
  }

  // ---- table sizes ----

  /** With `n` buckets every search starts, at its bucket's dummy, before the key it is for. */
  ghost predicate StartsBefore(n: nat)
    requires 0 < n <= Pow2(31)
  {
    forall h: nat | h < Pow2(32) :: BucketKey(h % n) < NodeKey(h)
  }

  ghost predicate IsPower(n: nat) {
    exists k: nat :: k <= 31 && n == Pow2(k)
  }

  /** The largest power of two up to `n`. */
  lemma {:induction false} Log(n: nat, j: nat) returns (k: nat)
    requires 0 < n <= Pow2(j)
    ensures k <= j && Pow2(k) <= n < Pow2(k + 1)
  {
    if n == Pow2(j) || j == 0 {
      k := j;
    } else if n < Pow2(j - 1) {
      k := Log(n, j - 1);
    } else {
      k := j - 1;
    }
  }

  lemma RevOne(m: nat)
    requires m > 0
    ensures 1 < Pow2(m) && Rev(m, 1) == Pow2(m - 1)
  {
    RevZero(m - 1);
  }

  lemma RevPositive(k: nat, r: nat)
    requires 0 < r < Pow2(k)
    ensures Rev(k, r) > 0
  {
    RevZero(k);
    if Rev(k, r) == 0 {
      RevInjective(k, r, 0);
    }
  }

  /** All dummies but the first are at least one width up. */
  lemma AtLeastWidth(r: nat, k: nat)
    requires k <= 31 && 0 < r < Pow2(k)
    ensures r < Pow2(31) && Width(k) <= BucketKey(r)
  {
    hide Rev, Pow2, Width;
    BucketKeyParts(r, k);
    RevPositive(k, r);
    MultipleGap(0, Rev(k, r), Width(k));
  }

  lemma KeyOfPower(k: nat)
    requires k <= 31
    ensures Pow2(k) < Pow2(32) && NodeKey(Pow2(k)) <= Pow2(31 - k) + 1
  {
    RevOne(32 - k);
    hide Rev, Pow2;
    RevHigh(k, 32 - k, 1);
    assert k + (32 - k) == 32;
  }

  lemma NextPower(n: nat, k: nat)
    requires Pow2(k) < n < Pow2(k + 1) && k <= 30
    ensures n < Pow2(31) && 0 < Pow2(k + 1) % n == Pow2(k + 1) - n < Pow2(k)
  {
    assert Pow2(k + 1) == 2 * Pow2(k);
    Pow2Mono(k + 1, 31);
    hide Pow2;
    DivModUnique(1, n, Pow2(k + 1) - n);
  }

  /** For another number of buckets the next power of two is a hash whose search starts behind it. */
  lemma StartsBehind(n: nat, k: nat)
    requires Pow2(k) < n < Pow2(k + 1) && k <= 30
    ensures Pow2(k + 1) < Pow2(32) && Pow2(k + 1) % n < Pow2(31)
    ensures NodeKey(Pow2(k + 1)) < BucketKey(Pow2(k + 1) % n)
  {
    assert Width(k) == 4 * Pow2(31 - (k + 1));
    hide Pow2, Rev, Width, NodeKey, BucketKey;
    NextPower(n, k);
    KeyOfPower(k + 1);
    AtLeastWidth(Pow2(k + 1) % n, k);
  }

  lemma BetweenPowers(n: nat, k: nat)
    requires Pow2(k) < n < Pow2(k + 1)
    ensures !IsPower(n)
  {
    hide Pow2;
    forall j: nat | j <= 31
      ensures n != Pow2(j)
    {
      if j <= k {
        Pow2Mono(j, k);
      } else {
        Pow2Mono(k + 1, j);
      }
    }
  }

  /** Searches start before their key if and only if the number of buckets is a power of two. */
  lemma PowersOnly(n: nat)
    requires 0 < n <= Pow2(31)
    ensures StartsBefore(n) <==> IsPower(n)
  {
    hide Rev, Pow2, NodeKey, BucketKey;
    var k := Log(n, 31);
    if n == Pow2(k) {
      forall h: nat | h < Pow2(32)
        ensures BucketKey(h % n) < NodeKey(h)
      {
        KeyInInterval(h, k);
      }
    } else {
      BetweenPowers(n, k);
      StartsBehind(n, k);
    }
  }
}
