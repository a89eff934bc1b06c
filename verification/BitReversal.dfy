// Bit reversal of 32-bit hashes (solist.cpp).
//
// The two straight-line routines work on machine words (bv32).  The rest of the
// project reasons about hashes and keys as numbers, so this file also gives the
// numeric reversal `Rev` and proves that the word routines compute it.

module Powers {
  function Pow2(k: nat): (p: nat)
    ensures p > 0
  {
    if k == 0 then 1 else 2 * Pow2(k - 1)
  }

  lemma {:induction false} Pow2Add(a: nat, b: nat)
    ensures Pow2(a + b) == Pow2(a) * Pow2(b)
  {
    if a == 0 {
    } else {
      Pow2Add(a - 1, b);
      assert a + b - 1 == (a - 1) + b;
    }
  }

  lemma {:induction false} Pow2Mono(a: nat, b: nat)
    requires a <= b
    ensures Pow2(a) <= Pow2(b)
    ensures a < b ==> Pow2(a) < Pow2(b)
  {
    if a < b {
      Pow2Mono(a, b - 1);
    }
  }

  lemma Pow2Values()
    ensures Pow2(31) == 0x8000_0000 && Pow2(32) == 0x1_0000_0000
  {
    assert Pow2(8) == 256;
    Pow2Add(8, 8);
    Pow2Add(16, 16);
  }

  /** Dividing and taking the remainder undo `q * d + r`. */
  lemma DivModUnique(q: nat, d: nat, r: nat)
    requires r < d
    ensures (q * d + r) / d == q && (q * d + r) % d == r
  {
    var x := q * d + r;
    var a, b := x / d, x % d;
    QuotientUnique(a, b, q, r, d);
  }

  lemma QuotientUnique(a: nat, b: nat, q: nat, r: nat, d: nat)
    requires b < d && r < d && a * d + b == q * d + r
    ensures a == q && b == r
  {
    if a < q {
      MultipleGap(a, q, d);
    } else if q < a {
      MultipleGap(q, a, d);
    }
  }

  lemma MulAssoc(a: int, b: int, c: int)
    ensures (a * b) * c == a * (b * c)
  {
  }

  lemma MulDistributes(a: int, b: int, c: int)
    ensures (a + b) * c == a * c + b * c
    ensures c * (a + b) == c * a + c * b
  {
  }

  /** A lower multiple of `d` is lower by at least `d`. */
  lemma MultipleGap(a: nat, b: nat, d: nat)
    requires a < b
    ensures (a + 1) * d <= b * d && a * d + d <= b * d
  {
    MulDistributes(a + 1, b - a - 1, d);
    MulDistributes(a, 1, d);
    NatProduct(b - a - 1, d);
    assert (a + 1) + (b - a - 1) == b;
  }

  lemma NatProduct(a: nat, b: nat)
    ensures a * b >= 0
  {
  }

  lemma ProductSign(a: int, d: nat)
    ensures a >= 0 ==> a * d >= 0
  {
  }

  lemma Quotient(h: nat, d: nat, m: nat)
    requires d > 0 && h < m * d
    ensures h / d < m && h == (h / d) * d + h % d && h % d < d
  {
    var q := h / d;
    assert h == q * d + h % d;
    MulDistributes(m, q - m, d);
    ProductSign(q - m, d);
  }

  lemma MultiplesApart(a: nat, b: nat, d: nat)
    ensures a * d < b * d ==> a * d + d <= b * d
  {
    if a < b {
      MultipleGap(a, b, d);
    } else {
      MulDistributes(b, a - b, d);
      NatProduct(a - b, d);
    }
  }
}

module BitReversal {
  import opened Powers

  /** The halfword/byte/nibble/pair/bit swapping routine. */
  function BrevClassic(a: bv32): bv32 {
    var a1 := (a >> 16) | (a << 16);
    var m1: bv32 := 0x00ff00ff;
    var a2 := ((a1 >> 8) & m1) | ((a1 << 8) & !m1);
    var m2 := m1 ^ (m1 << 4);
    var a3 := ((a2 >> 4) & m2) | ((a2 << 4) & !m2);
    var m3 := m2 ^ (m2 << 2);
    var a4 := ((a3 >> 2) & m3) | ((a3 << 2) & !m3);
    var m4 := m3 ^ (m3 << 1);
    ((a4 >> 1) & m4) | ((a4 << 1) & !m4)
  }

  /** Knuth's routine, the one `reverse_hasht_bits` returns. */
  function BrevKnuth(a: bv32): bv32 {
    var b := (a << 15) | (a >> 17);
    var t := (b ^ (b >> 10)) & 0x003f801f;
    var c := (t + (t << 10)) ^ b;
    var u := (c ^ (c >> 4)) & 0x0e038421;
    var d := (u + (u << 4)) ^ c;
    var v := (d ^ (d >> 2)) & 0x22488842;
    (v + (v << 2)) ^ d
  }

  /** Bit `i` of a word. */
  predicate Bit(x: bv32, i: nat)
    requires i < 32
  {
    (x >> i) & 1 == 1
  }

  lemma BrevKnuthIsClassic(a: bv32)
    ensures BrevKnuth(a) == BrevClassic(a)
  {
  }

  lemma BrevKnuthInvolutive(a: bv32)
    ensures BrevKnuth(BrevKnuth(a)) == a
  {
  }

  // ---- numeric reversal ----

  /** `x`, a number of `w` bits, with its bits in the opposite order. */
  function Rev(w: nat, x: nat): (r: nat)
    requires x < Pow2(w)
    ensures r < Pow2(w)
  {
    if w == 0 then 0
    else (if x % 2 == 1 then Pow2(w - 1) else 0) + Rev(w - 1, x / 2)
  }

  lemma SplitBound(k: nat, m: nat, s: nat, q: nat)
    requires s < Pow2(k) && q < Pow2(m)
    ensures q * Pow2(k) + s < Pow2(k + m)
  {
    Pow2Add(m, k);
    MultipleGap(q, Pow2(m), Pow2(k));
    assert m + k == k + m;
  }

  lemma HalveSplit(q: nat, p: nat, s: nat)
    ensures (q * (2 * p) + s) / 2 == q * p + s / 2 && (q * (2 * p) + s) % 2 == s % 2
  {
    assert q * (2 * p) == 2 * (q * p);
  }

  /** The low part of the input becomes the high part of the result. */
  lemma {:induction false} RevSplit(k: nat, m: nat, s: nat, q: nat)
    requires s < Pow2(k) && q < Pow2(m)
    ensures q * Pow2(k) + s < Pow2(k + m)
    ensures Rev(k + m, q * Pow2(k) + s) == Rev(k, s) * Pow2(m) + Rev(m, q)
  {
    SplitBound(k, m, s, q);
    if k == 0 {
      assert q * Pow2(k) + s == q;
    } else {
      var j := k - 1;
      HalveSplit(q, Pow2(j), s);
      RevSplit(j, m, s / 2, q);
      Pow2Add(j, m);
      MulDistributes(Pow2(j), Rev(j, s / 2), Pow2(m));
      assert k + m - 1 == j + m;
    }
  }

  lemma RevLow(k: nat, m: nat, s: nat)
    requires s < Pow2(k)
    ensures s < Pow2(k + m) && Rev(k + m, s) == Rev(k, s) * Pow2(m)
  {
    RevZero(m);
    hide Rev, Pow2;
    RevSplit(k, m, s, 0);
  }

  lemma RevHigh(k: nat, m: nat, q: nat)
    requires q < Pow2(m)
    ensures q * Pow2(k) < Pow2(k + m) && Rev(k + m, q * Pow2(k)) == Rev(m, q)
  {
    RevZero(k);
    hide Rev, Pow2;
    RevSplit(k, m, 0, q);
  }

  lemma {:induction false} RevZero(w: nat)
    ensures Rev(w, 0) == 0
  {
    if w > 0 {
      RevZero(w - 1);
    }
  }

  lemma RevOneBit(b: nat)
    requires b < 2
    ensures Pow2(1) == 2 && Rev(1, b) == b
  {
    assert Pow2(1) == 2;
  }

  lemma RevTopBit(w: nat, y: nat, b: nat)
    requires y < Pow2(w) && b < 2
    ensures b * Pow2(w) + y < Pow2(w + 1) && Rev(w + 1, b * Pow2(w) + y) == 2 * Rev(w, y) + b
  {
    RevOneBit(b);
    hide Rev, Pow2;
    RevSplit(w, 1, y, b);
  }

  lemma {:induction false} RevInvolutive(w: nat, x: nat)
    requires x < Pow2(w)
    ensures Rev(w, Rev(w, x)) == x
  {
    if w > 0 {
      RevInvolutive(w - 1, x / 2);
      RevTopBit(w - 1, Rev(w - 1, x / 2), x % 2);
    }
  }

  lemma RevInjective(w: nat, x: nat, y: nat)
    requires x < Pow2(w) && y < Pow2(w)
    requires Rev(w, x) == Rev(w, y)
    ensures x == y
  {
    RevInvolutive(w, x);
    RevInvolutive(w, y);
  }

  // ---- words as numbers ----

  /** The bits of a word, bit 0 first. */
  function Bits(x: bv32): (bs: seq<bool>)
    ensures |bs| == 32
  {
    seq(32, i requires 0 <= i < 32 => Bit(x, i))
  }

  /** The number whose binary digits, lowest first, are `bs`. */
  function Val(bs: seq<bool>): (v: nat)
    ensures v < Pow2(|bs|)
  {
    if bs == [] then 0 else (if bs[0] then 1 else 0) + 2 * Val(bs[1..])
  }

  function Number(x: bv32): (v: nat)
    ensures v < Pow2(32)
  {
    Val(Bits(x))
  }

  /** The digits of a number in the opposite order, highest first. */
  function Mirrored(digits: seq<bool>): (r: seq<bool>)
    ensures |r| == |digits|
    ensures forall i | 0 <= i < |digits| :: r[i] == digits[|digits| - 1 - i]
  {
    if digits == [] then [] else Mirrored(digits[1..]) + [digits[0]]
  }

  lemma {:induction false} ValAppend(bs: seq<bool>, b: bool)
    ensures Val(bs + [b]) == Val(bs) + (if b then Pow2(|bs|) else 0)
  {
    if bs == [] {
      assert bs + [b] == [b] && [b][1..] == [];
    } else {
      assert (bs + [b])[1..] == bs[1..] + [b];
      ValAppend(bs[1..], b);
    }
  }

  lemma {:induction false} ValReversed(bs: seq<bool>)
    ensures Val(Mirrored(bs)) == Rev(|bs|, Val(bs))
  {
    if bs != [] {
      ValReversed(bs[1..]);
      ValAppend(Mirrored(bs[1..]), bs[0]);
    }
  }

  lemma BrevKnuthBits0To3(x: bv32)
    ensures Bits(BrevKnuth(x))[0] == Bits(x)[31]
    ensures Bits(BrevKnuth(x))[1] == Bits(x)[30]
    ensures Bits(BrevKnuth(x))[2] == Bits(x)[29]
    ensures Bits(BrevKnuth(x))[3] == Bits(x)[28]
  {
  }

  lemma BrevKnuthBits4To7(x: bv32)
    ensures Bits(BrevKnuth(x))[4] == Bits(x)[27]
    ensures Bits(BrevKnuth(x))[5] == Bits(x)[26]
    ensures Bits(BrevKnuth(x))[6] == Bits(x)[25]
    ensures Bits(BrevKnuth(x))[7] == Bits(x)[24]
  {
  }

  lemma BrevKnuthBits8To11(x: bv32)
    ensures Bits(BrevKnuth(x))[8] == Bits(x)[23]
    ensures Bits(BrevKnuth(x))[9] == Bits(x)[22]
    ensures Bits(BrevKnuth(x))[10] == Bits(x)[21]
    ensures Bits(BrevKnuth(x))[11] == Bits(x)[20]
  {
  }

  lemma BrevKnuthBits12To15(x: bv32)
    ensures Bits(BrevKnuth(x))[12] == Bits(x)[19]
    ensures Bits(BrevKnuth(x))[13] == Bits(x)[18]
    ensures Bits(BrevKnuth(x))[14] == Bits(x)[17]
    ensures Bits(BrevKnuth(x))[15] == Bits(x)[16]
  {
  }

  lemma MirroredLow(p: seq<bool>, q: seq<bool>, i: nat)
    requires |p| == |q| == 32 && i < 16
    requires p[0] == q[31] && p[1] == q[30] && p[2] == q[29] && p[3] == q[28]
    requires p[4] == q[27] && p[5] == q[26] && p[6] == q[25] && p[7] == q[24]
    requires p[8] == q[23] && p[9] == q[22] && p[10] == q[21] && p[11] == q[20]
    requires p[12] == q[19] && p[13] == q[18] && p[14] == q[17] && p[15] == q[16]
    ensures p[i] == q[31 - i]
  {
    match i
    case 0 => case 1 => case 2 => case 3 => case 4 => case 5 => case 6 => case 7 =>
    case 8 => case 9 => case 10 => case 11 => case 12 => case 13 => case 14 => case _ => assert i == 15;
  }

  /** Knuth's routine moves bit `31 - i` to bit `i`. */
  lemma BrevKnuthMirrors(x: bv32, i: nat)
    requires i < 32
    ensures Bits(BrevKnuth(x))[i] == Bits(x)[31 - i]
    decreases i >= 16
  {
    var y := BrevKnuth(x);
    if i < 16 {
      BrevKnuthBits0To3(x);
      BrevKnuthBits4To7(x);
      BrevKnuthBits8To11(x);
      BrevKnuthBits12To15(x);
      MirroredLow(Bits(y), Bits(x), i);
    } else {
      // The upper half follows from the lower one, as the routine undoes itself.
      BrevKnuthInvolutive(x);
      BrevKnuthMirrors(y, 31 - i);
    }
  }

  /** `reverse_hasht_bits`, read on numbers, is the numeric reversal. */
  lemma BrevKnuthIsRev(x: bv32)
    ensures Number(BrevKnuth(x)) == Rev(32, Number(x))
  {
    var bs, rs := Bits(x), Bits(BrevKnuth(x));
    forall i: nat | i < 32
      ensures rs[i] == Mirrored(bs)[i]
    {
      BrevKnuthMirrors(x, i);
    }
    assert rs == Mirrored(bs);
    ValReversed(bs);
  }

  // ---- words and numbers below 2^32 are the same thing ----

  function Half(x: bv32): bv32 {
    x >> 1
  }

  function Odd(x: bv32): bool {
    x & 1 == 1
  }

  function Twice(x: bv32, odd: bool): bv32 {
    (x << 1) | (if odd then 1 else 0)
  }

  function Union(x: bv32, y: bv32): bv32 {
    x | y
  }

  lemma BitHalf(x: bv32, i: nat)
    requires i < 31
    ensures Bit(x, i + 1) == Bit(Half(x), i)
  {
    match i
    case 0 => case 1 => case 2 => case 3 => case 4 => case 5 => case 6 => case 7 =>
    case 8 => case 9 => case 10 => case 11 => case 12 => case 13 => case 14 => case 15 =>
    case 16 => case 17 => case 18 => case 19 => case 20 => case 21 => case 22 => case 23 =>
    case 24 => case 25 => case 26 => case 27 => case 28 => case 29 => case _ => assert i == 30;
  }

  lemma EndBits(x: bv32)
    ensures Bit(x, 0) == Odd(x) && !Bit(Half(x), 31)
  {
  }

  /** Shifting a word down halves its number. */
  lemma NumberHalf(x: bv32)
    ensures Number(x) == (if Odd(x) then 1 else 0) + 2 * Number(Half(x))
  {
    hide Bit, Half, Odd;
    var bs, cs := Bits(x), Bits(Half(x));
    EndBits(x);
    forall i: nat | i < 31
      ensures bs[1..][i] == cs[..31][i]
    {
      BitHalf(x, i);
    }
    assert bs[1..] == cs[..31] && cs == cs[..31] + [false];
    ValAppend(cs[..31], false);
  }

  lemma SameHalves(x: bv32, y: bv32)
    requires Half(x) == Half(y) && Odd(x) == Odd(y)
    ensures x == y
  {
  }

  lemma HalvesSmaller(x: bv32, y: bv32)
    ensures if x == y == 0 then Union(x, y) == 0 else Union(Half(x), Half(y)) < Union(x, y)
  {
  }

  /** Different words are different numbers. */
  lemma {:induction false} NumberInjective(x: bv32, y: bv32)
    ensures Number(x) == Number(y) <==> x == y
    decreases Union(x, y)
  {
    hide Number, Half, Odd, Union;
    HalvesSmaller(x, y);
    if Number(x) == Number(y) && x != y {
      NumberInjective(Half(x), Half(y));
      NumberHalf(x);
      NumberHalf(y);
      SameHalves(x, y);
    }
  }

  /** A number below 2^31 leaves the top bit clear. */
  lemma SmallNumber(x: bv32)
    requires Number(x) < Pow2(31)
    ensures !Bit(x, 31)
  {
    hide Bit;
    var bs := Bits(x);
    assert bs == bs[..31] + [bs[31]];
    ValAppend(bs[..31], bs[31]);
  }

  lemma HalfOfTwice(x: bv32, odd: bool)
    requires !Bit(x, 31)
    ensures Half(Twice(x, odd)) == x && Odd(Twice(x, odd)) == odd
  {
  }

  /** Every number of up to 32 binary digits is some word's. */
  lemma {:induction false} NumberOnto(v: nat, n: nat) returns (x: bv32)
    requires v < Pow2(n) && n <= 32
    ensures Number(x) == v
  {
    hide Number, Half, Odd, Twice, Bit;
    if n == 0 {
      x := 0;
      ZeroNumber();
    } else {
      x := NumberOnto(v / 2, n - 1);
      Pow2Mono(n - 1, 31);
      hide Pow2;
      SmallNumber(x);
      HalfOfTwice(x, v % 2 == 1);
      x := Twice(x, v % 2 == 1);
      NumberHalf(x);
    }
  }

  lemma ZeroNumber()
    ensures Number(0) == 0
  {
    NumberHalf(0);
    hide Number;
    assert Half(0) == 0;
  }
}
