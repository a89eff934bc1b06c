// Marked pointers (mark_ptr_type.hpp): a pointer and a mark bit in one machine
// word, so that one compare-and-swap tests and sets both.
//
// `MarkedPtr` is the meaning of such a word; the list modules use it directly.
// `MarkPtrType` is the word itself, with the masking written out; its contracts
// say that on aligned pointers every operation acts on the meaning alone.

module MarkPtr {

  datatype MarkedPtr<+P> = MarkedPtr(ptr: P, mark: bool)

  /** Compare-and-swap on the meaning: the word left behind, and whether it succeeded. */
  function Cas<P(==)>(w: MarkedPtr<P>, expected: MarkedPtr<P>, desired: MarkedPtr<P>): (MarkedPtr<P>, bool) {
    if w == expected then (desired, true) else (w, false)
  }

  const MARK_BITS_MASK: bv64 := 1
  const MARK_BITS_MASKOFF: bv64 := !MARK_BITS_MASK

  /** Objects are at even addresses. */
  predicate Aligned(p: bv64) {
    p & MARK_BITS_MASK == 0
  }

  function Encode(w: MarkedPtr<bv64>): bv64 {
    w.ptr | (if w.mark then MARK_BITS_MASK else 0)
  }

  function Decode(upv: bv64): (w: MarkedPtr<bv64>)
    ensures Aligned(w.ptr)
  {
    MarkedPtr(upv & MARK_BITS_MASKOFF, upv & MARK_BITS_MASK != 0)
  }

  lemma DecodePlain(p: bv64)
    ensures Decode(p) == MarkedPtr(p, false) <==> Aligned(p)
  {
    PlainParts(p);
  }

  lemma DecodeMarked(p: bv64)
    ensures Decode(p | MARK_BITS_MASK) == MarkedPtr(p, true) <==> Aligned(p)
  {
    MarkedParts(p);
    PlainParts(p);
  }

  lemma MarkedParts(p: bv64)
    ensures (p | MARK_BITS_MASK) & MARK_BITS_MASK != 0
    ensures (p | MARK_BITS_MASK) & MARK_BITS_MASKOFF == p & MARK_BITS_MASKOFF
  {
  }

  lemma PlainParts(p: bv64)
    ensures p & MARK_BITS_MASK == 0 <==> p & MARK_BITS_MASKOFF == p
  {
  }

  lemma OrZero(p: bv64)
    ensures p | 0 == p
  {
  }

  lemma EncodeIs(p: bv64)
    ensures Encode(MarkedPtr(p, false)) == p && Encode(MarkedPtr(p, true)) == p | MARK_BITS_MASK
  {
    OrZero(p);
  }

  /** A meaning survives the trip through its word exactly when the pointer is aligned. */
  lemma DecodeEncode(w: MarkedPtr<bv64>)
    ensures Decode(Encode(w)) == w <==> Aligned(w.ptr)
  {
    hide Decode, Aligned, Encode;
    EncodeIs(w.ptr);
    DecodePlain(w.ptr);
    DecodeMarked(w.ptr);
    assert w == MarkedPtr(w.ptr, w.mark);
  }

  lemma EncodeDecode(upv: bv64)
    ensures Encode(Decode(upv)) == upv
  {
  }

  /** Words are equal exactly when they mean the same. */
  lemma SameWord(u: bv64, v: bv64)
    ensures u == v <==> Decode(u) == Decode(v)
  {
    EncodeDecode(u);
    EncodeDecode(v);
  }

  class MarkPtrType {
    var upv: bv64

    function View(): MarkedPtr<bv64>
      reads this
    {
      Decode(upv)
    }

    constructor ()
      ensures View() == MarkedPtr(0, false)
    {
      upv := 0;
    }

    constructor FromPointer(p: bv64)
      requires Aligned(p)
      ensures View() == MarkedPtr(p, false)
    {
      upv := p;
      new;
      DecodePlain(p);
    }

    /** Assignment replaces the pointer and keeps the mark. */
    method Assign(p: bv64)
      requires Aligned(p)
      modifies this
      ensures View() == MarkedPtr(p, old(View()).mark)
    {
      upv := p | (upv & MARK_BITS_MASK);
    }

    method LoadMarked() returns (p: bv64, mark: bool)
      ensures MarkedPtr(p, mark) == View()
    {
      mark := 0 != upv & MARK_BITS_MASK;
      p := upv & MARK_BITS_MASKOFF;
    }

    method Load() returns (p: bv64)
      ensures p == View().ptr && Aligned(p)
    {
      p := upv & MARK_BITS_MASKOFF;
    }

    /** `__atomic_compare_exchange` on the raw word. */
    method CompareExchange(expected: bv64, desired: bv64) returns (ok: bool)
      modifies this
      ensures (View(), ok) == Cas(old(View()), Decode(expected), Decode(desired))
    {
      SameWord(upv, expected);
      ok := upv == expected;
      if ok {
        upv := desired;
      }
    }

    /** Succeeds only on an unmarked word, and leaves an unmarked word. */
    method CasPointer(expected: bv64, desired: bv64) returns (ok: bool)
      requires Aligned(expected) && Aligned(desired)
      modifies this
      ensures (View(), ok) == Cas(old(View()), MarkedPtr(expected, false), MarkedPtr(desired, false))
    {
      hide Decode, Aligned;
      DecodePlain(expected);
      DecodePlain(desired);
      ok := CompareExchange(expected, desired);
    }

    /** Succeeds only on an unmarked word; the new word is marked if asked. */
    method CasPointerMark(expected: bv64, desired: bv64, mark: bool) returns (ok: bool)
      requires Aligned(expected) && Aligned(desired)
      modifies this
      ensures (View(), ok) == Cas(old(View()), MarkedPtr(expected, false), MarkedPtr(desired, mark))
    {
      hide Decode, Aligned;
      DecodePlain(expected);
      DecodePlain(desired);
      DecodeMarked(desired);
      var pvDesired := desired;
      if mark {
        pvDesired := pvDesired | MARK_BITS_MASK;
      }
      ok := CompareExchange(expected, pvDesired);
    }

    method CasMark(expected: bv64, mark: bool) returns (ok: bool)
      requires Aligned(expected)
      modifies this
      ensures (View(), ok) == Cas(old(View()), MarkedPtr(expected, false), MarkedPtr(expected, mark))
    {
      hide Decode, Aligned;
      DecodePlain(expected);
      DecodeMarked(expected);
      var pvDesired := expected;
      if mark {
        pvDesired := pvDesired | MARK_BITS_MASK;
      }
      ok := CompareExchange(expected, pvDesired);
    }

    method CasBoth(expected: bv64, marked: bool, desired: bv64, mark: bool) returns (ok: bool)
      requires Aligned(expected) && Aligned(desired)
      modifies this
      ensures (View(), ok) == Cas(old(View()), MarkedPtr(expected, marked), MarkedPtr(desired, mark))
    {
      hide Decode, Aligned;
      DecodePlain(expected);
      DecodeMarked(expected);
      DecodePlain(desired);
      DecodeMarked(desired);
      var pvExpected, pvDesired := expected, desired;
      if marked {
        pvExpected := pvExpected | MARK_BITS_MASK;
      }
      if mark {
        pvDesired := pvDesired | MARK_BITS_MASK;
      }
      ok := CompareExchange(pvExpected, pvDesired);
    }

    /** Sets the mark; true exactly for the caller that set it. */
    method Mark() returns (first: bool)
      modifies this
      ensures View() == MarkedPtr(old(View()).ptr, true)
      ensures first == !old(View()).mark
    {
      var v := upv;
      upv := upv | MARK_BITS_MASK;
      first := 0 == MARK_BITS_MASK & v;
    }

    method Reset()
      modifies this
      ensures View() == MarkedPtr(0, false)
    {
      upv := 0;
    }
  }

  // ---- what a mark guarantees ----

  /** The steps the list takes on a published `next` word. */
  datatype WordStep<P> = Swing(from: P, to: P) | SetMark(at: P)

  function Apply<P(==)>(w: MarkedPtr<P>, s: WordStep<P>): MarkedPtr<P> {
    match s
    case Swing(from, to) => Cas(w, MarkedPtr(from, false), MarkedPtr(to, false)).0
    case SetMark(at) => Cas(w, MarkedPtr(at, false), MarkedPtr(at, true)).0
  }

  function ApplyAll<P(==)>(w: MarkedPtr<P>, steps: seq<WordStep<P>>): MarkedPtr<P>
    decreases |steps|
  {
    if steps == [] then w else ApplyAll(Apply(w, steps[0]), steps[1..])
  }

  /** Once marked, a word never changes again, whatever CASes are tried on it. */
  lemma {:induction false} MarkFreezes<P>(w: MarkedPtr<P>, steps: seq<WordStep<P>>)
    requires w.mark
    ensures ApplyAll(w, steps) == w
    decreases |steps|
  {
    if steps != [] {
      MarkFreezes(w, steps[1..]);
    }
  }
}
