// Pointer words, and counting in sequences.
//
// A pointer is a number: null is 0, and the mark is the lowest bit.

module Counting {

  /** A pointer without its mark bit. */
  function Masked(v: nat): nat {
    v - v % 2
  }

  function NonNull(s: seq<nat>): seq<nat> {
    if s == [] then [] else (if s[0] == 0 then [] else [s[0]]) + NonNull(s[1..])
  }

  /** How often `d` occurs in `s`. */
  ghost function Count(s: seq<nat>, d: nat): nat {
    multiset(s)[d]
  }

  lemma CountFront(x: nat, s: seq<nat>, d: nat)
    ensures Count([x] + s, d) == (if d == x then 1 else 0) + Count(s, d)
  {
  }

  lemma CountLast(s: seq<nat>, x: nat, d: nat)
    ensures Count(s + [x], d) == (if d == x then 1 else 0) + Count(s, d)
  {
  }

  lemma CountDrop(s: seq<nat>, k: nat, d: nat)
    requires k < |s|
    ensures Count(s, d) == Count(s[..k] + s[k + 1..], d) + if d == s[k] then 1 else 0
  {
    assert s == s[..k] + [s[k]] + s[k + 1..];
  }

  lemma CountNone(d: nat)
    ensures Count([], d) == 0
  {
  }

  ghost predicate Distinct(ids: seq<nat>) {
    forall p, q | 0 <= p < q < |ids| :: ids[p] != ids[q]
  }

  lemma CountIn(s: seq<nat>, d: nat)
    ensures d in s <==> Count(s, d) > 0
  {
  }

  lemma CountTwice(s: seq<nat>, p: nat, q: nat)
    requires p < q < |s| && s[p] == s[q]
    ensures Count(s, s[p]) >= 2
  {
    assert s == s[..q] + [s[q]] + s[q + 1..];
    CountIn(s[..q], s[p]);
  }

  lemma {:induction false} CountNonNull(s: seq<nat>, o: nat)
    requires o != 0
    ensures Count(NonNull(s), o) == Count(s, o)
  {
    if s != [] {
      CountNonNull(s[1..], o);
      assert s == [s[0]] + s[1..];
    }
  }

  lemma CountUpdate(s: seq<nat>, k: nat, v: nat, o: nat)
    requires k < |s|
    ensures Count(s[k := v], o) + (if s[k] == o then 1 else 0) == Count(s, o) + (if v == o then 1 else 0)
  {
  }

  lemma DistinctCount(ids: seq<nat>, d: nat)
    requires Distinct(ids)
    ensures Count(ids, d) <= 1
  {
    if k :| 0 <= k < |ids| && ids[k] == d {
      CountDrop(ids, k, d);
      CountIn(ids[..k] + ids[k + 1..], d);
    } else {
      CountIn(ids, d);
    }
  }

  lemma CountAppend(a: seq<nat>, b: seq<nat>, d: nat)
    ensures Count(a + b, d) == Count(a, d) + Count(b, d)
  {
  }

  lemma CountsDistinct(ids: seq<nat>)
    requires forall d: nat :: Count(ids, d) <= 1
    ensures Distinct(ids)
  {
    forall p, q | 0 <= p < q < |ids|
      ensures ids[p] != ids[q]
    {
      if ids[p] == ids[q] {
        CountTwice(ids, p, q);
      }
    }
  }

  lemma {:induction false} NonNullIn(s: seq<nat>, x: nat)
    ensures x in NonNull(s) <==> x in s && x != 0
  {
    if s != [] {
      NonNullIn(s[1..], x);
    }
  }

  lemma {:induction false} NonNullAppend(a: seq<nat>, b: seq<nat>)
    ensures NonNull(a + b) == NonNull(a) + NonNull(b)
  {
    if a == [] {
      assert a + b == b;
    } else {
      assert (a + b)[1..] == a[1..] + b;
      NonNullAppend(a[1..], b);
    }
  }

  lemma NonNullLast(s: seq<nat>, x: nat)
    ensures NonNull(s + [x]) == NonNull(s) + if x == 0 then [] else [x]
  {
    NonNullAppend(s, [x]);
    assert [x][1..] == [];
  }

  ghost predicate NullsLast(items: seq<nat>) {
    forall j, k | 0 <= j < k < |items| && items[j] == 0 :: items[k] == 0
  }

  lemma {:induction false} AllNullCount(s: seq<nat>)
    requires forall k | 0 <= k < |s| :: s[k] == 0
    ensures Count(s, 0) == |s|
  {
    hide Count;
    CountNone(0);
    if s != [] {
      AllNullCount(s[1..]);
      CountFront(0, s[1..], 0);
      assert s == [0] + s[1..];
    }
  }

  /** With the nulls last, their number says where they begin. */
  lemma {:induction false} NullsBegin(s: seq<nat>, n: nat)
    requires NullsLast(s) && n <= |s| && Count(s, 0) == |s| - n
    ensures forall k | 0 <= k < |s| :: s[k] == 0 <==> k >= n
  {
    hide Count;
    CountNone(0);
    if s != [] {
      assert s == [s[0]] + s[1..];
      CountFront(s[0], s[1..], 0);
      if s[0] == 0 {
        AllNullCount(s);
      } else {
        CountAtMost(s[1..], 0);
        NullsBegin(s[1..], n - 1);
      }
    }
  }

  lemma CountAtMost(s: seq<nat>, d: nat)
    ensures Count(s, d) <= |s|
  {
  }
}
