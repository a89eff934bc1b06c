// The snapshot of all hazard pointers of a domain, run by one thread
// (hazard_pointer.cpp:182-245, hazard_pointer.hpp:185-209).
//
// What the snapshot sees while other threads store and add pools is in
// Reclamation.dfy.

module HazptrSnapshot {
  import opened Counting
  import opened HazptrValues
  import opened HazptrPool

  // ---- the pool list ----

  /** The newest of the `i` oldest pools; pools are listed oldest first. */
  ghost function Newest(pools: seq<HazptrPool>, i: nat): HazptrPool? {
    if 0 < i <= |pools| then pools[i - 1] else null
  }

  ghost function Head(pools: seq<HazptrPool>): HazptrPool? {
    Newest(pools, |pools|)
  }

  /** Each pool links to the one made before it. */
  ghost predicate Linked(pools: seq<HazptrPool>)
    reads pools
  {
    forall i | 0 <= i < |pools| :: pools[i].next == Newest(pools, i)
  }

  ghost function Storage(pools: seq<HazptrPool>): set<array<nat>> {
    set p: HazptrPool | p in pools :: p.hazPtrs
  }

  ghost predicate PoolsValid(pools: seq<HazptrPool>)
    reads pools, Storage(pools)
  {
    forall i | 0 <= i < |pools| :: pools[i].Valid()
  }

  ghost function Views(pools: seq<HazptrPool>): (vs: seq<Pool>)
    reads pools, Storage(pools)
    ensures |vs| == |pools| && forall i | 0 <= i < |pools| :: vs[i] == pools[i].View()
  {
    if pools == [] then [] else Views(pools[..|pools| - 1]) + [pools[|pools| - 1].View()]
  }

  /** The values in the slots of the oldest `i` pools. */
  ghost function SlotsUpTo(pools: seq<HazptrPool>, i: nat): seq<nat>
    requires i <= |pools|
    reads pools, Storage(pools)
  {
    AllSlots(Views(pools)[..i])
  }

  /** Walking from the newest of `i` pools to the next. */
  lemma WalkStep(pools: seq<HazptrPool>, i: nat)
    requires Linked(pools) && PoolsValid(pools) && 0 < i <= |pools|
    ensures var p := pools[i - 1];
            && Newest(pools, i) == p && p.next == Newest(pools, i - 1) && p.Valid()
            && SlotsUpTo(pools, i) == p.hazPtrs[..] + SlotsUpTo(pools, i - 1) && p.hpCount == |p.hazPtrs[..]|
  {
    assert Views(pools)[..i][..i - 1] == Views(pools)[..i - 1];
  }

  lemma WalkEnds(pools: seq<HazptrPool>)
    ensures SlotsUpTo(pools, 0) == [] && SlotsUpTo(pools, |pools|) == AllSlots(Views(pools))
  {
    assert Views(pools)[..|pools|] == Views(pools);
  }

  /** First pass: how much room the values need. */
  method CountAll(head: HazptrPool?, ghost pools: seq<HazptrPool>) returns (size: nat)
    requires Linked(pools) && PoolsValid(pools) && head == Head(pools)
    ensures size == HpCount(Views(pools))
  {
    hide Linked, PoolsValid, SlotsUpTo, Views, AllSlots;
    WalkEnds(pools);
    size := 0;
    var p := head;
    ghost var i: nat := |pools|;
    while p != null
      invariant i <= |pools| && p == Newest(pools, i) && Linked(pools) && PoolsValid(pools)
      invariant size + |SlotsUpTo(pools, i)| == |AllSlots(Views(pools))|
      decreases i
    {
      WalkStep(pools, i);
      size := size + p.hpCount;
      p := p.next;
      i := i - 1;
    }
    WalkEnds(pools);
  }

  /** Second pass: the values, without the nulls. */
  method CopyAll(head: HazptrPool?, ghost pools: seq<HazptrPool>, dest: array<nat>) returns (count: nat)
    requires Linked(pools) && PoolsValid(pools) && head == Head(pools)
    requires dest !in Storage(pools) && dest.Length == HpCount(Views(pools))
    modifies dest
    ensures count <= dest.Length && dest[..count] == NonNull(AllSlots(Views(pools)))
  {
    hide Linked, PoolsValid, SlotsUpTo, Views, AllSlots, NonNull;
    WalkEnds(pools);
    count := 0;
    var p := head;
    ghost var i: nat, done: seq<nat> := |pools|, [];
    CopiedNothing();
    while p != null
      invariant i <= |pools| && p == Newest(pools, i)
      invariant Linked(pools) && PoolsValid(pools)
      invariant AllSlots(Views(pools)) == done + SlotsUpTo(pools, i)
      invariant dest.Length == |AllSlots(Views(pools))|
      invariant count <= |done| && dest[..count] == NonNull(done)
      decreases i
    {
      WalkStep(pools, i);
      assert p.hazPtrs in Storage(pools);
      ghost var slots, rest, copiedBefore := p.hazPtrs[..], SlotsUpTo(pools, i - 1), dest[..count];
      assert done + (slots + rest) == (done + slots) + rest;
      NonNullAppend(done, slots);
      var copied := p.CopyHazardPointers(dest, count);
      assert dest[..count + copied] == copiedBefore + dest[count..count + copied];
      count := count + copied;
      done := done + slots;
      p := p.next;
      i := i - 1;
    }
    assert done + [] == done;
  }

  lemma CopiedNothing()
    ensures NonNull([]) == []
  {
  }

  // ---- sorting and searching ----

  ghost predicate Sorted(s: seq<nat>) {
    forall i, j | 0 <= i < j < |s| :: s[i] <= s[j]
  }

  function Inserted(x: nat, s: seq<nat>): seq<nat> {
    if s == [] || x <= s[0] then [x] + s else [s[0]] + Inserted(x, s[1..])
  }

  function SortedCopy(s: seq<nat>): seq<nat> {
    if s == [] then [] else Inserted(s[0], SortedCopy(s[1..]))
  }

  lemma {:induction false} InsertedIs(x: nat, s: seq<nat>, o: nat)
    ensures |Inserted(x, s)| == |s| + 1
    ensures Count(Inserted(x, s), o) == Count(s, o) + if o == x then 1 else 0
  {
    hide Count;
    CountFront(x, s, o);
    if s != [] && x > s[0] {
      InsertedIs(x, s[1..], o);
      assert s == [s[0]] + s[1..];
      CountFront(s[0], s[1..], o);
      CountFront(s[0], Inserted(x, s[1..]), o);
    }
  }

  lemma {:induction false} InsertedSorted(x: nat, s: seq<nat>)
    requires Sorted(s)
    ensures Sorted(Inserted(x, s))
  {
    if s != [] && x > s[0] {
      InsertedSorted(x, s[1..]);
      var r := Inserted(x, s[1..]);
      forall j | 0 <= j < |r|
        ensures s[0] <= r[j]
      {
        InsertedIs(x, s[1..], r[j]);
        CountIn(r, r[j]);
        CountIn(s[1..], r[j]);
      }
    }
  }

  lemma {:induction false} SortedCopyIs(s: seq<nat>, o: nat)
    ensures Sorted(SortedCopy(s)) && |SortedCopy(s)| == |s| && Count(SortedCopy(s), o) == Count(s, o)
  {
    hide Count;
    if s != [] {
      SortedCopyIs(s[1..], o);
      InsertedIs(s[0], SortedCopy(s[1..]), o);
      InsertedSorted(s[0], SortedCopy(s[1..]));
      assert s == [s[0]] + s[1..];
      CountFront(s[0], s[1..], o);
    }
  }

  /** The same values, each as often. */
  ghost predicate Permutation(a: seq<nat>, b: seq<nat>) {
    |a| == |b| && forall o: nat :: Count(a, o) == Count(b, o)
  }

  lemma SortedCopySorts(s: seq<nat>)
    ensures Sorted(SortedCopy(s)) && Permutation(SortedCopy(s), s) && |SortedCopy(s)| == |s|
  {
    hide Count, Sorted;
    SortedCopyIs(s, 0);
    forall o: nat
      ensures Count(SortedCopy(s), o) == Count(s, o)
    {
      SortedCopyIs(s, o);
    }
  }

  /** Stands for `std::sort` of the first `n` values. */
  method SortPrefix(a: array<nat>, n: nat)
    requires n <= a.Length
    modifies a
    ensures Sorted(a[..n]) && Permutation(a[..n], old(a[..n]))
  {
    hide Count, Sorted, Permutation, SortedCopy;
    var s := SortedCopy(a[..n]);
    SortedCopySorts(a[..n]);
    var k: nat := 0;
    while k < n
      invariant k <= n && a[..k] == s[..k]
    {
      a[k] := s[k];
      k := k + 1;
    }
    assert a[..n] == s;
  }

  /** Clears the mark bits, after the sort; the order the search needs is kept. */
  method MaskPrefix(a: array<nat>, n: nat)
    requires n <= a.Length && Sorted(a[..n])
    modifies a
    ensures Sorted(a[..n]) && forall k | 0 <= k < n :: a[k] == Masked(old(a[..n])[k])
  {
    var k: nat := 0;
    while k < n
      invariant k <= n
      invariant forall j | 0 <= j < n :: a[j] == if j < k then Masked(old(a[..n])[j]) else old(a[..n])[j]
    {
      a[k] := Masked(a[k]);
      k := k + 1;
    }
    forall i, j | 0 <= i < j < n
      ensures a[i] <= a[j]
    {
      MaskedMonotone(old(a[..n])[i], old(a[..n])[j]);
    }
  }

  lemma MaskedMonotone(x: nat, y: nat)
    requires x <= y
    ensures Masked(x) <= Masked(y)
  {
  }

  /** The masked values are those some slot protects. */
  lemma ValuesProtect(pools: seq<Pool>, sorted: seq<nat>, values: seq<nat>, p: nat)
    requires Permutation(sorted, NonNull(AllSlots(pools)))
    requires |values| == |sorted| && forall k | 0 <= k < |sorted| :: values[k] == Masked(sorted[k])
    ensures p in values <==> Protected(pools, p)
  {
    hide Count;
    var s := AllSlots(pools);
    if p in values {
      var k :| 0 <= k < |values| && values[k] == p;
      CountIn(sorted, sorted[k]);
      CountIn(NonNull(s), sorted[k]);
      NonNullIn(s, sorted[k]);
    }
    if Protected(pools, p) {
      var k :| 0 <= k < |s| && s[k] != 0 && Masked(s[k]) == p;
      NonNullIn(s, s[k]);
      CountIn(sorted, s[k]);
      CountIn(NonNull(s), s[k]);
      var j :| 0 <= j < |sorted| && sorted[j] == s[k];
      assert values[j] == p;
    }
  }

  /** Count, copy, sort, mask. */
  method Gather(pools: HazptrPool?, ghost all: seq<HazptrPool>) returns (buffer: array<nat>, count: nat)
    requires Linked(all) && PoolsValid(all) && pools == Head(all)
    ensures fresh(buffer) && count <= buffer.Length == HpCount(Views(all)) && Sorted(buffer[..count])
    ensures forall p: nat :: p in buffer[..count] <==> Protected(Views(all), p)
  {
    hide Protected, Sorted, AllSlots, NonNull, Head, Linked, HpCount, PoolOk, FreeNull;
    ghost var vs := Views(all);
    var size := CountAll(pools, all);
    buffer := new nat[size];
    count := CopyAll(pools, all, buffer);
    SortAndMask(buffer, count, vs);
    assert Views(all) == vs;
  }

  method SortAndMask(buffer: array<nat>, count: nat, ghost vs: seq<Pool>)
    requires count <= buffer.Length && buffer[..count] == NonNull(AllSlots(vs))
    modifies buffer
    ensures Sorted(buffer[..count]) && forall p: nat :: p in buffer[..count] <==> Protected(vs, p)
  {
    hide Protected, Permutation, Sorted, AllSlots, NonNull;
    SortPrefix(buffer, count);
    ghost var sorted := buffer[..count];
    MaskPrefix(buffer, count);
    forall p: nat
      ensures p in buffer[..count] <==> Protected(vs, p)
    {
      ValuesProtect(vs, sorted, buffer[..count], p);
    }
  }

  class HazptrsSnapshot {
    const ptrvalues: array<nat>
    const end: nat

    ghost predicate Valid()
      reads ptrvalues
    {
      end <= ptrvalues.Length && Sorted(ptrvalues[..end])
    }

    /** The values the search looks for. */
    ghost function Values(): seq<nat>
      requires Valid()
      reads ptrvalues
    {
      ptrvalues[..end]
    }

    constructor (pools: HazptrPool?, ghost all: seq<HazptrPool>)
      requires Linked(all) && PoolsValid(all) && pools == Head(all)
      ensures Valid() && fresh(ptrvalues) && end <= HpCount(Views(all))
      ensures forall p: nat :: p in Values() <==> Protected(Views(all), p)
    {
      hide Protected, Sorted, Head, PoolOk, FreeNull, HpCount, Linked, PoolsValid;
      var buffer, count := Gather(pools, all);
      ghost var vs := Views(all);
      ptrvalues, end := buffer, count;
      new;
      assert Views(all) == vs;
    }

    /** Stands for `std::binary_search`. */
    method Search(ptr: nat) returns (found: bool)
      requires Valid()
      ensures found <==> ptr in Values()
    {
      var lo, hi := 0, end;
      while lo < hi
        invariant lo <= hi <= end
        invariant forall k | 0 <= k < lo :: ptrvalues[k] < ptr
        invariant forall k | hi <= k < end :: ptr <= ptrvalues[k]
      {
        var mid := (lo + hi) / 2;
        if ptrvalues[mid] < ptr {
          lo := mid + 1;
        } else {
          hi := mid;
        }
      }
      found := lo < end && ptrvalues[lo] == ptr;
      if lo < end {
        assert forall k | lo < k < end :: ptrvalues[..end][lo] <= ptrvalues[..end][k];
      }
    }
  }
}
