/**
  The meaning of Lemon's list sort: a binary counter of sorted runs held in LISTSIZE
  bins, here as sequences. The comparison is any function whose sign is a total
  preorder, as the callers' comparison functions are.
 */
module MergeSort {
  import opened Basics

  const LISTSIZE: nat := 30

  // ---------------------------------------------------------------- ordering

  ghost predicate InOrder<T>(cmp: (T, T) -> int, x: T, y: T, z: T) {
    cmp(x, y) <= 0 && cmp(y, z) <= 0
  }

  ghost predicate Preorder<T(!new)>(cmp: (T, T) -> int) {
    && (forall x, y :: cmp(x, y) < 0 <==> cmp(y, x) > 0)
    && (forall x, y, z :: InOrder(cmp, x, y, z) ==> cmp(x, z) <= 0)
  }

  ghost predicate Sorted<T>(cmp: (T, T) -> int, s: seq<T>) {
    forall i, j :: 0 <= i < j < |s| ==> cmp(s[i], s[j]) <= 0
  }

  /** The elements of `s` that compare equal to `x`, in their order. */
  ghost function Class<T>(cmp: (T, T) -> int, x: T, s: seq<T>): seq<T> {
    if s == [] then []
    else if cmp(x, s[0]) == 0 then [s[0]] + Class(cmp, x, s[1..])
    else Class(cmp, x, s[1..])
  }

  /** `out` is sorted and keeps every class of equal elements of `s` exactly as it was. */
  ghost predicate StableSortOf<T(!new)>(cmp: (T, T) -> int, out: seq<T>, s: seq<T>) {
    Sorted(cmp, out) && forall x :: Class(cmp, x, out) == Class(cmp, x, s)
  }

  lemma {:induction false} ClassConcat<T>(cmp: (T, T) -> int, x: T, s: seq<T>, t: seq<T>)
    ensures Class(cmp, x, s + t) == Class(cmp, x, s) + Class(cmp, x, t)
  {
    if s == [] {
      assert s + t == t;
    } else {
      assert (s + t)[1..] == s[1..] + t;
      ClassConcat(cmp, x, s[1..], t);
    }
  }

  lemma {:induction false} ClassEmptyBelow<T(!new)>(cmp: (T, T) -> int, x: T, s: seq<T>)
    requires forall i :: 0 <= i < |s| ==> cmp(x, s[i]) < 0
    ensures Class(cmp, x, s) == []
  {
    if s != [] {
      ClassEmptyBelow(cmp, x, s[1..]);
    }
  }

  lemma {:induction false} ClassMembers<T(!new)>(cmp: (T, T) -> int, x: T, s: seq<T>)
    requires Preorder(cmp)
    ensures x in s <==> x in Class(cmp, x, s)
    ensures multiset(s)[x] == multiset(Class(cmp, x, s))[x]
  {
    if s != [] {
      assert s == [s[0]] + s[1..];
      ClassMembers(cmp, x, s[1..]);
      assert cmp(x, x) == 0;
    }
  }

  /** Keeping every class means being a permutation. */
  lemma StableSortIsPermutation<T(!new)>(cmp: (T, T) -> int, out: seq<T>, s: seq<T>)
    requires Preorder(cmp) && StableSortOf(cmp, out, s)
    ensures multiset(out) == multiset(s)
    ensures |out| == |s|
  {
    forall x ensures multiset(out)[x] == multiset(s)[x] {
      ClassMembers(cmp, x, out);
      ClassMembers(cmp, x, s);
    }
    assert multiset(out) == multiset(s);
    assert |multiset(out)| == |out| && |multiset(s)| == |s|;
  }

  // ------------------------------------------------------------------- merge

  /** What `merge` computes: on equal elements the second list goes first. */
  ghost function Merged<T>(cmp: (T, T) -> int, a: seq<T>, b: seq<T>): (r: seq<T>)
    ensures |r| == |a| + |b|
    decreases |a| + |b|
  {
    if a == [] then b
    else if b == [] then a
    else if cmp(a[0], b[0]) < 0 then
      [a[0]] + Merged(cmp, a[1..], b)
    else
      [b[0]] + Merged(cmp, a, b[1..])
  }

  lemma BelowAll<T(!new)>(cmp: (T, T) -> int, h: T, s: seq<T>)
    requires Preorder(cmp) && Sorted(cmp, s)
    requires s != [] ==> cmp(h, s[0]) <= 0
    ensures forall i :: 0 <= i < |s| ==> cmp(h, s[i]) <= 0
    ensures s != [] && cmp(h, s[0]) < 0 ==> forall i :: 0 <= i < |s| ==> cmp(h, s[i]) < 0
  {
    forall i | 0 < i < |s|
      ensures cmp(h, s[i]) <= 0
      ensures cmp(h, s[0]) < 0 ==> cmp(h, s[i]) < 0
    {
      assert InOrder(cmp, h, s[0], s[i]);
      if cmp(h, s[0]) < 0 && cmp(h, s[i]) == 0 {
        assert InOrder(cmp, s[0], s[i], h);
        assert false;
      }
    }
  }

  lemma {:induction false} MergedAbove<T>(cmp: (T, T) -> int, h: T, a: seq<T>, b: seq<T>)
    requires forall i :: 0 <= i < |a| ==> cmp(h, a[i]) <= 0
    requires forall i :: 0 <= i < |b| ==> cmp(h, b[i]) <= 0
    ensures forall i :: 0 <= i < |Merged(cmp, a, b)| ==> cmp(h, Merged(cmp, a, b)[i]) <= 0
    decreases |a| + |b|
  {
    if a != [] && b != [] {
      if cmp(a[0], b[0]) < 0 {
        MergedAbove(cmp, h, a[1..], b);
      } else {
        MergedAbove(cmp, h, a, b[1..]);
      }
    }
  }

  lemma {:induction false} MergedSorted<T(!new)>(cmp: (T, T) -> int, a: seq<T>, b: seq<T>)
    requires Preorder(cmp) && Sorted(cmp, a) && Sorted(cmp, b)
    ensures Sorted(cmp, Merged(cmp, a, b))
    decreases |a| + |b|
  {
    if a == [] || b == [] {
    } else if cmp(a[0], b[0]) < 0 {
      MergedSorted(cmp, a[1..], b);
      BelowAll(cmp, a[0], b);
      MergedAbove(cmp, a[0], a[1..], b);
    } else {
      MergedSorted(cmp, a, b[1..]);
      BelowAll(cmp, b[0], a);
      MergedAbove(cmp, b[0], a, b[1..]);
    }
  }

  /** Merging puts, class by class, the second list before the first. */
  lemma {:induction false} MergedClass<T(!new)>(cmp: (T, T) -> int, x: T, a: seq<T>, b: seq<T>)
    requires Preorder(cmp) && Sorted(cmp, a) && Sorted(cmp, b)
    ensures Class(cmp, x, Merged(cmp, a, b)) == Class(cmp, x, b) + Class(cmp, x, a)
    decreases |a| + |b|
  {
    hide Class, Preorder, Sorted, Merged;
    ClassHead(cmp, x, a);
    ClassHead(cmp, x, b);
    MergedStep(cmp, a, b);
    NilConcat(Class(cmp, x, a));
    NilConcat(Class(cmp, x, b));
    if a == [] || b == [] {
    } else if cmp(a[0], b[0]) < 0 {
      var ca, cb := Class(cmp, x, a[1..]), Class(cmp, x, b);
      SortedTail(cmp, a);
      MergedClass(cmp, x, a[1..], b);
      ClassCons(cmp, x, a[0], Merged(cmp, a[1..], b));
      if cmp(x, a[0]) == 0 {
        ClassAbove(cmp, x, a[0], b);
        NilConcat(ca);
      } else {
        NilConcat(cb + ca);
        NilConcat(ca);
      }
    } else {
      var ca, cb := Class(cmp, x, a), Class(cmp, x, b[1..]);
      SortedTail(cmp, b);
      MergedClass(cmp, x, a, b[1..]);
      ClassCons(cmp, x, b[0], Merged(cmp, a, b[1..]));
      Regroup(if cmp(x, b[0]) == 0 then [b[0]] else [], cb, ca);
    }
  }

  lemma Regroup<T>(a: seq<T>, b: seq<T>, c: seq<T>)
    ensures a + (b + c) == a + b + c
  {
  }

  lemma MergedStep<T>(cmp: (T, T) -> int, a: seq<T>, b: seq<T>)
    ensures Merged(cmp, a, b) ==
              if a == [] then b
              else if b == [] then a
              else if cmp(a[0], b[0]) < 0 then [a[0]] + Merged(cmp, a[1..], b)
              else [b[0]] + Merged(cmp, a, b[1..])
  {
  }

  lemma SortedTail<T>(cmp: (T, T) -> int, s: seq<T>)
    requires Sorted(cmp, s) && s != []
    ensures Sorted(cmp, s[1..])
  {
  }

  lemma ClassHead<T>(cmp: (T, T) -> int, x: T, s: seq<T>)
    ensures Class(cmp, x, s) == if s == [] then [] else (if cmp(x, s[0]) == 0 then [s[0]] else []) + Class(cmp, x, s[1..])
  {
  }

  lemma ClassCons<T>(cmp: (T, T) -> int, x: T, h: T, s: seq<T>)
    ensures Class(cmp, x, [h] + s) == (if cmp(x, h) == 0 then [h] else []) + Class(cmp, x, s)
  {
    assert ([h] + s)[1..] == s;
  }

  lemma ClassAbove<T(!new)>(cmp: (T, T) -> int, x: T, h: T, s: seq<T>)
    requires Preorder(cmp) && Sorted(cmp, s)
    requires s != [] && cmp(x, h) == 0 && cmp(h, s[0]) < 0
    ensures Class(cmp, x, s) == []
  {
    assert InOrder(cmp, x, h, s[0]);
    if InOrder(cmp, s[0], x, h) {
    }
    BelowAll(cmp, x, s);
    ClassEmptyBelow(cmp, x, s);
  }

  lemma MergedStable<T(!new)>(cmp: (T, T) -> int, a: seq<T>, b: seq<T>, s: seq<T>, t: seq<T>)
    requires Preorder(cmp) && StableSortOf(cmp, a, s) && StableSortOf(cmp, b, t)
    ensures StableSortOf(cmp, Merged(cmp, a, b), t + s)
  {
    MergedSorted(cmp, a, b);
    forall x ensures Class(cmp, x, Merged(cmp, a, b)) == Class(cmp, x, t + s) {
      MergedClass(cmp, x, a, b);
      ClassConcat(cmp, x, t, s);
    }
  }

  // ---------------------------------------------------------- binary counter

  function Pow2(k: nat): (p: nat)
    ensures p >= 1
  {
    if k == 0 then 1 else 2 * Pow2(k - 1)
  }

  /**
    How many trailing elements of an n-element list survive: all of them below
    2^size; from there on the last bin is overwritten on every carry.
   */
  function Kept(size: nat, n: nat): (k: nat)
    requires size >= 1
  {
    if n < Pow2(size - 1) then n else Pow2(size - 1) + n % Pow2(size - 1)
  }

  lemma RemainderBelow(n: nat, h: nat)
    requires 0 < h <= n
    ensures 0 <= n % h < h && h + n % h <= n
    ensures n < 2 * h <==> h + n % h == n
  {
    assert n == h * (n / h) + n % h;
    if n / h == 1 {
      assert n == h + n % h;
    } else {
      assert h * (n / h) >= h * 2;
    }
  }

  lemma KeptAllIff(size: nat, n: nat)
    requires size >= 1
    ensures Kept(size, n) <= n
    ensures Kept(size, n) == n <==> n < Pow2(size)
  {
    var h := Pow2(size - 1);
    assert Pow2(size) == 2 * h;
    if h <= n {
      RemainderBelow(n, h);
    }
  }

  /** The value of the counter formed by bins `lo` .. |bins|-2. */
  ghost function Counter<T>(bins: seq<seq<T>>, lo: nat): nat
    requires lo < |bins|
    decreases |bins| - lo
  {
    if lo == |bins| - 1 then 0 else |bins[lo]| + Counter(bins, lo + 1)
  }

  lemma {:induction false} CounterUpdate<T>(bins: seq<seq<T>>, lo: nat, i: nat, v: seq<T>)
    requires lo <= i < |bins|
    ensures Counter(bins[i := v], lo)
         == Counter(bins, lo) + (if i < |bins| - 1 then |v| - |bins[i]| else 0)
    decreases i - lo
  {
    if lo < i {
      CounterUpdate(bins, lo + 1, i, v);
    } else if lo < |bins| - 1 {
      CounterSame(bins, bins[i := v], lo + 1);
    }
  }

  lemma {:induction false} CounterSame<T>(bins: seq<seq<T>>, bins': seq<seq<T>>, lo: nat)
    requires lo < |bins| == |bins'|
    requires forall j :: lo <= j < |bins| - 1 ==> bins[j] == bins'[j]
    ensures Counter(bins, lo) == Counter(bins', lo)
    decreases |bins| - lo
  {
    if lo < |bins| - 1 {
      CounterSame(bins, bins', lo + 1);
    }
  }

  lemma {:induction false} CounterBelow<T>(bins: seq<seq<T>>, lo: nat)
    requires lo < |bins|
    requires forall i :: 0 <= i < |bins| ==> |bins[i]| == 0 || |bins[i]| == Pow2(i)
    ensures Counter(bins, lo) + Pow2(lo) <= Pow2(|bins| - 1)
    decreases |bins| - lo
  {
    if lo < |bins| - 1 {
      CounterBelow(bins, lo + 1);
      assert Pow2(lo + 1) == 2 * Pow2(lo);
    }
  }

  /** The input elements held by the bins from `lo` up, oldest (highest bin) first. */
  ghost function Held<T>(parts: seq<seq<T>>, lo: nat): seq<T>
    requires lo <= |parts|
    decreases |parts| - lo
  {
    if lo == |parts| then [] else Held(parts, lo + 1) + parts[lo]
  }

  lemma {:induction false} HeldSame<T>(parts: seq<seq<T>>, parts': seq<seq<T>>, lo: nat)
    requires |parts| == |parts'| && lo <= |parts|
    requires forall j :: lo <= j < |parts| ==> parts[j] == parts'[j]
    ensures Held(parts, lo) == Held(parts', lo)
    decreases |parts| - lo
  {
    if lo < |parts| {
      HeldSame(parts, parts', lo + 1);
    }
  }

  lemma {:induction false} HeldSkip<T>(parts: seq<seq<T>>, lo: nat)
    requires lo <= |parts|
    requires forall j :: 0 <= j < lo ==> parts[j] == []
    ensures Held(parts, 0) == Held(parts, lo)
  {
    if lo > 0 {
      HeldSkip(parts, lo - 1);
      assert Held(parts, lo - 1) == Held(parts, lo) + parts[lo - 1];
    }
  }

  /** Bin i is empty or holds exactly 2^i elements: the stable sort of `parts[i]`. */
  ghost predicate BinsOk<T(!new)>(cmp: (T, T) -> int, bins: seq<seq<T>>, parts: seq<seq<T>>) {
    && |bins| == |parts| >= 1
    && (forall i :: 0 <= i < |bins| ==> |bins[i]| == 0 || |bins[i]| == Pow2(i))
    && (forall i :: 0 <= i < |bins| ==> StableSortOf(cmp, bins[i], parts[i]))
    && (forall i :: 0 <= i < |bins| && bins[i] == [] ==> parts[i] == [])
  }

  /** What holds while one element is carried: `ep`, of 2^i elements, is still to be placed. */
  ghost predicate Carrying<T(!new)>(cmp: (T, T) -> int, bins: seq<seq<T>>, parts: seq<seq<T>>,
                                    ep: seq<T>, part: seq<T>, i: nat)
  {
    && i <= |bins| - 1
    && BinsOk(cmp, bins, parts)
    && |ep| == Pow2(i) && StableSortOf(cmp, ep, part)
    && forall j :: 0 <= j < i ==> bins[j] == []
  }

  lemma EmptyStable<T(!new)>(cmp: (T, T) -> int)
    ensures StableSortOf(cmp, [], [])
  {
  }

  lemma CarryStep<T(!new)>(cmp: (T, T) -> int, bins: seq<seq<T>>, parts: seq<seq<T>>,
                           ep: seq<T>, part: seq<T>, i: nat)
    requires Preorder(cmp) && Carrying(cmp, bins, parts, ep, part, i)
    requires i < |bins| - 1 && bins[i] != []
    ensures Carrying(cmp, bins[i := []], parts[i := []], Merged(cmp, ep, bins[i]), parts[i] + part, i + 1)
    ensures Counter(bins[i := []], 0) + Pow2(i + 1) == Counter(bins, 0) + Pow2(i)
    ensures Held(parts[i := []], 0) + (parts[i] + part) == Held(parts, 0) + part
  {
    hide Preorder, StableSortOf, Class, Merged;
    MergedStable(cmp, ep, bins[i], part, parts[i]);
    EmptyStable(cmp);
    CounterUpdate(bins, 0, i, []);
    HeldSkip(parts, i);
    HeldSkip(parts[i := []], i + 1);
    HeldSame(parts[i := []], parts, i + 1);
  }

  lemma CarryPlace<T(!new)>(cmp: (T, T) -> int, bins: seq<seq<T>>, parts: seq<seq<T>>,
                            ep: seq<T>, part: seq<T>, i: nat)
    requires Preorder(cmp) && Carrying(cmp, bins, parts, ep, part, i)
    requires i == |bins| - 1 || bins[i] == []
    ensures BinsOk(cmp, bins[i := ep], parts[i := part])
    ensures i < |bins| - 1 ==>
              && Counter(bins[i := ep], 0) == Counter(bins, 0) + Pow2(i) < Pow2(|bins| - 1)
              && Held(parts[i := part], 0) == Held(parts, 0) + part
    ensures i == |bins| - 1 ==>
              && Counter(bins[i := ep], 0) == Counter(bins, 0) == 0
              && parts[i] + Held(parts[i := part], 0) == Held(parts, 0) + part
  {
    hide Preorder, StableSortOf, Class;
    StableSortLength(cmp, ep, part);
    PlacedCounter(bins, i, ep);
    PlacedHeld(parts, i, part);
  }

  lemma PlacedCounter<T>(bins: seq<seq<T>>, i: nat, ep: seq<T>)
    requires i < |bins| && (forall j :: 0 <= j < |bins| ==> |bins[j]| == 0 || |bins[j]| == Pow2(j))
    requires |ep| == Pow2(i) && (forall j :: 0 <= j < i ==> bins[j] == []) && (i == |bins| - 1 || bins[i] == [])
    ensures i < |bins| - 1 ==> Counter(bins[i := ep], 0) == Counter(bins, 0) + Pow2(i) < Pow2(|bins| - 1)
    ensures i == |bins| - 1 ==> Counter(bins[i := ep], 0) == Counter(bins, 0) == 0
  {
    CounterUpdate(bins, 0, i, ep);
    if i == |bins| - 1 {
      CounterZero(bins, 0);
    } else {
      CounterBelow(bins[i := ep], 0);
    }
  }

  lemma PlacedHeld<T>(parts: seq<seq<T>>, i: nat, part: seq<T>)
    requires i < |parts| && (forall j :: 0 <= j < i ==> parts[j] == []) && (i == |parts| - 1 || parts[i] == [])
    ensures i < |parts| - 1 ==> Held(parts[i := part], 0) == Held(parts, 0) + part
    ensures i == |parts| - 1 ==> parts[i] + Held(parts[i := part], 0) == Held(parts, 0) + part
  {
    HeldSkip(parts, i);
    HeldSkip(parts[i := part], i);
    HeldSame(parts[i := part], parts, i + 1);
  }

  lemma StableSortLength<T(!new)>(cmp: (T, T) -> int, out: seq<T>, s: seq<T>)
    requires Preorder(cmp) && StableSortOf(cmp, out, s)
    ensures |out| == |s|
  {
    StableSortIsPermutation(cmp, out, s);
  }

  lemma {:induction false} CounterZero<T>(bins: seq<seq<T>>, lo: nat)
    requires lo < |bins|
    requires forall j :: lo <= j < |bins| - 1 ==> bins[j] == []
    ensures Counter(bins, lo) == 0
    decreases |bins| - lo
  {
    if lo < |bins| - 1 {
      CounterZero(bins, lo + 1);
    }
  }

  lemma KeptIs(size: nat, n: nat, d: nat, c: nat)
    requires size >= 1 && c < Pow2(size - 1)
    requires n == Pow2(size - 1) * (d + 1) + c
    ensures Kept(size, n) == Pow2(size - 1) + c
    ensures n - Kept(size, n) == Pow2(size - 1) * d
  {
    var h := Pow2(size - 1);
    assert h * (d + 1) == h * d + h && h * d >= 0;
    RemainderUnique(n, h, d + 1, c);
  }

  lemma RemainderUnique(n: nat, h: nat, q: nat, c: nat)
    requires 0 < h && c < h && n == h * q + c
    ensures n % h == c
  {
    assert n == h * (n / h) + n % h;
    if n / h < q {
      MulMonotone(h, n / h + 1, q);
    } else if n / h > q {
      MulMonotone(h, q + 1, n / h);
    }
  }

  lemma MulMonotone(h: nat, p: nat, q: nat)
    requires 1 <= p <= q
    ensures h * (p - 1) + h <= h * q
  {
    assert h * (q - (p - 1)) >= h;
  }

  ghost predicate MultipleOf(n: nat, h: nat)
    requires h >= 1
  {
    n == h * (n / h)
  }

  lemma MultipleNext(n: nat, h: nat)
    requires h >= 1 && MultipleOf(n, h)
    ensures MultipleOf(n + h, h) && MultipleOf(0, h)
  {
    assert (n + h) / h == n / h + 1 by {
      assert h * (n / h + 1) == h * (n / h) + h;
      RemainderUnique(n + h, h, n / h + 1, 0);
      MulCancel(h, (n + h) / h, n / h + 1);
    }
  }

  lemma MulCancel(h: nat, p: nat, q: nat)
    requires h >= 1 && h * p == h * q
    ensures p == q
  {
    if p < q {
      MulMonotone(h, p + 1, q);
    } else if q < p {
      MulMonotone(h, q + 1, p);
    }
  }

  /** What holds between elements: `dropped` counts the input elements already lost. */
  ghost predicate Filling<T(!new)>(cmp: (T, T) -> int, bins: seq<seq<T>>, parts: seq<seq<T>>,
                                   list: seq<T>, n: nat, dropped: nat)
  {
    && BinsOk(cmp, bins, parts)
    && dropped <= n <= |list|
    && Held(parts, 0) == list[dropped..n]
    && n == dropped + |bins[|bins| - 1]| + Counter(bins, 0)
    && (bins[|bins| - 1] == [] ==> dropped == 0)
    && MultipleOf(dropped, Pow2(|bins| - 1))
  }

  lemma FillingStep<T(!new)>(cmp: (T, T) -> int, bins: seq<seq<T>>, parts: seq<seq<T>>, list: seq<T>, n: nat,
                             dropped: nat, bins': seq<seq<T>>, parts': seq<seq<T>>)
    requires Preorder(cmp) && Filling(cmp, bins, parts, list, n, dropped) && n < |list|
    requires BinsOk(cmp, bins', parts') && |bins'| == |bins|
    requires Counter(bins, 0) + 1 == Pow2(|bins| - 1)
    requires Counter(bins', 0) == 0 && bins'[|bins| - 1] != []
    requires Held(parts, 0) + [list[n]] == parts[|bins| - 1] + Held(parts', 0)
    ensures Filling(cmp, bins', parts', list, n + 1, dropped + |bins[|bins| - 1]|)
  {
    var top, rest := parts[|bins| - 1], Held(parts', 0);
    StableSortLength(cmp, bins[|bins| - 1], top);
    assert list[dropped..n] + [list[n]] == list[dropped..n + 1];
    assert top + rest == list[dropped..n + 1];
    assert rest == list[dropped + |top|..n + 1];
    MultipleNext(dropped, Pow2(|bins| - 1));
  }

  lemma FillingBelow<T(!new)>(cmp: (T, T) -> int, bins: seq<seq<T>>, parts: seq<seq<T>>, list: seq<T>, n: nat,
                              dropped: nat)
    requires Filling(cmp, bins, parts, list, n, dropped)
    ensures BinsOk(cmp, bins, parts) && |bins| == |parts| >= 1 && dropped <= n
    ensures Counter(bins, 0) < Pow2(|bins| - 1)
  {
    CounterBelow(bins, 0);
  }

  lemma FillingDone<T(!new)>(cmp: (T, T) -> int, bins: seq<seq<T>>, parts: seq<seq<T>>, list: seq<T>, dropped: nat)
    requires Filling(cmp, bins, parts, list, |list|, dropped)
    ensures BinsOk(cmp, bins, parts)
    ensures Kept(|bins|, |list|) <= |list| && Held(parts, 0) == list[|list| - Kept(|bins|, |list|)..]
  {
    CounterBelow(bins, 0);
    if bins[|bins| - 1] != [] {
      var d: nat := dropped / Pow2(|bins| - 1);
      assert Pow2(|bins| - 1) * (d + 1) == Pow2(|bins| - 1) * d + Pow2(|bins| - 1);
      KeptIs(|bins|, |list|, d, Counter(bins, 0));
    }
  }

  lemma FillingStart<T(!new)>(cmp: (T, T) -> int, bins: seq<seq<T>>, parts: seq<seq<T>>, list: seq<T>)
    requires |bins| == |parts| >= 1
    requires forall i :: 0 <= i < |bins| ==> bins[i] == [] && parts[i] == []
    ensures Filling(cmp, bins, parts, list, 0, 0)
  {
    CounterZero(bins, 0);
    HeldSkip(parts, |parts|);
    MultipleNext(0, Pow2(|bins| - 1));
  }

  lemma FillingKeeps<T(!new)>(cmp: (T, T) -> int, bins: seq<seq<T>>, parts: seq<seq<T>>, list: seq<T>, n: nat,
                              dropped: nat, bins': seq<seq<T>>, parts': seq<seq<T>>)
    requires Filling(cmp, bins, parts, list, n, dropped) && n < |list|
    requires BinsOk(cmp, bins', parts') && |bins'| == |bins|
    requires Counter(bins', 0) == Counter(bins, 0) + 1 && bins'[|bins| - 1] == bins[|bins| - 1]
    requires Held(parts', 0) == Held(parts, 0) + [list[n]]
    ensures Filling(cmp, bins', parts', list, n + 1, dropped)
  {
    hide BinsOk, Counter, Held, MultipleOf;
    assert list[dropped..n] + [list[n]] == list[dropped..n + 1];
  }
}
