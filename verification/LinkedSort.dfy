/**
  Lemon's list sort on the lists themselves: merge relinks the cells of two lists
  into one, and msort keeps its bins as heads of such lists. The order of the cells
  is that of the sort on sequences.
 */
module LinkedSort {
  import opened Basics
  import opened MergeSort

  class Cell<T(!new)> {
    const value: T
    var next: Cell?<T>

    constructor (value: T)
      ensures this.value == value && next == null
    {
      this.value, next := value, null;
    }
  }

  ghost function At<T(!new)>(s: seq<Cell<T>>, i: nat): Cell?<T> { if i < |s| then s[i] else null }

  ghost function Cells<T(!new)>(s: seq<Cell<T>>): set<Cell<T>> { set c | c in s }

  ghost predicate Distinct<T(!new)>(s: seq<Cell<T>>) { forall i, j :: 0 <= i < j < |s| ==> s[i] != s[j] }

  /** The cells `s`, in this order, are the list from `head`. */
  ghost predicate Chain<T(!new)>(head: Cell?<T>, s: seq<Cell<T>>)
    reads Cells(s)
  {
    Distinct(s) && head == At(s, 0) && forall i :: 0 <= i < |s| ==> s[i].next == At(s, i + 1)
  }

  ghost function Values<T(!new)>(s: seq<Cell<T>>): (v: seq<T>)
    ensures |v| == |s| && forall i :: 0 <= i < |s| ==> v[i] == s[i].value
  {
    seq(|s|, i requires 0 <= i < |s| => s[i].value)
  }

  ghost predicate Apart<T(!new)>(s: seq<Cell<T>>, t: seq<Cell<T>>) {
    forall i, j :: 0 <= i < |s| && 0 <= j < |t| ==> s[i] != t[j]
  }

  lemma ValuesConcat<T(!new)>(s: seq<Cell<T>>, t: seq<Cell<T>>)
    ensures Values(s + t) == Values(s) + Values(t)
  {
  }

  lemma ValuesTail<T(!new)>(s: seq<Cell<T>>)
    requires s != []
    ensures Values(s)[0] == s[0].value && Values(s[1..]) == Values(s)[1..]
  {
  }

  /** A list without its first cell. */
  lemma ChainTail<T(!new)>(head: Cell?<T>, s: seq<Cell<T>>)
    requires Chain(head, s) && s != []
    ensures head == s[0] && Chain(s[0].next, s[1..]) && (|s| == 1 <==> s[0].next == null)
  {
    assert forall i :: 0 <= i < |s| - 1 ==> s[1..][i] == s[i + 1];
  }

  /** What has been linked so far, ending in `ptr`, whose own link is still open. */
  ghost predicate Linked<T(!new)>(d: seq<Cell<T>>)
    reads d
  {
    d != [] && Distinct(d) && forall i :: 0 <= i < |d| - 1 ==> d[i].next == d[i + 1]
  }

  /** The state of the merge: the linked part and what is left of the two lists. */
  ghost predicate Merging<T(!new)>(d: seq<Cell<T>>, a: Cell?<T>, ra: seq<Cell<T>>, b: Cell?<T>, rb: seq<Cell<T>>)
    reads d, ra, rb
  {
    Linked(d) && Chain(a, ra) && Chain(b, rb) && Apart(d, ra) && Apart(d, rb) && Apart(ra, rb)
  }

  /** Linking one more cell, the first of a remaining list. */
  lemma Extend<T(!new)>(d: seq<Cell<T>>, a: Cell?<T>, ra: seq<Cell<T>>, b: Cell?<T>, rb: seq<Cell<T>>)
    requires Merging(d, a, ra, b, rb) && ra != [] && d[|d| - 1].next == ra[0]
    ensures Merging(d + [ra[0]], ra[0].next, ra[1..], b, rb)
  {
    ChainTail(a, ra);
    var e := d + [ra[0]];
    assert forall i :: 0 <= i < |d| ==> e[i] == d[i];
    assert e[|d|] == ra[0];
    assert forall i :: 0 <= i < |ra| - 1 ==> ra[1..][i] == ra[i + 1];
  }

  lemma Swapped<T(!new)>(d: seq<Cell<T>>, a: Cell?<T>, ra: seq<Cell<T>>, b: Cell?<T>, rb: seq<Cell<T>>)
    requires Merging(d, a, ra, b, rb)
    ensures Merging(d, b, rb, a, ra)
  {
  }

  /** The link is set, and nothing else changes. */
  method Link<T(!new)>(ptr: Cell<T>, to: Cell?<T>, ghost d: seq<Cell<T>>, ghost a: Cell?<T>, ghost ra: seq<Cell<T>>, ghost b: Cell?<T>, ghost rb: seq<Cell<T>>)
    requires Merging(d, a, ra, b, rb) && ptr == d[|d| - 1]
    modifies ptr
    ensures Merging(d, a, ra, b, rb) && ptr.next == to
  {
    ptr.next := to;
  }

  /** The last link closes the list. */
  lemma Close<T(!new)>(d: seq<Cell<T>>, a: Cell?<T>, ra: seq<Cell<T>>)
    requires Linked(d) && Chain(a, ra) && Apart(d, ra) && d[|d| - 1].next == a
    ensures Chain(d[0], d + ra)
  {
    var e := d + ra;
    assert forall i :: 0 <= i < |d| ==> e[i] == d[i];
    assert forall i :: |d| <= i < |e| ==> e[i] == ra[i - |d|];
  }

  lemma CellsConcat<T(!new)>(s: seq<Cell<T>>, t: seq<Cell<T>>)
    ensures Cells(s + t) == Cells(s) + Cells(t)
  {
  }

  lemma ApartIff<T(!new)>(s: seq<Cell<T>>, t: seq<Cell<T>>)
    ensures Apart(s, t) <==> Cells(s) !! Cells(t)
  {
    if Cells(s) !! Cells(t) {
      forall i, j | 0 <= i < |s| && 0 <= j < |t| ensures s[i] != t[j] {
        assert s[i] in Cells(s) && t[j] in Cells(t);
      }
    }
  }

  /** What is linked and what is left are the cells of the two lists, and in the order of the merge. */
  ghost predicate OnTheWay<T(!new)>(cmp: (T, T) -> int, d: seq<Cell<T>>, ra: seq<Cell<T>>, rb: seq<Cell<T>>, sa: seq<Cell<T>>, sb: seq<Cell<T>>) {
    && Cells(d) + Cells(ra) + Cells(rb) == Cells(sa) + Cells(sb) && |d| + |ra| + |rb| == |sa| + |sb|
    && Values(d) + Merged(cmp, Values(ra), Values(rb)) == Merged(cmp, Values(sa), Values(sb))
  }

  lemma TakeFirst<T(!new)>(cmp: (T, T) -> int, d: seq<Cell<T>>, ra: seq<Cell<T>>, rb: seq<Cell<T>>, sa: seq<Cell<T>>, sb: seq<Cell<T>>)
    requires OnTheWay(cmp, d, ra, rb, sa, sb) && ra != [] && rb != []
    ensures cmp(ra[0].value, rb[0].value) < 0 ==> OnTheWay(cmp, d + [ra[0]], ra[1..], rb, sa, sb)
    ensures cmp(ra[0].value, rb[0].value) >= 0 ==> OnTheWay(cmp, d + [rb[0]], ra, rb[1..], sa, sb)
  {
    hide Values, Merged, Cells;
    ValuesTail(ra);
    ValuesTail(rb);
    MergedStep(cmp, Values(ra), Values(rb));
    var c := if cmp(ra[0].value, rb[0].value) < 0 then ra[0] else rb[0];
    ValuesConcat(d, [c]);
    OneValue(c);
    CellsConcat(d, [c]);
    CellsTail(ra);
    CellsTail(rb);
    if cmp(ra[0].value, rb[0].value) < 0 {
      Regroup(Values(d), [c.value], Merged(cmp, Values(ra[1..]), Values(rb)));
    } else {
      Regroup(Values(d), [c.value], Merged(cmp, Values(ra), Values(rb[1..])));
    }
  }

  lemma OneValue<T(!new)>(c: Cell<T>)
    ensures Values([c]) == [c.value]
  {
  }

  lemma CellsTail<T(!new)>(s: seq<Cell<T>>)
    requires s != []
    ensures Cells(s) == Cells([s[0]]) + Cells(s[1..])
  {
    assert s == [s[0]] + s[1..];
    CellsConcat([s[0]], s[1..]);
  }

  lemma Arrived<T(!new)>(cmp: (T, T) -> int, d: seq<Cell<T>>, ra: seq<Cell<T>>, rb: seq<Cell<T>>, sa: seq<Cell<T>>, sb: seq<Cell<T>>)
    requires OnTheWay(cmp, d, ra, rb, sa, sb) && (ra == [] || rb == [])
    ensures var s := d + (if ra != [] then ra else rb);
            Values(s) == Merged(cmp, Values(sa), Values(sb)) && Cells(s) == Cells(sa) + Cells(sb) && |s| == |sa| + |sb|
  {
    var r := if ra != [] then ra else rb;
    MergedStep(cmp, Values(ra), Values(rb));
    ValuesConcat(d, r);
    CellsConcat(d, r);
    assert Cells(ra) + Cells(rb) == Cells(r);
  }

  /** merge: the cells of both lists are relinked in the order of the merge of their values. */
  method Merge<T(!new)>(cmp: (T, T) -> int, a0: Cell?<T>, b0: Cell?<T>, ghost sa: seq<Cell<T>>, ghost sb: seq<Cell<T>>)
    returns (head: Cell?<T>, ghost s: seq<Cell<T>>)
    requires Chain(a0, sa) && Chain(b0, sb) && Apart(sa, sb)
    modifies Cells(sa), Cells(sb)
    ensures Chain(head, s) && Values(s) == Merged(cmp, Values(sa), Values(sb))
    ensures Cells(s) == Cells(sa) + Cells(sb) && |s| == |sa| + |sb|
  {
    hide Values, Merged, Cells, OnTheWay, Merging;
    MergedStep(cmp, Values(sa), Values(sb));
    NoCells(sa, sb);
    if a0 == null {
      return b0, sb;
    }
    if b0 == null {
      return a0, sa;
    }
    Started(cmp, sa, sb);
    TakeFirst(cmp, [], sa, sb, sa, sb);
    if cmp(a0.value, b0.value) < 0 {
      BeginMerging(a0, sa, b0, sb);
      NilConcat([a0]);
      head, s := MergeOn(cmp, a0, a0, a0.next, b0, [a0], sa[1..], sb, sa, sb);
    } else {
      BeginMerging(b0, sb, a0, sa);
      NilConcat([b0]);
      Swapped([b0], b0.next, sb[1..], a0, sa);
      head, s := MergeOn(cmp, b0, b0, a0, b0.next, [b0], sa, sb[1..], sa, sb);
    }
  }

  /** The loop of merge, once there is a first cell. */
  method MergeOn<T(!new)>(cmp: (T, T) -> int, head0: Cell<T>, ptr0: Cell<T>, a0: Cell?<T>, b0: Cell?<T>,
                          ghost d0: seq<Cell<T>>, ghost ra0: seq<Cell<T>>, ghost rb0: seq<Cell<T>>,
                          ghost sa: seq<Cell<T>>, ghost sb: seq<Cell<T>>)
    returns (head: Cell?<T>, ghost s: seq<Cell<T>>)
    requires Merging(d0, a0, ra0, b0, rb0) && OnTheWay(cmp, d0, ra0, rb0, sa, sb) && head0 == d0[0] && ptr0 == d0[|d0| - 1]
    modifies Cells(sa), Cells(sb)
    ensures Chain(head, s) && Values(s) == Merged(cmp, Values(sa), Values(sb))
    ensures Cells(s) == Cells(sa) + Cells(sb) && |s| == |sa| + |sb|
  {
    hide Values, Merged, Cells, OnTheWay, Merging, Chain;
    var ptr: Cell<T>, a: Cell?<T>, b: Cell?<T> := ptr0, a0, b0;
    ghost var d: seq<Cell<T>>, ra: seq<Cell<T>>, rb: seq<Cell<T>> := d0, ra0, rb0;
    Heads(d, a, ra, b, rb);
    head := head0;
    while a != null && b != null
      invariant Merging(d, a, ra, b, rb) && d != [] && ptr == d[|d| - 1] && head == d[0]
      invariant OnTheWay(cmp, d, ra, rb, sa, sb)
      decreases |ra| + |rb|
    {
      Heads(d, a, ra, b, rb);
      TakeFirst(cmp, d, ra, rb, sa, sb);
      Within(cmp, d, ra, rb, sa, sb, |d| - 1);
      if cmp(a.value, b.value) < 0 {
        Link(ptr, a, d, a, ra, b, rb);
        Extend(d, a, ra, b, rb);
        ptr := a;
        d, ra := d + [a], ra[1..];
        a := a.next;
      } else {
        Link(ptr, b, d, a, ra, b, rb);
        Swapped(d, a, ra, b, rb);
        Extend(d, b, rb, a, ra);
        Swapped(d + [b], b.next, rb[1..], a, ra);
        ptr := b;
        d, rb := d + [b], rb[1..];
        b := b.next;
      }
    }
    Heads(d, a, ra, b, rb);
    Arrived(cmp, d, ra, rb, sa, sb);
    Within(cmp, d, ra, rb, sa, sb, |d| - 1);
    if a != null {
      Link(ptr, a, d, a, ra, b, rb);
      Finish(d, a, ra, b, rb);
      s := d + ra;
    } else {
      Link(ptr, b, d, a, ra, b, rb);
      Swapped(d, a, ra, b, rb);
      Finish(d, b, rb, a, ra);
      s := d + rb;
    }
  }

  lemma Within<T(!new)>(cmp: (T, T) -> int, d: seq<Cell<T>>, ra: seq<Cell<T>>, rb: seq<Cell<T>>, sa: seq<Cell<T>>, sb: seq<Cell<T>>, i: nat)
    requires OnTheWay(cmp, d, ra, rb, sa, sb) && i < |d|
    ensures d[i] in Cells(sa) || d[i] in Cells(sb)
  {
    assert d[i] in Cells(d);
    assert d[i] in Cells(sa) + Cells(sb);
  }

  lemma NoCells<T(!new)>(sa: seq<Cell<T>>, sb: seq<Cell<T>>)
    ensures sa == [] ==> Cells(sa) == {} && Values(sa) == []
    ensures sb == [] ==> Cells(sb) == {} && Values(sb) == []
  {
  }

  lemma Started<T(!new)>(cmp: (T, T) -> int, sa: seq<Cell<T>>, sb: seq<Cell<T>>)
    ensures OnTheWay(cmp, [], sa, sb, sa, sb)
  {
    NilConcat(Merged(cmp, Values(sa), Values(sb)));
    assert Values<T>([]) == [] && Cells<T>([]) == {};
  }

  lemma BeginMerging<T(!new)>(a: Cell?<T>, sa: seq<Cell<T>>, b: Cell?<T>, sb: seq<Cell<T>>)
    requires Chain(a, sa) && Chain(b, sb) && (Apart(sa, sb) || Apart(sb, sa)) && sa != []
    ensures a == sa[0] && Merging([sa[0]], sa[0].next, sa[1..], b, sb)
  {
    ChainTail(a, sa);
    assert forall i :: 0 <= i < |sa| - 1 ==> sa[1..][i] == sa[i + 1];
  }

  lemma Heads<T(!new)>(d: seq<Cell<T>>, a: Cell?<T>, ra: seq<Cell<T>>, b: Cell?<T>, rb: seq<Cell<T>>)
    requires Merging(d, a, ra, b, rb)
    ensures d != [] && (if a == null then ra == [] else ra != [] && a == ra[0]) && (if b == null then rb == [] else rb != [] && b == rb[0])
  {
  }

  lemma Finish<T(!new)>(d: seq<Cell<T>>, a: Cell?<T>, ra: seq<Cell<T>>, b: Cell?<T>, rb: seq<Cell<T>>)
    requires Merging(d, a, ra, b, rb) && d[|d| - 1].next == a
    ensures Chain(d[0], d + ra)
  {
    Close(d, a, ra);
  }

  // -------------------------------------------------------------------- bins

  ghost function AllCells<T(!new)>(cells: seq<seq<Cell<T>>>): set<Cell<T>> {
    set i, j | 0 <= i < |cells| && 0 <= j < |cells[i]| :: cells[i][j]
  }

  /** Bin i is the head of the list of cells[i]; no cell is in two bins. */
  ghost predicate Binned<T(!new)>(bins: seq<Cell?<T>>, cells: seq<seq<Cell<T>>>)
    reads AllCells(cells)
  {
    && |bins| == |cells|
    && (forall i :: 0 <= i < |bins| ==> Chain(bins[i], cells[i]))
    && (forall i, j :: 0 <= i < j < |bins| ==> Apart(cells[i], cells[j]))
  }

  ghost function Contents<T(!new)>(cells: seq<seq<Cell<T>>>): (v: seq<seq<T>>)
    ensures |v| == |cells| && forall i :: 0 <= i < |cells| ==> v[i] == Values(cells[i])
  {
    seq(|cells|, i requires 0 <= i < |cells| => Values(cells[i]))
  }

  lemma BinAt<T(!new)>(bins: seq<Cell?<T>>, cells: seq<seq<Cell<T>>>, i: nat)
    requires Binned(bins, cells) && i < |bins|
    ensures Chain(bins[i], cells[i]) && Cells(cells[i]) <= AllCells(cells) && (bins[i] == null <==> cells[i] == []) && |Contents(cells)[i]| == |cells[i]|
  {
  }

  /** One bin is replaced by a list apart from all the others. */
  lemma Rebinned<T(!new)>(bins: seq<Cell?<T>>, cells: seq<seq<Cell<T>>>, i: nat, head: Cell?<T>, es: seq<Cell<T>>)
    requires Binned(bins, cells) && i < |bins| && Chain(head, es)
    requires forall j :: 0 <= j < |cells| && j != i ==> Apart(cells[j], es)
    ensures Binned(bins[i := head], cells[i := es]) && AllCells(cells[i := es]) <= AllCells(cells) + Cells(es)
    ensures Contents(cells[i := es]) == Contents(cells)[i := Values(es)]
  {
    var cs := cells[i := es];
    forall c | c in AllCells(cs) ensures c in AllCells(cells) + Cells(es) {
      var k, j :| 0 <= k < |cs| && 0 <= j < |cs[k]| && cs[k][j] == c;
      if k == i { assert c in Cells(es); } else { assert cells[k][j] == c; }
    }
  }

  lemma NoChain<T(!new)>()
    ensures Chain<T>(null, []) && Values<T>([]) == [] && Cells<T>([]) == {}
  {
  }

  /** Merging a list into bin i touches no other bin. */
  method MergeBin<T(!new)>(cmp: (T, T) -> int, ep0: Cell?<T>, bins: array<Cell?<T>>, i: nat, ghost es0: seq<Cell<T>>, ghost cells: seq<seq<Cell<T>>>)
    returns (ep: Cell?<T>, ghost es: seq<Cell<T>>)
    requires Binned(bins[..], cells) && i < bins.Length && Chain(ep0, es0) && Cells(es0) !! AllCells(cells)
    modifies bins, Cells(es0), AllCells(cells)
    ensures Binned(bins[..], cells[i := []]) && Chain(ep, es) && Cells(es) !! AllCells(cells[i := []])
    ensures Values(es) == Merged(cmp, Values(es0), Values(cells[i])) && Cells(es) == Cells(es0) + Cells(cells[i])
    ensures bins[..] == old(bins[..])[i := null]
  {
    hide Merged, Chain, Values, Binned, Apart;
    BinLength(bins[..], cells);
    BinAt(bins[..], cells, i);
    ApartIff(es0, cells[i]);
    ghost var before, heads := bins[..], bins[..][i := null];
    SplitBins(bins[..], cells, i);
    ep, es := Merge(cmp, ep0, bins[i], es0, cells[i]);
    assert Binned(heads, cells[i := []]);
    bins[i] := null;
    assert bins[..] == heads;
  }

  /** Without bin i, the bins live in cells of their own. */
  lemma SplitBins<T(!new)>(bins: seq<Cell?<T>>, cells: seq<seq<Cell<T>>>, i: nat)
    requires Binned(bins, cells) && i < |bins|
    ensures Binned(bins[i := null], cells[i := []]) && AllCells(cells[i := []]) !! Cells(cells[i]) && AllCells(cells[i := []]) <= AllCells(cells)
  {
    NoChain<T>();
    Rebinned(bins, cells, i, null, []);
    var cs := cells[i := []];
    forall c | c in AllCells(cs) ensures c !in Cells(cells[i]) {
      var k, j :| 0 <= k < |cs| && 0 <= j < |cs[k]| && cs[k][j] == c;
      assert k != i && cells[k][j] == c;
      forall l | 0 <= l < |cells[i]| ensures cells[i][l] != c {
        assert if k < i then Apart(cells[k], cells[i]) else Apart(cells[i], cells[k]);
      }
    }
  }

  lemma OneCell<T(!new)>(x: Cell<T>)
    requires x.next == null
    ensures Chain(x, [x]) && Values([x]) == [x.value] && Cells([x]) == {x}
  {
  }

  /** A list apart from all bins takes the place of bin i. */
  lemma Place<T(!new)>(bins: seq<Cell?<T>>, cells: seq<seq<Cell<T>>>, i: nat, head: Cell?<T>, es: seq<Cell<T>>)
    requires Binned(bins, cells) && i < |bins| && Chain(head, es) && Cells(es) !! AllCells(cells)
    ensures Binned(bins[i := head], cells[i := es]) && AllCells(cells[i := es]) <= AllCells(cells) + Cells(es)
    ensures Contents(cells[i := es]) == Contents(cells)[i := Values(es)]
  {
    forall j | 0 <= j < |cells| && j != i ensures Apart(cells[j], es) {
      BinAt(bins, cells, j);
      ApartIff(cells[j], es);
    }
    Rebinned(bins, cells, i, head, es);
  }

  /** What holds while cell x is carried, in terms of the values; see MergeSort. */
  ghost predicate Carried<T(!new)>(cmp: (T, T) -> int, x: T, bins: seq<seq<T>>, parts: seq<seq<T>>, bins': seq<seq<T>>, parts': seq<seq<T>>,
                                   ep: seq<T>, part: seq<T>, i: nat)
  {
    && |bins| == |parts| == |bins'| == |parts'| >= 1
    && Carrying(cmp, bins', parts', ep, part, i)
    && Counter(bins', 0) + Pow2(i) == Counter(bins, 0) + 1
    && Held(parts', 0) + part == Held(parts, 0) + [x]
    && bins'[|bins| - 1] == bins[|bins| - 1] && parts'[|bins| - 1] == parts[|bins| - 1]
  }

  lemma CarriedStart<T(!new)>(cmp: (T, T) -> int, x: T, bins: seq<seq<T>>, parts: seq<seq<T>>)
    requires Preorder(cmp) && BinsOk(cmp, bins, parts)
    ensures Carried(cmp, x, bins, parts, bins, parts, [x], [x], 0)
  {
    OneStable(cmp, x);
  }

  lemma OneStable<T(!new)>(cmp: (T, T) -> int, x: T)
    ensures StableSortOf(cmp, [x], [x])
  {
  }

  lemma CarriedStep<T(!new)>(cmp: (T, T) -> int, x: T, bins: seq<seq<T>>, parts: seq<seq<T>>, bins': seq<seq<T>>, parts': seq<seq<T>>,
                             ep: seq<T>, part: seq<T>, i: nat)
    requires Preorder(cmp) && Carried(cmp, x, bins, parts, bins', parts', ep, part, i) && i < |bins| - 1 && bins'[i] != []
    ensures Carried(cmp, x, bins, parts, bins'[i := []], parts'[i := []], Merged(cmp, ep, bins'[i]), parts'[i] + part, i + 1)
  {
    hide Preorder, StableSortOf, BinsOk, Merged, Counter, Held;
    CarryStep(cmp, bins', parts', ep, part, i);
  }

  /** The result of carrying x, with the cases of MergeSort.Carry. */
  ghost predicate CarriedTo<T(!new)>(cmp: (T, T) -> int, x: T, bins: seq<seq<T>>, parts: seq<seq<T>>, bins': seq<seq<T>>, parts': seq<seq<T>>) {
    && |bins| == |parts| == |bins'| == |parts'| >= 1 && BinsOk(cmp, bins', parts')
    && (Counter(bins, 0) + 1 < Pow2(|bins| - 1) ==>
          && Counter(bins', 0) == Counter(bins, 0) + 1 && bins'[|bins| - 1] == bins[|bins| - 1]
          && Held(parts', 0) == Held(parts, 0) + [x])
    && (Counter(bins, 0) + 1 == Pow2(|bins| - 1) ==>
          && Counter(bins', 0) == 0 && bins'[|bins| - 1] != []
          && Held(parts, 0) + [x] == parts[|bins| - 1] + Held(parts', 0))
  }

  lemma CarriedEnd<T(!new)>(cmp: (T, T) -> int, x: T, bins: seq<seq<T>>, parts: seq<seq<T>>, bins': seq<seq<T>>, parts': seq<seq<T>>,
                            ep: seq<T>, part: seq<T>, i: nat)
    requires Preorder(cmp) && Carried(cmp, x, bins, parts, bins', parts', ep, part, i) && (i == |bins| - 1 || bins'[i] == [])
    ensures CarriedTo(cmp, x, bins, parts, bins'[i := ep], parts'[i := part])
  {
    hide Preorder, StableSortOf, BinsOk, Counter, Held;
    CarryPlace(cmp, bins', parts', ep, part, i);
  }

  /** One round of msort: the first cell of the list enters the bins. */
  method Carry<T(!new)>(cmp: (T, T) -> int, x: Cell<T>, bins: array<Cell?<T>>, ghost cells: seq<seq<Cell<T>>>, ghost parts: seq<seq<T>>)
    returns (ghost cells': seq<seq<Cell<T>>>, ghost parts': seq<seq<T>>)
    requires Preorder(cmp) && bins.Length >= 1 && Binned(bins[..], cells) && x.next == null && x !in AllCells(cells)
    requires BinsOk(cmp, Contents(cells), parts)
    modifies bins, AllCells(cells), x
    ensures Binned(bins[..], cells') && AllCells(cells') <= AllCells(cells) + {x} && |cells'| == |parts'| == bins.Length
    ensures CarriedTo(cmp, x.value, Contents(cells), parts, Contents(cells'), parts')
  {
    hide Preorder, BinsOk, Merged, Carried, CarriedTo, Chain, AllCells, Cells, Values, Binned;
    CarriedStart(cmp, x.value, Contents(cells), parts);
    OneCell(x);
    var ep: Cell?<T> := x;
    ghost var es, part := [x], [x.value];
    cells', parts' := cells, parts;
    var i := 0;
    BinLength(bins[..], cells);
    while i < bins.Length - 1 && bins[i] != null
      invariant i <= bins.Length - 1 && Binned(bins[..], cells') && |cells'| == bins.Length && |parts'| == bins.Length
      invariant Chain(ep, es) && Cells(es) !! AllCells(cells') && Cells(es) + AllCells(cells') <= AllCells(cells) + {x}
      invariant Carried(cmp, x.value, Contents(cells), parts, Contents(cells'), parts', Values(es), part, i)
    {
      Filled(bins[..], cells', i);
      CarriedStep(cmp, x.value, Contents(cells), parts, Contents(cells'), parts', Values(es), part, i);
      SplitBins(bins[..], cells', i);
      CellsWithin(cells', i);
      EmptyContents(cells', i);
      ep, es := MergeBin(cmp, ep, bins, i, es, cells');
      part, parts', cells' := parts'[i] + part, parts'[i := []], cells'[i := []];
      i := i + 1;
    }
    Filled(bins[..], cells', i);
    CarriedEnd(cmp, x.value, Contents(cells), parts, Contents(cells'), parts', Values(es), part, i);
    Place(bins[..], cells', i, ep, es);
    ghost var before := bins[..];
    bins[i] := ep;
    assert bins[..] == before[i := ep];
    cells', parts' := cells'[i := es], parts'[i := part];
  }

  lemma BinLength<T(!new)>(bins: seq<Cell?<T>>, cells: seq<seq<Cell<T>>>)
    requires Binned(bins, cells)
    ensures |bins| == |cells|
  {
  }

  lemma Filled<T(!new)>(bins: seq<Cell?<T>>, cells: seq<seq<Cell<T>>>, i: nat)
    requires Binned(bins, cells) && i < |bins|
    ensures |cells| == |bins| && (bins[i] == null <==> Contents(cells)[i] == [])
  {
    BinAt(bins, cells, i);
  }

  lemma CellsWithin<T(!new)>(cells: seq<seq<Cell<T>>>, i: nat)
    requires i < |cells|
    ensures Cells(cells[i]) <= AllCells(cells)
  {
  }

  lemma EmptyContents<T(!new)>(cells: seq<seq<Cell<T>>>, i: nat)
    requires i < |cells|
    ensures Contents(cells[i := []]) == Contents(cells)[i := []]
  {
    NoChain<T>();
  }

  /** The last pass: the bins are merged into one list, from the newest elements to the oldest. */
  method Collect<T(!new)>(cmp: (T, T) -> int, bins: array<Cell?<T>>, ghost cells: seq<seq<Cell<T>>>, ghost parts: seq<seq<T>>)
    returns (ep: Cell?<T>, ghost es: seq<Cell<T>>)
    requires Preorder(cmp) && Binned(bins[..], cells) && BinsOk(cmp, Contents(cells), parts)
    modifies bins, AllCells(cells)
    ensures Chain(ep, es) && Cells(es) <= AllCells(cells) && StableSortOf(cmp, Values(es), Held(parts, 0))
  {
    hide Preorder, Merged, Chain, AllCells, Cells, Values, Binned, StableSortOf, Held, BinsOk;
    NoChain<T>();
    EmptyStable(cmp);
    ep := null;
    es := [];
    ghost var part: seq<T>, cs := [], cells;
    var i := 0;
    BinLength(bins[..], cells);
    ContentsCount(cmp, Contents(cells), parts);
    NilConcat(Held(parts, 0));
    while i < bins.Length
      invariant i <= bins.Length == |cs| == |cells| == |parts| && Binned(bins[..], cs)
      invariant Chain(ep, es) && Cells(es) !! AllCells(cs) && Cells(es) + AllCells(cs) <= AllCells(cells)
      invariant forall j :: i <= j < |cells| ==> cs[j] == cells[j]
      invariant StableSortOf(cmp, Values(es), part) && Held(parts, i) + part == Held(parts, 0)
    {
      Filled(bins[..], cs, i);
      Collected(cmp, Contents(cells), parts, Values(es), part, i);
      if bins[i] != null {
        SplitBins(bins[..], cs, i);
        CellsWithin(cs, i);
        ep, es := MergeBin(cmp, ep, bins, i, es, cs);
        cs := cs[i := []];
      }
      part := parts[i] + part;
      i := i + 1;
    }
    Uncollected(parts);
    NilConcat(part);
  }

  lemma Uncollected<T(!new)>(parts: seq<seq<T>>)
    ensures Held(parts, |parts|) == []
  {
  }

  /** One bin more is merged in, or was empty. */
  lemma Collected<T(!new)>(cmp: (T, T) -> int, bins: seq<seq<T>>, parts: seq<seq<T>>, ep: seq<T>, part: seq<T>, i: nat)
    requires Preorder(cmp) && BinsOk(cmp, bins, parts) && i < |bins| == |parts| && StableSortOf(cmp, ep, part)
    ensures Held(parts, i + 1) + (parts[i] + part) == Held(parts, i) + part
    ensures if bins[i] == [] then StableSortOf(cmp, ep, parts[i] + part) else StableSortOf(cmp, Merged(cmp, ep, bins[i]), parts[i] + part)
  {
    hide Preorder, StableSortOf, Merged;
    Regroup(Held(parts, i + 1), parts[i], part);
    if bins[i] == [] {
      NilConcat(part);
    } else {
      MergedStable(cmp, ep, bins[i], part, parts[i]);
    }
  }

  lemma ContentsCount<T(!new)>(cmp: (T, T) -> int, bins: seq<seq<T>>, parts: seq<seq<T>>)
    requires BinsOk(cmp, bins, parts)
    ensures |bins| == |parts| >= 1
  {
  }

  /** The cells go into the bins one by one, then come out as one list. */
  method SortWithBins<T(!new)>(cmp: (T, T) -> int, list0: Cell?<T>, size: nat, ghost s: seq<Cell<T>>)
    returns (ep: Cell?<T>, ghost es: seq<Cell<T>>)
    requires Preorder(cmp) && size >= 1 && Chain(list0, s)
    modifies Cells(s)
    ensures Chain(ep, es) && Cells(es) <= Cells(s) && Kept(size, |s|) <= |s|
    ensures StableSortOf(cmp, Values(es), Values(s)[|s| - Kept(size, |s|)..])
  {
    hide Preorder, Merged, Chain, AllCells, Values, Binned, StableSortOf, Held, BinsOk, Filling, CarriedTo, Kept;
    var bins := new Cell?<T>[size](_ => null);
    ghost var cells: seq<seq<Cell<T>>> := seq(size, _ => []);
    ghost var parts: seq<seq<T>> := seq(size, _ => []);
    ghost var dropped: nat, rest, vs := 0, s, Values(s);
    AllEmpty(bins[..], cells);
    FillingStart(cmp, Contents(cells), parts, vs);
    var list := list0;
    assert s[0..] == s;
    ghost var n := 0;
    while list != null
      invariant n <= |s| && Chain(list, rest) && rest == s[n..] && |cells| == |parts| == size
      invariant Binned(bins[..], cells) && AllCells(cells) !! Cells(rest) && AllCells(cells) <= Cells(s) && Cells(rest) <= Cells(s)
      invariant Filling(cmp, Contents(cells), parts, vs, n, dropped)
      decreases |rest|
    {
      Ended(list, rest);
      ghost var before, partsBefore := cells, parts;
      FillingBelow(cmp, Contents(cells), parts, vs, n, dropped);
      var x := list;
      list := Detach(x, rest);
      rest := rest[1..];
      cells, parts := Carry(cmp, x, bins, cells, parts);
      dropped := Refilled(cmp, x.value, Contents(before), partsBefore, Contents(cells), parts, vs, n, dropped);
      n := n + 1;
    }
    Ended(list, rest);
    FillingDone(cmp, Contents(cells), parts, vs, dropped);
    ep, es := Collect(cmp, bins, cells, parts);
  }

  lemma AllEmpty<T(!new)>(bins: seq<Cell?<T>>, cells: seq<seq<Cell<T>>>)
    requires |bins| == |cells| && (forall i :: 0 <= i < |bins| ==> bins[i] == null && cells[i] == [])
    ensures Binned(bins, cells) && AllCells(cells) == {} && forall i :: 0 <= i < |cells| ==> Contents(cells)[i] == []
  {
  }

  lemma Ended<T(!new)>(list: Cell?<T>, rest: seq<Cell<T>>)
    requires Chain(list, rest)
    ensures (list == null <==> rest == []) && (rest != [] ==> list == rest[0] && list in Cells(rest))
  {
  }

  /** The first cell leaves the list. */
  method Detach<T(!new)>(x: Cell<T>, ghost rest: seq<Cell<T>>) returns (list: Cell?<T>)
    requires rest != [] && Chain(x, rest)
    modifies x
    ensures x == rest[0] && x.next == null && Chain(list, rest[1..])
    ensures x in Cells(rest) && Cells(rest[1..]) <= Cells(rest) && x !in Cells(rest[1..])
  {
    ChainTail(x, rest);
    assert forall i :: 0 <= i < |rest| - 1 ==> rest[1..][i] == rest[i + 1];
    list := x.next;
    x.next := null;
  }

  /** What the bins hold of the list after one element more. */
  lemma Refilled<T(!new)>(cmp: (T, T) -> int, x: T, bins: seq<seq<T>>, parts: seq<seq<T>>, bins': seq<seq<T>>, parts': seq<seq<T>>,
                          vs: seq<T>, n: nat, dropped: nat)
    returns (dropped': nat)
    requires Preorder(cmp) && Filling(cmp, bins, parts, vs, n, dropped) && n < |vs| && x == vs[n]
    requires CarriedTo(cmp, x, bins, parts, bins', parts')
    ensures Filling(cmp, bins', parts', vs, n + 1, dropped')
  {
    hide Preorder, BinsOk, Filling, Counter, Held;
    FillingBelow(cmp, bins, parts, vs, n, dropped);
    if Counter(bins, 0) + 1 == Pow2(|bins| - 1) {
      FillingStep(cmp, bins, parts, vs, n, dropped, bins', parts');
      dropped' := dropped + |bins[|bins| - 1]|;
    } else {
      FillingKeeps(cmp, bins, parts, vs, n, dropped, bins', parts');
      dropped' := dropped;
    }
  }

  /**
    msort on a linked list: the list returned consists of cells of the given one, and
    its values are the stable sort of the last Kept(LISTSIZE, n) values, which is all
    of them, with all cells, exactly below 2^LISTSIZE.
   */
  method MSort<T(!new)>(cmp: (T, T) -> int, list: Cell?<T>, ghost s: seq<Cell<T>>)
    returns (ep: Cell?<T>, ghost es: seq<Cell<T>>)
    requires Preorder(cmp) && Chain(list, s)
    modifies Cells(s)
    ensures Chain(ep, es) && Cells(es) <= Cells(s) && Kept(LISTSIZE, |s|) <= |s|
    ensures StableSortOf(cmp, Values(es), Values(s)[|s| - Kept(LISTSIZE, |s|)..])
    ensures |s| < Pow2(LISTSIZE) ==> StableSortOf(cmp, Values(es), Values(s)) && Cells(es) == Cells(s)
  {
    hide Preorder, Chain, Cells, Values, StableSortOf, Kept;
    AllKept(cmp, list, s);
    ep, es := SortWithBins(cmp, list, LISTSIZE, s);
    if |s| < Pow2(LISTSIZE) {
      assert Values(s)[0..] == Values(s);
      StableSortLength(cmp, Values(es), Values(s));
      SameCells(ep, es, list, s);
    }
  }

  lemma AllKept<T(!new)>(cmp: (T, T) -> int, list: Cell?<T>, s: seq<Cell<T>>)
    requires Chain(list, s)
    ensures Distinct(s) && (|s| < Pow2(LISTSIZE) ==> Kept(LISTSIZE, |s|) == |s|)
  {
    KeptAllIff(LISTSIZE, |s|);
  }

  /** As many distinct cells out of the same set are all of them. */
  lemma SameCells<T(!new)>(ep: Cell?<T>, es: seq<Cell<T>>, list: Cell?<T>, s: seq<Cell<T>>)
    requires Chain(ep, es) && Distinct(s) && Cells(es) <= Cells(s) && |es| == |s|
    ensures Cells(es) == Cells(s)
  {
    CellCount(es);
    CellCount(s);
    SubsetSameSize(Cells(es), Cells(s));
  }

  lemma {:induction false} CellCount<T(!new)>(s: seq<Cell<T>>)
    requires Distinct(s)
    ensures |Cells(s)| == |s|
  {
    if s == [] {
      assert Cells(s) == {};
    } else {
      var n := |s| - 1;
      CellCount(s[..n]);
      assert s == s[..n] + [s[n]];
      assert Cells(s) == Cells(s[..n]) + {s[n]};
      assert s[n] !in s[..n];
    }
  }

  // -------------------------------------------------------------- on sequences

  lemma Pushed<T(!new)>(head: Cell?<T>, s: seq<Cell<T>>, c: Cell<T>)
    requires Chain(head, s) && c !in Cells(s) && c.next == head
    ensures Chain(c, [c] + s) && Values([c] + s) == [c.value] + Values(s) && Cells([c] + s) == {c} + Cells(s)
  {
    var t := [c] + s;
    assert forall i :: 0 < i < |t| ==> t[i] == s[i - 1];
  }

  /** A list of fresh cells with the given values. */
  method Build<T(!new)>(list: seq<T>) returns (head: Cell?<T>, ghost s: seq<Cell<T>>)
    ensures Chain(head, s) && Values(s) == list && fresh(Cells(s))
  {
    hide Chain, Values;
    NoChain<T>();
    head, s := null, [];
    var i := |list|;
    assert list[i..] == [];
    while i > 0
      invariant 0 <= i <= |list| && Chain(head, s) && Values(s) == list[i..] && fresh(Cells(s))
    {
      i := i - 1;
      var c := new Cell(list[i]);
      c.next := head;
      Pushed(head, s, c);
      assert list[i..] == [list[i]] + list[i + 1..];
      head, s := c, [c] + s;
    }
    assert list[0..] == list;
  }

  /** The values of a list. */
  method Read<T(!new)>(head: Cell?<T>, ghost s: seq<Cell<T>>) returns (v: seq<T>)
    requires Chain(head, s)
    ensures v == Values(s)
  {
    v := [];
    var c := head;
    ghost var i := 0;
    while c != null
      invariant i <= |s| && c == At(s, i) && v == Values(s)[..i]
      decreases |s| - i
    {
      v := v + [c.value];
      c := c.next;
      i := i + 1;
    }
  }

  /** msort on a list that is given by its values. */
  method SortSequence<T(!new)>(cmp: (T, T) -> int, list: seq<T>) returns (r: seq<T>)
    requires Preorder(cmp)
    ensures Kept(LISTSIZE, |list|) <= |list|
    ensures StableSortOf(cmp, r, list[|list| - Kept(LISTSIZE, |list|)..])
  {
    hide Preorder, Chain, Values, StableSortOf, Kept;
    var head;
    ghost var s;
    head, s := Build(list);
    var ep;
    ghost var es;
    ep, es := MSort(cmp, head, s);
    r := Read(ep, es);
  }
}
