/**
  Lemon's overlaid action table (lemon.c, "acttab"): sparse rows of
  (lookahead, action) pairs share one array, and the generated parser probes it
  at `offset + lookahead`.
 */
module ActionTable {
  import opened Basics

  /** A slot with a negative lookahead is free. */
  datatype Slot = Slot(lookahead: int, action: int)

  const FREE := Slot(-1, -1)

  /** Probing `t` at offset `o` for lookahead `la` succeeds. */
  ghost predicate Hit(t: seq<Slot>, o: int, la: int) {
    0 <= la && 0 <= o + la < |t| && t[o + la].lookahead == la
  }

  /** Everything the generated parser can find in `t` at offset `o`: the lookaheads that hit, with their actions. */
  ghost function Hits(t: seq<Slot>, o: int): map<int, int> {
    map la | 0 <= la < |t| - o && Hit(t, o, la) :: t[o + la].action
  }

  ghost function RowMap(row: seq<Slot>): map<int, int> {
    if row == [] then map[] else RowMap(row[..|row| - 1])[row[|row| - 1].lookahead := row[|row| - 1].action]
  }

  ghost predicate ValidRow(row: seq<Slot>) {
    && (forall j :: 0 <= j < |row| ==> row[j].lookahead >= 0)
    && (forall j, k :: 0 <= j < k < |row| ==> row[j].lookahead != row[k].lookahead)
  }

  lemma {:induction false} RowMapEntries(row: seq<Slot>)
    requires ValidRow(row)
    ensures forall j :: 0 <= j < |row| ==> row[j].lookahead in RowMap(row) && RowMap(row)[row[j].lookahead] == row[j].action
    ensures forall la :: la in RowMap(row) ==> exists j :: 0 <= j < |row| && row[j].lookahead == la
    ensures |RowMap(row)| == |row|
  {
    if row != [] {
      var init, last := row[..|row| - 1], row[|row| - 1];
      RowMapEntries(init);
      assert last.lookahead !in RowMap(init);
      assert forall j :: 0 <= j < |init| ==> init[j] == row[j];
    }
  }

  // ------------------------------------------------------ when a place is good

  /** Every slot the row would take, with its least lookahead `mn` at index i, is free. */
  ghost predicate RowFits(t: seq<Slot>, row: seq<Slot>, mn: int, i: int) {
    forall j :: 0 <= j < |row| ==>
      var k := row[j].lookahead - mn + i; 0 <= k && (k < |t| ==> t[k].lookahead < 0)
  }

  /** No slot of the table, free ones included, carries the lookahead that offset i - mn would look for there. */
  ghost predicate NothingAligned(t: seq<Slot>, mn: int, i: int) {
    forall j :: 0 <= j < |t| ==> t[j].lookahead != j + mn - i
  }

  /** The row can go, or already is, at index i. */
  ghost predicate GoodPlace(t: seq<Slot>, row: seq<Slot>, mn: int, i: int) {
    || (RowFits(t, row, mn, i) && NothingAligned(t, mn, i))
    || Hits(t, i - mn) == RowMap(row)
  }

  /** i is the first good place, or, if there is none inside the table, its end. */
  ghost predicate FirstGoodPlace(t: seq<Slot>, row: seq<Slot>, mn: int, i: int) {
    && 0 <= i <= |t| + mn
    && (forall q :: 0 <= q < i ==> !GoodPlace(t, row, mn, q))
    && (i < |t| + mn ==> GoodPlace(t, row, mn, i))
  }

  ghost function Least(row: seq<Slot>): int
    requires row != []
  {
    if |row| == 1 then row[0].lookahead
    else
      var m := Least(row[..|row| - 1]);
      if m > row[|row| - 1].lookahead then row[|row| - 1].lookahead else m
  }

  /** (mn, mnAction) is the entry of least lookahead, and mx the greatest lookahead. */
  ghost predicate Extremes(row: seq<Slot>, mn: int, mnAction: int, mx: int)
    requires row != []
  {
    && mn == Least(row)
    && Slot(mn, mnAction) in row
    && (forall j :: 0 <= j < |row| ==> mn <= row[j].lookahead <= mx)
  }

  lemma ExtremesNext(row: seq<Slot>, mn: int, mnAction: int, mx: int, e: Slot)
    requires row == [] || Extremes(row, mn, mnAction, mx)
    ensures row == [] ==> Extremes(row + [e], e.lookahead, e.action, e.lookahead)
    ensures row != [] ==>
              var mx' := if mx < e.lookahead then e.lookahead else mx;
              if mn > e.lookahead then Extremes(row + [e], e.lookahead, e.action, mx')
              else Extremes(row + [e], mn, mnAction, mx')
  {
    assert (row + [e])[..|row|] == row;
    assert (row + [e])[|row|] == e;
  }

  // ------------------------------------------------------------- pure lemmas

  /** Writing one entry aligned with offset `o` into a free slot changes what offset `o` finds, and nothing else. */
  lemma PutAligned(t: seq<Slot>, k: nat, e: Slot, o: int)
    requires k < |t| && e.lookahead == k - o && e.lookahead >= 0
    requires t[k].lookahead < 0 || t[k] == e
    ensures Hits(t[k := e], o) == Hits(t, o)[e.lookahead := e.action]
    ensures forall other :: other != o ==> Hits(t[k := e], other) == Hits(t, other)
  {
    var t' := t[k := e];
    assert forall la :: Hit(t', o, la) <==> Hit(t, o, la) || la == e.lookahead;
    forall other | other != o ensures Hits(t', other) == Hits(t, other) {
      assert forall la :: Hit(t', other, la) <==> Hit(t, other, la);
    }
  }

  /** Each entry's slot, at offset `o`, is free or already holds that entry. */
  ghost predicate CanLay(t: seq<Slot>, row: seq<Slot>, o: int) {
    forall j :: 0 <= j < |row| ==>
      var k := row[j].lookahead + o; 0 <= k < |t| && (t[k].lookahead < 0 || t[k] == row[j])
  }

  /** The table after the row has been written at offset `o`, entry by entry. */
  ghost function Laid(t: seq<Slot>, row: seq<Slot>, o: int): (t': seq<Slot>)
    requires CanLay(t, row, o)
    ensures |t'| == |t|
  {
    if row == [] then t
    else
      var e := row[|row| - 1];
      Laid(t, row[..|row| - 1], o)[e.lookahead + o := e]
  }

  /** The number of used slots after the row has been written: just enough to hold it. */
  ghost function Extent(n: int, row: seq<Slot>, o: int): int {
    if row == [] then n
    else
      var m, k := Extent(n, row[..|row| - 1], o), row[|row| - 1].lookahead + o;
      if k >= m then k + 1 else m
  }

  lemma {:induction false} ExtentLeast(n: int, row: seq<Slot>, o: int)
    ensures Extent(n, row, o) >= n && forall j :: 0 <= j < |row| ==> row[j].lookahead + o < Extent(n, row, o)
    ensures Extent(n, row, o) == n || exists j :: 0 <= j < |row| && row[j].lookahead + o + 1 == Extent(n, row, o)
  {
    if row != [] {
      var init := row[..|row| - 1];
      ExtentLeast(n, init, o);
      assert forall j :: 0 <= j < |init| ==> row[j] == init[j];
    }
  }

  lemma LaidNext(t: seq<Slot>, n: int, row: seq<Slot>, o: int, j: nat)
    requires CanLay(t, row, o) && j < |row|
    ensures CanLay(t, row[..j], o) && CanLay(t, row[..j + 1], o)
    ensures 0 <= row[j].lookahead + o < |t|
    ensures Laid(t, row[..j + 1], o) == Laid(t, row[..j], o)[row[j].lookahead + o := row[j]]
    ensures var m, k := Extent(n, row[..j], o), row[j].lookahead + o;
            Extent(n, row[..j + 1], o) == if k >= m then k + 1 else m
  {
    assert row[..j + 1][..j] == row[..j];
  }

  lemma LaidNone(t: seq<Slot>, n: int, o: int)
    ensures CanLay(t, [], o) && Laid(t, [], o) == t && Extent(n, [], o) == n
  {
  }

  lemma {:induction false} LaidElsewhere(t: seq<Slot>, row: seq<Slot>, o: int, k: nat)
    requires CanLay(t, row, o) && k < |t|
    requires forall j :: 0 <= j < |row| ==> row[j].lookahead + o != k
    ensures Laid(t, row, o)[k] == t[k]
  {
    if row != [] {
      LaidElsewhere(t, row[..|row| - 1], o, k);
    }
  }

  lemma {:induction false} LaidHits(t: seq<Slot>, row: seq<Slot>, o: int)
    requires ValidRow(row) && CanLay(t, row, o)
    ensures Hits(Laid(t, row, o), o) == Hits(t, o) + RowMap(row)
    ensures forall other :: other != o ==> Hits(Laid(t, row, o), other) == Hits(t, other)
  {
    hide Hits, Hit;
    if row == [] {
      assert Hits(t, o) + map[] == Hits(t, o);
    } else {
      var init, e := row[..|row| - 1], row[|row| - 1];
      LaidHits(t, init, o);
      LaidElsewhere(t, init, o, e.lookahead + o);
      PutAligned(Laid(t, init, o), e.lookahead + o, e, o);
      assert (Hits(t, o) + RowMap(init))[e.lookahead := e.action] == Hits(t, o) + RowMap(row);
    }
  }

  lemma HitsTrim(t: seq<Slot>, n: nat, o: int)
    requires n <= |t| && forall k :: n <= k < |t| ==> t[k].lookahead < 0
    ensures Hits(t[..n], o) == Hits(t, o)
  {
    assert forall la :: Hit(t[..n], o, la) <==> Hit(t, o, la);
  }

  lemma NothingAlignedFindsNothing(t: seq<Slot>, mn: int, i: int)
    requires NothingAligned(t, mn, i)
    ensures Hits(t, i - mn) == map[]
  {
    var o := i - mn;
    assert forall la :: !Hit(t, o, la);
  }

  lemma HitsOfNone(o: int)
    ensures Hits([], o) == map[]
  {
  }

  lemma HitsStep(t: seq<Slot>, o: int, j: nat)
    requires j < |t|
    ensures t[j].lookahead >= 0 && t[j].lookahead == j - o ==>
              Hits(t[..j + 1], o) == Hits(t[..j], o)[j - o := t[j].action] && |Hits(t[..j + 1], o)| == |Hits(t[..j], o)| + 1
    ensures !(t[j].lookahead >= 0 && t[j].lookahead == j - o) ==> Hits(t[..j + 1], o) == Hits(t[..j], o)
  {
    assert forall la :: Hit(t[..j + 1], o, la) <==> Hit(t[..j], o, la) || (Hit(t, o, la) && la == j - o);
  }

  /** Counting decides equality once the row is known to be contained in what the offset finds. */
  lemma SubmapOfSameSize(a: map<int, int>, b: map<int, int>)
    requires forall x :: x in a ==> x in b && b[x] == a[x]
    requires |a| == |b|
    ensures a == b
  {
    forall x | x in a.Keys ensures x in b.Keys {
      assert x in a;
    }
    assert |a.Keys| == |b.Keys|;
    SubsetSameSize(a.Keys, b.Keys);
    forall x | x in b ensures x in a && a[x] == b[x] {
      assert x in b.Keys;
    }
  }

  lemma AlignedSlots(t: seq<Slot>, row: seq<Slot>, mn: int, i: int)
    requires ValidRow(row) && Hits(t, i - mn) == RowMap(row)
    ensures forall j :: 0 <= j < |row| ==> 0 <= row[j].lookahead - mn + i < |t| && t[row[j].lookahead - mn + i] == row[j]
  {
    RowMapEntries(row);
    forall j | 0 <= j < |row|
      ensures 0 <= row[j].lookahead - mn + i < |t| && t[row[j].lookahead - mn + i] == row[j]
    {
      assert row[j].lookahead in Hits(t, i - mn);
      assert Hit(t, i - mn, row[j].lookahead);
    }
  }

  /** At a free slot a place is good only if the row fits there; at a used one, only if the row is there already. */
  lemma GoodWhere(t: seq<Slot>, row: seq<Slot>, mn: int, mnAction: int, i: nat)
    requires ValidRow(row) && Slot(mn, mnAction) in row
    ensures i >= |t| || t[i].lookahead < 0 ==>
              (GoodPlace(t, row, mn, i) <==> RowFits(t, row, mn, i) && NothingAligned(t, mn, i))
    ensures i < |t| && t[i].lookahead >= 0 ==> (GoodPlace(t, row, mn, i) <==> Hits(t, i - mn) == RowMap(row))
    ensures Hits(t, i - mn) == RowMap(row) ==> i < |t| && t[i] == Slot(mn, mnAction)
    ensures |RowMap(row)| == |row|
  {
    hide Hits, RowMap, NothingAligned;
    assert |RowMap(row)| == |row| by { RowMapEntries(row); }
    var jm :| 0 <= jm < |row| && row[jm] == Slot(mn, mnAction);
    assert Hits(t, i - mn) == RowMap(row) ==> i < |t| && t[i] == row[jm] by {
      if Hits(t, i - mn) == RowMap(row) {
        AlignedSlots(t, row, mn, i);
      }
    }
    assert RowFits(t, row, mn, i) ==> i >= |t| || t[i].lookahead < 0 by {
      if RowFits(t, row, mn, i) {
        assert row[jm].lookahead - mn + i == i;
      }
    }
  }

  lemma NothingFoundAtEnd(t: seq<Slot>)
    ensures Hits(t, |t|) == map[]
  {
    assert forall la :: !Hit(t, |t|, la);
  }

  /** Laying the row at a good place, or at the end of the table, is possible and has the intended effect. */
  lemma PlaceOk(all: seq<Slot>, n: nat, row: seq<Slot>, mn: int, mx: int, i: nat)
    requires n <= |all| && (forall k :: n <= k < |all| ==> all[k] == FREE)
    requires ValidRow(row) && (forall j :: 0 <= j < |row| ==> mn <= row[j].lookahead <= mx)
    requires n + mx < |all| && FirstGoodPlace(all[..n], row, mn, i)
    ensures CanLay(all, row, i - mn)
    ensures Hits(Laid(all, row, i - mn), i - mn) == RowMap(row)
    ensures forall o :: Hits(all[..n], o) != map[] ==> Hits(Laid(all, row, i - mn), o) == Hits(all[..n], o)
  {
    hide Hits, RowMap, NothingAligned;
    var t, o := all[..n], i - mn;
    if i == n + mn {
      NothingFoundAtEnd(t);
    } else if RowFits(t, row, mn, i) && NothingAligned(t, mn, i) {
      NothingAlignedFindsNothing(t, mn, i);
    } else {
      AlignedSlots(t, row, mn, i);
    }
    assert CanLay(all, row, o);
    LaidHits(all, row, o);
    forall other ensures Hits(t, other) == Hits(all, other) {
      HitsTrim(all, n, other);
    }
    assert map[] + RowMap(row) == RowMap(row) && RowMap(row) + RowMap(row) == RowMap(row);
  }

  // --------------------------------------------------------------- the table

  class ActTab {
    /** The table under construction: `nAction` used slots of the allocated ones. */
    var aAction: seq<Slot>
    var nAction: nat
    /** The row being collected, with its extreme lookaheads. */
    var aLookahead: seq<Slot>
    var mnLookahead: int
    var mnAction: int
    var mxLookahead: int

    ghost predicate Valid()
      reads this
    {
      && nAction <= |aAction|
      && (forall k :: nAction <= k < |aAction| ==> aAction[k] == FREE)
      && ValidRow(aLookahead)
      && (aLookahead != [] ==> Extremes(aLookahead, mnLookahead, mnAction, mxLookahead))
    }

    /** The table proper: the slots up to nAction. */
    ghost function Table(): seq<Slot>
      requires Valid()
      reads this
    {
      aAction[..nAction]
    }

    constructor ()
      ensures Valid() && Table() == [] && aLookahead == []
    {
      aAction, nAction, aLookahead := [], 0, [];
      mnLookahead, mnAction, mxLookahead := 0, 0, 0;
    }

    /** Adds one entry to the row being collected. */
    method Action(lookahead: int, action: int)
      requires Valid()
      requires lookahead >= 0
      requires forall j :: 0 <= j < |aLookahead| ==> aLookahead[j].lookahead != lookahead
      modifies this
      ensures Valid()
      ensures aLookahead == old(aLookahead) + [Slot(lookahead, action)]
      ensures Table() == old(Table())
    {
      hide Extremes;
      ExtremesNext(aLookahead, mnLookahead, mnAction, mxLookahead, Slot(lookahead, action));
      if |aLookahead| == 0 {
        mxLookahead := lookahead;
        mnLookahead := lookahead;
        mnAction := action;
      } else {
        if mxLookahead < lookahead { mxLookahead := lookahead; }
        if mnLookahead > lookahead {
          mnLookahead := lookahead;
          mnAction := action;
        }
      }
      aLookahead := aLookahead + [Slot(lookahead, action)];
    }

    method FitsFree(i: nat) returns (fits: bool)
      requires Valid() && aLookahead != []
      requires i + mxLookahead - mnLookahead < |aAction|
      ensures fits <==> RowFits(Table(), aLookahead, mnLookahead, i)
    {
      var j := 0;
      while j < |aLookahead|
        invariant 0 <= j <= |aLookahead|
        invariant RowFits(Table(), aLookahead[..j], mnLookahead, i)
      {
        var k := aLookahead[j].lookahead - mnLookahead + i;
        if k < 0 { return false; }
        if aAction[k].lookahead >= 0 {
          assert k < nAction;
          assert Table()[k] == aAction[k];
          return false;
        }
        j := j + 1;
      }
      assert aLookahead[..j] == aLookahead;
      return true;
    }

    method NoneAligned(i: nat) returns (none: bool)
      requires Valid()
      ensures none <==> NothingAligned(Table(), mnLookahead, i)
    {
      var j := 0;
      while j < nAction
        invariant 0 <= j <= nAction
        invariant forall k :: 0 <= k < j ==> aAction[k].lookahead != k + mnLookahead - i
      {
        if aAction[j].lookahead == j + mnLookahead - i {
          assert Table()[j] == aAction[j];
          return false;
        }
        j := j + 1;
      }
      return true;
    }

    method RowPresent(i: nat) returns (present: bool)
      requires Valid() && aLookahead != []
      ensures present <==> forall la :: la in RowMap(aLookahead) ==>
                la in Hits(Table(), i - mnLookahead) && Hits(Table(), i - mnLookahead)[la] == RowMap(aLookahead)[la]
    {
      ghost var h := Hits(Table(), i - mnLookahead);
      RowMapEntries(aLookahead);
      var j := 0;
      while j < |aLookahead|
        invariant 0 <= j <= |aLookahead|
        invariant forall q :: 0 <= q < j ==> aLookahead[q].lookahead in h && h[aLookahead[q].lookahead] == aLookahead[q].action
      {
        var k := aLookahead[j].lookahead - mnLookahead + i;
        if k < 0 || k >= nAction { return false; }
        if aLookahead[j].lookahead != aAction[k].lookahead { return false; }
        if aLookahead[j].action != aAction[k].action { return false; }
        j := j + 1;
      }
      return true;
    }

    lemma TableIs()
      requires Valid()
      ensures |Table()| == nAction <= |aAction| && forall j :: 0 <= j < nAction ==> Table()[j] == aAction[j]
    {
    }

    method CountAligned(i: nat) returns (n: nat)
      requires Valid()
      ensures n == |Hits(Table(), i - mnLookahead)|
    {
      hide Hits, ActTab.Valid;
      n := 0;
      ghost var t := Table();
      TableIs();
      HitsOfNone(i - mnLookahead);
      assert t[..0] == [];
      var j := 0;
      while j < nAction
        invariant 0 <= j <= nAction
        invariant n == |Hits(t[..j], i - mnLookahead)|
      {
        HitsStep(t, i - mnLookahead, j);
        if aAction[j].lookahead >= 0 {
          if aAction[j].lookahead == j + mnLookahead - i { n := n + 1; }
        }
        j := j + 1;
      }
      assert t[..j] == t;
    }

    /** One step of the search: the row can be inserted, or is already present, at index i. */
    method TryPlace(i: nat) returns (good: bool)
      requires Valid() && aLookahead != []
      requires i + mxLookahead - mnLookahead < |aAction|
      ensures good <==> GoodPlace(Table(), aLookahead, mnLookahead, i)
    {
      hide RowMap, Hits, RowFits, NothingAligned, Least;
      ghost var t := Table();
      GoodWhere(t, aLookahead, mnLookahead, mnAction, i);
      assert aAction[i] == if i < nAction then t[i] else FREE;
      if aAction[i].lookahead < 0 {
        var fits := FitsFree(i);
        if !fits { return false; }
        good := NoneAligned(i);
      } else if aAction[i].lookahead == mnLookahead {
        if aAction[i].action != mnAction { return false; }
        var present := RowPresent(i);
        if !present { return false; }
        var n := CountAligned(i);
        if n == |aLookahead| {
          SubmapOfSameSize(RowMap(aLookahead), Hits(t, i - mnLookahead));
        }
        return n == |aLookahead|;
      } else {
        return false;
      }
    }

    /** The first good place, or the end of the table. */
    method Search() returns (i: nat)
      requires Valid() && aLookahead != []
      requires nAction + mxLookahead < |aAction|
      ensures FirstGoodPlace(Table(), aLookahead, mnLookahead, i)
    {
      i := 0;
      while i < nAction + mnLookahead
        invariant i <= nAction + mnLookahead
        invariant forall q :: 0 <= q < i ==> !GoodPlace(Table(), aLookahead, mnLookahead, q)
      {
        var good := TryPlace(i);
        if good { break; }
        i := i + 1;
      }
    }

    /** Makes room for the row in the worst case, where it is appended. */
    method Reserve()
      requires Valid() && aLookahead != []
      modifies this`aAction
      ensures Valid() && Table() == old(Table())
      ensures nAction + mxLookahead < |aAction|
    {
      var n := mxLookahead + 1;
      if nAction + n >= |aAction| {
        var alloc := nAction + n + |aAction| + 20;
        aAction := aAction + seq(alloc - |aAction|, _ => FREE);
      }
    }

    /** Writes the row with its least lookahead at index i. */
    method Place(i: nat)
      requires Valid() && aLookahead != []
      requires CanLay(aAction, aLookahead, i - mnLookahead)
      modifies this
      ensures Valid() && aLookahead == []
      ensures aAction == Laid(old(aAction), old(aLookahead), i - old(mnLookahead))
      ensures nAction == Extent(old(nAction), old(aLookahead), i - old(mnLookahead))
    {
      hide Laid, Extent, CanLay;
      ghost var t0, o := aAction, i - mnLookahead;
      LaidNone(t0, nAction, o);
      assert aLookahead[..0] == [];
      var j := 0;
      while j < |aLookahead|
        modifies this`aAction, this`nAction
        invariant 0 <= j <= |aLookahead| && CanLay(t0, aLookahead[..j], o)
        invariant aAction == Laid(t0, aLookahead[..j], o) && nAction == Extent(old(nAction), aLookahead[..j], o)
        invariant nAction <= |aAction| && forall k :: nAction <= k < |aAction| ==> aAction[k] == FREE
      {
        var k := aLookahead[j].lookahead - mnLookahead + i;
        LaidNext(t0, old(nAction), aLookahead, o, j);
        aAction := aAction[k := aLookahead[j]];
        if k >= nAction { nAction := k + 1; }
        j := j + 1;
      }
      assert aLookahead[..j] == aLookahead;
      aLookahead := [];
    }

    /**
      Inserts the collected row and returns its offset: the first good place, or
      the end of the table. The row is found at that offset, exactly, and every
      offset that found something before finds the same as before.
     */
    method Insert() returns (offset: int)
      requires Valid() && aLookahead != []
      modifies this
      ensures Valid() && aLookahead == []
      ensures Hits(Table(), offset) == RowMap(old(aLookahead))
      ensures forall o :: old(Hits(Table(), o)) != map[] ==> Hits(Table(), o) == old(Hits(Table(), o))
      ensures var mn := Least(old(aLookahead)); FirstGoodPlace(old(Table()), old(aLookahead), mn, offset + mn)
    {
      hide Hits, RowMap, Least, FirstGoodPlace, CanLay, Laid, Extent;
      Reserve();
      var i := Search();
      offset := i - mnLookahead;
      PlaceOk(aAction, nAction, aLookahead, mnLookahead, mxLookahead, i);
      Place(i);
      forall o ensures Hits(Table(), o) == Hits(aAction, o) {
        HitsTrim(aAction, nAction, o);
      }
    }
  }
}
