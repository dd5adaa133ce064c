/**
  From a state's parser actions to the tables of the generated parser and back:
  default-reduce compression (CompressTables), table construction (the table part
  of ReportTable) and the two lookups of the parser template.
 */
module ParserTables {
  import opened ActionTable
  import MergeSort
  import LinkedSort

  datatype Kind = Shift | Accept | Reduce | Error | Conflict | ShResolved | RdResolved | NotUsed

  /** `arg` is the target state of a shift, or the rule of any kind of reduce. */
  datatype Action = Action(sym: nat, kind: Kind, arg: nat)

  /** Symbols below nterminal are terminals; symbol nsymbol is "{default}". */
  datatype Grammar = Grammar(nstate: nat, nrule: nat, nterminal: nat, nsymbol: nat)

  function ComputeAction(g: Grammar, a: Action): int {
    match a.kind
    case Shift => a.arg
    case Reduce => a.arg + g.nstate
    case Error => g.nstate + g.nrule
    case Accept => g.nstate + g.nrule + 1
    case _ => -1
  }

  predicate Used(a: Action) {
    a.kind in {Shift, Accept, Reduce, Error}
  }

  /** At most one used action per symbol: what conflict resolution leaves behind. */
  ghost predicate Deterministic(acts: seq<Action>) {
    forall i, j :: 0 <= i < j < |acts| && Used(acts[i]) && Used(acts[j]) ==> acts[i].sym != acts[j].sym
  }

  ghost predicate Defined(acts: seq<Action>, sym: nat) {
    exists a :: a in acts && Used(a) && a.sym == sym
  }

  /** The default of a state: its "{default}" action, or the error action. */
  ghost predicate IsDefault(g: Grammar, acts: seq<Action>, code: int) {
    if Defined(acts, g.nsymbol) then exists a :: a in acts && Used(a) && a.sym == g.nsymbol && code == ComputeAction(g, a)
    else code == g.nstate + g.nrule
  }

  /** What a lookup must return: the recorded action of the symbol, or else the default of the state. */
  ghost predicate Answers(g: Grammar, acts: seq<Action>, sym: nat, code: int) {
    if Defined(acts, sym) then exists a :: a in acts && Used(a) && a.sym == sym && code == ComputeAction(g, a)
    else IsDefault(g, acts, code)
  }

  lemma {:induction false} Repeated<T>(s: seq<T>, a: T)
    ensures multiset(s)[a] >= 2 <==> exists i, j :: 0 <= i < j < |s| && s[i] == s[j] == a
    ensures multiset(s)[a] >= 1 <==> a in s
  {
    if s != [] {
      var init := s[..|s| - 1];
      assert s == init + [s[|s| - 1]];
      Repeated(init, a);
      if i, j :| 0 <= i < j < |s| && s[i] == s[j] == a {
        assert init[i] == a;
        if j < |init| {
          assert init[j] == a;
        }
      }
      if multiset(init)[a] >= 2 {
        var i, j :| 0 <= i < j < |init| && init[i] == init[j] == a;
        assert s[i] == s[j] == a;
      } else if multiset(s)[a] >= 2 {
        var i :| 0 <= i < |init| && init[i] == a;
        assert s[i] == s[|s| - 1] == a;
      }
    }
  }

  lemma SameMembers(s: seq<Action>, t: seq<Action>)
    requires multiset(s) == multiset(t)
    ensures forall a :: a in s <==> a in t
    ensures forall sym :: Defined(s, sym) <==> Defined(t, sym)
    ensures Deterministic(s) ==> Deterministic(t)
  {
    forall a ensures a in s <==> a in t {
      Repeated(s, a);
      Repeated(t, a);
    }
    if Deterministic(s) {
      forall i, j | 0 <= i < j < |t| && Used(t[i]) && Used(t[j]) ensures t[i].sym != t[j].sym {
        if t[i].sym == t[j].sym {
          assert t[i] in s && t[j] in s;
          var p, q :| 0 <= p < |s| && 0 <= q < |s| && s[p] == t[i] && s[q] == t[j];
          assert p == q;
          Repeated(t, t[i]);
          Repeated(s, t[i]);
          assert false;
        }
      }
    }
  }

  /** The used action of a symbol is unique, and so is the answer. */
  lemma OneAnswer(acts: seq<Action>, a: Action, b: Action)
    requires Deterministic(acts) && a in acts && b in acts && Used(a) && Used(b) && a.sym == b.sym
    ensures a == b
  {
    var i, j :| 0 <= i < |acts| && 0 <= j < |acts| && acts[i] == a && acts[j] == b;
    assert i == j;
  }

  // ------------------------------------------------------------- compression

  ghost function Count(acts: seq<Action>, rule: int): nat {
    if acts == [] then 0
    else Count(acts[1..], rule) + (if acts[0].kind == Reduce && acts[0].arg == rule then 1 else 0)
  }

  lemma {:induction false} CountSplit(acts: seq<Action>, i: nat, rule: int)
    requires i <= |acts|
    ensures Count(acts, rule) == Count(acts[..i], rule) + Count(acts[i..], rule)
  {
    if i == 0 {
      assert acts[..0] == [] && acts[0..] == acts;
    } else {
      CountSplit(acts[1..], i - 1, rule);
      assert acts[..i][1..] == acts[1..][..i - 1];
      assert acts[1..][i - 1..] == acts[i..];
    }
  }

  lemma {:induction false} CountPositive(acts: seq<Action>, rule: int)
    ensures Count(acts, rule) > 0 <==> exists i :: 0 <= i < |acts| && acts[i].kind == Reduce && acts[i].arg == rule
  {
    if acts != [] {
      CountPositive(acts[1..], rule);
      if Count(acts[1..], rule) > 0 {
        var i :| 0 <= i < |acts[1..]| && acts[1..][i].kind == Reduce && acts[1..][i].arg == rule;
        assert acts[i + 1].kind == Reduce && acts[i + 1].arg == rule;
      }
      if i :| 0 <= i < |acts| && acts[i].kind == Reduce && acts[i].arg == rule && i > 0 {
        assert acts[1..][i - 1] == acts[i];
      }
    }
  }

  /** How often the rule is reduced from position i on, skipping the best rule so far. */
  method CountFrom(acts: seq<Action>, i: nat, rbest: int) returns (n: nat)
    requires i < |acts| && acts[i].kind == Reduce && acts[i].arg != rbest
    ensures n == Count(acts[i..], acts[i].arg)
  {
    var rp := acts[i].arg;
    n := 1;
    ghost var rest := acts[i..];
    var k := i + 1;
    assert rest[..1] == [acts[i]];
    while k < |acts|
      invariant i + 1 <= k <= |acts|
      invariant n == Count(rest[..k - i], rp)
    {
      CountSplit(rest[..k + 1 - i], k - i, rp);
      assert rest[..k + 1 - i][..k - i] == rest[..k - i];
      assert rest[..k + 1 - i][k - i..] == [acts[k]];
      if acts[k].kind == Reduce {
        var rp2 := acts[k].arg;
        if rp2 != rbest {
          if rp2 == rp { n := n + 1; }
        }
      }
      k := k + 1;
    }
    assert rest[..k - i] == rest;
  }

  /** The most frequent reduce of a state; -1 if it has none. */
  method BestReduce(acts: seq<Action>) returns (nbest: nat, rbest: int)
    ensures nbest == Count(acts, rbest)
    ensures forall rule: nat :: Count(acts, rule) <= nbest
    ensures rbest == -1 <==> nbest == 0
    ensures rbest >= -1
  {
    nbest, rbest := 0, -1;
    CountPositive(acts, -1);
    var i := 0;
    while i < |acts|
      invariant 0 <= i <= |acts|
      invariant nbest == Count(acts, rbest)
      invariant forall rule: nat :: Count(acts[..i], rule) > 0 ==> Count(acts, rule) <= nbest
      invariant rbest >= -1 && (rbest == -1 <==> nbest == 0)
    {
      ghost var nbest0 := nbest;
      if acts[i].kind == Reduce && acts[i].arg != rbest {
        var n := CountFrom(acts, i, rbest);
        CountSplit(acts, i, acts[i].arg);
        if n > nbest {
          nbest, rbest := n, acts[i].arg;
        }
      }
      forall rule: nat | Count(acts[..i + 1], rule) > 0 ensures Count(acts, rule) <= nbest {
        CountSplit(acts[..i + 1], i, rule);
        assert acts[..i + 1][..i] == acts[..i] && acts[..i + 1][i..] == [acts[i]];
        if Count(acts[..i], rule) == 0 {
          assert Count([acts[i]], rule) > 0;
          CountSplit(acts, i, rule);
        }
      }
      i := i + 1;
    }
    assert acts[..i] == acts;
  }

  predicate ReducesBy(a: Action, rule: int) {
    a.kind == Reduce && a.arg == rule
  }

  /** The reduce at p becomes the "{default}" action; the later ones by the same rule are deleted. */
  ghost function Defaulted(g: Grammar, acts: seq<Action>, rule: int, p: nat): (r: seq<Action>)
    ensures |r| == |acts|
  {
    seq(|acts|, k requires 0 <= k < |acts| =>
      if k == p then acts[k].(sym := g.nsymbol)
      else if k > p && ReducesBy(acts[k], rule) then acts[k].(kind := NotUsed)
      else acts[k])
  }

  method CombineReduces(g: Grammar, acts: seq<Action>, rule: nat) returns (r: seq<Action>, p: nat)
    requires Count(acts, rule) > 0
    ensures p < |acts| && ReducesBy(acts[p], rule)
    ensures forall k :: 0 <= k < p ==> !ReducesBy(acts[k], rule)
    ensures r == Defaulted(g, acts, rule, p)
  {
    CountPositive(acts, rule);
    p := 0;
    while p < |acts|
      invariant p <= |acts|
      invariant forall k :: 0 <= k < p ==> !ReducesBy(acts[k], rule)
    {
      if ReducesBy(acts[p], rule) { break; }
      p := p + 1;
    }
    ghost var goal := Defaulted(g, acts, rule, p);
    r := acts[p := acts[p].(sym := g.nsymbol)];
    var k := p + 1;
    while k < |acts|
      invariant p + 1 <= k <= |acts| && |r| == |acts|
      invariant forall q :: 0 <= q < k ==> r[q] == goal[q]
      invariant forall q :: k <= q < |acts| ==> r[q] == acts[q]
    {
      if ReducesBy(r[k], rule) {
        r := r[k := r[k].(kind := NotUsed)];
      }
      k := k + 1;
    }
  }

  /** Action_sort's order: symbol, then kind, then rule. */
  function Ordinal(k: Kind): nat {
    match k
    case Shift => 0 case Accept => 1 case Reduce => 2 case Error => 3
    case Conflict => 4 case ShResolved => 5 case RdResolved => 6 case NotUsed => 7
  }

  function ActionCmp(a: Action, b: Action): int {
    if a.sym != b.sym then a.sym - b.sym
    else if a.kind != b.kind then Ordinal(a.kind) - Ordinal(b.kind)
    else a.arg - b.arg
  }

  lemma ActionCmpOrders()
    ensures MergeSort.Preorder(ActionCmp)
  {
  }

  /** Reduces by `rule` give way to a default; everything else keeps its meaning. */
  lemma DefaultedMeaning(g: Grammar, acts: seq<Action>, rule: nat, p: nat)
    requires Deterministic(acts) && (forall a :: a in acts ==> a.sym < g.nsymbol)
    requires p < |acts| && ReducesBy(acts[p], rule) && forall k :: 0 <= k < p ==> !ReducesBy(acts[k], rule)
    ensures var r := Defaulted(g, acts, rule, p);
            && Deterministic(r)
            && (forall a :: a in r ==> a.sym <= g.nsymbol)
            && (forall a :: a in acts && Used(a) && !ReducesBy(a, rule) ==> a in r)
            && (forall a :: a in r && Used(a) && a.sym < g.nsymbol ==> a in acts && !ReducesBy(a, rule))
            && Action(g.nsymbol, Reduce, rule) in r
            && (forall a :: a in r && Used(a) && a.sym == g.nsymbol ==> a == Action(g.nsymbol, Reduce, rule))
  {
    var r := Defaulted(g, acts, rule, p);
    forall a | a in acts && Used(a) && !ReducesBy(a, rule) ensures a in r {
      var k :| 0 <= k < |acts| && acts[k] == a;
      assert r[k] == a;
    }
    forall a | a in r
      ensures a.sym <= g.nsymbol
      ensures Used(a) && a.sym < g.nsymbol ==> a in acts && !ReducesBy(a, rule)
      ensures Used(a) && a.sym == g.nsymbol ==> a == Action(g.nsymbol, Reduce, rule)
    {
      var k :| 0 <= k < |r| && r[k] == a;
      assert acts[k] in acts;
    }
    assert r[p] == Action(g.nsymbol, Reduce, rule);
    forall i, j | 0 <= i < j < |r| && Used(r[i]) && Used(r[j]) ensures r[i].sym != r[j].sym {
      assert acts[i] in acts && acts[j] in acts;
    }
  }

  /**
    What compression may do to a state: nothing, or turn its most frequent
    reduce (used at least twice) into the default.
   */
  ghost predicate Compressed(g: Grammar, acts: seq<Action>, r: seq<Action>) {
    || Unchanged(acts, r)
    || exists rule: nat, p: nat :: CompressedBy(g, acts, r, rule, p)
  }

  /** No rule is reduced twice. */
  ghost predicate Unchanged(acts: seq<Action>, r: seq<Action>) {
    r == acts && forall rule: nat :: Count(acts, rule) < 2
  }

  ghost predicate CompressedBy(g: Grammar, acts: seq<Action>, r: seq<Action>, rule: nat, p: nat) {
    && 2 <= Count(acts, rule)
    && (forall other: nat :: Count(acts, other) <= Count(acts, rule))
    && p < |acts| && ReducesBy(acts[p], rule)
    && (forall k :: 0 <= k < p ==> !ReducesBy(acts[k], rule))
    && multiset(r) == multiset(Defaulted(g, acts, rule, p))
  }

  method CompressState(g: Grammar, acts: seq<Action>) returns (r: seq<Action>)
    requires |acts| < MergeSort.Pow2(MergeSort.LISTSIZE)
    ensures Compressed(g, acts, r)
  {
    var nbest, rbest := BestReduce(acts);
    if nbest < 2 { return acts; }
    var p;
    r, p := CombineReduces(g, acts, rbest);
    ActionCmpOrders();
    MergeSort.KeptAllIff(MergeSort.LISTSIZE, |r|);
    ghost var d := r;
    r := LinkedSort.SortSequence(ActionCmp, r);
    assert d[0..] == d;
    MergeSort.StableSortIsPermutation(ActionCmp, r, d);
    assert CompressedBy(g, acts, r, rbest, p);
  }

  /** Every state of the machine is compressed. */
  method CompressTables(g: Grammar, states: seq<seq<Action>>) returns (r: seq<seq<Action>>)
    requires forall i :: 0 <= i < |states| ==> |states[i]| < MergeSort.Pow2(MergeSort.LISTSIZE)
    ensures |r| == |states| && forall i :: 0 <= i < |states| ==> Compressed(g, states[i], r[i])
  {
    r := [];
    for i := 0 to |states|
      invariant |r| == i
      invariant forall k :: 0 <= k < i ==> Compressed(g, states[k], r[k])
    {
      var c := CompressState(g, states[i]);
      r := r + [c];
    }
  }

  /** Compression never changes a defined action, and gives undefined symbols the default. */
  lemma CompressedMeaning(g: Grammar, acts: seq<Action>, r: seq<Action>, sym: nat, code: int)
    requires Deterministic(acts) && (forall a :: a in acts ==> a.sym < g.nsymbol)
    requires Compressed(g, acts, r) && sym < g.nsymbol
    ensures Deterministic(r) && (forall a :: a in r ==> a.sym <= g.nsymbol)
    ensures Answers(g, r, sym, code) ==>
              if Defined(acts, sym) then Answers(g, acts, sym, code) else IsDefault(g, r, code)
  {
    if !Unchanged(acts, r) {
      var rule: nat, p: nat :| CompressedBy(g, acts, r, rule, p);
      CompressedByMeaning(g, acts, r, rule, p);
      if Answers(g, r, sym, code) {
        DefaultedAnswer(g, acts, r, rule, sym, code);
      }
    }
  }

  lemma CompressedByMeaning(g: Grammar, acts: seq<Action>, r: seq<Action>, rule: nat, p: nat)
    requires Deterministic(acts) && (forall a :: a in acts ==> a.sym < g.nsymbol)
    requires CompressedBy(g, acts, r, rule, p)
    ensures Deterministic(r) && (forall a :: a in r ==> a.sym <= g.nsymbol)
    ensures forall a :: a in acts && Used(a) && !ReducesBy(a, rule) ==> a in r
    ensures forall a :: a in r && Used(a) && a.sym < g.nsymbol ==> a in acts && !ReducesBy(a, rule)
    ensures Action(g.nsymbol, Reduce, rule) in r
    ensures forall a :: a in r && Used(a) && a.sym == g.nsymbol ==> a == Action(g.nsymbol, Reduce, rule)
  {
    hide Deterministic, Defaulted;
    DefaultedMeaning(g, acts, rule, p);
    SameMembers(Defaulted(g, acts, rule, p), r);
  }

  lemma DefaultedAnswer(g: Grammar, acts: seq<Action>, r: seq<Action>, rule: nat, sym: nat, code: int)
    requires sym < g.nsymbol && Action(g.nsymbol, Reduce, rule) in r
    requires forall a :: a in acts && Used(a) && !ReducesBy(a, rule) ==> a in r
    requires forall a :: a in r && Used(a) && a.sym < g.nsymbol ==> a in acts && !ReducesBy(a, rule)
    requires forall a :: a in r && Used(a) && a.sym == g.nsymbol ==> a == Action(g.nsymbol, Reduce, rule)
    requires Answers(g, r, sym, code)
    ensures if Defined(acts, sym) then Answers(g, acts, sym, code) else IsDefault(g, r, code)
  {
    assert Defined(r, g.nsymbol);
    if Defined(r, sym) {
      var a :| a in r && Used(a) && a.sym == sym && code == ComputeAction(g, a);
      assert a in acts;
    } else {
      assert code == ComputeAction(g, Action(g.nsymbol, Reduce, rule));
      if Defined(acts, sym) {
        var a :| a in acts && Used(a) && a.sym == sym;
        assert ReducesBy(a, rule);
        assert code == ComputeAction(g, a);
      }
    }
  }

  // ------------------------------------------------------ table construction

  /** The action belongs to the terminal row (tkn) or to the nonterminal row of its state. */
  predicate InRow(g: Grammar, a: Action, tkn: bool) {
    Used(a) && if tkn then a.sym < g.nterminal else g.nterminal <= a.sym && a.sym != g.nsymbol
  }

  ghost function RowOf(g: Grammar, acts: seq<Action>, tkn: bool): seq<Slot> {
    if acts == [] then []
    else
      var last := acts[|acts| - 1];
      RowOf(g, acts[..|acts| - 1], tkn) + (if InRow(g, last, tkn) then [Slot(last.sym, ComputeAction(g, last))] else [])
  }

  lemma RowOfNext(g: Grammar, acts: seq<Action>, tkn: bool, i: nat)
    requires i < |acts|
    ensures RowOf(g, acts[..i + 1], tkn)
         == RowOf(g, acts[..i], tkn) + (if InRow(g, acts[i], tkn) then [Slot(acts[i].sym, ComputeAction(g, acts[i]))] else [])
  {
    assert acts[..i + 1][..i] == acts[..i];
  }

  lemma {:induction false} RowOfEntries(g: Grammar, acts: seq<Action>, tkn: bool)
    requires Deterministic(acts)
    ensures ValidRow(RowOf(g, acts, tkn))
    ensures forall e :: e in RowOf(g, acts, tkn) <==>
              exists a :: a in acts && InRow(g, a, tkn) && e == Slot(a.sym, ComputeAction(g, a))
  {
    if acts != [] {
      var init, last := acts[..|acts| - 1], acts[|acts| - 1];
      assert acts == init + [last];
      RowOfEntries(g, init, tkn);
      var row := RowOf(g, init, tkn);
      if InRow(g, last, tkn) {
        forall j | 0 <= j < |row| ensures row[j].lookahead != last.sym {
          assert row[j] in row;
          var a :| a in init && InRow(g, a, tkn) && row[j] == Slot(a.sym, ComputeAction(g, a));
          var i :| 0 <= i < |init| && init[i] == a;
          assert acts[i] == a;
        }
      }
      forall e ensures e in RowOf(g, acts, tkn) <==>
        exists a :: a in acts && InRow(g, a, tkn) && e == Slot(a.sym, ComputeAction(g, a))
      {
        assert e in RowOf(g, acts, tkn) <==> e in row || (InRow(g, last, tkn) && e == Slot(last.sym, ComputeAction(g, last)));
      }
    }
  }

  /** What the row's map says about a symbol is what the state's actions say. */
  lemma RowMeaning(g: Grammar, acts: seq<Action>, tkn: bool, la: int)
    requires Deterministic(acts)
    ensures la in RowMap(RowOf(g, acts, tkn)) <==> exists a :: a in acts && InRow(g, a, tkn) && a.sym == la
    ensures forall a :: a in acts && InRow(g, a, tkn) && a.sym == la ==>
              la in RowMap(RowOf(g, acts, tkn)) && RowMap(RowOf(g, acts, tkn))[la] == ComputeAction(g, a)
  {
    var row := RowOf(g, acts, tkn);
    RowOfEntries(g, acts, tkn);
    RowMapEntries(row);
    forall a | a in acts && InRow(g, a, tkn) && a.sym == la ensures la in RowMap(row) && RowMap(row)[la] == ComputeAction(g, a) {
      assert Slot(a.sym, ComputeAction(g, a)) in row;
    }
    if la in RowMap(row) {
      var j :| 0 <= j < |row| && row[j].lookahead == la;
      assert row[j] in row;
    }
  }

  /** Sizes of the two rows of a state, and its default action. */
  method Summarize(g: Grammar, acts: seq<Action>) returns (nTknAct: nat, nNtAct: nat, iDflt: int)
    requires Deterministic(acts) && forall a :: a in acts ==> a.sym <= g.nsymbol
    requires g.nterminal <= g.nsymbol
    ensures nTknAct == |RowOf(g, acts, true)| && nNtAct == |RowOf(g, acts, false)|
    ensures IsDefault(g, acts, iDflt)
  {
    nTknAct, nNtAct, iDflt := 0, 0, g.nstate + g.nrule;
    for i := 0 to |acts|
      invariant nTknAct == |RowOf(g, acts[..i], true)| && nNtAct == |RowOf(g, acts[..i], false)|
      invariant IsDefault(g, acts[..i], iDflt)
    {
      RowOfNext(g, acts, true, i);
      RowOfNext(g, acts, false, i);
      DefaultNext(g, acts, i, iDflt);
      assert acts[i] in acts;
      if ComputeAction(g, acts[i]) >= 0 {
        if acts[i].sym < g.nterminal {
          nTknAct := nTknAct + 1;
        } else if acts[i].sym < g.nsymbol {
          nNtAct := nNtAct + 1;
        } else {
          iDflt := ComputeAction(g, acts[i]);
        }
      }
    }
    assert acts[..|acts|] == acts;
  }

  lemma DefaultNext(g: Grammar, acts: seq<Action>, i: nat, code: int)
    requires i < |acts| && IsDefault(g, acts[..i], code)
    ensures Used(acts[i]) && acts[i].sym == g.nsymbol ==> IsDefault(g, acts[..i + 1], ComputeAction(g, acts[i]))
    ensures !(Used(acts[i]) && acts[i].sym == g.nsymbol) ==> IsDefault(g, acts[..i + 1], code)
  {
    assert acts[..i + 1] == acts[..i] + [acts[i]];
    if Used(acts[i]) && acts[i].sym == g.nsymbol {
      assert acts[i] in acts[..i + 1];
    } else {
      assert forall a :: a in acts[..i + 1] && Used(a) && a.sym == g.nsymbol ==> a in acts[..i];
      assert forall a :: a in acts[..i] ==> a in acts[..i + 1];
    }
  }

  /** Collects one row of a state and inserts it. */
  method InsertRow(g: Grammar, acts: seq<Action>, tkn: bool, tab: ActTab) returns (offset: int)
    requires Deterministic(acts) && RowOf(g, acts, tkn) != []
    requires tab.Valid() && tab.aLookahead == []
    modifies tab
    ensures tab.Valid() && tab.aLookahead == []
    ensures Hits(tab.Table(), offset) == RowMap(RowOf(g, acts, tkn))
    ensures forall o :: old(Hits(tab.Table(), o)) != map[] ==> Hits(tab.Table(), o) == old(Hits(tab.Table(), o))
  {
    hide Hits, RowMap;
    RowOfEntries(g, acts, tkn);
    for i := 0 to |acts|
      invariant tab.Valid() && tab.Table() == old(tab.Table())
      invariant tab.aLookahead == RowOf(g, acts[..i], tkn)
    {
      RowOfNext(g, acts, tkn, i);
      DeterministicPrefix(g, acts, tkn, i + 1);
      if (if tkn then acts[i].sym < g.nterminal else g.nterminal <= acts[i].sym && acts[i].sym != g.nsymbol) {
        var action := ComputeAction(g, acts[i]);
        if action >= 0 {
          LastIsFresh(tab.aLookahead, Slot(acts[i].sym, action));
          tab.Action(acts[i].sym, action);
        }
      }
    }
    assert acts[..|acts|] == acts;
    offset := tab.Insert();
  }

  lemma LastIsFresh(row: seq<Slot>, e: Slot)
    requires ValidRow(row + [e])
    ensures forall j :: 0 <= j < |row| ==> row[j].lookahead != e.lookahead
  {
    var full := row + [e];
    assert full[|row|] == e && forall j :: 0 <= j < |row| ==> full[j] == row[j];
  }

  lemma DeterministicPrefix(g: Grammar, acts: seq<Action>, tkn: bool, i: nat)
    requires Deterministic(acts) && i <= |acts|
    ensures ValidRow(RowOf(g, acts[..i], tkn))
  {
    RowOfEntries(g, acts[..i], tkn);
  }

  /** The tables of the generated parser. */
  datatype Tables = Tables(yyAction: seq<int>, yyLookahead: seq<int>,
                           shiftOfst: seq<int>, shiftUseDflt: int,
                           reduceOfst: seq<int>, reduceUseDflt: int,
                           yyDefault: seq<int>)

  /** The order in which rows are inserted: any arrangement of all rows, larger ones first (qsort). */
  ghost predicate LargestFirst(g: Grammar, states: seq<seq<Action>>, order: seq<(nat, bool)>) {
    && (forall s, b :: (s, b) in order <==> 0 <= s < |states|)
    && (forall i, j :: 0 <= i < j < |order| ==>
          && order[i] != order[j]
          && 0 <= order[i].0 < |states| && 0 <= order[j].0 < |states|
          && |RowOf(g, states[order[i].0], order[i].1)| >= |RowOf(g, states[order[j].0], order[j].1)|)
  }

  ghost predicate GoodStates(g: Grammar, states: seq<seq<Action>>) {
    && g.nterminal <= g.nsymbol
    && forall s :: 0 <= s < |states| ==> Deterministic(states[s]) && forall a :: a in states[s] ==> a.sym <= g.nsymbol
  }

  /** Every row with an offset is exactly what the table holds at that offset. */
  ghost predicate RowsFound(g: Grammar, states: seq<seq<Action>>, t: seq<Slot>, ofst: map<(nat, bool), int>) {
    forall r :: r in ofst ==>
      && 0 <= r.0 < |states|
      && RowMap(RowOf(g, states[r.0], r.1)) != map[]
      && Hits(t, ofst[r]) == RowMap(RowOf(g, states[r.0], r.1))
  }

  lemma RowsStayFound(g: Grammar, states: seq<seq<Action>>, t: seq<Slot>, t': seq<Slot>, ofst: map<(nat, bool), int>,
                      r: (nat, bool), o: int)
    requires RowsFound(g, states, t, ofst)
    requires forall o :: Hits(t, o) != map[] ==> Hits(t', o) == Hits(t, o)
    requires 0 <= r.0 < |states| && RowMap(RowOf(g, states[r.0], r.1)) != map[]
    requires Hits(t', o) == RowMap(RowOf(g, states[r.0], r.1))
    ensures RowsFound(g, states, t', ofst[r := o])
  {
  }

  /** Inserts the rows, largest first, up to the first empty one; rows left out have no offset. */
  method BuildTable(g: Grammar, states: seq<seq<Action>>, order: seq<(nat, bool)>)
    returns (tab: ActTab, ofst: map<(nat, bool), int>, mnTknOfst: int, mnNtOfst: int)
    requires GoodStates(g, states) && LargestFirst(g, states, order)
    ensures fresh(tab) && tab.Valid() && RowsFound(g, states, tab.Table(), ofst)
    ensures forall s, b :: 0 <= s < |states| ==> ((s, b) in ofst <==> RowOf(g, states[s], b) != [])
    ensures forall s :: (s, true) in ofst ==> mnTknOfst <= ofst[(s, true)]
    ensures forall s :: (s, false) in ofst ==> mnNtOfst <= ofst[(s, false)]
  {
    hide Hits, RowMap, RowOf, Deterministic, ActTab.Valid;
    tab := new ActTab();
    ofst, mnTknOfst, mnNtOfst := map[], 0, 0;
    var i := 0;
    while i < |order|
      invariant 0 <= i <= |order|
      invariant fresh(tab) && tab.Valid() && tab.aLookahead == [] && RowsFound(g, states, tab.Table(), ofst)
      invariant forall r :: r in ofst <==> r in order[..i]
      invariant forall q :: 0 <= q < i ==> RowOf(g, states[order[q].0], order[q].1) != []
      invariant forall s :: (s, true) in ofst ==> mnTknOfst <= ofst[(s, true)]
      invariant forall s :: (s, false) in ofst ==> mnNtOfst <= ofst[(s, false)]
    {
      var (s, tkn) := order[i];
      assert order[i] in order;
      var nTkn, nNt, dflt := Summarize(g, states[s]);
      if (if tkn then nTkn else nNt) == 0 { break; }
      ghost var t := tab.Table();
      var o := InsertRow(g, states[s], tkn, tab);
      RowNonEmpty(g, states[s], tkn);
      RowsStayFound(g, states, t, tab.Table(), ofst, (s, tkn), o);
      ofst := ofst[(s, tkn) := o];
      if tkn {
        if o < mnTknOfst { mnTknOfst := o; }
      } else {
        if o < mnNtOfst { mnNtOfst := o; }
      }
      assert order[..i + 1] == order[..i] + [order[i]];
      i := i + 1;
    }
    RestEmpty(g, states, order, i);
  }

  lemma RowNonEmpty(g: Grammar, acts: seq<Action>, tkn: bool)
    requires RowOf(g, acts, tkn) != [] && Deterministic(acts)
    ensures RowMap(RowOf(g, acts, tkn)) != map[]
  {
    RowOfEntries(g, acts, tkn);
    RowMapEntries(RowOf(g, acts, tkn));
    assert |RowMap(RowOf(g, acts, tkn))| > 0;
  }

  lemma RestEmpty(g: Grammar, states: seq<seq<Action>>, order: seq<(nat, bool)>, i: nat)
    requires LargestFirst(g, states, order) && i <= |order|
    requires i < |order| ==> 0 <= order[i].0 < |states| && RowOf(g, states[order[i].0], order[i].1) == []
    ensures forall s, b :: 0 <= s < |states| && (s, b) !in order[..i] ==> RowOf(g, states[s], b) == []
  {
    forall s, b | 0 <= s < |states| && (s, b) !in order[..i] ensures RowOf(g, states[s], b) == [] {
      assert (s, b) in order;
      var q :| 0 <= q < |order| && order[q] == (s, b);
    }
  }

  /** Emits the tables: free slots get codes that no lookup of a grammar symbol can hit. */
  method ReportTable(g: Grammar, states: seq<seq<Action>>, order: seq<(nat, bool)>) returns (t: Tables)
    requires GoodStates(g, states) && LargestFirst(g, states, order)
    ensures |t.shiftOfst| == |t.reduceOfst| == |t.yyDefault| == |states| && |t.yyAction| == |t.yyLookahead|
    ensures forall s, la :: 0 <= s < |states| && 0 <= la < g.nterminal ==>
              Answers(g, states[s], la, FindShiftAction(g, t, s, la))
    ensures forall s, la :: 0 <= s < |states| && g.nterminal <= la < g.nsymbol ==>
              Answers(g, states[s], la, FindReduceAction(g, t, s, la))
  {
    hide Deterministic;
    var dflt := [];
    for s := 0 to |states|
      invariant |dflt| == s
      invariant forall q :: 0 <= q < s ==> IsDefault(g, states[q], dflt[q])
    {
      var _, _, d := Summarize(g, states[s]);
      dflt := dflt + [d];
    }
    var tab, ofst, mnTkn, mnNt := BuildTable(g, states, order);
    ghost var slots := tab.Table();
    var n := tab.nAction;
    t := Tables(
      Emit(tab.aAction[..n], g, true), Emit(tab.aAction[..n], g, false),
      Offsets(ofst, |states|, true, mnTkn - 1), mnTkn - 1,
      Offsets(ofst, |states|, false, mnNt - 1), mnNt - 1,
      dflt);
    forall s, la | 0 <= s < |states| && 0 <= la < g.nterminal
      ensures Answers(g, states[s], la, FindShiftAction(g, t, s, la))
    {
      ProbeAnswers(g, states[s], true, slots, t, t.shiftOfst[s], t.shiftUseDflt, dflt[s], la);
    }
    forall s, la | 0 <= s < |states| && g.nterminal <= la < g.nsymbol
      ensures Answers(g, states[s], la, FindReduceAction(g, t, s, la))
    {
      ProbeAnswers(g, states[s], false, slots, t, t.reduceOfst[s], t.reduceUseDflt, dflt[s], la);
    }
  }

  function Emit(slots: seq<Slot>, g: Grammar, actions: bool): (r: seq<int>)
    ensures |r| == |slots|
  {
    seq(|slots|, i requires 0 <= i < |slots| =>
      if actions then (if slots[i].action < 0 then g.nsymbol + g.nrule + 2 else slots[i].action)
      else (if slots[i].lookahead < 0 then g.nsymbol else slots[i].lookahead))
  }

  function Offsets(ofst: map<(nat, bool), int>, n: nat, tkn: bool, useDflt: int): (r: seq<int>)
    ensures |r| == n
  {
    seq(n, s => if (s, tkn) in ofst then ofst[(s, tkn)] else useDflt)
  }

  /** Probes the packed table at an offset; `useDflt` marks states without a row. */
  function Probe(g: Grammar, t: Tables, ofst: int, useDflt: int, dflt: int, la: nat): int
    requires |t.yyAction| == |t.yyLookahead|
  {
    if ofst == useDflt then dflt
    else if la == g.nsymbol + 1 then g.nstate + g.nrule + 2
    else
      var i := ofst + la;
      if i < 0 || i >= |t.yyAction| || t.yyLookahead[i] != la then dflt else t.yyAction[i]
  }

  function FindShiftAction(g: Grammar, t: Tables, stateno: nat, la: nat): int
    requires stateno < |t.shiftOfst| && stateno < |t.yyDefault| && |t.yyAction| == |t.yyLookahead|
  {
    Probe(g, t, t.shiftOfst[stateno], t.shiftUseDflt, t.yyDefault[stateno], la)
  }

  function FindReduceAction(g: Grammar, t: Tables, stateno: nat, la: nat): int
    requires stateno < |t.reduceOfst| && stateno < |t.yyDefault| && |t.yyAction| == |t.yyLookahead|
  {
    Probe(g, t, t.reduceOfst[stateno], t.reduceUseDflt, t.yyDefault[stateno], la)
  }

  /** Probing the emitted tables answers for the state whose row lies at that offset. */
  lemma ProbeAnswers(g: Grammar, acts: seq<Action>, tkn: bool, slots: seq<Slot>, t: Tables,
                     ofst: int, useDflt: int, dflt: int, la: nat)
    requires Deterministic(acts) && IsDefault(g, acts, dflt)
    requires la < g.nsymbol && (tkn <==> la < g.nterminal)
    requires t.yyAction == Emit(slots, g, true) && t.yyLookahead == Emit(slots, g, false)
    requires ofst == useDflt <==> RowOf(g, acts, tkn) == []
    requires ofst != useDflt ==> Hits(slots, ofst) == RowMap(RowOf(g, acts, tkn))
    ensures Answers(g, acts, la, Probe(g, t, ofst, useDflt, dflt, la))
  {
    RowMeaning(g, acts, tkn, la);
    var row := RowMap(RowOf(g, acts, tkn));
    assert forall a :: a in acts && Used(a) && a.sym == la ==> InRow(g, a, tkn);
    if la in row {
      var a :| a in acts && InRow(g, a, tkn) && a.sym == la;
      assert Hit(slots, ofst, la);
      assert slots[ofst + la].action == ComputeAction(g, a) >= 0;
    } else if ofst != useDflt {
      assert !Hit(slots, ofst, la);
    }
  }

  /**
    End to end: for every state and every symbol with a recorded action, the
    generated parser's lookup in the tables built from the compressed states
    returns exactly that action; for any other symbol it returns the default.
   */
  lemma GeneratedParserAgrees(g: Grammar, acts: seq<Action>, compressed: seq<Action>, sym: nat, code: int)
    requires Deterministic(acts) && (forall a :: a in acts ==> a.sym < g.nsymbol)
    requires Compressed(g, acts, compressed) && sym < g.nsymbol
    requires Answers(g, compressed, sym, code)
    ensures forall a :: a in acts && Used(a) && a.sym == sym ==> code == ComputeAction(g, a)
    ensures !Defined(acts, sym) ==> IsDefault(g, compressed, code)
  {
    CompressedMeaning(g, acts, compressed, sym, code);
    forall a | a in acts && Used(a) && a.sym == sym ensures code == ComputeAction(g, a) {
      var b :| b in acts && Used(b) && b.sym == sym && code == ComputeAction(g, b);
      OneAnswer(acts, a, b);
    }
  }

  /** A lookup returns the recorded action of a symbol, or the default of the compressed state. */
  ghost predicate Correct(g: Grammar, acts: seq<Action>, compressed: seq<Action>, sym: nat, code: int) {
    && (forall a :: a in acts && Used(a) && a.sym == sym ==> code == ComputeAction(g, a))
    && (!Defined(acts, sym) ==> IsDefault(g, compressed, code))
  }

  // ------------------------------------------------------- what a code does

  /** What the parser does on an action number. */
  datatype Move = ToState(state: nat) | ByRule(rule: nat) | Fails | Accepts | Nothing

  /** The parser template's tests on an action number. */
  function Read(g: Grammar, code: int): Move {
    if code < 0 then Nothing
    else if code < g.nstate then ToState(code)
    else if code < g.nstate + g.nrule then ByRule(code - g.nstate)
    else if code == g.nstate + g.nrule then Fails
    else if code == g.nstate + g.nrule + 1 then Accepts
    else Nothing
  }

  /** What an action records. */
  function Recorded(a: Action): Move
    requires Used(a)
  {
    match a.kind
    case Shift => ToState(a.arg)
    case Reduce => ByRule(a.arg)
    case Error => Fails
    case Accept => Accepts
  }

  /** Shifts go to states of the machine, reduces use its rules. */
  ghost predicate InRange(g: Grammar, acts: seq<Action>) {
    forall a :: a in acts && Used(a) ==> (a.kind == Shift ==> a.arg < g.nstate) && (a.kind == Reduce ==> a.arg < g.nrule)
  }

  /** The code of an action makes the parser do what the action records. */
  lemma CodeReads(g: Grammar, acts: seq<Action>, a: Action)
    requires InRange(g, acts) && a in acts && Used(a)
    ensures Read(g, ComputeAction(g, a)) == Recorded(a)
  {
  }

  /** For a symbol without an action: the most frequent reduce, if one is used twice, and else the error. */
  ghost predicate DefaultMove(acts: seq<Action>, m: Move) {
    if exists rule: nat :: Count(acts, rule) >= 2
    then m.ByRule? && Count(acts, m.rule) >= 2 && forall other: nat :: Count(acts, other) <= Count(acts, m.rule)
    else m == Fails
  }

  /** The move is what the state records for the symbol, or its default. */
  ghost predicate Performs(acts: seq<Action>, sym: nat, m: Move) {
    && (forall a :: a in acts && Used(a) && a.sym == sym ==> m == Recorded(a))
    && (!Defined(acts, sym) ==> DefaultMove(acts, m))
  }

  /** A rule that is reduced somewhere is a rule of the machine. */
  lemma CountInRange(g: Grammar, acts: seq<Action>, rule: nat)
    requires InRange(g, acts) && Count(acts, rule) > 0
    ensures rule < g.nrule
  {
    CountPositive(acts, rule);
    var k :| 0 <= k < |acts| && ReducesBy(acts[k], rule);
    assert acts[k] in acts;
  }

  lemma DefaultReads(g: Grammar, acts: seq<Action>, compressed: seq<Action>, code: int)
    requires Deterministic(acts) && SymbolsBelow(acts, g.nsymbol) && InRange(g, acts)
    requires Compressed(g, acts, compressed) && IsDefault(g, compressed, code)
    ensures DefaultMove(acts, Read(g, code))
  {
    hide Deterministic, InRange, Read, Count, CompressedBy;
    if Unchanged(acts, compressed) {
      assert !Defined(acts, g.nsymbol);
      ErrorReads(g);
    } else {
      var rule: nat, p: nat := CompressedHow(g, acts, compressed);
      DefaultRuleReads(g, acts, compressed, rule, p, code);
    }
  }

  lemma ErrorReads(g: Grammar)
    ensures Read(g, g.nstate + g.nrule) == Fails
  {
  }

  lemma CompressedHow(g: Grammar, acts: seq<Action>, r: seq<Action>) returns (rule: nat, p: nat)
    requires Compressed(g, acts, r) && !Unchanged(acts, r)
    ensures CompressedBy(g, acts, r, rule, p)
  {
    hide CompressedBy, Count;
    rule, p :| CompressedBy(g, acts, r, rule, p);
  }

  lemma DefaultRuleReads(g: Grammar, acts: seq<Action>, compressed: seq<Action>, rule: nat, p: nat, code: int)
    requires Deterministic(acts) && SymbolsBelow(acts, g.nsymbol) && InRange(g, acts)
    requires CompressedBy(g, acts, compressed, rule, p) && IsDefault(g, compressed, code)
    ensures DefaultMove(acts, Read(g, code))
  {
    hide Deterministic, InRange, Count, Defaulted, DefaultMove;
    CompressedByMeaning(g, acts, compressed, rule, p);
    MostFrequent(g, acts, compressed, rule, p);
    CountInRange(g, acts, rule);
    assert Defined(compressed, g.nsymbol);
    assert Read(g, code) == ByRule(rule);
  }

  lemma MostFrequent(g: Grammar, acts: seq<Action>, compressed: seq<Action>, rule: nat, p: nat)
    requires CompressedBy(g, acts, compressed, rule, p)
    ensures Count(acts, rule) >= 2 && DefaultMove(acts, ByRule(rule))
  {
    hide Count, Defaulted;
  }

  lemma PerformsWhere(g: Grammar, acts: seq<Action>, compressed: seq<Action>, sym: nat, code: int)
    requires Deterministic(acts) && SymbolsBelow(acts, g.nsymbol) && InRange(g, acts)
    requires Compressed(g, acts, compressed) && sym < g.nsymbol && Correct(g, acts, compressed, sym, code)
    ensures Performs(acts, sym, Read(g, code))
  {
    hide Deterministic, Compressed, IsDefault, DefaultMove, Read, ComputeAction, InRange;
    forall a | a in acts && Used(a) && a.sym == sym ensures Read(g, code) == Recorded(a) {
      CodeReads(g, acts, a);
    }
    if !Defined(acts, sym) {
      DefaultReads(g, acts, compressed, code);
    }
  }

  /**
    From the states of the machine to the tables: compressed and packed, the rows in
    any order qsort may choose, they answer every lookup of the generated parser, and
    make it do what the state records for the symbol.
   */
  method Generate(g: Grammar, states: seq<seq<Action>>, qsort: seq<seq<Action>> -> seq<(nat, bool)>)
    returns (compressed: seq<seq<Action>>, t: Tables)
    requires g.nterminal <= g.nsymbol && forall ss :: LargestFirst(g, ss, qsort(ss))
    requires forall s :: 0 <= s < |states| ==>
               Deterministic(states[s]) && |states[s]| < MergeSort.Pow2(MergeSort.LISTSIZE) && SymbolsBelow(states[s], g.nsymbol)
    ensures Shaped(states, t) && |compressed| == |states|
    ensures forall s :: 0 <= s < |states| ==> Compressed(g, states[s], compressed[s])
    ensures forall s, la :: 0 <= s < |states| && 0 <= la < g.nterminal ==>
              Correct(g, states[s], compressed[s], la, FindShiftAction(g, t, s, la))
    ensures forall s, la :: 0 <= s < |states| && g.nterminal <= la < g.nsymbol ==>
              Correct(g, states[s], compressed[s], la, FindReduceAction(g, t, s, la))
    ensures forall s, la :: 0 <= s < |states| && InRange(g, states[s]) && 0 <= la < g.nterminal ==>
              Performs(states[s], la, Read(g, FindShiftAction(g, t, s, la)))
    ensures forall s, la :: 0 <= s < |states| && InRange(g, states[s]) && g.nterminal <= la < g.nsymbol ==>
              Performs(states[s], la, Read(g, FindReduceAction(g, t, s, la)))
  {
    hide Deterministic, Compressed, Answers, IsDefault, Defined, LargestFirst, Probe, Correct, Performs, InRange, Read;
    compressed := CompressTables(g, states);
    forall s | 0 <= s < |states| ensures Deterministic(compressed[s]) && SymbolsBelow(compressed[s], g.nsymbol + 1) {
      CompressedIsGood(g, states[s], compressed[s]);
    }
    t := ReportTable(g, compressed, qsort(compressed));
    forall s, la | 0 <= s < |states| && 0 <= la < g.nterminal
      ensures Correct(g, states[s], compressed[s], la, FindShiftAction(g, t, s, la))
    {
      CorrectWhere(g, states[s], compressed[s], la, FindShiftAction(g, t, s, la));
    }
    forall s, la | 0 <= s < |states| && g.nterminal <= la < g.nsymbol
      ensures Correct(g, states[s], compressed[s], la, FindReduceAction(g, t, s, la))
    {
      CorrectWhere(g, states[s], compressed[s], la, FindReduceAction(g, t, s, la));
    }
    EveryPerforms(g, states, compressed, t);
  }

  ghost predicate Shaped(states: seq<seq<Action>>, t: Tables) {
    |t.shiftOfst| == |t.reduceOfst| == |t.yyDefault| == |states| && |t.yyAction| == |t.yyLookahead|
  }

  lemma EveryPerforms(g: Grammar, states: seq<seq<Action>>, compressed: seq<seq<Action>>, t: Tables)
    requires Shaped(states, t) && |compressed| == |states| && g.nterminal <= g.nsymbol
    requires forall s :: 0 <= s < |states| ==>
               Deterministic(states[s]) && SymbolsBelow(states[s], g.nsymbol) && Compressed(g, states[s], compressed[s])
    requires forall s, la :: 0 <= s < |states| && 0 <= la < g.nterminal ==>
               Correct(g, states[s], compressed[s], la, FindShiftAction(g, t, s, la))
    requires forall s, la :: 0 <= s < |states| && g.nterminal <= la < g.nsymbol ==>
               Correct(g, states[s], compressed[s], la, FindReduceAction(g, t, s, la))
    ensures forall s, la :: 0 <= s < |states| && InRange(g, states[s]) && 0 <= la < g.nterminal ==>
              Performs(states[s], la, Read(g, FindShiftAction(g, t, s, la)))
    ensures forall s, la :: 0 <= s < |states| && InRange(g, states[s]) && g.nterminal <= la < g.nsymbol ==>
              Performs(states[s], la, Read(g, FindReduceAction(g, t, s, la)))
  {
    hide Deterministic, Compressed, Probe, Correct, Performs, InRange, Read, SymbolsBelow;
    forall s, la | 0 <= s < |states| && InRange(g, states[s]) && 0 <= la < g.nterminal
      ensures Performs(states[s], la, Read(g, FindShiftAction(g, t, s, la)))
    {
      PerformsWhere(g, states[s], compressed[s], la, FindShiftAction(g, t, s, la));
    }
    forall s, la | 0 <= s < |states| && InRange(g, states[s]) && g.nterminal <= la < g.nsymbol
      ensures Performs(states[s], la, Read(g, FindReduceAction(g, t, s, la)))
    {
      PerformsWhere(g, states[s], compressed[s], la, FindReduceAction(g, t, s, la));
    }
  }

  ghost predicate SymbolsBelow(acts: seq<Action>, n: nat) {
    forall a :: a in acts ==> a.sym < n
  }

  lemma CompressedIsGood(g: Grammar, acts: seq<Action>, compressed: seq<Action>)
    requires Deterministic(acts) && SymbolsBelow(acts, g.nsymbol) && Compressed(g, acts, compressed)
    ensures Deterministic(compressed) && SymbolsBelow(compressed, g.nsymbol + 1)
  {
    if !Unchanged(acts, compressed) {
      var rule: nat, p: nat :| CompressedBy(g, acts, compressed, rule, p);
      CompressedByMeaning(g, acts, compressed, rule, p);
    }
  }

  lemma CorrectWhere(g: Grammar, acts: seq<Action>, compressed: seq<Action>, sym: nat, code: int)
    requires Deterministic(acts) && SymbolsBelow(acts, g.nsymbol) && Compressed(g, acts, compressed)
    requires sym < g.nsymbol && Answers(g, compressed, sym, code)
    ensures Correct(g, acts, compressed, sym, code)
  {
    hide Deterministic, Compressed, Answers, IsDefault, Defined;
    GeneratedParserAgrees(g, acts, compressed, sym, code);
  }
}
