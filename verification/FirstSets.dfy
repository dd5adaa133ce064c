/**
  Lemon's FindFirstSets: which symbols derive the empty string, and which
  terminals can begin a string derived from a nonterminal.
 */
module FirstSets {
  /** Symbols below nterminal are terminals; the others, below nsymbol, are nonterminals. */
  datatype Rule = Rule(lhs: nat, rhs: seq<nat>)
  datatype Grammar = Grammar(nterminal: nat, nsymbol: nat, rules: seq<Rule>)

  ghost predicate ValidGrammar(g: Grammar) {
    && g.nterminal <= g.nsymbol
    && forall r :: r in g.rules ==>
         && g.nterminal <= r.lhs < g.nsymbol
         && forall i :: 0 <= i < |r.rhs| ==> r.rhs[i] < g.nsymbol
  }

  // -------------------------------------------------------------- derivation

  ghost predicate StepAt(g: Grammar, a: seq<nat>, b: seq<nat>, p: nat, r: Rule) {
    p < |a| && r in g.rules && a[p] == r.lhs && b == a[..p] + r.rhs + a[p + 1..]
  }

  ghost predicate Step(g: Grammar, a: seq<nat>, b: seq<nat>) {
    exists p: nat, r :: StepAt(g, a, b, p, r)
  }

  /** b is derived from a in n steps. */
  ghost predicate Derives(g: Grammar, a: seq<nat>, b: seq<nat>, n: nat)
    decreases n
  {
    if n == 0 then a == b else exists m :: Step(g, a, m) && Derives(g, m, b, n - 1)
  }

  ghost predicate Nullable(g: Grammar, s: seq<nat>) {
    exists n: nat :: Derives(g, s, [], n)
  }

  ghost predicate BeginsBy(g: Grammar, s: seq<nat>, t: nat, rest: seq<nat>, n: nat) {
    Derives(g, s, [t] + rest, n)
  }

  /** Some sentential form derived from s begins with t. */
  ghost predicate Begins(g: Grammar, s: seq<nat>, t: nat) {
    exists rest, n: nat :: BeginsBy(g, s, t, rest, n)
  }

  lemma {:induction false} DerivesTrans(g: Grammar, a: seq<nat>, b: seq<nat>, c: seq<nat>, n: nat, k: nat)
    requires Derives(g, a, b, n) && Derives(g, b, c, k)
    ensures Derives(g, a, c, n + k)
    decreases n
  {
    if n > 0 {
      var m :| Step(g, a, m) && Derives(g, m, b, n - 1);
      DerivesTrans(g, m, b, c, n - 1, k);
    }
  }

  lemma {:induction false} DerivesBefore(g: Grammar, a: seq<nat>, b: seq<nat>, y: seq<nat>, n: nat)
    requires Derives(g, a, b, n)
    ensures Derives(g, a + y, b + y, n)
    decreases n
  {
    if n > 0 {
      var m :| Step(g, a, m) && Derives(g, m, b, n - 1);
      var p: nat, r :| StepAt(g, a, m, p, r);
      assert m + y == (a + y)[..p] + r.rhs + (a + y)[p + 1..];
      assert StepAt(g, a + y, m + y, p, r);
      assert Step(g, a + y, m + y);
      DerivesBefore(g, m, b, y, n - 1);
    }
  }

  lemma DerivesByRule(g: Grammar, r: Rule, b: seq<nat>, n: nat)
    requires r in g.rules && Derives(g, r.rhs, b, n)
    ensures Derives(g, [r.lhs], b, n + 1)
  {
    assert StepAt(g, [r.lhs], r.rhs, 0, r);
    assert Step(g, [r.lhs], r.rhs);
  }

  lemma {:induction false} NullableAll(g: Grammar, s: seq<nat>)
    requires forall i :: 0 <= i < |s| ==> Nullable(g, [s[i]])
    ensures Nullable(g, s)
  {
    if s == [] {
      assert Derives(g, [], [], 0);
    } else {
      NullableAll(g, s[1..]);
      var n: nat :| Derives(g, [s[0]], [], n);
      var k: nat :| Derives(g, s[1..], [], k);
      DerivesBefore(g, [s[0]], [], s[1..], n);
      assert [s[0]] + s[1..] == s && [] + s[1..] == s[1..];
      DerivesTrans(g, s, s[1..], [], n, k);
    }
  }

  /** If everything before position i vanishes, what begins rhs[i] begins the left-hand side. */
  lemma RuleBegins(g: Grammar, r: Rule, i: nat, t: nat)
    requires r in g.rules && i < |r.rhs|
    requires forall k :: 0 <= k < i ==> Nullable(g, [r.rhs[k]])
    requires Begins(g, [r.rhs[i]], t)
    ensures Begins(g, [r.lhs], t)
  {
    hide Derives;
    SkipVanishing(g, r.rhs, i);
    BeginsBefore(g, r.rhs[i], r.rhs[i + 1..], t);
    assert [r.rhs[i]] + r.rhs[i + 1..] == r.rhs[i..];
    var n: nat :| Derives(g, r.rhs, r.rhs[i..], n);
    var rest, k: nat :| BeginsBy(g, r.rhs[i..], t, rest, k);
    DerivesTrans(g, r.rhs, r.rhs[i..], [t] + rest, n, k);
    DerivesByRule(g, r, [t] + rest, n + k);
    assert BeginsBy(g, [r.lhs], t, rest, n + k + 1);
  }

  lemma SkipVanishing(g: Grammar, s: seq<nat>, i: nat)
    requires i <= |s| && forall k :: 0 <= k < i ==> Nullable(g, [s[k]])
    ensures exists n: nat :: Derives(g, s, s[i..], n)
  {
    NullableAll(g, s[..i]);
    var n: nat :| Derives(g, s[..i], [], n);
    DerivesBefore(g, s[..i], [], s[i..], n);
    assert s[..i] + s[i..] == s && [] + s[i..] == s[i..];
  }

  lemma BeginsBefore(g: Grammar, x: nat, post: seq<nat>, t: nat)
    requires Begins(g, [x], t)
    ensures Begins(g, [x] + post, t)
  {
    var rest, k: nat :| BeginsBy(g, [x], t, rest, k);
    DerivesBefore(g, [x], [t] + rest, post, k);
    assert [t] + rest + post == [t] + (rest + post);
    assert BeginsBy(g, [x] + post, t, rest + post, k);
  }

  lemma TerminalBegins(g: Grammar, t: nat)
    ensures Begins(g, [t], t)
  {
    assert [t] == [t] + [];
    assert BeginsBy(g, [t], t, [], 0);
  }

  // ------------------------------------------------------------ fixed points

  ghost predicate AllLambda(lambda: seq<bool>, s: seq<nat>) {
    forall i :: 0 <= i < |s| ==> s[i] < |lambda| && lambda[s[i]]
  }

  /** No rule can still make its left-hand side nullable. */
  ghost predicate LambdaClosed(g: Grammar, lambda: seq<bool>) {
    |lambda| == g.nsymbol &&
    forall r :: r in g.rules ==> r.lhs < g.nsymbol && (AllLambda(lambda, r.rhs) ==> lambda[r.lhs])
  }

  /** A closed lambda contains every symbol deriving the empty string. */
  lemma {:induction false} LambdaComplete(g: Grammar, lambda: seq<bool>, s: seq<nat>, n: nat)
    requires LambdaClosed(g, lambda) && Derives(g, s, [], n)
    ensures AllLambda(lambda, s)
    decreases n
  {
    if n > 0 {
      var m :| Step(g, s, m) && Derives(g, m, [], n - 1);
      LambdaComplete(g, lambda, m, n - 1);
      var p: nat, r :| StepAt(g, s, m, p, r);
      LambdaBack(g, lambda, s, m, p, r);
    }
  }

  lemma LambdaBack(g: Grammar, lambda: seq<bool>, s: seq<nat>, m: seq<nat>, p: nat, r: Rule)
    requires LambdaClosed(g, lambda) && StepAt(g, s, m, p, r) && AllLambda(lambda, m)
    ensures AllLambda(lambda, s)
  {
    forall i | 0 <= i < |r.rhs| ensures r.rhs[i] < |lambda| && lambda[r.rhs[i]] {
      assert m[p + i] == r.rhs[i];
    }
    forall i | 0 <= i < |s| ensures s[i] < |lambda| && lambda[s[i]] {
      if i < p {
        assert m[i] == s[i];
      } else if i > p {
        assert m[i - 1 + |r.rhs|] == s[i];
      }
    }
  }

  /** The tables say that a sentential form can begin with t. */
  ghost predicate InFirst(g: Grammar, lambda: seq<bool>, f: seq<seq<bool>>, s: seq<nat>, t: nat) {
    exists i :: 0 <= i < |s| && FirstAt(g, lambda, f, s, t, i)
  }

  ghost predicate FirstAt(g: Grammar, lambda: seq<bool>, f: seq<seq<bool>>, s: seq<nat>, t: nat, i: nat) {
    && i < |s| && AllLambda(lambda, s[..i])
    && (s[i] == t || (g.nterminal <= s[i] < |f| && t < |f[s[i]]| && f[s[i]][t]))
  }

  /** No rule can still add a terminal to the first set of its left-hand side. */
  ghost predicate FirstClosed(g: Grammar, lambda: seq<bool>, f: seq<seq<bool>>) {
    && |f| == g.nsymbol && (forall x :: 0 <= x < |f| ==> |f[x]| == g.nterminal + 1)
    && forall r, t :: r in g.rules && 0 <= t < g.nterminal && InFirst(g, lambda, f, r.rhs, t) ==>
         r.lhs < |f| && f[r.lhs][t]
  }

  lemma {:induction false} FirstComplete(g: Grammar, lambda: seq<bool>, f: seq<seq<bool>>, s: seq<nat>, t: nat,
                                         rest: seq<nat>, n: nat)
    requires ValidGrammar(g) && LambdaClosed(g, lambda) && FirstClosed(g, lambda, f)
    requires t < g.nterminal && Derives(g, s, [t] + rest, n)
    ensures InFirst(g, lambda, f, s, t)
    decreases n
  {
    if n == 0 {
      assert s[..0] == [];
      assert FirstAt(g, lambda, f, s, t, 0);
    } else {
      var m :| Step(g, s, m) && Derives(g, m, [t] + rest, n - 1);
      FirstComplete(g, lambda, f, m, t, rest, n - 1);
      var p: nat, r :| StepAt(g, s, m, p, r);
      var i: nat :| i < |m| && FirstAt(g, lambda, f, m, t, i);
      FirstBack(g, lambda, f, s, m, t, p, r, i);
    }
  }

  /** What begins the form after one step also begins the form before it. */
  lemma FirstBack(g: Grammar, lambda: seq<bool>, f: seq<seq<bool>>, s: seq<nat>, m: seq<nat>, t: nat,
                  p: nat, r: Rule, i: nat)
    requires ValidGrammar(g) && LambdaClosed(g, lambda) && FirstClosed(g, lambda, f)
    requires t < g.nterminal && StepAt(g, s, m, p, r) && FirstAt(g, lambda, f, m, t, i)
    ensures InFirst(g, lambda, f, s, t)
  {
    if i < p {
      assert s[..i] == m[..i];
      assert FirstAt(g, lambda, f, s, t, i);
    } else if i < p + |r.rhs| {
      FirstInRule(g, lambda, f, s, m, t, p, r, i);
    } else {
      assert m[..i] == s[..p] + r.rhs + s[p + 1..i - |r.rhs| + 1];
      FirstPastRule(g, lambda, f, s, t, p, r, i - |r.rhs| + 1);
    }
  }

  lemma FirstInRule(g: Grammar, lambda: seq<bool>, f: seq<seq<bool>>, s: seq<nat>, m: seq<nat>, t: nat,
                    p: nat, r: Rule, i: nat)
    requires ValidGrammar(g) && FirstClosed(g, lambda, f)
    requires t < g.nterminal && StepAt(g, s, m, p, r) && FirstAt(g, lambda, f, m, t, i)
    requires p <= i < p + |r.rhs|
    ensures InFirst(g, lambda, f, s, t)
  {
    var q := i - p;
    assert m[..i] == s[..p] + r.rhs[..q];
    LambdaParts(lambda, s[..p], r.rhs[..q]);
    assert FirstAt(g, lambda, f, r.rhs, t, q);
    assert InFirst(g, lambda, f, r.rhs, t);
    assert FirstAt(g, lambda, f, s, t, p);
  }

  lemma FirstPastRule(g: Grammar, lambda: seq<bool>, f: seq<seq<bool>>, s: seq<nat>, t: nat, p: nat, r: Rule, j: nat)
    requires LambdaClosed(g, lambda) && r in g.rules
    requires p < j < |s| && s[p] == r.lhs
    requires AllLambda(lambda, s[..p] + r.rhs + s[p + 1..j])
    requires s[j] == t || (g.nterminal <= s[j] < |f| && t < |f[s[j]]| && f[s[j]][t])
    ensures InFirst(g, lambda, f, s, t)
  {
    LambdaParts(lambda, s[..p] + r.rhs, s[p + 1..j]);
    LambdaParts(lambda, s[..p], r.rhs);
    assert s[..j] == s[..p] + [r.lhs] + s[p + 1..j];
    assert FirstAt(g, lambda, f, s, t, j);
  }

  lemma LambdaParts(lambda: seq<bool>, a: seq<nat>, b: seq<nat>)
    requires AllLambda(lambda, a + b)
    ensures AllLambda(lambda, a) && AllLambda(lambda, b)
  {
    forall i | 0 <= i < |a| ensures a[i] < |lambda| && lambda[a[i]] {
      assert (a + b)[i] == a[i];
    }
    forall i | 0 <= i < |b| ensures b[i] < |lambda| && lambda[b[i]] {
      assert (a + b)[|a| + i] == b[i];
    }
  }

  // ---------------------------------------------------------- the algorithms

  /** Can the rule's left-hand side vanish, according to the flags so far? */
  method RhsVanishes(lambda: array<bool>, rhs: seq<nat>) returns (all: bool)
    requires forall i :: 0 <= i < |rhs| ==> rhs[i] < lambda.Length
    ensures all <==> AllLambda(lambda[..], rhs)
  {
    var i := 0;
    while i < |rhs|
      invariant 0 <= i <= |rhs|
      invariant forall k :: 0 <= k < i ==> lambda[rhs[k]]
    {
      if !lambda[rhs[i]] { return false; }
      i := i + 1;
    }
    return true;
  }

  ghost function Unset(lambda: seq<bool>): set<nat> {
    set x: nat | x < |lambda| && !lambda[x]
  }

  /** Sets lambda exactly for the symbols that derive the empty string. */
  method FindLambdas(g: Grammar) returns (lambda: array<bool>)
    requires ValidGrammar(g)
    ensures fresh(lambda) && lambda.Length == g.nsymbol
    ensures LambdaClosed(g, lambda[..])
    ensures forall x :: 0 <= x < g.nsymbol ==> (lambda[x] <==> Nullable(g, [x]))
    ensures forall x :: 0 <= x < g.nterminal ==> !lambda[x]
  {
    lambda := new bool[g.nsymbol](_ => false);
    var progress := true;
    while progress
      invariant forall x :: 0 <= x < g.nsymbol && lambda[x] ==> Nullable(g, [x])
      invariant !progress ==> LambdaClosed(g, lambda[..])
      decreases Unset(lambda[..]), progress
    {
      progress := false;
      ghost var start := lambda[..];
      for j := 0 to |g.rules|
        invariant forall x :: 0 <= x < g.nsymbol && lambda[x] ==> Nullable(g, [x])
        invariant !progress ==> lambda[..] == start
        invariant progress ==> Unset(lambda[..]) < Unset(start)
        invariant !progress ==> forall k :: 0 <= k < j ==> AllLambda(start, g.rules[k].rhs) ==> start[g.rules[k].lhs]
      {
        var r := g.rules[j];
        assert r in g.rules;
        if !lambda[r.lhs] {
          var all := RhsVanishes(lambda, r.rhs);
          if all {
            RuleVanishes(g, r, lambda[..]);
            UnsetShrinks(lambda[..], r.lhs);
            ghost var before := lambda[..];
            lambda[r.lhs] := true;
            assert lambda[..] == before[r.lhs := true];
            progress := true;
          }
        }
      }
    }
    forall x | 0 <= x < g.nsymbol && Nullable(g, [x]) ensures lambda[x] {
      var n: nat :| Derives(g, [x], [], n);
      LambdaComplete(g, lambda[..], [x], n);
    }
    forall x | 0 <= x < g.nterminal ensures !lambda[x] {
      TerminalStays(g, x);
    }
  }

  lemma TerminalStays(g: Grammar, t: nat)
    requires ValidGrammar(g) && t < g.nterminal
    ensures !Nullable(g, [t])
  {
    forall n: nat ensures !Derives(g, [t], [], n) {
      if n > 0 && Derives(g, [t], [], n) {
        assert false;
      }
    }
  }

  lemma RuleVanishes(g: Grammar, r: Rule, lambda: seq<bool>)
    requires r in g.rules && AllLambda(lambda, r.rhs)
    requires forall x :: 0 <= x < |lambda| && lambda[x] ==> Nullable(g, [x])
    ensures Nullable(g, [r.lhs])
  {
    NullableAll(g, r.rhs);
    var n: nat :| Derives(g, r.rhs, [], n);
    DerivesByRule(g, r, [], n);
  }

  lemma UnsetShrinks(lambda: seq<bool>, x: nat)
    requires x < |lambda| && !lambda[x]
    ensures Unset(lambda[x := true]) == Unset(lambda) - {x}
    ensures x in Unset(lambda)
  {
  }

  // Sets of terminals are arrays of flags, one more than there are terminals.

  ghost predicate Subset(a: seq<bool>, b: seq<bool>) {
    |a| == |b| && forall i :: 0 <= i < |a| && a[i] ==> b[i]
  }

  method SetAdd(s: seq<bool>, e: nat) returns (s': seq<bool>, added: bool)
    requires e < |s|
    ensures s' == s[e := true]
    ensures added <==> s' != s
  {
    added := !s[e];
    s' := s[e := true];
    assert added ==> s'[e] != s[e];
  }

  method SetUnion(s1: seq<bool>, s2: seq<bool>) returns (s: seq<bool>, progress: bool)
    requires |s1| == |s2|
    ensures |s| == |s1| && forall i :: 0 <= i < |s| ==> (s[i] <==> s1[i] || s2[i])
    ensures progress <==> s != s1
  {
    s, progress := s1, false;
    for i := 0 to |s1|
      invariant |s| == |s1|
      invariant forall k :: 0 <= k < i ==> (s[k] <==> s1[k] || s2[k])
      invariant forall k :: i <= k < |s| ==> s[k] == s1[k]
      invariant progress <==> s != s1
    {
      if s2[i] {
        if !s[i] {
          progress := true;
          s := s[i := true];
          assert s[i] != s1[i];
        }
      }
    }
  }

  ghost function Missing(f: seq<seq<bool>>): set<(nat, nat)> {
    set x: nat, t: nat | x < |f| && t < |f[x]| && !f[x][t] :: (x, t)
  }

  /** Growing one row leaves fewer flags unset. */
  lemma MissingShrinks(f: seq<seq<bool>>, x: nat, row: seq<bool>)
    requires x < |f| && Subset(f[x], row) && row != f[x]
    ensures Missing(f[x := row]) < Missing(f)
  {
    var t :| 0 <= t < |row| && row[t] != f[x][t];
    assert (x, t) in Missing(f) && (x, t) !in Missing(f[x := row]);
  }

  /** The rule has nothing left to add to the first set of its left-hand side. */
  ghost predicate RuleDone(g: Grammar, lambda: seq<bool>, f: seq<seq<bool>>, r: Rule) {
    r.lhs < |f| &&
    forall i :: 0 <= i < |r.rhs| && AllLambda(lambda, r.rhs[..i]) ==>
      r.rhs[i] < |f| && if r.rhs[i] < g.nterminal then r.rhs[i] < |f[r.lhs]| && f[r.lhs][r.rhs[i]]
                        else Subset(f[r.rhs[i]], f[r.lhs])
  }

  ghost predicate Rows(g: Grammar, f: seq<seq<bool>>) {
    |f| == g.nsymbol && forall x :: 0 <= x < |f| ==> |f[x]| == g.nterminal + 1
  }

  /** Every flag set so far is justified by a derivation. */
  ghost predicate Sound(g: Grammar, f: seq<seq<bool>>) {
    forall x, t :: 0 <= x < |f| && 0 <= t < |f[x]| && f[x][t] ==> t < g.nterminal && Begins(g, [x], t)
  }

  lemma AllDoneIsClosed(g: Grammar, lambda: seq<bool>, f: seq<seq<bool>>)
    requires Rows(g, f) && forall r :: r in g.rules ==> RuleDone(g, lambda, f, r)
    ensures FirstClosed(g, lambda, f)
  {
    forall r, t | r in g.rules && 0 <= t < g.nterminal && InFirst(g, lambda, f, r.rhs, t)
      ensures r.lhs < |f| && f[r.lhs][t]
    {
      var i :| 0 <= i < |r.rhs| && FirstAt(g, lambda, f, r.rhs, t, i);
      assert RuleDone(g, lambda, f, r);
    }
  }

  /** Setting in row lhs only flags that rhs[i] justifies keeps the table sound. */
  lemma SoundGrow(g: Grammar, lambda: seq<bool>, f: seq<seq<bool>>, r: Rule, i: nat, row: seq<bool>)
    requires Sound(g, f) && r in g.rules && r.lhs < |f| && i < |r.rhs| && |row| == |f[r.lhs]|
    requires forall k :: 0 <= k < i ==> Nullable(g, [r.rhs[k]])
    requires forall t :: 0 <= t < |row| && row[t] ==> f[r.lhs][t] || (t < g.nterminal && Begins(g, [r.rhs[i]], t))
    ensures Sound(g, f[r.lhs := row])
  {
    forall t | 0 <= t < |row| && row[t] ensures t < g.nterminal && Begins(g, [r.lhs], t) {
      if !f[r.lhs][t] {
        RuleBegins(g, r, i, t);
      }
    }
  }

  /** One rule's contribution; `progress` tells whether its left-hand side gained a terminal. */
  method AddRule(g: Grammar, lambda: array<bool>, f: array<seq<bool>>, r: Rule) returns (progress: bool)
    requires ValidGrammar(g) && r in g.rules && lambda.Length == g.nsymbol
    requires forall x :: 0 <= x < g.nsymbol && lambda[x] ==> Nullable(g, [x])
    requires forall x :: 0 <= x < g.nterminal ==> !lambda[x]
    requires Rows(g, f[..]) && Sound(g, f[..])
    modifies f
    ensures Rows(g, f[..]) && Sound(g, f[..]) && RuleDone(g, lambda[..], f[..], r)
    ensures progress ==> Missing(f[..]) < Missing(old(f[..]))
    ensures !progress ==> f[..] == old(f[..])
  {
    hide Sound, Missing, Subset, RuleDone;
    progress := false;
    var s1 := r.lhs;
    ghost var start := f[..];
    var i := 0;
    while i < |r.rhs|
      invariant 0 <= i <= |r.rhs|
      invariant Rows(g, f[..]) && Sound(g, f[..])
      invariant UpTo(g, lambda[..], f[..], r, i)
      invariant progress ==> Missing(f[..]) < Missing(start)
      invariant !progress ==> f[..] == start
    {
      var s2 := r.rhs[i];
      ghost var before := f[..];
      if s2 < g.nterminal {
        var row, added := SetAdd(f[s1], s2);
        TerminalBegins(g, s2);
        GrowRow(g, lambda[..], before, r, i, row);
        f[s1] := row;
        assert f[..] == before[s1 := row];
        progress := progress || added;
        break;
      } else if s1 == s2 {
        if !lambda[s1] { break; }
      } else {
        var row, grew := SetUnion(f[s1], f[s2]);
        SoundRow(g, before, s2);
        GrowRow(g, lambda[..], before, r, i, row);
        f[s1] := row;
        assert f[..] == before[s1 := row];
        progress := progress || grew;
        if !lambda[s2] { break; }
      }
      UpToNext(g, lambda[..], f[..], r, i);
      i := i + 1;
    }
    DoneAt(g, lambda[..], f[..], r, i);
  }

  lemma SoundRow(g: Grammar, f: seq<seq<bool>>, x: nat)
    requires Sound(g, f) && x < |f|
    ensures forall t :: 0 <= t < |f[x]| && f[x][t] ==> t < g.nterminal && Begins(g, [x], t)
  {
  }

  /** Every right-hand symbol before i can vanish and has passed its first set on. */
  ghost predicate UpTo(g: Grammar, lambda: seq<bool>, f: seq<seq<bool>>, r: Rule, i: nat) {
    && i <= |r.rhs| && r.lhs < |f| && |lambda| == |f|
    && forall k :: 0 <= k < i ==> g.nterminal <= r.rhs[k] < |f| && lambda[r.rhs[k]] && Subset(f[r.rhs[k]], f[r.lhs])
  }

  lemma GrowRow(g: Grammar, lambda: seq<bool>, f: seq<seq<bool>>, r: Rule, i: nat, row: seq<bool>)
    requires Rows(g, f) && Sound(g, f) && UpTo(g, lambda, f, r, i) && r in g.rules && i < |r.rhs|
    requires forall x :: 0 <= x < |lambda| && lambda[x] ==> Nullable(g, [x])
    requires |row| == |f[r.lhs]| && forall t :: 0 <= t < |row| && f[r.lhs][t] ==> row[t]
    requires forall t :: 0 <= t < |row| && row[t] ==> f[r.lhs][t] || (t < g.nterminal && Begins(g, [r.rhs[i]], t))
    ensures Rows(g, f[r.lhs := row]) && Sound(g, f[r.lhs := row]) && UpTo(g, lambda, f[r.lhs := row], r, i)
    ensures row != f[r.lhs] ==> Missing(f[r.lhs := row]) < Missing(f)
    ensures row == f[r.lhs] ==> f[r.lhs := row] == f
  {
    if row != f[r.lhs] {
      MissingShrinks(f, r.lhs, row);
    }
    SoundGrow(g, lambda, f, r, i, row);
  }

  lemma DoneAt(g: Grammar, lambda: seq<bool>, f: seq<seq<bool>>, r: Rule, stop: nat)
    requires Rows(g, f) && UpTo(g, lambda, f, r, stop)
    requires forall k :: 0 <= k < |r.rhs| ==> r.rhs[k] < g.nsymbol
    requires stop < |r.rhs| ==>
               && !lambda[r.rhs[stop]]
               && if r.rhs[stop] < g.nterminal then f[r.lhs][r.rhs[stop]]
                  else forall t :: 0 <= t < |f[r.lhs]| && f[r.rhs[stop]][t] ==> f[r.lhs][t]
    ensures RuleDone(g, lambda, f, r)
  {
    forall i | stop < i < |r.rhs| ensures !AllLambda(lambda, r.rhs[..i]) {
      assert r.rhs[..i][stop] == r.rhs[stop];
    }
  }

  lemma UpToNext(g: Grammar, lambda: seq<bool>, f: seq<seq<bool>>, r: Rule, i: nat)
    requires UpTo(g, lambda, f, r, i) && i < |r.rhs| && g.nterminal <= r.rhs[i] < |f| && lambda[r.rhs[i]]
    requires |f[r.rhs[i]]| == |f[r.lhs]| && forall t :: 0 <= t < |f[r.lhs]| && f[r.rhs[i]][t] ==> f[r.lhs][t]
    ensures UpTo(g, lambda, f, r, i + 1)
  {
  }

  /**
    Computes nullability and the first sets: a terminal is in the first set of a
    nonterminal exactly when some sentential form derived from it begins with it.
   */
  method FindFirstSets(g: Grammar) returns (lambda: array<bool>, f: array<seq<bool>>)
    requires ValidGrammar(g)
    ensures lambda.Length == f.Length == g.nsymbol && Rows(g, f[..])
    ensures forall x :: 0 <= x < g.nsymbol ==> (lambda[x] <==> Nullable(g, [x]))
    ensures forall x, t :: g.nterminal <= x < g.nsymbol && 0 <= t < g.nterminal ==> (f[x][t] <==> Begins(g, [x], t))
  {
    hide Sound, RuleDone, Missing;
    lambda := FindLambdas(g);
    f := new seq<bool>[g.nsymbol](_ => seq(g.nterminal + 1, _ => false));
    SoundEmpty(g, f[..]);
    var progress := true;
    while progress
      invariant Rows(g, f[..]) && Sound(g, f[..])
      invariant !progress ==> forall k :: 0 <= k < |g.rules| ==> RuleDone(g, lambda[..], f[..], g.rules[k])
      modifies f
      decreases Missing(f[..]), progress
    {
      progress := false;
      ghost var start := f[..];
      for j := 0 to |g.rules|
        modifies f
        invariant Rows(g, f[..]) && Sound(g, f[..])
        invariant progress ==> Missing(f[..]) < Missing(start)
        invariant !progress ==> f[..] == start
        invariant !progress ==> forall k :: 0 <= k < j ==> RuleDone(g, lambda[..], start, g.rules[k])
      {
        var added := AddRule(g, lambda, f, g.rules[j]);
        progress := progress || added;
      }
    }
    AllDoneIsClosed(g, lambda[..], f[..]);
    FirstExact(g, lambda[..], f[..]);
  }

  lemma SoundEmpty(g: Grammar, f: seq<seq<bool>>)
    requires forall x, t :: 0 <= x < |f| && 0 <= t < |f[x]| ==> !f[x][t]
    ensures Sound(g, f)
  {
  }

  /** A sound and closed table is exact. */
  lemma FirstExact(g: Grammar, lambda: seq<bool>, f: seq<seq<bool>>)
    requires ValidGrammar(g) && LambdaClosed(g, lambda) && FirstClosed(g, lambda, f) && Sound(g, f)
    ensures forall x, t :: g.nterminal <= x < g.nsymbol && 0 <= t < g.nterminal ==> (f[x][t] <==> Begins(g, [x], t))
  {
    forall x, t | g.nterminal <= x < g.nsymbol && 0 <= t < g.nterminal && Begins(g, [x], t) ensures f[x][t] {
      var rest, n: nat :| BeginsBy(g, [x], t, rest, n);
      FirstComplete(g, lambda, f, [x], t, rest, n);
    }
  }
}
