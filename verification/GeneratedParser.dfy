/**
  The parser that runs on the generated tables: a stack of states, driven by the two
  lookups. As long as the machine's recorded actions say what to do, it does just
  that, so it accepts every sentence they accept; and whatever it accepts, defaults
  included, is derived from the start symbol of the grammar.
 */
module GeneratedParser {
  import opened Basics
  import opened ParserTables
  import F = FirstSets
  import MergeSort

  // ---------------------------------------------------- the recorded actions

  /** The states and rules of a machine, its start symbol, and the room of the parser's stack (YYSTACKDEPTH). */
  datatype Machine = Machine(g: Grammar, states: seq<seq<Action>>, rules: seq<F.Rule>, start: nat, depth: nat)

  ghost predicate Good(m: Machine) {
    && |m.states| == m.g.nstate > 0 && |m.rules| == m.g.nrule && m.depth > 0
    && m.g.nterminal <= m.start < m.g.nsymbol
    && (forall s :: 0 <= s < |m.states| ==>
          Deterministic(m.states[s]) && InRange(m.g, m.states[s]) && SymbolsBelow(m.states[s], m.g.nsymbol))
    && (forall r :: 0 <= r < |m.rules| ==> m.g.nterminal <= m.rules[r].lhs < m.g.nsymbol)
  }

  /** The move a state records for a symbol, if it has an action for it. */
  ghost function MoveOn(acts: seq<Action>, sym: nat): Option<Move> {
    if Defined(acts, sym) then
      var a :| a in acts && Used(a) && a.sym == sym;
      Some(Recorded(a))
    else None
  }

  ghost predicate OnStack(m: Machine, stack: seq<nat>) {
    0 < |stack| <= m.depth && forall i :: 0 <= i < |stack| ==> stack[i] < |m.states|
  }

  function Top(stack: seq<nat>): nat
    requires stack != []
  {
    stack[|stack| - 1]
  }

  /** Where an action leads: the token is still to be looked at, or dealt with in one of the ways a parse goes on or ends. */
  datatype Result = Going(stack: seq<nat>) | Shifted(stack: seq<nat>) | Failed(stack: seq<nat>) | Accepted | Overflowed | Unrecorded

  ghost predicate Sound(m: Machine, r: Result) {
    r.Going? || r.Shifted? || r.Failed? ==> OnStack(m, r.stack)
  }

  function Pushed(m: Machine, stack: seq<nat>, s: nat): Result {
    if |stack| < m.depth then Going(stack + [s]) else Overflowed
  }

  /** Where a state goes on a symbol; None if that is not given. */
  type Moves = (nat, nat) -> Option<Move>

  /** What the states record. */
  ghost function States(m: Machine): Moves {
    (s: nat, sym: nat) => if s < |m.states| then MoveOn(m.states[s], sym) else None
  }

  /** The moves stay within the machine. */
  ghost predicate Within(m: Machine, mv: Moves) {
    forall s: nat, sym: nat :: mv(s, sym).Some? ==>
      (match mv(s, sym).value
       case ToState(to) => to < |m.states|
       case ByRule(rule) => rule < |m.rules|
       case Nothing => false
       case _ => true)
  }

  lemma StatesWithin(m: Machine)
    requires Good(m)
    ensures Within(m, States(m))
  {
  }

  /** After a reduction, the state below goes on with the left-hand side. */
  ghost function Goto(m: Machine, mv: Moves, stack: seq<nat>, rule: nat): (r: Result)
    requires rule < |m.rules|
    ensures !r.Shifted? && !r.Failed?
  {
    var r := m.rules[rule];
    if |r.rhs| >= |stack| then Unrecorded
    else
      var below := stack[..|stack| - |r.rhs|];
      match mv(Top(below), r.lhs)
      case None => Unrecorded
      case Some(ToState(s)) => Pushed(m, below, s)
      case Some(Accepts) => Accepted
      case Some(_) => Going(below)
  }

  /** One action on a token; the end of input (token 0) is looked at again after a shift. */
  ghost function Step(m: Machine, mv: Moves, stack: seq<nat>, token: nat): Result
    requires stack != []
  {
    match mv(Top(stack), token)
    case None => Unrecorded
    case Some(ToState(s)) => (
      var r := Pushed(m, stack, s);
      if r.Going? && token != 0 then Shifted(r.stack) else r
    )
    case Some(ByRule(rule)) => if rule < |m.rules| then Goto(m, mv, stack, rule) else Unrecorded
    case Some(Fails) => Failed(stack)
    case Some(_) => Accepted
  }

  lemma StepSound(m: Machine, mv: Moves, stack: seq<nat>, token: nat)
    requires Within(m, mv) && OnStack(m, stack)
    ensures Sound(m, Step(m, mv, stack, token))
  {
  }

  /** Up to n further actions, until the token is dealt with; a result of Going means that n was not enough. */
  ghost function Consume(m: Machine, mv: Moves, stack: seq<nat>, token: nat, n: nat): (r: Result)
    requires Within(m, mv) && OnStack(m, stack)
    ensures Sound(m, r)
    decreases n
  {
    StepSound(m, mv, stack, token);
    var r := Step(m, mv, stack, token);
    if r.Going? && n > 0 then Consume(m, mv, r.stack, token, n - 1) else r
  }

  /** One set of moves agrees with another wherever the other gives a move. */
  ghost predicate Follows(mv: Moves, given: Moves) {
    forall s: nat, sym: nat :: given(s, sym).Some? ==> mv(s, sym) == given(s, sym)
  }

  lemma {:induction false} ConsumeFollows(m: Machine, mv: Moves, given: Moves, stack: seq<nat>, token: nat, n: nat)
    requires Within(m, mv) && Within(m, given) && Follows(mv, given) && OnStack(m, stack)
    requires Consume(m, given, stack, token, n) != Unrecorded
    ensures Consume(m, mv, stack, token, n) == Consume(m, given, stack, token, n)
    decreases n
  {
    StepSound(m, given, stack, token);
    var r := Step(m, given, stack, token);
    if r.Going? && n > 0 {
      ConsumeFollows(m, mv, given, r.stack, token, n - 1);
    }
  }

  /** A parser whose stack is empty starts in state 0. */
  function Base(stack: seq<nat>): seq<nat> {
    if stack == [] then [0] else stack
  }

  ghost predicate StackOk(m: Machine, stack: seq<nat>) {
    stack == [] || OnStack(m, stack)
  }

  /** The recorded actions accept these tokens from this stack, with at most n + 1 actions a token. */
  ghost predicate Sentence(m: Machine, stack: seq<nat>, tokens: seq<nat>, n: nat)
    requires Good(m) && StackOk(m, stack)
    decreases |tokens|
  {
    tokens != [] && (
      StatesWithin(m);
      match Consume(m, States(m), Base(stack), tokens[0], n)
      case Shifted(s) => Sentence(m, s, tokens[1..], n)
      case Accepted => |tokens| == 1
      case _ => false
    )
  }

  // ----------------------------------------------- the grammar behind the machine

  /** The rules a state is in the middle of, each with the number of symbols already seen. */
  type Items = seq<set<(nat, nat)>>

  function Syntax(m: Machine): F.Grammar {
    F.Grammar(m.g.nterminal, m.g.nsymbol, m.rules)
  }

  /**
    What building the machine gives: a shift moves the dot of items over its symbol, a
    reduce has its rule complete, a state that begins a rule goes on with its left-hand
    side, and only the first state accepts, on the start symbol.
   */
  ghost predicate AutomatonAt(m: Machine, items: Items, s: nat)
    requires s < |items| == |m.states|
  {
    && (forall it :: it in items[s] ==>
          it.0 < |m.rules| && it.1 <= |m.rules[it.0].rhs| && (s == 0 ==> it.1 == 0)
          && (it.1 == 0 ==> Proceeds(MoveOn(m.states[s], m.rules[it.0].lhs))))
    && (forall a :: a in m.states[s] && a.kind == Reduce ==>
          a.arg < |m.rules| && (a.arg, |m.rules[a.arg].rhs|) in items[s])
    && (forall a :: a in m.states[s] && a.kind == Accept ==> s == 0 && a.sym == m.start)
    && (forall a :: a in m.states[s] && a.kind == Shift ==>
          a.sym != 0 && 0 < a.arg < |items| && forall it :: it in items[a.arg] && it.1 > 0 ==> Before(m, items[s], it, a.sym))
  }

  predicate Proceeds(o: Option<Move>) {
    o.Some? && (o.value.ToState? || o.value.Accepts?)
  }

  ghost predicate Before(m: Machine, from: set<(nat, nat)>, it: (nat, nat), sym: nat)
    requires it.1 > 0
  {
    (it.0, it.1 - 1) in from && it.0 < |m.rules| && it.1 <= |m.rules[it.0].rhs| && m.rules[it.0].rhs[it.1 - 1] == sym
  }

  ghost predicate Automaton(m: Machine, items: Items) {
    |items| == |m.states| && forall s: nat :: s < |items| ==> AutomatonAt(m, items, s)
  }

  ghost predicate Moved(m: Machine, s: nat, sym: nat, to: nat) {
    s < |m.states| && exists a :: a in m.states[s] && a.kind == Shift && a.sym == sym && a.arg == to
  }

  /** The symbols that lead up the stack. */
  ghost predicate Spelled(m: Machine, stack: seq<nat>, syms: seq<nat>) {
    && |stack| == |syms| + 1 && stack[0] == 0
    && forall i :: 0 <= i < |syms| ==> Moved(m, stack[i], syms[i], stack[i + 1])
  }

  ghost predicate Yields(m: Machine, syms: seq<nat>, w: seq<nat>) {
    exists n: nat :: F.Derives(Syntax(m), syms, w, n)
  }

  /** The tokens read so far are derived from the symbols that lead up the stack. */
  ghost predicate Reads(m: Machine, stack: seq<nat>, w: seq<nat>) {
    exists syms :: Spelled(m, stack, syms) && Yields(m, syms, w)
  }

  /** A sentence of the grammar. */
  ghost predicate InLanguage(m: Machine, w: seq<nat>) {
    Yields(m, [m.start], w)
  }

  /** Behind a shift, an item was there with its dot one symbol earlier. */
  lemma ItemBefore(m: Machine, items: Items, s: nat, sym: nat, to: nat, it: (nat, nat))
    requires Automaton(m, items) && s < |items| && Moved(m, s, sym, to) && to < |items| && it in items[to] && it.1 > 0
    ensures Before(m, items[s], it, sym)
  {
    assert AutomatonAt(m, items, s);
  }

  lemma ItemAt(m: Machine, items: Items, s: nat, it: (nat, nat))
    requires Automaton(m, items) && s < |items| && it in items[s]
    ensures it.0 < |m.rules| && it.1 <= |m.rules[it.0].rhs| && (s == 0 ==> it.1 == 0)
  {
    assert AutomatonAt(m, items, s);
  }

  /** The seen part of every item of the top state lies on the stack. */
  lemma {:induction false} ItemSpelled(m: Machine, items: Items, stack: seq<nat>, syms: seq<nat>, r: nat, d: nat)
    requires Automaton(m, items) && Spelled(m, stack, syms) && Top(stack) < |items| && (r, d) in items[Top(stack)]
    ensures r < |m.rules| && d <= |syms| && d <= |m.rules[r].rhs| && syms[|syms| - d..] == m.rules[r].rhs[..d]
    ensures stack[|syms| - d] < |items| && (r, 0) in items[stack[|syms| - d]]
    decreases d
  {
    hide Automaton, Moved;
    var n := |syms|;
    ItemAt(m, items, Top(stack), (r, d));
    if d > 0 {
      assert Moved(m, stack[n - 1], syms[n - 1], stack[n]);
      MovedFrom(m, items, stack[n - 1], syms[n - 1], stack[n]);
      ItemBefore(m, items, stack[n - 1], syms[n - 1], stack[n], (r, d));
      ItemSpelled(m, items, stack[..n], syms[..n - 1], r, d - 1);
      OneLonger(syms, m.rules[r].rhs, d);
    }
  }

  lemma MovedFrom(m: Machine, items: Items, s: nat, sym: nat, to: nat)
    requires Automaton(m, items) && Moved(m, s, sym, to)
    ensures s < |items|
  {
  }

  lemma OneLonger(syms: seq<nat>, rhs: seq<nat>, d: nat)
    requires 0 < d <= |syms| && d <= |rhs| && rhs[d - 1] == syms[|syms| - 1]
    requires syms[..|syms| - 1][|syms| - d..] == rhs[..d - 1]
    ensures syms[|syms| - d..] == rhs[..d]
  {
    assert syms[|syms| - d..] == syms[..|syms| - 1][|syms| - d..] + [syms[|syms| - 1]];
    assert rhs[..d] == rhs[..d - 1] + [rhs[d - 1]];
  }

  lemma ShiftReads(m: Machine, stack: seq<nat>, w: seq<nat>, token: nat, s: nat)
    requires Reads(m, stack, w) && stack != [] && Moved(m, Top(stack), token, s)
    ensures Reads(m, stack + [s], w + [token])
  {
    hide Moved, F.Derives;
    var syms :| Spelled(m, stack, syms) && Yields(m, syms, w);
    var n: nat :| F.Derives(Syntax(m), syms, w, n);
    F.DerivesBefore(Syntax(m), syms, w, [token], n);
    assert Spelled(m, stack + [s], syms + [token]);
  }

  /** Undoing a reduction: the right-hand side is read from the left-hand side. */
  lemma RuleYields(m: Machine, a: seq<nat>, r: nat, w: seq<nat>)
    requires r < |m.rules| && Yields(m, a + m.rules[r].rhs, w)
    ensures Yields(m, a + [m.rules[r].lhs], w)
  {
    var n: nat :| F.Derives(Syntax(m), a + m.rules[r].rhs, w, n);
    var x, y := a + [m.rules[r].lhs], a + m.rules[r].rhs;
    assert x[..|a|] == a && x[|a| + 1..] == [] && y == a + m.rules[r].rhs + [];
    assert F.StepAt(Syntax(m), x, y, |a|, m.rules[r]);
    assert F.Step(Syntax(m), x, y);
    assert F.Derives(Syntax(m), x, w, n + 1);
  }

  /** A complete rule can be taken off the stack, and the state below begins that rule. */
  lemma ReduceReads(m: Machine, items: Items, stack: seq<nat>, w: seq<nat>, r: nat) returns (a: seq<nat>)
    requires Automaton(m, items) && Reads(m, stack, w) && stack != [] && Top(stack) < |items|
    requires r < |m.rules| && (r, |m.rules[r].rhs|) in items[Top(stack)]
    ensures |m.rules[r].rhs| < |stack|
    ensures var below := stack[..|stack| - |m.rules[r].rhs|];
            && Spelled(m, below, a) && Yields(m, a + [m.rules[r].lhs], w)
            && Top(below) < |items| && (r, 0) in items[Top(below)]
  {
    hide Spelled, Yields, Automaton;
    var syms :| Spelled(m, stack, syms) && Yields(m, syms, w);
    var rhs := m.rules[r].rhs;
    SpelledLength(m, stack, syms);
    ItemSpelled(m, items, stack, syms, r, |rhs|);
    a := syms[..|syms| - |rhs|];
    assert rhs[..|rhs|] == rhs;
    assert syms == a + rhs;
    RuleYields(m, a, r, w);
    SpelledBelow(m, stack, syms, |rhs|);
  }

  lemma SpelledLength(m: Machine, stack: seq<nat>, syms: seq<nat>)
    requires Spelled(m, stack, syms)
    ensures |stack| == |syms| + 1
  {
  }

  lemma SpelledBelow(m: Machine, stack: seq<nat>, syms: seq<nat>, n: nat)
    requires Spelled(m, stack, syms) && n <= |syms|
    ensures Spelled(m, stack[..|stack| - n], syms[..|syms| - n])
  {
    hide Moved;
  }

  lemma MovedOn(m: Machine, items: Items, s: nat, sym: nat, to: nat)
    requires Automaton(m, items) && s < |items| && Moved(m, s, sym, to)
    ensures sym != 0 && to != 0
  {
    assert AutomatonAt(m, items, s);
  }

  /** Only the bottom of the stack is the first state. */
  lemma FirstIsBottom(m: Machine, items: Items, stack: seq<nat>, syms: seq<nat>)
    requires Automaton(m, items) && Spelled(m, stack, syms) && Top(stack) == 0
    ensures syms == []
  {
    if syms != [] {
      var n := |syms|;
      assert Moved(m, stack[n - 1], syms[n - 1], stack[n]);
      MovedOn(m, items, stack[n - 1], syms[n - 1], stack[n]);
    }
  }

  // ------------------------------------------------------------------ the parser

  /** The tables make the parser do what the states record. */
  ghost predicate Drives(m: Machine, t: Tables) {
    && Shaped(m.states, t)
    && (forall s, la :: 0 <= s < |m.states| && 0 <= la < m.g.nterminal ==>
          Performs(m.states[s], la, Read(m.g, FindShiftAction(m.g, t, s, la))))
    && (forall s, la :: 0 <= s < |m.states| && m.g.nterminal <= la < m.g.nsymbol ==>
          Performs(m.states[s], la, Read(m.g, FindReduceAction(m.g, t, s, la))))
  }

  /** What the lookups in the tables answer, as the template reads it. */
  ghost function Lookups(m: Machine, t: Tables): Moves
    requires Shaped(m.states, t)
  {
    (s: nat, sym: nat) =>
      if s >= |m.states| || sym >= m.g.nsymbol then None
      else Some(Read(m.g, if sym < m.g.nterminal then FindShiftAction(m.g, t, s, sym) else FindReduceAction(m.g, t, s, sym)))
  }

  lemma PerformedMove(acts: seq<Action>, sym: nat, mv: Move)
    requires Performs(acts, sym, mv)
    ensures !mv.Nothing? && (MoveOn(acts, sym).Some? ==> MoveOn(acts, sym).value == mv)
  {
  }

  /** The lookups stay within the machine and follow what the states record. */
  lemma LookupsFollow(m: Machine, t: Tables)
    requires Good(m) && Drives(m, t)
    ensures Shaped(m.states, t) && Within(m, Lookups(m, t)) && Follows(Lookups(m, t), States(m))
  {
    hide Performs, MoveOn, FindShiftAction, FindReduceAction;
    forall s: nat, sym: nat | Lookups(m, t)(s, sym).Some?
      ensures !Lookups(m, t)(s, sym).value.Nothing?
      ensures States(m)(s, sym).Some? ==> Lookups(m, t)(s, sym) == States(m)(s, sym)
    {
      PerformedMove(m.states[s], sym, Lookups(m, t)(s, sym).value);
    }
    forall s: nat, sym: nat | States(m)(s, sym).Some? ensures sym < m.g.nsymbol {
      assert MoveOn(m.states[s], sym).Some?;
      DefinedBelow(m.states[s], m.g.nsymbol, sym);
    }
  }

  lemma DefinedBelow(acts: seq<Action>, n: nat, sym: nat)
    requires SymbolsBelow(acts, n) && MoveOn(acts, sym).Some?
    ensures sym < n
  {
  }

  /** A move of the tables: recorded in the state, or a reduce that is recorded for another symbol, or an error. */
  ghost predicate Grounded(m: Machine, s: nat, sym: nat, mv: Move)
    requires s < |m.states|
  {
    match mv
    case ToState(t) => Moved(m, s, sym, t)
    case ByRule(r) => exists a :: a in m.states[s] && ReducesBy(a, r)
    case Accepts => exists a :: a in m.states[s] && a.kind == Accept && a.sym == sym
    case Fails => true
    case Nothing => false
  }

  lemma PerformedGrounded(m: Machine, s: nat, sym: nat, mv: Move)
    requires s < |m.states| && Performs(m.states[s], sym, mv)
    ensures Grounded(m, s, sym, mv)
  {
    var acts := m.states[s];
    if Defined(acts, sym) {
      var a :| a in acts && Used(a) && a.sym == sym;
      assert mv == Recorded(a);
      assert a.kind == Reduce ==> ReducesBy(a, a.arg);
    } else if mv.ByRule? {
      CountPositive(acts, mv.rule);
      var i :| 0 <= i < |acts| && acts[i].kind == Reduce && acts[i].arg == mv.rule;
      assert acts[i] in acts && ReducesBy(acts[i], mv.rule);
    }
  }

  lemma LookupGrounded(m: Machine, t: Tables, s: nat, sym: nat)
    requires Good(m) && Drives(m, t) && s < |m.states| && sym < m.g.nsymbol
    ensures Lookups(m, t)(s, sym).Some? && Grounded(m, s, sym, Lookups(m, t)(s, sym).value)
  {
    hide Performs, Grounded, FindShiftAction, FindReduceAction;
    PerformedGrounded(m, s, sym, Lookups(m, t)(s, sym).value);
  }

  /** What a result means for the tokens read so far. */
  ghost predicate Explains(m: Machine, r: Result, w: seq<nat>, token: nat) {
    match r
    case Going(stack) => Reads(m, stack, w)
    case Shifted(stack) => Reads(m, stack, w + [token])
    case Failed(stack) => Reads(m, stack, w)
    case Accepted => InLanguage(m, w)
    case Overflowed => true
    case Unrecorded => false
  }

  /** After a reduction the left-hand side leads on, or the start symbol has been read. */
  lemma GotoExplained(m: Machine, items: Items, t: Tables, stack: seq<nat>, w: seq<nat>, rule: nat, token: nat)
    requires Good(m) && Drives(m, t) && Automaton(m, items) && OnStack(m, stack) && Reads(m, stack, w)
    requires rule < |m.rules| && (rule, |m.rules[rule].rhs|) in items[Top(stack)]
    ensures Explains(m, Goto(m, Lookups(m, t), stack, rule), w, token)
  {
    hide Drives, Lookups, Yields, Reads, Moved;
    var a := ReduceReads(m, items, stack, w, rule);
    var lhs := m.rules[rule].lhs;
    var below := stack[..|stack| - |m.rules[rule].rhs|];
    LookupsFollow(m, t);
    LookupGrounded(m, t, Top(below), lhs);
    GotoRecorded(m, items, Top(below), rule);
    var mv := Lookups(m, t)(Top(below), lhs).value;
    assert mv == MoveOn(m.states[Top(below)], lhs).value;
    if mv.ToState? {
      PushReads(m, below, a, w, lhs, mv.state);
    } else {
      AcceptReads(m, items, below, a, w, lhs);
    }
  }

  lemma GotoRecorded(m: Machine, items: Items, s: nat, rule: nat)
    requires Automaton(m, items) && s < |m.states| && rule < |m.rules| && (rule, 0) in items[s]
    ensures Proceeds(MoveOn(m.states[s], m.rules[rule].lhs)) && States(m)(s, m.rules[rule].lhs) == MoveOn(m.states[s], m.rules[rule].lhs)
  {
    hide MoveOn;
    assert AutomatonAt(m, items, s);
    assert (rule, 0).0 == rule && (rule, 0).1 == 0;
  }

  lemma PushReads(m: Machine, below: seq<nat>, a: seq<nat>, w: seq<nat>, sym: nat, s: nat)
    requires Spelled(m, below, a) && Yields(m, a + [sym], w) && below != [] && Moved(m, Top(below), sym, s)
    ensures Reads(m, below + [s], w)
  {
    hide Moved, Yields;
    assert Spelled(m, below + [s], a + [sym]);
  }

  lemma AcceptReads(m: Machine, items: Items, below: seq<nat>, a: seq<nat>, w: seq<nat>, sym: nat)
    requires Automaton(m, items) && Spelled(m, below, a) && Yields(m, a + [sym], w) && Top(below) < |m.states|
    requires exists x :: x in m.states[Top(below)] && x.kind == Accept && x.sym == sym
    ensures InLanguage(m, w)
  {
    hide Yields;
    assert AutomatonAt(m, items, Top(below));
    FirstIsBottom(m, items, below, a);
    assert a + [sym] == [m.start];
  }

  /** Every action of the tables keeps what has been read derived from the stack; none takes more off the stack than is there. */
  lemma StepExplained(m: Machine, items: Items, t: Tables, stack: seq<nat>, w: seq<nat>, token: nat)
    requires Good(m) && Drives(m, t) && Automaton(m, items) && OnStack(m, stack) && Reads(m, stack, w) && token < m.g.nterminal
    ensures Explains(m, Step(m, Lookups(m, t), stack, token), w, token)
  {
    hide Drives, Lookups, Reads, Moved, Goto;
    LookupsFollow(m, t);
    LookupGrounded(m, t, Top(stack), token);
    var mv := Lookups(m, t)(Top(stack), token).value;
    assert AutomatonAt(m, items, Top(stack));
    match mv {
      case ToState(s) =>
        MovedOn(m, items, Top(stack), token, s);
        ShiftReads(m, stack, w, token, s);
      case ByRule(r) =>
        GotoExplained(m, items, t, stack, w, r, token);
      case _ =>
    }
  }

  lemma {:induction false} ConsumeExplained(m: Machine, items: Items, t: Tables, stack: seq<nat>, w: seq<nat>, token: nat, n: nat)
    requires Good(m) && Drives(m, t) && Automaton(m, items) && OnStack(m, stack) && Reads(m, stack, w) && token < m.g.nterminal
    requires Within(m, Lookups(m, t))
    ensures Explains(m, Consume(m, Lookups(m, t), stack, token, n), w, token)
    decreases n
  {
    hide Drives, Lookups, Reads, Step, Automaton, Good, Within;
    LookupsFollow(m, t);
    StepSound(m, Lookups(m, t), stack, token);
    StepExplained(m, items, t, stack, w, token);
    var r := Step(m, Lookups(m, t), stack, token);
    if r.Going? && n > 0 {
      ConsumeExplained(m, items, t, r.stack, w, token, n - 1);
    }
  }

  /** The pieces of the grammar author's code that end a parse. */
  datatype Call = AcceptCode | FailureCode | OverflowCode

  /** Where a token leaves the parser; after an error the token is dropped, or the parse fails at the end of input. */
  ghost predicate Leaves(r: Result, token: nat, calls: seq<Call>, stack: seq<nat>, calls': seq<Call>) {
    match r
    case Going(s) => stack == s && calls' == calls
    case Shifted(s) => stack == s && calls' == calls
    case Failed(s) => if token == 0 then stack == [] && calls' == calls + [FailureCode] else stack == s && calls' == calls
    case Accepted => stack == [] && calls' == calls + [AcceptCode]
    case Overflowed => stack == [] && calls' == calls + [OverflowCode]
    case Unrecorded => true
  }

  /** What has been read is derived from the symbols up the stack, and only sentences have been accepted. */
  ghost predicate History(m: Machine, stack: seq<nat>, read: seq<nat>, calls: seq<Call>, sentences: seq<seq<nat>>) {
    && Reads(m, Base(stack), read) && (stack == [] ==> read == [])
    && AcceptCount(calls) == |sentences| && forall i :: 0 <= i < |sentences| ==> InLanguage(m, sentences[i])
  }

  ghost function NextSentences(r: Result, read: seq<nat>, sentences: seq<seq<nat>>): seq<seq<nat>> {
    if r.Accepted? then sentences + [read] else sentences
  }

  ghost function NextRead(r: Result, token: nat, read: seq<nat>): seq<nat> {
    if r.Shifted? then read + [token] else if r.Failed? && token != 0 then read else []
  }

  lemma HistoryNext(m: Machine, r: Result, token: nat, stack: seq<nat>, read: seq<nat>, calls: seq<Call>, sentences: seq<seq<nat>>,
                    stack': seq<nat>, calls': seq<Call>)
    requires History(m, stack, read, calls, sentences) && Explains(m, r, read, token) && !r.Going? && Sound(m, r)
    requires Leaves(r, token, calls, stack', calls')
    ensures History(m, stack', NextRead(r, token, read), calls', NextSentences(r, read, sentences)) && calls <= calls'
  {
    hide Reads, InLanguage;
    NothingRead(m);
    AcceptCountNext(calls, AcceptCode);
    AcceptCountNext(calls, FailureCode);
    AcceptCountNext(calls, OverflowCode);
  }

  lemma BaseOnStack(m: Machine, stack: seq<nat>)
    requires Good(m) && StackOk(m, stack)
    ensures OnStack(m, Base(stack))
  {
  }

  class Parser {
    const m: Machine
    const t: Tables
    const yystack: array<nat>
    var yyidx: int
    var calls: seq<Call>
    ghost const items: Items
    /** The tokens shifted since the stack was last empty, and what has been accepted so far. */
    ghost var read: seq<nat>
    ghost var sentences: seq<seq<nat>>

    ghost predicate Ready()
      reads this, yystack
    {
      && Good(m) && Drives(m, t) && Automaton(m, items) && yystack.Length == m.depth && -1 <= yyidx < yystack.Length
      && StackOk(m, Stack())
    }

    /** What has been read is derived from the symbols up the stack, and only sentences have been accepted. */
    ghost predicate Valid()
      reads this, yystack
    {
      Ready() && History(m, Stack(), read, calls, sentences)
    }

    ghost function Stack(): seq<nat>
      requires -1 <= yyidx < yystack.Length
      reads this, yystack
    {
      yystack[..yyidx + 1]
    }

    constructor (m: Machine, t: Tables, ghost items: Items)
      requires Good(m) && Drives(m, t) && Automaton(m, items)
      ensures Valid() && this.m == m && this.t == t && Stack() == [] && calls == [] && sentences == []
      ensures fresh(yystack)
    {
      this.m, this.t, this.items, yyidx, calls := m, t, items, -1, [];
      yystack := new nat[m.depth];
      read, sentences := [], [];
      new;
      NothingRead(m);
    }

    /** yy_shift: the stack is emptied when it has no room. */
    method Push(s: nat)
      requires Ready() && Stack() != [] && s < |m.states|
      modifies `yyidx, `calls, yystack
      ensures Ready()
      ensures match Pushed(m, old(Stack()), s)
              case Going(stack) => Stack() == stack && calls == old(calls)
              case _ => Stack() == [] && calls == old(calls) + [OverflowCode]
    {
      hide Good, Drives, Automaton;
      yyidx := yyidx + 1;
      if yyidx >= yystack.Length {
        yyidx := -1;
        calls := calls + [OverflowCode];
      } else {
        yystack[yyidx] := s;
        assert Stack() == old(Stack()) + [s];
      }
    }

    twostate predicate Done(r: Result, token: nat)
      requires Ready()
      reads this, yystack
    {
      Leaves(r, token, old(calls), Stack(), calls)
    }

    /** What the lookups make of a token that comes next, within n + 1 actions. */
    ghost function Outcome(token: nat, n: nat): Result
      requires Ready()
      reads this, yystack
    {
      LookupsFollow(m, t);
      Consume(m, Lookups(m, t), Base(Stack()), token, n)
    }

    /** yy_reduce */
    method Reduce(rule: nat)
      requires Ready() && Stack() != [] && rule < |m.rules| && !Goto(m, Lookups(m, t), Stack(), rule).Unrecorded?
      modifies `yyidx, `calls, yystack
      ensures Ready() && Done(Goto(m, Lookups(m, t), old(Stack()), rule), 0)
    {
      hide FindReduceAction, Performs, MoveOn, Automaton;
      LookupsFollow(m, t);
      var r := m.rules[rule];
      ghost var below := Stack()[..|Stack()| - |r.rhs|];
      assert Lookups(m, t)(Top(below), r.lhs).Some?;
      yyidx := yyidx - |r.rhs|;
      assert Stack() == below;
      var act := FindReduceAction(m.g, t, yystack[yyidx], r.lhs);
      if act < m.g.nstate {
        Push(act);
      } else if act == m.g.nstate + m.g.nrule + 1 {
        yyidx := -1;
        calls := calls + [AcceptCode];
      }
    }

    /** The body of Parse's loop: one action, and whether the token is still there (yymajor != YYNOCODE). */
    method Act(token: nat) returns (more: bool)
      requires Ready() && Stack() != [] && token < m.g.nterminal && !Step(m, Lookups(m, t), Stack(), token).Unrecorded?
      modifies `yyidx, `calls, yystack
      ensures Ready() && Done(Step(m, Lookups(m, t), old(Stack()), token), token)
      ensures more && Stack() != [] <==> Step(m, Lookups(m, t), old(Stack()), token).Going?
    {
      hide FindShiftAction, Performs, MoveOn, Goto, Automaton;
      LookupsFollow(m, t);
      StepSound(m, Lookups(m, t), Stack(), token);
      assert Lookups(m, t)(Top(Stack()), token).Some?;
      var act := FindShiftAction(m.g, t, yystack[yyidx], token);
      more := true;
      if act < m.g.nstate {
        Push(act);
        more := token == 0;
      } else if act < m.g.nstate + m.g.nrule {
        Reduce(act - m.g.nstate);
      } else if act == m.g.nstate + m.g.nrule {
        if token == 0 {
          yyidx := -1;
          calls := calls + [FailureCode];
        }
        more := false;
      } else {
        yyidx := -1;
        calls := calls + [AcceptCode];
        more := false;
      }
    }

    /** Parse's loop, for grammars without an error symbol. */
    method Loop(token: nat, ghost n: nat)
      requires Ready() && Stack() != [] && token < m.g.nterminal
      requires !Outcome(token, n).Unrecorded? && !Outcome(token, n).Going?
      modifies `yyidx, `calls, yystack
      ensures Ready() && Done(old(Outcome(token, n)), token)
    {
      hide Lookups, Step, Performs, MoveOn, FindShiftAction, FindReduceAction, Automaton;
      LookupsFollow(m, t);
      ghost var mv := Lookups(m, t);
      ghost var k := n;
      var more := true;
      while more && yyidx >= 0
        invariant Ready()
        invariant if more && yyidx >= 0 then calls == old(calls) && Consume(m, mv, Stack(), token, k) == old(Outcome(token, n))
                  else Done(old(Outcome(token, n)), token)
        decreases k, more && yyidx >= 0
      {
        StepSound(m, mv, Stack(), token);
        more := Act(token);
        if k > 0 { k := k - 1; }
      }
    }

    /**
      Parse: one token. A parser with an empty stack starts anew, but not on the end of
      input. Whatever the token, the stack never runs empty under a reduction, what has
      been read stays derived from the stack, and what is accepted is a sentence.
     */
    method Parse(token: nat, ghost n: nat)
      requires Valid() && token < m.g.nterminal && !Outcome(token, n).Going?
      modifies this, yystack
      ensures Valid()
      ensures if old(Stack()) == [] && token == 0 then Stack() == [] && calls == old(calls) && sentences == old(sentences)
              else Done(old(Outcome(token, n)), token)
                   && sentences == old(sentences) + (if old(Outcome(token, n)).Accepted? then [old(read)] else [])
                   && (old(Outcome(token, n)).Shifted? ==> read == old(read) + [token])
      ensures old(calls) <= calls
    {
      hide Good, Drives, Automaton, Lookups, Consume, Leaves, History, Explains, OnStack, Sound;
      if yyidx < 0 && token == 0 { return; }
      ghost var r := Outcome(token, n);
      ConsumeEnds(token, n);
      if yyidx < 0 {
        Restart();
      }
      Loop(token, n);
      HistoryNext(m, r, token, old(Stack()), read, old(calls), sentences, Stack(), calls);
      sentences, read := NextSentences(r, read, sentences), NextRead(r, token, read);
    }

    /** Back to the first state. */
    method Restart()
      requires Ready() && Stack() == []
      modifies `yyidx, yystack
      ensures Ready() && Stack() == Base(old(Stack())) == [0]
    {
      hide Drives, Automaton;
      yyidx := 0;
      yystack[0] := 0;
      assert Stack() == [0];
    }

    lemma ConsumeEnds(token: nat, n: nat)
      requires Valid() && token < m.g.nterminal
      ensures Explains(m, Outcome(token, n), read, token) && Sound(m, Outcome(token, n)) && !Outcome(token, n).Unrecorded?
    {
      hide Drives, Automaton, Lookups, Reads;
      LookupsFollow(m, t);
      ConsumeExplained(m, items, t, Base(Stack()), read, token, n);
    }

    /** Any input at all, if no token takes more than n + 1 actions: only sentences are accepted. */
    method Feed(tokens: seq<nat>, ghost n: nat)
      requires Valid() && Halting(m, t, n) && (forall i :: 0 <= i < |tokens| ==> tokens[i] < m.g.nterminal)
      modifies this, yystack
      ensures Valid() && old(calls) <= calls && old(sentences) <= sentences
      ensures AcceptCount(calls) == |sentences| && forall i :: 0 <= i < |sentences| ==> InLanguage(m, sentences[i])
    {
      hide Good, Drives, Automaton, Reads, InLanguage, Lookups, Consume, OnStack, Leaves;
      for i := 0 to |tokens|
        invariant Valid() && old(calls) <= calls && old(sentences) <= sentences
      {
        BaseOnStack(m, Stack());
        HaltingAt(m, t, n, Base(Stack()), tokens[i]);
        Parse(tokens[i], n);
      }
    }

    /** A whole input: every sentence the recorded actions accept is accepted, and the parser is as before. */
    method ParseAll(tokens: seq<nat>, ghost n: nat)
      requires Valid() && Stack() == [] && (forall i :: 0 <= i < |tokens| ==> tokens[i] < m.g.nterminal)
      requires Sentence(m, [], tokens, n) && tokens[0] != 0
      modifies this, yystack
      ensures Valid() && Stack() == [] && calls == old(calls) + [AcceptCode]
      ensures sentences == old(sentences) + [tokens[..|tokens| - 1]]
    {
      hide Good, Drives, Lookups, States, Consume, Automaton, Reads, InLanguage;
      var i := 0;
      assert tokens[0..] == tokens;
      while i < |tokens|
        invariant i <= |tokens| && Valid()
        invariant i < |tokens| ==> calls == old(calls) && sentences == old(sentences) && read == tokens[..i] && Sentence(m, Stack(), tokens[i..], n)
        invariant i > 0 && i < |tokens| ==> Stack() != []
        invariant i == |tokens| ==> Stack() == [] && calls == old(calls) + [AcceptCode] && sentences == old(sentences) + [tokens[..i - 1]]
      {
        ghost var rest := tokens[i..];
        assert rest[1..] == tokens[i + 1..];
        StatesWithin(m);
        LookupsFollow(m, t);
        BaseOnStack(m, Stack());
        ConsumeFollows(m, Lookups(m, t), States(m), Base(Stack()), tokens[i], n);
        Parse(tokens[i], n);
        i := i + 1;
      }
    }
  }

  /** How often the accept code has run. */
  ghost function AcceptCount(calls: seq<Call>): nat {
    if calls == [] then 0 else AcceptCount(calls[..|calls| - 1]) + if calls[|calls| - 1].AcceptCode? then 1 else 0
  }

  lemma AcceptCountNext(calls: seq<Call>, c: Call)
    ensures AcceptCount(calls + [c]) == AcceptCount(calls) + if c.AcceptCode? then 1 else 0
  {
    assert (calls + [c])[..|calls|] == calls;
  }

  lemma NothingRead(m: Machine)
    ensures Reads(m, [0], [])
  {
    var none: seq<nat> := [];
    assert F.Derives(Syntax(m), none, none, 0);
    assert Spelled(m, [0], none) && Yields(m, none, none);
  }

  /** No token takes more than n + 1 actions, on whatever stack. */
  ghost predicate Halting(m: Machine, t: Tables, n: nat) {
    Good(m) && Drives(m, t) &&
    forall stack, token :: OnStack(m, stack) && 0 <= token < m.g.nterminal ==>
      (LookupsFollow(m, t); !Consume(m, Lookups(m, t), stack, token, n).Going?)
  }

  lemma HaltingAt(m: Machine, t: Tables, n: nat, stack: seq<nat>, token: nat)
    requires Halting(m, t, n) && OnStack(m, stack) && token < m.g.nterminal
    ensures Shaped(m.states, t) && Within(m, Lookups(m, t)) && !Consume(m, Lookups(m, t), stack, token, n).Going?
  {
    hide Good, Drives, Lookups, Consume;
    LookupsFollow(m, t);
  }

  lemma MoveIs(acts: seq<Action>, a: Action)
    requires Deterministic(acts) && a in acts && Used(a)
    ensures MoveOn(acts, a.sym) == Some(Recorded(a))
  {
    forall b | b in acts && Used(b) && b.sym == a.sym ensures b == a {
      OneAnswer(acts, a, b);
    }
  }

  /** The machine of the grammar with one rule, S ::= a. */
  function Smallest(depth: nat): Machine {
    Machine(Grammar(2, 1, 2, 3), [[Action(1, Shift, 1), Action(2, Accept, 0)], [Action(0, Reduce, 0)]], [F.Rule(2, [1])], 2, depth)
  }

  lemma SmallestMoves(depth: nat)
    ensures var m := Smallest(depth);
            && Deterministic(m.states[0]) && Deterministic(m.states[1])
            && MoveOn(m.states[0], 1) == Some(ToState(1)) && MoveOn(m.states[0], 2) == Some(Accepts)
            && MoveOn(m.states[1], 0) == Some(ByRule(0))
  {
    hide MoveOn;
    var m := Smallest(depth);
    MoveIs(m.states[0], m.states[0][0]);
    MoveIs(m.states[0], m.states[0][1]);
    MoveIs(m.states[1], m.states[1][0]);
  }

  lemma SmallestAutomaton(depth: nat) returns (items: Items)
    ensures Automaton(Smallest(depth), items)
  {
    hide MoveOn;
    var m := Smallest(depth);
    items := [{(0, 0)}, {(0, 1)}];
    SmallestMoves(depth);
    assert AutomatonAt(m, items, 0);
    assert AutomatonAt(m, items, 1);
  }

  /** Such a machine exists, and its recorded actions accept "a" and the end of input. */
  lemma SmallestAccepts(depth: nat) returns (items: Items)
    requires depth >= 2
    ensures var m := Smallest(depth); Good(m) && Automaton(m, items) && Sentence(m, [], [1, 0], 0)
  {
    hide MoveOn, AutomatonAt;
    var m := Smallest(depth);
    items := SmallestAutomaton(depth);
    SmallestMoves(depth);
    StatesWithin(m);
    SmallestSteps(m);
    assert [1, 0][1..] == [0];
    assert Base([]) == [0];
  }

  lemma SmallestSteps(m: Machine)
    requires m == Smallest(m.depth) && m.depth >= 2
    ensures Step(m, States(m), [0], 1) == Shifted([0, 1])
    ensures Step(m, States(m), [0, 1], 0) == Accepted
  {
    hide MoveOn;
    SmallestMoves(m.depth);
    assert [0, 1][..1] == [0];
  }

  /** From a machine to its parser: the generated tables drive it. */
  method GenerateParser(m: Machine, qsort: seq<seq<Action>> -> seq<(nat, bool)>, ghost items: Items) returns (p: Parser)
    requires Good(m) && Automaton(m, items) && forall ss :: LargestFirst(m.g, ss, qsort(ss))
    requires forall s :: 0 <= s < |m.states| ==> |m.states[s]| < MergeSort.Pow2(MergeSort.LISTSIZE)
    ensures fresh(p) && fresh(p.yystack) && p.Valid() && p.m == m && p.Stack() == [] && p.calls == []
  {
    hide Performs, Read, FindShiftAction, FindReduceAction, Deterministic, InRange, SymbolsBelow, LargestFirst, Correct, Compressed, Automaton;
    var _, t := Generate(m.g, m.states, qsort);
    p := new Parser(m, t, items);
  }
}
