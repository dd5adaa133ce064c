/**
  Simplifying a path in place: two positions walk over one buffer, or over two. The
  result is that of splitting the path at its slashes and keeping a stack of names.
 */
module PathSimplify {
  import opened Basics

  type Path = seq<Bytes>

  const SPACE: byte := ' ' as int
  const DOT: byte := '.' as int
  const SLASH: byte := '/' as int

  // ------------------------------------------------------------ split and stack

  ghost predicate Special(name: Bytes) { name == [] || name == [DOT] || name == [DOT, DOT] }

  /** The names between the slashes of a text. */
  ghost function Split(s: Bytes): (p: Path)
    ensures p != []
  {
    if s == [] then [[]]
    else
      var p, c := Split(s[..|s| - 1]), s[|s| - 1];
      if c == SLASH then p + [[]] else Longer(p, [c])
  }

  /** The last name made longer. */
  ghost function Longer(p: Path, x: Bytes): (r: Path)
    requires p != []
    ensures r != []
  {
    p[..|p| - 1] + [p[|p| - 1] + x]
  }

  lemma LongerMore(p: Path, x: Bytes, y: Bytes)
    requires p != []
    ensures Longer(p, []) == p && Longer(Longer(p, x), y) == Longer(p, x + y)
  {
    assert p == p[..|p| - 1] + [p[|p| - 1]] && p[|p| - 1] + [] == p[|p| - 1];
    assert p[|p| - 1] + (x + y) == p[|p| - 1] + x + y;
  }

  lemma LongerNew(p: Path, x: Bytes)
    ensures Longer(p + [[]], x) == p + [x]
  {
    assert (p + [[]])[..|p|] == p && [] + x == x;
  }

  /** One name more: nothing for an empty name or ".", one name less for "..". */
  ghost function Push(stack: Path, name: Bytes): Path {
    if name == [DOT, DOT] then (if stack == [] then [] else stack[..|stack| - 1])
    else if Special(name) then stack
    else stack + [name]
  }

  ghost function Stack(p: Path): Path {
    if p == [] then [] else Push(Stack(p[..|p| - 1]), p[|p| - 1])
  }

  /** A slash before every name. */
  ghost function Join(p: Path): Bytes {
    if p == [] then [] else Join(p[..|p| - 1]) + [SLASH] + p[|p| - 1]
  }

  /** The names that remain, and an empty last one if the path ends in a slash, "." or "..". */
  ghost function Canonical(p: Path): Path
    requires p != []
  {
    Stack(p) + if Special(p[|p| - 1]) then [[]] else []
  }

  ghost function UpToNul(s: Bytes): Bytes {
    if s == [] || s[0] == NUL then [] else [s[0]] + UpToNul(s[1..])
  }

  ghost function AfterSpaces(s: Bytes): Bytes {
    if s != [] && s[0] == SPACE then AfterSpaces(s[1..]) else s
  }

  /** The text with exactly one slash put in front if there is none. */
  ghost function Rooted(s: Bytes): (r: Bytes)
    ensures r != [] && r[0] == SLASH
  {
    if s != [] && s[0] == SLASH then s else [SLASH] + s
  }

  ghost function Text(input: Bytes): (r: Bytes)
    ensures r != [] && r[0] == SLASH
  {
    Rooted(AfterSpaces(UpToNul(input)))
  }

  ghost function Simplified(input: Bytes): Bytes {
    if input == [] then [] else Join(Canonical(Split(Text(input)[1..])))
  }

  // ------------------------------------------------------- what the result is

  ghost predicate Plain(name: Bytes) { SLASH !in name }

  ghost predicate AllPlain(p: Path) { forall i :: 0 <= i < |p| ==> Plain(p[i]) }

  ghost predicate Names(p: Path) { forall i :: 0 <= i < |p| ==> Plain(p[i]) && !Special(p[i]) }

  lemma {:induction false} SplitPlain(s: Bytes)
    ensures AllPlain(Split(s))
  {
    if s != [] {
      SplitPlain(s[..|s| - 1]);
    }
  }

  lemma {:induction false} StackNames(p: Path)
    requires AllPlain(p)
    ensures Names(Stack(p))
  {
    if p != [] {
      StackNames(p[..|p| - 1]);
    }
  }

  lemma JoinNext(p: Path, name: Bytes)
    ensures Join(p + [name]) == Join(p) + [SLASH] + name
  {
    assert (p + [name])[..|p|] == p;
  }

  lemma JoinLonger(p: Path, x: Bytes)
    requires p != []
    ensures Join(Longer(p, x)) == Join(p) + x
  {
    var init, name := p[..|p| - 1], p[|p| - 1];
    JoinNext(init, name + x);
    assert Join(init) + [SLASH] + (name + x) == Join(init) + [SLASH] + name + x;
  }

  lemma SplitNext(s: Bytes, c: byte)
    ensures Split(s + [c]) == if c == SLASH then Split(s) + [[]] else Longer(Split(s), [c])
    ensures Split([]) == [[]]
  {
    assert (s + [c])[..|s|] == s;
  }

  /** Appending a name without slashes extends the last name. */
  lemma {:induction false} SplitName(s: Bytes, name: Bytes)
    requires Plain(name)
    ensures Split(s + name) == Longer(Split(s), name)
  {
    hide Split, Longer;
    if name == [] {
      assert s + name == s;
      LongerMore(Split(s), [], []);
    } else {
      var init, c := name[..|name| - 1], name[|name| - 1];
      SplitName(s, init);
      SplitNext(s + init, c);
      assert s + name == s + init + [c] && name == init + [c];
      LongerMore(Split(s), init, [c]);
    }
  }

  /** Splitting undoes joining. */
  lemma {:induction false} SplitJoin(p: Path)
    requires p != [] && AllPlain(p)
    ensures Join(p) != [] && Join(p)[0] == SLASH && Split(Join(p)[1..]) == p
  {
    hide Split, Longer, Join;
    var init, name := p[..|p| - 1], p[|p| - 1];
    assert p == init + [name];
    JoinNext(init, name);
    SplitNext([], SLASH);
    NoJoin();
    if init == [] {
      assert Join(p)[1..] == [] + name;
      SplitName([], name);
      LongerNew([], name);
      assert [] + [[]] == Split([]);
      assert [] + [name] == p;
    } else {
      SplitJoin(init);
      SplitJoinNext(init, name, Join(init));
    }
  }

  lemma SplitJoinNext(init: Path, name: Bytes, s: Bytes)
    requires s != [] && Split(s[1..]) == init && Plain(name)
    ensures Split((s + [SLASH] + name)[1..]) == init + [name]
  {
    hide Split, Longer;
    assert (s + [SLASH] + name)[1..] == s[1..] + [SLASH] + name;
    SplitNext(s[1..], SLASH);
    SplitName(s[1..] + [SLASH], name);
    LongerNew(init, name);
  }

  lemma JoinEmpty(p: Path)
    ensures Join(p) == [] <==> p == []
  {
  }

  lemma NoJoin()
    ensures Join([]) == []
  {
  }

  /** A path of proper names is its own stack. */
  lemma {:induction false} StackOfNames(p: Path)
    requires Names(p)
    ensures Stack(p) == p
  {
    if p != [] {
      StackOfNames(p[..|p| - 1]);
      assert p == p[..|p| - 1] + [p[|p| - 1]];
    }
  }

  lemma CanonicalTwice(p: Path)
    requires p != [] && AllPlain(p)
    ensures Canonical(p) != [] && AllPlain(Canonical(p)) && Canonical(Canonical(p)) == Canonical(p)
  {
    hide Stack;
    var q := Canonical(p);
    var names := Stack(p);
    StackNames(p);
    StackOfNames(names);
    if Special(p[|p| - 1]) {
      assert q[..|names|] == names;
      assert Stack(q) == names by { StackIs(names); }
    } else {
      assert q == names;
      StackLast(p);
    }
  }

  lemma StackIs(names: Path)
    requires Stack(names) == names
    ensures Stack(names + [[]]) == names
  {
    assert (names + [[]])[..|names|] == names;
  }

  lemma StackLast(p: Path)
    requires p != [] && !Special(p[|p| - 1])
    ensures Stack(p) != [] && Stack(p)[|Stack(p)| - 1] == p[|p| - 1]
  {
  }

  lemma {:induction false} UpToNulIs(s: Bytes)
    ensures var t := UpToNul(s); NUL !in t && |t| <= |s| && t == s[..|t|] && (|t| < |s| ==> s[|t|] == NUL)
    ensures NUL !in s ==> UpToNul(s) == s
  {
    if s != [] && s[0] != NUL {
      UpToNulIs(s[1..]);
      var t := UpToNul(s[1..]);
      assert s[..1 + |t|] == [s[0]] + s[1..][..|t|];
      assert s == [s[0]] + s[1..];
    }
  }

  lemma {:induction false} SplitBytes(s: Bytes)
    requires NUL !in s
    ensures forall i :: 0 <= i < |Split(s)| ==> NUL !in Split(s)[i]
  {
    if s != [] {
      SplitBytes(s[..|s| - 1]);
    }
  }

  lemma {:induction false} StackFrom(p: Path)
    requires forall i :: 0 <= i < |p| ==> NUL !in p[i]
    ensures forall i :: 0 <= i < |Stack(p)| ==> NUL !in Stack(p)[i]
  {
    if p != [] {
      StackFrom(p[..|p| - 1]);
    }
  }

  lemma {:induction false} JoinBytes(p: Path)
    requires forall i :: 0 <= i < |p| ==> NUL !in p[i]
    ensures NUL !in Join(p)
  {
    if p != [] {
      JoinBytes(p[..|p| - 1]);
    }
  }

  /** The length of a joined path: dropping names never makes it longer. */
  lemma {:induction false} StackLength(p: Path)
    ensures |Join(Stack(p))| <= |Join(p)|
    ensures p != [] && Special(p[|p| - 1]) ==> |Join(Stack(p))| + 1 <= |Join(p)|
  {
    if p != [] {
      var init := p[..|p| - 1];
      StackLength(init);
      var st := Stack(init);
      if p[|p| - 1] == [DOT, DOT] {
        if st != [] {
          assert st == st[..|st| - 1] + [st[|st| - 1]];
        }
      } else if !Special(p[|p| - 1]) {
        JoinNext(st, p[|p| - 1]);
      }
    }
  }

  /** Joining undoes splitting. */
  lemma {:induction false} JoinSplit(s: Bytes)
    ensures Join(Split(s)) == [SLASH] + s
  {
    hide Join;
    NoJoin();
    if s == [] {
      JoinNext([], []);
      assert [] + [[]] == Split(s);
    } else {
      var init, c := s[..|s| - 1], s[|s| - 1];
      JoinSplit(init);
      var p := Split(init);
      assert s == init + [c];
      if c == SLASH {
        JoinNext(p, []);
      } else {
        JoinLonger(p, [c]);
      }
    }
  }

  lemma {:induction false} AfterSpacesIs(s: Bytes)
    ensures |AfterSpaces(s)| <= |s| && AfterSpaces(s) == s[|s| - |AfterSpaces(s)|..]
    ensures forall i :: 0 <= i < |s| - |AfterSpaces(s)| ==> s[i] == SPACE
    ensures AfterSpaces(s) == [] || AfterSpaces(s)[0] != SPACE
    ensures s != [] && s[0] != SPACE ==> AfterSpaces(s) == s
  {
    if s != [] && s[0] == SPACE {
      AfterSpacesIs(s[1..]);
    }
  }

  /** The result begins with a slash and is at most one byte longer than the input. */
  lemma SimplifiedShape(input: Bytes)
    requires input != []
    ensures var r := Simplified(input); r != [] && r[0] == SLASH && |r| <= |input| + 1 && NUL !in r
  {
    hide Split, Stack, Join, Canonical, Text;
    TextShape(input);
    var t := Text(input)[1..];
    var p := Split(t);
    SplitPlain(t);
    CanonicalTwice(p);
    SplitJoin(Canonical(p));
    CanonicalLength(t);
    CanonicalBytes(t);
  }

  lemma TextShape(input: Bytes)
    ensures |Text(input)| <= |input| + 1 && NUL !in Text(input) && NUL !in Text(input)[1..]
  {
    hide UpToNul, AfterSpaces;
    UpToNulIs(input);
    AfterSpacesIs(UpToNul(input));
  }

  lemma CanonicalLength(t: Bytes)
    ensures |Join(Canonical(Split(t)))| <= |t| + 1
  {
    hide Split, Stack, Join;
    var p := Split(t);
    JoinSplit(t);
    StackLength(p);
    if Special(p[|p| - 1]) {
      JoinNext(Stack(p), []);
    } else {
      assert Canonical(p) == Stack(p);
    }
  }

  lemma CanonicalBytes(t: Bytes)
    requires NUL !in t
    ensures NUL !in Join(Canonical(Split(t)))
  {
    hide Split, Stack, Join;
    SplitBytes(t);
    StackFrom(Split(t));
    JoinBytes(Canonical(Split(t)));
  }

  /** No name of the result is empty, "." or "..", except that the last may be empty. */
  lemma SimplifiedNames(input: Bytes)
    requires input != []
    ensures var p := Split(Simplified(input)[1..]);
            forall i :: 0 <= i < |p| ==> !Special(p[i]) || (i == |p| - 1 && p[i] == [])
  {
    hide Split, Stack, Join;
    SimplifiedShape(input);
    var p := Split(Text(input)[1..]);
    SplitPlain(Text(input)[1..]);
    StackNames(p);
    CanonicalTwice(p);
    SplitJoin(Canonical(p));
  }

  /** Simplifying twice changes nothing more. */
  lemma Idempotent(input: Bytes)
    ensures Simplified(Simplified(input)) == Simplified(input)
  {
    hide Split, Stack, Join, Canonical, Text;
    if input != [] {
      var r := Simplified(input);
      SimplifiedShape(input);
      TextIs(r);
      var p := Split(Text(input)[1..]);
      SplitPlain(Text(input)[1..]);
      CanonicalTwice(p);
      SplitJoin(Canonical(p));
    }
  }

  lemma TextIs(s: Bytes)
    requires s != [] && s[0] == SLASH && NUL !in s
    ensures Text(s) == s
  {
    UpToNulIs(s);
    AfterSpacesIs(s);
  }

  // ------------------------------------------------- laws of the result on texts

  /** A text that begins and ends with a slash. */
  ghost predicate Directory(u: Bytes) {
    u != [] && u[0] == SLASH && u[|u| - 1] == SLASH
  }

  ghost function DirNames(u: Bytes): Path
    requires Directory(u)
  {
    if |u| == 1 then [] else Split(u[1..|u| - 1])
  }

  lemma {:induction false} SplitAppend(a: Bytes, b: Bytes)
    ensures Split(a + [SLASH] + b) == Split(a) + Split(b)
  {
    hide Split;
    if b == [] {
      assert a + [SLASH] + b == a + [SLASH];
      SplitNext(a, SLASH);
    } else {
      var init, c := b[..|b| - 1], b[|b| - 1];
      SplitAppend(a, init);
      assert b == init + [c] && a + [SLASH] + b == a + [SLASH] + init + [c];
      SplitNext(a + [SLASH] + init, c);
      SplitNext(init, c);
      var p, q := Split(a), Split(init);
      if c == SLASH {
        assert p + (q + [[]]) == p + q + [[]];
      } else {
        LongerBehind(p, q, [c]);
      }
    }
  }

  lemma LongerBehind(p: Path, q: Path, x: Bytes)
    requires q != []
    ensures Longer(p + q, x) == p + Longer(q, x)
  {
    assert (p + q)[..|p + q| - 1] == p + q[..|q| - 1];
  }

  /** What follows a directory is split on its own. */
  lemma DirSplit(u: Bytes, b: Bytes)
    requires Directory(u)
    ensures Split((u + b)[1..]) == DirNames(u) + Split(b)
  {
    hide Split;
    if |u| == 1 {
      assert (u + b)[1..] == b && [] + Split(b) == Split(b);
    } else {
      var a := u[1..|u| - 1];
      assert (u + b)[1..] == a + [SLASH] + b;
      SplitAppend(a, b);
    }
  }

  lemma StackNext(p: Path, name: Bytes)
    ensures Stack(p + [name]) == Push(Stack(p), name)
    ensures Stack([]) == []
  {
    assert (p + [name])[..|p|] == p;
  }

  /** Names in front matter only by the stack they leave. */
  lemma {:induction false} SameStack(p: Path, p': Path, q: Path)
    requires Stack(p) == Stack(p')
    ensures Stack(p + q) == Stack(p' + q)
  {
    hide Stack;
    if q == [] {
      assert p + q == p && p' + q == p';
    } else {
      var init, name := q[..|q| - 1], q[|q| - 1];
      SameStack(p, p', init);
      assert p + q == p + init + [name] && p' + q == p' + init + [name];
      StackNext(p + init, name);
      StackNext(p' + init, name);
    }
  }

  lemma SameCanonical(p: Path, p': Path, q: Path)
    requires Stack(p) == Stack(p') && q != []
    ensures Canonical(p + q) == Canonical(p' + q)
  {
    hide Stack, Special;
    SameStack(p, p', q);
    assert (p + q)[|p + q| - 1] == q[|q| - 1] == (p' + q)[|p' + q| - 1];
  }

  /** Two directories that leave the same names can be exchanged before any text. */
  lemma SameResult(u: Bytes, u': Bytes, b: Bytes)
    requires Directory(u) && Directory(u') && NUL !in u + u' + b && Stack(DirNames(u)) == Stack(DirNames(u'))
    ensures Simplified(u + b) == Simplified(u' + b)
  {
    hide Split, Stack, Join, Canonical, Text, DirNames;
    assert NUL !in u + b && NUL !in u' + b;
    TextIs(u + b);
    TextIs(u' + b);
    DirSplit(u, b);
    DirSplit(u', b);
    SameCanonical(DirNames(u), DirNames(u'), Split(b));
  }

  /** A directory made longer by one name. */
  lemma DirNext(u: Bytes, name: Bytes)
    requires Directory(u) && Plain(name)
    ensures Directory(u + name + [SLASH]) && DirNames(u + name + [SLASH]) == DirNames(u) + [name]
    ensures Split((u + name)[1..]) == DirNames(u) + [name]
  {
    hide Split;
    var v := u + name + [SLASH];
    assert v[1..|v| - 1] == (u + name)[1..];
    DirSplit(u, name);
    SplitNext([], SLASH);
    SplitName([], name);
    LongerNew([], name);
    assert [] + name == name && [] + [[]] == Split([]) && [] + [name] == [name];
  }

  /** ".." takes away the name before it: u x "/../" b gives what u b gives. */
  lemma ParentDropsName(u: Bytes, x: Bytes, b: Bytes)
    requires Directory(u) && x != [] && x != [DOT] && x != [DOT, DOT] && SLASH !in x && NUL !in u + x + b
    ensures Simplified(u + x + [SLASH, DOT, DOT, SLASH] + b) == Simplified(u + b)
  {
    hide Simplified, Stack, DirNames;
    var v := u + x + [SLASH];
    var w := v + [DOT, DOT] + [SLASH];
    DirNext(u, x);
    DirNext(v, [DOT, DOT]);
    StackNext(DirNames(u), x);
    StackNext(DirNames(v), [DOT, DOT]);
    PushBack(Stack(DirNames(u)), x);
    assert u + x + [SLASH, DOT, DOT, SLASH] + b == w + b;
    SameResult(w, u, b);
  }

  lemma PushBack(stack: Path, x: Bytes)
    requires !Special(x)
    ensures Push(Push(stack, x), [DOT, DOT]) == stack
  {
  }

  /** ".." at the end gives the directory, with its slash. */
  lemma ParentAtEnd(u: Bytes, x: Bytes)
    requires Directory(u) && x != [] && x != [DOT] && x != [DOT, DOT] && SLASH !in x && NUL !in u + x
    ensures Simplified(u + x + [SLASH, DOT, DOT]) == Simplified(u)
  {
    hide Simplified, Stack, DirNames;
    var v := u + x + [SLASH];
    assert u + x + [SLASH, DOT, DOT] == v + [DOT, DOT];
    DirNext(u, x);
    StackNext(DirNames(u), x);
    StackNext(DirNames(v), [DOT, DOT]);
    PushBack(Stack(DirNames(u)), x);
    EndsInSpecial(v, [DOT, DOT], u);
  }

  /** A special last name leaves a slash, like the directory that has the names left by then. */
  lemma EndsInSpecial(v: Bytes, name: Bytes, u: Bytes)
    requires Directory(v) && Directory(u) && Special(name) && NUL !in v + name + u
    requires Stack(DirNames(v) + [name]) == Stack(DirNames(u))
    ensures Simplified(v + name) == Simplified(u)
  {
    hide Split, Stack, Join, DirNames;
    var p, p' := DirNames(v) + [name], DirNames(u) + [[]];
    assert NUL !in v + name && NUL !in u;
    TextIs(v + name);
    TextIs(u);
    DirNext(v, name);
    DirSplit(u, []);
    SplitNext([], SLASH);
    assert u + [] == u;
    StackNext(DirNames(u), []);
    assert Canonical(p) == Canonical(p');
  }

  /** ".." at the root is dropped. */
  lemma ParentOfRoot(b: Bytes)
    requires NUL !in b
    ensures Simplified([SLASH, DOT, DOT, SLASH] + b) == Simplified([SLASH] + b)
    ensures Simplified([SLASH, DOT, DOT]) == [SLASH]
  {
    hide Simplified, Stack, DirNames, Split, Special;
    var u: Bytes := [SLASH];
    var v := u + [DOT, DOT] + [SLASH];
    assert v == [SLASH, DOT, DOT, SLASH] && u + [DOT, DOT] == [SLASH, DOT, DOT];
    ParentOfNothing(u);
    RootStays(u);
    SameResult(v, u, b);
    EndsInSpecial(u, [DOT, DOT], u);
  }

  lemma ParentOfNothing(u: Bytes)
    requires u == [SLASH]
    ensures Directory(u + [DOT, DOT] + [SLASH]) && NUL !in u + [DOT, DOT] + [SLASH] && Special([DOT, DOT])
    ensures Stack(DirNames(u) + [[DOT, DOT]]) == Stack(DirNames(u)) == Stack(DirNames(u + [DOT, DOT] + [SLASH]))
  {
    hide DirNames, Stack, Split;
    DirNext(u, [DOT, DOT]);
    RootNames(u);
    StackNext([], [DOT, DOT]);
  }

  lemma RootNames(u: Bytes)
    requires u == [SLASH]
    ensures DirNames(u) == []
  {
  }

  lemma RootStays(u: Bytes)
    requires u == [SLASH]
    ensures Simplified(u) == u
  {
    hide Split, Stack, Text;
    TextIs(u);
    SplitNext([], SLASH);
    assert u[1..] == [];
    StackNext([], []);
    var none, one: Path := [], [[]];
    assert none + one == one;
    JoinNext([], []);
    NoJoin();
  }

  /** An empty name or "." is left out, inside the text or at its end. */
  lemma EmptyAndDot(u: Bytes, b: Bytes)
    requires Directory(u) && NUL !in u + b
    ensures Simplified(u + [SLASH] + b) == Simplified(u + b)
    ensures Simplified(u + [DOT, SLASH] + b) == Simplified(u + b)
    ensures Simplified(u + [DOT]) == Simplified(u)
  {
    hide Simplified, Stack, DirNames;
    DirNext(u, []);
    DirNext(u, [DOT]);
    assert u + [] + [SLASH] == u + [SLASH] && u + [DOT] + [SLASH] == u + [DOT, SLASH];
    StackNext(DirNames(u), []);
    StackNext(DirNames(u), [DOT]);
    SameResult(u + [SLASH], u, b);
    SameResult(u + [DOT, SLASH], u, b);
    EndsInSpecial(u, [DOT], u);
  }

  /** No "." and no "..", and no empty name but the last. */
  ghost predicate Clean(p: Path) {
    forall i :: 0 <= i < |p| ==> p[i] != [DOT] && p[i] != [DOT, DOT] && (p[i] == [] ==> i == |p| - 1)
  }

  /** A text that begins with a slash and has only clean names stays as it is. */
  lemma CleanStays(s: Bytes)
    requires s != [] && s[0] == SLASH && NUL !in s && Clean(Split(s[1..]))
    ensures Simplified(s) == s
  {
    hide Split, Stack, Text, Canonical, Clean;
    TextIs(s);
    SplitPlain(s[1..]);
    CleanCanonical(Split(s[1..]));
    JoinSplit(s[1..]);
    assert s == [SLASH] + s[1..];
  }

  lemma CleanCanonical(p: Path)
    requires p != [] && AllPlain(p) && Clean(p)
    ensures Canonical(p) == p
  {
    hide Stack;
    var init, last := p[..|p| - 1], p[|p| - 1];
    assert p == init + [last];
    forall i | 0 <= i < |init| ensures Plain(init[i]) && !Special(init[i]) {
      assert init[i] == p[i];
    }
    StackOfNames(init);
    StackNext(init, last);
  }

  /** Leading spaces do not count, a missing slash is added, and a NUL ends the text. */
  lemma TextStarts(s: Bytes, t: Bytes)
    requires s != [] && NUL !in s
    ensures Simplified([SPACE] + s) == Simplified(s)
    ensures s[0] !in {SPACE, SLASH} ==> Simplified([SLASH] + s) == Simplified(s)
    ensures Simplified(s + [NUL] + t) == Simplified(s)
  {
    hide Split, Stack, Join, Canonical;
    UpToNulIs(s);
    assert ([SPACE] + s)[1..] == s && ([SLASH] + s)[1..] == s;
    AfterSpacesIs(s);
    TextIs([SLASH] + s);
    UpToNulCut(s, t);
  }

  lemma {:induction false} UpToNulCut(s: Bytes, t: Bytes)
    requires NUL !in s
    ensures UpToNul(s + [NUL] + t) == s
  {
    if s == [] {
      assert s + [NUL] + t == [NUL] + t;
    } else {
      assert (s + [NUL] + t)[1..] == s[1..] + [NUL] + t;
      UpToNulCut(s[1..], t);
      assert s == [s[0]] + s[1..];
    }
  }

  // ------------------------------------------------------- two positions

  /** The names of the first i bytes of the text. */
  ghost function NamesOf(s: Bytes, i: nat): (p: Path)
    requires i <= |s|
  {
    if i == 0 then [] else Split(s[1..i])
  }

  /** The output when the last name is complete: only what the stack holds. */
  ghost function Complete(s: Bytes, i: nat): Bytes
    requires i <= |s|
  {
    Join(Stack(NamesOf(s, i)))
  }

  ghost function Last(s: Bytes, i: nat): Bytes
    requires 0 < i <= |s|
  {
    var p := Split(s[1..i]);
    p[|p| - 1]
  }

  /** The stack before the last name. */
  ghost function Before(s: Bytes, i: nat): Path
    requires 0 < i <= |s|
  {
    var p := Split(s[1..i]);
    Stack(p[..|p| - 1])
  }

  /** The output while the last name is being copied. */
  ghost function Partial(s: Bytes, i: nat): Bytes
    requires 0 < i <= |s|
  {
    Join(Before(s, i)) + [SLASH] + Last(s, i)
  }

  lemma CopySlash(s: Bytes, i: nat)
    requires i < |s| && s[0] == SLASH && s[i] == SLASH
    ensures Partial(s, i + 1) == Complete(s, i) + [SLASH] && Join(Before(s, i + 1)) == Complete(s, i) && Last(s, i + 1) == []
  {
    hide Split, Stack, Join;
    if i == 0 {
      assert s[1..1] == [];
      SplitNext([], SLASH);
      assert Split(s[1..1])[..0] == [] == NamesOf(s, 0);
    } else {
      assert s[1..i + 1] == s[1..i] + [SLASH];
      SplitNext(s[1..i], SLASH);
      var p := Split(s[1..i]);
      assert (p + [[]])[..|p|] == p;
    }
  }

  lemma CopyByte(s: Bytes, i: nat)
    requires 0 < i < |s| && s[i] != SLASH
    ensures Partial(s, i + 1) == Partial(s, i) + [s[i]] && Before(s, i + 1) == Before(s, i) && Last(s, i + 1) == Last(s, i) + [s[i]]
  {
    hide Split, Stack, Join;
    assert s[1..i + 1] == s[1..i] + [s[i]];
    SplitNext(s[1..i], s[i]);
    var p := Split(s[1..i]);
    assert Longer(p, [s[i]])[..|p| - 1] == p[..|p| - 1];
  }

  lemma EndName(s: Bytes, i: nat)
    requires 0 < i <= |s|
    ensures Complete(s, i) == Join(Push(Before(s, i), Last(s, i)))
    ensures Names(Before(s, i)) && Plain(Last(s, i))
    ensures i == |s| ==> Join(Canonical(Split(s[1..]))) == Complete(s, i) + if Special(Last(s, i)) then [SLASH] else []
  {
    hide Join;
    SplitPlain(s[1..i]);
    var p := Split(s[1..i]);
    StackNames(p[..|p| - 1]);
    if i == |s| {
      assert s[1..i] == s[1..];
      JoinNext(Stack(p), []);
      assert Stack(p) + [] == Stack(p);
    }
  }

  /** The last name is what follows the last slash. */
  lemma {:induction false} LastIs(s: Bytes, i: nat)
    requires 0 < i <= |s| && s[0] == SLASH
    ensures var n := |Last(s, i)|; n < i && Last(s, i) == s[i - n..i] && s[i - n - 1] == SLASH
  {
    hide Split, Partial, Before;
    if i == 1 {
      CopySlash(s, 0);
    } else if s[i - 1] == SLASH {
      CopySlash(s, i - 1);
    } else {
      CopyByte(s, i - 1);
      LastIs(s, i - 1);
    }
  }

  /** The tests on the length of the last name and the last two bytes. */
  lemma TokenTests(s: Bytes, i: nat, pre1: byte, pre2: byte)
    requires 0 < i <= |s| && s[0] == SLASH && pre1 == s[i - 1] && (i > 1 ==> pre2 == s[i - 2])
    ensures var n := |Last(s, i)| + 1;
            && (n == 3 && pre2 == DOT && pre1 == DOT <==> Last(s, i) == [DOT, DOT])
            && (n == 1 || (pre2 == SLASH && pre1 == DOT) <==> Last(s, i) == [] || Last(s, i) == [DOT])
  {
    hide Last;
    LastIs(s, i);
    LastPlain(s, i);
    var l := Last(s, i);
    var n := |l|;
    if n > 0 {
      assert l[n - 1] == s[i - 1];
      if n > 1 {
        assert l[n - 2] == s[i - 2];
      }
    }
  }

  lemma LastPlain(s: Bytes, i: nat)
    requires 0 < i <= |s|
    ensures forall k :: 0 <= k < |Last(s, i)| ==> Last(s, i)[k] != SLASH
  {
    SplitPlain(s[1..i]);
    assert Plain(Last(s, i));
  }

  /** Takes the last name off the output; `out` ends up on the slash that was before it. */
  method DropName(dest: array<byte>, slash: nat, ghost stack: Path) returns (out: nat)
    requires slash <= dest.Length && dest[..slash] == Join(stack) && Names(stack)
    ensures out <= slash && dest[..out] == Join(if stack == [] then [] else stack[..|stack| - 1])
    ensures stack == [] ==> out == slash
    ensures stack != [] ==> out < slash && dest[out] == SLASH
  {
    hide Join, Special;
    JoinEmpty(stack);
    out := slash;
    if out > 0 {
      ghost var init, name := stack[..|stack| - 1], stack[|stack| - 1];
      assert stack == init + [name];
      JoinNext(init, name);
      ghost var k := |Join(init)|;
      assert dest[..slash] == Join(init) + [SLASH] + name;
      assert dest[k] == dest[..slash][k] == SLASH;
      assert forall j :: k < j < slash ==> dest[j] == dest[..slash][j] == name[j - k - 1];
      out := out - 1;
      while out > 0 && dest[out] != SLASH
        invariant k <= out < slash
      {
        out := out - 1;
      }
      assert out == k;
      assert dest[..k] == dest[..slash][..k] == Join(init);
    }
  }

  /** A name has been copied and a slash or the end comes next. */
  method FinishName(dest: array<byte>, slash: nat, end: nat, c: byte, pre1: byte, pre2: byte, ghost s: Bytes, ghost i: nat)
    returns (out: nat)
    requires 0 < i <= |s| && s[0] == SLASH && end <= dest.Length && dest[..end] == Partial(s, i) && slash == |Join(Before(s, i))|
    requires pre1 == s[i - 1] && (i > 1 ==> pre2 == s[i - 2])
    requires if c == NUL then i == |s| else i < |s|
    ensures out <= end && dest[..out] == if c == NUL then Join(Canonical(Split(s[1..]))) else Complete(s, i)
  {
    hide Join, Stack, Split, Before, Last, Complete, Canonical;
    EndName(s, i);
    TokenTests(s, i, pre1, pre2);
    ghost var stack, name := Before(s, i), Last(s, i);
    out := end;
    assert dest[..slash] == dest[..end][..slash] == Join(stack);
    assert dest[slash] == dest[..end][slash] == SLASH;
    var toklen := end - slash;
    if toklen == 3 && pre2 == DOT && pre1 == DOT {
      out := DropName(dest, slash, stack);
      if c == NUL {
        assert dest[..out + 1] == dest[..out] + [SLASH];
        out := out + 1;
      }
    } else if toklen == 1 || (pre2 == SLASH && pre1 == DOT) {
      out := slash;
      if c == NUL {
        assert dest[..out + 1] == dest[..out] + [SLASH];
        out := out + 1;
      }
    } else {
      JoinNext(stack, name);
      assert !Special(name);
    }
  }

  /** Where the text of an input lies in it: byte j of the text is byte b + j, except for an added slash. */
  ghost predicate Located(input: Bytes, s: Bytes, b: int) {
    && -1 <= b && b + |s| <= |input|
    && s != [] && s[0] == SLASH && NUL !in s
    && (forall j :: 0 < j < |s| ==> s[j] == input[b + j])
    && (b + |s| < |input| ==> input[b + |s|] == NUL)
  }

  /** Skips leading spaces; the next byte tells whether a slash has to be added. */
  method SkipSpaces(src: array<byte>, n: nat) returns (walk: nat, ghost s: Bytes, ghost b: int)
    requires n < src.Length && src[n] == NUL
    ensures walk <= n && s == Text(src[..n]) && Located(src[..n], s, b)
    ensures if src[walk] == SLASH then b == walk else b == walk - 1 && (if |s| == 1 then src[walk] == NUL else src[walk] == s[1])
  {
    hide UpToNul, AfterSpaces;
    ghost var input := src[..n];
    ghost var t := UpToNul(input);
    UpToNulIs(input);
    ghost var u := AfterSpaces(t);
    AfterSpacesIs(t);
    assert forall j :: 0 <= j < |t| ==> t[j] == src[j];
    assert src[|t|] == NUL;
    walk := 0;
    while src[walk] == SPACE
      invariant walk <= |t| - |u|
      decreases n - walk
    {
      walk := walk + 1;
    }
    assert walk == |t| - |u|;
    s := Rooted(u);
    b := if u != [] && u[0] == SLASH then walk else walk - 1;
    LocatedText(input, t, walk);
  }

  lemma LocatedText(input: Bytes, t: Bytes, walk: nat)
    requires walk <= |t| <= |input| && t == input[..|t|] && NUL !in t && (|t| < |input| ==> input[|t|] == NUL)
    ensures var u := t[walk..]; Located(input, Rooted(u), if u != [] && u[0] == SLASH then walk else walk - 1)
  {
    var u := t[walk..];
    NoNul(t, walk);
    if u != [] && u[0] == SLASH {
      assert forall j :: 0 < j < |u| ==> u[j] == t[walk + j];
    } else {
      var s := [SLASH] + u;
      assert forall j :: 0 < j < |s| ==> s[j] == u[j - 1] == t[walk + (j - 1)];
    }
  }

  lemma NoNul(t: Bytes, k: nat)
    requires k <= |t| && NUL !in t
    ensures NUL !in t[k..]
  {
  }

  /** The end of the text is also its canonical form when there is only the added slash. */
  lemma OnlySlash(s: Bytes)
    requires s == [SLASH]
    ensures Join(Canonical(Split(s[1..]))) == [SLASH] && Partial(s, 1) == [SLASH]
  {
    assert s[1..] == [] == s[1..1];
    SplitNext([], SLASH);
    assert [] + [[]] == Canonical([[]]);
    JoinNext([], []);
    NoJoin();
    CopySlash(s, 0);
  }

  lemma AddedSlash(s: Bytes)
    requires s != [] && s[0] == SLASH
    ensures Partial(s, 1) == [SLASH] && Before(s, 1) == [] && Complete(s, 0) == [] && Join([]) == []
  {
    CopySlash(s, 0);
    assert s[1..1] == [];
  }

  /** Where the output stands when the first i bytes of the text have been copied and c comes next. */
  ghost predicate Standing(s: Bytes, i: nat, c: byte, written: Bytes, slash: nat)
    requires i <= |s| && s != []
  {
    if c == NUL then written == Join(Canonical(Split(s[1..])))
    else if c == SLASH then written == Complete(s, i) && slash == |written|
    else i > 0 && written == Partial(s, i) && slash == |Join(Before(s, i))|
  }

  lemma CopyNext(s: Bytes, i: nat, c: byte, written: Bytes, slash: nat)
    requires i < |s| && s[0] == SLASH && c == s[i] && c != NUL && Standing(s, i, c, written, slash)
    ensures written + [c] == Partial(s, i + 1) && slash == |Join(Before(s, i + 1))|
  {
    hide Join, Complete, Partial, Before, Split, Stack;
    if c == SLASH {
      CopySlash(s, i);
    } else {
      CopyByte(s, i);
    }
  }

  /** buffer_path_simplify, into another buffer or in place. */
  method Simplify(dest: array<byte>, src: array<byte>, n: nat) returns (len: nat)
    requires n < src.Length && src[n] == NUL && n + 2 <= dest.Length
    modifies dest
    ensures len <= n + 1 && dest[..len] == Simplified(old(src[..n]))
  {
    hide Join, Complete, Partial, Before, Split, Stack, Text, Canonical, Last;
    if n == 0 {
      return 0;
    }
    var walk;
    ghost var s, b;
    walk, s, b := SkipSpaces(src, n);
    ghost var input := src[..n];
    ghost var i := 0;
    var out: nat, slash: nat := 0, 0;
    var pre1, pre2 := NUL, NUL;
    var c := src[walk];
    walk := walk + 1;
    AddedSlash(s);
    if c != SLASH {
      pre1 := SLASH;
      dest[out] := SLASH;
      out := out + 1;
      i := 1;
      assert dest[..1] == [SLASH];
      if |s| == 1 { OnlySlash(s); }
    }
    while c != NUL
      invariant i <= |s| && walk == b + i + 1 && out <= i
      invariant c == (if i < |s| then s[i] else NUL)
      invariant pre1 == (if i == 0 then NUL else s[i - 1])
      invariant forall k :: walk <= k < n ==> src[k] == input[k]
      invariant walk <= n ==> src[n] == NUL
      invariant Standing(s, i, c, dest[..out], slash)
      decreases |s| - i
    {
      CopyNext(s, i, c, dest[..out], slash);
      assert walk <= n;
      pre2 := pre1;
      pre1 := c;
      c := src[walk];
      ghost var written := dest[..out];
      dest[out] := pre1;
      out := out + 1;
      walk := walk + 1;
      i := i + 1;
      assert dest[..out] == written + [pre1];
      assert c == if i < |s| then s[i] else NUL;
      if c == SLASH || c == NUL {
        out := FinishName(dest, slash, out, c, pre1, pre2, s, i);
        slash := out;
      }
    }
    return out;
  }
}
