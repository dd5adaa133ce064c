/**
  A chunk queue seen as a list of byte pieces: what is left of each chunk. The
  queue operations on pieces, and the byte stream they stand for.
 */
module Pieces {
  import opened Basics

  const CR: byte := '\r' as int
  const LF: byte := '\n' as int

  type Queue = seq<seq<byte>>

  /** The byte stream of a queue. */
  function Flat(q: Queue): seq<byte> {
    if q == [] then [] else q[0] + Flat(q[1..])
  }

  lemma {:induction false} FlatConcat(q: Queue, r: Queue)
    ensures Flat(q + r) == Flat(q) + Flat(r)
  {
    if q == [] {
      assert q + r == r;
    } else {
      assert (q + r)[1..] == q[1..] + r;
      FlatConcat(q[1..], r);
    }
  }

  lemma FlatOne(p: seq<byte>, q: Queue)
    ensures Flat([p] + q) == p + Flat(q)
    ensures Flat([p]) == p
  {
    assert ([p] + q)[1..] == q;
    assert [p][1..] == [];
  }

  // ------------------------------------------------------------ mark_written

  /** Dropping the first n bytes, and with them every finished piece at the front. */
  function Written(q: Queue, n: nat): Queue {
    if q == [] then []
    else if n == 0 && |q[0]| != 0 then q
    else if n >= |q[0]| then Written(q[1..], n - |q[0]|)
    else [q[0][n..]] + q[1..]
  }

  lemma {:induction false} WrittenStream(q: Queue, n: nat)
    requires n <= |Flat(q)|
    ensures Flat(Written(q, n)) == Flat(q)[n..]
    ensures Written(q, n) == [] || Written(q, n)[0] != []
    ensures |Written(q, n)| <= |q|
  {
    if q == [] || (n == 0 && |q[0]| != 0) {
    } else if n >= |q[0]| {
      WrittenStream(q[1..], n - |q[0]|);
    } else {
      FlatOne(q[0][n..], q[1..]);
    }
  }

  // ------------------------------------------------------------------- steal

  /** The pieces that stealing n bytes moves away, in order; empty ones are dropped. */
  function Taken(q: Queue, n: nat): Queue {
    if n == 0 || q == [] then []
    else if |q[0]| == 0 then Taken(q[1..], n)
    else if n >= |q[0]| then [q[0]] + Taken(q[1..], n - |q[0]|)
    else [q[0][..n]]
  }

  /** What stealing n bytes leaves behind. */
  function Left(q: Queue, n: nat): Queue {
    if n == 0 || q == [] then q
    else if n >= |q[0]| then Left(q[1..], n - |q[0]|)
    else [q[0][n..]] + q[1..]
  }

  function Min(a: nat, b: nat): nat { if a < b then a else b }

  lemma SplitPast(p: seq<byte>, f: seq<byte>, m: nat)
    requires m <= |f|
    ensures (p + f)[..|p| + m] == p + f[..m]
    ensures (p + f)[|p| + m..] == f[m..]
  {
  }

  /** Stealing moves exactly the first min(n, length) bytes, in order. */
  lemma {:induction false} StealStream(q: Queue, n: nat)
    ensures Flat(Taken(q, n)) == Flat(q)[..Min(n, |Flat(q)|)]
    ensures Flat(Left(q, n)) == Flat(q)[Min(n, |Flat(q)|)..]
  {
    hide Flat;
    FlatHead(q);
    if n == 0 || q == [] {
    } else if n >= |q[0]| {
      var m := n - |q[0]|;
      StealStream(q[1..], m);
      FlatOne(q[0], Taken(q[1..], m));
      SplitPast(q[0], Flat(q[1..]), Min(m, |Flat(q[1..])|));
    } else {
      FlatOne(q[0][..n], []);
      FlatOne(q[0][n..], q[1..]);
      SplitWithin(q[0], Flat(q[1..]), n);
    }
  }

  lemma FlatHead(q: Queue)
    ensures Flat([]) == [] && (q != [] ==> Flat(q) == q[0] + Flat(q[1..]))
  {
  }

  lemma SplitWithin(p: seq<byte>, f: seq<byte>, n: nat)
    requires n <= |p|
    ensures (p + f)[..n] == p[..n] && (p + f)[n..] == p[n..] + f
  {
  }

  // ----------------------------------------------------------------- compact

  /** Finished pieces at the front go away. */
  function Trimmed(q: Queue): Queue {
    if q != [] && q[0] == [] then Trimmed(q[1..]) else q
  }

  lemma {:induction false} TrimmedStream(q: Queue)
    ensures Flat(Trimmed(q)) == Flat(q)
    ensures |Trimmed(q)| <= |q|
    ensures Trimmed(q) == [] || Trimmed(q)[0] != []
  {
    if q != [] && q[0] == [] {
      TrimmedStream(q[1..]);
    }
  }

  /** The first piece joined with the next one that holds something. */
  function Compacted(q: Queue): (r: Queue)
    decreases |q|
  {
    if |q| < 2 then q
    else
      TrimmedStream([q[0] + q[1]] + q[2..]);
      var q' := Trimmed([q[0] + q[1]] + q[2..]);
      if q[1] != [] then q' else Compacted(q')
  }

  /** Compaction found something to join. */
  predicate CanCompact(q: Queue)
    decreases |q|
  {
    |q| >= 2 &&
    (q[1] != [] ||
     (TrimmedStream([q[0] + q[1]] + q[2..]);
      CanCompact(Trimmed([q[0] + q[1]] + q[2..]))))
  }

  /** Only the last piece may be empty, as after any sequence of reads. */
  ghost predicate Solid(q: Queue) {
    forall i :: 0 <= i < |q| - 1 ==> q[i] != []
  }

  lemma JoinStream(q: Queue)
    requires |q| >= 2
    ensures Flat([q[0] + q[1]] + q[2..]) == Flat(q)
  {
    hide Flat;
    assert q == [q[0]] + ([q[1]] + q[2..]);
    JoinTwo(q[0], q[1], q[2..]);
  }

  lemma JoinTwo(p: seq<byte>, r: seq<byte>, rest: Queue)
    ensures Flat([p + r] + rest) == Flat([p] + ([r] + rest))
  {
    hide Flat;
    var f := Flat(rest);
    calc {
      Flat([p + r] + rest);
      { FlatOne(p + r, rest); }
      p + r + f;
      { Associative(p, r, f); }
      p + (r + f);
      { FlatOne(r, rest); }
      p + Flat([r] + rest);
      { FlatOne(p, [r] + rest); }
      Flat([p] + ([r] + rest));
    }
  }

  lemma Associative(a: seq<byte>, b: seq<byte>, c: seq<byte>)
    ensures a + (b + c) == a + b + c
  {
  }

  lemma {:induction false} CompactedStream(q: Queue)
    ensures Flat(Compacted(q)) == Flat(q)
    ensures Solid(q) ==> Solid(Compacted(q))
    ensures CanCompact(q) ==> |Compacted(q)| < |q| && Compacted(q) != [] && Compacted(q)[0] != []
    ensures !CanCompact(q) ==> |Compacted(q)| <= 1
    decreases |q|
  {
    if |q| >= 2 {
      JoinStream(q);
      var j := [q[0] + q[1]] + q[2..];
      TrimmedStream(j);
      if q[1] != [] {
        assert Trimmed(j) == j;
        assert Solid(q) ==> forall i :: 1 <= i < |j| - 1 ==> j[i] == q[i + 1];
      } else {
        if Solid(q) {
          assert |q| == 2;
          TrimmedSolid(j);
        }
        CompactedStream(Trimmed(j));
      }
    }
  }

  lemma {:induction false} TrimmedSolid(q: Queue)
    requires Solid(q)
    ensures Solid(Trimmed(q))
  {
    if q != [] && q[0] == [] {
      TrimmedSolid(q[1..]);
    }
  }

  lemma {:induction false} WrittenSolid(q: Queue, n: nat)
    requires Solid(q)
    ensures Solid(Written(q, n))
  {
    if q == [] || (n == 0 && |q[0]| != 0) {
    } else if n >= |q[0]| {
      WrittenSolid(q[1..], n - |q[0]|);
    }
  }

  lemma {:induction false} LeftSolid(q: Queue, n: nat)
    requires Solid(q)
    ensures Solid(Left(q, n))
  {
    if n == 0 || q == [] {
    } else if n >= |q[0]| {
      LeftSolid(q[1..], n - |q[0]|);
    }
  }

  /** In a solid queue compaction fails only when nothing is left beyond the first piece. */
  lemma AllInFirst(q: Queue)
    requires q != [] && Solid(q) && !CanCompact(q)
    ensures Flat(q) == q[0]
  {
    if |q| == 1 {
      FlatOne(q[0], []);
      assert q == [q[0]];
    } else {
      assert |q| == 2 && q[1] == [];
      assert q == [q[0]] + [q[1]];
      FlatOne(q[0], [q[1]]);
      FlatOne(q[1], []);
    }
  }

  lemma SolidEmptyFirst(q: Queue)
    requires Solid(q) && q != [] && q[0] == []
    ensures Flat(q) == []
  {
    assert q == [q[0]];
    FlatOne(q[0], []);
  }

  lemma SolidFirst(q: Queue)
    requires Solid(q) && Flat(q) != []
    ensures q != [] && q[0] != []
  {
    if q != [] && q[0] == [] {
      SolidEmptyFirst(q);
    }
  }
}
