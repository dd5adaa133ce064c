/**
  The chunk queue: a linked list of memory and file chunks with byte counters and
  a small pool of reusable chunks. Each operation is proved against its effect on
  the list of chunk contents; the stream those contents stand for is that of
  module Pieces.
 */
module ChunkQueue {
  import opened Basics
  import opened Pieces

  /** The contents of a chunk. `offset` counts the bytes already consumed. */
  datatype Data =
    | Mem(bytes: seq<byte>, offset: nat)
    | File(name: nat, start: nat, length: nat, offset: nat, temp: bool, open: bool)
  {
    function Size(): nat { if Mem? then |bytes| else length }
    predicate Ok() { offset <= Size() }
    function Remaining(): nat requires Ok() { Size() - offset }
    function Skip(n: nat): Data { this.(offset := offset + n) }
  }

  const EMPTY := Mem([], 0)

  /** File contents by name. */
  type Files = map<nat, seq<byte>>

  ghost predicate AllOk(ds: seq<Data>) {
    forall i :: 0 <= i < |ds| ==> ds[i].Ok()
  }

  ghost function Total(ds: seq<Data>): nat
    requires AllOk(ds)
  {
    if ds == [] then 0 else ds[0].Remaining() + Total(ds[1..])
  }

  lemma {:induction false} TotalConcat(a: seq<Data>, b: seq<Data>)
    requires AllOk(a) && AllOk(b)
    ensures AllOk(a + b) && Total(a + b) == Total(a) + Total(b)
    ensures |b| == 1 ==> Total(b) == b[0].Remaining()
    ensures |a| == 1 ==> Total(a) == a[0].Remaining()
  {
    hide Data.Remaining;
    TotalOne(a);
    TotalOne(b);
    if a == [] {
      assert a + b == b;
    } else {
      TotalConcat(a[1..], b);
      assert (a + b)[0] == a[0] && (a + b)[1..] == a[1..] + b;
    }
  }

  lemma TotalOne(a: seq<Data>)
    requires AllOk(a)
    ensures |a| == 1 ==> Total(a) == a[0].Remaining()
  {
  }

  // -------------------------------------------------- effects on the contents

  ghost function DroppedFinished(ds: seq<Data>): (r: seq<Data>)
    requires AllOk(ds)
    ensures AllOk(r)
  {
    if ds != [] && ds[0].Remaining() == 0 then DroppedFinished(ds[1..]) else ds
  }

  /** mark_written */
  ghost function Marked(ds: seq<Data>, n: nat): (r: seq<Data>)
    requires AllOk(ds)
    ensures AllOk(r)
  {
    if ds == [] || (n == 0 && ds[0].Remaining() != 0) then ds
    else if n >= ds[0].Remaining() then Marked(ds[1..], n - ds[0].Remaining())
    else [ds[0].Skip(n)] + ds[1..]
  }

  /** The part of a chunk that a partial steal copies or refers to. */
  ghost function Front(d: Data, n: nat): (r: Data)
    requires d.Ok() && n <= d.Remaining()
    ensures r.Ok() && r.Remaining() == n
  {
    if d.Mem? then Mem(d.bytes[d.offset..d.offset + n], 0)
    else File(d.name, d.start + d.offset, n, 0, false, false)
  }

  /** steal: what arrives at the destination */
  ghost function Moved(ds: seq<Data>, n: nat): (r: seq<Data>)
    requires AllOk(ds)
    ensures AllOk(r)
  {
    if n == 0 || ds == [] then []
    else if ds[0].Remaining() == 0 then Moved(ds[1..], n)
    else if n >= ds[0].Remaining() then [ds[0]] + Moved(ds[1..], n - ds[0].Remaining())
    else [Front(ds[0], n)]
  }

  /** steal: what stays at the source */
  ghost function Kept(ds: seq<Data>, n: nat): (r: seq<Data>)
    requires AllOk(ds)
    ensures AllOk(r)
  {
    if n == 0 || ds == [] then ds
    else if n >= ds[0].Remaining() then Kept(ds[1..], n - ds[0].Remaining())
    else [ds[0].Skip(n)] + ds[1..]
  }

  /** use_memory: the last chunk, in memory, grows */
  ghost function Grown(ds: seq<Data>, bytes: seq<byte>): (r: seq<Data>)
    requires ds != [] && ds[|ds| - 1].Mem?
    ensures AllOk(ds) ==> AllOk(r)
  {
    var d := ds[|ds| - 1];
    ds[..|ds| - 1] + [Mem(d.bytes + bytes, d.offset)]
  }

  lemma UsedTotal(ds: seq<Data>, bytes: seq<byte>)
    requires AllOk(ds) && ds != [] && ds[|ds| - 1].Mem?
    ensures Total(Grown(ds, bytes)) == Total(ds) + |bytes|
  {
    hide Total, Grown;
    var init, d := ds[..|ds| - 1], ds[|ds| - 1];
    assert ds == init + [d];
    GrownTotal(init, d, bytes);
    GrownIs(init, d, bytes);
  }

  lemma GrownTotal(init: seq<Data>, d: Data, bytes: seq<byte>)
    requires AllOk(init) && d.Ok() && d.Mem?
    ensures AllOk(init + [d]) && AllOk(init + [Mem(d.bytes + bytes, d.offset)])
    ensures Total(init + [Mem(d.bytes + bytes, d.offset)]) == Total(init + [d]) + |bytes|
  {
    TotalConcat(init, [d]);
    TotalConcat(init, [Mem(d.bytes + bytes, d.offset)]);
  }

  lemma GrownIs(init: seq<Data>, d: Data, bytes: seq<byte>)
    requires d.Mem?
    ensures Grown(init + [d], bytes) == init + [Mem(d.bytes + bytes, d.offset)]
  {
  }

  lemma StealStep(ds: seq<Data>, n: nat)
    requires AllOk(ds)
    ensures ds == [] || n == 0 ==> Moved(ds, n) == [] && Kept(ds, n) == ds
    ensures ds != [] && n > 0 && ds[0].Remaining() == 0 ==> Moved(ds, n) == Moved(ds[1..], n) && Kept(ds, n) == Kept(ds[1..], n)
    ensures ds != [] && n >= ds[0].Remaining() > 0 ==>
              && Moved(ds, n) == [ds[0]] + Moved(ds[1..], n - ds[0].Remaining())
              && Kept(ds, n) == Kept(ds[1..], n - ds[0].Remaining())
    ensures ds != [] && 0 < n < ds[0].Remaining() ==> Moved(ds, n) == [Front(ds[0], n)] && Kept(ds, n) == [ds[0].Skip(n)] + ds[1..]
    ensures ds != [] ==> Total(ds) == ds[0].Remaining() + Total(ds[1..])
    ensures ds == [] ==> Total(ds) == 0
    ensures forall d: Data :: d.Ok() ==> AllOk([d]) && Total([d]) == d.Remaining()
  {
    forall d: Data | d.Ok() ensures AllOk([d]) && Total([d]) == d.Remaining() {
      assert [d][1..] == [];
    }
  }

  lemma SkipTotal(d: Data, n: nat, rest: seq<Data>)
    requires d.Ok() && AllOk(rest) && n <= d.Remaining()
    ensures AllOk([d] + rest) && AllOk([d.Skip(n)] + rest)
    ensures Total([d.Skip(n)] + rest) == Total([d] + rest) - n
  {
    assert ([d] + rest)[1..] == rest && ([d.Skip(n)] + rest)[1..] == rest;
  }

  lemma MarkedStep(ds: seq<Data>, n: nat)
    requires AllOk(ds)
    ensures ds == [] ==> Marked(ds, n) == []
    ensures ds != [] && n == 0 && ds[0].Remaining() != 0 ==> Marked(ds, n) == ds
    ensures ds != [] && n >= ds[0].Remaining() && !(n == 0 && ds[0].Remaining() != 0) ==>
              Marked(ds, n) == Marked(ds[1..], n - ds[0].Remaining())
    ensures ds != [] && 0 < n < ds[0].Remaining() ==> Marked(ds, n) == [ds[0].Skip(n)] + ds[1..]
    ensures ds != [] ==> Total(ds) == ds[0].Remaining() + Total(ds[1..])
    ensures ds == [] ==> Total(ds) == 0
  {
  }

  ghost predicate AllMem(ds: seq<Data>) {
    forall i :: 0 <= i < |ds| ==> ds[i].Mem?
  }

  /** compaction: what the second of two memory chunks holds after taking over the first's buffer */
  ghost function Merged(c: Data, next: Data): (r: Data)
    requires c.Mem? && next.Mem? && c.Ok() && next.Ok()
    ensures r.Mem? && r.Ok() && r.Remaining() == c.Remaining() + next.Remaining()
  {
    Mem(c.bytes + next.bytes[next.offset..], c.offset)
  }

  ghost function CompactedData(ds: seq<Data>): (r: seq<Data>)
    requires AllOk(ds) && AllMem(ds)
    ensures AllOk(r) && AllMem(r)
    decreases |ds|
  {
    if |ds| < 2 then ds
    else
      var rest := [Merged(ds[0], ds[1])] + ds[2..];
      DroppedShorter(rest);
      if ds[1].Remaining() != 0 then DroppedFinished(rest) else CompactedData(DroppedFinished(rest))
  }

  /** compaction: whether a non-empty chunk was joined */
  ghost predicate CanJoin(ds: seq<Data>)
    requires AllOk(ds) && AllMem(ds)
    decreases |ds|
  {
    |ds| >= 2 &&
    (ds[1].Remaining() != 0 ||
     (var rest := [Merged(ds[0], ds[1])] + ds[2..];
      DroppedShorter(rest);
      CanJoin(DroppedFinished(rest))))
  }

  lemma {:induction false} DroppedShorter(ds: seq<Data>)
    requires AllOk(ds)
    ensures |DroppedFinished(ds)| <= |ds| && Total(DroppedFinished(ds)) == Total(ds)
    ensures AllMem(ds) ==> AllMem(DroppedFinished(ds))
  {
    if ds != [] && ds[0].Remaining() == 0 {
      DroppedShorter(ds[1..]);
    }
  }

  ghost function Swapped(ds: seq<Data>): (r: seq<Data>)
    requires AllOk(ds) && AllMem(ds) && |ds| >= 2
  {
    [Mem(ds[1].bytes, |ds[1].bytes|), Merged(ds[0], ds[1])] + ds[2..]
  }

  lemma SwappedRest(ds: seq<Data>)
    requires AllOk(ds) && AllMem(ds) && |ds| >= 2
    ensures AllOk(Swapped(ds)) && Total(Swapped(ds)) == Total(ds)
    ensures var dropped := DroppedFinished(Swapped(ds));
            && |dropped| < |ds| && AllMem(dropped)
            && CompactedData(ds) == (if ds[1].Remaining() != 0 then dropped else CompactedData(dropped))
            && CanJoin(ds) == (ds[1].Remaining() != 0 || CanJoin(dropped))
  {
    var rest := [Merged(ds[0], ds[1])] + ds[2..];
    assert Swapped(ds)[1..] == rest;
    assert rest[1..] == ds[2..] == ds[1..][1..];
    DroppedShorter(rest);
  }

  lemma CompactShort(ds: seq<Data>)
    requires AllOk(ds) && AllMem(ds) && |ds| < 2
    ensures CompactedData(ds) == ds && !CanJoin(ds)
  {
  }

  lemma {:induction false} MarkedTotal(ds: seq<Data>, n: nat)
    requires AllOk(ds) && n <= Total(ds)
    ensures Total(Marked(ds, n)) == Total(ds) - n
  {
    if ds == [] || (n == 0 && ds[0].Remaining() != 0) {
    } else if n >= ds[0].Remaining() {
      MarkedTotal(ds[1..], n - ds[0].Remaining());
    }
  }

  lemma {:induction false} StealTotal(ds: seq<Data>, n: nat)
    requires AllOk(ds)
    ensures Total(Moved(ds, n)) == Min(n, Total(ds))
    ensures Total(Kept(ds, n)) == Total(ds) - Min(n, Total(ds))
  {
    if n == 0 || ds == [] {
    } else if n >= ds[0].Remaining() {
      StealTotal(ds[1..], n - ds[0].Remaining());
      assert ([ds[0]] + Moved(ds[1..], n - ds[0].Remaining()))[1..] == Moved(ds[1..], n - ds[0].Remaining());
    } else {
      assert [Front(ds[0], n)][1..] == [];
      assert ([ds[0].Skip(n)] + ds[1..])[1..] == ds[1..];
    }
  }

  // ----------------------------------------------------- refinement to bytes

  /** Every file chunk lies inside its file. */
  ghost predicate Stored(files: Files, ds: seq<Data>) {
    forall i :: 0 <= i < |ds| ==> Held(files, ds[i])
  }

  ghost predicate Held(files: Files, d: Data) {
    d.File? ==> d.name in files && d.start + d.length <= |files[d.name]|
  }

  ghost function Piece(files: Files, d: Data): seq<byte>
    requires d.Ok() && Held(files, d)
  {
    if d.Mem? then d.bytes[d.offset..] else files[d.name][d.start + d.offset..d.start + d.length]
  }

  ghost function PiecesOf(files: Files, ds: seq<Data>): (q: Queue)
    requires AllOk(ds) && Stored(files, ds)
    ensures |q| == |ds|
  {
    if ds == [] then [] else [Piece(files, ds[0])] + PiecesOf(files, ds[1..])
  }

  lemma {:induction false} PiecesConcat(files: Files, a: seq<Data>, b: seq<Data>)
    requires AllOk(a) && AllOk(b) && Stored(files, a) && Stored(files, b)
    ensures AllOk(a + b) && Stored(files, a + b)
    ensures PiecesOf(files, a + b) == PiecesOf(files, a) + PiecesOf(files, b)
  {
    if a == [] {
      assert a + b == b;
    } else {
      PiecesConcat(files, a[1..], b);
      assert (a + b)[1..] == a[1..] + b;
    }
  }

  /** The byte counters measure the stream. */
  lemma {:induction false} TotalIsLength(files: Files, ds: seq<Data>)
    requires AllOk(ds) && Stored(files, ds)
    ensures Total(ds) == |Flat(PiecesOf(files, ds))|
  {
    if ds != [] {
      TotalIsLength(files, ds[1..]);
      FlatOne(Piece(files, ds[0]), PiecesOf(files, ds[1..]));
    }
  }

  lemma PiecesCons(files: Files, d: Data, ds: seq<Data>)
    requires d.Ok() && Held(files, d) && AllOk(ds) && Stored(files, ds)
    ensures AllOk([d] + ds) && Stored(files, [d] + ds)
    ensures PiecesOf(files, [d] + ds) == [Piece(files, d)] + PiecesOf(files, ds)
  {
    assert ([d] + ds)[1..] == ds;
  }

  /** Marking bytes as written is dropping them from the stream. */
  lemma {:induction false} MarkedPieces(files: Files, ds: seq<Data>, n: nat)
    requires AllOk(ds) && Stored(files, ds)
    ensures Stored(files, Marked(ds, n)) && PiecesOf(files, Marked(ds, n)) == Written(PiecesOf(files, ds), n)
  {
    if ds == [] {
    } else {
      PiecesHead(files, ds);
      if n == 0 && ds[0].Remaining() != 0 {
      } else if n >= ds[0].Remaining() {
        MarkedPieces(files, ds[1..], n - ds[0].Remaining());
      } else {
        SplitPiece(files, ds[0], n);
        PiecesCons(files, ds[0].Skip(n), ds[1..]);
      }
    }
  }

  lemma SplitPiece(files: Files, d: Data, n: nat)
    requires d.Ok() && n <= d.Remaining() && Held(files, d)
    ensures Held(files, Front(d, n)) && Held(files, d.Skip(n))
    ensures Piece(files, Front(d, n)) == Piece(files, d)[..n]
    ensures Piece(files, d.Skip(n)) == Piece(files, d)[n..]
  {
    if d.Mem? {
      assert d.bytes[d.offset..d.offset + n][0..] == d.bytes[d.offset..][..n];
    }
  }

  /** Stealing moves exactly the first bytes of the stream, in order. */
  lemma {:induction false} MovedPieces(files: Files, ds: seq<Data>, n: nat)
    requires AllOk(ds) && Stored(files, ds)
    ensures Stored(files, Moved(ds, n)) && PiecesOf(files, Moved(ds, n)) == Taken(PiecesOf(files, ds), n)
  {
    if n == 0 || ds == [] {
    } else {
      PiecesHead(files, ds);
      if n >= ds[0].Remaining() {
        MovedPieces(files, ds[1..], n - ds[0].Remaining());
        if ds[0].Remaining() > 0 {
          PiecesCons(files, ds[0], Moved(ds[1..], n - ds[0].Remaining()));
        }
      } else {
        SplitPiece(files, ds[0], n);
        PiecesCons(files, Front(ds[0], n), []);
      }
    }
  }

  lemma PiecesHead(files: Files, ds: seq<Data>)
    requires AllOk(ds) && Stored(files, ds) && ds != []
    ensures PiecesOf(files, ds)[0] == Piece(files, ds[0]) && PiecesOf(files, ds)[1..] == PiecesOf(files, ds[1..])
    ensures |Piece(files, ds[0])| == ds[0].Remaining()
  {
  }

  lemma {:induction false} KeptPieces(files: Files, ds: seq<Data>, n: nat)
    requires AllOk(ds) && Stored(files, ds)
    ensures Stored(files, Kept(ds, n)) && PiecesOf(files, Kept(ds, n)) == Left(PiecesOf(files, ds), n)
  {
    if n == 0 || ds == [] {
    } else {
      PiecesHead(files, ds);
      if n >= ds[0].Remaining() {
        KeptPieces(files, ds[1..], n - ds[0].Remaining());
      } else {
        SplitPiece(files, ds[0], n);
        PiecesCons(files, ds[0].Skip(n), ds[1..]);
      }
    }
  }

  lemma {:induction false} DroppedPieces(files: Files, ds: seq<Data>)
    requires AllOk(ds) && Stored(files, ds)
    ensures Stored(files, DroppedFinished(ds)) && PiecesOf(files, DroppedFinished(ds)) == Trimmed(PiecesOf(files, ds))
  {
    if ds != [] {
      PiecesHead(files, ds);
      if ds[0].Remaining() == 0 {
        DroppedPieces(files, ds[1..]);
      }
    }
  }

  lemma MemStored(files: Files, ds: seq<Data>)
    requires AllMem(ds)
    ensures Stored(files, ds)
  {
  }

  /** Compaction joins pieces without changing the stream. */
  lemma {:induction false} CompactedPieces(files: Files, ds: seq<Data>)
    requires AllOk(ds) && AllMem(ds)
    ensures Stored(files, ds) && Stored(files, CompactedData(ds))
    ensures PiecesOf(files, CompactedData(ds)) == Compacted(PiecesOf(files, ds))
    ensures CanJoin(ds) == CanCompact(PiecesOf(files, ds))
    decreases |ds|
  {
    MemStored(files, ds);
    MemStored(files, CompactedData(ds));
    if |ds| >= 2 {
      var q := PiecesOf(files, ds);
      var rest, j := [Merged(ds[0], ds[1])] + ds[2..], [q[0] + q[1]] + q[2..];
      assert PiecesOf(files, rest) == j && |q[1]| == ds[1].Remaining() by {
        MergedPieces(files, ds);
      }
      DroppedShorter(rest);
      DroppedPieces(files, rest);
      if ds[1].Remaining() == 0 {
        CompactedPieces(files, DroppedFinished(rest));
      }
    }
  }

  lemma MergedPiece(files: Files, c: Data, next: Data)
    requires c.Mem? && next.Mem? && c.Ok() && next.Ok()
    ensures Piece(files, Merged(c, next)) == Piece(files, c) + Piece(files, next)
  {
  }

  lemma MergedPieces(files: Files, ds: seq<Data>)
    requires AllOk(ds) && AllMem(ds) && |ds| >= 2
    ensures var q := PiecesOf(files, ds);
            && |q| == |ds| && |q[1]| == ds[1].Remaining()
            && PiecesOf(files, [Merged(ds[0], ds[1])] + ds[2..]) == [q[0] + q[1]] + q[2..]
  {
    hide PiecesOf, Merged;
    PiecesHead(files, ds);
    PiecesHead(files, ds[1..]);
    assert ds[1..][1..] == ds[2..];
    PiecesCons(files, Merged(ds[0], ds[1]), ds[2..]);
    MergedPiece(files, ds[0], ds[1]);
  }

  // ------------------------------------------------------------- linked list

  class Node {
    var d: Data
    var next: Node?

    constructor (d: Data)
      ensures this.d == d && next == null
    {
      this.d, next := d, null;
    }
  }

  /** `s` is the list from `head` to its null end, with every node in `own` and none twice. */
  ghost predicate ListFrom(s: seq<Node>, head: Node?, own: set<Node>)
    reads own
  {
    && (forall i :: 0 <= i < |s| ==> s[i] in own)
    && (if s == [] then head == null else head == s[0] && s[|s| - 1].next == null)
    && (forall i :: 0 <= i < |s| - 1 ==> s[i].next == s[i + 1])
    && (forall i, j :: 0 <= i < j < |s| ==> s[i] != s[j])
  }

  /** Linking the last node of one list to the head of another joins them. */
  lemma JoinLists(s: seq<Node>, head: Node?, own: set<Node>, t: seq<Node>, head': Node?, own': set<Node>)
    requires (forall i :: 0 <= i < |s| ==> s[i] in own) && (forall i, j :: 0 <= i < j < |s| ==> s[i] != s[j])
    requires (forall i :: 0 <= i < |s| - 1 ==> s[i].next == s[i + 1]) && (s != [] ==> head == s[0] && s[|s| - 1].next == head')
    requires ListFrom(t, head', own') && t != [] && own !! own'
    ensures ListFrom(s + t, if s == [] then head' else head, own + own')
  {
    var u := s + t;
    assert forall i :: 0 <= i < |s| ==> u[i] == s[i];
    assert forall i :: |s| <= i < |u| ==> u[i] == t[i - |s|];
  }

  /** A node in front of a list. */
  lemma FrontQueued(c: Node, s: seq<Node>, first: Node?, last: Node?, own: set<Node>)
    requires Queued(s, first, last, own) && c !in own && c.next == first && c.d.Ok()
    ensures var l := if last == null then c else last;
            && Queued([c] + s, c, l, own + {c})
            && DataOf([c] + s, c, l, own + {c}) == [c.d] + DataOf(s, first, last, own)
  {
    var t := [c] + s;
    assert t[0] == c && forall i :: 0 < i < |t| ==> t[i] == s[i - 1];
    assert s != [] ==> t[|t| - 1] == s[|s| - 1];
  }

  ghost predicate Queued(s: seq<Node>, first: Node?, last: Node?, own: set<Node>)
    reads own
  {
    && ListFrom(s, first, own)
    && last == (if s == [] then null else s[|s| - 1])
    && (forall i :: 0 <= i < |s| ==> s[i].d.Ok())
  }

  ghost function DataOf(s: seq<Node>, first: Node?, last: Node?, own: set<Node>): (ds: seq<Data>)
    requires Queued(s, first, last, own)
    reads own
    ensures AllOk(ds) && |ds| == |s| && (forall i :: 0 <= i < |s| ==> ds[i] == s[i].d)
    ensures s != [] ==> first != null && last != null && first in own && last in own && ds[0] == first.d && ds[|ds| - 1] == last.d
  {
    seq(|s|, i requires 0 <= i < |s| && s[i] in own reads own => s[i].d)
  }

  const MAX_UNUSED: nat := 5

  ghost predicate Pooled(s: seq<Node>, head: Node?, own: set<Node>, count: nat)
    reads own
  {
    ListFrom(s, head, own) && |s| == count <= MAX_UNUSED && forall i :: 0 <= i < |s| ==> s[i].d == EMPTY
  }

  class ChunkList {
    var first: Node?
    var last: Node?
    var unused: Node?
    var unusedChunks: nat
    var bytesIn: nat
    var bytesOut: nat
    ghost var nodes: seq<Node>
    ghost var pool: seq<Node>
    ghost var mine: set<Node>
    ghost var spare: set<Node>

    /** The list ends at `last`; the pool holds exactly unusedChunks nodes, none of them queued. */
    ghost predicate Chained()
      reads this`first, this`last, this`unused, this`unusedChunks, this`nodes, this`pool, this`mine, this`spare, mine, spare
    {
      && Queued(nodes, first, last, mine)
      && Pooled(pool, unused, spare, unusedChunks)
      && mine !! spare
    }

    /** The contents of the queue, chunk by chunk. */
    ghost function Data(): (ds: seq<Data>)
      requires Queued(nodes, first, last, mine)
      reads this`first, this`last, this`nodes, this`mine, mine
      ensures AllOk(ds) && |ds| == |nodes|
    {
      DataOf(nodes, first, last, mine)
    }

    ghost predicate Valid()
      reads this, mine, spare
    {
      Chained() && bytesOut <= bytesIn && bytesIn - bytesOut == Total(Data())
    }

    constructor ()
      ensures Valid() && Data() == [] && mine == spare == {}
    {
      first, last, unused, unusedChunks, bytesIn, bytesOut := null, null, null, 0, 0, 0;
      nodes, pool, mine, spare := [], [], {}, {};
    }

    /** A finished chunk goes to the pool if there is room. */
    method PushUnused(c: Node)
      requires Chained() && c !in mine && c !in spare
      modifies this`unused, this`unusedChunks, this`pool, this`spare, c
      ensures Chained() && Data() == old(Data())
      ensures if old(unusedChunks) > 4 then pool == old(pool) && spare == old(spare)
              else pool == [c] + old(pool) && spare == old(spare) + {c}
    {
      hide Queued;
      if unusedChunks > 4 {
        return;
      }
      c.d := EMPTY;
      c.next := unused;
      unused := c;
      unusedChunks := unusedChunks + 1;
      pool, spare := [c] + pool, spare + {c};
      assert pool[0] == c && forall i :: 0 < i < |pool| ==> pool[i] == old(pool)[i - 1];
    }

    /** A chunk from the pool, or a new one. */
    method GetUnused() returns (c: Node)
      requires Chained()
      modifies this`unused, this`unusedChunks, this`pool, this`spare, spare
      ensures Chained() && Data() == old(Data())
      ensures c.d == EMPTY && c !in mine && c !in spare && (fresh(c) || c in old(spare))
      ensures if old(pool) == [] then fresh(c) && spare == old(spare) && pool == []
              else c == old(pool)[0] && pool == old(pool)[1..] && spare == old(spare) - {c}
    {
      hide Queued;
      if unused == null {
        c := new Node(EMPTY);
      } else {
        c := unused;
        unused := c.next;
        c.next := null;
        unusedChunks := unusedChunks - 1;
        pool, spare := pool[1..], spare - {c};
      }
    }

    /** append_chunk */
    method Append(c: Node)
      requires Chained() && c !in mine && c !in spare && c.d.Ok()
      modifies this`first, this`last, this`bytesIn, this`nodes, this`mine, c`next, mine`next
      ensures Chained() && nodes == old(nodes) + [c] && mine == old(mine) + {c}
      ensures Data() == old(Data()) + [old(c.d)]
      ensures bytesIn == old(bytesIn) + old(c.d).Remaining()
    {
      hide Pooled, Queued, DataOf;
      c.next := null;
      OneNode(c);
      LinkTail(c, c, [c], {c});
      bytesIn := bytesIn + c.d.Remaining();
    }

    /** prepend_chunk */
    method Prepend(c: Node)
      requires Chained() && c !in mine && c !in spare && c.d.Ok()
      modifies this`first, this`last, this`bytesIn, this`nodes, this`mine, c`next
      ensures Chained() && nodes == [c] + old(nodes) && mine == old(mine) + {c}
      ensures Data() == [old(c.d)] + old(Data())
      ensures bytesIn == old(bytesIn) + old(c.d).Remaining()
    {
      hide Pooled, Queued, DataOf;
      ghost var s, f, l, own := nodes, first, last, mine;
      c.next := first;
      FrontQueued(c, s, f, l, own);
      first := c;
      if last == null {
        last := c;
      }
      bytesIn := bytesIn + c.d.Remaining();
      nodes, mine := [c] + nodes, mine + {c};
    }

    /** Takes the first chunk off the list. */
    method PopFront() returns (c: Node)
      requires Chained() && first != null
      modifies this`first, this`last, this`nodes, this`mine
      ensures Chained() && c == old(first) && nodes == old(nodes)[1..] && c in old(mine) && mine == old(mine) - {c}
      ensures old(nodes) != [] && Data() == old(Data())[1..] && c.d == old(Data())[0]
    {
      hide Pooled;
      c := first;
      first := c.next;
      if c == last {
        last := null;
      }
      nodes, mine := nodes[1..], mine - {c};
    }

    /** The first chunk is finished: off the list and to the pool. */
    method DropFirst()
      requires Chained() && first != null
      modifies this`first, this`last, this`nodes, this`mine, this`unused, this`unusedChunks, this`pool, this`spare, mine
      ensures Chained() && nodes == old(nodes)[1..] && old(nodes) != [] && Data() == old(Data())[1..]
      ensures mine <= old(mine) && spare <= old(spare) + old(mine)
    {
      hide Queued, Pooled, ChunkList.Data;
      var c := PopFront();
      PushUnused(c);
    }

    /** Part of the first chunk has been consumed. */
    method SkipFirst(n: nat)
      requires Chained() && first != null
      requires nodes != [] && n <= Data()[0].Remaining()
      modifies mine`d
      ensures Chained() && Data() == [old(Data())[0].Skip(n)] + old(Data())[1..]
    {
      hide Pooled;
      first.d := first.d.Skip(n);
    }

    lemma EndsQueue()
      requires Chained()
      ensures Data() == DataOf(nodes, first, last, mine)
    {
    }

    lemma Ends()
      requires Chained()
      ensures (first == null <==> nodes == []) && (last == null <==> nodes == []) && |Data()| == |nodes| && AllOk(Data())
      ensures nodes != [] ==> Data()[0] == first.d && Data()[|nodes| - 1] == last.d
    {
    }

    /** remove_finished_chunks */
    method RemoveFinished()
      requires Valid()
      modifies this, mine, spare
      ensures Valid() && Data() == DroppedFinished(old(Data())) && mine <= old(mine) && spare <= old(spare) + old(mine)
      ensures bytesIn == old(bytesIn) && bytesOut == old(bytesOut)
    {
      hide Queued, Pooled, ChunkList.Data;
      Ends();
      while first != null
        invariant Chained() && mine <= old(mine) && spare <= old(spare) + old(mine)
        invariant bytesIn == old(bytesIn) && bytesOut == old(bytesOut)
        invariant DroppedFinished(Data()) == DroppedFinished(old(Data()))
        invariant Total(Data()) == Total(old(Data()))
        decreases |nodes|
      {
        Ends();
        if first.d.Remaining() != 0 { break; }
        DropFirst();
      }
      Ends();
    }

    /** One round of mark_written: the first chunk is finished, or partly consumed and the loop ends. */
    method MarkFirst(written: nat) returns (rest: nat, done: bool)
      requires Chained() && first != null && written <= Total(Data())
      modifies this`first, this`last, this`nodes, this`mine, this`unused, this`unusedChunks, this`pool, this`spare, mine
      ensures Chained() && rest <= Total(Data()) && |nodes| <= |old(nodes)|
      ensures mine <= old(mine) && spare <= old(spare) + old(mine)
      ensures done ==> Data() == Marked(old(Data()), written) && rest == 0
      ensures !done ==> Marked(Data(), rest) == Marked(old(Data()), written) && |nodes| < |old(nodes)|
    {
      hide Queued, Pooled, ChunkList.Data, Marked, Total;
      Ends();
      MarkedStep(Data(), written);
      var clen := first.d.Remaining();
      if written == 0 && clen != 0 { return 0, true; }
      if written >= clen {
        DropFirst();
        return written - clen, false;
      }
      SkipFirst(written);
      return 0, true;
    }

    /** mark_written: the first len bytes are consumed. */
    method MarkWritten(len: nat)
      requires Valid() && len <= Total(Data())
      modifies this, mine, spare
      ensures Valid() && Data() == Marked(old(Data()), len) && mine <= old(mine) && spare <= old(spare) + old(mine)
      ensures bytesIn == old(bytesIn) && bytesOut == old(bytesOut) + len
    {
      hide Queued, Pooled, ChunkList.Data, Marked, Total;
      var written: nat := len;
      MarkedTotal(Data(), len);
      var done := false;
      while first != null && !done
        invariant Chained() && bytesIn == old(bytesIn) && bytesOut == old(bytesOut)
        invariant mine <= old(mine) && spare <= old(spare) + old(mine)
        invariant if done then Data() == Marked(old(Data()), len) && written == 0
                  else Marked(Data(), written) == Marked(old(Data()), len)
        invariant written <= Total(Data())
        decreases |nodes|, !done
      {
        written, done := MarkFirst(written);
      }
      Ends();
      MarkedStep(Data(), written);
      bytesOut := bytesOut + len;
    }

    /** chunkqueue_length: the bytes left, counted along the list. */
    method Length() returns (len: nat)
      requires Valid()
      ensures len == Total(Data()) == bytesIn - bytesOut
    {
      hide Pooled, Total;
      len := 0;
      var c := first;
      ghost var i := 0;
      ghost var ds := Data();
      NoTotal();
      assert ds[..0] == [];
      while c != null
        invariant 0 <= i <= |nodes| == |ds| && c == (if i < |nodes| then nodes[i] else null)
        invariant AllOk(ds[..i]) && len == Total(ds[..i])
        decreases |nodes| - i
      {
        TotalConcat(ds[..i], [ds[i]]);
        assert ds[..i] + [ds[i]] == ds[..i + 1];
        len := len + c.d.Remaining();
        c := c.next;
        i := i + 1;
      }
      assert ds[..i] == ds;
    }

    /** reset: everything goes to the pool, the counters to zero. */
    method Reset()
      requires Valid()
      modifies this, mine, spare
      ensures Valid() && Data() == [] && bytesIn == 0 && bytesOut == 0 && mine <= old(mine) && spare <= old(spare) + old(mine)
    {
      hide Queued, Pooled, ChunkList.Data;
      while first != null
        invariant Chained() && mine <= old(mine) && spare <= old(spare) + old(mine)
        decreases |nodes|
      {
        DropFirst();
      }
      Ends();
      bytesIn, bytesOut := 0, 0;
    }

    /** Queues the given contents at the end, in a chunk from the pool or a new one. */
    method AppendData(d: Data)
      requires Valid() && d.Ok()
      modifies this, mine, spare
      ensures Valid() && Grows()
      ensures Data() == old(Data()) + [d] && bytesIn == old(bytesIn) + d.Remaining() && bytesOut == old(bytesOut)
    {
      hide Queued, Pooled, ChunkList.Data, Total;
      var c := GetUnused();
      c.d := d;
      TotalConcat(Data(), [d]);
      Append(c);
    }

    /** No node is taken from anyone else. */
    twostate predicate Grows()
      reads this
    {
      fresh(mine - old(mine) - old(spare)) && fresh(spare - old(mine) - old(spare))
    }

    /** append_mem and append_buffer: empty data is not queued. */
    method AppendMem(bytes: seq<byte>)
      requires Valid()
      modifies this, mine, spare
      ensures Valid() && Grows()
      ensures Data() == old(Data()) + (if bytes == [] then [] else [Mem(bytes, 0)])
      ensures bytesIn == old(bytesIn) + |bytes| && bytesOut == old(bytesOut)
    {
      hide Queued, Pooled, ChunkList.Data, Total;
      if |bytes| == 0 { return; }
      AppendData(Mem(bytes, 0));
    }

    /** append_file: a reference to part of a file. */
    method AppendFile(name: nat, start: nat, len: nat)
      requires Valid()
      modifies this, mine, spare
      ensures Valid() && Grows()
      ensures Data() == old(Data()) + (if len == 0 then [] else [File(name, start, len, 0, false, false)])
      ensures bytesIn == old(bytesIn) + len && bytesOut == old(bytesOut)
    {
      hide Queued, Pooled, ChunkList.Data, Total;
      if len == 0 { return; }
      AppendData(File(name, start, len, 0, false, false));
    }

    /** prepend_buffer */
    method PrependMem(bytes: seq<byte>)
      requires Valid()
      modifies this, mine, spare
      ensures Valid() && Grows()
      ensures Data() == (if bytes == [] then [] else [Mem(bytes, 0)]) + old(Data())
      ensures bytesIn == old(bytesIn) + |bytes| && bytesOut == old(bytesOut)
    {
      hide Queued, Pooled, ChunkList.Data, Total;
      if |bytes| == 0 { return; }
      var c := GetUnused();
      c.d := Mem(bytes, 0);
      TotalConcat([Mem(bytes, 0)], Data());
      Prepend(c);
    }

    /** get_memory: the last chunk if it can take more (always, if it is empty), else a new empty chunk. */
    method GetMemory(room: bool)
      requires Valid()
      modifies this, mine, spare
      ensures Valid() && Grows() && last != null && last.d.Mem?
      ensures Data() == if old(last != null && last.d.Mem? && (room || last.d.bytes == [])) then old(Data()) else old(Data()) + [EMPTY]
      ensures bytesIn == old(bytesIn) && bytesOut == old(bytesOut)
    {
      hide Queued, Pooled, ChunkList.Data, Total;
      if last != null && last.d.Mem? && (room || last.d.bytes == []) { return; }
      AppendData(EMPTY);
      Ends();
    }

    /** use_memory: bytes read into the last chunk. */
    method UseMemory(bytes: seq<byte>)
      requires Valid() && last != null && last.d.Mem?
      modifies this`bytesIn, mine`d
      ensures Valid() && bytesIn == old(bytesIn) + |bytes|
      ensures old(nodes) != [] && Data() == Grown(old(Data()), bytes)
    {
      hide Pooled, Total;
      Ends();
      UsedTotal(Data(), bytes);
      last.d := Mem(last.d.bytes + bytes, last.d.offset);
      bytesIn := bytesIn + |bytes|;
      assert Data() == Grown(old(Data()), bytes);
    }

    /** The last chunk gets new contents. */
    method ChangeLast(d: Data)
      requires Chained() && last != null && d.Ok()
      modifies mine`d
      ensures Chained() && nodes == old(nodes) && old(nodes) != [] && Data() == old(Data())[..|nodes| - 1] + [d]
    {
      hide Pooled;
      last.d := d;
    }

    /** The second chunk takes over the first one's buffer, with its own data appended; the first is finished. */
    method SwapBuffers() returns (blen: nat)
      requires Chained() && |nodes| >= 2 && AllMem(Data())
      modifies mine`d
      ensures Chained() && nodes == old(nodes)
      ensures blen == old(Data())[1].Remaining() && Data() == Swapped(old(Data()))
    {
      hide Pooled;
      ghost var ds := Data();
      assert nodes[0].d == ds[0] && nodes[1].d == ds[1];
      var c, n := first, first.next;
      var mem, offset := n.d.bytes, n.d.offset;
      blen := |mem| - offset;
      n.d := Mem(c.d.bytes + mem[offset..], c.d.offset);
      c.d := Mem(mem, |mem|);
    }

    /** Two chunks or more: the first has a successor. */
    lemma SecondNode()
      requires Chained()
      ensures first != null ==> first in mine
      ensures first != null && first.next != null <==> |nodes| >= 2
    {
      assert |nodes| >= 2 ==> nodes[0].next == nodes[1];
    }

    /** One round of cq_compact. */
    method CompactFirst() returns (blen: nat)
      requires Valid() && |nodes| >= 2 && AllMem(Data())
      modifies this, mine, spare
      ensures Valid() && mine <= old(mine) && spare <= old(spare) + old(mine)
      ensures AllMem(Data()) && |nodes| < |old(nodes)| && blen == old(Data())[1].Remaining()
      ensures CompactedData(old(Data())) == if blen != 0 then Data() else CompactedData(Data())
      ensures CanJoin(old(Data())) == (blen != 0 || CanJoin(Data()))
      ensures bytesIn == old(bytesIn) && bytesOut == old(bytesOut)
    {
      hide Queued, Pooled, ChunkList.Data, Total, DroppedFinished, Merged, Swapped, CompactedData, CanJoin;
      SwappedRest(Data());
      blen := SwapBuffers();
      RemoveFinished();
    }

    /** Is everything queued in memory? */
    method InMemory() returns (all: bool)
      requires Valid()
      ensures all <==> AllMem(Data())
    {
      hide Pooled, Total;
      var c := first;
      ghost var i := 0;
      while c != null
        invariant 0 <= i <= |nodes| && c == (if i < |nodes| then nodes[i] else null)
        invariant forall j :: 0 <= j < i ==> nodes[j].d.Mem?
        decreases |nodes| - i
      {
        if !c.d.Mem? { return false; }
        c := c.next;
        i := i + 1;
      }
      return true;
    }

    /** cq_compact: the first chunk is joined with the next non-empty one. */
    method Compact() returns (joined: bool)
      requires Valid() && AllMem(Data())
      modifies this, mine, spare
      ensures joined == CanJoin(old(Data()))
      ensures Valid() && Data() == CompactedData(old(Data())) && mine <= old(mine) && spare <= old(spare) + old(mine)
      ensures bytesIn == old(bytesIn) && bytesOut == old(bytesOut)
    {
      hide Queued, Pooled, ChunkList.Data, Total, CompactedData, CanJoin;
      SecondNode();
      while first != null && first.next != null
        invariant Valid() && AllMem(Data()) && (first != null ==> first in mine)
        invariant first != null && first.next != null <==> |nodes| >= 2
        invariant CompactedData(Data()) == CompactedData(old(Data())) && CanJoin(Data()) == CanJoin(old(Data()))
        invariant mine <= old(mine) && spare <= old(spare) + old(mine)
        invariant bytesIn == old(bytesIn) && bytesOut == old(bytesOut)
        decreases |nodes|
      {
        var blen := CompactFirst();
        if blen != 0 {
          return true;
        }
        SecondNode();
      }
      CompactShort(Data());
      return false;
    }

    /** The two queues share no node. */
    ghost predicate Separate(other: ChunkList)
      reads this`mine, this`spare, other`mine, other`spare
    {
      mine !! other.mine && mine !! other.spare && spare !! other.mine && spare !! other.spare
    }

    /** A whole chunk changes queues. */
    method MoveFirst(src: ChunkList)
      requires Valid() && src.Valid() && src != this && Separate(src) && src.first != null
      modifies this, mine, src, src.mine
      ensures Valid() && src.Valid() && Separate(src) && |src.nodes| < |old(src.nodes)|
      ensures src.mine <= old(src.mine) && src.spare == old(src.spare) && spare == old(spare) && mine <= old(mine) + old(src.mine)
      ensures old(src.nodes) != [] && Data() == old(Data()) + [old(src.Data())[0]] && src.Data() == old(src.Data())[1..]
      ensures bytesIn == old(bytesIn) + old(src.Data())[0].Remaining() && bytesOut == old(bytesOut)
      ensures src.bytesOut == old(src.bytesOut) + old(src.Data())[0].Remaining() && src.bytesIn == old(src.bytesIn)
    {
      hide Queued, Pooled, ChunkList.Data, Total;
      src.Ends();
      ghost var d := src.Data()[0];
      StealStep(src.Data(), 0);
      TotalConcat(Data(), [d]);
      var c := src.PopFront();
      var use := c.d.Remaining();
      Append(c);
      src.bytesOut := src.bytesOut + use;
    }

    method AppendFront(d: Data, use: nat)
      requires Valid() && d.Ok() && 0 < use <= d.Remaining()
      modifies this, mine, spare
      ensures Valid() && Grows() && Data() == old(Data()) + [Front(d, use)]
      ensures bytesIn == old(bytesIn) + use && bytesOut == old(bytesOut)
    {
      hide Queued, Pooled, ChunkList.Data, Total;
      if d.Mem? {
        AppendMem(d.bytes[d.offset..d.offset + use]);
      } else {
        AppendFile(d.name, d.start + d.offset, use);
      }
    }

    /** Part of a chunk is copied, or referred to, and skipped at the source. */
    method CopyFirst(src: ChunkList, use: nat)
      requires Valid() && src.Valid() && src != this && Separate(src) && src.first != null
      requires src.nodes != [] && 0 < use < src.Data()[0].Remaining()
      modifies this, mine, spare, src`bytesOut, src.mine`d
      ensures Valid() && src.Valid() && Separate(src) && Grows() && src.nodes == old(src.nodes)
      ensures Data() == old(Data()) + [Front(old(src.Data())[0], use)]
      ensures src.Data() == [old(src.Data())[0].Skip(use)] + old(src.Data())[1..]
      ensures bytesIn == old(bytesIn) + use && bytesOut == old(bytesOut) && src.bytesOut == old(src.bytesOut) + use
    {
      hide Queued, Pooled, ChunkList.Data, Total, Front;
      src.Ends();
      ghost var ds := src.Data();
      SkipTotal(ds[0], use, ds[1..]);
      assert ds == [ds[0]] + ds[1..];
      AppendFront(src.first.d, use);
      src.SkipFirst(use);
      src.bytesOut := src.bytesOut + use;
    }

    /** One round of steal: an empty chunk is dropped, a whole chunk moved, or part of one copied. */
    method StealFirst(src: ChunkList, len: nat) returns (rest: nat)
      requires Valid() && src.Valid() && src != this && Separate(src) && src.first != null && len > 0
      modifies this, mine, spare, src, src.mine
      ensures Valid() && src.Valid() && Separate(src) && rest <= len
      ensures src.mine <= old(src.mine) && src.spare <= old(src.spare) + old(src.mine) && GrowsFrom(src)
      ensures Data() + Moved(src.Data(), rest) == old(Data()) + Moved(old(src.Data()), len)
      ensures Kept(src.Data(), rest) == Kept(old(src.Data()), len)
      ensures bytesOut == old(bytesOut) && src.bytesIn == old(src.bytesIn)
      ensures |src.nodes| <= |old(src.nodes)| && (rest == 0 || |src.nodes| < |old(src.nodes)|)
    {
      hide Queued, Pooled, ChunkList.Data, Total, Moved, Kept, Front;
      src.Ends();
      StealStep(src.Data(), len);
      var clen := src.first.d.Remaining();
      if clen == 0 {
        src.DropFirst();
        return len;
      }
      if len >= clen {
        MoveFirst(src);
        ConcatMoved(old(Data()), old(src.Data())[0], Moved(src.Data(), len - clen));
        return len - clen;
      }
      CopyFirst(src, len);
      StealStep(src.Data(), 0);
      return 0;
    }

    /** The only nodes this queue can gain are those of src, and new ones. */
    twostate predicate GrowsFrom(src: ChunkList)
      reads this, src
    {
      && fresh(mine - old(mine) - old(spare) - old(src.mine))
      && fresh(spare - old(mine) - old(spare) - old(src.mine))
    }

    /** steal: the first min(len, length) bytes change queues, in order. */
    method Steal(src: ChunkList, len: nat)
      requires Valid() && src.Valid() && src != this && Separate(src)
      modifies this, mine, spare, src, src.mine
      ensures Valid() && src.Valid() && Separate(src) && GrowsFrom(src)
      ensures src.mine <= old(src.mine) && src.spare <= old(src.spare) + old(src.mine)
      ensures Data() == old(Data()) + Moved(old(src.Data()), len)
      ensures src.Data() == Kept(old(src.Data()), len)
      ensures bytesOut == old(bytesOut) && src.bytesIn == old(src.bytesIn)
    {
      hide Queued, Pooled, ChunkList.Data, Total, Moved, Kept;
      var rest := len;
      while rest > 0 && src.first != null
        invariant Valid() && src.Valid() && Separate(src) && GrowsFrom(src)
        invariant src.mine <= old(src.mine) && src.spare <= old(src.spare) + old(src.mine)
        invariant Data() + Moved(src.Data(), rest) == old(Data()) + Moved(old(src.Data()), len)
        invariant Kept(src.Data(), rest) == Kept(old(src.Data()), len)
        invariant bytesOut == old(bytesOut) && src.bytesIn == old(src.bytesIn)
        decreases |src.nodes|, rest
      {
        rest := StealFirst(src, rest);
      }
      src.Ends();
      StealStep(src.Data(), rest);
    }

    /** append_chunkqueue: everything of src changes queues at once. */
    method Join(src: ChunkList)
      requires Valid() && src.Valid() && src != this && Separate(src)
      modifies this, mine, src
      ensures Valid() && src.Valid() && Separate(src)
      ensures Data() == old(Data()) + old(src.Data()) && src.Data() == []
      ensures mine <= old(mine) + old(src.mine) && spare == old(spare) && src.mine <= old(src.mine) && src.spare == old(src.spare)
      ensures bytesIn == old(bytesIn) + old(src.bytesIn - src.bytesOut) && bytesOut == old(bytesOut)
      ensures src.bytesIn == old(src.bytesIn)
    {
      hide Queued, Pooled, ChunkList.Data, Total;
      NoTotal();
      src.Ends();
      if src.first == null {
        assert old(Data()) + [] == old(Data());
        return;
      }
      TotalConcat(Data(), src.Data());
      src.EndsQueue();
      LinkTail(src.first, src.last, src.nodes, src.mine);
      bytesIn := bytesIn + (src.bytesIn - src.bytesOut);
      src.Emptied();
    }

    /** The list now belongs to another queue. */
    method Emptied()
      requires Pooled(pool, unused, spare, unusedChunks) && bytesOut <= bytesIn
      modifies this`first, this`last, this`bytesOut, this`nodes, this`mine
      ensures Valid() && Data() == [] && mine == {} && bytesOut == bytesIn
    {
      hide Queued, Pooled, DataOf, Total;
      first, last, bytesOut := null, null, bytesIn;
      nodes, mine := [], {};
      EmptyList();
      NoTotal();
    }

    /** A whole list is linked behind this one. */
    method LinkTail(head: Node, tail: Node, ghost t: seq<Node>, ghost own: set<Node>)
      requires Chained() && Queued(t, head, tail, own) && t != [] && own !! mine && own !! spare
      modifies this`first, this`last, this`nodes, this`mine, mine`next
      ensures Chained() && nodes == old(nodes) + t && mine == old(mine) + own
      ensures Data() == old(Data()) + old(DataOf(t, head, tail, own))
    {
      hide Pooled, Queued, Open, DataOf;
      ghost var a, ds := nodes, Data();
      RelinkTail(head, t, own, tail);
      JoinQueued(a, first, mine, ds, t, head, tail, own);
      last := tail;
      nodes, mine := a + t, mine + own;
    }

    /** The last node points to the other list, which is otherwise untouched. */
    method RelinkTail(head: Node, ghost t: seq<Node>, ghost own: set<Node>, ghost tail: Node)
      requires Queued(nodes, first, last, mine) && own !! mine && Queued(t, head, tail, own)
      modifies this`first, mine`next
      ensures Open(nodes, first, head, mine, old(Data()))
      ensures Queued(t, head, tail, own) && DataOf(t, head, tail, own) == old(DataOf(t, head, tail, own))
    {
      if first == null {
        first := head;
      } else {
        last.next := head;
      }
    }
  }

  /** A list whose last node points on to `end`, with the given contents; if empty, its head is `end`. */
  ghost predicate Open(s: seq<Node>, head: Node?, end: Node?, own: set<Node>, ds: seq<Data>)
    reads own
  {
    && (forall i :: 0 <= i < |s| ==> s[i] in own) && (forall i, j :: 0 <= i < j < |s| ==> s[i] != s[j])
    && (forall i :: 0 <= i < |s| - 1 ==> s[i].next == s[i + 1])
    && (if s == [] then head == end else head == s[0] && s[|s| - 1].next == end)
    && |ds| == |s| && (forall i :: 0 <= i < |s| ==> s[i].d.Ok() && s[i].d == ds[i])
  }

  lemma JoinQueued(s: seq<Node>, head: Node?, own: set<Node>, ds: seq<Data>, t: seq<Node>, head': Node?, tail: Node?, own': set<Node>)
    requires Open(s, head, head', own, ds) && Queued(t, head', tail, own') && t != [] && own !! own'
    ensures Queued(s + t, head, tail, own + own')
    ensures DataOf(s + t, head, tail, own + own') == ds + DataOf(t, head', tail, own')
  {
    JoinLists(s, head, own, t, head', own');
    var u := s + t;
    assert forall i :: 0 <= i < |s| ==> u[i] == s[i];
    assert forall i :: |s| <= i < |u| ==> u[i] == t[i - |s|];
  }

  lemma OneNode(c: Node)
    requires c.next == null && c.d.Ok()
    ensures Queued([c], c, c, {c}) && DataOf([c], c, c, {c}) == [c.d]
  {
  }

  lemma EmptyList()
    ensures Queued([], null, null, {}) && DataOf([], null, null, {}) == []
  {
  }

  lemma NoTotal()
    ensures Total([]) == 0
  {
  }

  lemma ConcatMoved(a: seq<Data>, d: Data, m: seq<Data>)
    ensures a + [d] + m == a + ([d] + m)
  {
  }
}
