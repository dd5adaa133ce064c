/**
  Finding the end of the request header in the read queue, where it may be spread
  over any number of chunks, and taking the header off the queue.
 */
module HeaderSearch {
  import opened Basics
  import opened Pieces

  // ------------------------------------------------------------ in the stream

  /** CR LF CR LF at position i. */
  ghost predicate BlankLine(s: seq<byte>, i: nat) {
    i + 4 <= |s| && s[i] == CR && s[i + 1] == LF && s[i + 2] == CR && s[i + 3] == LF
  }

  /** LF LF at position i. */
  ghost predicate BareBlank(s: seq<byte>, i: nat) {
    i + 2 <= |s| && s[i] == LF && s[i + 1] == LF
  }

  /** Where the first ending at or after i begins; the length of the stream if there is none. */
  ghost function FirstEnding(s: seq<byte>, i: nat): (r: nat)
    requires i <= |s|
    ensures i <= r <= |s|
    ensures r < |s| ==> BlankLine(s, r) || BareBlank(s, r)
    ensures forall j :: i <= j < r ==> !BlankLine(s, j) && !BareBlank(s, j)
    decreases |s| - i
  {
    if i == |s| || BlankLine(s, i) || BareBlank(s, i) then i else FirstEnding(s, i + 1)
  }

  lemma FirstEndingIs(s: seq<byte>, i: nat, r: nat)
    requires i <= r <= |s| && (r < |s| ==> BlankLine(s, r) || BareBlank(s, r))
    requires forall j :: i <= j < r ==> !BlankLine(s, j) && !BareBlank(s, j)
    ensures FirstEnding(s, i) == r
  {
  }

  // ------------------------------------------------------------- in the queue

  /** Where chunk k begins in the stream. */
  ghost function At(q: Queue, k: nat): (p: nat)
    requires k <= |q|
  {
    |Flat(q[..k])|
  }

  lemma Place(q: Queue, k: nat)
    requires k <= |q|
    ensures At(q, 0) == 0 && At(q, |q|) == |Flat(q)| && At(q, k) <= |Flat(q)|
    ensures Flat(q) == Flat(q[..k]) + Flat(q[k..])
    ensures k < |q| ==> At(q, k + 1) == At(q, k) + |q[k]| <= |Flat(q)|
    ensures k < |q| ==> forall i :: 0 <= i < |q[k]| ==> Flat(q)[At(q, k) + i] == q[k][i]
  {
    hide Flat;
    PlaceEnds(q);
    PlaceSplit(q, k);
    if k < |q| {
      PlaceOf(q, k);
    }
  }

  lemma PlaceEnds(q: Queue)
    ensures |Flat(q[..0])| == 0 && Flat(q[..|q|]) == Flat(q)
  {
    hide Flat;
    assert q[..0] == [] && q[..|q|] == q;
    FlatNone();
  }

  lemma PlaceSplit(q: Queue, k: nat)
    requires k <= |q|
    ensures Flat(q) == Flat(q[..k]) + Flat(q[k..])
  {
    hide Flat;
    CutAt(q, k);
    FlatConcat(q[..k], q[k..]);
  }

  lemma PlaceOf(q: Queue, k: nat)
    requires k < |q|
    ensures Flat(q[..k + 1]) == Flat(q[..k]) + q[k] && |Flat(q[..k + 1])| <= |Flat(q)|
    ensures forall i :: 0 <= i < |q[k]| ==> Flat(q)[|Flat(q[..k])| + i] == q[k][i]
  {
    hide Flat;
    var p, x, rest := q[..k], q[k], q[k + 1..];
    assert Flat(q[..k + 1]) == Flat(p) + x by {
      assert q[..k + 1] == p + [x];
      FlatConcat(p, [x]);
      FlatOne(x, []);
    }
    assert Flat(q) == Flat(p) + x + Flat(rest) by {
      assert q == q[..k + 1] + rest;
      FlatConcat(q[..k + 1], rest);
    }
  }

  lemma FlatNone()
    ensures Flat([]) == []
  {
  }

  /**
    What the scan from chunk k on finds, as the end of the header in the stream. A
    CR LF CR LF ends the search, and so does an LF LF across chunks; an LF LF inside
    one chunk only ends the scan of that chunk.
   */
  ghost function Scan(q: Queue, k: nat): Option<nat>
    requires k <= |q|
    decreases |q| - k
  {
    if k == |q| then None
    else
      Place(q, k);
      var i := FirstEnding(Flat(q), At(q, k));
      if i >= At(q, k + 1) then Scan(q, k + 1)
      else if BlankLine(Flat(q), i) then Some(i + 4)
      else if i + 1 == At(q, k + 1) then Some(i + 2)
      else match Scan(q, k + 1)
        case None => Some(i + 2)
        case Some(e) => Some(e)
  }

  /** Is the CR at (k, i) the start of CR LF CR LF? */
  method MatchBlankLine(q: Queue, k: nat, i: nat) returns (found: bool, chunk: nat, offset: nat)
    requires k < |q| && i < |q[k]| && q[k][i] == CR
    ensures found <==> BlankLine(Flat(q), At(q, k) + i)
    ensures found ==> chunk < |q| && 0 < offset <= |q[chunk]| && At(q, chunk) + offset == At(q, k) + i + 4
  {
    hide Flat, At;
    var cc: nat, j: nat, matched := k, i + 1, 1;
    ghost var s, p := Flat(q), At(q, k) + i;
    Place(q, k);
    while cc < |q|
      invariant k <= cc <= |q| && 1 <= matched <= 3 && At(q, cc) + j == p + matched <= |s|
      invariant cc < |q| ==> j <= |q[cc]|
      invariant cc == |q| ==> j == 0
      invariant s[p] == CR && (matched > 1 ==> s[p + 1] == LF) && (matched > 2 ==> s[p + 2] == CR)
      decreases |q| - cc
    {
      Place(q, cc);
      while j < |q[cc]|
        invariant 1 <= matched <= 3 && j <= |q[cc]| && At(q, cc) + j == p + matched <= |s|
        invariant (matched > 1 ==> s[p + 1] == LF) && (matched > 2 ==> s[p + 2] == CR)
      {
        assert q[cc][j] == s[p + matched];
        if q[cc][j] != (if matched == 2 then CR else LF) {
          return false, 0, 0;
        }
        matched := matched + 1;
        if matched == 4 {
          return true, cc, j + 1;
        }
        j := j + 1;
      }
      cc, j := cc + 1, 0;
      if cc < |q| { Place(q, cc); }
    }
    Place(q, |q|);
    return false, 0, 0;
  }

  /** Does the next byte after chunk k exist and is it an LF? */
  method NextIsLf(q: Queue, k: nat) returns (found: bool, chunk: nat)
    requires k < |q|
    ensures found <==> At(q, k + 1) < |Flat(q)| && Flat(q)[At(q, k + 1)] == LF
    ensures found ==> k < chunk < |q| && q[chunk] != [] && At(q, chunk) == At(q, k + 1)
  {
    hide Flat, At;
    Place(q, k);
    var cc := k + 1;
    while cc < |q|
      invariant k < cc <= |q| && At(q, cc) == At(q, k + 1)
    {
      Place(q, cc);
      if |q[cc]| != 0 {
        assert q[cc][0] == Flat(q)[At(q, cc) + 0];
        return q[cc][0] == LF, cc;
      }
      cc := cc + 1;
    }
    Place(q, |q|);
    return false, 0;
  }

  datatype Hit = Nothing | Inside(chunk: nat, offset: nat) | Final(chunk: nat, offset: nat)

  /** Where in the queue the byte before position p of the stream lies. */
  ghost predicate EndsAt(q: Queue, chunk: nat, offset: nat, p: nat) {
    chunk < |q| && 0 < offset <= |q[chunk]| && At(q, chunk) + offset == p
  }

  /** The hit describes the first ending that begins in chunk k. */
  ghost predicate HitIn(q: Queue, k: nat, hit: Hit)
    requires k < |q|
  {
    Place(q, k);
    var s, next, i := Flat(q), At(q, k + 1), FirstEnding(Flat(q), At(q, k));
    && (hit.Nothing? ==> i >= next)
    && (hit.Inside? ==> i + 1 < next && BareBlank(s, i) && !BlankLine(s, i) && EndsAt(q, hit.chunk, hit.offset, i + 2))
    && (hit.Final? ==> i < next && (if BlankLine(s, i) then EndsAt(q, hit.chunk, hit.offset, i + 4)
                                    else i + 1 == next && EndsAt(q, hit.chunk, hit.offset, i + 2)))
  }

  /** The first ending that begins in chunk k. */
  method ScanChunk(q: Queue, k: nat) returns (hit: Hit)
    requires k < |q|
    ensures HitIn(q, k, hit)
  {
    hide Flat, At, FirstEnding;
    Place(q, k);
    ghost var s, a := Flat(q), At(q, k);
    var i := 0;
    while i < |q[k]|
      invariant i <= |q[k]| && forall j :: a <= j < a + i ==> !BlankLine(s, j) && !BareBlank(s, j)
    {
      var ch := q[k][i];
      assert s[a + i] == ch;
      if ch == CR {
        var found, c, o := MatchBlankLine(q, k, i);
        if found {
          FirstEndingIs(s, a, a + i);
          return Final(c, o);
        }
      } else if ch == LF {
        if i + 1 < |q[k]| {
          if q[k][i + 1] == LF {
            assert s[a + (i + 1)] == LF;
            FirstEndingIs(s, a, a + i);
            return Inside(k, i + 2);
          }
          assert s[a + (i + 1)] != LF;
        } else {
          var found, c := NextIsLf(q, k);
          if found {
            FirstEndingIs(s, a, a + i);
            return Final(c, 1);
          }
        }
      }
      i := i + 1;
    }
    return Nothing;
  }

  /** The search over all chunks. */
  method FindEnd(q: Queue) returns (found: bool, chunk: nat, offset: nat)
    ensures found <==> Scan(q, 0).Some?
    ensures found ==> chunk < |q| && 0 < offset <= |q[chunk]| && At(q, chunk) + offset == Scan(q, 0).value
  {
    hide Flat, At, FirstEnding;
    var k := 0;
    found, chunk, offset := false, 0, 0;
    while k < |q|
      invariant k <= |q|
      invariant found ==> chunk < |q| && 0 < offset <= |q[chunk]|
      invariant Scan(q, 0) == if Scan(q, k).Some? then Scan(q, k) else if found then Some(At(q, chunk) + offset) else None
    {
      var hit := ScanChunk(q, k);
      match hit {
        case Nothing =>
        case Inside(c, o) => found, chunk, offset := true, c, o;
        case Final(c, o) => return true, c, o;
      }
      k := k + 1;
    }
  }

  // ------------------------------------------------- chunk boundaries

  /** Nothing more to find. */
  lemma {:induction false} ScanNothing(q: Queue, k: nat)
    requires k <= |q| && At(q, k) <= |Flat(q)| && FirstEnding(Flat(q), At(q, k)) == |Flat(q)|
    ensures Scan(q, k) == None
    decreases |q| - k
  {
    hide Flat, At, FirstEnding;
    if k < |q| {
      Place(q, k);
      FirstEndingIs(Flat(q), At(q, k + 1), |Flat(q)|);
      ScanNothing(q, k + 1);
    }
  }

  /** What the scan finds, in terms of the stream alone, where that decides it. */
  lemma {:induction false} ScanExact(q: Queue, k: nat)
    requires k <= |q| && At(q, k) <= |Flat(q)|
    ensures var s := Flat(q); var i := FirstEnding(s, At(q, k));
            && (i == |s| ==> Scan(q, k) == None)
            && (i < |s| && BlankLine(s, i) ==> Scan(q, k) == Some(i + 4))
            && (i < |s| && BareBlank(s, i) && FirstEnding(s, i + 2) == |s| ==> Scan(q, k) == Some(i + 2))
    decreases |q| - k
  {
    hide Flat, At, FirstEnding;
    Place(q, k);
    if k < |q| {
      var s, i := Flat(q), FirstEnding(Flat(q), At(q, k));
      if i >= At(q, k + 1) {
        FirstEndingIs(s, At(q, k + 1), i);
        ScanExact(q, k + 1);
      } else if BareBlank(s, i) && FirstEnding(s, i + 2) == |s| && i + 1 < At(q, k + 1) {
        FirstEndingIs(s, At(q, k + 1), |s|);
        ScanNothing(q, k + 1);
      }
    }
  }

  /** Position of the header's end in a stream that arrives as one chunk. */
  lemma OneChunk(s: seq<byte>)
    ensures Flat([s]) == s
    ensures var i := FirstEnding(s, 0);
            Scan([s], 0) == if i == |s| then None else if BlankLine(s, i) then Some(i + 4) else Some(i + 2)
  {
    hide FirstEnding;
    FlatOne(s, []);
    Place([s], 0);
    Place([s], 1);
  }

  /**
    The end of the header does not depend on how the stream is divided into chunks,
    exactly if its first ending is not an LF LF that another ending follows.
   */
  lemma BoundariesDoNotMatter(s: seq<byte>)
    ensures var i := FirstEnding(s, 0);
            (forall q :: Flat(q) == s ==> Scan(q, 0) == Scan([s], 0))
            <==> (i < |s| && BareBlank(s, i) ==> FirstEnding(s, i + 2) == |s|)
  {
    hide Flat, FirstEnding, Scan, BlankLine;
    var i := FirstEnding(s, 0);
    if i < |s| && BareBlank(s, i) && FirstEnding(s, i + 2) < |s| {
      CutMatters(s, i);
    } else {
      forall q | Flat(q) == s ensures Scan(q, 0) == Scan([s], 0) {
        SameAsOneChunk(s, q);
      }
    }
  }

  lemma SameAsOneChunk(s: seq<byte>, q: Queue)
    requires Flat(q) == s && (FirstEnding(s, 0) < |s| && BareBlank(s, FirstEnding(s, 0)) ==> FirstEnding(s, FirstEnding(s, 0) + 2) == |s|)
    ensures Scan(q, 0) == Scan([s], 0)
  {
    hide Flat, FirstEnding, Scan, At;
    OneChunk(s);
    Place(q, 0);
    ScanExact(q, 0);
  }

  /** Cutting the stream after an LF LF makes the scan run on to the next ending. */
  lemma CutMatters(s: seq<byte>, i: nat)
    requires i == FirstEnding(s, 0) < |s| && BareBlank(s, i) && FirstEnding(s, i + 2) < |s|
    ensures var q := [s[..i + 2], s[i + 2..]];
            && Flat(q) == s && Scan([s], 0) == Some(i + 2)
            && Scan(q, 0).Some? && Scan(q, 0).value > i + 2
  {
    hide Flat, FirstEnding, Scan, At;
    OneChunk(s);
    var q := [s[..i + 2], s[i + 2..]];
    TwoChunks(s[..i + 2], s[i + 2..]);
    assert s[..i + 2] + s[i + 2..] == s;
    ScanStep(q, 0);
    ScanStep(q, 1);
  }

  lemma TwoChunks(a: seq<byte>, b: seq<byte>)
    ensures Flat([a, b]) == a + b && At([a, b], 0) == 0 && At([a, b], 1) == |a| && At([a, b], 2) == |a| + |b|
  {
    var q := [a, b];
    assert q == [a] + [b];
    FlatOne(a, [b]);
    FlatOne(b, []);
    Place(q, 0);
    Place(q, 1);
  }

  lemma ScanStep(q: Queue, k: nat)
    requires k < |q| && At(q, k) <= |Flat(q)|
    ensures var s, next, i := Flat(q), At(q, k + 1), FirstEnding(Flat(q), At(q, k));
            Scan(q, k) == if i >= next then Scan(q, k + 1)
                          else if BlankLine(s, i) then Some(i + 4)
                          else if i + 1 == next || Scan(q, k + 1).None? then Some(i + 2)
                          else Scan(q, k + 1)
    ensures Scan(q, |q|) == None
  {
  }

  /** Without LF LF, the header ends at the first CR LF CR LF whatever the chunks. */
  lemma FirstBlankLine(q: Queue)
    requires forall i :: 0 <= i < |Flat(q)| ==> !BareBlank(Flat(q), i)
    ensures match Scan(q, 0)
            case None => forall i :: 0 <= i < |Flat(q)| ==> !BlankLine(Flat(q), i)
            case Some(e) => e >= 4 && BlankLine(Flat(q), e - 4) && forall i :: 0 <= i < e - 4 ==> !BlankLine(Flat(q), i)
  {
    hide Flat, FirstEnding, Scan;
    Place(q, 0);
    ScanExact(q, 0);
  }

  // ---------------------------------------------------------------- extraction

  datatype State = Reading | RequestEnd | HandleRequest | Broken

  class Connection {
    var cq: Queue
    var request: seq<byte>
    var bytesOut: nat
    var state: State
    var status: nat
    var keepAlive: bool

    constructor ()
    {
      cq, request, bytesOut, state, status, keepAlive := [], [], 0, Reading, 0, true;
    }

    /** Copies the header out and consumes it, chunk by chunk. */
    method TakeHeader(chunk: nat, offset: nat)
      requires chunk < |cq| && offset <= |cq[chunk]|
      modifies this`cq, this`request, this`bytesOut
      ensures var s, e := old(Flat(cq)), old(At(cq, chunk)) + offset;
              && e <= |s| && request == s[..e] && Flat(cq) == s[e..] && bytesOut == old(bytesOut) + e
    {
      hide Flat, At;
      ghost var q := cq;
      request := [];
      var c := 0;
      FlatNone();
      assert q[..0] == [];
      while c < chunk
        invariant c <= chunk && |cq| == |q| && cq[c..] == q[c..]
        invariant forall k :: 0 <= k < c ==> cq[k] == []
        invariant request == Flat(q[..c]) && bytesOut == old(bytesOut) + |Flat(q[..c])|
      {
        assert q[..c + 1] == q[..c] + [q[c]];
        FlatConcat(q[..c], [q[c]]);
        FlatOne(q[c], []);
        assert cq[c] == cq[c..][0] == q[c];
        var len := |cq[c]|;
        request := request + cq[c][..len];
        bytesOut := bytesOut + len;
        cq := cq[c := cq[c][len..]];
        assert cq[c + 1..] == q[c..][1..];
        c := c + 1;
      }
      assert cq[c] == cq[c..][0] == q[c];
      ghost var before := cq;
      request := request + cq[c][..offset];
      bytesOut := bytesOut + offset;
      cq := cq[c := cq[c][offset..]];
      HeaderTaken(q, before, chunk, offset);
    }

    /** read_state, once the bytes read are in the queue. */
    method HandleRead(isClosed: bool, maxFieldSize: nat)
      modifies this
      ensures var s := old(Flat(cq));
              match Scan(Trimmed(old(cq)), 0)
              case Some(e) =>
                && e <= |s| && request == s[..e] && Flat(cq) == s[e..] && bytesOut == old(bytesOut) + e
                && (if e > maxFieldSize then state == HandleRequest && status == 431 && !keepAlive
                    else state == RequestEnd && status == old(status) && keepAlive == old(keepAlive))
              case None =>
                && request == old(request) && Flat(cq) == s && bytesOut == old(bytesOut)
                && (if |s| > maxFieldSize then state == HandleRequest && status == 431 && !keepAlive
                    else state == (if isClosed then Broken else old(state)) && status == old(status) && keepAlive == old(keepAlive))
      ensures cq == [] || cq[0] != []
    {
      hide Flat, At, Scan, Trimmed;
      TrimmedStream(cq);
      cq := Trimmed(cq);
      var found, chunk, offset := FindEnd(cq);
      if found {
        TakeHeader(chunk, offset);
        state := RequestEnd;
      } else if isClosed {
        state := Broken;
      }
      var length := Length(cq);
      if (if found then |request| else length) > maxFieldSize {
        status, keepAlive, state := 431, false, HandleRequest;
      }
      TrimmedStream(cq);
      cq := Trimmed(cq);
    }
  }

  /** chunkqueue_length */
  method Length(q: Queue) returns (len: nat)
    ensures len == |Flat(q)|
  {
    len := 0;
    assert q[..0] == [];
    for i := 0 to |q|
      invariant len == |Flat(q[..i])|
    {
      Place(q, i);
      len := len + |q[i]|;
    }
    assert q[..|q|] == q;
  }

  /** The chunks before `chunk` are used up, and `offset` bytes of it. */
  lemma HeaderTaken(q: Queue, r: Queue, chunk: nat, offset: nat)
    requires |r| == |q| && chunk < |q| && offset <= |q[chunk]|
    requires (forall k :: 0 <= k < chunk ==> r[k] == []) && r[chunk..] == q[chunk..]
    ensures var s, e := Flat(q), At(q, chunk) + offset;
            && e <= |s| && Flat(q[..chunk]) + q[chunk][..offset] == s[..e]
            && Flat(r[chunk := q[chunk][offset..]]) == s[e..]
  {
    hide Flat;
    Place(q, chunk);
    var p, x, rest := Flat(q[..chunk]), q[chunk], q[chunk + 1..];
    assert Flat(q) == p + (x + Flat(rest)) by {
      assert q[chunk..] == [x] + rest;
      FlatOne(x, rest);
    }
    SplitTwice(p, x, Flat(rest), offset);
    assert Flat(r[chunk := x[offset..]]) == x[offset..] + Flat(rest) by {
      ReplacedAt(q, r, chunk, x[offset..]);
      FlatEmpties(r[..chunk]);
      FlatConcat(r[..chunk], [x[offset..]] + rest);
      FlatOne(x[offset..], rest);
    }
  }

  lemma SplitTwice(p: seq<byte>, x: seq<byte>, f: seq<byte>, m: nat)
    requires m <= |x|
    ensures (p + (x + f))[..|p| + m] == p + x[..m]
    ensures (p + (x + f))[|p| + m..] == x[m..] + f
  {
    SplitPast(p, x + f, m);
  }

  lemma ReplacedAt(q: Queue, r: Queue, chunk: nat, x: seq<byte>)
    requires |r| == |q| && chunk < |q| && r[chunk..] == q[chunk..]
    ensures r[chunk := x] == r[..chunk] + ([x] + q[chunk + 1..])
  {
    assert r[chunk + 1..] == r[chunk..][1..] && q[chunk + 1..] == q[chunk..][1..];
  }

  lemma {:induction false} FlatEmpties(q: Queue)
    requires forall k :: 0 <= k < |q| ==> q[k] == []
    ensures Flat(q) == []
  {
    if q != [] {
      FlatEmpties(q[1..]);
    }
  }
}
