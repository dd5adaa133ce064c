/**
  The chunked request body as the connection reads it: from the chunks of the read
  queue, joined and consumed in place, to the content queue, by moving chunks or
  through temporary files. What it does to the queues is decoding of the streams.
 */
module BodyReader {
  import opened Basics
  import opened Pieces
  import opened ChunkQueue
  import opened Tempfiles
  import opened ChunkedDecode
  import QueueRuns

  // ------------------------------------------------------ chunks as reads leave them

  /** All in memory, none but the last without data, and that one a chunk nothing was read into. */
  ghost predicate Tight(ds: seq<Data>) {
    && AllOk(ds) && AllMem(ds)
    && (forall i :: 0 <= i < |ds| - 1 ==> ds[i].Remaining() > 0)
    && (ds != [] && ds[|ds| - 1].Remaining() == 0 ==> ds[|ds| - 1].bytes == [])
  }

  lemma TightTail(ds: seq<Data>)
    requires Tight(ds) && ds != []
    ensures Tight(ds[1..])
  {
    assert forall i :: 0 <= i < |ds| - 1 ==> ds[1..][i] == ds[i + 1];
  }

  lemma TightSkip(ds: seq<Data>, n: nat)
    requires Tight(ds) && ds != [] && n < ds[0].Remaining()
    ensures Tight([ds[0].Skip(n)] + ds[1..])
  {
    var e := [ds[0].Skip(n)] + ds[1..];
    assert e[0] == ds[0].Skip(n) && forall i :: 0 < i < |e| ==> e[i] == ds[i];
  }

  lemma {:induction false} TightMarked(ds: seq<Data>, n: nat)
    requires Tight(ds)
    ensures Tight(Marked(ds, n))
  {
    hide Tight, Marked;
    assert AllOk(ds) by { TightMeans(ds); }
    MarkedStep(ds, n);
    if ds == [] || (n == 0 && ds[0].Remaining() != 0) {
    } else if n >= ds[0].Remaining() {
      TightTail(ds);
      TightMarked(ds[1..], n - ds[0].Remaining());
    } else {
      TightSkip(ds, n);
    }
  }

  lemma TightMeans(ds: seq<Data>)
    requires Tight(ds)
    ensures AllOk(ds) && AllMem(ds)
  {
  }

  lemma {:induction false} TightKept(ds: seq<Data>, n: nat)
    requires Tight(ds)
    ensures Tight(Kept(ds, n))
  {
    if n == 0 || ds == [] {
    } else if n >= ds[0].Remaining() {
      TightTail(ds);
      TightKept(ds[1..], n - ds[0].Remaining());
    } else {
      TightSkip(ds, n);
    }
  }

  lemma TightCompacted(ds: seq<Data>)
    requires Tight(ds)
    ensures Tight(CompactedData(ds))
  {
    if |ds| >= 2 {
      var rest := [Merged(ds[0], ds[1])] + ds[2..];
      assert rest[0] == Merged(ds[0], ds[1]) && forall i :: 0 < i < |rest| ==> rest[i] == ds[i + 1];
      assert DroppedFinished(rest) == rest;
      if ds[1].Remaining() == 0 {
        assert |ds| == 2 && rest == [rest[0]];
      }
    }
  }

  lemma TightGrown(ds: seq<Data>, bytes: Bytes)
    requires Tight(ds) && ds != []
    ensures Tight(Grown(ds, bytes))
  {
    var e := Grown(ds, bytes);
    assert forall i :: 0 <= i < |ds| - 1 ==> e[i] == ds[i];
  }

  lemma TightNext(ds: seq<Data>)
    requires Tight(ds) && (ds == [] || ds[|ds| - 1].bytes != [])
    ensures Tight(ds + [EMPTY])
  {
    var e := ds + [EMPTY];
    assert forall i :: 0 <= i < |ds| ==> e[i] == ds[i];
  }

  lemma {:induction false} TightSolid(f: Files, ds: seq<Data>)
    requires Tight(ds) && Stored(f, ds)
    ensures Solid(PiecesOf(f, ds))
  {
    if ds != [] {
      TightTail(ds);
      PiecesHead(f, ds);
      TightSolid(f, ds[1..]);
      var q := PiecesOf(f, ds);
      forall i | 0 <= i < |q| - 1 ensures q[i] != [] {
        if i > 0 { assert q[i] == q[1..][i - 1]; }
      }
    }
  }

  // ------------------------------------------------------------------ the reader

  class Reader {
    const cfg: Config
    const cq: ChunkList
    const dst: ChunkList
    const disk: Disk
    var te: nat
    /** What others have taken from the content queue already. */
    ghost const gone: Bytes

    ghost predicate Ok()
      reads cq, cq.mine, cq.spare, dst, dst.mine, dst.spare, disk
    {
      Paired(dst, cq, disk) && Tight(cq.Data()) && |gone| == dst.bytesOut
    }

    /** The chunks of the read queue, as pieces. */
    ghost function Queue(): (q: Pieces.Queue)
      requires Ok()
      reads cq, cq.mine, cq.spare, dst, dst.mine, dst.spare, disk
    {
      PiecesOf(disk.files, cq.Data())
    }

    /** The body received so far. */
    ghost function Body(): (b: Bytes)
      requires Ok()
      reads cq, cq.mine, cq.spare, dst, dst.mine, dst.spare, disk
    {
      gone + Stream(disk.files, dst.Data())
    }

    constructor (cfg: Config, cq: ChunkList, dst: ChunkList, disk: Disk, ghost gone: Bytes)
      requires Paired(dst, cq, disk) && Tight(cq.Data()) && |gone| == dst.bytesOut
      ensures this.cfg == cfg && this.cq == cq && this.dst == dst && this.disk == disk && this.gone == gone && te == 0 && Ok()
    {
      this.cfg, this.cq, this.dst, this.disk, this.gone, te := cfg, cq, dst, disk, gone, 0;
    }

    /** The queue is solid, its counters measure the stream, and its first chunk is its first piece. */
    lemma Means()
      requires Ok()
      ensures Solid(Queue()) && |Flat(Queue())| == cq.bytesIn - cq.bytesOut && |Body()| == dst.bytesIn
      ensures Queue() == [] <==> cq.first == null
      ensures cq.first != null ==> cq.first in cq.mine && cq.first.d.Mem? && cq.first.d.Ok() && Queue()[0] == cq.first.d.bytes[cq.first.d.offset..]
    {
      hide Total, Growing, Settled;
      TightSolid(disk.files, cq.Data());
      TotalIsLength(disk.files, cq.Data());
      TotalIsLength(disk.files, dst.Data());
      cq.Ends();
      if cq.first != null {
        PiecesHead(disk.files, cq.Data());
      }
    }

    /** Joins chunks, as cq_compact does. */
    method CompactQueue() returns (joined: bool)
      requires Ok()
      modifies cq, cq.mine, cq.spare
      ensures Ok() && Queue() == Compacted(old(Queue())) && joined == CanCompact(old(Queue())) && Body() == old(Body())
      ensures cq.mine <= old(cq.mine) && cq.spare <= old(cq.spare) + old(cq.mine)
    {
      hide ChunkList.Data, Queued, Pooled, Total, Growing, Settled, CompactedData, CanJoin, PiecesOf, Stream;
      ghost var f, ds := disk.files, cq.Data();
      TightCompacted(ds);
      CompactedPieces(f, ds);
      QueueRuns.MemorySound(f, CompactedData(ds));
      joined := cq.Compact();
    }

    /** Consumes n bytes, as mark_written does. */
    method Consume(n: nat)
      requires Ok() && n <= |Flat(Queue())|
      modifies cq, cq.mine, cq.spare
      ensures Ok() && Queue() == Written(old(Queue()), n) && Flat(Queue()) == old(Flat(Queue()))[n..] && Body() == old(Body())
      ensures cq.mine <= old(cq.mine) && cq.spare <= old(cq.spare) + old(cq.mine)
    {
      hide ChunkList.Data, Queued, Pooled, Total, Growing, Settled, Marked, PiecesOf, Stream, Flat, Written, Tight;
      Means();
      ghost var f, ds := disk.files, cq.Data();
      TightMarked(ds, n);
      MarkedPieces(f, ds, n);
      WrittenStream(PiecesOf(f, ds), n);
      QueueRuns.SentPair(f, ds, dst.Data(), n);
      cq.MarkWritten(n);
    }

    /** Moves n bytes to the content queue, through temporary files once there is much data. */
    method TakeBytes(n: nat, t: nat, limit: nat, rounds: seq<Round>) returns (ok: bool, rest: seq<Round>)
      requires Ok() && n <= |Flat(Queue())|
      modifies cq, cq.mine, dst, dst.mine, dst.spare, disk
      ensures ok ==> Ok() && fresh(Nodes() - old(Nodes()))
      ensures ok ==> Body() == old(Body()) + old(Flat(Queue()))[..n] && Flat(Queue()) == old(Flat(Queue()))[n..]
    {
      hide ChunkList.Data, Queued, Pooled, Total, Growing, Settled, Kept, Tight, Extends, Stream, PiecesOf, Flat;
      ghost var f, ds := disk.files, cq.Data();
      TightKept(ds, n);
      StreamIs();
      ghost var x, y := Stream(f, dst.Data()), Stream(f, ds);
      SelfExtends(f);
      if dst.bytesIn + t <= 64 * 1024 {
        QueueRuns.DoTake(dst, cq, disk, n, f, x, y);
        ok, rest := true, rounds;
      } else {
        ok, rest := QueueRuns.DoTakeSpilling(dst, cq, disk, n, limit, rounds, f, x, y);
      }
      if ok {
        StreamIs();
        assert gone + (x + y[..n]) == gone + x + y[..n];
      }
    }

    ghost function Nodes(): set<Node>
      reads cq`mine, cq`spare, dst`mine, dst`spare
    {
      QueueRuns.Nodes(dst, cq)
    }

    lemma StreamIs()
      requires Ok()
      ensures Flat(Queue()) == Stream(disk.files, cq.Data())
    {
    }

    /** Looks for the CRLF after chunk data, along the chunks. */
    method CheckCrlf() returns (r: int)
      requires Ok()
      ensures r == CrlfCheck(Queue())
    {
      hide Total, Growing, Settled, Tight;
      Means();
      ghost var q := Queue();
      cq.Ends();
      var c := cq.first;
      if c == null { return 0; }
      var p := c.d.bytes[c.d.offset..];
      if |p| == 0 || p[0] != CR { return -1; }
      if |p| >= 2 { return if p[1] == LF then 1 else -1; }
      ghost var i := 1;
      NextNode(0);
      c := c.next;
      while c != null
        invariant 1 <= i <= |cq.nodes| == |q| && c == NodeAt(i)
        invariant LfCheck(q[1..]) == LfCheck(q[i..])
        decreases |q| - i
      {
        NextNode(i);
        assert q[i..][1..] == q[i + 1..];
        p := c.d.bytes[c.d.offset..];
        if |p| != 0 { return if p[0] == LF then 1 else -1; }
        c := c.next;
        i := i + 1;
      }
      assert q[i..] == [];
      return 0;
    }

    ghost function NodeAt(i: nat): Node?
      reads cq`nodes
    {
      if i < |cq.nodes| then cq.nodes[i] else null
    }

    lemma NextNode(i: nat)
      requires Ok()
      ensures |cq.nodes| == |Queue()|
      ensures i < |cq.nodes| ==> cq.nodes[i] in cq.mine && cq.nodes[i].next == NodeAt(i + 1)
      ensures i < |cq.nodes| ==> cq.nodes[i].d.Mem? && cq.nodes[i].d.Ok() && Queue()[i] == cq.nodes[i].d.bytes[cq.nodes[i].d.offset..]
    {
      hide Total, Growing, Settled;
      if i < |cq.nodes| {
        PieceAt(disk.files, cq.Data(), i);
      }
    }

    /** Searches the trailers, joining chunks until the blank line is found or nothing is left to join. */
    method FindTrailerEnd(from: nat) returns (end: int)
      requires Ok() && cq.first != null && from <= |Queue()[0]|
      modifies cq, cq.mine, cq.spare
      ensures Ok() && Flat(Queue()) == old(Flat(Queue())) && Body() == old(Body()) && Queue() != []
      ensures end == FindBlankLine(Flat(Queue())[from..])
      ensures from <= |Queue()[0]| && (end < 0 ==> Flat(Queue()) == Queue()[0])
      ensures cq.mine <= old(cq.mine) && cq.spare <= old(cq.spare) + old(cq.mine)
    {
      hide FindBlankLine, Compacted, CanCompact, Flat, Reader.Ok, Reader.Queue, Reader.Body;
      Means();
      end := FindBlankLine(cq.first.d.bytes[cq.first.d.offset..][from..]);
      var joined := true;
      while end < 0 && joined
        invariant Ok() && Body() == old(Body()) && Flat(Queue()) == old(Flat(Queue())) && Queue() != [] && from <= |Queue()[0]|
        invariant end == FindBlankLine(Queue()[0][from..])
        invariant !joined ==> |Queue()| == 1
        invariant cq.mine <= old(cq.mine) && cq.spare <= old(cq.spare) + old(cq.mine)
        decreases |Queue()|, joined
      {
        ghost var q := Queue();
        Means();
        CompactedStream(q);
        joined := CompactQueue();
        if joined {
          CompactKeepsFirst(q);
        } else {
          CompactKept(q);
        }
        Means();
        end := FindBlankLine(cq.first.d.bytes[cq.first.d.offset..][from..]);
      }
      TrailerSearch(Queue(), from, end);
    }

    /** Reads one size line, joining chunks as needed; consumes it unless it is incomplete or in error. */
    method ReadLine() returns (status: Status, size: nat)
      requires Ok()
      modifies cq, cq.mine, cq.spare
      ensures Ok() && Body() == old(Body())
      ensures var st := LineStep(cfg, Body(), old(Flat(Queue())));
              if size > 0 then st == Go(size + 2, Body(), Flat(Queue())) else st == Stop(Outcome(status, 0, Body(), Flat(Queue())))
      ensures cq.mine <= old(cq.mine) && cq.spare <= old(cq.spare) + old(cq.mine)
    {
      hide FindLf, Last, TooLarge, FindBlankLine, Compacted, CanCompact, Flat, Written, Solid, Reader.Ok, Reader.Queue, Reader.Body;
      size := 0;
      ghost var body := Body();
      LineOfNothing(cfg, body);
      FlatOfNothing();
      Means();
      while cq.first != null
        invariant Ok() && Body() == body && Flat(Queue()) == old(Flat(Queue()))
        invariant cq.mine <= old(cq.mine) && cq.spare <= old(cq.spare) + old(cq.mine)
        decreases |Queue()|
      {
        Means();
        ghost var q := Queue();
        LineInFirst(cfg, body, q);
        var p := cq.first.d.bytes[cq.first.d.offset..];
        var lf := FindLf(p);
        if lf >= 0 {
          var hsz := lf + 1;
          var line := cfg.parse(p[..hsz]);
          if line.Malformed? || hsz >= MAX_LINE { return Failed(400), 0; }
          if line.n == 0 {
            status := FinishBody(hsz);
            return status, 0;
          }
          FirstIsPrefix(q);
          Consume(hsz);
          Means();
          if TooLarge(cfg, line.n, dst.bytesIn) { return Failed(413), 0; }
          return More, line.n;
        }
        if |p| >= MAX_LINE { return Failed(400), 0; }
        CompactedStream(q);
        var joined := CompactQueue();
        if !joined {
          AllInFirst(q);
          return More, 0;
        }
      }
      Means();
      status := More;
    }

    /** The last chunk: its line is consumed together with the trailers and their blank line. */
    method FinishBody(hsz: nat) returns (status: Status)
      requires Ok() && cq.first != null && 0 < hsz <= |Queue()[0]|
      modifies cq, cq.mine, cq.spare
      ensures Ok() && Body() == old(Body())
      ensures hsz <= old(|Flat(Queue())|) && Last(cfg, Body(), old(Flat(Queue())), hsz) == Outcome(status, 0, Body(), Flat(Queue()))
      ensures cq.mine <= old(cq.mine) && cq.spare <= old(cq.spare) + old(cq.mine)
    {
      hide FindBlankLine, Flat, Written, Reader.Ok, Reader.Queue, Reader.Body;
      var from := if hsz < 2 then 0 else hsz - 2;
      Means();
      FirstIsPrefix(Queue());
      var end := FindTrailerEnd(from);
      Means();
      if end < 0 {
        return if |cq.first.d.bytes[cq.first.d.offset..]| < cfg.maxField then More else Fault;
      }
      Consume(from + end + 4);
      return Done;
    }

    /** Moves chunk data to the body and consumes the CRLF after it, as far as both have come. */
    method ReadChunk(t: nat, limit: nat, rounds: seq<Round>) returns (goOn: bool, status: Status, t': nat, rest: seq<Round>)
      requires Ok() && t >= 2
      modifies cq, cq.mine, cq.spare, dst, dst.mine, dst.spare, disk
      ensures t' != 1 && (goOn ==> t' == 0)
      ensures !goOn ==> status == More || status == Failed(400) || status == Failed(500)
      ensures goOn || status != Failed(500) ==> Ok() && fresh(Nodes() - old(Nodes()))
      ensures goOn || status != Failed(500) ==>
                var st := ChunkStep(t, old(Body()), old(Flat(Queue())));
                if goOn then st == Go(0, Body(), Flat(Queue())) else st == Stop(Outcome(status, t', Body(), Flat(Queue())))
    {
      hide Flat, Written, ChunkStep, CrlfCheck, Solid, Reader.Ok, Reader.Queue, Reader.Body;
      Means();
      rest := rounds;
      var n := Min(cq.bytesIn - cq.bytesOut, t - 2);
      ChunkStepIs(t, Body(), Flat(Queue()), n);
      if t > 2 {
        var ok;
        ok, rest := TakeBytes(n, t, limit, rounds);
        if !ok { return false, Failed(500), 0, rest; }
      }
      t' := t - n;
      Means();
      if cq.bytesIn - cq.bytesOut < t' { return false, More, t', rest; }
      SolidFirst(Queue());
      CrlfCheckExact(Queue());
      var r := CheckCrlf();
      if r == -1 { return false, Failed(400), 0, rest; }
      Consume(2);
      return true, More, 0, rest;
    }

    /** One round of the loop: a size line if one is due, then chunk data and its CRLF. */
    method OneChunk(t: nat, limit: nat, rounds: seq<Round>) returns (goOn: bool, status: Status, t': nat, rest: seq<Round>)
      requires Ok() && t != 1
      modifies cq, cq.mine, cq.spare, dst, dst.mine, dst.spare, disk
      ensures t' != 1 && (goOn ==> t' == 0)
      ensures goOn || status != Failed(500) ==> Ok() && fresh(Nodes() - old(Nodes()))
      ensures goOn || status != Failed(500) ==>
                var r := Decode(cfg, t, old(Body()), old(Flat(Queue())));
                if goOn then r == Decode(cfg, 0, Body(), Flat(Queue())) && |Flat(Queue())| < old(|Flat(Queue())|)
                else r == Outcome(status, r.te, Body(), Flat(Queue())) && (status in {More, Done} ==> t' == r.te)
    {
      hide LineStep, ChunkStep, Decode, Flat, Reader.Ok, Reader.Queue, Reader.Body;
      DecodeByStep(cfg, t, Body(), Flat(Queue()));
      t' := t;
      if t == 0 {
        var size;
        status, size := ReadLine();
        if size == 0 { return false, status, 0, rounds; }
        t' := size + 2;
        DecodeByStep(cfg, t', Body(), Flat(Queue()));
      }
      goOn, status, t', rest := ReadChunk(t', limit, rounds);
    }

    /**
      read_post_chunked on whatever has been received: its effect on both queues is
      that of Decode on their streams, however the data lies in chunks and files. Only
      a failing temporary file (500) leaves the outcome open.
     */
    method HandleChunked(limit: nat, rounds: seq<Round>) returns (status: Status, rest: seq<Round>)
      requires Ok() && te != 1
      modifies this`te, cq, cq.mine, cq.spare, dst, dst.mine, dst.spare, disk
      ensures te != 1
      ensures status != Failed(500) ==> Ok() && fresh(Nodes() - old(Nodes()))
      ensures status != Failed(500) ==>
                var r := Decode(cfg, old(te), old(Body()), old(Flat(Queue())));
                && status == r.status && Body() == r.body && Flat(Queue()) == r.left
                && te == if status in {More, Done} then r.te else old(te)
      ensures status != Failed(500) && Fits(cfg, old(te), old(Body())) ==>
                Fits(cfg, 0, Body()) && (status in {More, Done} ==> Fits(cfg, te, Body()))
    {
      hide Decode, Flat, Reader.Ok, Reader.Queue, Reader.Body;
      var t := te;
      rest := rounds;
      ghost var goal := Decode(cfg, te, Body(), Flat(Queue()));
      if Fits(cfg, te, Body()) { LimitExact(cfg, te, Body(), Flat(Queue())); }
      while true
        invariant Ok() && t != 1 && te == old(te) && fresh(Nodes() - old(Nodes()))
        invariant Decode(cfg, t, Body(), Flat(Queue())) == goal
        decreases |Flat(Queue())|
      {
        var goOn;
        goOn, status, t, rest := OneChunk(t, limit, rest);
        if !goOn {
          if status == More || status == Done { te := t; }
          return;
        }
        Means();
        if cq.first == null {
          DecodeNothing(cfg, Body());
          te := 0;
          return More, rest;
        }
      }
    }

    /** A read: the bytes go into the last chunk, which is always reused when empty, or into a new one. */
    method Receive(bytes: Bytes, room: bool)
      requires Ok()
      modifies cq, cq.mine, cq.spare
      ensures Ok() && Body() == old(Body()) && Flat(Queue()) == old(Flat(Queue())) + bytes && cq.Grows()
    {
      hide ChunkList.Data, Queued, Pooled, Total, Stream, Growing, Sound, Grown, Flat, PiecesOf, Tight;
      ghost var f, ds, es := disk.files, cq.Data(), dst.Data();
      StreamIs();
      cq.Ends();
      SoundMeans(f, ds);
      ReceivePair(f, ds, es, bytes);
      cq.GetMemory(room);
      cq.Ends();
      cq.UseMemory(bytes);
      StreamIs();
    }

    /** One read; the reader runs if it wants more. */
    method ReadOnce(bytes: Bytes, room: bool, status: Status, limit: nat, rounds: seq<Round>, ghost r: Outcome)
      returns (status': Status, rest: seq<Round>)
      requires Ok() && te != 1 && r.te != 1 && Stands(r, status)
      modifies this`te, cq, cq.mine, cq.spare, dst, dst.mine, dst.spare, disk
      ensures te != 1
      ensures status' != Failed(500) ==> Ok() && fresh(Nodes() - old(Nodes())) && Stands(Resume(cfg, r, bytes), status')
    {
      hide Decode, Flat, Reader.Ok, Reader.Queue, Reader.Body;
      status', rest := status, rounds;
      Receive(bytes, room);
      if status == More {
        status', rest := HandleChunked(limit, rounds);
      }
    }

    /**
      A whole session: after each read the reader runs, until it is done or has
      failed. The body received is the decoding of the stream, read by read, and, if
      the trailers fit, of the stream at once.
     */
    method Session(parts: seq<Bytes>, rooms: seq<bool>, limit: nat, rounds: seq<Round>) returns (status: Status)
      requires Ok() && te != 1 && cq.first == null && |rooms| == |parts|
      modifies this`te, cq, cq.mine, cq.spare, dst, dst.mine, dst.spare, disk
      ensures status != Failed(500) ==> Ok()
      ensures status != Failed(500) ==>
                var r := ResumeAll(cfg, Fresh(old(te), old(Body())), parts);
                && status == r.status && Body() == r.body && Flat(Queue()) == r.left && (status in {More, Done} ==> te == r.te)
      ensures status != Failed(500) && parts != [] && TrailersFit(cfg, old(te), old(Body()), Flat(parts)) ==>
                var r := Decode(cfg, old(te), old(Body()), Flat(parts));
                && status == r.status && Body() == r.body && Flat(Queue()) == r.left && (status in {More, Done} ==> te == r.te)
      ensures status != Failed(500) && Fits(cfg, old(te), old(Body())) ==>
                Fits(cfg, 0, Body()) && (status in {More, Done} ==> Fits(cfg, te, Body()))
      ensures status != Failed(500) && Fits(cfg, old(te), old(Body())) && parts != []
              && TrailersFit(cfg, old(te), old(Body()), Flat(parts)) ==>
                var u := Decode(Unlimited(cfg), old(te), old(Body()), Flat(parts));
                (status == Failed(413) <==> cfg.maxRequest != 0 && |u.body| + Pending(u.te) > cfg.maxRequest)
    {
      hide Decode, Flat, Resume, ResumeAll, TrailersFit, Reader.Ok, Reader.Queue, Reader.Body;
      status := More;
      ghost var r0 := Fresh(te, Body());
      Means();
      FlatOfNothing();
      NoReads(cfg, r0, parts);
      var rest, k := rounds, 0;
      while k < |parts|
        invariant k <= |parts| && Ok() && te != 1 && fresh(Nodes() - old(Nodes()))
        invariant Stands(ResumeAll(cfg, r0, parts[..k]), status)
        decreases |parts| - k
      {
        ResumeAllNext(cfg, r0, parts, k);
        status, rest := ReadOnce(parts[k], rooms[k], status, limit, rest, ResumeAll(cfg, r0, parts[..k]));
        if status == Failed(500) { return; }
        k := k + 1;
      }
      assert parts[..k] == parts;
      if parts != [] && TrailersFit(cfg, old(te), old(Body()), Flat(parts)) {
        SegmentationIndependent(cfg, old(te), old(Body()), Flat(parts));
      }
      if Fits(cfg, old(te), old(Body())) {
        ReadsFit(cfg, r0, parts);
        LimitExact(cfg, old(te), old(Body()), Flat(parts));
      }
    }

    /** The reader stands where the decoding of the reads so far stands. */
    ghost predicate Stands(r: Outcome, status: Status)
      requires Ok()
      reads this`te, cq, cq.mine, cq.spare, dst, dst.mine, dst.spare, disk
    {
      status == r.status && Body() == r.body && Flat(Queue()) == r.left && (status in {More, Done} ==> te == r.te)
    }
  }

  /** Bytes read into the last chunk, or into a new one behind it. */
  lemma ReceivePair(f: Files, ds: seq<Data>, es: seq<Data>, bytes: Bytes)
    requires QueueRuns.SoundPair(f, ds, es) && Tight(ds)
    ensures AllMem(ds)
    ensures ds != [] ==> Tight(Grown(ds, bytes)) && QueueRuns.SoundPair(f, Grown(ds, bytes), es) && Stream(f, Grown(ds, bytes)) == Stream(f, ds) + bytes
    ensures ds == [] || ds[|ds| - 1].bytes != [] ==>
              var e := Grown(ds + [EMPTY], bytes);
              Tight(e) && QueueRuns.SoundPair(f, e, es) && Stream(f, e) == Stream(f, ds) + bytes
  {
    hide Stream, Growing, Settled, Grown;
    if ds != [] {
      TightGrown(ds, bytes);
      QueueRuns.GrownPair(f, ds, es, bytes);
    }
    if ds == [] || ds[|ds| - 1].bytes != [] {
      TightNext(ds);
      QueueRuns.AddPair(f, ds, es, EMPTY);
      TightGrown(ds + [EMPTY], bytes);
      QueueRuns.GrownPair(f, ds + [EMPTY], es, bytes);
      assert Stream(f, ds) + [] == Stream(f, ds);
    }
  }

  lemma NoReads(cfg: Config, r: Outcome, parts: seq<Bytes>)
    requires r.te != 1
    ensures ResumeAll(cfg, r, parts[..0]) == r
  {
  }

  lemma DecodeNothing(cfg: Config, body: Bytes)
    ensures Flat([]) == [] && Decode(cfg, 0, body, []) == Outcome(More, 0, body, [])
  {
    FlatOfNothing();
    LineOfNothing(cfg, body);
    DecodeByStep(cfg, 0, body, []);
  }

  lemma FirstIsPrefix(q: Pieces.Queue)
    requires q != []
    ensures q[0] <= Flat(q)
  {
  }

  /** Compaction that joins nothing keeps the only piece. */
  lemma CompactKept(q: Pieces.Queue)
    requires q != [] && Solid(q) && !CanCompact(q)
    ensures |Compacted(q)| == 1 && (q[0] != [] ==> Compacted(q)[0] == q[0]) && |Compacted(q)[0]| >= |q[0]|
  {
  }

  lemma TrailerSearch(q: Pieces.Queue, from: nat, end: int)
    requires q != [] && from <= |q[0]| && end == FindBlankLine(q[0][from..]) && (end < 0 ==> |q| == 1)
    ensures from <= |Flat(q)| && end == FindBlankLine(Flat(q)[from..])
    ensures end < 0 ==> Flat(q) == q[0]
  {
    assert Flat(q)[from..] == q[0][from..] + Flat(q[1..]);
    FindBlankExtend(q[0][from..], Flat(q[1..]));
    if |q| == 1 {
      FlatOne(q[0], []);
      assert q == [q[0]];
    }
  }

  lemma SelfExtends(f: Files)
    ensures Extends(f, f)
  {
  }

  lemma {:induction false} PieceAt(f: Files, ds: seq<Data>, i: nat)
    requires AllOk(ds) && Stored(f, ds) && i < |ds|
    ensures PiecesOf(f, ds)[i] == Piece(f, ds[i])
  {
    if i > 0 {
      PieceAt(f, ds[1..], i - 1);
    }
  }
}
