/**
  Two chunk queues at work over the same files, through any sequence of operations:
  what they hold is, byte for byte, what the same operations make of two byte
  sequences.
 */
module QueueRuns {
  import opened Basics
  import opened Pieces
  import opened ChunkQueue
  import opened Tempfiles

  // -------------------------------------------------- operations on sequences

  /** What can happen to a queue; the `Take` operations move data from the other one. */
  datatype Op =
    | Add(bytes: Bytes)
    | AddFile(name: nat, start: nat, length: nat)
    | Put(bytes: Bytes)
    | Receive(room: bool, bytes: Bytes)
    | Sent(count: nat)
    | Take(count: nat)
    | TakeAll
    | Compact
    | Tidy
    | Clear
    | Spill(bytes: Bytes)
    | TakeSpilling(count: nat)

  predicate MayFail(op: Op) { op.Spill? || op.TakeSpilling? }

  /** References are to parts of files that exist from the start. */
  ghost predicate Allowed(files: Files, op: Op) {
    op.AddFile? ==> op.name in files && op.start + op.length <= |files[op.name]|
  }

  /** The two streams after an operation on the first queue. */
  ghost function Effect(files: Files, x: Bytes, y: Bytes, op: Op): (r: (Bytes, Bytes))
    requires Allowed(files, op)
  {
    match op
    case Add(bytes) => (x + bytes, y)
    case AddFile(name, start, length) => (x + files[name][start..start + length], y)
    case Put(bytes) => (bytes + x, y)
    case Receive(_, bytes) => (x + bytes, y)
    case Sent(count) => (x[Min(count, |x|)..], y)
    case Take(count) => (x + y[..Min(count, |y|)], y[Min(count, |y|)..])
    case TakeAll => (x + y, [])
    case Compact => (x, y)
    case Tidy => (x, y)
    case Clear => ([], y)
    case Spill(bytes) => (x + bytes, y)
    case TakeSpilling(count) => (x + y[..Min(count, |y|)], y[Min(count, |y|)..])
  }

  /** The two streams after a sequence of operations, each on the queue it names. */
  ghost function Effects(files: Files, steps: seq<(bool, Op)>): (r: (Bytes, Bytes))
    requires forall i :: 0 <= i < |steps| ==> Allowed(files, steps[i].1)
  {
    if steps == [] then ([], [])
    else
      var r, s := Effects(files, steps[..|steps| - 1]), steps[|steps| - 1];
      StepEffect(files, r, s)
  }

  ghost function StepEffect(files: Files, r: (Bytes, Bytes), step: (bool, Op)): (Bytes, Bytes)
    requires Allowed(files, step.1)
  {
    if step.0 then Effect(files, r.0, r.1, step.1)
    else var t := Effect(files, r.1, r.0, step.1); (t.1, t.0)
  }

  // ------------------------------------------------------ effects on contents

  /** Both queues' contents are sound and grow different files. */
  ghost predicate SoundPair(f: Files, a: seq<Data>, b: seq<Data>) {
    Sound(f, a) && Sound(f, b) && Growing(a) !! Growing(b)
  }

  lemma AddPair(f: Files, a: seq<Data>, b: seq<Data>, d: Data)
    requires SoundPair(f, a, b) && d.Ok() && Held(f, d) && !Growable(d)
    ensures SoundPair(f, a + [d], b) && Stream(f, a + [d]) == Stream(f, a) + Piece(f, d)
  {
    hide Sound, Growing, Stream;
    SoundNext(f, a, d);
  }

  /** A range of a file keeps its bytes as files grow. */
  lemma FilePiece(base: Files, f: Files, name: nat, start: nat, length: nat)
    requires Extends(base, f) && name in base && start + length <= |base[name]|
    ensures var d := File(name, start, length, 0, false, false);
            Held(f, d) && Piece(f, d) == base[name][start..start + length]
  {
    assert f[name][..|base[name]|] == base[name];
  }

  lemma PutPair(f: Files, a: seq<Data>, b: seq<Data>, bytes: Bytes)
    requires SoundPair(f, a, b)
    ensures SoundPair(f, [Mem(bytes, 0)] + a, b) && Stream(f, [Mem(bytes, 0)] + a) == bytes + Stream(f, a)
  {
    hide Sound, Growing, Stream;
    SoundPrepend(f, a, bytes);
  }

  lemma GrownPair(f: Files, a: seq<Data>, b: seq<Data>, bytes: Bytes)
    requires SoundPair(f, a, b) && a != [] && a[|a| - 1].Mem?
    ensures SoundPair(f, Grown(a, bytes), b) && Stream(f, Grown(a, bytes)) == Stream(f, a) + bytes
  {
    hide Growing, Stream, Settled, PiecesOf, Flat, Grown;
    var init, d := a[..|a| - 1], a[|a| - 1];
    var d' := Mem(d.bytes + bytes, d.offset);
    assert a == init + [d];
    GrownIs(init, d, bytes);
    SoundInit(f, init, d);
    GrowingNext(init, d);
    SoundNext(f, init, d);
    SoundNext(f, init, d');
    assert Piece(f, d') == Piece(f, d) + bytes;
    assert Stream(f, init) + (Piece(f, d) + bytes) == Stream(f, init) + Piece(f, d) + bytes;
  }

  lemma SoundInit(f: Files, init: seq<Data>, d: Data)
    requires Sound(f, init + [d])
    ensures Sound(f, init) && d.Ok() && Held(f, d)
  {
    var a := init + [d];
    assert a[|init|] == d && forall i :: 0 <= i < |init| ==> a[i] == init[i];
  }

  lemma SentPair(f: Files, a: seq<Data>, b: seq<Data>, n: nat)
    requires SoundPair(f, a, b) && n <= Total(a)
    ensures |Stream(f, a)| == Total(a)
    ensures SoundPair(f, Marked(a, n), b) && Stream(f, Marked(a, n)) == Stream(f, a)[n..]
  {
    hide Growing, Stream, Marked, Total, Settled;
    StreamLength(f, a);
    MarkedSound(f, a, n);
  }

  /** Dropping finished chunks is marking no bytes as written. */
  lemma {:induction false} TidyIsMarked(ds: seq<Data>)
    requires AllOk(ds)
    ensures DroppedFinished(ds) == Marked(ds, 0)
  {
    if ds != [] && ds[0].Remaining() == 0 {
      TidyIsMarked(ds[1..]);
    }
  }

  /** Stealing, seen as one step: the first bytes have moved. */
  lemma {:induction false} StealProgress(f: Files, a: seq<Data>, ds: seq<Data>, n: nat)
    requires SoundPair(f, a, ds)
    ensures Progress(f, a, ds, n, f, a + Moved(ds, n), Kept(ds, n), 0)
    decreases |ds|
  {
    hide Sound, Growing, Progress, Moved, Kept;
    SoundMeans(f, ds);
    StealStep(ds, n);
    if n == 0 || ds == [] {
      assert a + [] == a;
      NothingProgress(f, a, ds, n);
    } else if ds[0].Remaining() == 0 {
      EmptyProgress(f, a, ds, n);
      ProgressSound(f, a, ds, n, f, a, ds[1..], n);
      StealProgress(f, a, ds[1..], n);
      ProgressTrans(f, a, ds, n, f, a, ds[1..], n, f, a + Moved(ds, n), Kept(ds, n), 0);
    } else if n >= ds[0].Remaining() {
      var left := n - ds[0].Remaining();
      MoveProgress(f, a, ds, n);
      ProgressSound(f, a, ds, n, f, a + [ds[0]], ds[1..], left);
      StealProgress(f, a + [ds[0]], ds[1..], left);
      assert a + [ds[0]] + Moved(ds[1..], left) == a + Moved(ds, n);
      ProgressTrans(f, a, ds, n, f, a + [ds[0]], ds[1..], left, f, a + Moved(ds, n), Kept(ds, n), 0);
    } else {
      CopyProgress(f, a, ds, n);
    }
  }

  lemma NothingProgress(f: Files, a: seq<Data>, ds: seq<Data>, n: nat)
    requires SoundPair(f, a, ds) && (n == 0 || ds == [])
    ensures Progress(f, a, ds, n, f, a, ds, 0)
  {
    hide Growing, Stream, FirstBytes;
    NoFirstBytes(f, ds, n);
    NoFirstBytes(f, ds, 0);
  }

  lemma TakePair(f: Files, a: seq<Data>, b: seq<Data>, n: nat)
    requires SoundPair(f, a, b)
    ensures SoundPair(f, a + Moved(b, n), Kept(b, n))
    ensures var y := Stream(f, b);
            Stream(f, a + Moved(b, n)) == Stream(f, a) + y[..Min(n, |y|)] && Stream(f, Kept(b, n)) == y[Min(n, |y|)..]
  {
    hide Growing, Progress, Moved, Kept, Stream;
    StealProgress(f, a, b, n);
    ProgressAll(f, a, b, n, a + Moved(b, n), Kept(b, n));
    KeptRest(f, b, n);
  }

  lemma ProgressAll(f: Files, a: seq<Data>, ds: seq<Data>, n: nat, b: seq<Data>, es: seq<Data>)
    requires Sound(f, a) && Sound(f, ds) && Progress(f, a, ds, n, f, b, es, 0)
    ensures SoundPair(f, b, es) && Stream(f, b) == Stream(f, a) + FirstBytes(f, ds, n)
  {
    hide Growing, Progress, Stream, FirstBytes;
    ProgressDone(f, a, ds, n, f, b, es, 0);
  }

  lemma KeptRest(f: Files, ds: seq<Data>, n: nat)
    requires AllOk(ds) && Stored(f, ds)
    ensures Stored(f, Kept(ds, n))
    ensures var y := Stream(f, ds);
            FirstBytes(f, ds, n) == y[..Min(n, |y|)] && Stream(f, Kept(ds, n)) == y[Min(n, |y|)..]
  {
    hide Stream, Kept;
    KeptStream(f, ds, n);
    var y := Stream(f, ds);
    assert y == FirstBytes(f, ds, n) + Stream(f, Kept(ds, n));
  }

  lemma JoinPair(f: Files, a: seq<Data>, b: seq<Data>)
    requires SoundPair(f, a, b)
    ensures SoundPair(f, a + b, []) && Stream(f, a + b) == Stream(f, a) + Stream(f, b) && Stream(f, []) == []
  {
    hide Stream, Growing;
    StreamConcat(f, a, b);
    NoStream(f);
    JoinSettled(f, a, b);
  }

  lemma NoStream(f: Files)
    ensures Sound(f, []) && Stream(f, []) == [] && Growing([]) == {}
  {
  }

  lemma JoinSettled(f: Files, a: seq<Data>, b: seq<Data>)
    requires Settled(f, a) && Settled(f, b) && Growing(a) !! Growing(b)
    ensures Settled(f, a + b)
  {
    var e := a + b;
    assert forall i :: 0 <= i < |a| ==> e[i] == a[i];
    assert forall i :: |a| <= i < |e| ==> e[i] == b[i - |a|];
    forall i, j | 0 <= i < |a| && 0 <= j < |b| && Growable(a[i]) && Growable(b[j]) ensures a[i].name != b[j].name {
      assert a[i].name in Growing(a) && b[j].name in Growing(b);
    }
  }

  lemma CompactPair(f: Files, a: seq<Data>, b: seq<Data>)
    requires SoundPair(f, a, b) && AllMem(a)
    ensures SoundPair(f, CompactedData(a), b) && Stream(f, CompactedData(a)) == Stream(f, a)
  {
    hide Flat, PiecesOf, CompactedData;
    CompactedPieces(f, a);
    CompactedStream(PiecesOf(f, a));
    MemorySound(f, CompactedData(a));
  }

  lemma MemorySound(f: Files, ds: seq<Data>)
    requires AllOk(ds) && AllMem(ds)
    ensures Sound(f, ds) && Growing(ds) == {}
  {
  }

  // ---------------------------------------------------------------- operations

  /** All nodes of two queues. */
  ghost function Nodes(a: ChunkList, b: ChunkList): set<Node>
    reads a`mine, a`spare, b`mine, b`spare
  {
    a.mine + a.spare + b.mine + b.spare
  }

  /** Two queues over the disk, with the streams x and y; files only grew since `base`. */
  ghost predicate Hold(a: ChunkList, b: ChunkList, disk: Disk, base: Files, x: Bytes, y: Bytes)
    reads a, a.mine, a.spare, b, b.mine, b.spare, disk
  {
    && Paired(a, b, disk) && Extends(base, disk.files)
    && Stream(disk.files, a.Data()) == x && Stream(disk.files, b.Data()) == y
  }

  method DoAdd(a: ChunkList, b: ChunkList, disk: Disk, bytes: Bytes, ghost base: Files, ghost x: Bytes, ghost y: Bytes)
    requires Hold(a, b, disk, base, x, y)
    modifies a, a.mine, a.spare
    ensures Hold(a, b, disk, base, x + bytes, y) && a.Grows()
  {
    hide ChunkList.Data, Queued, Pooled, Total, Stream, Growing, Settled;
    ghost var ds := a.Data();
    if bytes == [] {
      assert ds + [] == ds && x + [] == x;
    } else {
      AddPair(disk.files, ds, b.Data(), Mem(bytes, 0));
    }
    a.AppendMem(bytes);
  }

  method DoAddFile(a: ChunkList, b: ChunkList, disk: Disk, name: nat, start: nat, length: nat, ghost base: Files, ghost x: Bytes, ghost y: Bytes)
    requires Hold(a, b, disk, base, x, y) && name in base && start + length <= |base[name]|
    modifies a, a.mine, a.spare
    ensures Hold(a, b, disk, base, x + base[name][start..start + length], y) && a.Grows()
  {
    hide ChunkList.Data, Queued, Pooled, Total, Stream, Growing, Settled, Extends;
    ghost var ds := a.Data();
    FilePiece(base, disk.files, name, start, length);
    if length == 0 {
      assert ds + [] == ds && x + base[name][start..start + length] == x;
    } else {
      AddPair(disk.files, ds, b.Data(), File(name, start, length, 0, false, false));
    }
    a.AppendFile(name, start, length);
  }

  method DoPut(a: ChunkList, b: ChunkList, disk: Disk, bytes: Bytes, ghost base: Files, ghost x: Bytes, ghost y: Bytes)
    requires Hold(a, b, disk, base, x, y)
    modifies a, a.mine, a.spare
    ensures Hold(a, b, disk, base, bytes + x, y) && a.Grows()
  {
    hide ChunkList.Data, Queued, Pooled, Total, Stream, Growing, Settled;
    ghost var ds := a.Data();
    if bytes == [] {
      assert [] + ds == ds && [] + x == x;
    } else {
      PutPair(disk.files, ds, b.Data(), bytes);
    }
    a.PrependMem(bytes);
  }

  method DoReceive(a: ChunkList, b: ChunkList, disk: Disk, room: bool, bytes: Bytes, ghost base: Files, ghost x: Bytes, ghost y: Bytes)
    requires Hold(a, b, disk, base, x, y)
    modifies a, a.mine, a.spare
    ensures Hold(a, b, disk, base, x + bytes, y) && a.Grows()
  {
    hide ChunkList.Data, Queued, Pooled, Total, Stream, Growing, Settled, Grown;
    ghost var ds := a.Data();
    AddPair(disk.files, ds, b.Data(), EMPTY);
    assert x + [] == x;
    a.GetMemory(room);
    a.Ends();
    GrownPair(disk.files, a.Data(), b.Data(), bytes);
    a.UseMemory(bytes);
  }

  method DoSent(a: ChunkList, b: ChunkList, disk: Disk, count: nat, ghost base: Files, ghost x: Bytes, ghost y: Bytes)
    requires Hold(a, b, disk, base, x, y)
    modifies a, a.mine, a.spare
    ensures Hold(a, b, disk, base, x[Min(count, |x|)..], y)
    ensures a.mine <= old(a.mine) && a.spare <= old(a.spare) + old(a.mine)
  {
    hide ChunkList.Data, Queued, Pooled, Total, Stream, Growing, Settled, Marked;
    var len := a.Length();
    var n := Min(count, len);
    SentPair(disk.files, a.Data(), b.Data(), n);
    a.MarkWritten(n);
  }

  method DoTidy(a: ChunkList, b: ChunkList, disk: Disk, ghost base: Files, ghost x: Bytes, ghost y: Bytes)
    requires Hold(a, b, disk, base, x, y)
    modifies a, a.mine, a.spare
    ensures Hold(a, b, disk, base, x, y)
    ensures a.mine <= old(a.mine) && a.spare <= old(a.spare) + old(a.mine)
  {
    hide ChunkList.Data, Queued, Pooled, Total, Stream, Growing, Settled, Marked, DroppedFinished;
    TidyIsMarked(a.Data());
    SentPair(disk.files, a.Data(), b.Data(), 0);
    assert x[0..] == x;
    a.RemoveFinished();
  }

  method DoClear(a: ChunkList, b: ChunkList, disk: Disk, ghost base: Files, ghost x: Bytes, ghost y: Bytes)
    requires Hold(a, b, disk, base, x, y)
    modifies a, a.mine, a.spare
    ensures Hold(a, b, disk, base, [], y)
    ensures a.mine <= old(a.mine) && a.spare <= old(a.spare) + old(a.mine)
  {
    hide ChunkList.Data, Queued, Pooled, Total, Stream, Growing, Settled;
    NoStream(disk.files);
    a.Reset();
  }

  method DoCompact(a: ChunkList, b: ChunkList, disk: Disk, ghost base: Files, ghost x: Bytes, ghost y: Bytes)
    requires Hold(a, b, disk, base, x, y)
    modifies a, a.mine, a.spare
    ensures Hold(a, b, disk, base, x, y)
    ensures a.mine <= old(a.mine) && a.spare <= old(a.spare) + old(a.mine)
  {
    hide ChunkList.Data, Queued, Pooled, Total, Stream, Growing, Settled, CompactedData;
    var all := a.InMemory();
    if all {
      CompactPair(disk.files, a.Data(), b.Data());
      var joined := a.Compact();
    }
  }

  method DoTake(a: ChunkList, b: ChunkList, disk: Disk, count: nat, ghost base: Files, ghost x: Bytes, ghost y: Bytes)
    requires Hold(a, b, disk, base, x, y)
    modifies a, a.mine, a.spare, b, b.mine
    ensures Hold(a, b, disk, base, x + y[..Min(count, |y|)], y[Min(count, |y|)..])
    ensures b.mine <= old(b.mine) && b.spare <= old(b.spare) + old(b.mine) && a.GrowsFrom(b)
    ensures b.Data() == Kept(old(b.Data()), count) && a.bytesOut == old(a.bytesOut)
  {
    hide ChunkList.Data, Queued, Pooled, Total, Stream, Growing, Settled, Moved, Kept;
    TakePair(disk.files, a.Data(), b.Data(), count);
    a.Steal(b, count);
  }

  method DoTakeAll(a: ChunkList, b: ChunkList, disk: Disk, ghost base: Files, ghost x: Bytes, ghost y: Bytes)
    requires Hold(a, b, disk, base, x, y)
    modifies a, a.mine, b
    ensures Hold(a, b, disk, base, x + y, [])
    ensures a.mine <= old(a.mine) + old(b.mine) && a.spare == old(a.spare) && b.mine <= old(b.mine) && b.spare == old(b.spare)
  {
    hide ChunkList.Data, Queued, Pooled, Total, Stream, Growing, Settled;
    JoinPair(disk.files, a.Data(), b.Data());
    a.Join(b);
  }

  method DoSpill(a: ChunkList, b: ChunkList, disk: Disk, bytes: Bytes, limit: nat, rounds: seq<Round>, ghost base: Files, ghost x: Bytes, ghost y: Bytes)
    returns (ok: bool, rest: seq<Round>)
    requires Hold(a, b, disk, base, x, y)
    modifies a, a.mine, a.spare, disk
    ensures ok ==> Hold(a, b, disk, base, x + bytes, y) && a.Grows()
  {
    hide ChunkList.Data, Queued, Pooled, Total, Stream, Growing, Settled, Added, Extends;
    ghost var f, ds, es := disk.files, a.Data(), b.Data();
    ok, rest := AppendMemToTempfile(a, disk, bytes, limit, rounds);
    if ok {
      AddedBeside(f, ds, disk.files, a.Data(), bytes, es);
      AddedMeans(f, ds, disk.files, a.Data(), bytes);
      ExtendsTrans(base, f, disk.files);
    }
  }

  method DoTakeSpilling(a: ChunkList, b: ChunkList, disk: Disk, count: nat, limit: nat, rounds: seq<Round>, ghost base: Files, ghost x: Bytes, ghost y: Bytes)
    returns (ok: bool, rest: seq<Round>)
    requires Hold(a, b, disk, base, x, y)
    modifies a, a.mine, a.spare, b, b.mine, disk
    ensures ok ==> Hold(a, b, disk, base, x + y[..Min(count, |y|)], y[Min(count, |y|)..])
    ensures ok ==> b.mine <= old(b.mine) && b.spare <= old(b.spare) + old(b.mine) && a.GrowsFrom(b)
    ensures ok ==> b.Data() == Kept(old(b.Data()), count) && a.bytesOut == old(a.bytesOut)
  {
    hide ChunkList.Data, Queued, Pooled, Total, Stream, Growing, Settled, Kept, Extends, FirstBytes;
    ghost var f, es := disk.files, b.Data();
    KeptRest(f, es, count);
    ok, rest := StealWithTempfiles(a, b, disk, count, limit, rounds);
    if ok {
      SameStreams(f, disk.files, Kept(es, count));
      ExtendsTrans(base, f, disk.files);
    }
  }

  /** One operation on the first queue. Only those that write to temporary files can fail. */
  method Perform(a: ChunkList, b: ChunkList, disk: Disk, op: Op, limit: nat, rounds: seq<Round>, ghost base: Files, ghost x: Bytes, ghost y: Bytes)
    returns (ok: bool, rest: seq<Round>)
    requires Hold(a, b, disk, base, x, y) && Allowed(base, op)
    modifies a, a.mine, a.spare, b, b.mine, disk
    ensures !MayFail(op) ==> ok
    ensures ok ==> fresh(Nodes(a, b) - old(Nodes(a, b)))
    ensures ok ==> var r := Effect(base, x, y, op); Hold(a, b, disk, base, r.0, r.1)
  {
    hide Hold;
    ok, rest := true, rounds;
    match op
    case Add(bytes) => DoAdd(a, b, disk, bytes, base, x, y);
    case AddFile(name, start, length) => DoAddFile(a, b, disk, name, start, length, base, x, y);
    case Put(bytes) => DoPut(a, b, disk, bytes, base, x, y);
    case Receive(room, bytes) => DoReceive(a, b, disk, room, bytes, base, x, y);
    case Sent(count) => DoSent(a, b, disk, count, base, x, y);
    case Take(count) => DoTake(a, b, disk, count, base, x, y);
    case TakeAll => DoTakeAll(a, b, disk, base, x, y);
    case Compact => DoCompact(a, b, disk, base, x, y);
    case Tidy => DoTidy(a, b, disk, base, x, y);
    case Clear => DoClear(a, b, disk, base, x, y);
    case Spill(bytes) => ok, rest := DoSpill(a, b, disk, bytes, limit, rounds, base, x, y);
    case TakeSpilling(count) => ok, rest := DoTakeSpilling(a, b, disk, count, limit, rounds, base, x, y);
  }

  lemma Symmetric(a: ChunkList, b: ChunkList, disk: Disk, base: Files, x: Bytes, y: Bytes)
    requires Hold(a, b, disk, base, x, y)
    ensures Hold(b, a, disk, base, y, x) && Nodes(a, b) == Nodes(b, a)
  {
    hide Stream, Growing, Sound, ChunkList.Data, Total;
  }

  /** One operation on either queue. */
  method PerformStep(a: ChunkList, b: ChunkList, disk: Disk, step: (bool, Op), limit: nat, rounds: seq<Round>, ghost base: Files, ghost r: (Bytes, Bytes))
    returns (ok: bool, rest: seq<Round>)
    requires Hold(a, b, disk, base, r.0, r.1) && Allowed(base, step.1)
    modifies a, a.mine, a.spare, b, b.mine, b.spare, disk
    ensures !MayFail(step.1) ==> ok
    ensures ok ==> fresh(Nodes(a, b) - old(Nodes(a, b)))
    ensures ok ==> var t := StepEffect(base, r, step); Hold(a, b, disk, base, t.0, t.1)
  {
    hide Hold, Effect;
    if step.0 {
      ok, rest := Perform(a, b, disk, step.1, limit, rounds, base, r.0, r.1);
    } else {
      Symmetric(a, b, disk, base, r.0, r.1);
      ok, rest := Perform(b, a, disk, step.1, limit, rounds, base, r.1, r.0);
      if ok {
        ghost var t := Effect(base, r.1, r.0, step.1);
        Symmetric(b, a, disk, base, t.0, t.1);
      }
    }
  }

  /**
    In every state two queues can reach from being empty, as long as no write to a
    temporary file has failed, their streams are what the operations make of two
    byte sequences; each counter difference is the length of its stream, each list
    ends at its tail, each pool is counted and has at most five chunks, and no chunk
    is in two places.
   */
  method Work(steps: seq<(bool, Op)>, disk: Disk, limit: nat, rounds: seq<Round>)
    returns (ok: bool, a: ChunkList, b: ChunkList)
    requires disk.Valid() && forall i :: 0 <= i < |steps| ==> Allowed(disk.files, steps[i].1)
    modifies disk
    ensures (forall i :: 0 <= i < |steps| ==> !MayFail(steps[i].1)) ==> ok
    ensures ok ==> Paired(a, b, disk) && Extends(old(disk.files), disk.files)
    ensures ok ==> Stream(disk.files, a.Data()) == Effects(old(disk.files), steps).0
    ensures ok ==> Stream(disk.files, b.Data()) == Effects(old(disk.files), steps).1
    ensures ok ==> a.bytesIn - a.bytesOut == |Effects(old(disk.files), steps).0| && b.bytesIn - b.bytesOut == |Effects(old(disk.files), steps).1|
    ensures ok ==> Tailed(a) && Tailed(b)
  {
    hide Hold, StepEffect, Tailed, Paired, Stream, ChunkList.Data, ChunkList.Valid, Extends;
    ghost var base := disk.files;
    a := new ChunkList();
    b := new ChunkList();
    StartHolds(a, b, disk);
    var i, rest := 0, rounds;
    ok := true;
    assert steps[..0] == [];
    while i < |steps|
      invariant i <= |steps| && ok && fresh(a) && fresh(b) && fresh(Nodes(a, b))
      invariant var r := Effects(base, steps[..i]); Hold(a, b, disk, base, r.0, r.1)
    {
      ghost var r := Effects(base, steps[..i]);
      assert steps[..i + 1][..i] == steps[..i];
      ok, rest := PerformStep(a, b, disk, steps[i], limit, rest, base, r);
      if !ok { return; }
      i := i + 1;
    }
    assert steps[..i] == steps;
    Means(a, b, disk, base, Effects(base, steps).0, Effects(base, steps).1);
  }

  /** The list is well linked and ends at `last`, and the pool holds exactly unusedChunks chunks, at most five. */
  ghost predicate Tailed(a: ChunkList)
    reads a, a.mine, a.spare
  {
    Queued(a.nodes, a.first, a.last, a.mine) && Pooled(a.pool, a.unused, a.spare, a.unusedChunks) && a.mine !! a.spare
  }

  lemma StartHolds(a: ChunkList, b: ChunkList, disk: Disk)
    requires a != b && a.Valid() && b.Valid() && disk.Valid() && a.Data() == [] && b.Data() == []
    requires a.mine == a.spare == b.mine == b.spare == {}
    ensures Hold(a, b, disk, disk.files, [], [])
  {
    NoStream(disk.files);
  }

  lemma Means(a: ChunkList, b: ChunkList, disk: Disk, base: Files, x: Bytes, y: Bytes)
    requires Hold(a, b, disk, base, x, y)
    ensures Paired(a, b, disk) && Extends(base, disk.files)
    ensures Stream(disk.files, a.Data()) == x && Stream(disk.files, b.Data()) == y
    ensures a.bytesIn - a.bytesOut == |x| && b.bytesIn - b.bytesOut == |y|
    ensures Tailed(a) && Tailed(b)
  {
    hide Stream, Growing, ChunkList.Data, Total, Settled;
    StreamLength(disk.files, a.Data());
    StreamLength(disk.files, b.Data());
  }
}
