/**
  Queues that spill to temporary files. A temporary file is written only through
  the last chunk of a queue, which grows with it. The outcome of every system call
  is given from outside; what is claimed is claimed for calls that succeed.
 */
module Tempfiles {
  import opened Basics
  import opened Pieces
  import opened ChunkQueue

  /** What the system answers in one round of the write loop. */
  datatype Round = Round(canClose: bool, canOpen: bool, outcome: WriteResult)
  datatype WriteResult = Wrote(count: nat) | Interrupted | Broken

  /** Files by name; new temporary files get a name that was never used. */
  class Disk {
    var files: Files
    var unused: nat

    ghost predicate Valid()
      reads this
    {
      forall n :: n in files ==> n < unused
    }
  }

  // ------------------------------------------------------- contents and files

  ghost predicate Growable(d: Data) { d.File? && d.temp && d.open }

  /** A chunk that can grow ends where its file ends, and no two chunks grow the same file. */
  ghost predicate Settled(files: Files, ds: seq<Data>) {
    && (forall i :: 0 <= i < |ds| && Growable(ds[i]) ==> ds[i].name in files && ds[i].start + ds[i].length == |files[ds[i].name]|)
    && (forall i, j :: 0 <= i < j < |ds| && Growable(ds[i]) && Growable(ds[j]) ==> ds[i].name != ds[j].name)
  }

  ghost predicate Sound(files: Files, ds: seq<Data>) {
    AllOk(ds) && Stored(files, ds) && Settled(files, ds)
  }

  /** The bytes a queue stands for. */
  ghost function Stream(files: Files, ds: seq<Data>): seq<byte>
    requires AllOk(ds) && Stored(files, ds)
  {
    Flat(PiecesOf(files, ds))
  }

  /** Files are only ever appended to. */
  ghost predicate Extends(files: Files, files': Files) {
    forall n :: n in files ==> n in files' && files[n] <= files'[n]
  }

  lemma ExtendsTrans(f: Files, g: Files, h: Files)
    requires Extends(f, g) && Extends(g, h)
    ensures Extends(f, h)
  {
  }

  lemma {:induction false} ExtendedPieces(files: Files, files': Files, ds: seq<Data>)
    requires AllOk(ds) && Stored(files, ds) && Extends(files, files')
    ensures Stored(files', ds) && PiecesOf(files', ds) == PiecesOf(files, ds)
  {
    if ds != [] {
      var d := ds[0];
      assert Held(files, d);
      ExtendedPieces(files, files', ds[1..]);
      if d.File? {
        assert files'[d.name][..|files[d.name]|] == files[d.name];
      }
      assert Piece(files', d) == Piece(files, d);
      assert forall i :: 0 < i < |ds| ==> ds[i] == ds[1..][i - 1];
    }
  }

  lemma StreamConcat(files: Files, a: seq<Data>, b: seq<Data>)
    requires AllOk(a) && AllOk(b) && Stored(files, a) && Stored(files, b)
    ensures AllOk(a + b) && Stored(files, a + b) && Stream(files, a + b) == Stream(files, a) + Stream(files, b)
  {
    PiecesConcat(files, a, b);
    FlatConcat(PiecesOf(files, a), PiecesOf(files, b));
  }

  lemma StreamOne(files: Files, d: Data)
    requires d.Ok() && Held(files, d)
    ensures AllOk([d]) && Stored(files, [d]) && Stream(files, [d]) == Piece(files, d)
  {
    PiecesCons(files, d, []);
    FlatOne(Piece(files, d), []);
  }

  ghost function Growing(ds: seq<Data>): set<nat> {
    set i | 0 <= i < |ds| && Growable(ds[i]) :: ds[i].name
  }

  /**
    `bytes` were added at the end of the stream; of the files that existed, only
    those that chunks of this queue grow have changed.
   */
  ghost predicate Added(files: Files, ds: seq<Data>, files': Files, ds': seq<Data>, bytes: seq<byte>)
    requires Sound(files, ds)
  {
    && Sound(files', ds') && Extends(files, files')
    && Stream(files', ds') == Stream(files, ds) + bytes
    && (forall n :: n in files && n !in Growing(ds) ==> files'[n] == files[n])
    && (forall n :: n in Growing(ds') ==> n in Growing(ds) || n !in files)
  }

  lemma AddedTrans(f: Files, a: seq<Data>, g: Files, b: seq<Data>, h: Files, c: seq<Data>, x: seq<byte>, y: seq<byte>)
    requires Sound(f, a) && Added(f, a, g, b, x) && Added(g, b, h, c, y)
    ensures Added(f, a, h, c, x + y)
  {
    hide Stream, Settled, Stored, AllOk;
    hide Growing;
    assert Stream(f, a) + x + y == Stream(f, a) + (x + y);
  }

  lemma AddedNone(f: Files, a: seq<Data>)
    requires Sound(f, a)
    ensures Added(f, a, f, a, [])
  {
    assert Stream(f, a) + [] == Stream(f, a);
  }

  /** Another queue that grows other files keeps its bytes, and the two still grow different files. */
  lemma AddedBeside(f: Files, a: seq<Data>, g: Files, a': seq<Data>, x: seq<byte>, b: seq<Data>)
    requires Sound(f, a) && Sound(f, b) && Growing(a) !! Growing(b) && Added(f, a, g, a', x)
    ensures Sound(g, b) && Stream(g, b) == Stream(f, b) && Growing(a') !! Growing(b)
  {
    ExtendedPieces(f, g, b);
    forall i | 0 <= i < |b| && Growable(b[i]) ensures b[i].name in f && g[b[i].name] == f[b[i].name] {
      assert b[i].name in Growing(b);
    }
  }

  /** mkstemp */
  lemma NewTemp(files: Files, ds: seq<Data>, name: nat)
    requires Sound(files, ds) && name !in files
    ensures Added(files, ds, files[name := []], ds + [File(name, 0, 0, 0, true, true)], [])
  {
    hide Stream, Growing, Sound;
    var files', d := files[name := []], File(name, 0, 0, 0, true, true);
    NewFile(files, ds, name);
    SoundNext(files', ds, d);
  }

  lemma NewFile(files: Files, ds: seq<Data>, name: nat)
    requires Sound(files, ds) && name !in files
    ensures var files' := files[name := []];
            Sound(files', ds) && Extends(files, files') && Stream(files', ds) == Stream(files, ds) && name !in Growing(ds)
  {
    var files' := files[name := []];
    assert Extends(files, files');
    ExtendedPieces(files, files', ds);
  }

  lemma GrowingNext(ds: seq<Data>, d: Data)
    ensures Growing(ds + [d]) == Growing(ds) + if Growable(d) then {d.name} else {}
  {
    var e := ds + [d];
    assert forall i :: 0 <= i < |ds| ==> e[i] == ds[i];
    assert e[|ds|] == d;
  }

  /** write: the last chunk grows with its file. */
  lemma GrowTemp(files: Files, init: seq<Data>, d: Data, bytes: seq<byte>)
    requires Sound(files, init + [d]) && Growable(d)
    ensures d.name in files
    ensures Added(files, init + [d], files[d.name := files[d.name] + bytes], init + [d.(length := d.length + |bytes|)], bytes)
  {
    hide Stream, Growing, Settled, PiecesOf, Flat;
    var ds := init + [d];
    assert ds[|init|] == d;
    var files', d' := files[d.name := files[d.name] + bytes], d.(length := d.length + |bytes|);
    GrowStored(files, init, d, bytes);
    ExtendedPieces(files, files', init);
    assert Stream(files', init) == Stream(files, init) by { SameStreams(files, files', init); }
    StreamOne(files, d);
    StreamOne(files', d');
    StreamConcat(files, init, [d]);
    StreamConcat(files', init, [d']);
    assert Stream(files, init) + (Piece(files, d) + bytes) == Stream(files, init) + Piece(files, d) + bytes;
    SettledGrown(files, init, d, bytes);
    GrowingNext(init, d);
    GrowingNext(init, d');
  }

  lemma SameStreams(files: Files, files': Files, ds: seq<Data>)
    requires AllOk(ds) && Stored(files, ds) && Extends(files, files')
    ensures Stored(files', ds) && Stream(files', ds) == Stream(files, ds)
  {
    ExtendedPieces(files, files', ds);
  }

  lemma GrowStored(files: Files, init: seq<Data>, d: Data, bytes: seq<byte>)
    requires Sound(files, init + [d]) && Growable(d)
    ensures d.name in files && AllOk(init) && Stored(files, init) && d.Ok() && Held(files, d)
    ensures var files', d' := files[d.name := files[d.name] + bytes], d.(length := d.length + |bytes|);
            Extends(files, files') && Held(files', d') && d'.Ok() && Piece(files', d') == Piece(files, d) + bytes
  {
    var ds := init + [d];
    assert ds[|init|] == d && forall i :: 0 <= i < |init| ==> ds[i] == init[i];
    assert Held(files, d) && d.name in files && d.start + d.length == |files[d.name]|;
    var old_ := files[d.name];
    assert (old_ + bytes)[d.start + d.offset..d.start + (d.length + |bytes|)] == old_[d.start + d.offset..d.start + d.length] + bytes;
  }

  lemma SettledGrown(files: Files, init: seq<Data>, d: Data, bytes: seq<byte>)
    requires Settled(files, init + [d]) && Growable(d) && d.name in files
    ensures Settled(files[d.name := files[d.name] + bytes], init + [d.(length := d.length + |bytes|)])
  {
    var e, e' := init + [d], init + [d.(length := d.length + |bytes|)];
    assert e[|init|] == d;
    assert forall i :: 0 <= i < |init| ==> e[i] == init[i] == e'[i];
  }

  /** close: the last chunk no longer grows. */
  lemma CloseTemp(files: Files, init: seq<Data>, d: Data)
    requires Sound(files, init + [d]) && Growable(d)
    ensures Added(files, init + [d], files, init + [d.(open := false)], [])
  {
    var ds, d' := init + [d], d.(open := false);
    var ds' := init + [d'];
    assert ds[|init|] == d && ds'[|init|] == d' && Held(files, d);
    assert forall i :: 0 <= i < |init| ==> ds[i] == init[i] == ds'[i];
    StreamOne(files, d);
    StreamOne(files, d');
    StreamConcat(files, init, [d]);
    StreamConcat(files, init, [d']);
    assert Stream(files, ds') == Stream(files, ds) + [];
    GrowingNext(init, d);
    GrowingNext(init, d');
  }

  // --------------------------------------------------------------- operations

  /** Both the list and the files behind it are consistent. */
  ghost predicate Ready(dest: ChunkList, disk: Disk)
    reads dest, dest.mine, dest.spare, disk
  {
    dest.Valid() && disk.Valid() && Sound(disk.files, dest.Data())
  }

  /** get_append_tempfile: an empty chunk on a new file, open for appending. */
  method OpenTemp(dest: ChunkList, disk: Disk)
    requires Ready(dest, disk)
    modifies dest, dest.mine, dest.spare, disk
    ensures Ready(dest, disk) && dest.Grows() && dest.last != null && Growable(dest.last.d)
    ensures Added(old(disk.files), old(dest.Data()), disk.files, dest.Data(), [])
    ensures dest.bytesIn == old(dest.bytesIn) && dest.bytesOut == old(dest.bytesOut)
  {
    hide ChunkList.Data, Queued, Pooled, Total, Sound, Added;
    var name := disk.unused;
    NewTemp(disk.files, dest.Data(), name);
    AddedSound(disk.files, dest.Data(), disk.files[name := []], dest.Data() + [File(name, 0, 0, 0, true, true)], []);
    disk.unused := disk.unused + 1;
    disk.files := disk.files[name := []];
    dest.AppendData(File(name, 0, 0, 0, true, true));
    dest.Ends();
  }

  lemma AddedSound(f: Files, a: seq<Data>, g: Files, b: seq<Data>, x: seq<byte>)
    requires Sound(f, a) && Added(f, a, g, b, x)
    ensures Sound(g, b)
  {
  }

  /** The last chunk if it can take more data; a file that has reached the limit is closed. */
  method CloseFull(dest: ChunkList, disk: Disk, limit: nat, round: Round) returns (ok: bool, usable: bool)
    requires Ready(dest, disk)
    modifies dest.mine`d
    ensures ok ==> Ready(dest, disk) && (usable ==> dest.last != null && Growable(dest.last.d))
    ensures ok ==> Added(disk.files, old(dest.Data()), disk.files, dest.Data(), [])
    ensures var grows := old(dest.last != null && Growable(dest.last.d) && dest.last.d.offset == 0);
            && (ok <==> !grows || old(dest.last.d.length) < limit || round.canClose)
            && (ok ==> (usable <==> grows && old(dest.last.d.length) < limit))
            && (ok && grows && !usable ==> dest.last == old(dest.last) && dest.last.d == old(dest.last.d).(open := false))
            && (ok && (!grows || usable) ==> dest.Data() == old(dest.Data()))
  {
    hide ChunkList.Data, Queued, Pooled, Total, Sound, Added;
    AddedNone(disk.files, dest.Data());
    dest.Ends();
    if dest.last == null || !dest.last.d.File? || !dest.last.d.temp || !dest.last.d.open || dest.last.d.offset != 0 {
      return true, false;
    }
    if dest.last.d.length < limit {
      return true, true;
    }
    if !round.canClose {
      return false, false;
    }
    ghost var ds := dest.Data();
    ghost var init, d := ds[..|ds| - 1], dest.last.d;
    assert ds == init + [d];
    CloseTemp(disk.files, init, d);
    AddedSound(disk.files, ds, disk.files, init + [d.(open := false)], []);
    ClosedTotal(init, d);
    dest.ChangeLast(dest.last.d.(open := false));
    dest.Ends();
    return true, false;
  }

  lemma ClosedTotal(init: seq<Data>, d: Data)
    requires AllOk(init + [d]) && d.File?
    ensures AllOk(init + [d.(open := false)]) && Total(init + [d.(open := false)]) == Total(init + [d])
  {
    var ds := init + [d];
    assert ds[|init|] == d && forall i :: 0 <= i < |init| ==> ds[i] == init[i];
    TotalConcat(init, [d]);
    TotalConcat(init, [d.(open := false)]);
  }

  /** The last chunk and its file take `bytes`. */
  method WriteTemp(dest: ChunkList, disk: Disk, bytes: seq<byte>)
    requires Ready(dest, disk) && dest.last != null && Growable(dest.last.d)
    modifies dest`bytesIn, dest.mine`d, disk
    ensures Ready(dest, disk)
    ensures Added(old(disk.files), old(dest.Data()), disk.files, dest.Data(), bytes)
    ensures dest.bytesIn == old(dest.bytesIn) + |bytes|
  {
    hide ChunkList.Data, Queued, Pooled, Total, Sound, Added;
    dest.Ends();
    ghost var ds := dest.Data();
    ghost var init, d := ds[..|ds| - 1], dest.last.d;
    assert ds == init + [d];
    GrowTemp(disk.files, init, d, bytes);
    AddedSound(disk.files, ds, disk.files[d.name := disk.files[d.name] + bytes], init + [d.(length := d.length + |bytes|)], bytes);
    GrownFileTotal(init, d, |bytes|);
    var last := dest.last.d;
    disk.files := disk.files[last.name := disk.files[last.name] + bytes];
    dest.ChangeLast(last.(length := last.length + |bytes|));
    dest.bytesIn := dest.bytesIn + |bytes|;
  }

  lemma GrownFileTotal(init: seq<Data>, d: Data, n: nat)
    requires AllOk(init + [d]) && d.File?
    ensures AllOk(init + [d.(length := d.length + n)])
    ensures Total(init + [d.(length := d.length + n)]) == Total(init + [d]) + n
  {
    var ds := init + [d];
    assert ds[|init|] == d && forall i :: 0 <= i < |init| ==> ds[i] == init[i];
    TotalConcat(init, [d]);
    TotalConcat(init, [d.(length := d.length + n)]);
  }

  /** One round of append_mem_to_tempfile: how many of the bytes were written, or failure. */
  method AppendRound(dest: ChunkList, disk: Disk, mem: seq<byte>, limit: nat, round: Round) returns (ok: bool, written: nat)
    requires Ready(dest, disk)
    modifies dest, dest.mine, dest.spare, disk
    ensures ok ==> Ready(dest, disk) && dest.Grows() && written <= |mem|
    ensures ok ==> Added(old(disk.files), old(dest.Data()), disk.files, dest.Data(), mem[..written])
    ensures ok ==> dest.bytesIn == old(dest.bytesIn) + written && dest.bytesOut == old(dest.bytesOut)
  {
    hide ChunkList.Data, Queued, Pooled, Total, Sound, Added;
    ghost var f, a := disk.files, dest.Data();
    var usable;
    ok, usable := CloseFull(dest, disk, limit, round);
    if !ok {
      return false, 0;
    }
    ghost var g, b := disk.files, dest.Data();
    if !usable {
      if !round.canOpen {
        return false, 0;
      }
      OpenTemp(dest, disk);
      AddedTrans(f, a, g, b, disk.files, dest.Data(), [], []);
    }
    g, b := disk.files, dest.Data();
    match round.outcome
    case Broken => return false, 0;
    case Interrupted =>
      assert mem[..0] == [] + [];
      return true, 0;
    case Wrote(count) =>
      written := Min(count, |mem|);
      WriteTemp(dest, disk, mem[..written]);
      AddedTrans(f, a, g, b, disk.files, dest.Data(), [], mem[..written]);
      assert [] + mem[..written] == mem[..written];
      return true, written;
  }

  /** append_mem_to_tempfile: on success exactly `mem` was added to the stream. */
  method AppendMemToTempfile(dest: ChunkList, disk: Disk, mem: seq<byte>, limit: nat, rounds: seq<Round>)
    returns (ok: bool, rest: seq<Round>)
    requires Ready(dest, disk)
    modifies dest, dest.mine, dest.spare, disk
    ensures ok ==> Ready(dest, disk) && dest.Grows()
    ensures ok ==> Added(old(disk.files), old(dest.Data()), disk.files, dest.Data(), mem)
    ensures ok ==> dest.bytesIn == old(dest.bytesIn) + |mem| && dest.bytesOut == old(dest.bytesOut)
  {
    hide ChunkList.Data, Queued, Pooled, Total, Sound, Added;
    rest := rounds;
    var done := 0;
    ghost var f, a := disk.files, dest.Data();
    AddedNone(f, a);
    while rest != []
      invariant Ready(dest, disk) && dest.Grows() && done <= |mem|
      invariant Added(f, a, disk.files, dest.Data(), mem[..done])
      invariant dest.bytesIn == old(dest.bytesIn) + done && dest.bytesOut == old(dest.bytesOut)
      decreases |rest|
    {
      ghost var g, b := disk.files, dest.Data();
      var written;
      var round := rest[0];
      ok, written := AppendRound(dest, disk, mem[done..], limit, round);
      rest := rest[1..];
      if !ok {
        return;
      }
      AddedTrans(f, a, g, b, disk.files, dest.Data(), mem[..done], mem[done..][..written]);
      assert mem[..done] + mem[done..][..written] == mem[..done + written];
      done := done + written;
      if round.outcome.Wrote? && done == |mem| {
        assert mem[..done] == mem;
        return;
      }
    }
    return false, rest;
  }

  // ------------------------------------------------------ steal_with_tempfiles

  /** The first n bytes of a queue, or all of them. */
  ghost function FirstBytes(files: Files, ds: seq<Data>, n: nat): seq<byte>
    requires AllOk(ds) && Stored(files, ds)
  {
    Stream(files, ds)[..Min(n, |Stream(files, ds)|)]
  }

  /** The first bytes of a queue are those of its first chunk and then those of the others. */
  lemma FirstBytesStep(files: Files, ds: seq<Data>, n: nat)
    requires AllOk(ds) && Stored(files, ds) && ds != []
    ensures |Piece(files, ds[0])| == ds[0].Remaining()
    ensures n >= ds[0].Remaining() ==> FirstBytes(files, ds, n) == Piece(files, ds[0]) + FirstBytes(files, ds[1..], n - ds[0].Remaining())
    ensures n <= ds[0].Remaining() ==> FirstBytes(files, ds, n) == Piece(files, ds[0])[..n]
  {
    PiecesHead(files, ds);
    FlatOne(Piece(files, ds[0]), PiecesOf(files, ds[1..]));
    assert PiecesOf(files, ds) == [Piece(files, ds[0])] + PiecesOf(files, ds[1..]);
    if n >= ds[0].Remaining() {
      SplitPast(Piece(files, ds[0]), Stream(files, ds[1..]), Min(n - ds[0].Remaining(), |Stream(files, ds[1..])|));
    }
  }

  lemma NoFirstBytes(files: Files, ds: seq<Data>, n: nat)
    requires AllOk(ds) && Stored(files, ds) && (n == 0 || ds == [])
    ensures FirstBytes(files, ds, n) == []
  {
  }

  /** Without its first chunk, or with more of it consumed, a queue is still sound. */
  lemma SoundRest(files: Files, ds: seq<Data>, n: nat)
    requires Sound(files, ds) && ds != [] && n <= ds[0].Remaining()
    ensures Sound(files, ds[1..]) && Growing(ds[1..]) <= Growing(ds)
    ensures Sound(files, [ds[0].Skip(n)] + ds[1..]) && Growing([ds[0].Skip(n)] + ds[1..]) == Growing(ds)
    ensures Growable(ds[0]) ==> ds[0].name !in Growing(ds[1..]) && ds[0].name in Growing(ds)
  {
    var rest, e := ds[1..], [ds[0].Skip(n)] + ds[1..];
    assert forall i :: 0 <= i < |rest| ==> rest[i] == ds[i + 1];
    assert forall i :: 0 < i < |ds| ==> ds[i] == rest[i - 1];
    assert e[0] == ds[0].Skip(n) && forall i :: 0 < i < |e| ==> e[i] == ds[i];
    assert Held(files, ds[0]) && Held(files, e[0]);
    assert Growable(e[0]) == Growable(ds[0]) && |e| == |ds|;
    GrowingHead(ds);
    GrowingHead(e);
    assert e[1..] == rest;
  }

  lemma GrowingHead(ds: seq<Data>)
    requires ds != []
    ensures Growing(ds) == (if Growable(ds[0]) then {ds[0].name} else {}) + Growing(ds[1..])
  {
    var rest := ds[1..];
    assert forall i :: 0 <= i < |rest| ==> rest[i] == ds[i + 1];
    assert forall i :: 0 < i < |ds| ==> ds[i] == rest[i - 1];
  }

  /** A chunk that no other chunk grows along with joins the queue. */
  lemma SoundNext(files: Files, a: seq<Data>, d: Data)
    requires Sound(files, a) && d.Ok() && Held(files, d)
    requires Growable(d) ==> d.name in files && d.start + d.length == |files[d.name]| && d.name !in Growing(a)
    ensures Sound(files, a + [d]) && Stream(files, a + [d]) == Stream(files, a) + Piece(files, d)
    ensures Growing(a + [d]) == Growing(a) + if Growable(d) then {d.name} else {}
  {
    StreamOne(files, d);
    StreamConcat(files, a, [d]);
    GrowingNext(a, d);
    var e := a + [d];
    assert e[|a|] == d && forall i :: 0 <= i < |a| ==> e[i] == a[i];
    forall i | 0 <= i < |a| && Growable(a[i]) ensures Growable(d) ==> a[i].name != d.name {
      assert a[i].name in Growing(a);
    }
  }

  /** Two queues over the same files that share no chunk and grow no file together. */
  ghost predicate Paired(dest: ChunkList, src: ChunkList, disk: Disk)
    reads dest, dest.mine, dest.spare, src, src.mine, src.spare, disk
  {
    Ready(dest, disk) && Ready(src, disk) && dest != src && dest.Separate(src) && Growing(dest.Data()) !! Growing(src.Data())
  }

  /** A memory chunk, or its first n bytes, goes to the destination's file. */
  method SpillMem(dest: ChunkList, src: ChunkList, disk: Disk, n: nat, limit: nat, rounds: seq<Round>)
    returns (ok: bool, rest: seq<Round>)
    requires Paired(dest, src, disk) && src.nodes != [] && src.Data()[0].Mem? && 0 < n <= src.Data()[0].Remaining()
    modifies dest, dest.mine, dest.spare, disk
    ensures ok ==> dest.Valid() && disk.Valid() && dest.Grows() && dest.bytesOut == old(dest.bytesOut)
    ensures ok ==> Added(old(disk.files), old(dest.Data()), disk.files, dest.Data(), old(Piece(disk.files, src.Data()[0])[..n]))
  {
    hide ChunkList.Data, Queued, Pooled, Total, Sound, Added, Stream, Growing;
    src.Ends();
    SoundMeans(disk.files, src.Data());
    var d := src.first.d;
    assert d.bytes[d.offset..][..n] == d.bytes[d.offset..d.offset + n];
    ok, rest := AppendMemToTempfile(dest, disk, d.bytes[d.offset..d.offset + n], limit, rounds);
  }

  lemma SoundMeans(f: Files, a: seq<Data>)
    requires Sound(f, a)
    ensures AllOk(a) && Stored(f, a)
    ensures forall i :: 0 <= i < |a| ==> Held(f, a[i])
    ensures forall i :: 0 <= i < |a| && Growable(a[i]) ==> a[i].name in f && a[i].start + a[i].length == |f[a[i].name]| && a[i].name in Growing(a)
  {
  }

  /**
    Stealing `len` bytes from ds to a has come to stealing `left` bytes from es to
    b: what has arrived and what is still to come stay the same, in order.
   */
  ghost predicate Progress(f: Files, a: seq<Data>, ds: seq<Data>, len: nat, g: Files, b: seq<Data>, es: seq<Data>, left: nat)
    requires Sound(f, a) && Sound(f, ds)
  {
    && Sound(g, b) && Sound(g, es) && Growing(b) !! Growing(es) && Extends(f, g) && left <= len
    && Kept(es, left) == Kept(ds, len)
    && Stream(g, b) + FirstBytes(g, es, left) == Stream(f, a) + FirstBytes(f, ds, len)
  }

  lemma ProgressSound(f: Files, a: seq<Data>, ds: seq<Data>, len: nat, g: Files, b: seq<Data>, es: seq<Data>, left: nat)
    requires Sound(f, a) && Sound(f, ds) && Progress(f, a, ds, len, g, b, es, left)
    ensures Sound(g, b) && Sound(g, es) && Growing(b) !! Growing(es) && left <= len
  {
  }

  lemma ProgressTrans(f: Files, a: seq<Data>, ds: seq<Data>, n: nat, f': Files, a': seq<Data>, ds': seq<Data>, n': nat,
                      f'': Files, a'': seq<Data>, ds'': seq<Data>, n'': nat)
    requires Sound(f, a) && Sound(f, ds) && Progress(f, a, ds, n, f', a', ds', n') && Progress(f', a', ds', n', f'', a'', ds'', n'')
    ensures Progress(f, a, ds, n, f'', a'', ds'', n'')
  {
    hide Stream, FirstBytes, Kept, Sound, Growing;
    ExtendsTrans(f, f', f'');
  }

  lemma ProgressDone(f: Files, a: seq<Data>, ds: seq<Data>, n: nat, g: Files, b: seq<Data>, es: seq<Data>, left: nat)
    requires Sound(f, a) && Sound(f, ds) && Progress(f, a, ds, n, g, b, es, left) && (left == 0 || es == [])
    ensures Sound(g, b) && Sound(g, es) && Growing(b) !! Growing(es) && Extends(f, g)
    ensures Stream(g, b) == Stream(f, a) + FirstBytes(f, ds, n) && es == Kept(ds, n)
  {
    hide Stream, FirstBytes, Growing;
    NoFirstBytes(g, es, left);
    assert Stream(g, b) + [] == Stream(g, b);
  }

  lemma NoProgress(f: Files, a: seq<Data>, ds: seq<Data>, n: nat)
    requires Sound(f, a) && Sound(f, ds) && Growing(a) !! Growing(ds)
    ensures Progress(f, a, ds, n, f, a, ds, n)
  {
  }

  /** An empty chunk is dropped. */
  lemma EmptyProgress(f: Files, a: seq<Data>, ds: seq<Data>, n: nat)
    requires Sound(f, a) && Sound(f, ds) && Growing(a) !! Growing(ds)
    requires ds != [] && ds[0].Remaining() == 0 && n > 0
    ensures Progress(f, a, ds, n, f, a, ds[1..], n)
  {
    hide Stream, FirstBytes, Sound, Growing;
    SoundMeans(f, ds);
    SoundRest(f, ds, 0);
    FirstBytesStep(f, ds, n);
  }

  /** A whole chunk changes queues. */
  lemma MoveProgress(f: Files, a: seq<Data>, ds: seq<Data>, n: nat)
    requires Sound(f, a) && Sound(f, ds) && Growing(a) !! Growing(ds)
    requires ds != [] && n >= ds[0].Remaining() > 0
    ensures Progress(f, a, ds, n, f, a + [ds[0]], ds[1..], n - ds[0].Remaining())
  {
    hide Stream, FirstBytes, Sound, Growing, Piece, Kept;
    SoundMeans(f, a);
    SoundMeans(f, ds);
    SoundRest(f, ds, 0);
    StealStep(ds, n);
    FirstBytesStep(f, ds, n);
    SoundNext(f, a, ds[0]);
    var left := n - ds[0].Remaining();
    assert Stream(f, a) + Piece(f, ds[0]) + FirstBytes(f, ds[1..], left) == Stream(f, a) + FirstBytes(f, ds, n);
  }

  /** Part of a chunk is copied, or the destination refers to it. */
  lemma CopyProgress(f: Files, a: seq<Data>, ds: seq<Data>, n: nat)
    requires Sound(f, a) && Sound(f, ds) && Growing(a) !! Growing(ds)
    requires ds != [] && 0 < n < ds[0].Remaining()
    ensures Progress(f, a, ds, n, f, a + [Front(ds[0], n)], [ds[0].Skip(n)] + ds[1..], 0)
  {
    hide Stream, FirstBytes, Sound, Growing, Piece, Kept;
    SoundMeans(f, a);
    SoundMeans(f, ds);
    SoundRest(f, ds, n);
    StealStep(ds, n);
    FirstBytesStep(f, ds, n);
    SplitPiece(f, ds[0], n);
    SoundNext(f, a, Front(ds[0], n));
    LastProgress(f, [ds[0].Skip(n)] + ds[1..], Stream(f, a + [Front(ds[0], n)]));
  }

  lemma LastProgress(f: Files, es: seq<Data>, x: seq<byte>)
    requires Sound(f, es)
    ensures Kept(es, 0) == es && x + FirstBytes(f, es, 0) == x
  {
    NoFirstBytes(f, es, 0);
  }

  /** A whole chunk was written to a file of the destination. */
  lemma WholeProgress(f: Files, a: seq<Data>, ds: seq<Data>, n: nat, g: Files, b: seq<Data>)
    requires Sound(f, a) && Sound(f, ds) && Growing(a) !! Growing(ds) && ds != [] && n >= ds[0].Remaining() > 0
    requires Added(f, a, g, b, Piece(f, ds[0]))
    ensures Progress(f, a, ds, n, g, b, ds[1..], n - ds[0].Remaining())
  {
    hide Stream, FirstBytes, Sound, Growing, Piece, Kept, Added, Extends, Moved;
    SoundMeans(f, a);
    SoundMeans(f, ds);
    var p, left := Piece(f, ds[0]), n - ds[0].Remaining();
    AddedBeside(f, a, g, b, p, ds);
    AddedMeans(f, a, g, b, p);
    SoundMeans(g, ds);
    SoundRest(f, ds, 0);
    SoundRest(g, ds, 0);
    StealStep(ds, n);
    FirstBytesStep(f, ds, n);
    SameFirstBytes(f, g, ds[1..], left);
    assert Stream(f, a) + p + FirstBytes(f, ds[1..], left) == Stream(f, a) + FirstBytes(f, ds, n);
  }

  /** The first n bytes of a chunk were written to a file of the destination. */
  lemma PartProgress(f: Files, a: seq<Data>, ds: seq<Data>, n: nat, g: Files, b: seq<Data>)
    requires Sound(f, a) && Sound(f, ds) && Growing(a) !! Growing(ds) && ds != [] && 0 < n < ds[0].Remaining() == |Piece(f, ds[0])|
    requires Added(f, a, g, b, Piece(f, ds[0])[..n])
    ensures Progress(f, a, ds, n, g, b, [ds[0].Skip(n)] + ds[1..], 0)
  {
    hide Stream, FirstBytes, Sound, Growing, Piece, Kept, Added, Extends, Moved;
    SoundMeans(f, ds);
    AddedBeside(f, a, g, b, Piece(f, ds[0])[..n], ds);
    AddedMeans(f, a, g, b, Piece(f, ds[0])[..n]);
    SoundRest(g, ds, n);
    StealStep(ds, n);
    FirstBytesStep(f, ds, n);
    LastProgress(g, [ds[0].Skip(n)] + ds[1..], Stream(g, b));
  }

  lemma AddedMeans(f: Files, a: seq<Data>, g: Files, b: seq<Data>, x: seq<byte>)
    requires Sound(f, a) && Added(f, a, g, b, x)
    ensures Sound(g, b) && Extends(f, g) && Stream(g, b) == Stream(f, a) + x
  {
  }

  lemma SameFirstBytes(f: Files, g: Files, ds: seq<Data>, n: nat)
    requires AllOk(ds) && Stored(f, ds) && Extends(f, g)
    ensures Stored(g, ds) && FirstBytes(g, ds, n) == FirstBytes(f, ds, n)
  {
    ExtendedPieces(f, g, ds);
  }

  // ------------------------------------------------------------------ the loop

  /** The nodes of the two queues, apart from their contents. */
  twostate predicate Moves(dest: ChunkList, src: ChunkList)
    reads dest, src
  {
    && dest.bytesOut == old(dest.bytesOut) && src.bytesIn == old(src.bytesIn)
    && src.mine <= old(src.mine) && src.spare <= old(src.spare) + old(src.mine) && dest.GrowsFrom(src)
  }

  /** An empty chunk is dropped. */
  method SpillEmpty(dest: ChunkList, src: ChunkList, disk: Disk, len: nat)
    requires Paired(dest, src, disk) && src.nodes != [] && src.Data()[0].Remaining() == 0 && len > 0
    modifies src, src.mine
    ensures Paired(dest, src, disk) && Moves(dest, src) && |src.nodes| < |old(src.nodes)|
    ensures Progress(disk.files, old(dest.Data()), old(src.Data()), len, disk.files, dest.Data(), src.Data(), len)
  {
    hide ChunkList.Data, Queued, Pooled, Total, Sound, Growing, Progress;
    src.Ends();
    ghost var a, ds := dest.Data(), src.Data();
    DroppedTotal(ds);
    EmptyProgress(disk.files, a, ds, len);
    ProgressSound(disk.files, a, ds, len, disk.files, a, ds[1..], len);
    src.DropFirst();
  }

  lemma DroppedTotal(ds: seq<Data>)
    requires AllOk(ds) && ds != []
    ensures Total(ds) == ds[0].Remaining() + Total(ds[1..])
  {
  }

  /** A file chunk changes queues, or the destination refers to part of it. */
  method SpillFile(dest: ChunkList, src: ChunkList, disk: Disk, len: nat) returns (left: nat)
    requires Paired(dest, src, disk) && src.nodes != [] && src.Data()[0].File? && src.Data()[0].Remaining() > 0 && len > 0
    modifies dest, dest.mine, dest.spare, src, src.mine
    ensures Paired(dest, src, disk) && Moves(dest, src) && |src.nodes| <= |old(src.nodes)| && (left == 0 || |src.nodes| < |old(src.nodes)|)
    ensures Progress(disk.files, old(dest.Data()), old(src.Data()), len, disk.files, dest.Data(), src.Data(), left)
  {
    hide ChunkList.Data, Queued, Pooled, Total, Sound, Growing, Progress, Front;
    ghost var f, a, ds := disk.files, dest.Data(), src.Data();
    src.Ends();
    if len >= src.first.d.Remaining() {
      left := len - src.first.d.Remaining();
      MoveProgress(f, a, ds, len);
      ProgressSound(f, a, ds, len, f, a + [ds[0]], ds[1..], left);
      dest.MoveFirst(src);
    } else {
      left := 0;
      CopyProgress(f, a, ds, len);
      ProgressSound(f, a, ds, len, f, a + [Front(ds[0], len)], [ds[0].Skip(len)] + ds[1..], left);
      dest.CopyFirst(src, len);
    }
  }

  /** A memory chunk goes to a temporary file. */
  method SpillBytes(dest: ChunkList, src: ChunkList, disk: Disk, len: nat, limit: nat, rounds: seq<Round>)
    returns (ok: bool, left: nat, rest: seq<Round>)
    requires Paired(dest, src, disk) && src.nodes != [] && src.Data()[0].Mem? && src.Data()[0].Remaining() > 0 && len > 0
    modifies dest, dest.mine, dest.spare, src, src.mine, disk
    ensures ok ==> Paired(dest, src, disk) && Moves(dest, src) && |src.nodes| <= |old(src.nodes)| && (left == 0 || |src.nodes| < |old(src.nodes)|)
    ensures ok ==> Progress(old(disk.files), old(dest.Data()), old(src.Data()), len, disk.files, dest.Data(), src.Data(), left)
  {
    hide ChunkList.Data, Queued, Pooled, Total, Sound, Growing, Progress, Added, Piece;
    ghost var f, a, ds := disk.files, dest.Data(), src.Data();
    src.Ends();
    SoundMeans(f, ds);
    PieceLength(f, ds[0]);
    var clen := src.first.d.Remaining();
    var use := Min(len, clen);
    ok, rest := SpillMem(dest, src, disk, use, limit, rounds);
    if !ok { return false, 0, rest; }
    if use == clen {
      assert Piece(f, ds[0])[..use] == Piece(f, ds[0]);
      WholeProgress(f, a, ds, len, disk.files, dest.Data());
    } else {
      PartProgress(f, a, ds, len, disk.files, dest.Data());
    }
    left := len - use;
    ConsumeFirst(src, use);
    ProgressSound(f, a, ds, len, disk.files, dest.Data(), src.Data(), left);
  }

  lemma PieceLength(f: Files, d: Data)
    requires d.Ok() && Held(f, d)
    ensures |Piece(f, d)| == d.Remaining()
  {
  }

  /** n bytes of the first chunk are gone, and the chunk with them if they were all it had. */
  method ConsumeFirst(src: ChunkList, n: nat)
    requires src.Valid() && src.nodes != [] && 0 < n <= src.Data()[0].Remaining()
    modifies src, src.mine
    ensures src.Valid() && src.mine <= old(src.mine) && src.spare <= old(src.spare) + old(src.mine)
    ensures src.bytesIn == old(src.bytesIn) && src.bytesOut == old(src.bytesOut) + n
    ensures n == old(src.Data()[0].Remaining()) ==> src.Data() == old(src.Data())[1..] && |src.nodes| < |old(src.nodes)|
    ensures n < old(src.Data()[0].Remaining()) ==> src.Data() == [old(src.Data())[0].Skip(n)] + old(src.Data())[1..] && src.nodes == old(src.nodes)
  {
    hide ChunkList.Data, Queued, Pooled, Total;
    src.Ends();
    ghost var ds := src.Data();
    if n == src.first.d.Remaining() {
      DroppedTotal(ds);
      src.DropFirst();
    } else {
      SkipTotal(ds[0], n, ds[1..]);
      assert ds == [ds[0]] + ds[1..];
      src.SkipFirst(n);
    }
    src.bytesOut := src.bytesOut + n;
  }

  /** One round of the loop. */
  method SpillFirst(dest: ChunkList, src: ChunkList, disk: Disk, len: nat, limit: nat, rounds: seq<Round>)
    returns (ok: bool, left: nat, rest: seq<Round>)
    requires Paired(dest, src, disk) && src.first != null && len > 0
    modifies dest, dest.mine, dest.spare, src, src.mine, disk
    ensures ok ==> Paired(dest, src, disk) && Moves(dest, src) && |src.nodes| <= |old(src.nodes)| && (left == 0 || |src.nodes| < |old(src.nodes)|)
    ensures ok ==> Progress(old(disk.files), old(dest.Data()), old(src.Data()), len, disk.files, dest.Data(), src.Data(), left)
  {
    hide ChunkList.Data, Queued, Pooled, Total, Sound, Growing, Progress;
    src.Ends();
    ok, left, rest := true, len, rounds;
    if src.first.d.Remaining() == 0 {
      SpillEmpty(dest, src, disk, len);
    } else if src.first.d.File? {
      left := SpillFile(dest, src, disk, len);
    } else {
      ok, left, rest := SpillBytes(dest, src, disk, len, limit, rounds);
    }
  }

  /**
    steal_with_tempfiles: on success the first min(len, length) bytes have changed
    queues, in order, and the source keeps the rest chunk by chunk.
   */
  method StealWithTempfiles(dest: ChunkList, src: ChunkList, disk: Disk, len: nat, limit: nat, rounds: seq<Round>)
    returns (ok: bool, rest: seq<Round>)
    requires Paired(dest, src, disk)
    modifies dest, dest.mine, dest.spare, src, src.mine, disk
    ensures ok ==> Paired(dest, src, disk) && Moves(dest, src) && Extends(old(disk.files), disk.files)
    ensures ok ==> Stream(disk.files, dest.Data()) == old(Stream(disk.files, dest.Data())) + old(FirstBytes(disk.files, src.Data(), len))
    ensures ok ==> src.Data() == Kept(old(src.Data()), len)
  {
    hide ChunkList.Data, Queued, Pooled, Total, Sound, Stream, Growing, Kept, FirstBytes, Progress, Extends;
    ghost var f, a, ds := disk.files, dest.Data(), src.Data();
    NoProgress(f, a, ds, len);
    var left := len;
    rest := rounds;
    while left > 0 && src.first != null
      invariant Paired(dest, src, disk) && Moves(dest, src)
      invariant Progress(f, a, ds, len, disk.files, dest.Data(), src.Data(), left)
      decreases |src.nodes|, left
    {
      ghost var g, b, es, n := disk.files, dest.Data(), src.Data(), left;
      ok, left, rest := SpillFirst(dest, src, disk, left, limit, rest);
      if !ok { return; }
      ProgressTrans(f, a, ds, len, g, b, es, n, disk.files, dest.Data(), src.Data(), left);
    }
    src.Ends();
    ProgressDone(f, a, ds, len, disk.files, dest.Data(), src.Data(), left);
    return true, rest;
  }

  /** Stealing into memory or by reference takes the same bytes as through temporary files. */
  lemma MovedStream(files: Files, ds: seq<Data>, n: nat)
    requires AllOk(ds) && Stored(files, ds)
    ensures Stored(files, Moved(ds, n)) && Stream(files, Moved(ds, n)) == FirstBytes(files, ds, n)
  {
    hide Moved, Flat, PiecesOf, Left, Taken;
    MovedPieces(files, ds, n);
    StealStream(PiecesOf(files, ds), n);
  }

  /** The source's bytes after stealing. */
  lemma KeptStream(files: Files, ds: seq<Data>, n: nat)
    requires AllOk(ds) && Stored(files, ds)
    ensures Stored(files, Kept(ds, n))
    ensures Stream(files, ds) == FirstBytes(files, ds, n) + Stream(files, Kept(ds, n))
  {
    hide Kept, Flat, PiecesOf, Left, Taken;
    KeptPieces(files, ds, n);
    StealStream(PiecesOf(files, ds), n);
  }

  // -------------------------------------------------- queues and their streams

  lemma MemAdded(files: Files, ds: seq<Data>, bytes: seq<byte>)
    requires Sound(files, ds)
    ensures Added(files, ds, files, ds + (if bytes == [] then [] else [Mem(bytes, 0)]), bytes)
  {
    if bytes == [] {
      assert ds + [] == ds;
      AddedNone(files, ds);
    } else {
      SoundNext(files, ds, Mem(bytes, 0));
    }
  }

  /** Bytes queued in memory. */
  method AddMem(cq: ChunkList, disk: Disk, bytes: seq<byte>)
    requires Ready(cq, disk)
    modifies cq, cq.mine, cq.spare
    ensures Ready(cq, disk) && cq.Grows()
    ensures Added(disk.files, old(cq.Data()), disk.files, cq.Data(), bytes)
  {
    hide ChunkList.Data, Queued, Pooled, Total, Sound, Added;
    ghost var ds := cq.Data();
    MemAdded(disk.files, ds, bytes);
    AddedSound(disk.files, ds, disk.files, ds + (if bytes == [] then [] else [Mem(bytes, 0)]), bytes);
    cq.AppendMem(bytes);
  }

  lemma SoundPrepend(files: Files, ds: seq<Data>, bytes: seq<byte>)
    requires Sound(files, ds)
    ensures Sound(files, [Mem(bytes, 0)] + ds)
    ensures Stream(files, [Mem(bytes, 0)] + ds) == bytes + Stream(files, ds) && Growing([Mem(bytes, 0)] + ds) == Growing(ds)
  {
    var d := Mem(bytes, 0);
    var e := [d] + ds;
    assert e[0] == d && forall i :: 0 < i < |e| ==> e[i] == ds[i - 1];
    StreamOne(files, d);
    StreamConcat(files, [d], ds);
    GrowingHead(e);
    assert e[1..] == ds;
  }

  lemma StreamLength(files: Files, ds: seq<Data>)
    requires Sound(files, ds)
    ensures |Stream(files, ds)| == Total(ds)
  {
    TotalIsLength(files, ds);
  }

  lemma {:induction false} MarkedSound(files: Files, ds: seq<Data>, n: nat)
    requires Sound(files, ds) && n <= Total(ds) == |Stream(files, ds)|
    ensures Sound(files, Marked(ds, n)) && Stream(files, Marked(ds, n)) == Stream(files, ds)[n..] && Growing(Marked(ds, n)) <= Growing(ds)
  {
    MarkedKeepsSound(files, ds, n);
    MarkedPieces(files, ds, n);
    WrittenStream(PiecesOf(files, ds), n);
  }

  lemma {:induction false} MarkedKeepsSound(files: Files, ds: seq<Data>, n: nat)
    requires Sound(files, ds) && n <= Total(ds)
    ensures Sound(files, Marked(ds, n)) && Growing(Marked(ds, n)) <= Growing(ds)
  {
    hide Sound, Total, Marked, Growing;
    SoundMeans(files, ds);
    MarkedStep(ds, n);
    if ds == [] || (n == 0 && ds[0].Remaining() != 0) {
    } else if n >= ds[0].Remaining() {
      SoundRest(files, ds, 0);
      MarkedKeepsSound(files, ds[1..], n - ds[0].Remaining());
    } else {
      SoundRest(files, ds, n);
    }
  }
}
