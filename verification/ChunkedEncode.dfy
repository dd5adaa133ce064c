/**
  Chunked transfer coding of a response body: every append is framed with its
  length in hexadecimal, through memory or temporary files, and a reader that
  follows section 4.1 of RFC 7230 gets back exactly what was appended.
 */
module ChunkedEncode {
  import opened Basics
  import opened Hex
  import opened Pieces
  import opened ChunkQueue
  import opened Tempfiles
  import ChunkedDecode

  const CRLF: seq<byte> := [CR, LF]
  const ZERO: byte := '0' as int
  const SEMICOLON: byte := ';' as int

  // -------------------------------------------------------------- hexadecimal

  /** hex_chars */
  function HexChar(d: nat): (c: byte)
    requires d < 16
    ensures IsHex(c) && HexDigit(c) == d && !(65 <= c <= 70)
  {
    if d < 10 then 48 + d else 87 + d
  }

  /** A number in hexadecimal: two lower-case digits a byte, most significant byte first, no zero byte in front. */
  ghost function HexText(n: nat): (s: seq<byte>)
    ensures |s| >= 2 && AllHex(s)
  {
    (if n < 256 then [] else HexText(n / 256)) + [HexChar(n / 16 % 16), HexChar(n % 16)]
  }

  lemma ValueNext(s: seq<byte>, c: byte)
    requires AllHex(s) && IsHex(c)
    ensures AllHex(s + [c]) && HexValue(s + [c]) == 16 * HexValue(s) + HexDigit(c)
  {
    HexValueNext(s, c);
  }

  lemma {:induction false} HexTextValue(n: nat)
    ensures HexValue(HexText(n)) == n
  {
    hide HexValue, HexDigit, HexChar, IsHex;
    var u, hi, lo := if n < 256 then [] else HexText(n / 256), HexChar(n / 16 % 16), HexChar(n % 16);
    assert HexText(n) == u + [hi] + [lo];
    ValueNext(u, hi);
    ValueNext(u + [hi], lo);
    if n >= 256 {
      HexTextValue(n / 256);
    } else {
      assert HexValue([]) == 0 by { NoHexValue(); }
    }
  }

  ghost predicate AllLower(s: seq<byte>) {
    AllHex(s) && forall i :: 0 <= i < |s| ==> !(65 <= s[i] <= 70)
  }

  lemma LastDigit(v: nat, w: nat, c: byte, d: byte)
    requires IsHex(c) && IsHex(d) && !(65 <= c <= 70) && !(65 <= d <= 70)
    requires 16 * v + HexDigit(c) == 16 * w + HexDigit(d)
    ensures v == w && c == d
  {
  }

  /** Lower-case digit strings of one length are determined by their value. */
  lemma {:induction false} SameValue(s: seq<byte>, t: seq<byte>)
    requires AllLower(s) && AllLower(t) && |s| == |t| && HexValue(s) == HexValue(t)
    ensures s == t
  {
    if s != [] {
      var k := |s| - 1;
      assert s == s[..k] + [s[k]] && t == t[..k] + [t[k]];
      ValueNext(s[..k], s[k]);
      ValueNext(t[..k], t[k]);
      hide HexValue, HexDigit;
      LastDigit(HexValue(s[..k]), HexValue(t[..k]), s[k], t[k]);
      SameValue(s[..k], t[..k]);
    }
  }

  /** Shifting a number right by k nibbles. */
  function Shifted(n: nat, k: nat): nat
    decreases k
  {
    if k == 0 then n else Shifted(n / 16, k - 1)
  }

  lemma {:induction false} ShiftedNext(n: nat, k: nat)
    ensures Shifted(n, k + 1) == Shifted(n, k) / 16
    ensures Shifted(n, k + 2) == Shifted(n, k) / 256 == Shifted(n / 256, k)
    decreases k
  {
    assert Shifted(n, k + 2) == Shifted(n / 16, k + 1) == Shifted(n / 16 / 16, k);
    if k > 0 {
      ShiftedNext(n / 16, k - 1);
    }
  }

  lemma {:induction false} ShiftedZero(k: nat)
    ensures Shifted(0, k) == 0
  {
    if k > 0 {
      ShiftedZero(k - 1);
    }
  }

  lemma {:induction false} HexTextLower(n: nat)
    ensures AllLower(HexText(n))
  {
    if n >= 256 {
      HexTextLower(n / 256);
    }
  }

  /** `bytes` is the number of base-256 digits of n, and 1 for 0. */
  ghost predicate Spans(n: nat, bytes: nat) {
    bytes > 0 && Shifted(n, 2 * bytes) == 0 && (bytes > 1 ==> Shifted(n, 2 * bytes - 2) != 0)
  }

  lemma {:induction false} HexTextLength(n: nat, bytes: nat)
    requires Spans(n, bytes)
    ensures |HexText(n)| == 2 * bytes
  {
    hide HexChar, IsHex;
    ShiftedNext(n, 2 * bytes - 2);
    if n < 256 {
      if bytes > 1 {
        ShiftedNext(n, 2 * bytes - 4);
        ShiftedZero(2 * bytes - 4);
      }
    } else {
      if bytes > 1 {
        ShiftedNext(n, 2 * bytes - 4);
        HexTextLength(n / 256, bytes - 1);
      }
    }
  }

  /** buffer_append_uint_hex */
  method UintHex(value: nat) returns (text: seq<byte>)
    ensures text == HexText(value)
  {
    hide HexValue, HexDigit, IsHex, HexText, Shifted;
    var copy, shift := value / 256, 8;
    ghost var bytes := 1;
    NoShift(value);
    ShiftedNext(value, 0);
    while copy != 0
      invariant shift == 8 * bytes && bytes > 0
      invariant copy == Shifted(value, 2 * bytes)
      invariant bytes > 1 ==> Shifted(value, 2 * bytes - 2) != 0
      decreases copy
    {
      ShiftedNext(value, 2 * bytes);
      copy := copy / 256;
      shift := shift + 8;
      bytes := bytes + 1;
    }
    HexTextLength(value, bytes);
    NoHexValue();
    text := [];
    while shift > 0
      invariant 0 <= shift <= 8 * bytes && shift % 4 == 0 && |text| == 2 * bytes - shift / 4
      invariant AllLower(text) && HexValue(text) == Shifted(value, shift / 4)
      decreases shift
    {
      shift := shift - 4;
      ShiftedNext(value, shift / 4);
      var c := HexChar(Shifted(value, shift / 4) % 16);
      ValueNext(text, c);
      text := text + [c];
    }
    HexTextValue(value);
    HexTextLower(value);
    SameValue(text, HexText(value));
  }

  lemma NoShift(n: nat)
    ensures Shifted(n, 0) == n
  {
  }

  // ------------------------------------------------------------------- reader

  /** The hexadecimal digits a text starts with. */
  ghost function HexRun(s: seq<byte>): (k: nat)
    ensures k <= |s| && AllHex(s[..k])
  {
    if s == [] || !IsHex(s[0]) then 0 else
      var k := 1 + HexRun(s[1..]);
      assert forall i :: 0 < i < k ==> s[i] == s[1..][..k - 1][i - 1];
      k
  }

  ghost predicate StartsCrlf(s: seq<byte>) { |s| >= 2 && s[0] == CR && s[1] == LF }

  /** What follows the next line end. */
  ghost function NextLine(s: seq<byte>): (r: Option<seq<byte>>)
    ensures r.Some? ==> |r.value| < |s|
  {
    if s == [] then None else if StartsCrlf(s) then Some(s[2..]) else NextLine(s[1..])
  }

  /** What follows the trailer section and the empty line that ends it. */
  ghost function AfterTrailers(s: seq<byte>): Option<seq<byte>>
    decreases |s|
  {
    if StartsCrlf(s) then Some(s[2..])
    else match NextLine(s)
      case None => None
      case Some(t) => AfterTrailers(t)
  }

  /** chunked-body of section 4.1 of RFC 7230: the decoded body and what follows it. */
  ghost function Parse(s: seq<byte>): Option<(seq<byte>, seq<byte>)>
    decreases |s|
  {
    var k := HexRun(s);
    if k == 0 || k == |s| || (s[k] != SEMICOLON && !StartsCrlf(s[k..])) then None
    else match NextLine(s[k..])
      case None => None
      case Some(t) =>
        var n := HexValue(s[..k]);
        if n == 0 then
          match AfterTrailers(t)
          case None => None
          case Some(u) => Some(([], u))
        else if n > |t| || !StartsCrlf(t[n..]) then None
        else
          match Parse(t[n + 2..])
          case None => None
          case Some(p) => Some((t[..n] + p.0, p.1))
  }

  // ------------------------------------------------------------------- frames

  /** One appended piece on the wire; empty ones are not sent, since they would end the body. */
  ghost function Framed(m: seq<byte>): seq<byte> {
    if m == [] then [] else HexText(|m|) + CRLF + m + CRLF
  }

  ghost function Frames(ms: Queue): (q: Queue)
    ensures |q| == |ms| && forall i :: 0 <= i < |q| ==> q[i] == Framed(ms[i])
  {
    seq(|ms|, i requires 0 <= i < |ms| => Framed(ms[i]))
  }

  /** http_chunk_close */
  const LAST: seq<byte> := [ZERO, CR, LF, CR, LF]

  lemma {:induction false} HexRunIs(digits: seq<byte>, rest: seq<byte>)
    requires AllHex(digits) && (rest == [] || !IsHex(rest[0]))
    ensures HexRun(digits + rest) == |digits|
  {
    if digits == [] {
      assert digits + rest == rest;
    } else {
      assert (digits + rest)[1..] == digits[1..] + rest;
      HexRunIs(digits[1..], rest);
    }
  }

  /** The reader takes one frame off. */
  lemma FrameParses(m: seq<byte>, rest: seq<byte>)
    requires m != []
    ensures Parse(Framed(m) + rest) == match Parse(rest) case None => None case Some(p) => Some((m + p.0, p.1))
  {
    hide HexValue, HexText, IsHex, Parse;
    var h := HexText(|m|);
    var s, k := Framed(m) + rest, |h|;
    var t := m + CRLF + rest;
    assert s == h + (CRLF + t);
    assert HexRun(s) == k && s[..k] == h && s[k..] == CRLF + t by {
      assert !IsHex(CR) by { CrIsNoHex(); }
      HexRunIs(h, CRLF + t);
    }
    HexTextValue(|m|);
    FrameBody(m, rest);
    ParsesChunk(s, k, t);
  }

  /** One chunk at the front of a text. */
  lemma ParsesChunk(s: seq<byte>, k: nat, t: seq<byte>)
    requires 0 < k <= |s| && HexRun(s) == k && s[k..] == CRLF + t
    requires var n := HexValue(s[..k]); 0 < n <= |t| && StartsCrlf(t[n..])
    ensures var n := HexValue(s[..k]);
            Parse(s) == match Parse(t[n + 2..]) case None => None case Some(p) => Some((t[..n] + p.0, p.1))
  {
    hide HexValue, HexRun, AfterTrailers, NextLine, IsHex;
    assert StartsCrlf(CRLF + t) && (CRLF + t)[2..] == t;
    NextAfterCrlf(t);
  }

  lemma NextAfterCrlf(t: seq<byte>)
    ensures NextLine(CRLF + t) == Some(t)
  {
    assert (CRLF + t)[2..] == t;
  }

  lemma CrIsNoHex()
    ensures !IsHex(CR)
  {
  }

  lemma FrameBody(m: seq<byte>, rest: seq<byte>)
    ensures var t := m + CRLF + rest; |m| <= |t| && StartsCrlf(t[|m|..]) && t[|m| + 2..] == rest && t[..|m|] == m
  {
  }

  lemma LastParses(rest: seq<byte>)
    ensures Parse(LAST + rest) == Some(([], rest))
  {
    var s := LAST + rest;
    var t := [CR, LF] + rest;
    assert s == [ZERO] + (CRLF + t);
    HexRunIs([ZERO], CRLF + t);
    assert s[1..] == CRLF + t && (CRLF + t)[2..] == t && t[2..] == rest;
    assert NextLine(s[1..]) == Some(t);
    assert s[..1] == [ZERO];
    ValueNext([], ZERO);
    assert [] + [ZERO] == [ZERO];
  }

  /** Round trip: the reader gets the concatenation of what was appended, and nothing of what follows. */
  lemma {:induction false} RoundTrip(ms: Queue, rest: seq<byte>)
    ensures Parse(Flat(Frames(ms)) + LAST + rest) == Some((Flat(ms), rest))
  {
    hide Parse, Framed;
    if ms == [] {
      assert Flat(Frames(ms)) + LAST + rest == LAST + rest;
      LastParses(rest);
    } else {
      RoundTrip(ms[1..], rest);
      assert Frames(ms) == [Framed(ms[0])] + Frames(ms[1..]);
      FlatOne(Framed(ms[0]), Frames(ms[1..]));
      var tail := Flat(Frames(ms[1..])) + LAST + rest;
      assert Flat(Frames(ms)) + LAST + rest == Framed(ms[0]) + tail;
      if ms[0] == [] {
        assert Framed(ms[0]) == [] by { NoFrame(); }
        assert Framed(ms[0]) + tail == tail && ms[0] + Flat(ms[1..]) == Flat(ms[1..]);
      } else {
        FrameParses(ms[0], tail);
      }
    }
  }

  lemma NoFrame()
    ensures Framed([]) == []
  {
  }

  // ------------------------------------------------------------------- writer

  /** http_chunk_append_data, framed in memory. */
  method AppendFrame(cq: ChunkList, disk: Disk, mem: seq<byte>)
    requires Ready(cq, disk) && mem != []
    modifies cq, cq.mine, cq.spare
    ensures Ready(cq, disk) && cq.Grows()
    ensures Added(disk.files, old(cq.Data()), disk.files, cq.Data(), Framed(mem))
  {
    hide ChunkList.Data, Queued, Pooled, Total, Sound, Added, HexText;
    ghost var f, a := disk.files, cq.Data();
    var len := UintHex(|mem|);
    AddMem(cq, disk, len + CRLF);
    ghost var b := cq.Data();
    AddMem(cq, disk, mem);
    ghost var c := cq.Data();
    AddedTrans(f, a, f, b, f, c, len + CRLF, mem);
    AddMem(cq, disk, CRLF);
    AddedTrans(f, a, f, c, f, cq.Data(), len + CRLF + mem, CRLF);
  }

  /** http_chunk_append_to_tempfile, framed. */
  method AppendFrameToTempfile(cq: ChunkList, disk: Disk, mem: seq<byte>, limit: nat, rounds: seq<Round>)
    returns (ok: bool, rest: seq<Round>)
    requires Ready(cq, disk) && mem != []
    modifies cq, cq.mine, cq.spare, disk
    ensures ok ==> Ready(cq, disk) && cq.Grows()
    ensures ok ==> Added(old(disk.files), old(cq.Data()), disk.files, cq.Data(), Framed(mem))
  {
    hide ChunkList.Data, Queued, Pooled, Total, Sound, Added, HexText;
    ghost var f, a := disk.files, cq.Data();
    var len := UintHex(|mem|);
    ok, rest := AppendTwo(cq, disk, len + CRLF, mem, limit, rounds);
    if !ok { return; }
    ghost var g, b := disk.files, cq.Data();
    ok, rest := AppendMemToTempfile(cq, disk, CRLF, limit, rest);
    if !ok { return; }
    AddedTrans(f, a, g, b, disk.files, cq.Data(), len + CRLF + mem, CRLF);
  }

  method AppendTwo(cq: ChunkList, disk: Disk, x: seq<byte>, y: seq<byte>, limit: nat, rounds: seq<Round>)
    returns (ok: bool, rest: seq<Round>)
    requires Ready(cq, disk) && x != [] && y != []
    modifies cq, cq.mine, cq.spare, disk
    ensures ok ==> Ready(cq, disk) && cq.Grows()
    ensures ok ==> Added(old(disk.files), old(cq.Data()), disk.files, cq.Data(), x + y)
  {
    hide ChunkList.Data, Queued, Pooled, Total, Sound, Added;
    ghost var f, a := disk.files, cq.Data();
    ok, rest := AppendMemToTempfile(cq, disk, x, limit, rounds);
    if !ok { return; }
    ghost var g, b := disk.files, cq.Data();
    ok, rest := AppendMemToTempfile(cq, disk, y, limit, rest);
    if !ok { return; }
    AddedTrans(f, a, g, b, disk.files, cq.Data(), x, y);
  }

  /** http_chunk_append_data: to a temporary file once the queue has one or holds much data, else in memory. */
  method AppendBody(cq: ChunkList, disk: Disk, mem: seq<byte>, chunked: bool, bufmin: bool, limit: nat, rounds: seq<Round>)
    returns (ok: bool, rest: seq<Round>)
    requires Ready(cq, disk)
    modifies cq, cq.mine, cq.spare, disk
    ensures ok ==> Ready(cq, disk) && cq.Grows()
    ensures ok ==> Added(old(disk.files), old(cq.Data()), disk.files, cq.Data(), if chunked then Framed(mem) else mem)
  {
    hide ChunkList.Data, Queued, Pooled, Total, Sound, Added, Framed;
    NoFrame();
    cq.Ends();
    if |mem| == 0 {
      AddedNone(disk.files, cq.Data());
      return true, rounds;
    }
    if (cq.last != null && cq.last.d.File? && cq.last.d.temp)
       || cq.bytesIn - cq.bytesOut + |mem| > 1024 * (if bufmin then 128 else 64) {
      if chunked {
        ok, rest := AppendFrameToTempfile(cq, disk, mem, limit, rounds);
      } else {
        ok, rest := AppendMemToTempfile(cq, disk, mem, limit, rounds);
      }
      return;
    }
    if chunked {
      AppendFrame(cq, disk, mem);
    } else {
      AddMem(cq, disk, mem);
    }
    return true, rounds;
  }

  /** Chunked coding begins: what is queued already becomes the first frame. */
  method BeginChunked(cq: ChunkList, disk: Disk)
    requires Ready(cq, disk)
    modifies cq, cq.mine, cq.spare
    ensures Ready(cq, disk) && cq.Grows()
    ensures Stream(disk.files, cq.Data()) == Framed(old(Stream(disk.files, cq.Data())))
  {
    hide ChunkList.Data, Queued, Pooled, Total, Sound, Added, Stream, HexText;
    var qlen := cq.Length();
    ghost var f, ds := disk.files, cq.Data();
    StreamLength(f, ds);
    if qlen != 0 {
      var len := UintHex(qlen);
      SoundPrepend(f, ds, len + CRLF);
      cq.PrependMem(len + CRLF);
      AddMem(cq, disk, CRLF);
      AddedMeans(f, [Mem(len + CRLF, 0)] + ds, f, cq.Data(), CRLF);
    }
  }

  /** What happens to the write queue while a response is produced. */
  datatype Step = Body(mem: seq<byte>, bufmin: bool) | Sent(count: nat)

  ghost function Bodies(steps: seq<Step>): Queue {
    if steps == [] then []
    else Bodies(steps[..|steps| - 1]) + (var s := steps[|steps| - 1]; if s.Body? then [s.mem] else [])
  }

  /** Everything sent so far and everything queued is the coding of `parts`. */
  ghost predicate Carries(sent: seq<byte>, queued: seq<byte>, parts: Queue) {
    sent + queued == Flat(Frames(parts))
  }

  lemma CarriesMore(sent: seq<byte>, queued: seq<byte>, parts: Queue, m: seq<byte>)
    requires Carries(sent, queued, parts)
    ensures Carries(sent, queued + Framed(m), parts + [m])
  {
    hide Flat, Frames, Framed;
    assert Frames(parts + [m]) == Frames(parts) + [Framed(m)];
    FlatConcat(Frames(parts), [Framed(m)]);
    FlatOne(Framed(m), []);
    assert sent + queued + Framed(m) == sent + (queued + Framed(m));
  }

  lemma CarriesFirst(m: seq<byte>)
    ensures Carries([], Framed(m), [m])
  {
    assert Frames([m]) == [Framed(m)];
    FlatOne(Framed(m), []);
  }

  lemma CarriesSent(sent: seq<byte>, queued: seq<byte>, n: nat, parts: Queue)
    requires Carries(sent, queued, parts) && n <= |queued|
    ensures Carries(sent + queued[..n], queued[n..], parts)
  {
    assert sent + queued[..n] + queued[n..] == sent + queued;
  }

  /** One step of the response. */
  method RespondStep(cq: ChunkList, disk: Disk, step: Step, limit: nat, rounds: seq<Round>, ghost sent: seq<byte>, ghost parts: Queue)
    returns (ok: bool, rest: seq<Round>, ghost sent': seq<byte>)
    requires Ready(cq, disk) && Carries(sent, Stream(disk.files, cq.Data()), parts)
    modifies cq, cq.mine, cq.spare, disk
    ensures ok ==> Ready(cq, disk) && fresh(cq.mine - old(cq.mine) - old(cq.spare)) && fresh(cq.spare - old(cq.mine) - old(cq.spare))
    ensures ok ==> Carries(sent', Stream(disk.files, cq.Data()), if step.Body? then parts + [step.mem] else parts)
  {
    hide ChunkList.Data, Queued, Pooled, Total, Sound, Added, Stream, Carries, Framed;
    ghost var f, ds := disk.files, cq.Data();
    SoundMeans(f, ds);
    match step
    case Body(mem, bufmin) =>
      ok, rest := AppendBody(cq, disk, mem, true, bufmin, limit, rounds);
      sent' := sent;
      if ok {
        AddedMeans(f, ds, disk.files, cq.Data(), Framed(mem));
        CarriesMore(sent, Stream(f, ds), parts, mem);
      }
    case Sent(count) =>
      var n := cq.Length();
      n := Min(count, n);
      StreamLength(f, ds);
      MarkedSound(f, ds, n);
      CarriesSent(sent, Stream(f, ds), n, parts);
      sent' := sent + Stream(f, ds)[..n];
      cq.MarkWritten(n);
      ok, rest := true, rounds;
  }

  /**
    A chunked response as a whole: the framing of what is queued, any appends and
    sends, and the closing chunk. If every append succeeded, a reader of what was
    sent and what is still queued gets exactly the bytes of the body.
   */
  method Respond(cq: ChunkList, disk: Disk, steps: seq<Step>, limit: nat, rounds: seq<Round>)
    returns (ok: bool, ghost sent: seq<byte>)
    requires Ready(cq, disk)
    modifies cq, cq.mine, cq.spare, disk
    ensures ok ==> Ready(cq, disk)
    ensures ok ==> Parse(sent + Stream(disk.files, cq.Data())) == Some((old(Stream(disk.files, cq.Data())) + Flat(Bodies(steps)), []))
  {
    hide ChunkList.Data, Queued, Pooled, Total, Settled, Added, Stream, Carries, Parse, Bodies, Frames, Flat;
    ghost var f, ds := disk.files, cq.Data();
    SoundMeans(f, ds);
    ghost var body := Stream(f, ds);
    sent := [];
    var i, rest := 0, rounds;
    CarriesFirst(body);
    BeginChunked(cq, disk);
    assert [body] + Bodies(steps[..0]) == [body] by { NoBodies(steps[..0]); }
    while i < |steps|
      invariant i <= |steps| && Ready(cq, disk)
      invariant fresh(cq.mine - old(cq.mine) - old(cq.spare)) && fresh(cq.spare - old(cq.mine) - old(cq.spare))
      invariant Carries(sent, Stream(disk.files, cq.Data()), [body] + Bodies(steps[..i]))
    {
      NextBodies(body, steps, i);
      ok, rest, sent := RespondStep(cq, disk, steps[i], limit, rest, sent, [body] + Bodies(steps[..i]));
      if !ok { return; }
      i := i + 1;
    }
    assert steps[..i] == steps;
    f, ds := disk.files, cq.Data();
    SoundMeans(f, ds);
    AddMem(cq, disk, LAST);
    AddedMeans(f, ds, f, cq.Data(), LAST);
    ClosedParses(sent, Stream(f, ds), body, Bodies(steps));
    ok := true;
  }

  lemma NoBodies(steps: seq<Step>)
    ensures steps == [] ==> Bodies(steps) == []
  {
  }

  lemma NextBodies(body: seq<byte>, steps: seq<Step>, i: nat)
    requires i < |steps|
    ensures [body] + Bodies(steps[..i + 1])
         == if steps[i].Body? then [body] + Bodies(steps[..i]) + [steps[i].mem] else [body] + Bodies(steps[..i])
  {
    assert steps[..i + 1][..i] == steps[..i];
  }

  lemma ClosedParses(sent: seq<byte>, queued: seq<byte>, body: seq<byte>, parts: Queue)
    requires Carries(sent, queued, [body] + parts)
    ensures Parse(sent + (queued + LAST)) == Some((body + Flat(parts), []))
  {
    hide Parse, Flat, Frames;
    RoundTrip([body] + parts, []);
    FlatOne(body, parts);
    assert Flat(Frames([body] + parts)) + LAST + [] == sent + (queued + LAST);
  }

  // ------------------------------------------------- the server's own decoder

  /** The size line of a frame, as the decoder finds it. */
  lemma {:induction false} LineEnd(digits: Bytes, tail: Bytes)
    requires AllHex(digits)
    ensures ChunkedDecode.FindLf(digits + (CRLF + tail)) == |digits| + 1
  {
    var s := digits + (CRLF + tail);
    if digits == [] {
      assert s == CRLF + tail;
      assert s[1..][0] == LF;
    } else {
      LineEnd(digits[1..], tail);
      assert s[1..] == digits[1..] + (CRLF + tail);
      assert IsHex(digits[0]);
    }
  }

  /** A frame whose size line the parser accepts is decoded to its data, and one it refuses is an error. */
  lemma FrameDecodes(cfg: ChunkedDecode.Config, body: Bytes, m: Bytes, tail: Bytes)
    requires m != [] && cfg.maxRequest == 0 && |HexText(|m|)| + 2 < ChunkedDecode.MAX_LINE
    ensures var line, s := cfg.parse(HexText(|m|) + CRLF), Framed(m) + tail;
            && (line == ChunkedDecode.Size(|m|) ==> ChunkedDecode.Decode(cfg, 0, body, s) == ChunkedDecode.Decode(cfg, 0, body + m, tail))
            && (line.Malformed? ==> ChunkedDecode.Decode(cfg, 0, body, s).status == ChunkedDecode.Failed(400))
  {
    hide HexText, ChunkedDecode.LineStep, ChunkedDecode.Decode, ChunkedDecode.ChunkStep;
    var h, s := HexText(|m|), Framed(m) + tail;
    var data := m + CRLF + tail;
    assert s == h + (CRLF + data);
    LineFrame(cfg, body, h, data);
    ChunkedDecode.DecodeByStep(cfg, 0, body, s);
    if cfg.parse(h + CRLF) == ChunkedDecode.Size(|m|) {
      ChunkedDecode.DecodeByStep(cfg, |m| + 2, body, data);
      DataFrame(body, m, tail);
    }
  }

  /** The step over a size line. */
  lemma LineFrame(cfg: ChunkedDecode.Config, body: Bytes, h: Bytes, data: Bytes)
    requires AllHex(h) && cfg.maxRequest == 0 && |h| + 2 < ChunkedDecode.MAX_LINE
    ensures var line, st := cfg.parse(h + CRLF), ChunkedDecode.LineStep(cfg, body, h + (CRLF + data));
            && (line.Size? && line.n > 0 ==> st == ChunkedDecode.Go(line.n + 2, body, data))
            && (line.Malformed? ==> st.Stop? && st.r.status == ChunkedDecode.Failed(400))
  {
    hide ChunkedDecode.FindLf, ChunkedDecode.Last;
    var s := h + (CRLF + data);
    LineEnd(h, data);
    assert s[..|h| + 2] == h + CRLF && s[|h| + 2..] == data;
  }

  /** The step over the data of a chunk. */
  lemma DataFrame(body: Bytes, m: Bytes, tail: Bytes)
    ensures ChunkedDecode.ChunkStep(|m| + 2, body, m + CRLF + tail) == ChunkedDecode.Go(0, body + m, tail)
  {
    hide ChunkedDecode.ChunkStep;
    ChunkedDecode.ChunkStepIs(|m| + 2, body, m + CRLF + tail, |m|);
    FrameBody(m, tail);
  }

  lemma CloseDecodes(cfg: ChunkedDecode.Config, body: Bytes, tail: Bytes)
    requires cfg.parse([ZERO, CR, LF]) == ChunkedDecode.Size(0)
    ensures ChunkedDecode.Decode(cfg, 0, body, LAST + tail) == ChunkedDecode.Outcome(ChunkedDecode.Done, 0, body, tail)
  {
    hide ChunkedDecode.FindLf, ChunkedDecode.Decode;
    var s := LAST + tail;
    assert s == [ZERO] + (CRLF + (CRLF + tail));
    LineEnd([ZERO], CRLF + tail);
    assert s[..3] == [ZERO, CR, LF];
    assert s[1..][0] == CR && s[1..][1] == LF && s[1..][2] == CR && s[1..][3] == LF;
    assert s[5..] == tail;
    ChunkedDecode.DecodeByStep(cfg, 0, body, s);
  }

  /**
    The server's decoder, with its own size parser, gives back what the encoder
    framed if and only if no piece has 16 bytes or more; otherwise it is an error.
   */
  lemma {:induction false} OwnRoundTrip(field: nat, body: Bytes, ms: Queue, tail: Bytes)
    ensures var r := ChunkedDecode.Decode(ChunkedDecode.CodeConfig(0, field), 0, body, Flat(Frames(ms)) + LAST + tail);
            if forall i :: 0 <= i < |ms| ==> |ms[i]| < 16
            then r == ChunkedDecode.Outcome(ChunkedDecode.Done, 0, body + Flat(ms), tail)
            else r.status == ChunkedDecode.Failed(400)
    decreases |ms|
  {
    hide ChunkedDecode.Decode, ChunkedDecode.ParseLine, Framed, HexText, HexValue;
    var cfg := ChunkedDecode.CodeConfig(0, field);
    if ms == [] {
      assert Flat(Frames(ms)) + LAST + tail == LAST + tail && body + Flat(ms) == body;
      ZeroLine();
      CloseDecodes(cfg, body, tail);
    } else {
      var m, rest := ms[0], Flat(Frames(ms[1..])) + LAST + tail;
      assert Frames(ms) == [Framed(m)] + Frames(ms[1..]);
      FlatOne(Framed(m), Frames(ms[1..]));
      assert Flat(Frames(ms)) + LAST + tail == Framed(m) + rest;
      assert body + Flat(ms) == body + m + Flat(ms[1..]);
      OwnRoundTrip(field, body + m, ms[1..], tail);
      if m == [] {
        NoFrame();
        assert Framed(m) + rest == rest && body + m == body;
      } else {
        OwnLine(m, cfg, body, rest);
      }
    }
  }

  lemma ZeroLine()
    ensures ChunkedDecode.ParseLine([ZERO, CR, LF]) == ChunkedDecode.Size(0)
  {
    ChunkedDecode.SizeLineAccepted([ZERO], [], [CR, LF]);
    assert [ZERO] + [] + [CR, LF] == [ZERO] + [CR, LF];
    HexValueNext([], ZERO);
    assert [] + [ZERO] == [ZERO] && [ZERO] + [CR, LF] == [ZERO, CR, LF];
  }

  /** One frame for the server's own decoder, however long its size line. */
  lemma OwnLine(m: Bytes, cfg: ChunkedDecode.Config, body: Bytes, tail: Bytes)
    requires m != [] && cfg.maxRequest == 0 && cfg.parse == ChunkedDecode.ParseLine
    ensures var r := ChunkedDecode.Decode(cfg, 0, body, Framed(m) + tail);
            if |m| < 16 then r == ChunkedDecode.Decode(cfg, 0, body + m, tail) else r.status == ChunkedDecode.Failed(400)
  {
    hide ChunkedDecode.Decode, ChunkedDecode.ParseLine, Framed, HexText, HexValue;
    var h := HexText(|m|);
    HexTextValue(|m|);
    ChunkedDecode.SizeLineAccepted(h, [], [CR, LF]);
    assert h + [] + [CR, LF] == h + [CR, LF];
    if |h| + 2 < ChunkedDecode.MAX_LINE {
      if |m| < 16 { ShortHex(|m|); }
      FrameDecodes(cfg, body, m, tail);
    } else {
      if |m| < 16 { ShortHex(|m|); }
      LongLine(cfg, body, m, tail);
    }
  }

  lemma ShortHex(n: nat)
    requires n < 256
    ensures |HexText(n)| == 2
  {
  }

  lemma LongLine(cfg: ChunkedDecode.Config, body: Bytes, m: Bytes, tail: Bytes)
    requires m != [] && |HexText(|m|)| + 2 >= ChunkedDecode.MAX_LINE
    ensures ChunkedDecode.Decode(cfg, 0, body, Framed(m) + tail).status == ChunkedDecode.Failed(400)
  {
    hide HexText, ChunkedDecode.FindLf, ChunkedDecode.Decode, ChunkedDecode.Last;
    var h, s := HexText(|m|), Framed(m) + tail;
    assert s == h + (CRLF + (m + CRLF + tail));
    LineEnd(h, m + CRLF + tail);
    ChunkedDecode.DecodeByStep(cfg, 0, body, s);
  }
}
