/**
  Decoding a chunked request body as it arrives (section 4.1 of RFC 7230):
  what the decoder means on the byte stream, and that how the stream was cut
  into reads and chunks makes no difference.
 */
module ChunkedDecode {
  import opened Basics
  import opened Hex
  import opened Pieces

  // ------------------------------------------------------------- size lines

  datatype Parsed = Malformed | Size(n: nat)

  /**
    The digits of a size line. The overflow test compares with ~(-1) >> 4, which
    is 0, so it rejects any digit that follows a nonzero one.
   */
  function ScanDigits(line: seq<byte>, size: nat): (r: (Parsed, seq<byte>))
    ensures |r.1| <= |line|
  {
    if line == [] || HexDigit(line[0]) == BAD then (Size(size), line)
    else if size > 0 then (Malformed, line)
    else ScanDigits(line[1..], size * 16 + HexDigit(line[0]))
  }

  predicate IsBlank(c: byte) {
    c == ' ' as int || c == '\t' as int
  }

  function SkipBlanks(line: seq<byte>): (r: seq<byte>)
    ensures |r| <= |line|
  {
    if line != [] && IsBlank(line[0]) then SkipBlanks(line[1..]) else line
  }

  /** A size line: digits, blanks, then CR or a chunk extension. */
  function ParseLine(line: seq<byte>): Parsed {
    var (p, rest) := ScanDigits(line, 0);
    if p.Malformed? then Malformed
    else
      var tail := SkipBlanks(rest);
      if tail == [] || (tail[0] != CR && tail[0] != ';' as int) then Malformed else p
  }

  /**
    Digits, blanks and whatever follows: the line is accepted, with the value of its
    digits, exactly when that value is below 16 and CR or a chunk extension follows.
   */
  lemma SizeLineAccepted(digits: seq<byte>, blanks: seq<byte>, tail: seq<byte>)
    requires AllHex(digits) && (forall i :: 0 <= i < |blanks| ==> blanks[i] in {' ' as int, '\t' as int})
    requires tail != [] && tail[0] !in {' ' as int, '\t' as int} && (blanks == [] ==> !IsHex(tail[0]))
    ensures ParseLine(digits + blanks + tail) ==
              if HexValue(digits) < 16 && tail[0] in {CR, ';' as int} then Size(HexValue(digits)) else Malformed
  {
    hide SkipBlanks;
    assert digits + blanks + tail == digits + (blanks + tail);
    assert blanks != [] ==> !IsHex(blanks[0]);
    ScanHexLine(digits, blanks + tail, 0);
    HexValueFrom(digits);
    BlanksSkipped(blanks, tail);
  }

  lemma {:induction false} BlanksSkipped(blanks: seq<byte>, tail: seq<byte>)
    requires (forall i :: 0 <= i < |blanks| ==> IsBlank(blanks[i])) && (tail == [] || !IsBlank(tail[0]))
    ensures SkipBlanks(blanks + tail) == tail
  {
    if blanks == [] {
      assert blanks + tail == tail;
    } else {
      assert (blanks + tail)[1..] == blanks[1..] + tail;
      BlanksSkipped(blanks[1..], tail);
    }
  }

  /** The value of the digits read after `size` has been accumulated. */
  ghost function ValueFrom(digits: seq<byte>, size: nat): nat {
    if digits == [] then size else ValueFrom(digits[1..], size * 16 + HexDigit(digits[0]))
  }

  lemma {:induction false} ScanHexLine(digits: seq<byte>, tail: seq<byte>, size: nat)
    requires AllHex(digits) && (tail == [] || HexDigit(tail[0]) == BAD)
    ensures ScanDigits(digits + tail, size).0
         == if ValueFrom(digits, size) < 16 || digits == [] then Size(ValueFrom(digits, size)) else Malformed
    ensures ValueFrom(digits, size) < 16 || digits == [] ==> ScanDigits(digits + tail, size).1 == tail
  {
    if digits == [] {
      assert digits + tail == tail;
    } else {
      assert (digits + tail)[1..] == digits[1..] + tail;
      ValueGrows(digits[1..], size * 16 + HexDigit(digits[0]));
      if size == 0 {
        ScanHexLine(digits[1..], tail, HexDigit(digits[0]));
      }
    }
  }

  lemma {:induction false} ValueGrows(digits: seq<byte>, size: nat)
    ensures ValueFrom(digits, size) >= size
  {
    if digits != [] {
      ValueGrows(digits[1..], size * 16 + HexDigit(digits[0]));
    }
  }

  lemma {:induction false} ValueSnoc(digits: seq<byte>, d: byte, size: nat)
    ensures ValueFrom(digits + [d], size) == ValueFrom(digits, size) * 16 + HexDigit(d)
  {
    if digits == [] {
      assert digits + [d] == [d];
      assert [d][1..] == [];
    } else {
      assert (digits + [d])[1..] == digits[1..] + [d];
      ValueSnoc(digits[1..], d, size * 16 + HexDigit(digits[0]));
    }
  }

  lemma {:induction false} HexValueFrom(digits: seq<byte>)
    ensures HexValue(digits) == ValueFrom(digits, 0)
  {
    if digits != [] {
      var init := digits[..|digits| - 1];
      assert digits == init + [digits[|digits| - 1]];
      HexValueFrom(init);
      ValueSnoc(init, digits[|digits| - 1], 0);
    }
  }

  // ------------------------------------------------- searching as C strings

  /** strchr(s, LF): the first LF, unless a NUL ends the string before it. */
  function FindLf(s: seq<byte>): (r: int)
    ensures -1 <= r < |s|
    ensures r >= 0 ==> s[r] == LF
  {
    if s == [] || s[0] == NUL then -1
    else if s[0] == LF then 0
    else if FindLf(s[1..]) < 0 then -1
    else FindLf(s[1..]) + 1
  }

  predicate AtBlankLine(s: seq<byte>) {
    |s| >= 4 && s[0] == CR && s[1] == LF && s[2] == CR && s[3] == LF
  }

  /** strstr(s, CRLF CRLF): where the first one begins, unless a NUL comes before it. */
  function FindBlankLine(s: seq<byte>): (r: int)
    ensures -1 <= r && (r >= 0 ==> r + 4 <= |s|)
  {
    if s == [] || s[0] == NUL then -1
    else if AtBlankLine(s) then 0
    else if FindBlankLine(s[1..]) < 0 then -1
    else FindBlankLine(s[1..]) + 1
  }

  /** Appending bytes keeps what was found, and finds nothing inside what had nothing. */
  lemma {:induction false} FindLfExtend(s: seq<byte>, t: seq<byte>)
    ensures FindLf(s) >= 0 ==> FindLf(s + t) == FindLf(s)
    ensures FindLf(s) < 0 ==> FindLf(s + t) < 0 || FindLf(s + t) >= |s|
  {
    if s == [] {
      assert s + t == t;
    } else {
      assert (s + t)[1..] == s[1..] + t;
      FindLfExtend(s[1..], t);
    }
  }

  lemma {:induction false} FindBlankExtend(s: seq<byte>, t: seq<byte>)
    ensures FindBlankLine(s) >= 0 ==> FindBlankLine(s + t) == FindBlankLine(s)
    ensures FindBlankLine(s) < 0 && FindBlankLine(s + t) >= 0 ==> FindBlankLine(s + t) + 4 > |s|
  {
    if s == [] {
      assert s + t == t;
    } else {
      assert (s + t)[1..] == s[1..] + t;
      FindBlankExtend(s[1..], t);
      assert AtBlankLine(s) ==> AtBlankLine(s + t);
      assert AtBlankLine(s + t) && |s| >= 4 ==> AtBlankLine(s);
    }
  }

  // ---------------------------------------------------- meaning on the stream

  /** Limits in bytes, where maxRequest 0 means no limit, and the parser of size lines, which may be any. */
  datatype Config = Config(maxRequest: nat, maxField: nat, parse: seq<byte> -> Parsed)

  /** The configuration with the parser of the code. */
  function CodeConfig(maxRequest: nat, maxField: nat): Config { Config(maxRequest, maxField, ParseLine) }

  const MAX_LINE: nat := 1024

  /** Fault: trailers over the limit, where the code goes on with a null pointer. */
  datatype Status = More | Done | Failed(code: nat) | Fault

  /** te: 0 between chunks, otherwise bytes still to come of a chunk, with its CRLF. */
  datatype Outcome = Outcome(status: Status, te: nat, body: seq<byte>, left: seq<byte>)

  /** One part of the input has been dealt with: the call ends, or goes on with the rest. */
  datatype Step = Stop(r: Outcome) | Go(te: nat, body: seq<byte>, rest: seq<byte>)

  /** Between chunks: a size line. */
  ghost function LineStep(cfg: Config, body: seq<byte>, s: seq<byte>): (r: Step)
    ensures r.Go? ==> r.te > 2 && |r.rest| < |s|
    ensures r.Stop? ==> r.r.te == 0
  {
    var lf := FindLf(s);
    if lf < 0 then Stop(Outcome(if |s| >= MAX_LINE then Failed(400) else More, 0, body, s))
    else LineFound(cfg, body, s, lf + 1, cfg.parse(s[..lf + 1]))
  }

  ghost function LineFound(cfg: Config, body: seq<byte>, s: seq<byte>, hsz: nat, line: Parsed): (r: Step)
    requires 0 < hsz <= |s|
    ensures r.Go? ==> r.te > 2 && |r.rest| < |s|
    ensures r.Stop? ==> r.r.te == 0
  {
    if line.Malformed? || hsz >= MAX_LINE then Stop(Outcome(Failed(400), 0, body, s))
    else if line.n == 0 then Stop(Last(cfg, body, s, hsz))
    else if TooLarge(cfg, line.n, |body|) then Stop(Outcome(Failed(413), 0, body, s[hsz..]))
    else Go(line.n + 2, body, s[hsz..])
  }

  /** Inside a chunk: its data, then its CRLF. */
  ghost function ChunkStep(te: nat, body: seq<byte>, s: seq<byte>): (r: Step)
    requires te >= 2
    ensures r.Go? ==> r.te == 0 && |r.rest| < |s|
    ensures r.Stop? ==> r.r.te != 1
  {
    var n := Min(|s|, te - 2);
    var te', body', rest := te - n, body + s[..n], s[n..];
    if |rest| < te' then Stop(Outcome(More, te', body', rest))
    else if rest[0] != CR || rest[1] != LF then Stop(Outcome(Failed(400), 0, body', rest))
    else Go(0, body', rest[2..])
  }

  /** What one call does to the bytes received so far and not yet consumed. */
  ghost function Decode(cfg: Config, te: nat, body: seq<byte>, s: seq<byte>): (r: Outcome)
    requires te != 1
    ensures r.te != 1
    decreases |s|
  {
    match (if te == 0 then LineStep(cfg, body, s) else ChunkStep(te, body, s))
    case Stop(r) => r
    case Go(te', body', rest) => Decode(cfg, te', body', rest)
  }

  /** The last chunk's line, hsz bytes long, is kept until the blank line after the trailers has come. */
  ghost function Last(cfg: Config, body: seq<byte>, s: seq<byte>, hsz: nat): Outcome
    requires hsz <= |s|
  {
    var from := if hsz < 2 then 0 else hsz - 2;
    var end := FindBlankLine(s[from..]);
    if end >= 0 then Outcome(Done, 0, body, s[from + end + 4..])
    else if |s| < cfg.maxField then Outcome(More, 0, body, s)
    else Outcome(Fault, 0, body, s)
  }

  predicate TooLarge(cfg: Config, size: nat, have: nat) {
    cfg.maxRequest != 0 && (cfg.maxRequest < size || cfg.maxRequest - size < have)
  }

  // ---------------------------------------------- independence of the reads

  /** One more read: decoding goes on only while more input is wanted. */
  ghost function Resume(cfg: Config, r: Outcome, bytes: seq<byte>): (o: Outcome)
    requires r.te != 1
    ensures o.te != 1
  {
    if r.status == More then Decode(cfg, r.te, r.body, r.left + bytes) else r.(left := r.left + bytes)
  }

  ghost function ResumeAll(cfg: Config, r: Outcome, parts: seq<seq<byte>>): (o: Outcome)
    requires r.te != 1
    ensures o.te != 1
    decreases |parts|
  {
    if parts == [] then r else ResumeAll(cfg, Resume(cfg, r, parts[0]), parts[1..])
  }

  lemma LastStatus(cfg: Config, body: seq<byte>, s: seq<byte>, hsz: nat)
    requires hsz <= |s|
    ensures var r := Last(cfg, body, s, hsz); r.status == Done || r == Outcome(More, 0, body, s) || r == Outcome(Fault, 0, body, s)
  {
  }

  lemma LastExtend(cfg: Config, body: seq<byte>, a: seq<byte>, b: seq<byte>, hsz: nat)
    requires hsz <= |a| && Last(cfg, body, a, hsz).status == Done
    ensures Last(cfg, body, a + b, hsz) == Last(cfg, body, a, hsz).(left := Last(cfg, body, a, hsz).left + b)
  {
    var from := if hsz < 2 then 0 else hsz - 2;
    assert (a + b)[from..] == a[from..] + b;
    FindBlankExtend(a[from..], b);
  }

  ghost function Extended(st: Step, bytes: seq<byte>): Step {
    match st
    case Stop(r) => Stop(r.(left := r.left + bytes))
    case Go(te, body, rest) => Go(te, body, rest + bytes)
  }

  lemma LineExtend(cfg: Config, body: seq<byte>, a: seq<byte>, b: seq<byte>)
    ensures var st := LineStep(cfg, body, a);
            if st.Stop? && st.r.status == More then st.r == Outcome(More, 0, body, a)
            else st == Stop(Outcome(Fault, 0, body, a)) || LineStep(cfg, body, a + b) == Extended(st, b)
  {
    hide Last, TooLarge, FindLf;
    FindLfExtend(a, b);
    var lf := FindLf(a);
    if lf < 0 {
    } else {
      assert (a + b)[..lf + 1] == a[..lf + 1];
      assert (a + b)[lf + 1..] == a[lf + 1..] + b;
      LastStatus(cfg, body, a, lf + 1);
      if Last(cfg, body, a, lf + 1).status == Done {
        LastExtend(cfg, body, a, b, lf + 1);
      }
    }
  }

  lemma ChunkExtend(te: nat, body: seq<byte>, a: seq<byte>, b: seq<byte>)
    requires te >= 2
    ensures var st := ChunkStep(te, body, a);
            if st.Stop? && st.r.status == More then ChunkStep(te, body, a + b) == ChunkStep(st.r.te, st.r.body, st.r.left + b)
            else ChunkStep(te, body, a + b) == Extended(st, b)
  {
    hide ChunkStep;
    if |a| < te - 2 {
      ChunkStepIs(te, body, a, |a|);
      assert a[..|a|] == a && a[|a|..] == [] && [] + b == b;
      DataContinues(te, body, a, b);
    } else {
      var n := te - 2;
      var rest, body' := a[n..], body + a[..n];
      ChunkStepIs(te, body, a, n);
      ChunkStepIs(te, body, a + b, n);
      assert (a + b)[..n] == a[..n] && (a + b)[n..] == rest + b;
      if |rest| < 2 {
        ChunkStepIs(2, body', rest + b, 0);
      } else {
        assert (rest + b)[2..] == rest[2..] + b;
      }
    }
  }

  /** Chunk data that all belongs to the body may be taken at once or in parts. */
  lemma DataContinues(te: nat, body: seq<byte>, a: seq<byte>, b: seq<byte>)
    requires te >= 2 && |a| <= te - 2
    ensures ChunkStep(te, body, a + b) == ChunkStep(te - |a|, body + a, b)
  {
    var n, n' := Min(|a + b|, te - 2), Min(|b|, te - |a| - 2);
    assert n == |a| + n';
    assert (a + b)[..n] == a + b[..n'];
    assert (a + b)[n..] == b[n'..];
    assert body + (a + b[..n']) == body + a + b[..n'];
  }

  /** Cutting the stream in two: the second part is decoded from where the first part stopped. */
  lemma {:induction false} DecodeSplit(cfg: Config, te: nat, body: seq<byte>, a: seq<byte>, b: seq<byte>)
    requires te != 1 && Decode(cfg, te, body, a).status != Fault
    ensures Decode(cfg, te, body, a + b) == Resume(cfg, Decode(cfg, te, body, a), b)
    decreases |a|
  {
    hide LineStep, ChunkStep;
    var st := if te == 0 then LineStep(cfg, body, a) else ChunkStep(te, body, a);
    if te == 0 {
      LineExtend(cfg, body, a, b);
    } else {
      ChunkExtend(te, body, a, b);
    }
    if st.Go? {
      DecodeSplit(cfg, st.te, st.body, st.rest, b);
    } else if st.r.status == More && te != 0 {
      MoreInChunk(te, body, a);
    }
  }

  lemma MoreInChunk(te: nat, body: seq<byte>, a: seq<byte>)
    requires te >= 2 && ChunkStep(te, body, a).Stop? && ChunkStep(te, body, a).r.status == More
    ensures ChunkStep(te, body, a).r.te >= 2
  {
  }

  /** No read of the sequence runs into the trailer limit. */
  ghost predicate NeverFaults(cfg: Config, r: Outcome, parts: seq<seq<byte>>)
    requires r.te != 1
    decreases |parts|
  {
    parts == [] || (Resume(cfg, r, parts[0]).status != Fault && NeverFaults(cfg, Resume(cfg, r, parts[0]), parts[1..]))
  }

  lemma ResumeSplit(cfg: Config, r: Outcome, a: seq<byte>, b: seq<byte>)
    requires r.te != 1 && Resume(cfg, r, a).status != Fault
    ensures Resume(cfg, r, a + b) == Resume(cfg, Resume(cfg, r, a), b)
  {
    if r.status == More {
      assert r.left + (a + b) == (r.left + a) + b;
      DecodeSplit(cfg, r.te, r.body, r.left + a, b);
    } else {
      assert r.left + (a + b) == (r.left + a) + b;
    }
  }

  /**
    Segmentation independence: any sequence of reads ends with the same status,
    decoded body, leftover bytes and te as one read of the whole stream.
   */
  lemma {:induction false} ReadsDoNotMatter(cfg: Config, r: Outcome, parts: seq<seq<byte>>)
    requires r.te != 1 && parts != [] && NeverFaults(cfg, r, parts)
    ensures ResumeAll(cfg, r, parts) == Resume(cfg, r, Flat(parts))
    decreases |parts|
  {
    var r' := Resume(cfg, r, parts[0]);
    if |parts| == 1 {
      assert parts[1..] == [];
      assert parts[0] + [] == parts[0];
    } else {
      ReadsDoNotMatter(cfg, r', parts[1..]);
      ResumeSplit(cfg, r, parts[0], Flat(parts[1..]));
    }
  }

  // ------------------------------------------- exactly when the reads matter

  /** The last chunk's line and the trailers, up to their blank line, stay within the field limit. */
  ghost predicate TrailersFit(cfg: Config, te: nat, body: seq<byte>, s: seq<byte>)
    requires te != 1
    decreases |s|
  {
    match (if te == 0 then LineStep(cfg, body, s) else ChunkStep(te, body, s))
    case Stop(r) => r.status != Fault && (r.status == Done ==> |s| - |r.left| <= cfg.maxField)
    case Go(te', body', rest) => TrailersFit(cfg, te', body', rest)
  }

  /** A prefix of the input at a size line takes the same step, or stops short of it without a fault. */
  lemma LinePrefix(cfg: Config, body: seq<byte>, a: seq<byte>, b: seq<byte>)
    requires var st := LineStep(cfg, body, a + b);
             st.Stop? ==> st.r.status != Fault && (st.r.status == Done ==> |a + b| - |st.r.left| <= cfg.maxField)
    ensures var st := LineStep(cfg, body, a);
            (st.Stop? && st.r.status != Fault) || (st.Go? && LineStep(cfg, body, a + b) == Extended(st, b))
  {
    hide TooLarge, FindLf, Last;
    FindLfExtend(a, b);
    var lf := FindLf(a);
    if lf >= 0 {
      assert (a + b)[..lf + 1] == a[..lf + 1];
      assert (a + b)[lf + 1..] == a[lf + 1..] + b;
      LastPrefix(cfg, body, a, b, lf + 1);
    }
  }

  lemma LastPrefix(cfg: Config, body: seq<byte>, a: seq<byte>, b: seq<byte>, hsz: nat)
    requires hsz <= |a|
    ensures var r := Last(cfg, body, a + b, hsz);
            r.status != Fault && (r.status == Done ==> |a + b| - |r.left| <= cfg.maxField) ==>
              Last(cfg, body, a, hsz).status != Fault
  {
    var from := if hsz < 2 then 0 else hsz - 2;
    assert (a + b)[from..] == a[from..] + b;
    FindBlankExtend(a[from..], b);
  }

  /** If the whole stream fits, no prefix of it faults. */
  lemma {:induction false} PrefixSafe(cfg: Config, te: nat, body: seq<byte>, a: seq<byte>, b: seq<byte>)
    requires te != 1 && TrailersFit(cfg, te, body, a + b)
    ensures Decode(cfg, te, body, a).status != Fault
    decreases |a|
  {
    hide LineStep, ChunkStep;
    var st := if te == 0 then LineStep(cfg, body, a) else ChunkStep(te, body, a);
    if te == 0 {
      LinePrefix(cfg, body, a, b);
    } else {
      ChunkExtend(te, body, a, b);
      ChunkNoFault(te, body, a);
    }
    if st.Go? {
      PrefixSafe(cfg, st.te, st.body, st.rest, b);
    }
  }

  lemma ChunkNoFault(te: nat, body: seq<byte>, a: seq<byte>)
    requires te >= 2
    ensures ChunkStep(te, body, a).Stop? ==> ChunkStep(te, body, a).r.status in {More, Failed(400)}
  {
  }

  /** If it does not fit, some prefix faults. */
  lemma {:induction false} FaultyPrefix(cfg: Config, te: nat, body: seq<byte>, s: seq<byte>) returns (k: nat)
    requires te != 1 && !TrailersFit(cfg, te, body, s)
    ensures k <= |s| && Decode(cfg, te, body, s[..k]).status == Fault
    decreases |s|
  {
    hide LineStep, ChunkStep;
    var st := if te == 0 then LineStep(cfg, body, s) else ChunkStep(te, body, s);
    if st.Go? {
      var k' := FaultyPrefix(cfg, st.te, st.body, st.rest);
      k := |s| - |st.rest| + k';
      var used := |s| - |st.rest|;
      if te == 0 {
        GoesOn(cfg, body, s, st.rest[..k']);
      } else {
        ChunkGoesOn(te, body, s, st.rest[..k']);
      }
      assert s[..k] == s[..used] + st.rest[..k'];
    } else if te == 0 {
      if st.r.status == Fault {
        k := |s|;
        assert s[..k] == s;
      } else {
        k := FaultyTrailers(cfg, body, s);
      }
    } else {
      ChunkNoFault(te, body, s);
      assert false;
    }
  }

  /** A step that goes on needs only the bytes it consumes. */
  lemma GoesOn(cfg: Config, body: seq<byte>, s: seq<byte>, t: seq<byte>)
    requires LineStep(cfg, body, s).Go?
    ensures var st := LineStep(cfg, body, s);
            && st.rest == s[|s| - |st.rest|..]
            && LineStep(cfg, body, s[..|s| - |st.rest|] + t) == Go(st.te, st.body, t)
  {
    var st := LineStep(cfg, body, s);
    var lf := FindLf(s);
    var used := s[..lf + 1];
    assert s == used + s[lf + 1..];
    FindLfUsed(s);
    FindLfExtend(used, t);
    assert (used + t)[..lf + 1] == used && (used + t)[lf + 1..] == t;
  }

  lemma {:induction false} FindLfUsed(s: seq<byte>)
    requires FindLf(s) >= 0
    ensures FindLf(s[..FindLf(s) + 1]) == FindLf(s)
  {
    if s[0] != LF {
      FindLfUsed(s[1..]);
      assert s[..FindLf(s) + 1][1..] == s[1..][..FindLf(s[1..]) + 1];
    }
  }

  lemma ChunkGoesOn(te: nat, body: seq<byte>, s: seq<byte>, t: seq<byte>)
    requires te >= 2 && ChunkStep(te, body, s).Go?
    ensures var st := ChunkStep(te, body, s);
            && st.rest == s[|s| - |st.rest|..]
            && ChunkStep(te, body, s[..|s| - |st.rest|] + t) == Go(st.te, st.body, t)
  {
    assert s[te - 2..][2..] == s[te..];
    var u := s[..te] + t;
    assert u[..te - 2] == s[..te - 2] && u[te - 2..][2..] == t;
  }

  lemma FaultyTrailers(cfg: Config, body: seq<byte>, s: seq<byte>) returns (k: nat)
    requires var st := LineStep(cfg, body, s);
             st.Stop? && st.r.status == Done && |s| - |st.r.left| > cfg.maxField
    ensures k <= |s| && Decode(cfg, 0, body, s[..k]).status == Fault
  {
    hide FindLf, FindBlankLine, TooLarge;
    var lf := FindLf(s);
    var from := if lf + 1 < 2 then 0 else lf + 1 - 2;
    var end := FindBlankLine(s[from..]);
    k := from + end + 3;
    var a, b := s[..k], s[k..];
    assert s == a + b;
    FindLfExtend(a, b);
    assert lf < k;
    assert a[..lf + 1] == s[..lf + 1];
    assert s[from..] == a[from..] + b;
    FindBlankExtend(a[from..], b);
    assert LineStep(cfg, body, a).r.status == Fault;
  }

  /** Reading what does not fault at any cut never faults. */
  lemma {:induction false} SafeReads(cfg: Config, r: Outcome, parts: seq<seq<byte>>)
    requires r.te != 1
    requires forall k :: 0 <= k <= |Flat(parts)| ==> Resume(cfg, r, Flat(parts)[..k]).status != Fault
    ensures NeverFaults(cfg, r, parts)
    decreases |parts|
  {
    if parts != [] {
      var p, rest := parts[0], Flat(parts[1..]);
      assert Flat(parts)[..|p|] == p;
      var r' := Resume(cfg, r, p);
      assert r'.status != Fault;
      forall k | 0 <= k <= |rest| ensures Resume(cfg, r', rest[..k]).status != Fault {
        assert Flat(parts)[..|p| + k] == p + rest[..k];
        ResumeSplit(cfg, r, p, rest[..k]);
      }
      SafeReads(cfg, r', parts[1..]);
    }
  }

  /** A connection that has read nothing of the current body part yet. */
  ghost function Fresh(te: nat, body: seq<byte>): Outcome {
    Outcome(More, te, body, [])
  }

  /**
    Every way of cutting a stream into reads gives the same result, without a
    fault, exactly when the trailers of the stream stay within the limit.
   */
  lemma SegmentationIndependent(cfg: Config, te: nat, body: seq<byte>, s: seq<byte>)
    requires te != 1
    ensures TrailersFit(cfg, te, body, s) <==>
              && Decode(cfg, te, body, s).status != Fault
              && forall parts :: parts != [] && Flat(parts) == s ==>
                   ResumeAll(cfg, Fresh(te, body), parts) == Decode(cfg, te, body, s)
  {
    hide Decode, Resume, TrailersFit;
    var r0 := Fresh(te, body);
    if TrailersFit(cfg, te, body, s) {
      forall k | 0 <= k <= |s| ensures Resume(cfg, r0, s[..k]).status != Fault {
        assert s == s[..k] + s[k..];
        PrefixSafe(cfg, te, body, s[..k], s[k..]);
        FreshResume(cfg, te, body, s[..k]);
      }
      assert s[..|s|] == s;
      FreshResume(cfg, te, body, s);
      forall parts | parts != [] && Flat(parts) == s ensures ResumeAll(cfg, r0, parts) == Decode(cfg, te, body, s) {
        SafeReads(cfg, r0, parts);
        ReadsDoNotMatter(cfg, r0, parts);
      }
    } else {
      var k := FaultyPrefix(cfg, te, body, s);
      TwoReads(cfg, te, body, s, k);
    }
  }

  lemma FreshResume(cfg: Config, te: nat, body: seq<byte>, s: seq<byte>)
    requires te != 1
    ensures Resume(cfg, Fresh(te, body), s) == Decode(cfg, te, body, s)
  {
    assert [] + s == s;
  }

  lemma TwoReads(cfg: Config, te: nat, body: seq<byte>, s: seq<byte>, k: nat)
    requires te != 1 && k <= |s| && Decode(cfg, te, body, s[..k]).status == Fault
    ensures var parts := [s[..k], s[k..]];
            Flat(parts) == s && ResumeAll(cfg, Fresh(te, body), parts).status == Fault
  {
    hide Decode, Flat, Resume, ResumeAll;
    FlatTwo(s[..k], s[k..]);
    assert s[..k] + s[k..] == s;
    FreshResume(cfg, te, body, s[..k]);
    ResumeTwo(cfg, Fresh(te, body), s[..k], s[k..]);
    FaultStays(cfg, Resume(cfg, Fresh(te, body), s[..k]), s[k..]);
  }

  lemma FlatTwo(a: seq<byte>, b: seq<byte>)
    ensures Flat([a, b]) == a + b
  {
    hide Flat;
    FlatOne(a, [b]);
    FlatOne(b, []);
    FlatOfNothing();
    assert [a] + [b] == [a, b] && [b] + [] == [b] && b + [] == b;
  }

  lemma ResumeTwo(cfg: Config, r: Outcome, a: seq<byte>, b: seq<byte>)
    requires r.te != 1
    ensures ResumeAll(cfg, r, [a, b]) == Resume(cfg, Resume(cfg, r, a), b)
  {
    hide Resume;
    var both, last, none: Queue := [a, b], [b], [];
    assert both[1..] == last && last[1..] == none;
    var r1 := Resume(cfg, r, a);
    assert ResumeAll(cfg, r, both) == ResumeAll(cfg, r1, last);
    assert ResumeAll(cfg, r1, last) == ResumeAll(cfg, Resume(cfg, r1, b), none);
  }

  lemma FaultStays(cfg: Config, r: Outcome, bytes: seq<byte>)
    requires r.te != 1 && r.status == Fault
    ensures Resume(cfg, r, bytes).status == Fault
  {
  }

  // ------------------------------------------- size lines and trailers, exactly

  /** The first LF, unless a NUL comes first. */
  lemma {:induction false} FindLfExact(s: seq<byte>)
    ensures var r := FindLf(s);
            if r >= 0 then forall k :: 0 <= k < r ==> s[k] != LF && s[k] != NUL
            else forall k :: 0 <= k < |s| && s[k] == LF ==> NUL in s[..k]
  {
    if s != [] && s[0] != NUL && s[0] != LF {
      var t := s[1..];
      FindLfExact(t);
      forall k | 0 <= k < |s| && (FindLf(t) < 0 && s[k] == LF)
        ensures NUL in s[..k]
      {
        assert t[k - 1] == LF && s[..k][1..] == t[..k - 1];
      }
      if FindLf(t) >= 0 {
        forall k | 0 <= k < FindLf(s) ensures s[k] != LF && s[k] != NUL {
          if k > 0 { assert t[k - 1] == s[k]; }
        }
      }
    } else if s != [] && s[0] == NUL {
      assert forall k :: 0 < k < |s| ==> s[..k][0] == NUL;
    }
  }

  predicate BlankAt(s: seq<byte>, k: nat) {
    k + 4 <= |s| && s[k] == CR && s[k + 1] == LF && s[k + 2] == CR && s[k + 3] == LF
  }

  ghost predicate NulBefore(s: seq<byte>, k: nat) {
    exists j :: 0 <= j < k && j < |s| && s[j] == NUL
  }

  /** The first blank line, unless a NUL comes first. */
  lemma {:induction false} FindBlankExact(s: seq<byte>)
    ensures var r := FindBlankLine(s);
            if r >= 0 then BlankAt(s, r) && !NulBefore(s, r) && forall k: nat :: k < r ==> !BlankAt(s, k)
            else forall k: nat :: BlankAt(s, k) ==> NulBefore(s, k)
  {
    hide BlankAt, NulBefore;
    if s == [] || s[0] == NUL {
      forall k: nat | BlankAt(s, k) ensures NulBefore(s, k) {
        NulFirst(s, k);
      }
    } else {
      BlankNext(s);
      FindBlankExact(s[1..]);
      var r := FindBlankLine(s);
      if r > 0 {
        forall k: nat | k < r ensures !BlankAt(s, k) {
          if k > 0 { assert !BlankAt(s[1..], k - 1); }
        }
      } else if r < 0 {
        forall k: nat | BlankAt(s, k) ensures NulBefore(s, k) {
          assert k > 0 && BlankAt(s[1..], k - 1);
        }
      }
    }
  }

  lemma NulFirst(s: seq<byte>, k: nat)
    requires BlankAt(s, k) && (s == [] || s[0] == NUL)
    ensures NulBefore(s, k)
  {
  }

  lemma BlankNext(s: seq<byte>)
    requires s != [] && s[0] != NUL
    ensures AtBlankLine(s) <==> BlankAt(s, 0)
    ensures !NulBefore(s, 0)
    ensures forall k: nat :: k > 0 ==> (BlankAt(s, k) <==> BlankAt(s[1..], k - 1)) && (NulBefore(s, k) <==> NulBefore(s[1..], k - 1))
  {
    forall k: nat | k > 0 ensures NulBefore(s, k) <==> NulBefore(s[1..], k - 1) {
      if j :| 0 <= j < k && j < |s| && s[j] == NUL {
        assert s[1..][j - 1] == NUL;
      }
      if j :| 0 <= j < k - 1 && j < |s[1..]| && s[1..][j] == NUL {
        assert s[j + 1] == NUL;
      }
    }
  }

  /** After the line of the last chunk, everything up to the first blank line is skipped. */
  lemma TrailersSkipped(cfg: Config, body: seq<byte>, head: seq<byte>, trailers: seq<byte>, rest: seq<byte>)
    requires |head| + 2 < 1024 && cfg.parse(head + [CR, LF]) == Size(0)
    requires LF !in head && NUL !in head + trailers
    requires forall k: nat :: k < |trailers| + 2 ==> !BlankAt([CR, LF] + trailers + [CR, LF, CR, LF] + rest, k)
    ensures Decode(cfg, 0, body, head + [CR, LF] + trailers + [CR, LF, CR, LF] + rest) == Outcome(Done, 0, body, rest)
  {
    hide FindLf, FindBlankLine, LineStep, BlankAt, NulBefore;
    var text := [CR, LF] + trailers + [CR, LF, CR, LF] + rest;
    var s := head + text;
    assert s == head + [CR, LF] + trailers + [CR, LF, CR, LF] + rest;
    LineEnds(head, text);
    assert s[..|head| + 2] == head + [CR, LF];
    BlankFollows(trailers, rest);
    FindBlankExact(text);
    assert FindBlankLine(text) == |trailers| + 2;
    assert s[|head|..] == text;
    assert text[|trailers| + 6..] == rest;
    LastLine(cfg, body, s, |head| + 2);
    DecodeByStep(cfg, 0, body, s);
  }

  lemma LineEnds(head: seq<byte>, text: seq<byte>)
    requires LF !in head && NUL !in head && |text| >= 2 && text[0] == CR && text[1] == LF
    ensures FindLf(head + text) == |head| + 1
  {
    var s := head + text;
    FindLfExact(s);
    assert s[|head|] == CR && s[|head| + 1] == LF;
    assert forall k :: 0 <= k < |head| ==> s[k] == head[k];
    assert NUL !in s[..|head| + 1];
  }

  lemma BlankFollows(trailers: seq<byte>, rest: seq<byte>)
    requires NUL !in trailers
    ensures var text := [CR, LF] + trailers + [CR, LF, CR, LF] + rest;
            BlankAt(text, |trailers| + 2) && !NulBefore(text, |trailers| + 2)
  {
  }

  lemma LastLine(cfg: Config, body: seq<byte>, s: seq<byte>, hsz: nat)
    requires 2 <= hsz <= |s| && hsz < 1024 && FindLf(s) == hsz - 1 && cfg.parse(s[..hsz]) == Size(0)
    requires FindBlankLine(s[hsz - 2..]) >= 0
    ensures LineStep(cfg, body, s) == Stop(Outcome(Done, 0, body, s[hsz - 2..][FindBlankLine(s[hsz - 2..]) + 4..]))
  {
    hide FindLf, FindBlankLine, TooLarge;
  }

  /** A size line has to end within its first 1023 bytes; 1024 bytes without an end are refused. */
  lemma LongLines(cfg: Config, body: seq<byte>, s: seq<byte>)
    requires forall k :: 0 <= k < |s| && k < 1023 ==> s[k] != LF
    ensures |s| >= 1024 ==> Decode(cfg, 0, body, s) == Outcome(Failed(400), 0, body, s)
    ensures |s| < 1024 && LF !in s ==> Decode(cfg, 0, body, s) == Outcome(More, 0, body, s)
  {
    hide FindLf, FindBlankLine;
    FindLfExact(s);
    DecodeByStep(cfg, 0, body, s);
  }

  // ------------------------------------------------------ the size limit

  /** Data bytes still to come of the current chunk. */
  function Pending(te: nat): nat {
    if te <= 2 then 0 else te - 2
  }

  /** The body and what the current chunk still announces stay within the limit. */
  predicate Fits(cfg: Config, te: nat, body: seq<byte>) {
    cfg.maxRequest != 0 ==> |body| + Pending(te) <= cfg.maxRequest
  }

  function Unlimited(cfg: Config): Config {
    cfg.(maxRequest := 0)
  }

  lemma LineUnlimited(cfg: Config, body: seq<byte>, s: seq<byte>)
    requires Fits(cfg, 0, body)
    ensures var st, u := LineStep(cfg, body, s), LineStep(Unlimited(cfg), body, s);
            if st.Stop? && st.r.status == Failed(413) then u.Go? && |u.body| + Pending(u.te) > cfg.maxRequest > 0 && st.r.body == body
            else st == u && (st.Go? ==> Fits(cfg, st.te, st.body)) && (st.Stop? ==> st.r.body == body && st.r.te == 0)
  {
    hide FindLf, FindBlankLine;
    var lf := FindLf(s);
    if lf >= 0 {
      LastStatus(cfg, body, s, lf + 1);
    }
  }

  lemma ChunkTotal(te: nat, body: seq<byte>, s: seq<byte>)
    requires te >= 2
    ensures var st := ChunkStep(te, body, s);
            if st.Go? then |st.body| + Pending(st.te) == |body| + Pending(te)
            else |st.r.body| + Pending(st.r.te) == |body| + Pending(te) && st.r.status != Failed(413)
  {
  }

  /** Without a limit, what has come and what is announced only grows. */
  lemma {:induction false} TotalGrows(cfg: Config, te: nat, body: seq<byte>, s: seq<byte>)
    requires te != 1 && cfg.maxRequest == 0
    ensures var u := Decode(cfg, te, body, s); |u.body| + Pending(u.te) >= |body| + Pending(te)
    decreases |s|
  {
    hide LineStep, ChunkStep;
    DecodeByStep(cfg, te, body, s);
    var st := if te == 0 then LineStep(cfg, body, s) else ChunkStep(te, body, s);
    if te == 0 {
      LineUnlimited(cfg, body, s);
      LineBody(cfg, body, s);
    } else {
      ChunkTotal(te, body, s);
    }
    if st.Go? {
      TotalGrows(cfg, st.te, st.body, st.rest);
    }
  }

  lemma LineBody(cfg: Config, body: seq<byte>, s: seq<byte>)
    ensures LineStep(cfg, body, s).Go? ==> LineStep(cfg, body, s).body == body
  {
  }

  /**
    The limit, for every stream: decoding is refused with 413 exactly when decoding
    without a limit would announce a body over it, and then before that chunk's
    data; otherwise the limit makes no difference. In no case is it exceeded.
   */
  lemma {:induction false} LimitExact(cfg: Config, te: nat, body: seq<byte>, s: seq<byte>)
    requires te != 1 && Fits(cfg, te, body)
    ensures var r, u := Decode(cfg, te, body, s), Decode(Unlimited(cfg), te, body, s);
            && Fits(cfg, r.te, r.body)
            && (r.status == Failed(413) <==> cfg.maxRequest != 0 && |u.body| + Pending(u.te) > cfg.maxRequest)
            && (r.status != Failed(413) ==> r == u)
    decreases |s|
  {
    hide LineStep, ChunkStep;
    var free := Unlimited(cfg);
    DecodeByStep(cfg, te, body, s);
    DecodeByStep(free, te, body, s);
    if te == 0 {
      LineUnlimited(cfg, body, s);
      var st, u := LineStep(cfg, body, s), LineStep(free, body, s);
      if st.Go? {
        LimitExact(cfg, st.te, st.body, st.rest);
      } else if u.Go? {
        TotalGrows(free, u.te, u.body, u.rest);
      }
    } else {
      ChunkTotal(te, body, s);
      var st := ChunkStep(te, body, s);
      if st.Go? {
        LimitExact(cfg, st.te, st.body, st.rest);
      }
    }
  }

  /** A refusal names its reason: a size line, just consumed, whose value no longer fits behind the body. */
  lemma {:induction false} RefusedAt(cfg: Config, te: nat, body: seq<byte>, s: seq<byte>) returns (k: nat)
    requires te != 1 && Decode(cfg, te, body, s).status == Failed(413)
    ensures var r := Decode(cfg, te, body, s);
            && |r.left| <= |s| && k < |s| - |r.left| && r.left == s[|s| - |r.left|..]
            && var line := cfg.parse(s[k..|s| - |r.left|]);
               line.Size? && cfg.maxRequest != 0 && |r.body| + line.n > cfg.maxRequest
    decreases |s|
  {
    hide LineStep, ChunkStep;
    DecodeByStep(cfg, te, body, s);
    var st := if te == 0 then LineStep(cfg, body, s) else ChunkStep(te, body, s);
    if st.Go? {
      if te == 0 {
        GoesOn(cfg, body, s, []);
      } else {
        ChunkGoesOn(te, body, s, []);
      }
      k := RefusedAt(cfg, st.te, st.body, st.rest);
      var left := Decode(cfg, st.te, st.body, st.rest).left;
      var used := |s| - |st.rest|;
      SliceOfRest(s, used, k, |left|);
      k := used + k;
    } else {
      if te != 0 { ChunkTotal(te, body, s); }
      LineRefused(cfg, body, s);
      k := 0;
    }
  }

  lemma SliceOfRest(s: seq<byte>, used: nat, k: nat, n: nat)
    requires used + k + n <= |s|
    ensures s[used..][|s| - used - n..] == s[|s| - n..]
    ensures s[used..][k..|s| - used - n] == s[used + k..|s| - n]
  {
  }

  lemma LineRefused(cfg: Config, body: seq<byte>, s: seq<byte>)
    ensures var st := LineStep(cfg, body, s);
            st.Stop? && st.r.status == Failed(413) ==>
              && 0 < |s| - |st.r.left| && st.r.left == s[|s| - |st.r.left|..] && st.r.body == body
              && var line := cfg.parse(s[..|s| - |st.r.left|]);
                 line.Size? && cfg.maxRequest != 0 && |body| + line.n > cfg.maxRequest
  {
    hide FindLf, FindBlankLine;
    var lf := FindLf(s);
    if lf >= 0 {
      LastStatus(cfg, body, s, lf + 1);
      assert |s| - |s[lf + 1..]| == lf + 1;
    }
  }

  /** However the reads fall, the limit holds. */
  lemma {:induction false} ReadsFit(cfg: Config, r: Outcome, parts: seq<seq<byte>>)
    requires r.te != 1 && Fits(cfg, r.te, r.body)
    ensures var o := ResumeAll(cfg, r, parts); Fits(cfg, o.te, o.body)
    decreases |parts|
  {
    hide Decode;
    if parts != [] {
      if r.status == More {
        LimitExact(cfg, r.te, r.body, r.left + parts[0]);
      }
      ReadsFit(cfg, Resume(cfg, r, parts[0]), parts[1..]);
    }
  }

  // ------------------------------------------------------ on the chunk queue

  /** Looks for the CRLF after chunk data: 1 found, -1 wrong bytes, 0 not enough bytes. */
  function CrlfCheck(q: Queue): int {
    if q == [] then 0
    else if q[0] == [] || q[0][0] != CR then -1
    else if |q[0]| >= 2 then (if q[0][1] == LF then 1 else -1)
    else LfCheck(q[1..])
  }

  function LfCheck(q: Queue): int {
    if q == [] then 0 else if q[0] == [] then LfCheck(q[1..]) else if q[0][0] == LF then 1 else -1
  }

  lemma {:induction false} LfCheckExact(q: Queue)
    ensures LfCheck(q) == if Flat(q) == [] then 0 else if Flat(q)[0] == LF then 1 else -1
  {
    if q != [] && q[0] == [] {
      LfCheckExact(q[1..]);
    }
  }

  /** The check sees the stream, unless an empty chunk comes first: then it always reports wrong bytes. */
  lemma CrlfCheckExact(q: Queue)
    requires |Flat(q)| >= 2
    ensures q != [] && q[0] != [] ==>
              CrlfCheck(q) == if Flat(q)[0] == CR && Flat(q)[1] == LF then 1 else -1
    ensures q != [] && q[0] == [] ==> CrlfCheck(q) == -1
  {
    if q != [] && |q[0]| == 1 {
      LfCheckExact(q[1..]);
    }
  }

  lemma {:induction false} ResumeAllNext(cfg: Config, r: Outcome, parts: seq<seq<byte>>, k: nat)
    requires r.te != 1 && k < |parts|
    ensures ResumeAll(cfg, r, parts[..k + 1]) == Resume(cfg, ResumeAll(cfg, r, parts[..k]), parts[k])
    decreases k
  {
    assert parts[..k + 1][1..] == parts[1..][..k];
    if k == 0 {
      var one := parts[..1];
      assert one[1..] == [] && parts[..0] == [];
    } else {
      assert parts[..k][1..] == parts[1..][..k - 1];
      ResumeAllNext(cfg, Resume(cfg, r, parts[0]), parts[1..], k - 1);
    }
  }

  lemma ChunkStepIs(te: nat, body: seq<byte>, s: seq<byte>, n: nat)
    requires te >= 2 && n == Min(|s|, te - 2)
    ensures var rest := s[n..];
            ChunkStep(te, body, s) ==
              if |rest| < te - n then Stop(Outcome(More, te - n, body + s[..n], rest))
              else if rest[0] != CR || rest[1] != LF then Stop(Outcome(Failed(400), 0, body + s[..n], rest))
              else Go(0, body + s[..n], rest[2..])
    ensures te == 2 ==> body + s[..n] == body && s[n..] == s
  {
  }

  lemma DecodeByStep(cfg: Config, te: nat, body: seq<byte>, s: seq<byte>)
    requires te != 1
    ensures var st := if te == 0 then LineStep(cfg, body, s) else ChunkStep(te, body, s);
            Decode(cfg, te, body, s) == if st.Stop? then st.r else Decode(cfg, st.te, st.body, st.rest)
  {
  }

  lemma FlatOfNothing()
    ensures Flat([]) == []
  {
  }

  lemma LineOfNothing(cfg: Config, body: seq<byte>)
    ensures LineStep(cfg, body, []) == Stop(Outcome(More, 0, body, []))
  {
  }

  /** What the first chunk alone says about the size line of the stream. */
  lemma LineInFirst(cfg: Config, body: seq<byte>, q: Queue)
    requires q != []
    ensures |q[0]| <= |Flat(q)|
    ensures var s, lf := Flat(q), FindLf(q[0]);
            if lf >= 0 then LineStep(cfg, body, s) == LineFound(cfg, body, s, lf + 1, cfg.parse(q[0][..lf + 1]))
            else if |q[0]| >= MAX_LINE then LineStep(cfg, body, s) == Stop(Outcome(Failed(400), 0, body, s))
            else s == q[0] ==> LineStep(cfg, body, s) == Stop(Outcome(More, 0, body, s))
  {
    hide Last, TooLarge, FindLf;
    FindLfExtend(q[0], Flat(q[1..]));
    var s, lf := Flat(q), FindLf(q[0]);
    assert s == q[0] + Flat(q[1..]);
    if lf >= 0 {
      assert s[..lf + 1] == q[0][..lf + 1];
    }
  }

  lemma CompactKeepsFirst(q: Queue)
    requires Solid(q) && CanCompact(q)
    ensures Compacted(q) != [] && |q[0]| <= |Compacted(q)[0]|
  {
    if q[1] == [] {
      NothingToJoin(q);
    }
  }

  lemma NothingToJoin(q: Queue)
    requires Solid(q) && |q| >= 2 && q[1] == []
    ensures !CanCompact(q)
  {
    assert |q| == 2;
    assert |[q[0] + q[1]] + q[2..]| == 1;
  }
}
