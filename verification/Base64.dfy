/**
  Base64 in two alphabets, sections 4 and 5 of RFC 4648, except that the URL
  alphabet pads with ".". Encoding writes groups of digits into a buffer of reserved
  size; decoding assembles bytes digit by digit.
 */
module Base64 {
  import opened Basics

  type digit = x: int | 0 <= x < 64
  type Digits = seq<digit>

  datatype Charset = Standard | Url

  // ------------------------------------------------------- bytes and digits

  /** The byte at a place, 0 behind the end. */
  ghost function At(b: Bytes, k: nat): byte { if k < |b| then b[k] else 0 }

  /** The number of digits for n bytes. */
  function DigitCount(n: nat): nat { 4 * (n / 3) + if n % 3 == 0 then 0 else 1 + n % 3 }

  /** Digit j of the encoding: six bits of the bytes from bit 6j on. */
  ghost function DigitAt(b: Bytes, j: nat): digit {
    var q := j / 4 * 3;
    if j % 4 == 0 then At(b, q) / 4
    else if j % 4 == 1 then At(b, q) % 4 * 16 + At(b, q + 1) / 16
    else if j % 4 == 2 then At(b, q + 1) % 16 * 4 + At(b, q + 2) / 64
    else At(b, q + 2) % 64
  }

  ghost function Pack(b: Bytes): (d: Digits)
    ensures |d| == DigitCount(|b|) && forall j :: 0 <= j < |d| ==> d[j] == DigitAt(b, j)
  {
    seq(DigitCount(|b|), j requires 0 <= j => DigitAt(b, j))
  }

  /** Byte k of a digit string: eight bits of the digits from bit 8k on. */
  ghost function ByteAt(d: Digits, k: nat): byte
    requires k < 3 * |d| / 4
  {
    var q := k / 3 * 4;
    var x: int, y: int := d[q + k % 3], d[q + k % 3 + 1];
    if k % 3 == 0 then x * 4 + y / 16
    else if k % 3 == 1 then x % 16 * 16 + y / 4
    else x % 4 * 64 + y
  }

  /** The whole bytes in a digit string. */
  ghost function Unpack(d: Digits): (b: Bytes)
    ensures |b| == 3 * |d| / 4 && forall k :: 0 <= k < |b| ==> b[k] == ByteAt(d, k)
  {
    seq(3 * |d| / 4, k requires 0 <= k < 3 * |d| / 4 => ByteAt(d, k))
  }

  /** The bits behind the last whole byte, at the top of a byte. */
  function Rest(d: Digits): byte {
    if |d| % 4 == 0 then 0
    else
      var x: int := d[|d| - 1];
      if |d| % 4 == 1 then x * 4
      else if |d| % 4 == 2 then x % 16 * 16
      else x % 4 * 64
  }

  /** Not one lone digit in the last group, and no bits left over. */
  ghost predicate Whole(d: Digits) { |d| % 4 != 1 && Rest(d) == 0 }

  lemma DigitSplit(x: byte, y: byte, z: byte)
    ensures x / 4 * 4 + (x % 4 * 16 + y / 16) / 16 == x
    ensures (x % 4 * 16 + y / 16) % 16 * 16 + (y % 16 * 4 + z / 64) / 4 == y
    ensures (y % 16 * 4 + z / 64) % 4 * 64 + z % 64 == z
  {
    assert (x % 4 * 16 + y / 16) / 16 == x % 4 && (x % 4 * 16 + y / 16) % 16 == y / 16;
    assert (y % 16 * 4 + z / 64) / 4 == y % 16 && (y % 16 * 4 + z / 64) % 4 == z / 64;
  }

  lemma ByteSplit(a: digit, b: digit, c: digit, d: digit)
    ensures (a * 4 + b / 16) / 4 == a
    ensures (a * 4 + b / 16) % 4 * 16 + (b % 16 * 16 + c / 4) / 16 == b
    ensures (b % 16 * 16 + c / 4) % 16 * 4 + (c % 4 * 64 + d) / 64 == c
    ensures (c % 4 * 64 + d) % 64 == d
  {
    assert (a * 4 + b / 16) % 4 == b / 16 && (b % 16 * 16 + c / 4) / 16 == b % 16;
    assert (b % 16 * 16 + c / 4) % 16 == c / 4 && (c % 4 * 64 + d) / 64 == c % 4;
  }

  lemma CountIs(n: nat)
    ensures 3 * DigitCount(n) / 4 == n && DigitCount(n) % 4 != 1
    ensures DigitCount(n) % 4 == (if n % 3 == 0 then 0 else n % 3 + 1) && DigitCount(n) / 4 == n / 3
  {
  }

  lemma CountBack(m: nat)
    requires m % 4 != 1
    ensures DigitCount(3 * m / 4) == m
  {
  }

  /** Decoding undoes encoding. */
  lemma UnpackPack(b: Bytes)
    ensures Unpack(Pack(b)) == b && Whole(Pack(b))
  {
    var d := Pack(b);
    CountIs(|b|);
    forall k | 0 <= k < |b| ensures Unpack(d)[k] == b[k] {
      UnpackPackAt(b, k);
    }
    if |d| % 4 != 0 {
      PackRest(b);
    }
  }

  lemma UnpackPackAt(b: Bytes, k: nat)
    requires k < |b|
    ensures 3 * |Pack(b)| / 4 == |b| && ByteAt(Pack(b), k) == b[k]
  {
    hide DigitAt;
    CountIs(|b|);
    var q := k / 3;
    Group(b, q);
    DigitSplit(At(b, 3 * q), At(b, 3 * q + 1), At(b, 3 * q + 2));
  }

  /** The four digits of group q. */
  lemma Group(b: Bytes, q: nat)
    ensures DigitAt(b, 4 * q) == At(b, 3 * q) / 4
    ensures DigitAt(b, 4 * q + 1) == At(b, 3 * q) % 4 * 16 + At(b, 3 * q + 1) / 16
    ensures DigitAt(b, 4 * q + 2) == At(b, 3 * q + 1) % 16 * 4 + At(b, 3 * q + 2) / 64
    ensures DigitAt(b, 4 * q + 3) == At(b, 3 * q + 2) % 64
  {
  }

  lemma PackRest(b: Bytes)
    requires |b| % 3 != 0
    ensures Rest(Pack(b)) == 0
  {
    hide DigitAt;
    var d, q := Pack(b), |b| / 3;
    CountIs(|b|);
    Group(b, q);
    assert |d| == 4 * q + 1 + |b| % 3;
    if |b| % 3 == 1 {
      assert d[|d| - 1] == At(b, 3 * q) % 4 * 16;
    } else {
      assert d[|d| - 1] == At(b, 3 * q + 1) % 16 * 4;
    }
  }

  /** Only the encoding of the bytes is accepted for them. */
  lemma PackUnpack(d: Digits)
    requires Whole(d)
    ensures Pack(Unpack(d)) == d
  {
    CountBack(|d|);
    forall j | 0 <= j < |d| ensures DigitAt(Unpack(d), j) == d[j] {
      PackUnpackAt(d, j);
    }
  }

  ghost function DAt(d: Digits, j: nat): digit { if j < |d| then d[j] else 0 }

  /** Byte k in terms of digits, with zeros behind the end. */
  lemma BytesOfGroup(d: Digits, q: nat)
    requires Whole(d) && 4 * q < |d|
    ensures var b := Unpack(d); var x, y, z, w := DAt(d, 4 * q), DAt(d, 4 * q + 1), DAt(d, 4 * q + 2), DAt(d, 4 * q + 3);
            && At(b, 3 * q) == x * 4 + y / 16
            && At(b, 3 * q + 1) == y % 16 * 16 + z / 4
            && At(b, 3 * q + 2) == z % 4 * 64 + w
  {
    NextCount(|d|);
    if 4 * q + 4 <= |d| {
      FullGroup(d, q);
    } else {
      assert q == |d| / 4;
      LastGroup(d, q);
    }
  }

  lemma FullGroup(d: Digits, q: nat)
    requires 4 * q + 4 <= |d|
    ensures 3 * q + 2 < 3 * |d| / 4
    ensures ByteAt(d, 3 * q) == d[4 * q] as int * 4 + d[4 * q + 1] / 16
    ensures ByteAt(d, 3 * q + 1) == d[4 * q + 1] as int % 16 * 16 + d[4 * q + 2] / 4
    ensures ByteAt(d, 3 * q + 2) == d[4 * q + 2] as int % 4 * 64 + d[4 * q + 3]
  {
  }

  lemma LastGroup(d: Digits, q: nat)
    requires Whole(d) && |d| % 4 != 0 && q == |d| / 4
    ensures 3 * |d| / 4 == 3 * q + |d| % 4 - 1
    ensures ByteAt(d, 3 * q) == d[4 * q] as int * 4 + d[4 * q + 1] / 16
    ensures |d| % 4 == 2 ==> d[4 * q + 1] % 16 == 0
    ensures |d| % 4 == 3 ==> ByteAt(d, 3 * q + 1) == d[4 * q + 1] as int % 16 * 16 + d[4 * q + 2] / 4 && d[4 * q + 2] % 4 == 0
  {
    NextCount(|d|);
  }

  lemma PackUnpackAt(d: Digits, j: nat)
    requires Whole(d) && j < |d|
    ensures DigitAt(Unpack(d), j) == d[j]
  {
    hide DigitAt, Whole;
    var q := j / 4;
    BytesOfGroup(d, q);
    Group(Unpack(d), q);
    ByteSplit(DAt(d, 4 * q), DAt(d, 4 * q + 1), DAt(d, 4 * q + 2), DAt(d, 4 * q + 3));
    assert j == 4 * q + j % 4;
  }

  // ------------------------------------------------------------------- text

  /** base64_standard_table and base64_url_table */
  function Letter(cs: Charset, d: digit): (c: byte)
    ensures 0 < c < 128
  {
    if d < 26 then 65 + d
    else if d < 52 then 71 + d
    else if d < 62 then d - 4
    else if d == 62 then (if cs == Standard then 43 else 45)
    else (if cs == Standard then 47 else 95)
  }

  function Pad(cs: Charset): byte { if cs == Standard then 61 else 46 }

  const INVALID := -1
  const SKIP := -2
  const PADDING := -3

  /** The reverse tables. */
  function Reverse(cs: Charset, c: byte): (r: int)
    requires c < 128
    ensures -3 <= r < 64
  {
    if c == 0 then INVALID
    else if c <= 32 then SKIP
    else if 65 <= c <= 90 then c - 65
    else if 97 <= c <= 122 then c - 71
    else if 48 <= c <= 57 then c + 4
    else match cs
      case Standard => if c == 43 then 62 else if c == 47 then 63 else if c == 61 then PADDING else INVALID
      case Url => if c == 45 then 62 else if c == 95 then 63 else if c == 46 then PADDING else INVALID
  }

  lemma ReverseLetter(cs: Charset, d: digit)
    ensures Reverse(cs, Letter(cs, d)) == d && Reverse(cs, Pad(cs)) == PADDING && Pad(cs) < 128
  {
  }

  lemma LetterReverse(cs: Charset, c: byte)
    requires c < 128 && Reverse(cs, c) >= 0
    ensures Letter(cs, Reverse(cs, c)) == c
  {
  }

  const UPPER: string := "ABCDEFGHIJKLMNOPQRSTUVWXYZ"
  const LOWER: string := "abcdefghijklmnopqrstuvwxyz"
  const DIGITS: string := "0123456789"

  /** The table of an alphabet: 64 letters and the padding character. */
  ghost function Table(cs: Charset): (t: string)
    ensures |t| == 65
  {
    UPPER + LOWER + DIGITS + if cs == Standard then "+/=" else "-_."
  }

  lemma Alphabet(d: nat)
    ensures d < 26 ==> UPPER[d] as int == 65 + d && LOWER[d] as int == 97 + d
  {
  }

  lemma Numerals(d: nat)
    ensures d < 10 ==> DIGITS[d] as int == 48 + d
  {
  }

  /** The letter of a digit is the one at its place in the table. */
  lemma LetterInTable(cs: Charset, d: digit)
    ensures Letter(cs, d) as char == Table(cs)[d]
    ensures Pad(cs) as char == Table(cs)[64]
  {
    if d < 26 {
      Alphabet(d);
    } else if d < 52 {
      Alphabet(d - 26);
    } else if d < 62 {
      Numerals(d - 52);
    }
  }

  /** The reverse table: the place of a letter, white space and control characters, padding, anything else. */
  lemma ReverseIs(cs: Charset, c: byte)
    requires c < 128
    ensures Reverse(cs, c) >= 0 ==> Table(cs)[Reverse(cs, c)] as int == c
    ensures forall d: digit :: Table(cs)[d] as int == c ==> Reverse(cs, c) == d
    ensures Reverse(cs, c) == PADDING <==> Table(cs)[64] as int == c
    ensures Reverse(cs, c) == SKIP <==> 0 < c <= ' ' as int
  {
    hide Table;
    LetterInTable(cs, 0);
    if Reverse(cs, c) >= 0 {
      LetterReverse(cs, c);
      LetterInTable(cs, Reverse(cs, c));
    }
    forall d: digit | Table(cs)[d] as int == c ensures Reverse(cs, c) == d {
      LetterInTable(cs, d);
      ReverseLetter(cs, d);
    }
  }

  /** The bits of four digits are the bits of their three bytes. */
  lemma GroupNumber(b: Bytes, q: nat)
    ensures 0x1_0000 * At(b, 3 * q) + 0x100 * At(b, 3 * q + 1) + At(b, 3 * q + 2)
         == 0x4_0000 * DigitAt(b, 4 * q) + 0x1000 * DigitAt(b, 4 * q + 1) + 0x40 * DigitAt(b, 4 * q + 2) + DigitAt(b, 4 * q + 3)
  {
    Group(b, q);
    var x: int, y: int, z: int := At(b, 3 * q), At(b, 3 * q + 1), At(b, 3 * q + 2);
    assert x == x / 4 * 4 + x % 4 && y == y / 16 * 16 + y % 16 && z == z / 64 * 64 + z % 64;
  }

  ghost predicate Stops(cs: Charset, c: byte) { c == 0 || (c < 128 && Reverse(cs, c) == PADDING) }

  ghost predicate Allowed(cs: Charset, c: byte) { c < 128 && (Reverse(cs, c) >= 0 || Reverse(cs, c) == SKIP) }

  /** The place of the first padding character or NUL. */
  ghost function End(cs: Charset, text: Bytes): (e: nat)
    ensures e <= |text| && (e < |text| ==> Stops(cs, text[e])) && forall i :: 0 <= i < e ==> !Stops(cs, text[i])
  {
    if text == [] || Stops(cs, text[0]) then 0 else
      var e := 1 + End(cs, text[1..]);
      assert forall i :: 0 < i < |text| ==> text[i] == text[1..][i - 1];
      e
  }

  /** The digits in a text; other characters are skipped. */
  ghost function DigitsIn(cs: Charset, text: Bytes): Digits {
    if text == [] then []
    else
      var d, c := DigitsIn(cs, text[..|text| - 1]), text[|text| - 1];
      if c < 128 && Reverse(cs, c) >= 0 then d + [Reverse(cs, c)] else d
  }

  /** A text is accepted if up to its end there are digits and white space only, and the digits make whole bytes. */
  ghost predicate Accepted(cs: Charset, text: Bytes) {
    var e := End(cs, text);
    var d := DigitsIn(cs, text[..e]);
    && (forall i :: 0 <= i < e ==> Allowed(cs, text[i]))
    && (e < |text| && text[e] != 0 ==> |d| % 4 >= 2)
    && Whole(d)
  }

  ghost function Decoded(cs: Charset, text: Bytes): Option<Bytes> {
    if Accepted(cs, text) then Some(Unpack(DigitsIn(cs, text[..End(cs, text)]))) else None
  }

  ghost function Letters(cs: Charset, d: Digits): (t: Bytes)
    ensures |t| == |d| && forall i :: 0 <= i < |t| ==> t[i] == Letter(cs, d[i])
  {
    seq(|d|, i requires 0 <= i < |d| => Letter(cs, d[i]))
  }

  ghost function Encoded(cs: Charset, b: Bytes): Bytes { Letters(cs, Pack(b)) }

  ghost function Padded(cs: Charset, b: Bytes): Bytes {
    Encoded(cs, b) + seq(if |b| % 3 == 0 then 0 else 3 - |b| % 3, i => Pad(cs))
  }

  lemma {:induction false} DigitsInLetters(cs: Charset, d: Digits)
    ensures DigitsIn(cs, Letters(cs, d)) == d
  {
    if d != [] {
      var n := |d| - 1;
      DigitsInLetters(cs, d[..n]);
      assert Letters(cs, d)[..n] == Letters(cs, d[..n]);
      ReverseLetter(cs, d[n]);
      assert d == d[..n] + [d[n]];
    }
  }

  lemma EndIs(cs: Charset, text: Bytes, e: nat)
    requires e <= |text| && (e < |text| ==> Stops(cs, text[e])) && forall i :: 0 <= i < e ==> !Stops(cs, text[i])
    ensures End(cs, text) == e
  {
    hide End;
    var e' := End(cs, text);
  }

  /** What the decoder makes of the letters of a digit string, followed by nothing or by padding. */
  lemma LettersDecode(cs: Charset, d: Digits, rest: Bytes)
    requires Whole(d) && (rest == [] || (rest[0] == Pad(cs) && |d| % 4 >= 2))
    ensures Decoded(cs, Letters(cs, d) + rest) == Some(Unpack(d))
  {
    hide End, DigitsIn, Unpack, Whole, Reverse, Letter;
    var t := Letters(cs, d) + rest;
    forall i | 0 <= i < |d| ensures Allowed(cs, t[i]) && !Stops(cs, t[i]) {
      ReverseLetter(cs, d[i]);
    }
    if rest != [] {
      ReverseLetter(cs, 0);
      assert t[|d|] == Pad(cs);
    }
    EndIs(cs, t, |d|);
    assert t[..|d|] == Letters(cs, d);
    DigitsInLetters(cs, d);
  }

  /** Round trip, with and without padding. */
  lemma RoundTrip(cs: Charset, b: Bytes)
    ensures Decoded(cs, Encoded(cs, b)) == Some(b) && Decoded(cs, Padded(cs, b)) == Some(b)
  {
    UnpackPack(b);
    CountIs(|b|);
    LettersDecode(cs, Pack(b), []);
    assert Encoded(cs, b) + [] == Encoded(cs, b);
    LettersDecode(cs, Pack(b), seq(if |b| % 3 == 0 then 0 else 3 - |b| % 3, i => Pad(cs)));
  }

  /** An accepted text is the encoding of what it decodes to, but for skipped characters and what follows its end. */
  lemma Canonical(cs: Charset, text: Bytes)
    requires Decoded(cs, text).Some?
    ensures DigitsIn(cs, text[..End(cs, text)]) == Pack(Decoded(cs, text).value)
  {
    PackUnpack(DigitsIn(cs, text[..End(cs, text)]));
  }

  /** Without white space: the very same characters. */
  lemma CanonicalText(cs: Charset, text: Bytes)
    requires Decoded(cs, text).Some? && forall i :: 0 <= i < End(cs, text) ==> text[i] > 32
    ensures text[..End(cs, text)] == Encoded(cs, Decoded(cs, text).value)
  {
    hide End;
    var e := End(cs, text);
    Canonical(cs, text);
    AllDigits(cs, text[..e]);
  }

  lemma NotSkipped(cs: Charset, c: byte)
    requires 32 < c < 128
    ensures Reverse(cs, c) != SKIP
  {
  }

  lemma {:induction false} AllDigits(cs: Charset, text: Bytes)
    requires forall i :: 0 <= i < |text| ==> Allowed(cs, text[i]) && text[i] > 32
    ensures text == Letters(cs, DigitsIn(cs, text))
  {
    hide Letter, Reverse, Letters;
    if text != [] {
      var n := |text| - 1;
      var d, c := DigitsIn(cs, text[..n]), text[n];
      AllDigits(cs, text[..n]);
      assert Reverse(cs, c) != SKIP by { NotSkipped(cs, c); }
      LetterReverse(cs, c);
      assert Letters(cs, d + [Reverse(cs, c)]) == Letters(cs, d) + [c];
      assert text == text[..n] + [c];
    }
  }

  /** The digit strings that are accepted are the ones encoding produces. */
  lemma WholeIff(d: Digits)
    ensures Whole(d) <==> exists b :: Pack(b) == d
  {
    hide Whole;
    if Whole(d) {
      PackUnpack(d);
    }
    if b :| Pack(b) == d {
      UnpackPack(b);
    }
  }

  /**
    Letters and then something that is neither a letter nor white space: accepted
    exactly if the digits are an encoding and what follows is nothing, a NUL, or
    padding after two or three digits of the last group.
   */
  lemma DecodesExactly(cs: Charset, d: Digits, rest: Bytes)
    requires rest == [] || (rest[0] > ' ' as int && rest[0] as char !in Table(cs)[..64]) || rest[0] == NUL
    ensures Decoded(cs, Letters(cs, d) + rest) ==
              if (exists b :: Pack(b) == d) && (rest == [] || rest[0] == NUL || (rest[0] as char == Table(cs)[64] && |d| % 4 >= 2))
              then Some(Unpack(d)) else None
  {
    hide End, DigitsIn, Unpack, Whole, Reverse, Letter, Table, Pack;
    WholeIff(d);
    var t := Letters(cs, d) + rest;
    forall i | 0 <= i < |d| ensures Allowed(cs, t[i]) && !Stops(cs, t[i]) {
      ReverseLetter(cs, d[i]);
    }
    LetterInTable(cs, 0);
    if rest != [] {
      assert t[|d|] == rest[0];
      NotALetter(cs, rest[0]);
    }
    if rest != [] && !Stops(cs, rest[0]) {
      Refused(cs, t, |d|);
    } else {
      EndIs(cs, t, |d|);
      assert t[..|d|] == Letters(cs, d);
      DigitsInLetters(cs, d);
    }
  }

  lemma NotALetter(cs: Charset, c: byte)
    requires c == NUL || (c > ' ' as int && c as char !in Table(cs)[..64])
    ensures Stops(cs, c) <==> c == NUL || c as char == Table(cs)[64]
    ensures !Stops(cs, c) ==> !Allowed(cs, c)
  {
    hide Reverse, Letter, Table;
    LetterInTable(cs, 0);
    if c < 128 {
      ReverseIs(cs, c);
      if Reverse(cs, c) >= 0 {
        assert Table(cs)[..64][Reverse(cs, c)] as int == c;
      }
    }
    assert Table(cs)[64] as int == Pad(cs) < 128;
  }

  // ------------------------------------------------------------------- loops

  /** Three bytes as one number, six bits at a time from the low end. */
  lemma Tuple(x: byte, y: byte, z: byte)
    ensures var v: int := 0x1_0000 * x + 0x100 * y + z;
            && v % 64 == z % 64 && v / 64 % 64 == y % 16 * 4 + z / 64
            && v / 64 / 64 % 64 == x % 4 * 16 + y / 16 && v / 64 / 64 / 64 % 64 == x / 4
  {
    var a: int, b: int, c: int := x, y, z;
    Low6(1024 * a + 4 * b + c / 64, c % 64);
    Low6(16 * a + b / 16, b % 16 * 4 + c / 64);
    Low6(a / 4, a % 4 * 16 + b / 16);
  }

  lemma Low6(a: nat, b: nat)
    requires b < 64
    ensures (64 * a + b) / 64 == a && (64 * a + b) % 64 == b
  {
  }

  /** One full group: four letters for three bytes. */
  method PutGroup(out: array<byte>, pos: nat, x: int, y: int, z: int, cs: Charset)
    requires pos + 4 <= out.Length && 0 <= x < 256 && 0 <= y < 256 && 0 <= z < 256
    modifies out
    ensures out[pos] == Letter(cs, x / 4) && out[pos + 1] == Letter(cs, x % 4 * 16 + y / 16)
    ensures out[pos + 2] == Letter(cs, y % 16 * 4 + z / 64) && out[pos + 3] == Letter(cs, z % 64)
    ensures forall k :: 0 <= k < pos || pos + 4 <= k < out.Length ==> out[k] == old(out[k])
  {
    hide Letter;
    Tuple(x, y, z);
    var v := 0x1_0000 * x + 0x100 * y + z;
    out[pos + 3] := Letter(cs, v % 64);
    v := v / 64;
    out[pos + 2] := Letter(cs, v % 64);
    v := v / 64;
    out[pos + 1] := Letter(cs, v % 64);
    v := v / 64;
    out[pos] := Letter(cs, v % 64);
  }

  lemma OneLeft(b: byte)
    ensures var x: int := b; 16 * x % 64 == x % 4 * 16 && 16 * x / 64 % 64 == x / 4
  {
    var x: int := b;
    Low6(x / 4, x % 4 * 16);
  }

  lemma TwoLeft(a: byte, b: byte)
    ensures var x: int, y: int := a, b;
            var v := 1024 * x + 4 * y;
            v % 64 == y % 16 * 4 && v / 64 % 64 == x % 4 * 16 + y / 16 && v / 64 / 64 % 64 == x / 4
  {
    var x: int, y: int := a, b;
    Low6(16 * x + y / 16, y % 16 * 4);
    Low6(x / 4, x % 4 * 16 + y / 16);
  }

  /** The letters for one or two last bytes. */
  method PutRest(out: array<byte>, pos: nat, input: Bytes, i: nat, cs: Charset) returns (pos': nat)
    requires i < |input| <= i + 2 && pos + 1 + |input| - i <= out.Length
    modifies out
    ensures pos' == pos + 1 + |input| - i
    ensures out[pos] == Letter(cs, At(input, i) / 4) && out[pos + 1] == Letter(cs, At(input, i) % 4 * 16 + At(input, i + 1) / 16)
    ensures pos' == pos + 3 ==> out[pos + 2] == Letter(cs, At(input, i + 1) % 16 * 4)
    ensures forall k :: 0 <= k < pos || pos' <= k < out.Length ==> out[k] == old(out[k])
  {
    hide Letter;
    var x: int := input[i];
    if |input| - i == 1 {
      var v := 16 * x;
      OneLeft(input[i]);
      out[pos + 1] := Letter(cs, v % 64);
      v := v / 64;
      out[pos] := Letter(cs, v % 64);
      return pos + 2;
    }
    var y: int := input[i + 1];
    var v := 1024 * x + 4 * y;
    TwoLeft(input[i], input[i + 1]);
    out[pos + 2] := Letter(cs, v % 64);
    v := v / 64;
    out[pos + 1] := Letter(cs, v % 64);
    v := v / 64;
    out[pos] := Letter(cs, v % 64);
    return pos + 3;
  }

  /** The first letters are those of the encoding, and what is behind them is untouched. */
  twostate predicate Written(out: array<byte>, pos: nat, input: Bytes, cs: Charset)
    reads out
  {
    && pos <= out.Length
    && (forall j :: 0 <= j < pos ==> out[j] == Letter(cs, DigitAt(input, j)))
    && (forall k :: pos <= k < out.Length ==> out[k] == old(out[k]))
  }

  /** All full groups. */
  method PutGroups(out: array<byte>, input: Bytes, cs: Charset) returns (outPos: nat, i: nat)
    requires 4 * (|input| / 3) <= out.Length
    modifies out
    ensures outPos == 4 * (|input| / 3) && i == 3 * (|input| / 3) + 2
    ensures Written(out, outPos, input, cs)
  {
    hide Letter, DigitAt;
    var n := |input|;
    ghost var q, m := 0, n / 3;
    outPos, i := 0, 2;
    while i < n
      invariant q <= m && i == 3 * q + 2 && outPos == 4 * q
      invariant Written(out, outPos, input, cs)
    {
      Group(input, q);
      PutGroup(out, outPos, input[i - 2], input[i - 1], input[i], cs);
      i, outPos, q := i + 3, outPos + 4, q + 1;
    }
  }

  /** li_to_base64_no_padding, into a buffer with enough room. */
  method ToBase64NoPadding(out: array<byte>, outLength: nat, input: Bytes, cs: Charset) returns (outPos: nat)
    requires DigitCount(|input|) <= outLength <= out.Length
    modifies out
    ensures outPos == DigitCount(|input|) && out[..outPos] == Encoded(cs, input)
    ensures forall k :: outPos <= k < out.Length ==> out[k] == old(out[k])
  {
    hide Letter, DigitAt;
    var i;
    outPos, i := PutGroups(out, input, cs);
    Group(input, |input| / 3);
    if |input| % 3 != 0 {
      outPos := PutRest(out, outPos, input, i - 2, cs);
    }
    assert Written(out, outPos, input, cs);
  }

  /** li_to_base64 */
  method ToBase64(out: array<byte>, outLength: nat, input: Bytes, cs: Charset) returns (outPos: nat)
    requires 4 * ((|input| + 2) / 3) <= outLength <= out.Length
    modifies out
    ensures outPos == 4 * ((|input| + 2) / 3) && out[..outPos] == Padded(cs, input)
    ensures forall k :: outPos <= k < out.Length ==> out[k] == old(out[k])
  {
    hide Letter, Pack;
    var paddingLength: nat := if |input| % 3 != 0 then 3 - |input| % 3 else 0;
    outPos := ToBase64NoPadding(out, outLength - paddingLength, input, cs);
    ghost var text, all := out[..outPos], paddingLength;
    while paddingLength > 0
      invariant paddingLength <= all && outPos == |text| + all - paddingLength
      invariant out[..outPos] == text + seq(all - paddingLength, i => Pad(cs))
      invariant forall k :: outPos <= k < out.Length ==> out[k] == old(out[k])
    {
      out[outPos] := Pad(cs);
      outPos := outPos + 1;
      paddingLength := paddingLength - 1;
    }
  }

  /** One digit more completes a byte or begins one. */
  lemma NextDigit(d: Digits, ch: digit)
    ensures var n, e := |d|, d + [ch];
            && 3 * (n + 1) / 4 == 3 * n / 4 + (if n % 4 == 0 then 0 else 1) && (n + 1) % 4 == (if n % 4 == 3 then 0 else n % 4 + 1)
            && (forall k :: 0 <= k < 3 * n / 4 ==> ByteAt(e, k) == ByteAt(d, k))
            && (n % 4 == 1 ==> ByteAt(e, 3 * n / 4) == Rest(d) + ch / 16)
            && (n % 4 == 2 ==> ByteAt(e, 3 * n / 4) == Rest(d) + ch / 4)
            && (n % 4 == 3 ==> ByteAt(e, 3 * n / 4) == Rest(d) + ch)
  {
    hide ByteAt;
    var n, e := |d|, d + [ch];
    NextCount(n);
    forall k | 0 <= k < 3 * n / 4 ensures ByteAt(e, k) == ByteAt(d, k) {
      SameByte(d, ch, k);
    }
    if n % 4 != 0 {
      NextByte(d, ch);
    }
  }

  lemma NextCount(n: nat)
    ensures 3 * n / 4 == 3 * (n / 4) + (if n % 4 == 0 then 0 else n % 4 - 1)
    ensures 3 * (n + 1) / 4 == 3 * n / 4 + (if n % 4 == 0 then 0 else 1)
  {
    var q, r := n / 4, n % 4;
    assert n == 4 * q + r;
  }

  lemma SameByte(d: Digits, ch: digit, k: nat)
    requires k < 3 * |d| / 4
    ensures k < 3 * |d + [ch]| / 4 && ByteAt(d + [ch], k) == ByteAt(d, k)
  {
    NextCount(|d|);
    assert k / 3 * 4 + k % 3 + 1 < |d|;
  }

  lemma NextByte(d: Digits, ch: digit)
    requires |d| % 4 != 0
    ensures var n, e := |d|, d + [ch];
            && 3 * n / 4 < 3 * |e| / 4
            && ByteAt(e, 3 * n / 4) == Rest(d) + (if n % 4 == 1 then ch / 16 else if n % 4 == 2 then ch / 4 else ch)
  {
    var n, e, q := |d|, d + [ch], |d| / 4;
    NextCount(n);
    assert e[n] == ch && e[n - 1] == d[n - 1];
    assert 3 * n / 4 / 3 == q && 3 * n / 4 % 3 == n % 4 - 1;
  }

  /** A digit's bits go to the byte begun and to the next one; they do not overlap with those already there. */
  method PutDigit(result: array<byte>, pos: nat, group: nat, ch: digit, ghost d: Digits) returns (pos': nat, group': nat)
    requires group == |d| % 4 && pos == 3 * |d| / 4 && pos + 1 < result.Length + (if group == 0 || group == 3 then 1 else 0)
    requires (forall k :: 0 <= k < pos ==> result[k] == ByteAt(d, k)) && (group != 0 ==> result[pos] == Rest(d))
    modifies result
    ensures group' == |d + [ch]| % 4 && pos' == 3 * |d + [ch]| / 4 && pos' <= result.Length
    ensures forall k :: 0 <= k < pos' ==> result[k] == ByteAt(d + [ch], k)
    ensures group' != 0 ==> pos' < result.Length && result[pos'] == Rest(d + [ch])
  {
    hide ByteAt, Rest;
    NextDigit(d, ch);
    NextRest(d, ch);
    var x: int := ch;
    match group {
      case 0 =>
        result[pos] := x * 4;
        return pos, 1;
      case 1 =>
        result[pos] := result[pos] + x / 16;
        result[pos + 1] := x % 16 * 16;
        return pos + 1, 2;
      case 2 =>
        result[pos] := result[pos] + x / 4;
        result[pos + 1] := x % 4 * 64;
        return pos + 1, 3;
      case 3 =>
        result[pos] := result[pos] + x;
        return pos + 1, 0;
    }
  }

  /** buffer_append_base64_decode: the bytes to append, or nothing. */
  method Decode(input: Bytes, cs: Charset) returns (r: Option<Bytes>)
    ensures r == Decoded(cs, input)
  {
    hide Reverse, ByteAt, Rest, End, Unpack;
    var result := new byte[3 * (|input| / 4) + 3](_ => 0);
    var outPos, group: nat := 0, 0;
    var i := 0;
    ghost var d: Digits := [];
    while i < |input|
      invariant i <= |input| && d == DigitsIn(cs, input[..i]) && |d| <= i && group == |d| % 4 && outPos == 3 * |d| / 4
      invariant forall j :: 0 <= j < i ==> Allowed(cs, input[j]) && !Stops(cs, input[j])
      invariant forall k :: 0 <= k < outPos ==> result[k] == ByteAt(d, k)
      invariant group != 0 ==> result[outPos] == Rest(d)
    {
      var c := input[i];
      if c == 0 { break; }
      if c >= 128 {
        Refused(cs, input, i);
        return None;
      }
      var ch := Reverse(cs, c);
      if ch == PADDING {
        if group < 2 {
          EndIs(cs, input, i);
          return None;
        }
        break;
      }
      assert input[..i + 1][..i] == input[..i];
      if ch == SKIP {
        i := i + 1;
        continue;
      } else if ch < 0 {
        Refused(cs, input, i);
        return None;
      }
      outPos, group := PutDigit(result, outPos, group, ch, d);
      d := d + [ch];
      i := i + 1;
    }
    EndIs(cs, input, i);
    if group == 1 {
      return None;
    }
    if group != 0 && result[outPos] != 0 {
      return None;
    }
    NoRest(d);
    assert result[..outPos] == Unpack(d);
    return Some(result[..outPos]);
  }

  lemma NextRest(d: Digits, ch: digit)
    ensures var x: int := ch; var e := d + [ch];
            && (|d| % 4 == 0 ==> Rest(e) == x * 4) && (|d| % 4 == 1 ==> Rest(e) == x % 16 * 16) && (|d| % 4 == 2 ==> Rest(e) == x % 4 * 64)
  {
  }

  lemma NoRest(d: Digits)
    ensures |d| % 4 == 0 ==> Rest(d) == 0
  {
  }

  /** A character that is not allowed before the end. */
  lemma Refused(cs: Charset, text: Bytes, i: nat)
    requires i < |text| && !Allowed(cs, text[i]) && !Stops(cs, text[i]) && forall j :: 0 <= j < i ==> !Stops(cs, text[j])
    ensures Decoded(cs, text) == None
  {
    hide End, DigitsIn, Whole;
    var e := End(cs, text);
    assert i < e || e == |text|;
  }
}
