/**
  The streaming digests SHA-1 and MD5: bytes arrive in pieces, whole blocks go
  through the compression step, the rest waits in a buffer. The compression step is
  given from outside; the digest is that of the padded message absorbed at once.
 */
module Digest {
  import opened Basics

  type word = x: int | 0 <= x < W
  type Words = seq<word>

  const W: int := 0x1_0000_0000
  const WW: int := 0x1_0000_0000_0000_0000

  type Compress = (Words, Bytes) -> Words

  // ---------------------------------------------------------------- one shot

  /** The compression step folded over the whole blocks of `data`; a shorter rest is ignored. */
  ghost function Absorb(f: Compress, s: Words, data: Bytes): Words
    decreases |data|
  {
    if |data| < 64 then s else Absorb(f, f(s, data[..64]), data[64..])
  }

  ghost function Zeros(n: nat): (z: Bytes)
    ensures |z| == n && forall i :: 0 <= i < n ==> z[i] == 0
  {
    seq(n, i => 0)
  }

  /** The number of zero bytes that bring the length to 56 modulo 64 after the first padding byte. */
  ghost function ZeroCount(n: nat): (k: nat)
    ensures (n + 1 + k) % 64 == 56 && k < 64
  {
    (119 - n % 64) % 64
  }

  /** A message with its padding; `bits` is the encoded length. */
  ghost function Padded(m: Bytes, bits: Bytes): Bytes {
    m + [128] + Zeros(ZeroCount(|m|)) + bits
  }

  /** The bytes of a word, most significant first. */
  function BigEndian(w: word): (b: Bytes)
    ensures |b| == 4
  {
    [w / 0x100_0000 % 256, w / 0x1_0000 % 256, w / 0x100 % 256, w % 256]
  }

  function LittleEndian(w: word): (b: Bytes)
    ensures |b| == 4
  {
    [w % 256, w / 0x100 % 256, w / 0x1_0000 % 256, w / 0x100_0000 % 256]
  }

  ghost function AllBig(ws: Words): (b: Bytes)
    ensures |b| == 4 * |ws|
  {
    if ws == [] then [] else BigEndian(ws[0]) + AllBig(ws[1..])
  }

  ghost function AllLittle(ws: Words): (b: Bytes)
    ensures |b| == 4 * |ws|
  {
    if ws == [] then [] else LittleEndian(ws[0]) + AllLittle(ws[1..])
  }

  /** The length in bits, modulo 2^64, as two words. */
  ghost function High(n: nat): word { 8 * n % WW / W }
  ghost function Low(n: nat): word { 8 * n % W }

  const SHA1_INIT: Words := [0x67452301, 0xEFCDAB89, 0x98BADCFE, 0x10325476, 0xC3D2E1F0]
  const MD5_INIT: Words := [0x67452301, 0xefcdab89, 0x98badcfe, 0x10325476]

  /** Section 4 of RFC 3174. */
  ghost function Sha1(f: Compress, m: Bytes): Bytes {
    AllBig(Absorb(f, SHA1_INIT, Padded(m, BigEndian(High(|m|)) + BigEndian(Low(|m|)))))
  }

  /** Sections 3.1 to 3.5 of RFC 1321. */
  ghost function Md5(f: Compress, m: Bytes): Bytes {
    AllLittle(Absorb(f, MD5_INIT, Padded(m, LittleEndian(Low(|m|)) + LittleEndian(High(|m|)))))
  }

  // --------------------------------------------------------------- absorbing

  lemma {:induction false} AbsorbRest(f: Compress, s: Words, a: Bytes, b: Bytes)
    requires |a| % 64 == 0
    ensures Absorb(f, s, a + b) == Absorb(f, Absorb(f, s, a), b)
    decreases |a|
  {
    if a == [] {
      assert a + b == b;
    } else {
      assert (a + b)[..64] == a[..64] && (a + b)[64..] == a[64..] + b;
      AbsorbRest(f, f(s, a[..64]), a[64..], b);
    }
  }

  lemma AbsorbShort(f: Compress, s: Words, a: Bytes, t: Bytes)
    requires |a| % 64 == 0 && |t| < 64
    ensures Absorb(f, s, a + t) == Absorb(f, s, a)
  {
    AbsorbRest(f, s, a, t);
  }

  lemma AbsorbBlock(f: Compress, s: Words, a: Bytes, b: Bytes)
    requires |a| % 64 == 0 && |b| == 64
    ensures Absorb(f, s, a + b) == f(Absorb(f, s, a), b)
  {
    AbsorbRest(f, s, a, b);
    assert b[..64] == b && b[64..] == [];
  }

  lemma {:induction false} AbsorbSize(f: Compress, s: Words, data: Bytes, n: nat)
    requires |s| == n && forall t, b :: |t| == n ==> |f(t, b)| == n
    ensures |Absorb(f, s, data)| == n
    decreases |data|
  {
    if |data| >= 64 {
      AbsorbSize(f, f(s, data[..64]), data[64..], n);
    }
  }

  /** The whole blocks of a message, and the rest. */
  ghost function Blocks(m: Bytes): (a: Bytes)
    ensures |a| % 64 == 0 && |m| - |a| == |m| % 64
  {
    m[..|m| - |m| % 64]
  }

  ghost function Tail(m: Bytes): (t: Bytes)
    ensures |t| == |m| % 64 && m == Blocks(m) + t
  {
    m[|m| - |m| % 64..]
  }

  lemma SplitIs(m: Bytes, a: Bytes, t: Bytes)
    requires m == a + t && |a| % 64 == 0 && |t| < 64
    ensures Blocks(m) == a && Tail(m) == t
  {
    assert |m| % 64 == |t|;
  }

  /** Too little for a block: it only waits. */
  lemma Waits(f: Compress, s: Words, m: Bytes, d: Bytes)
    requires |m| % 64 + |d| < 64
    ensures Absorb(f, s, m + d) == Absorb(f, s, m) && Tail(m + d) == Tail(m) + d
  {
    var a, t := Blocks(m), Tail(m);
    assert m + d == a + (t + d);
    AbsorbShort(f, s, a, t);
    AbsorbShort(f, s, a, t + d);
    SplitIs(m + d, a, t + d);
  }

  /** The waiting bytes are filled up to a block. */
  lemma Completes(f: Compress, s: Words, m: Bytes, d: Bytes)
    requires |m| % 64 + |d| == 64
    ensures Absorb(f, s, m + d) == f(Absorb(f, s, m), Tail(m) + d) && |m + d| % 64 == 0
  {
    var a, t := Blocks(m), Tail(m);
    assert m + d == a + (t + d);
    AbsorbShort(f, s, a, t);
    AbsorbBlock(f, s, a, t + d);
  }

  // ------------------------------------------------------------------- length

  /** The two-word addition with carry counts bits modulo 2^64. */
  lemma CountAdds(m: nat, len: nat, low: word, high: word, low': word, high': word)
    requires low == Low(m) && high == High(m) && len < W
    requires low' == (low + len * 8 % W) % W
    requires high' == (high + (if low' < len * 8 % W then 1 else 0) + len / 0x2000_0000) % W
    ensures low' == Low(m + len) && high' == High(m + len)
  {
    var add, hi := len * 8 % W, len / 0x2000_0000;
    Shifted3(len);
    var carry := if low' < add then 1 else 0;
    CarryIs(low, add, low');
    Halves(8 * m);
    var q := 8 * m / WW;
    var sum := high + carry + hi;
    HighPart(q, sum, low');
    assert 8 * (m + len) == WW * q + W * sum + low';
    Parts(8 * (m + len), q + sum / W, high', low');
  }

  /** A length in bits as two words. */
  lemma Shifted3(len: nat)
    requires len < W
    ensures 8 * len == len * 8 % W + W * (len / 0x2000_0000)
  {
  }

  /** The carry is seen from the wrapped sum. */
  lemma CarryIs(low: word, add: word, low': word)
    requires low' == (low + add) % W
    ensures low + add == low' + W * (if low' < add then 1 else 0)
  {
  }

  lemma HighPart(q: nat, sum: nat, low: word)
    ensures WW * q + W * sum + low == WW * (q + sum / W) + W * (sum % W) + low
  {
    assert sum == W * (sum / W) + sum % W;
  }

  lemma CarryAdds(h: word, carry: nat, hi: nat)
    requires carry <= 1
    ensures ((h + carry) % W + hi) % W == (h + carry + hi) % W
  {
    if h + carry < W {
      assert (h + carry) % W == h + carry;
    } else {
      assert h + carry == W;
      Wraps(hi);
    }
  }

  lemma Wraps(x: nat)
    ensures (W + x) % W == x % W && W % W == 0
  {
  }

  lemma Halves(x: nat)
    ensures x == WW * (x / WW) + W * (x % WW / W) + x % W
  {
  }

  lemma Parts(x: nat, q: nat, high: word, low: word)
    requires x == WW * q + W * high + low
    ensures x % W == low && x % WW / W == high
  {
  }

  // ---------------------------------------- the padded text and its digest, by meaning

  /** The number that bytes are, the first one weighing most. */
  ghost function BigNumber(b: Bytes): nat {
    if b == [] then 0 else 256 * BigNumber(b[..|b| - 1]) + b[|b| - 1]
  }

  /** The number that bytes are, the first one weighing least. */
  ghost function LittleNumber(b: Bytes): nat {
    if b == [] then 0 else b[0] + 256 * LittleNumber(b[1..])
  }

  /** The message, 128, zeros, and eight more bytes, in as few blocks as these need. */
  ghost predicate Blocked(m: Bytes, t: Bytes) {
    && |t| % 64 == 0 && |m| + 9 <= |t| < |m| + 9 + 64
    && m <= t && t[|m|] == 128
    && forall i :: |m| < i < |t| - 8 ==> t[i] == 0
  }

  /** The last eight bytes are the length in bits modulo 2^64, most significant byte first. */
  ghost predicate Sha1Text(m: Bytes, t: Bytes) {
    Blocked(m, t) && BigNumber(t[|t| - 8..]) == 8 * |m| % 0x1_0000_0000_0000_0000
  }

  /** The same, least significant byte first. */
  ghost predicate Md5Text(m: Bytes, t: Bytes) {
    Blocked(m, t) && LittleNumber(t[|t| - 8..]) == 8 * |m| % 0x1_0000_0000_0000_0000
  }

  ghost predicate BigBytes(ws: Words, b: Bytes) {
    |b| == 4 * |ws| && forall i :: 0 <= i < |ws| ==> BigNumber(b[4 * i..4 * i + 4]) == ws[i]
  }

  ghost predicate LittleBytes(ws: Words, b: Bytes) {
    |b| == 4 * |ws| && forall i :: 0 <= i < |ws| ==> LittleNumber(b[4 * i..4 * i + 4]) == ws[i]
  }

  /** The bytes of the words left by a padded text: section 4 of RFC 3174. */
  ghost predicate IsSha1(f: Compress, m: Bytes, digest: Bytes) {
    exists t :: Sha1Text(m, t) && BigBytes(Absorb(f, SHA1_INIT, t), digest)
  }

  /** Sections 3.1 to 3.5 of RFC 1321. */
  ghost predicate IsMd5(f: Compress, m: Bytes, digest: Bytes) {
    exists t :: Md5Text(m, t) && LittleBytes(Absorb(f, MD5_INIT, t), digest)
  }

  /** MD5 starts from the bytes 01 23 45 67 89 ab cd ef and back; SHA-1 has the same words and one more. */
  lemma StartWords()
    ensures |MD5_INIT| == 4 && |SHA1_INIT| == 5 && SHA1_INIT[..4] == MD5_INIT
    ensures LittleNumber([0x01, 0x23, 0x45, 0x67]) == MD5_INIT[0] && LittleNumber([0x89, 0xab, 0xcd, 0xef]) == MD5_INIT[1]
    ensures LittleNumber([0xfe, 0xdc, 0xba, 0x98]) == MD5_INIT[2] && LittleNumber([0x76, 0x54, 0x32, 0x10]) == MD5_INIT[3]
    ensures LittleNumber([0xf0, 0xe1, 0xd2, 0xc3]) == SHA1_INIT[4]
  {
    hide LittleNumber;
    LittleFour(0x01, 0x23, 0x45, 0x67);
    LittleFour(0x89, 0xab, 0xcd, 0xef);
    LittleFour(0xfe, 0xdc, 0xba, 0x98);
    LittleFour(0x76, 0x54, 0x32, 0x10);
    LittleFour(0xf0, 0xe1, 0xd2, 0xc3);
  }

  lemma LittleFour(a: byte, b: byte, c: byte, d: byte)
    ensures LittleNumber([a, b, c, d]) == WordOf(a, b, c, d)
  {
    hide LittleNumber;
    var none: Bytes := [];
    LittleCons(d, none);
    LittleCons(c, [d]);
    LittleCons(b, [c, d]);
    LittleCons(a, [b, c, d]);
    assert [d] + none == [d] && [c] + [d] == [c, d] && [b] + [c, d] == [b, c, d] && [a] + [b, c, d] == [a, b, c, d];
    assert LittleNumber(none) == 0 by { NoNumber(); }
  }

  lemma BigFour(a: byte, b: byte, c: byte, d: byte)
    ensures BigNumber([a, b, c, d]) == WordOf(d, c, b, a)
  {
    hide BigNumber;
    var none: Bytes := [];
    BigSnoc(none, a);
    BigSnoc([a], b);
    BigSnoc([a, b], c);
    BigSnoc([a, b, c], d);
    assert none + [a] == [a] && [a] + [b] == [a, b] && [a, b] + [c] == [a, b, c] && [a, b, c] + [d] == [a, b, c, d];
    assert BigNumber(none) == 0 by { NoNumber(); }
  }

  lemma NoNumber()
    ensures BigNumber([]) == 0 == LittleNumber([])
  {
  }

  lemma WordNumbers(w: word)
    ensures BigNumber(BigEndian(w)) == w == LittleNumber(LittleEndian(w))
  {
    LittleWord(w);
    var b := LittleEndian(w);
    LittleFour(b[0], b[1], b[2], b[3]);
    BigFour(b[3], b[2], b[1], b[0]);
    assert BigEndian(w) == [b[3], b[2], b[1], b[0]];
  }

  lemma {:induction false} BigConcat(x: Bytes, y: Bytes)
    ensures |y| == 4 ==> BigNumber(x + y) == W * BigNumber(x) + BigNumber(y)
  {
    if |y| == 4 {
      var a, b, c, d := y[0], y[1], y[2], y[3];
      assert y == [a, b, c, d];
      BigFour(a, b, c, d);
      BigSnoc(x, a);
      BigSnoc(x + [a], b);
      BigSnoc(x + [a] + [b], c);
      BigSnoc(x + [a] + [b] + [c], d);
      assert x + y == x + [a] + [b] + [c] + [d];
    }
  }

  lemma BigSnoc(x: Bytes, c: byte)
    ensures BigNumber(x + [c]) == 256 * BigNumber(x) + c
  {
    assert (x + [c])[..|x|] == x;
  }

  lemma LittleConcat(x: Bytes, y: Bytes)
    requires |x| == 4
    ensures LittleNumber(x + y) == LittleNumber(x) + W * LittleNumber(y)
  {
    var a, b, c, d := x[0], x[1], x[2], x[3];
    assert x == [a, b, c, d];
    LittleFour(a, b, c, d);
    LittleCons(d, y);
    LittleCons(c, [d] + y);
    LittleCons(b, [c] + ([d] + y));
    LittleCons(a, [b] + ([c] + ([d] + y)));
    assert x + y == [a] + ([b] + ([c] + ([d] + y)));
  }

  lemma LittleCons(c: byte, x: Bytes)
    ensures LittleNumber([c] + x) == c + 256 * LittleNumber(x)
  {
    assert ([c] + x)[1..] == x;
  }

  lemma LengthNumber(n: nat)
    ensures W * High(n) + Low(n) == 8 * n % WW
  {
    Halves(8 * n);
  }

  /** Whatever the last eight bytes are, the padding has the shape it must have. */
  lemma PaddedShape(m: Bytes, bits: Bytes)
    requires |bits| == 8
    ensures Blocked(m, Padded(m, bits)) && Padded(m, bits)[|Padded(m, bits)| - 8..] == bits
  {
    var t, z := Padded(m, bits), Zeros(ZeroCount(|m|));
    assert t == m + ([128] + z + bits);
    assert forall i :: |m| < i < |t| - 8 ==> t[i] == z[i - |m| - 1];
  }

  lemma Sha1Padded(m: Bytes)
    ensures Sha1Text(m, Padded(m, BigEndian(High(|m|)) + BigEndian(Low(|m|))))
  {
    hide Padded, Blocked, BigEndian, BigNumber, High, Low;
    var h, l := BigEndian(High(|m|)), BigEndian(Low(|m|));
    PaddedShape(m, h + l);
    BigConcat(h, l);
    WordNumbers(High(|m|));
    WordNumbers(Low(|m|));
    LengthNumber(|m|);
  }

  lemma Md5Padded(m: Bytes)
    ensures Md5Text(m, Padded(m, LittleEndian(Low(|m|)) + LittleEndian(High(|m|))))
  {
    hide Padded, Blocked, LittleEndian, LittleNumber, High, Low;
    var l, h := LittleEndian(Low(|m|)), LittleEndian(High(|m|));
    PaddedShape(m, l + h);
    LittleConcat(l, h);
    WordNumbers(High(|m|));
    WordNumbers(Low(|m|));
    LengthNumber(|m|);
  }

  lemma {:induction false} AllBigBytes(ws: Words)
    ensures BigBytes(ws, AllBig(ws))
  {
    hide BigEndian, BigNumber;
    if ws != [] {
      AllBigBytes(ws[1..]);
      var b := AllBig(ws);
      forall i | 0 <= i < |ws| ensures BigNumber(b[4 * i..4 * i + 4]) == ws[i] {
        WordNumbers(ws[0]);
        if i == 0 {
          assert b[0..4] == BigEndian(ws[0]);
        } else {
          assert b[4 * i..4 * i + 4] == AllBig(ws[1..])[4 * (i - 1)..4 * (i - 1) + 4];
        }
      }
    }
  }

  lemma {:induction false} AllLittleBytes(ws: Words)
    ensures LittleBytes(ws, AllLittle(ws))
  {
    hide LittleEndian, LittleNumber;
    if ws != [] {
      AllLittleBytes(ws[1..]);
      var b := AllLittle(ws);
      forall i | 0 <= i < |ws| ensures LittleNumber(b[4 * i..4 * i + 4]) == ws[i] {
        WordNumbers(ws[0]);
        if i == 0 {
          assert b[0..4] == LittleEndian(ws[0]);
        } else {
          assert b[4 * i..4 * i + 4] == AllLittle(ws[1..])[4 * (i - 1)..4 * (i - 1) + 4];
        }
      }
    }
  }

  /** The one-shot digests are the ones of these texts. */
  lemma DigestMeans(f: Compress, m: Bytes)
    ensures IsSha1(f, m, Sha1(f, m)) && IsMd5(f, m, Md5(f, m))
  {
    hide Padded, Absorb, AllBig, AllLittle, BigBytes, LittleBytes, Sha1Text, Md5Text;
    Sha1Padded(m);
    Md5Padded(m);
    AllBigBytes(Absorb(f, SHA1_INIT, Padded(m, BigEndian(High(|m|)) + BigEndian(Low(|m|)))));
    AllLittleBytes(Absorb(f, MD5_INIT, Padded(m, LittleEndian(Low(|m|)) + LittleEndian(High(|m|)))));
  }

  lemma {:induction false} BigUnique(a: Bytes, b: Bytes)
    requires |a| == |b| && BigNumber(a) == BigNumber(b)
    ensures a == b
  {
    if a != [] {
      var n := |a| - 1;
      SameDigit(BigNumber(a[..n]), a[n], BigNumber(b[..n]), b[n]);
      BigUnique(a[..n], b[..n]);
      assert a == a[..n] + [a[n]] && b == b[..n] + [b[n]];
    }
  }

  lemma {:induction false} LittleUnique(a: Bytes, b: Bytes)
    requires |a| == |b| && LittleNumber(a) == LittleNumber(b)
    ensures a == b
  {
    if a != [] {
      SameDigit(LittleNumber(a[1..]), a[0], LittleNumber(b[1..]), b[0]);
      LittleUnique(a[1..], b[1..]);
      assert a == [a[0]] + a[1..] && b == [b[0]] + b[1..];
    }
  }

  lemma SameDigit(p: nat, c: byte, q: nat, d: byte)
    requires 256 * p + c == 256 * q + d
    ensures p == q && c == d
  {
  }

  /** A message has one padded text of either kind: nothing about it is left open. */
  lemma OneText(m: Bytes, t: Bytes, t': Bytes)
    requires (Sha1Text(m, t) && Sha1Text(m, t')) || (Md5Text(m, t) && Md5Text(m, t'))
    ensures t == t'
  {
    hide BigNumber, LittleNumber;
    assert |t| == |t'|;
    var n := |t| - 8;
    if BigNumber(t[n..]) == BigNumber(t'[n..]) {
      BigUnique(t[n..], t'[n..]);
    } else {
      LittleUnique(t[n..], t'[n..]);
    }
    forall i | 0 <= i < |t| ensures t[i] == t'[i] {
      if i < |m| {
        assert t[i] == m[i] == t'[i];
      } else if i >= n {
        assert t[n..][i - n] == t'[n..][i - n];
      }
    }
  }

  // ------------------------------------------------------------- streaming

  class Context {
    const f: Compress
    ghost const start: Words
    var state: Words
    var low: word
    var high: word
    const buffer: array<byte>
    ghost var message: Bytes

    /** Everything so far: whole blocks absorbed, the rest at the front of the buffer, the length counted. */
    ghost predicate Valid()
      reads this, buffer
    {
      && buffer.Length == 64
      && state == Absorb(f, start, message) && low == Low(|message|) && high == High(|message|)
      && buffer[..|message| % 64] == Tail(message)
    }

    /** Init */
    constructor (f: Compress, start: Words)
      ensures Valid() && message == [] && this.f == f && this.start == start && fresh(buffer)
    {
      this.f, this.start, state := f, start, start;
      low, high := 0, 0;
      buffer := new byte[64](_ => 0);
      message := [];
    }

    /** memcpy into the buffer */
    method Copy(j: nat, data: Bytes)
      requires buffer.Length == 64 && j + |data| <= 64
      modifies buffer
      ensures buffer[..j + |data|] == old(buffer[..j]) + data
    {
      var k := 0;
      while k < |data|
        invariant k <= |data| && buffer[..j + k] == old(buffer[..j]) + data[..k]
      {
        buffer[j + k] := data[k];
        assert buffer[..j + (k + 1)] == buffer[..j + k] + [data[k]];
        assert data[..k + 1] == data[..k] + [data[k]];
        k := k + 1;
      }
      assert data[..k] == data;
    }

    /** Counts the bits of `len` more bytes. */
    method Count(len: nat)
      requires low == Low(|message|) && high == High(|message|) && len < W
      modifies this`low, this`high
      ensures low == Low(|message| + len) && high == High(|message| + len)
    {
      hide Low, High;
      ghost var l, h := low, high;
      var add := len * 8 % W;
      low := (low + add) % W;
      if low < add {
        high := (high + 1) % W;
      }
      high := (high + len / 0x2000_0000) % W;
      CarryAdds(h, if low < add then 1 else 0, len / 0x2000_0000);
      CountAdds(|message|, len, l, h, low, high);
    }

    /** The buffer is filled up and absorbed, then every whole block of the data. */
    method TakeBlocks(data: Bytes, j: nat) returns (i: nat)
      requires buffer.Length == 64 && j == |message| % 64 && j + |data| >= 64
      requires state == Absorb(f, start, message) && buffer[..j] == Tail(message)
      modifies this`state, buffer
      ensures i <= |data| < i + 64 && (|message| + i) % 64 == 0 && state == Absorb(f, start, message + data[..i])
    {
      hide Absorb, Tail, Blocks;
      i := 64 - j;
      Copy(j, data[..i]);
      assert buffer[..64] == buffer[..];
      Completes(f, start, message, data[..i]);
      assert |message + data[..i]| == |message| + i;
      state := f(state, buffer[..]);
      while i + 63 < |data|
        invariant i <= |data| && (|message| + i) % 64 == 0 && state == Absorb(f, start, message + data[..i])
      {
        NextBlock(f, start, message, data, i);
        state := f(state, data[i..i + 64]);
        i := i + 64;
      }
    }

    /** Update: the state after more data, whatever the pieces the data arrives in. */
    method Update(data: Bytes)
      requires Valid() && |message| % 64 + |data| < W
      modifies this, buffer
      ensures Valid() && message == old(message) + data
    {
      hide Absorb, Low, High, Tail, Blocks;
      var j := low / 8 % 64;
      LowIndex(|message|);
      Count(|data|);
      if j + |data| > 63 {
        var i := TakeBlocks(data, j);
        Copy(0, data[i..]);
        LastBytes(f, start, message, data, i);
        assert buffer[..0 + |data[i..]|] == [] + data[i..];
      } else {
        Copy(j, data);
        Waits(f, start, message, data);
      }
      message := message + data;
    }

    /** The length in bits, most significant byte first. */
    method FinalCount() returns (finalcount: Bytes)
      ensures finalcount == BigEndian(high) + BigEndian(low)
    {
      finalcount := [];
      var i := 0;
      while i < 8
        invariant i <= 8 && finalcount == (BigEndian(high) + BigEndian(low))[..i]
      {
        finalcount := finalcount + [ByteOf(if i >= 4 then low else high, 3 - i % 4)];
        i := i + 1;
      }
    }

    /** Nothing of the message stays behind. */
    method Wipe(words: nat)
      modifies this, buffer
      ensures state == seq(words, i => 0) && low == 0 && high == 0 && forall i :: 0 <= i < buffer.Length ==> buffer[i] == 0
    {
      var i := 0;
      while i < buffer.Length
        invariant i <= buffer.Length && forall l :: 0 <= l < i ==> buffer[l] == 0
      {
        buffer[i] := 0;
        i := i + 1;
      }
      state, low, high := seq(words, k => 0), 0, 0;
    }

    /** SHA1_Final: pads the message and gives its digest. */
    method FinishSha1() returns (digest: Bytes)
      requires Valid() && start == SHA1_INIT && forall t, b :: |t| == 5 ==> |f(t, b)| == 5
      modifies this, buffer
      ensures digest == Sha1(f, old(message)) && IsSha1(f, old(message), digest)
      ensures state == seq(5, i => 0) && low == 0 && high == 0 && forall i :: 0 <= i < buffer.Length ==> buffer[i] == 0
    {
      hide Absorb, Low, High, Tail, Blocks, AllBig, Zeros, ZeroCount, BigEndian, IsSha1, Md5;
      ghost var m := message;
      var finalcount := FinalCount();
      Update([128]);
      ghost var k := 0;
      Padding(m, k);
      while low / 8 % 64 * 8 != 448
        invariant Valid() && k <= ZeroCount(|m|) && message == m + [128] + Zeros(k) && high == High(|message|)
        decreases ZeroCount(|m|) - k
      {
        LowIndex(|message|);
        Padding(m, k);
        Update([0]);
        k := k + 1;
      }
      LowIndex(|message|);
      Padding(m, k);
      Update(finalcount);
      AbsorbSize(f, start, message, 5);
      digest := WriteBig(state);
      DigestMeans(f, m);
      Wipe(5);
    }

    /** li_MD5_Final: pads the message and gives its digest. */
    method FinishMd5() returns (digest: Bytes)
      requires Valid() && start == MD5_INIT && forall t, b :: |t| == 4 ==> |f(t, b)| == 4
      modifies this, buffer
      ensures digest == Md5(f, old(message)) && IsMd5(f, old(message), digest)
      ensures state == seq(4, i => 0) && low == 0 && high == 0 && forall i :: 0 <= i < buffer.Length ==> buffer[i] == 0
    {
      hide Absorb, Low, High, Tail, Blocks, AllLittle, Zeros, ZeroCount, IsMd5, Sha1;
      ghost var m := message;
      var bits := Encode([low, high], 8);
      assert bits == LittleEndian(low) + LittleEndian(high) by { LittleTwo(low, high); }
      var ndx := low / 8 % 64;
      LowIndex(|m|);
      var padLen := if ndx < 56 then 56 - ndx else 120 - ndx;
      var padding := [128] + seq(63, i => 0);
      PaddingLength(|m|, padLen);
      assert padding[..padLen] == [128] + Zeros(padLen - 1);
      Update(padding[..padLen]);
      assert message == m + [128] + Zeros(ZeroCount(|m|));
      Update(bits);
      AbsorbSize(f, start, message, 4);
      digest := Encode(state, 16);
      DigestMeans(f, m);
      Wipe(4);
    }
  }

  lemma Padding(m: Bytes, k: nat)
    ensures m + [128] + Zeros(0) == m + [128]
    ensures m + [128] + Zeros(k) + [0] == m + [128] + Zeros(k + 1)
    ensures |m + [128] + Zeros(k)| == |m| + 1 + k
    ensures k <= ZeroCount(|m|) ==> ((|m| + 1 + k) % 64 == 56 <==> k == ZeroCount(|m|))
  {
    hide ZeroCount;
    ZeroExact(|m|, k);
    assert Zeros(k) + [0] == Zeros(k + 1);
    assert m + [128] + Zeros(k) + [0] == m + [128] + (Zeros(k) + [0]);
  }

  lemma ZeroExact(n: nat, k: nat)
    ensures k <= ZeroCount(n) ==> ((n + 1 + k) % 64 == 56 <==> k == ZeroCount(n))
  {
    var q, r := n / 64, n % 64;
    assert n == 64 * q + r;
    assert ZeroCount(n) == if r <= 55 then 55 - r else 119 - r;
    if k <= ZeroCount(n) {
      var t := r + 1 + k;
      assert t < 128 && (n + 1 + k) % 64 == if t < 64 then t else t - 64;
    }
  }

  lemma PaddingLength(n: nat, padLen: nat)
    requires padLen == if n % 64 < 56 then 56 - n % 64 else 120 - n % 64
    ensures 0 < padLen <= 64 && padLen - 1 == ZeroCount(n)
  {
  }

  /** A word shifted right by n bytes, and cut to one. */
  function ByteOf(w: word, n: nat): (b: byte)
    requires n < 4
    ensures b == BigEndian(w)[3 - n] == LittleEndian(w)[n]
  {
    if n == 0 then w % 256
    else if n == 1 then w / 0x100 % 256
    else if n == 2 then w / 0x1_0000 % 256
    else w / 0x100_0000 % 256
  }

  lemma {:induction false} BigAt(ws: Words, i: nat)
    requires i < 4 * |ws|
    ensures AllBig(ws)[i] == BigEndian(ws[i / 4])[i % 4]
  {
    hide BigEndian;
    if i >= 4 {
      BigAt(ws[1..], i - 4);
    }
  }

  /** The digest as bytes, most significant byte of each word first. */
  method WriteBig(ws: Words) returns (digest: Bytes)
    ensures digest == AllBig(ws)
  {
    hide AllBig, BigEndian, LittleEndian;
    digest := [];
    var i := 0;
    while i < 4 * |ws|
      invariant i <= 4 * |ws| && digest == AllBig(ws)[..i]
    {
      BigAt(ws, i);
      digest := digest + [ByteOf(ws[i / 4], 3 - i % 4)];
      i := i + 1;
    }
  }

  lemma LittleTwo(a: word, b: word)
    ensures AllLittle([a, b]) == LittleEndian(a) + LittleEndian(b)
  {
    assert [a, b][1..] == [b] && [b][1..] == [];
  }

  lemma {:induction false} LittleNext(ws: Words, w: word)
    ensures AllLittle(ws + [w]) == AllLittle(ws) + LittleEndian(w)
  {
    hide LittleEndian;
    if ws == [] {
      assert ws + [w] == [w] && [w][1..] == [];
    } else {
      LittleNext(ws[1..], w);
      assert (ws + [w])[1..] == ws[1..] + [w];
    }
  }

  /** Encode: words to bytes, least significant byte first. */
  method Encode(input: Words, len: nat) returns (output: Bytes)
    requires len == 4 * |input|
    ensures output == AllLittle(input)
  {
    hide AllLittle;
    output := [];
    var i, j := 0, 0;
    assert input[..0] == [];
    assert AllLittle([]) == [] by { NoBytes(); }
    while j < len
      invariant j == 4 * i && i <= |input| && output == AllLittle(input[..i])
      decreases len - j
    {
      LittleNext(input[..i], input[i]);
      assert input[..i + 1] == input[..i] + [input[i]];
      var w := input[i];
      output := output + [ByteOf(w, 0), ByteOf(w, 1), ByteOf(w, 2), ByteOf(w, 3)];
      i, j := i + 1, j + 4;
    }
    assert input[..i] == input;
  }

  lemma NoBytes()
    ensures AllLittle([]) == []
  {
  }

  /** Decode: bytes to words; what Encode undoes. */
  method Decode(input: Bytes) returns (output: Words)
    requires |input| % 4 == 0
    ensures AllLittle(output) == input
  {
    hide AllLittle, LittleEndian;
    output := [];
    var j := 0;
    NoBytes();
    while j < |input|
      invariant j <= |input| && j % 4 == 0 && AllLittle(output) == input[..j]
    {
      var w := WordOf(input[j], input[j + 1], input[j + 2], input[j + 3]);
      WordBytes(input[j], input[j + 1], input[j + 2], input[j + 3]);
      LittleNext(output, w);
      assert input[..j + 4] == input[..j] + [input[j], input[j + 1], input[j + 2], input[j + 3]];
      output := output + [w];
      j := j + 4;
    }
    assert input[..j] == input;
  }

  function WordOf(a: int, b: int, c: int, d: int): int {
    a + 0x100 * b + 0x1_0000 * c + 0x100_0000 * d
  }

  lemma WordBytes(a: byte, b: byte, c: byte, d: byte)
    ensures 0 <= WordOf(a, b, c, d) < W && LittleEndian(WordOf(a, b, c, d)) == [a, b, c, d]
  {
    var x: int, y: int, z: int, u: int := a, b, c, d;
    var w := WordOf(x, y, z, u);
    Low8(y + 0x100 * z + 0x1_0000 * u, x);
    Low16(z + 0x100 * u, x + 0x100 * y);
    Low24(u, x + 0x100 * y + 0x1_0000 * z);
    Low8(z + 0x100 * u, y);
    Low8(u, z);
  }

  lemma Low8(q: nat, r: nat)
    requires r < 0x100
    ensures (0x100 * q + r) / 0x100 == q && (0x100 * q + r) % 0x100 == r
  {
  }

  lemma Low16(q: nat, r: nat)
    requires r < 0x1_0000
    ensures (0x1_0000 * q + r) / 0x1_0000 == q
  {
  }

  lemma Low24(q: nat, r: nat)
    requires r < 0x100_0000
    ensures (0x100_0000 * q + r) / 0x100_0000 == q
  {
  }

  lemma LittleWord(w: word)
    ensures var b := LittleEndian(w); w == WordOf(b[0], b[1], b[2], b[3])
  {
    var x, y, z := w / 0x100, w / 0x1_0000, w / 0x100_0000;
    assert w == 0x100 * x + w % 256;
    assert x == 0x100 * y + x % 256 by { assert x / 0x100 == y; }
    assert y == 0x100 * z + y % 256 by { assert y / 0x100 == z; }
    assert z < 256;
  }

  /** Words are determined by their bytes, so Decode undoes Encode as well. */
  lemma {:induction false} LittleInjective(a: Words, b: Words)
    requires AllLittle(a) == AllLittle(b)
    ensures a == b
  {
    hide LittleEndian;
    if a != [] {
      assert |b| == |a|;
      assert AllLittle(a)[..4] == LittleEndian(a[0]) && AllLittle(b)[..4] == LittleEndian(b[0]);
      assert AllLittle(a)[4..] == AllLittle(a[1..]) && AllLittle(b)[4..] == AllLittle(b[1..]);
      LittleWord(a[0]);
      LittleWord(b[0]);
      LittleInjective(a[1..], b[1..]);
      assert a == [a[0]] + a[1..] && b == [b[0]] + b[1..];
    }
  }

  // --------------------------------------------------------------- whole runs

  ghost function Concat(parts: seq<Bytes>): Bytes {
    if parts == [] then [] else Concat(parts[..|parts| - 1]) + parts[|parts| - 1]
  }

  /** No update makes the sum of the waiting bytes and the new length wrap. */
  ghost predicate Fits(parts: seq<Bytes>) {
    forall i :: 0 <= i < |parts| ==> |Concat(parts[..i])| % 64 + |parts[i]| < W
  }

  method Feed(c: Context, parts: seq<Bytes>)
    requires c.Valid() && c.message == [] && Fits(parts)
    modifies c, c.buffer
    ensures c.Valid() && c.message == Concat(parts)
  {
    hide Absorb, Low, High, Tail, Blocks;
    var i := 0;
    while i < |parts|
      invariant i <= |parts| && c.Valid() && c.message == Concat(parts[..i])
    {
      assert parts[..i + 1][..i] == parts[..i];
      c.Update(parts[i]);
      i := i + 1;
    }
    assert parts[..i] == parts;
  }

  /** However a message is divided into updates, its SHA-1 digest is that of the whole. */
  method HashSha1(f: Compress, parts: seq<Bytes>) returns (digest: Bytes)
    requires Fits(parts) && forall t, b :: |t| == 5 ==> |f(t, b)| == 5
    ensures digest == Sha1(f, Concat(parts)) && IsSha1(f, Concat(parts), digest)
  {
    var c := new Context(f, SHA1_INIT);
    Feed(c, parts);
    digest := c.FinishSha1();
  }

  method HashMd5(f: Compress, parts: seq<Bytes>) returns (digest: Bytes)
    requires Fits(parts) && forall t, b :: |t| == 4 ==> |f(t, b)| == 4
    ensures digest == Md5(f, Concat(parts)) && IsMd5(f, Concat(parts), digest)
  {
    var c := new Context(f, MD5_INIT);
    Feed(c, parts);
    digest := c.FinishMd5();
  }

  /** One whole block of the data more. */
  lemma NextBlock(f: Compress, s: Words, m: Bytes, data: Bytes, i: nat)
    requires i + 64 <= |data| && (|m| + i) % 64 == 0
    ensures (|m| + (i + 64)) % 64 == 0
    ensures Absorb(f, s, m + data[..i + 64]) == f(Absorb(f, s, m + data[..i]), data[i..i + 64])
  {
    hide Absorb;
    AbsorbBlock(f, s, m + data[..i], data[i..i + 64]);
    assert m + data[..i] + data[i..i + 64] == m + data[..i + 64];
  }

  /** What remains after the last whole block waits. */
  lemma LastBytes(f: Compress, s: Words, m: Bytes, data: Bytes, i: nat)
    requires i <= |data| < i + 64 && (|m| + i) % 64 == 0
    ensures Absorb(f, s, m + data) == Absorb(f, s, m + data[..i]) && Tail(m + data) == data[i..]
    ensures |m + data| % 64 == |data| - i
  {
    hide Absorb;
    assert m + data == m + data[..i] + data[i..];
    AbsorbShort(f, s, m + data[..i], data[i..]);
    SplitIs(m + data, m + data[..i], data[i..]);
  }

  /** The place in the buffer can be read off the bit count. */
  lemma LowIndex(n: nat)
    ensures Low(n) / 8 % 64 == n % 64
  {
  }
}
