// UTF-8 decoding as utf8.DecodeRune does it (RFC 3629, section 4: the
// well-formed byte sequences), and the UTF-16 length of a code point
// (RFC 2781, section 2.1: one code unit below U+10000, a surrogate pair
// above). The positional index reads its input through these. The UTF-8
// encoding of a string (RFC 3629, section 3) relates the model's strings of
// code points to the bytes a Go string holds.
module Utf8 {

  type Byte = b: int | 0 <= b < 256

  const Newline: Byte := 10

  /** U+FFFD, returned for every ill-formed sequence, one byte at a time. */
  const RuneError: nat := 0xFFFD

  /** A decoded code point and the number of bytes it took. */
  datatype Rune = Rune(code: nat, size8: nat)

  predicate Supplementary(code: nat)
  {
    0x10000 <= code <= 0x10FFFF
  }

  predicate Continuation(b: Byte)
  {
    0x80 <= b <= 0xBF
  }

  /** utf16.EncodeRune: a surrogate pair for a supplementary code point, one unit otherwise. */
  function Size16(r: Rune): nat
  {
    if Supplementary(r.code) then 2 else 1
  }

  /** One to four bytes, and four exactly for the supplementary planes. */
  predicate WellFormed(r: Rune)
  {
    1 <= r.size8 <= 4 && (r.size8 == 4 <==> Supplementary(r.code))
  }

  /** The accepted range of the second byte of a three-byte sequence (no overlongs, no surrogates). */
  predicate Second3(b0: Byte, b1: Byte)
  {
    if b0 == 0xE0 then 0xA0 <= b1 <= 0xBF
    else if b0 == 0xED then 0x80 <= b1 <= 0x9F
    else Continuation(b1)
  }

  /** The accepted range of the second byte of a four-byte sequence (no overlongs, nothing past U+10FFFF). */
  predicate Second4(b0: Byte, b1: Byte)
  {
    if b0 == 0xF0 then 0x90 <= b1 <= 0xBF
    else if b0 == 0xF4 then 0x80 <= b1 <= 0x8F
    else Continuation(b1)
  }

  /** utf8.DecodeRune on a non-empty input. */
  function DecodeRune(p: seq<Byte>): (r: Rune)
    requires |p| >= 1
    ensures WellFormed(r) && r.size8 <= |p|
    ensures r.code == Newline as nat <==> p[0] == Newline
    ensures p[0] < 0x80 ==> r == Rune(p[0], 1)
    ensures forall j :: 1 <= j < r.size8 ==> Continuation(p[j])
  {
    var b0: int := p[0];
    if b0 < 0x80 then Rune(b0, 1)
    else if 0xC2 <= b0 <= 0xDF then
      if |p| >= 2 && Continuation(p[1]) then Rune((b0 - 0xC0) * 64 + (p[1] as int - 0x80), 2)
      else Rune(RuneError, 1)
    else if 0xE0 <= b0 <= 0xEF then
      if |p| >= 3 && Second3(b0, p[1]) && Continuation(p[2])
      then Rune((b0 - 0xE0) * 4096 + (p[1] as int - 0x80) * 64 + (p[2] as int - 0x80), 3)
      else Rune(RuneError, 1)
    else if 0xF0 <= b0 <= 0xF4 then
      if |p| >= 4 && Second4(b0, p[1]) && Continuation(p[2]) && Continuation(p[3])
      then Rune((b0 - 0xF0) * 0x40000 + (p[1] as int - 0x80) * 4096 + (p[2] as int - 0x80) * 64 + (p[3] as int - 0x80), 4)
      else Rune(RuneError, 1)
    else Rune(RuneError, 1)
  }

  /** The input decoded rune by rune from the front, as the index loop reads it. */
  function Runes(p: seq<Byte>): seq<Rune>
    decreases |p|
  {
    if p == [] then []
    else
      var r := DecodeRune(p);
      [r] + Runes(p[r.size8..])
  }

  /** The number of bytes the runes take. */
  function ByteLen(rs: seq<Rune>): nat
  {
    if rs == [] then 0 else ByteLen(rs[..|rs| - 1]) + rs[|rs| - 1].size8
  }

  /** The number of UTF-16 code units the runes take. */
  function U16Len(rs: seq<Rune>): nat
  {
    if rs == [] then 0 else U16Len(rs[..|rs| - 1]) + Size16(rs[|rs| - 1])
  }

  predicate AllWellFormed(rs: seq<Rune>)
  {
    forall q :: 0 <= q < |rs| ==> WellFormed(rs[q])
  }

  lemma {:induction false} LengthsAppend(a: seq<Rune>, b: seq<Rune>)
    ensures ByteLen(a + b) == ByteLen(a) + ByteLen(b)
    ensures U16Len(a + b) == U16Len(a) + U16Len(b)
    decreases |b|
  {
    if b == [] {
      assert a + b == a;
    } else {
      var bi := b[..|b| - 1];
      assert (a + b)[..|a + b| - 1] == a + bi;
      assert (a + b)[|a + b| - 1] == b[|b| - 1];
      LengthsAppend(a, bi);
    }
  }

  /** Decoding takes every byte exactly once, and every rune is well formed. */
  lemma {:induction false} RunesCover(p: seq<Byte>)
    ensures ByteLen(Runes(p)) == |p|
    ensures AllWellFormed(Runes(p))
    decreases |p|
  {
    if p != [] {
      var r := DecodeRune(p);
      RunesCover(p[r.size8..]);
      LengthsAppend([r], Runes(p[r.size8..]));
      assert ByteLen([r]) == r.size8 by {
        assert [r][..0] == [];
      }
    }
  }

  /** Every rune takes at least one byte and at least one UTF-16 unit, and no more units than bytes. */
  lemma {:induction false} LengthsOrdered(rs: seq<Rune>)
    requires AllWellFormed(rs)
    ensures |rs| <= U16Len(rs) <= ByteLen(rs)
    decreases |rs|
  {
    if rs != [] {
      LengthsOrdered(rs[..|rs| - 1]);
    }
  }

  /** A longer prefix takes strictly more bytes and strictly more UTF-16 units. */
  lemma {:induction false} PrefixLengths(rs: seq<Rune>, q1: int, q2: int)
    requires AllWellFormed(rs) && 0 <= q1 <= q2 <= |rs|
    ensures ByteLen(rs[..q1]) + (q2 - q1) <= ByteLen(rs[..q2])
    ensures U16Len(rs[..q1]) + (q2 - q1) <= U16Len(rs[..q2])
  {
    assert rs[..q2] == rs[..q1] + rs[q1..q2];
    LengthsAppend(rs[..q1], rs[q1..q2]);
    LengthsOrdered(rs[q1..q2]);
  }

  /** Extending a prefix by one rune adds that rune's sizes. */
  lemma {:induction false} PrefixStep(rs: seq<Rune>, q: int)
    requires 0 <= q < |rs|
    ensures ByteLen(rs[..q + 1]) == ByteLen(rs[..q]) + rs[q].size8
    ensures U16Len(rs[..q + 1]) == U16Len(rs[..q]) + Size16(rs[q])
  {
    assert rs[..q + 1][..q] == rs[..q];
  }

  /** One more rune adds its sizes. */
  lemma {:induction false} LengthsSnoc(rs: seq<Rune>, r: Rune)
    ensures ByteLen(rs + [r]) == ByteLen(rs) + r.size8
    ensures U16Len(rs + [r]) == U16Len(rs) + Size16(r)
  {
    assert (rs + [r])[..|rs|] == rs;
  }

  /** The examples: "é" is two bytes and one unit, U+1D4D0 four bytes and a surrogate pair. */
  lemma {:induction false} DecodeExamples(e: seq<Byte>, m: seq<Byte>, bad: seq<Byte>)
    requires e == [0xC3, 0xA9] && m == [0xF0, 0x9D, 0x93, 0x90] && bad == [0xC0, 0x80]
    ensures DecodeRune(e) == Rune(0xE9, 2) && Size16(DecodeRune(e)) == 1
    ensures DecodeRune(m) == Rune(0x1D4D0, 4) && Size16(DecodeRune(m)) == 2
    ensures DecodeRune(bad) == Rune(RuneError, 1)
  {
  }
  // ------------------------------------------------------------ encoding

  /**
   * The UTF-8 bytes of one code point (RFC 3629, section 3): Go holds a
   * string as these bytes, where the model holds the code points.
   */
  function EncodeChar(c: char): (b: seq<Byte>)
    ensures 1 <= |b| <= 4
    ensures c as int < 0x80 <==> |b| == 1
    ensures c as int < 0x80 ==> b == [c as int]
    ensures 0x80 <= c as int ==> b[0] >= 0xC0
  {
    var n := c as int;
    if n < 0x80 then [n]
    else if n < 0x800 then [0xC0 + n / 64, 0x80 + n % 64]
    else if n < 0x10000 then [0xE0 + n / 4096, 0x80 + (n / 64) % 64, 0x80 + n % 64]
    else [0xF0 + n / 0x40000, 0x80 + (n / 4096) % 64, 0x80 + (n / 64) % 64, 0x80 + n % 64]
  }

  /** The UTF-8 bytes of a string, as Go stores it. */
  function Encode(s: string): seq<Byte>
  {
    if s == [] then [] else EncodeChar(s[0]) + Encode(s[1..])
  }

  /** Text made only of ASCII characters. */
  predicate Ascii(s: string)
  {
    forall k :: 0 <= k < |s| ==> s[k] as int < 0x80
  }

  /** Encoding is taken piece by piece: a concatenation encodes to the concatenation of the encodings. */
  lemma {:induction false} EncodeAppend(a: string, b: string)
    ensures Encode(a + b) == Encode(a) + Encode(b)
    decreases |a|
  {
    if a == [] {
      assert a + b == b;
    } else {
      assert (a + b)[0] == a[0];
      assert (a + b)[1..] == a[1..] + b;
      EncodeAppend(a[1..], b);
    }
  }

  /** Every character takes at least one byte, and exactly one byte exactly when it is ASCII. */
  lemma {:induction false} EncodeLength(s: string)
    ensures |s| <= |Encode(s)|
    ensures |Encode(s)| == |s| <==> Ascii(s)
    decreases |s|
  {
    if s != [] {
      EncodeLength(s[1..]);
      assert Ascii(s) <==> s[0] as int < 0x80 && Ascii(s[1..]) by {
        if s[0] as int < 0x80 && Ascii(s[1..]) {
          forall k | 0 <= k < |s| ensures s[k] as int < 0x80 {
            if k > 0 { assert s[k] == s[1..][k - 1]; }
          }
        }
        if Ascii(s) {
          forall k | 0 <= k < |s[1..]| ensures s[1..][k] as int < 0x80 {
            assert s[1..][k] == s[k + 1];
          }
        }
      }
    }
  }

  /** ASCII text encodes byte for character. */
  lemma {:induction false} EncodeAscii(s: string)
    requires Ascii(s)
    ensures |Encode(s)| == |s|
    ensures forall k :: 0 <= k < |s| ==> Encode(s)[k] == s[k] as int
    decreases |s|
  {
    if s != [] {
      assert Ascii(s[1..]) by {
        forall k | 0 <= k < |s[1..]| ensures s[1..][k] as int < 0x80 {
          assert s[1..][k] == s[k + 1];
        }
      }
      EncodeAscii(s[1..]);
      forall k | 0 <= k < |s| ensures Encode(s)[k] == s[k] as int {
        if k > 0 { assert s[k] == s[1..][k - 1]; }
      }
    }
  }

  /** The first byte of a non-empty encoding is ASCII exactly when the first character is, and then is that character. */
  lemma {:induction false} EncodeFirst(s: string)
    requires s != []
    ensures Encode(s) != [] && Encode(s)[0] == EncodeChar(s[0])[0]
    ensures Encode(s)[0] < 0x80 <==> s[0] as int < 0x80
    ensures s[0] as int < 0x80 ==> Encode(s)[0] == s[0] as int && Encode(s)[1..] == Encode(s[1..])
  {
  }

  /** Decoding the bytes of a character gives back that character and its length. */
  lemma {:induction false} DecodeEncoded(c: char, rest: seq<Byte>)
    ensures DecodeRune(EncodeChar(c) + rest) == Rune(c as int, |EncodeChar(c)|)
  {
    var n := c as int;
    if n < 0x80 {
    } else if n < 0x800 {
      Decode2(n, EncodeChar(c) + rest);
    } else if n < 0x10000 {
      Decode3(n, EncodeChar(c) + rest);
    } else {
      Decode4(n, EncodeChar(c) + rest);
    }
  }

  /** Decoding the bytes of a string rune by rune gives back its code points, each with its encoded length. */
  lemma {:induction false} RunesOfEncode(s: string)
    ensures |Runes(Encode(s))| == |s|
    ensures forall k :: 0 <= k < |s| ==>
      Runes(Encode(s))[k] == Rune(s[k] as int, |EncodeChar(s[k])|)
    decreases |s|
  {
    if s != [] {
      var b := EncodeChar(s[0]);
      DecodeEncoded(s[0], Encode(s[1..]));
      assert (b + Encode(s[1..]))[|b|..] == Encode(s[1..]);
      RunesOfEncode(s[1..]);
      var rs := Runes(Encode(s));
      assert rs == [Rune(s[0] as int, |b|)] + Runes(Encode(s[1..]));
      forall k | 0 <= k < |s| ensures rs[k] == Rune(s[k] as int, |EncodeChar(s[k])|) {
        if k > 0 { assert s[k] == s[1..][k - 1]; }
      }
    }
  }

  lemma {:induction false} Decode2(n: int, p: seq<Byte>)
    requires 0x80 <= n < 0x800 && |p| >= 2
    requires p[0] == 0xC0 + n / 64 && p[1] == 0x80 + n % 64
    ensures DecodeRune(p) == Rune(n, 2)
  {
    var q, r := n / 64, n % 64;
    assert n == q * 64 + r && 2 <= q <= 31 && 0 <= r < 64;
  }

  lemma {:induction false} Decode3(n: int, p: seq<Byte>)
    requires 0x800 <= n < 0x10000 && !(0xD800 <= n < 0xE000) && |p| >= 3
    requires p[0] == 0xE0 + n / 4096 && p[1] == 0x80 + (n / 64) % 64 && p[2] == 0x80 + n % 64
    ensures DecodeRune(p) == Rune(n, 3)
  {
    var q := n / 4096;
    var m := (n / 64) % 64;
    var r := n % 64;
    assert n / 64 == q * 64 + m;
    assert n == q * 4096 + m * 64 + r && 0 <= q <= 15 && 0 <= m < 64 && 0 <= r < 64;
    assert q == 0 ==> m >= 32;
    assert q == 13 ==> m < 32;
  }

  lemma {:induction false} Decode4(n: int, p: seq<Byte>)
    requires 0x10000 <= n <= 0x10FFFF && |p| >= 4
    requires p[0] == 0xF0 + n / 0x40000 && p[1] == 0x80 + (n / 4096) % 64
    requires p[2] == 0x80 + (n / 64) % 64 && p[3] == 0x80 + n % 64
    ensures DecodeRune(p) == Rune(n, 4)
  {
    var q := n / 0x40000;
    var k := (n / 4096) % 64;
    var m := (n / 64) % 64;
    var r := n % 64;
    assert n / 4096 == q * 64 + k;
    assert n / 64 == (n / 4096) * 64 + m;
    assert n == q * 0x40000 + k * 4096 + m * 64 + r && 0 <= q <= 4 && 0 <= k < 64 && 0 <= m < 64 && 0 <= r < 64;
    assert q == 0 ==> k >= 16;
    assert q == 4 ==> k < 16;
  }
}
