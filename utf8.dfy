/** UTF-8 decoding as Go's unicode/utf8.DecodeRune performs it (section 3 of
 *  RFC 3629), the matching encoder, and UTF-16 surrogate pairs as Go's
 *  unicode/utf16.EncodeRune produces them (section 2.1 of RFC 2781).
 */
module Utf8 {
  import opened Bytes

  /** The replacement character U+FFFD that the decoder returns on error. */
  const RuneError: int := 0xFFFD
  const MaxRune: int := 0x10FFFF

  /** A decoded code point and the number of bytes it occupied. */
  datatype Decoded = Decoded(r: int, size: nat)

  predicate IsCont(c: byte) {
    0x80 <= c <= 0xBF
  }

  /** A Unicode scalar value: a code point that is not a surrogate. */
  predicate IsScalar(r: int) {
    0 <= r <= MaxRune && !(0xD800 <= r <= 0xDFFF)
  }

  /** The decoder's verdict "not well-formed here": it consumed one byte
   *  and returned U+FFFD.  The encoder in marshal.go also tests for a
   *  code point of 0x110000 or above, which the decoder never returns. */
  predicate IsInvalid(d: Decoded) {
    (d.r == RuneError && d.size == 1) || 0x110000 <= d.r
  }

  /** Bounds on the second byte of a multi-byte sequence, chosen by its
   *  first byte (the accept ranges of unicode/utf8). */
  function SecondLow(c: byte): byte {
    if c == 0xE0 then 0xA0 else if c == 0xF0 then 0x90 else 0x80
  }

  function SecondHigh(c: byte): byte {
    if c == 0xED then 0x9F else if c == 0xF4 then 0x8F else 0xBF
  }

  /** The length a first byte announces, or 0 when no sequence starts
   *  with it (0x80..0xC1 and 0xF5..0xFF). */
  function LeadSize(c: byte): nat {
    if c < 0x80 then 1
    else if c < 0xC2 then 0
    else if c < 0xE0 then 2
    else if c < 0xF0 then 3
    else if c < 0xF5 then 4
    else 0
  }

  /** utf8.DecodeRune: the first code point of `s` and its length;
   *  (U+FFFD, 0) on empty input and (U+FFFD, 1) on a byte that does not
   *  start a well-formed sequence. */
  function DecodeRune(s: Text): (d: Decoded)
    ensures s == [] <==> d.size == 0
    ensures s == [] ==> d.r == RuneError
    ensures s != [] ==> 1 <= d.size <= |s| && d.size <= 4
    ensures 0 <= d.r <= MaxRune
    ensures !IsInvalid(d) && s != [] ==> d.size == LeadSize(s[0]) && IsScalar(d.r)
    ensures s != [] && s[0] < 0x80 ==> d == Decoded(s[0] as int, 1)
  {
    if s == [] then Decoded(RuneError, 0)
    else
      var p0 := s[0];
      var sz := LeadSize(p0);
      if sz == 1 then Decoded(p0 as int, 1)
      else if sz == 0 || |s| < sz then Decoded(RuneError, 1)
      else if !(SecondLow(p0) <= s[1] <= SecondHigh(p0)) then Decoded(RuneError, 1)
      else if sz == 2 then
        Decoded((p0 - 0xC0) as int * 64 + (s[1] - 0x80) as int, 2)
      else if !IsCont(s[2]) then Decoded(RuneError, 1)
      else if sz == 3 then
        Decoded((p0 - 0xE0) as int * 4096 + (s[1] - 0x80) as int * 64 + (s[2] - 0x80) as int, 3)
      else if !IsCont(s[3]) then Decoded(RuneError, 1)
      else
        Decoded((p0 - 0xF0) as int * 262144 + (s[1] - 0x80) as int * 4096
                + (s[2] - 0x80) as int * 64 + (s[3] - 0x80) as int, 4)
  }

  /** The UTF-8 form of a scalar value (utf8.EncodeRune). */
  function EncodeRune(r: int): (t: Text)
    requires IsScalar(r)
    ensures 1 <= |t| <= 4
    ensures |t| == 1 <==> r < 0x80
    ensures |t| == 2 <==> 0x80 <= r < 0x800
    ensures |t| == 3 <==> 0x800 <= r < 0x10000
  {
    if r < 0x80 then [r as byte]
    else if r < 0x800 then [(0xC0 + r / 64) as byte, (0x80 + r % 64) as byte]
    else if r < 0x10000 then
      [(0xE0 + r / 4096) as byte, (0x80 + (r / 64) % 64) as byte, (0x80 + r % 64) as byte]
    else
      [(0xF0 + r / 262144) as byte, (0x80 + (r / 4096) % 64) as byte,
       (0x80 + (r / 64) % 64) as byte, (0x80 + r % 64) as byte]
  }

  /** Decoding the encoding of a scalar value gives it back, whatever follows. */
  lemma DecodeEncode(r: int, rest: Text)
    requires IsScalar(r)
    ensures DecodeRune(EncodeRune(r) + rest) == Decoded(r, |EncodeRune(r)|)
  {
    var t := EncodeRune(r);
    var s := t + rest;
    assert s[..|t|] == t;
    if 0x800 <= r < 0x10000 {
      assert r / 4096 == (r / 64) / 64;
      assert r == (r / 4096) * 4096 + ((r / 64) % 64) * 64 + r % 64;
    } else if 0x10000 <= r {
      assert r / 4096 == (r / 64) / 64;
      assert r / 262144 == (r / 4096) / 64;
      assert r == (r / 262144) * 262144 + ((r / 4096) % 64) * 4096 + ((r / 64) % 64) * 64 + r % 64;
    }
  }

  /** Every well-formed sequence the decoder accepts is the encoding of the
   *  code point it returns: a valid rune is copied byte for byte. */
  lemma EncodeDecode(s: Text)
    requires s != [] && !IsInvalid(DecodeRune(s))
    ensures IsScalar(DecodeRune(s).r)
    ensures s[..DecodeRune(s).size] == EncodeRune(DecodeRune(s).r)
  {
    var d := DecodeRune(s);
    var t := EncodeRune(d.r);
    if d.size == 2 {
      var a, b := (s[0] - 0xC0) as int, (s[1] - 0x80) as int;
      assert d.r == a * 64 + b;
      assert d.r / 64 == a && d.r % 64 == b;
      assert t == s[..2];
    } else if d.size == 3 {
      var a, b, c := (s[0] - 0xE0) as int, (s[1] - 0x80) as int, (s[2] - 0x80) as int;
      assert d.r == (a * 64 + b) * 64 + c;
      assert d.r / 64 == a * 64 + b && d.r % 64 == c;
      assert (d.r / 64) / 64 == a && (d.r / 64) % 64 == b;
      assert d.r / 4096 == (d.r / 64) / 64;
      assert t == s[..3];
    } else if d.size == 4 {
      var a, b, c, e := (s[0] - 0xF0) as int, (s[1] - 0x80) as int, (s[2] - 0x80) as int, (s[3] - 0x80) as int;
      assert d.r == ((a * 64 + b) * 64 + c) * 64 + e;
      assert d.r / 64 == (a * 64 + b) * 64 + c && d.r % 64 == e;
      assert (d.r / 64) / 64 == a * 64 + b && (d.r / 64) % 64 == c;
      assert ((d.r / 64) / 64) / 64 == a && ((d.r / 64) / 64) % 64 == b;
      assert d.r / 4096 == (d.r / 64) / 64;
      assert d.r / 262144 == ((d.r / 64) / 64) / 64;
      assert t == s[..4];
    }
  }

  /** `s` is a sequence of well-formed UTF-8 encodings. */
  predicate ValidUtf8(s: Text)
    decreases |s|
  {
    s == [] || (!IsInvalid(DecodeRune(s)) && ValidUtf8(s[DecodeRune(s).size..]))
  }

  /** The encoding of a scalar value is well-formed. */
  lemma EncodeValid(r: int)
    requires IsScalar(r)
    ensures ValidUtf8(EncodeRune(r))
  {
    DecodeEncode(r, []);
    assert EncodeRune(r) + [] == EncodeRune(r);
    assert EncodeRune(r)[|EncodeRune(r)|..] == [];
  }

  /** Bytes after a well-formed rune do not change how it decodes. */
  lemma DecodeExtended(a: Text, b: Text)
    requires a != [] && !IsInvalid(DecodeRune(a))
    ensures DecodeRune(a + b) == DecodeRune(a)
  {
    var d := DecodeRune(a);
    EncodeDecode(a);
    var t := a[..d.size];
    assert a + b == t + (a[d.size..] + b);
    DecodeEncode(d.r, a[d.size..] + b);
  }

  /** Concatenating well-formed texts gives a well-formed text. */
  lemma {:induction false} ValidConcat(a: Text, b: Text)
    requires ValidUtf8(a) && ValidUtf8(b)
    ensures ValidUtf8(a + b)
    decreases |a|
  {
    if a == [] {
      assert a + b == b;
    } else {
      var d := DecodeRune(a);
      DecodeExtended(a, b);
      ValidConcat(a[d.size..], b);
      assert (a + b)[d.size..] == a[d.size..] + b;
    }
  }

  // ---------------------------------------------------------------------
  // UTF-16 surrogate pairs
  // ---------------------------------------------------------------------

  /** utf16.EncodeRune: the surrogate pair for a code point beyond the
   *  Basic Multilingual Plane, and (U+FFFD, U+FFFD) for any other value. */
  function EncodeSurrogates(r: int): (p: (int, int))
    ensures 0x10000 <= r <= MaxRune ==>
              0xD800 <= p.0 <= 0xDBFF && 0xDC00 <= p.1 <= 0xDFFF
    ensures !(0x10000 <= r <= MaxRune) ==> p == (RuneError, RuneError)
  {
    if r < 0x10000 || MaxRune < r then (RuneError, RuneError)
    else
      var v := r - 0x10000;
      (0xD800 + (v / 1024) % 1024, 0xDC00 + v % 1024)
  }

  /** utf16.DecodeRune for a high and a low surrogate. */
  function DecodeSurrogates(hi: int, lo: int): int
  {
    (hi - 0xD800) * 1024 + (lo - 0xDC00) + 0x10000
  }

  /** The surrogate pair decodes back to the code point, and every pair of
   *  a high and a low surrogate is produced by exactly one code point. */
  lemma SurrogateRoundTrip(r: int, hi: int, lo: int)
    ensures 0x10000 <= r <= MaxRune ==>
              DecodeSurrogates(EncodeSurrogates(r).0, EncodeSurrogates(r).1) == r
    ensures 0xD800 <= hi <= 0xDBFF && 0xDC00 <= lo <= 0xDFFF ==>
              0x10000 <= DecodeSurrogates(hi, lo) <= MaxRune &&
              EncodeSurrogates(DecodeSurrogates(hi, lo)) == (hi, lo)
  {
    if 0x10000 <= r <= MaxRune {
      var v := r - 0x10000;
      assert v / 1024 < 1024;
      assert v == (v / 1024) * 1024 + v % 1024;
    }
    if 0xD800 <= hi <= 0xDBFF && 0xDC00 <= lo <= 0xDFFF {
      var v := (hi - 0xD800) * 1024 + (lo - 0xDC00);
      assert v / 1024 == hi - 0xD800 && v % 1024 == lo - 0xDC00;
    }
  }
}
