/** A reference decoder for the contents of a JSON string (section 7 of
 *  RFC 8259), and what it reads back from the escaper of marshal.go: the
 *  original text, with each run of bytes that is not UTF-8 shown as its
 *  `«x..»` marker.  The decoder works on bytes: it accepts any byte from
 *  0x20 up other than `"` and `\`, the two-character escapes, and `\u`
 *  escapes, joining a high and a low surrogate into one code point and
 *  reading a lone surrogate as U+FFFD.
 */
module JsonString {
  import opened Bytes
  import opened Utf8
  import opened Encoding

  /** A byte that may stand for itself inside a JSON string. */
  predicate Plain(c: byte) {
    0x20 <= c && c != '"' as byte && c != '\\' as byte
  }

  predicate AllPlain(t: Text) {
    forall i | 0 <= i < |t| :: Plain(t[i])
  }

  /** The character a two-character escape `\e` stands for, or 0 when
   *  `e` does not make one. */
  function ShortUnescape(e: byte): byte {
    if e == '"' as byte then '"' as byte
    else if e == '\\' as byte then '\\' as byte
    else if e == '/' as byte then '/' as byte
    else if e == 'b' as byte then 0x08
    else if e == 'f' as byte then 0x0C
    else if e == 'n' as byte then 0x0A
    else if e == 'r' as byte then 0x0D
    else if e == 't' as byte then 0x09
    else 0
  }

  /** `\u` and four hexadecimal digits at position `i` of `t`. */
  predicate HexEscapeAt(t: Text, i: nat) {
    i + 6 <= |t| && t[i] == '\\' as byte && t[i + 1] == 'u' as byte && AllHex(t[i + 2..i + 6])
  }

  /** The value of the four digits of a `\u` escape. */
  function EscapedUnit(t: Text, i: nat): (v: nat)
    requires HexEscapeAt(t, i)
    ensures v < 0x10000
  {
    HexValueBound(t[i + 2..i + 6]);
    HexValue(t[i + 2..i + 6])
  }

  /** The first token of a JSON string body: the bytes it stands for and
   *  its length, or None when no token starts here. */
  function UnescapeStep(t: Text): (r: Option<Piece>)
    requires t != []
    ensures r.Some? ==> 1 <= r.value.len <= |t|
  {
    var c := t[0];
    if Plain(c) then Some(Piece([c], 1))
    else if c != '\\' as byte || |t| < 2 then None
    else if ShortUnescape(t[1]) != 0 then Some(Piece([ShortUnescape(t[1])], 2))
    else if !HexEscapeAt(t, 0) then None
    else
      var v := EscapedUnit(t, 0);
      if 0xD800 <= v <= 0xDBFF && HexEscapeAt(t, 6) && 0xDC00 <= EscapedUnit(t, 6) <= 0xDFFF then
        SurrogateRoundTrip(0, v, EscapedUnit(t, 6));
        Some(Piece(EncodeRune(DecodeSurrogates(v, EscapedUnit(t, 6))), 12))
      else if 0xD800 <= v <= 0xDFFF then Some(Piece(EncodeRune(RuneError), 6))
      else Some(Piece(EncodeRune(v), 6))
  }

  /** `a` in front of a decoding result, when there is one. */
  function Prefix(a: Text, r: Option<Text>): (r': Option<Text>)
    ensures r'.Some? <==> r.Some?
  {
    if r.None? then None else Some(a + r.value)
  }

  /** The bytes a JSON string body stands for, or None when it is not one. */
  function Unescape(t: Text): Option<Text>
    decreases |t|
  {
    if t == [] then Some([])
    else match UnescapeStep(t)
      case None => None
      case Some(p) => Prefix(p.out, Unescape(t[p.len..]))
  }

  /** A complete JSON string: quotes around a body that decodes. */
  predicate IsJsonString(q: Text) {
    2 <= |q| && q[0] == '"' as byte && q[|q| - 1] == '"' as byte && Unescape(q[1..|q| - 1]).Some?
  }

  // ---------------------------------------------------------------------
  // What the escaper's output stands for
  // ---------------------------------------------------------------------

  /** One step of `Visible`: a code point kept as its bytes, or a run of
   *  undecodable bytes replaced by its marker. */
  function VisibleStep(s: Text): (p: Piece)
    requires s != []
    ensures 1 <= p.len <= |s|
  {
    var d := DecodeRune(s);
    if IsInvalid(d) then
      var k := InvalidRun(s);
      Piece(InvalidToken(s[..k]), k)
    else Piece(s[..d.size], d.size)
  }

  /** `s` with every maximal run of bytes that is not UTF-8 replaced by
   *  the `«x..»` marker the escaper writes for it. */
  function Visible(s: Text): Text
    decreases |s|
  {
    if s == [] then [] else
      var p := VisibleStep(s);
      p.out + Visible(s[p.len..])
  }

  // ---------------------------------------------------------------------
  // Lemmas
  // ---------------------------------------------------------------------

  /** Four hexadecimal digits make a value below 0x10000. */
  lemma HexValueBound(t: Text)
    requires AllHex(t) && |t| == 4
    ensures HexValue(t) < 0x10000
  {
    HexValueLess(t);
    assert Pow16(4) == 0x10000;
  }

  /** `k` hexadecimal digits make a value below 16^k. */
  lemma {:induction false} HexValueLess(t: Text)
    requires AllHex(t)
    ensures HexValue(t) < Pow16(|t|)
    decreases |t|
  {
    if t != [] {
      var front := t[..|t| - 1];
      assert AllHex(front);
      HexValueLess(front);
      assert HexValue(t) == HexValue(front) * 16 + HexDigitValue(t[|t| - 1]);
      assert HexValue(front) * 16 <= (Pow16(|front|) - 1) * 16;
    }
  }

  /** Unfolding Unescape at a token. */
  lemma UnescapeAt(t: Text, p: Piece)
    requires t != [] && UnescapeStep(t) == Some(p)
    ensures Unescape(t) == Prefix(p.out, Unescape(t[p.len..]))
  {
  }

  /** Plain bytes decode to themselves, whatever follows. */
  lemma {:induction false} UnescapePlain(a: Text, r: Text)
    requires AllPlain(a)
    ensures Unescape(a + r) == Prefix(a, Unescape(r))
    decreases |a|
  {
    if a != [] {
      var t := a + r;
      assert t[0] == a[0] && Plain(a[0]);
      UnescapeAt(t, Piece([a[0]], 1));
      assert t[1..] == a[1..] + r;
      UnescapePlain(a[1..], r);
      PrefixPrefix([a[0]], a[1..], Unescape(r));
      assert [a[0]] + a[1..] == a;
    } else {
      assert a + r == r;
      if Unescape(r).Some? {
        assert [] + Unescape(r).value == Unescape(r).value;
      }
    }
  }

  lemma PrefixPrefix(x: Text, y: Text, o: Option<Text>)
    ensures Prefix(x, Prefix(y, o)) == Prefix(x + y, o)
  {
    if o.Some? {
      assert x + (y + o.value) == (x + y) + o.value;
    }
  }

  /** A `\u` escape of four digits from either table, as escape1Rune
   *  (upper case) or the older escapeByte (lower case) writes it. */
  lemma HexEscapeOf(v: nat, t: Text, i: nat, digits: Text)
    requires digits == UpperHex || digits == LowerHex
    requires v < 0x10000 && i + 6 <= |t| && t[i..i + 6] == Lit("\\u") + Hex(v, 4, digits)
    ensures HexEscapeAt(t, i) && EscapedUnit(t, i) == v
  {
    var u := Lit("\\u");
    assert u == [92, 117];
    var w := t[i..i + 6];
    assert t[i] == w[0] == 92 && t[i + 1] == w[1] == 117;
    assert t[i + 2..i + 6] == w[2..] == Hex(v, 4, digits);
    HexRoundTrip(v, 4, digits);
    assert Pow16(4) == 0x10000;
    LemmaModUnique(v, 0x10000, 0, v);
  }

  /** escape1Rune of a code point below 0x10000 decodes to its UTF-8 form,
   *  whatever follows, when it is not a surrogate. */
  lemma UnescapeEscape1(r: int, rest: Text)
    requires 0 <= r < 0x10000 && !(0xD800 <= r <= 0xDFFF)
    ensures Unescape(Escape1(r) + rest) == Prefix(EncodeRune(r), Unescape(rest))
  {
    var e := Escape1(r);
    var t := e + rest;
    if ShortEscape(r) != 0 {
      assert t[0] == '\\' as byte && t[1] == ShortEscape(r);
      assert EncodeRune(r) == [r as byte];
      UnescapeAt(t, Piece([ShortUnescape(t[1])], 2));
      assert t[2..] == rest;
    } else {
      assert t[..6] == e;
      HexEscapeOf(r, t, 0, UpperHex);
      assert t[1] == 'u' as byte;
      UnescapeAt(t, Piece(EncodeRune(r), 6));
      assert t[6..] == rest;
    }
  }

  /** A surrogate pair written by escape decodes to the code point's UTF-8
   *  form, whatever follows. */
  lemma UnescapePair(r: int, rest: Text)
    requires 0x10000 <= r <= MaxRune
    ensures Unescape(EncodeWide(r, EncodeRune(r)) + rest) == Prefix(EncodeRune(r), Unescape(rest))
  {
    var (hi, lo) := EncodeSurrogates(r);
    SurrogateRoundTrip(r, hi, lo);
    var e1, e2 := Escape1(hi), Escape1(lo);
    assert e1 == Lit("\\u") + Hex(hi, 4, UpperHex) && e2 == Lit("\\u") + Hex(lo, 4, UpperHex);
    var t := e1 + e2 + rest;
    assert t[..6] == e1 && t[6..12] == e2;
    HexEscapeOf(hi, t, 0, UpperHex);
    HexEscapeOf(lo, t, 6, UpperHex);
    assert t[1] == 'u' as byte;
    UnescapeAt(t, Piece(EncodeRune(r), 12));
    assert t[12..] == rest;
  }

  /** The bytes of a code point from 0x80 up are all 0x80 or above. */
  lemma EncodeHigh(r: int)
    requires IsScalar(r) && 0x80 <= r
    ensures AllPlain(EncodeRune(r))
  {
  }

  /** The hexadecimal digits of the marker are plain bytes. */
  lemma {:induction false} HexBytesPlain(t: Text)
    ensures AllPlain(HexBytes(t))
    decreases |t|
  {
    if t != [] {
      HexBytesPlain(t[..|t| - 1]);
      HexRoundTrip(t[|t| - 1] as int, 2, UpperHex);
    }
  }

  /** The marker for undecodable bytes is made of plain bytes. */
  lemma InvalidTokenPlain(t: Text)
    ensures AllPlain(InvalidToken(t))
  {
    HexBytesPlain(t);
  }

  /** One step of the escaper decodes to one step of `Visible`. */
  lemma UnescapeStepOut(s: Text, rest: Text)
    requires s != []
    ensures EscapeStep(s).len == VisibleStep(s).len
    ensures Unescape(EscapeStep(s).out + rest) == Prefix(VisibleStep(s).out, Unescape(rest))
  {
    var c := s[0];
    var d := DecodeRune(s);
    if NoEsc(c) {
      assert EscapeStep(s) == Piece([c], 1);
      assert VisibleStep(s) == Piece([c], 1) by {
        assert s[..1] == [c];
      }
      UnescapePlain([c], rest);
    } else if c < 128 {
      assert EscapeStep(s) == Piece(Escape1(c as int), 1);
      assert VisibleStep(s) == Piece([c], 1) by {
        assert s[..1] == [c];
      }
      assert EncodeRune(c as int) == [c];
      UnescapeEscape1(c as int, rest);
    } else if IsInvalid(d) {
      InvalidTokenPlain(s[..InvalidRun(s)]);
      UnescapePlain(InvalidToken(s[..InvalidRun(s)]), rest);
    } else {
      EncodeDecode(s);
      var enc := s[..d.size];
      if 0xFFFF < d.r {
        UnescapePair(d.r, rest);
      } else if d.r < 0xA0 {
        UnescapeEscape1(d.r, rest);
      } else {
        EncodeHigh(d.r);
        UnescapePlain(enc, rest);
      }
    }
  }

  /** The escaper's output is a JSON string body, and it stands for the
   *  original text with each run of bytes that are not UTF-8 replaced by
   *  its marker. */
  lemma {:induction false} UnescapeEscaped(s: Text)
    ensures Unescape(Escaped(s)) == Some(Visible(s))
    decreases |s|
  {
    if s != [] {
      var p := EscapeStep(s);
      UnescapeEscaped(s[p.len..]);
      UnescapeStepOut(s, Escaped(s[p.len..]));
    }
  }

  /** On well-formed UTF-8 the marker never appears: decoding the
   *  escaper's output gives back exactly the original text. */
  lemma {:induction false} VisibleValid(s: Text)
    requires ValidUtf8(s)
    ensures Visible(s) == s
    decreases |s|
  {
    if s != [] {
      var d := DecodeRune(s);
      VisibleValid(s[d.size..]);
      assert s[..d.size] + s[d.size..] == s;
    }
  }

  /** quote() of one well-formed string writes a JSON string whose value
   *  is that string. */
  lemma QuoteRoundTrip(s: Text)
    ensures IsJsonString(Quoted([s], []))
    ensures ValidUtf8(s) ==> Unescape(Quoted([s], [])[1..|Quoted([s], [])| - 1]) == Some(s)
  {
    var q := Quoted([s], []);
    assert EscapedAll([s]) == Escaped(s) by {
      assert EscapedAll([s][1..]) == [];
    }
    assert q[1..|q| - 1] == Escaped(s);
    UnescapeEscaped(s);
    if ValidUtf8(s) {
      VisibleValid(s);
    }
  }

  /** Text that is only printable ASCII other than `"` and `\` is written
   *  unchanged. */
  lemma {:induction false} EscapedPlainAscii(s: Text)
    requires forall i | 0 <= i < |s| :: NoEsc(s[i])
    ensures Escaped(s) == s
    decreases |s|
  {
    if s != [] {
      EscapedPlainAscii(s[1..]);
      assert [s[0]] + s[1..] == s;
    }
  }

  // ---------------------------------------------------------------------
  // The output is UTF-8
  // ---------------------------------------------------------------------

  predicate Ascii(t: Text) {
    forall i | 0 <= i < |t| :: t[i] < 0x80
  }

  /** ASCII text is well-formed UTF-8. */
  lemma {:induction false} AsciiValid(t: Text)
    requires Ascii(t)
    ensures ValidUtf8(t)
    decreases |t|
  {
    if t != [] {
      AsciiValid(t[1..]);
    }
  }

  /** escape1Rune writes ASCII only. */
  lemma Escape1Ascii(r: int)
    ensures Ascii(Escape1(r))
  {
    if ShortEscape(r) == 0 {
      HexAscii(r, 4);
    }
  }

  /** Digits drawn from the upper-case table are ASCII. */
  lemma {:induction false} HexAscii(v: int, width: nat)
    ensures Ascii(Hex(v, width, UpperHex))
    decreases width
  {
    if width > 0 {
      HexAscii(v / 16, width - 1);
      HexDigitAt(UpperHex, v % 16);
    }
  }

  /** `«` and `»` in UTF-8. */
  lemma QuoteMarksValid()
    ensures ValidUtf8([0xC2, 0xAB]) && ValidUtf8([0xC2, 0xBB])
  {
    EncodeValid(0xAB);
    assert EncodeRune(0xAB) == [0xC2, 0xAB];
    EncodeValid(0xBB);
    assert EncodeRune(0xBB) == [0xC2, 0xBB];
  }

  /** The marker for undecodable bytes is well-formed UTF-8. */
  lemma InvalidTokenValid(t: Text)
    ensures ValidUtf8(InvalidToken(t))
  {
    var mid := ['x' as byte] + HexBytes(t);
    HexBytesAscii(t);
    AsciiValid(mid);
    QuotedValid(mid);
    InvalidTokenShape(t);
  }

  /** The marker is its hexadecimal digits after an `x`, between the two
   *  guillemets. */
  lemma InvalidTokenShape(t: Text)
    ensures InvalidToken(t) == [0xC2, 0xAB] + (['x' as byte] + HexBytes(t)) + [0xC2, 0xBB]
  {
    var open: Text := [0xC2, 0xAB];
    assert [0xC2, 0xAB, 'x' as byte] == open + ['x' as byte];
  }

  lemma QuotedValid(mid: Text)
    requires ValidUtf8(mid)
    ensures ValidUtf8([0xC2, 0xAB] + mid + [0xC2, 0xBB])
  {
    QuoteMarksValid();
    Surround([0xC2, 0xAB], mid, [0xC2, 0xBB]);
  }

  lemma Surround(a: Text, b: Text, c: Text)
    requires ValidUtf8(a) && ValidUtf8(b) && ValidUtf8(c)
    ensures ValidUtf8(a + b + c)
  {
    ValidConcat(a, b);
    ValidConcat(a + b, c);
  }

  /** The hexadecimal digits of the marker are ASCII. */
  lemma {:induction false} HexBytesAscii(t: Text)
    ensures Ascii(HexBytes(t))
    decreases |t|
  {
    if t != [] {
      HexBytesAscii(t[..|t| - 1]);
      HexRoundTrip(t[|t| - 1] as int, 2, UpperHex);
    }
  }

  /** Each step of the escaper writes well-formed UTF-8. */
  lemma StepValid(s: Text)
    requires s != []
    ensures ValidUtf8(EscapeStep(s).out)
  {
    var c := s[0];
    var d := DecodeRune(s);
    if NoEsc(c) {
      AsciiValid([c]);
    } else if c < 128 {
      Escape1Ascii(c as int);
      AsciiValid(Escape1(c as int));
    } else if IsInvalid(d) {
      InvalidTokenValid(s[..InvalidRun(s)]);
    } else if 0xFFFF < d.r {
      var (hi, lo) := EncodeSurrogates(d.r);
      Escape1Ascii(hi);
      Escape1Ascii(lo);
      AsciiValid(Escape1(hi) + Escape1(lo));
    } else if d.r < 0xA0 {
      Escape1Ascii(d.r);
      AsciiValid(Escape1(d.r));
    } else {
      EncodeDecode(s);
      EncodeValid(d.r);
    }
  }

  /** Whatever bytes it is given, the escaper writes well-formed UTF-8
   *  (section 8.1 of RFC 8259). */
  lemma {:induction false} EscapedValid(s: Text)
    ensures ValidUtf8(Escaped(s))
    decreases |s|
  {
    if s != [] {
      var p := EscapeStep(s);
      StepValid(s);
      EscapedValid(s[p.len..]);
      ValidConcat(p.out, Escaped(s[p.len..]));
    }
  }
}
