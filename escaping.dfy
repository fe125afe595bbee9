/** What marshal.go's escaper does to each kind of input, read off the
 *  function `Escaped` that escape() and escapeBytes() are proved to
 *  append: printable ASCII is kept, other ASCII goes through escape1Rune,
 *  the C1 controls are escaped, the rest of the Basic Multilingual Plane
 *  is kept as UTF-8, higher code points become surrogate pairs, and each
 *  maximal run of undecodable bytes becomes one visible marker.
 */
module EscapeRules {
  import opened Bytes
  import opened Utf8
  import opened Encoding

  // -----------------------------------------------------------------------
  // escape1Rune
  // -----------------------------------------------------------------------

  /** The seven characters JSON escapes with a backslash and one letter. */
  predicate HasShortEscape(r: int) {
    r == '"' as int || r == '\\' as int || r == 0x08 || r == 0x0C || r == 0x0A || r == 0x0D || r == 0x09
  }

  /** escape1Rune writes two bytes exactly for the seven short escapes, and
   *  `\u` with four upper-case hexadecimal digits for everything else. */
  lemma Escape1Table(r: int)
    ensures |Escape1(r)| == 2 <==> HasShortEscape(r)
    ensures r == '"' as int ==> Escape1(r) == Lit("\\\"")
    ensures r == '\\' as int ==> Escape1(r) == Lit("\\\\")
    ensures r == 0x08 ==> Escape1(r) == Lit("\\b")
    ensures r == 0x0C ==> Escape1(r) == Lit("\\f")
    ensures r == 0x0A ==> Escape1(r) == Lit("\\n")
    ensures r == 0x0D ==> Escape1(r) == Lit("\\r")
    ensures r == 0x09 ==> Escape1(r) == Lit("\\t")
    ensures !HasShortEscape(r) ==> Escape1(r) == Lit("\\u") + Hex(r, 4, UpperHex)
  {
  }

  /** Two digits, spelled out. */
  lemma HexTwo(v: int, d: Text)
    requires 0 <= v < 256 && |d| == 16
    ensures Hex(v, 2, d) == [d[v / 16], d[v % 16]]
  {
    var hi := v / 16;
    assert 0 <= hi < 16 && hi % 16 == hi;
    assert Hex(hi, 1, d) == [] + [d[hi]];
  }

  /** Three digits, spelled out. */
  lemma HexThree(v: int, d: Text)
    requires 0 <= v < 0x1000 && |d| == 16
    ensures Hex(v, 3, d) == [d[v / 0x100], d[v / 16 % 16], d[v % 16]]
  {
    var q := v / 16;
    DivDiv(v, 16, 16);
    HexTwo(q, d);
    var two := Hex(q, 2, d);
    assert Hex(v, 3, d) == two + [d[v % 16]];
  }

  /** Four digits, spelled out. */
  lemma HexFour(v: int, d: Text)
    requires 0 <= v < 0x10000 && |d| == 16
    ensures Hex(v, 4, d) == [d[v / 0x1000], d[v / 0x100 % 16], d[v / 16 % 16], d[v % 16]]
  {
    var q := v / 16;
    assert q / 0x100 == v / 0x1000 && q / 16 == v / 0x100 by {
      DivDiv(v, 16, 0x100);
      DivDiv(v, 16, 16);
    }
    HexThree(q, d);
    var three, w := Hex(q, 3, d), d[v % 16];
    assert Hex(v, 4, d) == three + [w];
  }

  /** The escape1Rune cases of the package's unit test. */
  lemma Escape1Examples()
    ensures Escape1(0x00) == Lit("\\u0000")
    ensures Escape1(0x01) == Lit("\\u0001")
    ensures Escape1(0xF234) == Lit("\\uF234")
  {
    HexFour(0x0000, UpperHex);
    HexFour(0x0001, UpperHex);
    HexFour(0xF234, UpperHex);
    assert UpperHex[0] == '0' as byte && UpperHex[1] == '1' as byte;
    assert UpperHex[2] == '2' as byte && UpperHex[3] == '3' as byte;
    assert UpperHex[4] == '4' as byte && UpperHex[15] == 'F' as byte;
  }

  // -----------------------------------------------------------------------
  // escape() one input class at a time
  // -----------------------------------------------------------------------

  /** An ASCII byte is copied exactly when it is printable and neither `"`
   *  nor `\`; any other, DEL (0x7F) included, goes through escape1Rune. */
  lemma AsciiByte(c: byte, rest: Text)
    requires c < 0x80
    ensures Escaped([c] + rest) == (if NoEsc(c) then [c] else Escape1(c as int)) + Escaped(rest)
    ensures Escaped([c]) == [c] <==> 0x20 <= c < 0x7F && c != '"' as byte && c != '\\' as byte
  {
    assert ([c] + rest)[1..] == rest;
    assert [c][1..] == [];
  }

  /** A well-formed multi-byte sequence is consumed whole, and what is
   *  written depends only on its code point. */
  lemma WideRune(r: int, rest: Text)
    requires IsScalar(r) && 0x80 <= r
    ensures Escaped(EncodeRune(r) + rest) == EncodeWide(r, EncodeRune(r)) + Escaped(rest)
  {
    var enc := EncodeRune(r);
    var s := enc + rest;
    DecodeEncode(r, rest);
    assert s[0] >= 0x80;
    assert s[..|enc|] == enc && s[|enc|..] == rest;
  }

  /** Four digits of a value below 256: two zeros, then its two digits. */
  lemma HexOfByte(v: int)
    requires 0 <= v < 256
    ensures Hex(v, 4, UpperHex) == Lit("00") + Hex(v, 2, UpperHex)
  {
    DivDiv(v, 16, 16);
    var d0, d1 := UpperHex[v % 16], UpperHex[(v / 16) % 16];
    assert v / 16 / 16 == 0;
    assert Hex(v / 16 / 16, 2, UpperHex) == Lit("00");
    assert Hex(v / 16, 3, UpperHex) == Lit("00") + [d1];
    assert Hex(v / 16, 1, UpperHex) == [d1];
    assert Hex(v, 2, UpperHex) == [d1, d0];
  }

  /** escape1Rune of a C1 control: `\u00` and two digits. */
  lemma C1Escape1(r: int)
    requires 0x80 <= r < 0xA0
    ensures Escape1(r) == Lit("\\u00") + Hex(r, 2, UpperHex)
  {
    assert ShortEscape(r) == 0;
    HexOfByte(r);
    LitConcat("\\u", "00");
    assert "\\u" + "00" == "\\u00";
  }

  /** What escape writes for a C1 control, whatever its encoding. */
  lemma C1Escape(r: int, enc: Text)
    requires 0x80 <= r < 0xA0
    ensures EncodeWide(r, enc) == Lit("\\u00") + Hex(r, 2, UpperHex)
  {
    C1Escape1(r);
  }

  /** The C1 controls U+0080..U+009F are written as `\u00XX`. */
  lemma C1Control(r: int, rest: Text)
    requires 0x80 <= r < 0xA0
    ensures Escaped(EncodeRune(r) + rest) == Lit("\\u00") + Hex(r, 2, UpperHex) + Escaped(rest)
  {
    WideRune(r, rest);
    C1Escape(r, EncodeRune(r));
  }

  /** The rest of the Basic Multilingual Plane, U+FFFD included, is copied
   *  as its own UTF-8 bytes. */
  lemma BmpKept(r: int, rest: Text)
    requires IsScalar(r) && 0xA0 <= r <= 0xFFFF
    ensures Escaped(EncodeRune(r) + rest) == EncodeRune(r) + Escaped(rest)
  {
    WideRune(r, rest);
  }

  /** What escape writes for a code point above U+FFFF, whatever its
   *  encoding. */
  lemma AstralEscape(r: int, enc: Text)
    requires 0xFFFF < r <= MaxRune
    ensures EncodeWide(r, enc)
      == Lit("\\u") + Hex(EncodeSurrogates(r).0, 4, UpperHex)
       + Lit("\\u") + Hex(EncodeSurrogates(r).1, 4, UpperHex)
  {
    var hi, lo := EncodeSurrogates(r).0, EncodeSurrogates(r).1;
    assert ShortEscape(hi) == 0 && ShortEscape(lo) == 0;
  }

  /** A code point above U+FFFF is written as its UTF-16 surrogate pair,
   *  each half as `\u` and four digits. */
  lemma AstralPair(r: int, rest: Text)
    requires 0xFFFF < r <= MaxRune
    ensures 0xD800 <= EncodeSurrogates(r).0 <= 0xDBFF && 0xDC00 <= EncodeSurrogates(r).1 <= 0xDFFF
    ensures Escaped(EncodeRune(r) + rest)
      == Lit("\\u") + Hex(EncodeSurrogates(r).0, 4, UpperHex)
       + Lit("\\u") + Hex(EncodeSurrogates(r).1, 4, UpperHex) + Escaped(rest)
  {
    WideRune(r, rest);
    AstralEscape(r, EncodeRune(r));
  }

  /** Every position inside the run RunFrom measures starts an undecodable
   *  sequence, and the run stops at the end or at a decodable one. */
  lemma {:induction false} RunMaximal(s: Text, i: nat, j: nat)
    requires 1 <= i <= |s| && i <= j < RunFrom(s, i)
    ensures IsInvalid(DecodeRune(s[j..]))
    decreases j - i
  {
    if j > i {
      RunMaximal(s, i + 1, j);
    }
  }

  lemma RunStops(s: Text, i: nat)
    requires 1 <= i <= |s|
    ensures RunFrom(s, i) == |s| || !IsInvalid(DecodeRune(s[RunFrom(s, i)..]))
    decreases |s| - i
  {
    if i < |s| && IsInvalid(DecodeRune(s[i..])) {
      RunStops(s, i + 1);
    }
  }

  /** Undecodable bytes: the maximal run that starts with them becomes one
   *  `«x..»` marker, and escaping resumes right after it. */
  lemma InvalidBytes(s: Text)
    requires s != [] && 0x80 <= s[0] && IsInvalid(DecodeRune(s))
    ensures var k := InvalidRun(s);
      1 <= k <= |s| &&
      Escaped(s) == InvalidToken(s[..k]) + Escaped(s[k..]) &&
      (forall j | 1 <= j < k :: IsInvalid(DecodeRune(s[j..]))) &&
      (k == |s| || !IsInvalid(DecodeRune(s[k..])))
  {
    var k := InvalidRun(s);
    forall j | 1 <= j < k
      ensures IsInvalid(DecodeRune(s[j..]))
    {
      RunMaximal(s, 1, j);
    }
    RunStops(s, 1);
  }

  // -----------------------------------------------------------------------
  // The escape() cases of the package's unit test
  // -----------------------------------------------------------------------

  lemma ControlExample()
    ensures Escaped([0x01]) == Lit("\\u0001")
  {
    AsciiByte(0x01, []);
    Escape1Examples();
    assert [0x01 as byte] + [] == [0x01];
  }

  lemma C1Example()
    ensures Escaped([0xC2, 0x9E]) == Lit("\\u009E")
  {
    var enc := EncodeRune(0x9E);
    assert enc == [0xC2, 0x9E] by {
      assert 0x9E / 64 == 2 && 0x9E % 64 == 0x1E;
    }
    assert enc + [] == enc;
    C1Control(0x9E, []);
    assert Hex(0x9E, 2, UpperHex) == Lit("9E") by {
      HexTwo(0x9E, UpperHex);
      assert UpperHex[9] == '9' as byte && UpperHex[14] == 'E' as byte;
    }
    LitConcat("\\u00", "9E");
    assert "\\u00" + "9E" == "\\u009E";
  }

  lemma InvalidExample()
    ensures Escaped([0x01, 0x20, 0x9A]) == Lit("\\u0001 ") + InvalidToken([0x9A])
  {
    var s: Text := [0x01, 0x20, 0x9A];
    assert Escaped([0x9A]) == InvalidToken([0x9A]) by {
      InvalidBytes([0x9A]);
      assert [0x9A][1..] == [];
    }
    assert Escaped(s[1..]) == [0x20] + Escaped([0x9A]) by {
      AsciiByte(0x20, [0x9A]);
      assert s[1..] == [0x20 as byte] + [0x9A];
    }
    assert Escaped(s) == Escape1(0x01) + Escaped(s[1..]) by {
      AsciiByte(0x01, s[1..]);
      assert s == [0x01 as byte] + s[1..];
    }
    Escape1Examples();
    LitConcat("\\u0001", " ");
    assert "\\u0001" + " " == "\\u0001 ";
  }

  /** The marker for the undecodable byte 0x9A. */
  lemma MarkerExample()
    ensures InvalidToken([0x9A]) == [0xC2, 0xAB] + Lit("x9A") + [0xC2, 0xBB]
  {
    HexTwo(0x9A, UpperHex);
    assert HexBytes([0x9A]) == HexBytes([]) + Hex(0x9A, 2, UpperHex);
    assert UpperHex[9] == '9' as byte && UpperHex[10] == 'A' as byte;
  }
}
