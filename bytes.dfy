/** Bytes, text, and the small digit formats the logger writes.
 *
 *  A Go `string` and a Go `[]byte` are both sequences of bytes; the model
 *  represents both as `Text`.  Literal text in the model is written as a
 *  Dafny string and converted with `Lit`.
 */
module Bytes {

  newtype byte = x: int | 0 <= x < 256

  /** The bytes of a Go string or byte slice. */
  type Text = seq<byte>

  datatype Option<T> = None | Some(value: T)

  /** Go's `int64` and `uint64` (and every narrower integer type). */
  newtype int64 = x: int | -0x8000_0000_0000_0000 <= x < 0x8000_0000_0000_0000
  newtype uint64 = x: int | 0 <= x < 0x1_0000_0000_0000_0000

  predicate IsLatin(s: string) {
    forall i | 0 <= i < |s| :: s[i] as int < 256
  }

  /** The bytes of a literal whose characters are all below 256. */
  function Lit(s: string): (r: Text)
    requires IsLatin(s)
    ensures |r| == |s|
    ensures forall i | 0 <= i < |s| :: r[i] as int == s[i] as int
  {
    seq(|s|, i requires 0 <= i < |s| => s[i] as int as byte)
  }

  /** Converting literals commutes with joining them. */
  lemma LitConcat(a: string, b: string)
    requires IsLatin(a) && IsLatin(b)
    ensures IsLatin(a + b) && Lit(a) + Lit(b) == Lit(a + b)
  {
    assert forall i | 0 <= i < |a + b| :: (a + b)[i] == if i < |a| then a[i] else b[i - |a|];
  }

  /** The concatenation of a list of chunks, in order. */
  function Concat(chunks: seq<Text>): (r: Text)
  {
    if chunks == [] then [] else chunks[0] + Concat(chunks[1..])
  }

  /** One or two chunks concatenate to themselves. */
  lemma ConcatPair(a: Text, b: Text)
    ensures Concat([a]) == a && Concat([a, b]) == a + b
  {
    assert [a, b][1..] == [b];
    assert [b][1..] == [];
  }

  /** A prefix of the chunks concatenates to no more bytes than all. */
  lemma {:induction false} ConcatPrefix(chunks: seq<Text>, i: nat)
    requires i <= |chunks|
    ensures |Concat(chunks[..i])| <= |Concat(chunks)|
  {
    if i > 0 {
      assert chunks[..i][1..] == chunks[1..][..i - 1];
      ConcatPrefix(chunks[1..], i - 1);
    }
  }

  lemma {:induction false} ConcatSnoc(chunks: seq<Text>, t: Text)
    ensures Concat(chunks + [t]) == Concat(chunks) + t
  {
    if chunks == [] {
      assert chunks + [t] == [t];
    } else {
      assert (chunks + [t])[1..] == chunks[1..] + [t];
      ConcatSnoc(chunks[1..], t);
    }
  }

  // ---------------------------------------------------------------------
  // Hexadecimal digits
  // ---------------------------------------------------------------------

  /** The digit tables of marshal.go (upper case) and buffer.go (lower case). */
  const UpperHex: Text := Lit("0123456789ABCDEF")
  const LowerHex: Text := Lit("0123456789abcdef")

  predicate IsHexDigit(c: byte) {
    ('0' as byte <= c <= '9' as byte) || ('a' as byte <= c <= 'f' as byte) || ('A' as byte <= c <= 'F' as byte)
  }

  /** The value of one hexadecimal digit. */
  function HexDigitValue(c: byte): (v: nat)
    requires IsHexDigit(c)
    ensures v < 16
    ensures v < 10 <==> '0' as byte <= c <= '9' as byte
  {
    if c <= '9' as byte then (c - '0' as byte) as nat
    else if c <= 'F' as byte then (c - 'A' as byte) as nat + 10
    else (c - 'a' as byte) as nat + 10
  }

  lemma HexTables()
    ensures |UpperHex| == 16 && |LowerHex| == 16
    ensures forall v | 0 <= v < 16 :: IsHexDigit(UpperHex[v]) && HexDigitValue(UpperHex[v]) == v
    ensures forall v | 0 <= v < 16 :: IsHexDigit(LowerHex[v]) && HexDigitValue(LowerHex[v]) == v
    ensures forall v | 10 <= v < 16 :: 'A' as byte <= UpperHex[v] <= 'F' as byte
    ensures forall v | 10 <= v < 16 :: 'a' as byte <= LowerHex[v] <= 'f' as byte
  {
  }

  function Pow16(k: nat): (r: nat)
    ensures r >= 1
  {
    if k == 0 then 1 else 16 * Pow16(k - 1)
  }

  /** The low `width` hexadecimal digits of `v`, most significant first,
   *  drawn from the 16-entry table `digits`.  Dafny's `/` and `%` by 16
   *  are Go's `>> 4` and `& 0xF` on two's complement values. */
  function Hex(v: int, width: nat, digits: Text): (r: Text)
    requires |digits| == 16
    ensures |r| == width
    decreases width
  {
    if width == 0 then [] else Hex(v / 16, width - 1, digits) + [digits[v % 16]]
  }

  predicate AllHex(t: Text) {
    forall i | 0 <= i < |t| :: IsHexDigit(t[i])
  }

  /** The number a string of hexadecimal digits denotes. */
  function HexValue(t: Text): nat
    requires AllHex(t)
  {
    if t == [] then 0 else HexValue(t[..|t| - 1]) * 16 + HexDigitValue(t[|t| - 1])
  }

  /** One entry of a digit table, read back. */
  lemma HexDigitAt(digits: Text, d: nat)
    requires digits == UpperHex || digits == LowerHex
    requires d < 16
    ensures |digits| == 16 && IsHexDigit(digits[d]) && HexDigitValue(digits[d]) == d
  {
    HexTables();
  }

  /** Reading back the digits `Hex` wrote gives the low bits of the value. */
  lemma {:induction false} HexRoundTrip(v: nat, width: nat, digits: Text)
    requires digits == UpperHex || digits == LowerHex
    ensures AllHex(Hex(v, width, digits))
    ensures HexValue(Hex(v, width, digits)) == v % Pow16(width)
  {
    HexDigitAt(digits, v % 16);
    if width > 0 {
      var front := Hex(v / 16, width - 1, digits);
      HexRoundTrip(v / 16, width - 1, digits);
      HexValueSnoc(front, digits[v % 16]);
      DivModPow16(v, width);
    }
  }

  /** One more digit multiplies the value by 16 and adds the digit. */
  lemma HexValueSnoc(t: Text, c: byte)
    requires AllHex(t) && IsHexDigit(c)
    ensures AllHex(t + [c]) && HexValue(t + [c]) == HexValue(t) * 16 + HexDigitValue(c)
  {
    assert (t + [c])[..|t|] == t;
  }

  lemma DivModPow16(v: nat, width: nat)
    requires width > 0
    ensures ((v / 16) % Pow16(width - 1)) * 16 + v % 16 == v % Pow16(width)
  {
    var p := Pow16(width - 1);
    var q := v / 16;
    var a := q / p;
    var b := q % p;
    assert q == a * p + b;
    assert v == q * 16 + v % 16;
    assert v == a * (16 * p) + (b * 16 + v % 16);
    assert b * 16 + v % 16 < 16 * p;
    LemmaModUnique(v, 16 * p, a, b * 16 + v % 16);
  }

  lemma LemmaModUnique(v: nat, m: nat, a: nat, r: nat)
    requires m > 0 && r < m && v == a * m + r
    ensures v % m == r
  {
    DivModUnique(v, m, a, r);
  }

  /** Euclidean division is determined by quotient and remainder. */
  lemma DivModUnique(v: int, m: int, a: int, r: int)
    requires m > 0 && 0 <= r < m && v == a * m + r
    ensures v / m == a && v % m == r
  {
    var q, s := v / m, v % m;
    assert q * m + s == a * m + r;
    if q > a {
      MulGap(a, q, m);
      assert false;
    } else if q < a {
      MulGap(q, a, m);
      assert false;
    }
  }

  lemma MulGap(x: int, y: int, m: int)
    requires x < y && m > 0
    ensures x * m + m <= y * m
  {
    var d := y - x - 1;
    MulNonneg(d, m);
    assert y * m == x * m + m + d * m by {
      assert y == x + 1 + d;
    }
  }

  lemma MulNonneg(a: int, b: int)
    requires a >= 0 && b >= 0
    ensures a * b >= 0
  {
  }

  /** Dividing twice is dividing by the product (floor division). */
  lemma DivDiv(v: int, a: int, b: int)
    requires a > 0 && b > 0
    ensures (v / a) / b == v / (a * b)
  {
    var q, s := v / a, v % a;
    var t, u := q / b, q % b;
    assert v == a * q + s;
    assert q == b * t + u;
    assert a * q == (a * b) * t + a * u by {
      assert a * (b * t + u) == a * (b * t) + a * u;
      assert a * (b * t) == (a * b) * t;
    }
    MulNonneg(a, u);
    MulNonneg(a, b - 1 - u);
    assert a * (b - 1 - u) == a * b - a - a * u;
    DivModUnique(v, a * b, t, a * u + s);
  }

  /** Hex, read from the left: its first digit, then the rest. */
  lemma {:induction false} HexStep(v: int, o: nat, digits: Text)
    requires o >= 1 && |digits| == 16
    ensures Hex(v, o, digits) == [digits[(v / Pow16(o - 1)) % 16]] + Hex(v, o - 1, digits)
    ensures v / Pow16(o - 1) / 16 == v / Pow16(o)
    decreases o
  {
    DivDiv(v, Pow16(o - 1), 16);
    assert Pow16(o - 1) * 16 == Pow16(o);
    if o > 1 {
      var w := v / 16;
      HexStep(w, o - 1, digits);
      DivDiv(v, 16, Pow16(o - 2));
      assert 16 * Pow16(o - 2) == Pow16(o - 1);
      var top := [digits[(v / Pow16(o - 1)) % 16]];
      assert Hex(w, o - 1, digits) == top + Hex(w, o - 2, digits);
      assert Hex(v, o, digits) == (top + Hex(w, o - 2, digits)) + [digits[v % 16]];
      assert Hex(v, o - 1, digits) == Hex(w, o - 2, digits) + [digits[v % 16]];
    } else {
      assert v / Pow16(0) == v;
    }
  }

  // ---------------------------------------------------------------------
  // Decimal digits
  // ---------------------------------------------------------------------

  function DecimalDigit(d: nat): byte
    requires d < 10
  {
    ('0' as int + d) as byte
  }

  predicate IsDigit(c: byte) {
    '0' as byte <= c <= '9' as byte
  }

  /** The shortest decimal form of `n` (strconv.FormatUint, `%d`). */
  function NatText(n: nat): (r: Text)
    ensures 1 <= |r|
    ensures forall i | 0 <= i < |r| :: IsDigit(r[i])
  {
    if n < 10 then [DecimalDigit(n)] else NatText(n / 10) + [DecimalDigit(n % 10)]
  }

  /** The decimal form of a signed value (strconv.AppendInt, `%d`). */
  function IntText(i: int): (r: Text)
    ensures 1 <= |r|
    ensures i >= 0 ==> r == NatText(i)
    ensures i < 0 ==> r == Lit("-") + NatText(-i)
  {
    if i < 0 then Lit("-") + NatText(-i) else NatText(i)
  }

  function Pow10(k: nat): (r: nat)
    ensures r >= 1
  {
    if k == 0 then 1 else 10 * Pow10(k - 1)
  }

  lemma {:induction false} Pow10Add(a: nat, b: nat)
    ensures Pow10(a + b) == Pow10(a) * Pow10(b)
  {
    if a > 0 {
      Pow10Add(a - 1, b);
      assert Pow10(a + b) == 10 * Pow10(a - 1 + b);
    }
  }

  /** The powers of ten that bound 64-bit values. */
  lemma Pow10Large()
    ensures Pow10(19) == 10_000_000_000_000_000_000 && Pow10(20) == 100_000_000_000_000_000_000
  {
    var p10 := Pow10(10);
    assert p10 == 10_000_000_000;
    Pow10Add(10, 9);
    Pow10Add(10, 10);
  }

  /** A value below 10^k has at most k digits. */
  lemma {:induction false} NatTextLength(v: nat, k: nat)
    requires 1 <= k && v < Pow10(k)
    ensures |NatText(v)| <= k
  {
    if v >= 10 {
      assert k >= 2;
      NatTextLength(v / 10, k - 1);
    }
  }

  /** strconv.AppendInt and AppendUint of a 64-bit value write at most 20
   *  bytes. */
  lemma IntTextLength(i: int)
    requires -0x8000_0000_0000_0000 <= i < 0x1_0000_0000_0000_0000
    ensures |IntText(i)| <= 20
  {
    Pow10Large();
    if i < 0 {
      NatTextLength(-i, 19);
    } else {
      NatTextLength(i, 20);
    }
  }

  predicate AllDigits(t: Text) {
    forall i | 0 <= i < |t| :: IsDigit(t[i])
  }

  /** The number a string of decimal digits denotes. */
  function DigitsValue(t: Text): nat
    requires AllDigits(t)
  {
    if t == [] then 0 else DigitsValue(t[..|t| - 1]) * 10 + (t[|t| - 1] - '0' as byte) as nat
  }

  lemma {:induction false} NatTextRoundTrip(n: nat)
    ensures AllDigits(NatText(n)) && DigitsValue(NatText(n)) == n
  {
    if n >= 10 {
      NatTextRoundTrip(n / 10);
      var t := NatText(n);
      assert t[..|t| - 1] == NatText(n / 10);
    }
  }

  /** The result of strconv.ParseUint(t, 10, 64): on a syntax error the
   *  value is 0, on overflow it is the largest uint64; `ok` is false in
   *  both cases. */
  datatype Parsed = Parsed(value: nat, ok: bool)

  const MaxUint64: nat := 0xFFFF_FFFF_FFFF_FFFF

  function ParseUint64(t: Text): (p: Parsed)
    ensures p.value <= MaxUint64
  {
    if t == [] then Parsed(0, false) else ParseFrom(t, 0)
  }

  /** ParseUint's left-to-right scan with `acc` the value of the digits so
   *  far; it stops at the first non-digit or at the first overflow. */
  function ParseFrom(t: Text, acc: nat): (p: Parsed)
    requires acc <= MaxUint64
    ensures p.value <= MaxUint64
    decreases |t|
  {
    if t == [] then Parsed(acc, true)
    else if !IsDigit(t[0]) then Parsed(0, false)
    else
      var next := acc * 10 + (t[0] - '0' as byte) as nat;
      if next > MaxUint64 then Parsed(MaxUint64, false)
      else ParseFrom(t[1..], next)
  }

  /** Digits that fit in 64 bits parse back to their value. */
  lemma {:induction false} ParseFromDigits(pre: Text, t: Text)
    requires AllDigits(pre + t)
    requires DigitsValue(pre + t) <= MaxUint64
    ensures AllDigits(pre) && DigitsValue(pre) <= MaxUint64
    ensures ParseFrom(t, DigitsValue(pre)) == Parsed(DigitsValue(pre + t), true)
    decreases |t|
  {
    assert AllDigits(pre) by { assert forall i | 0 <= i < |pre| :: (pre + t)[i] == pre[i]; }
    DigitsValuePrefix(pre, t);
    if t != [] {
      var pre' := pre + [t[0]];
      assert pre' + t[1..] == pre + t;
      assert pre'[..|pre'| - 1] == pre;
      assert IsDigit(t[0]) by { assert (pre + t)[|pre|] == t[0]; }
      assert AllDigits(pre');
      assert DigitsValue(pre') == DigitsValue(pre) * 10 + (t[0] - '0' as byte) as nat;
      DigitsValuePrefix(pre', t[1..]);
      ParseFromDigits(pre', t[1..]);
    } else {
      assert pre + t == pre;
    }
  }

  lemma {:induction false} DigitsValuePrefix(pre: Text, t: Text)
    requires AllDigits(pre + t)
    ensures AllDigits(pre) && DigitsValue(pre) <= DigitsValue(pre + t)
    decreases |t|
  {
    assert AllDigits(pre) by { assert forall i | 0 <= i < |pre| :: (pre + t)[i] == pre[i]; }
    if t != [] {
      var s := pre + t;
      assert s[..|s| - 1] == pre + t[..|t| - 1];
      DigitsValuePrefix(pre, t[..|t| - 1]);
      assert AllDigits(s[..|s| - 1]);
      assert DigitsValue(pre) <= DigitsValue(s[..|s| - 1]);
      assert DigitsValue(s) == DigitsValue(s[..|s| - 1]) * 10 + (s[|s| - 1] - '0' as byte) as nat;
      assert DigitsValue(s[..|s| - 1]) <= DigitsValue(s[..|s| - 1]) * 10;
    } else {
      assert pre + t == pre;
    }
  }

  /** The decimal text of a 64-bit value parses back to it: the span header
   *  round trip relies on this. */
  lemma NatTextParses(n: nat)
    requires n <= MaxUint64
    ensures ParseUint64(NatText(n)) == Parsed(n, true)
  {
    NatTextRoundTrip(n);
    assert [] + NatText(n) == NatText(n);
    ParseFromDigits([], NatText(n));
  }
}
