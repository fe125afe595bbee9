/** The text marshal.go writes, as functions of the values logged:
 *  JSON strings escaped per section 7 of RFC 8259, with UTF-16 surrogate
 *  pairs (section 2.1 of RFC 2781) above U+FFFF and a visible marker for
 *  bytes that are not UTF-8 (section 4 of RFC 3629); numbers, timestamps,
 *  and the nested lists and maps of a log line.
 */
module Encoding {
  import opened Bytes
  import opened Utf8
  import opened Data

  /** The delimiter written before the next value. */
  const Comma: Text := Lit(", ")

  /** The punctuation of JSON lists and objects. */
  const LBracket: Text := Lit("[")
  const RBracket: Text := Lit("]")
  const LBrace: Text := Lit("{")
  const RBrace: Text := Lit("}")
  const ColonText: Text := Lit(":")

  // ---------------------------------------------------------------------
  // String escaping
  // ---------------------------------------------------------------------

  /** The bytes `escape` copies unchanged: printable ASCII but `"` and `\`. */
  predicate NoEsc(c: byte) {
    0x20 <= c < 0x7F && c != '"' as byte && c != '\\' as byte
  }

  /** The letter of JSON's two-character escape for `r`, or 0 when `r`
   *  has none. */
  function ShortEscape(r: int): byte
  {
    if r == '"' as int then '"' as byte
    else if r == '\\' as int then '\\' as byte
    else if r == 0x08 then 'b' as byte
    else if r == 0x0C then 'f' as byte
    else if r == 0x0A then 'n' as byte
    else if r == 0x0D then 'r' as byte
    else if r == 0x09 then 't' as byte
    else 0
  }

  /** What escape1Rune writes for a code point: a two-character escape
   *  where JSON has one, else `\u` and the low 16 bits as four upper-case
   *  hexadecimal digits. */
  function Escape1(r: int): (t: Text)
    ensures |t| == 2 || |t| == 6
    ensures t[0] == '\\' as byte
  {
    if ShortEscape(r) != 0 then ['\\' as byte, ShortEscape(r)]
    else Lit("\\u") + Hex(r, 4, UpperHex)
  }

  /** The two upper-case hexadecimal digits of each byte, in order. */
  function HexBytes(t: Text): (h: Text)
    ensures |h| == 2 * |t|
  {
    if t == [] then [] else HexBytes(t[..|t| - 1]) + Hex(t[|t| - 1] as int, 2, UpperHex)
  }

  /** The marker written for undecodable bytes: `«x`, the bytes in hex,
   *  `»` (U+00AB and U+00BB in UTF-8). */
  function InvalidToken(t: Text): Text {
    [0xC2, 0xAB, 'x' as byte] + HexBytes(t) + [0xC2, 0xBB]
  }

  /** The end of the run of undecodable positions that continues at `i`. */
  function RunFrom(s: Text, i: nat): (e: nat)
    requires 1 <= i <= |s|
    ensures i <= e <= |s|
    decreases |s| - i
  {
    if i == |s| || !IsInvalid(DecodeRune(s[i..])) then i else RunFrom(s, i + 1)
  }

  /** How many bytes nonUtf8Chars consumes: the first byte, and every
   *  following byte at which decoding fails again. */
  function InvalidRun(s: Text): (k: nat)
    requires s != []
    ensures 1 <= k <= |s|
  {
    RunFrom(s, 1)
  }

  /** What escape writes for a code point decoded from `enc` with 0x80 or
   *  above: a surrogate pair beyond U+FFFF, `\u00XX` for the C1 controls,
   *  the original bytes otherwise. */
  function EncodeWide(r: int, enc: Text): Text {
    if 0xFFFF < r then
      Escape1(EncodeSurrogates(r).0) + Escape1(EncodeSurrogates(r).1)
    else if r < 0xA0 then Escape1(r)
    else enc
  }

  /** One step of `escape` at the front of `t`: what it writes and how
   *  many bytes it consumes. */
  datatype Piece = Piece(out: Text, len: nat)

  function EscapeStep(t: Text): (p: Piece)
    requires t != []
    ensures 1 <= p.len <= |t|
  {
    var c := t[0];
    if NoEsc(c) then Piece([c], 1)
    else if c < 128 then Piece(Escape1(c as int), 1)
    else
      var d := DecodeRune(t);
      if IsInvalid(d) then
        var k := InvalidRun(t);
        Piece(InvalidToken(t[..k]), k)
      else Piece(EncodeWide(d.r, t[..d.size]), d.size)
  }

  /** The escaped form of `s`, as `escape` produces it from left to right. */
  function Escaped(s: Text): Text
    decreases |s|
  {
    if s == [] then [] else
      var p := EscapeStep(s);
      p.out + Escaped(s[p.len..])
  }

  /** Several strings escaped one after the other (quote with more than one
   *  argument); a run of bad bytes is not joined across them. */
  function EscapedAll(strs: seq<Text>): Text {
    if strs == [] then [] else Escaped(strs[0]) + EscapedAll(strs[1..])
  }

  /** A quoted string with the pending delimiter before it. */
  function Quoted(strs: seq<Text>, delim: Text): Text {
    delim + Lit("\"") + EscapedAll(strs) + Lit("\"")
  }

  /** The pending delimiter comes first; the quotes are always there. */
  lemma QuotedDelim(strs: seq<Text>, d: Text)
    ensures Quoted(strs, d) == d + Quoted(strs, [])
    ensures |Quoted(strs, [])| >= 2
  {
  }

  // ---------------------------------------------------------------------
  // Digits
  // ---------------------------------------------------------------------

  /** `t` with '0's in front up to `width` bytes (the padding of int()). */
  function Padded(t: Text, width: nat): (r: Text)
    ensures |r| == if |t| < width then width else |t|
  {
    if |t| < width then seq(width - |t|, _ => '0' as byte) + t else t
  }

  /** `'0' + byte(x)` in Go: the digit for x below 10, wrapping at 256. */
  function DigitByte(x: nat): byte {
    ((48 + x) % 256) as byte
  }

  /** int2() writes the two decimal digits of values below 100. */
  lemma Int2Digits(v: nat)
    requires v < 100
    ensures Int2Text(v) == Padded(NatText(v), 2)
  {
    if v >= 10 {
      assert NatText(v) == NatText(v / 10) + [DecimalDigit(v % 10)];
    }
  }

  /** What int2() writes for a value. */
  function Int2Text(v: nat): (t: Text)
    ensures |t| == 2
  {
    [DigitByte(v / 10), DigitByte(v % 10)]
  }

  /** The timestamp as timestamp() writes it, from the UTC calendar fields;
   *  `iso` selects the `T` separator used when keys are set. */
  function TimestampText(year: int, month: nat, day: nat, hour: nat, minute: nat, second: nat,
                         nanos: nat, iso: bool): Text
  {
    DateText(year, month, day) + ClockText(iso, hour, minute, second) + FractionText(nanos)
  }

  /** The opening quote and the date, `"2006-01-02`. */
  function DateText(year: int, month: nat, day: nat): Text {
    Lit("\"") + IntText(year) + Lit("-") + Int2Text(month) + Lit("-") + Int2Text(day)
  }

  /** The separator and the time of day, ` 15:04:05` or `T15:04:05`. */
  function ClockText(iso: bool, hour: nat, minute: nat, second: nat): Text {
    (if iso then Lit("T") else Lit(" ")) + Int2Text(hour) + ColonText + Int2Text(minute) + ColonText + Int2Text(second)
  }

  /** Tenths of milliseconds in four digits, then `Z` and the closing quote. */
  function FractionText(nanos: nat): Text {
    Lit(".") + Padded(IntText(nanos / 100000), 4) + Lit("Z\"")
  }

  /** A two-digit field: the decimal digits of values below 100, padded. */
  function TwoDigits(v: nat): (t: Text)
    requires v < 100
    ensures |t| == 2 && AllDigits(t) && DigitsValue(t) == v
  {
    NatTextRoundTrip(v);
    var t := Padded(NatText(v), 2);
    assert t == if v < 10 then ['0' as byte, DecimalDigit(v)] else NatText(v);
    t
  }

  /** Escaped at a byte that needs no escape: the byte, then the rest. */
  lemma EscapedPlainAt(s: Text, i: nat)
    requires i < |s| && NoEsc(s[i])
    ensures Escaped(s[i..]) == [s[i]] + Escaped(s[i + 1..])
  {
    var t := s[i..];
    assert t[0] == s[i] && t[1..] == s[i + 1..];
    assert EscapeStep(t) == Piece([s[i]], 1);
  }

  /** Escaped, unfolded at position `i`: the step the escape loop takes. */
  lemma EscapedAt(s: Text, i: nat)
    requires i < |s|
    ensures Escaped(s[i..]) == EscapeStep(s[i..]).out + Escaped(s[i + EscapeStep(s[i..]).len..])
  {
    assert s[i..][EscapeStep(s[i..]).len..] == s[i + EscapeStep(s[i..]).len..];
  }

  lemma {:induction false} EscapedAllSnoc(strs: seq<Text>, i: nat)
    requires i < |strs|
    ensures EscapedAll(strs[..i + 1]) == EscapedAll(strs[..i]) + Escaped(strs[i])
  {
    if i == 0 {
      assert strs[..1] == [strs[0]];
      assert strs[..1][1..] == [];
    } else {
      assert strs[..i + 1][1..] == strs[1..][..i];
      assert strs[..i][1..] == strs[1..][..i - 1];
      EscapedAllSnoc(strs[1..], i - 1);
    }
  }

  /** nonUtf8Chars stops where the run of undecodable positions ends. */
  lemma RunEnds(s: Text, k: nat)
    requires 1 <= k <= |s|
    requires k == |s| || !IsInvalid(DecodeRune(s[k..]))
    ensures RunFrom(s, k) == k
  {
  }

  /** nonUtf8Chars goes on while decoding keeps failing. */
  lemma RunGoesOn(s: Text, k: nat)
    requires 1 <= k < |s| && IsInvalid(DecodeRune(s[k..]))
    ensures RunFrom(s, k) == RunFrom(s, k + 1)
  {
  }

  // ---------------------------------------------------------------------
  // Values
  // ---------------------------------------------------------------------

  /** What one encoding step leaves: the bytes it appends and the
   *  delimiter pending after it. */
  datatype Emit = Emit(out: Text, delim: Text)

  /** `e` after the bytes `pre` already written. */
  function Then(pre: Text, e: Emit): (r: Emit)
    ensures r.out == pre + e.out && r.delim == e.delim
  {
    Emit(pre + e.out, e.delim)
  }

  /** A measure that shrinks from a value to the values inside it. */
  function Size(v: Value): (z: nat)
    ensures 1 <= z
  {
    match v
    case Strings(_) => 2
    case List(items) => 1 + SizeSeq(items)
    case Raw(elts) => 1 + SizeSeq(elts)
    case Pairs(Ref(p)) => 1 + SizeSeq(p.vals)
    case KV(kv) => 1 + SizeSeq(kv.vals)
    case Deferred(r) => 1 + Size(r)
    case _ => 1
  }

  function SizeSeq(vs: seq<Value>): nat {
    if vs == [] then 0 else Size(vs[0]) + SizeSeq(vs[1..])
  }

  /** Every element weighs at most as much as the list. */
  lemma {:induction false} SizeAt(vs: seq<Value>, i: nat)
    requires i < |vs|
    ensures Size(vs[i]) <= SizeSeq(vs)
  {
    if i > 0 {
      SizeAt(vs[1..], i - 1);
    }
  }

  /** What the encoder requires of a value: every map inside it has a
   *  value for each key, as every map the package builds does. */
  predicate Encodable(v: Value)
    decreases Size(v), 1
  {
    match v
    case List(items) => EncodableSeq(items)
    case Raw(elts) => EncodableSeq(elts)
    case Pairs(Ref(p)) => |p.keys| == |p.vals| && EncodableSeq(p.vals)
    case KV(kv) => |kv.keys| == |kv.vals| && EncodableSeq(kv.vals)
    case Deferred(r) => Encodable(r)
    case _ => true
  }

  predicate EncodableSeq(vs: seq<Value>)
    decreases SizeSeq(vs), 2
  {
    vs != [] ==> Encodable(vs[0]) && EncodableSeq(vs[1..])
  }

  lemma {:induction false} EncodableAt(vs: seq<Value>, i: nat)
    requires EncodableSeq(vs) && i < |vs|
    ensures Encodable(vs[i]) && SizeSeq(vs[i + 1..]) < SizeSeq(vs[i..])
  {
    if i > 0 {
      assert vs[1..][i - 1..] == vs[i..];
      assert vs[1..][i..] == vs[i + 1..];
      EncodableAt(vs[1..], i - 1);
    } else {
      assert vs[1..] == vs[i + 1..];
    }
  }

  /** What json.Marshal reports for a func value. */
  const FuncError: Text := Lit("json: unsupported type: func() interface {}")

  /** The JSON scalar() writes for a value once the pending delimiter is
   *  out; `show` is fmt's `%v` (used by S() for map keys, and for the
   *  `%#v` of a func value in a diagnostic). */
  function Json(v: Value, show: Formatter): (t: Text)
    requires Encodable(v)
    decreases Size(v), 1
  {
    match v
    case Nil => Lit("null")
    case Str(s) => Quoted([s], [])
    case ByteSlice(b) => Quoted([b], [])
    case Int(i) => IntText(i as int)
    case Uint(u) => NatText(u as nat)
    case Bool(f) => if f then Lit("true") else Lit("false")
    case Strings(ss) => LBracket + StringsOut(ss, []).out + RBracket
    case List(items) => LBracket + InlineOut(items, [], show).out + RBracket
    case Raw(elts) => LBrace + RawOut(elts, true, false, false, [], show).out + RBrace
    case Pairs(m) => LBrace + AMapOut(m, [], show).out + RBrace
    case ErrorV(msg) => Quoted([msg], [])
    case StringerV(str) => Quoted([str], [])
    case Deferred(r) => if r.Deferred? then FuncFailure(r, show) else Json(r, show)
    case KV(_) => Lit("{}")
    case Skip => Lit("\"\"")
    case Inline => Lit("\"\"")
    case Other(json) => json
    case Failing(err, syntax) => Quoted([Lit("! "), err, Lit("; "), syntax], [])
  }

  /** scalar(): the pending delimiter, the value, and a comma pending. */
  function ScalarOut(v: Value, d: Text, show: Formatter): (e: Emit)
    requires Encodable(v)
    ensures e.delim == Comma
    decreases Size(v), 2
  {
    Emit(d + Json(v, show), Comma)
  }

  /** scalar() of a string writes it quoted after the pending delimiter. */
  lemma ScalarStr(s: Text, d: Text, show: Formatter)
    ensures Encodable(Str(s)) && ScalarOut(Str(s), d, show).out == Quoted([s], d)
  {
    JsonStr(s, show);
    QuotedDelim([s], d);
  }

  lemma JsonStr(s: Text, show: Formatter)
    ensures Encodable(Str(s)) && Json(Str(s), show) == Quoted([s], [])
  {
  }

  /** The elements of a `[]string`, each as scalar() writes a string. */
  function StringsOut(ss: seq<Text>, d: Text): (e: Emit)
    ensures ss == [] ==> e == Emit([], d)
    ensures ss != [] ==> e.delim == Comma
  {
    if ss == [] then Emit([], d)
    else Then(d + Quoted([ss[0]], []), StringsOut(ss[1..], Comma))
  }

  /** inlineList(): each value in turn. */
  function InlineOut(items: seq<Value>, d: Text, show: Formatter): (e: Emit)
    requires EncodableSeq(items)
    ensures items == [] ==> e == Emit([], d)
    ensures items != [] ==> e.delim == Comma
    decreases SizeSeq(items), 5
  {
    if items == [] then Emit([], d)
    else Then(ScalarOut(items[0], d, show).out, InlineOut(items[1..], Comma, show))
  }

  /** msgList(): a JSON list of the message and then the arguments. */
  function MsgListOut(msg: Text, args: seq<Value>, d: Text, show: Formatter): Text
    requires EncodableSeq(args)
  {
    d + LBracket + Json(Str(msg), show) + InlineOut(args, Comma, show).out + RBracket
  }

  /** pair(): the quoted key, a colon, and the value. */
  function PairOut(k: Text, v: Value, d: Text, show: Formatter): (e: Emit)
    requires Encodable(v)
    ensures e.delim == Comma
    decreases Size(v), 3
  {
    Then(Quoted([k], d) + ColonText, ScalarOut(v, [], show))
  }

  /** pairs(): every key with its value, in order. */
  function PairsOut(keys: seq<Text>, vals: seq<Value>, d: Text, show: Formatter): (e: Emit)
    requires |keys| == |vals| && EncodableSeq(vals)
    ensures keys == [] ==> e == Emit([], d)
    ensures keys != [] ==> e.delim == Comma
    decreases SizeSeq(vals), 5
  {
    if keys == [] then Emit([], d)
    else Then(PairOut(keys[0], vals[0], d, show).out, PairsOut(keys[1..], vals[1..], Comma, show))
  }

  /** pairs() of an AMap: nothing for a nil map. */
  function AMapOut(m: AMap, d: Text, show: Formatter): (e: Emit)
    requires Encodable(Pairs(m))
    ensures m.NilMap? ==> e == Emit([], d)
    decreases Size(Pairs(m)), 0
  {
    if m.NilMap? then Emit([], d) else PairsOut(m.p.keys, m.p.vals, d, show)
  }

  /** The diagnostic scalar() quotes for a func value that a deferred
   *  call returned, which json.Marshal cannot encode. */
  function FuncFailure(f: Value, show: Formatter): Text {
    Quoted([Lit("! "), FuncError, Lit("; "), show(f)], [])
  }

  /** rawPairs() from some element on.  `even` tells whether the element
   *  is in a key position; `skipping` and `inlining` are the flags the
   *  previous key set. */
  function RawOut(rest: seq<Value>, even: bool, skipping: bool, inlining: bool, d: Text,
                  show: Formatter): (e: Emit)
    requires EncodableSeq(rest)
    decreases SizeSeq(rest), 5
  {
    if rest == [] then
      if !even && !skipping then Emit(d + Lit("null"), Comma) else Emit([], d)
    else
      var elt := rest[0];
      if even then
        if elt.Skip? then RawOut(rest[1..], false, true, inlining, d, show)
        else if elt.Inline? then RawOut(rest[1..], false, skipping, true, d, show)
        else Then(Quoted([S(elt, show)], d) + ColonText, RawOut(rest[1..], false, skipping, inlining, [], show))
      else if skipping then RawOut(rest[1..], true, false, inlining, d, show)
      else if inlining then
        var e := InlineValue(elt, d, show);
        Then(e.out, RawOut(rest[1..], true, skipping, false, e.delim, show))
      else Then(ScalarOut(elt, d, show).out, RawOut(rest[1..], true, skipping, inlining, Comma, show))
  }

  /** The value after an InlinePairs key: the pairs of a RawMap, KVPairs or
   *  AMap spliced into the enclosing map, anything else as the pair
   *  `"cannot-inline"`. */
  function InlineValue(elt: Value, d: Text, show: Formatter): (e: Emit)
    requires Encodable(elt)
    decreases Size(elt), 4
  {
    if elt.Raw? then RawOut(elt.elts, true, false, false, d, show)
    else if elt.KV? then PairsOut(elt.kv.keys, elt.kv.vals, d, show)
    else if elt.Pairs? then AMapOut(elt.m, d, show)
    else PairOut(Lit("cannot-inline"), elt, d, show)
  }

  // ---------------------------------------------------------------------
  // Unfolding the encoders one element at a time
  // ---------------------------------------------------------------------

  lemma {:induction false} EncodableSuffix(vs: seq<Value>, i: nat)
    requires EncodableSeq(vs) && i <= |vs|
    ensures EncodableSeq(vs[i..])
  {
    if i > 0 {
      assert vs[1..][i - 1..] == vs[i..];
      EncodableSuffix(vs[1..], i - 1);
    }
  }

  lemma StringsOutAt(ss: seq<Text>, i: nat, d: Text)
    requires i < |ss|
    ensures StringsOut(ss[i..], d) == Then(d + Quoted([ss[i]], []), StringsOut(ss[i + 1..], Comma))
  {
    assert ss[i..][1..] == ss[i + 1..];
  }

  lemma InlineOutAt(items: seq<Value>, i: nat, d: Text, show: Formatter)
    requires EncodableSeq(items) && i < |items|
    ensures EncodableSeq(items[i..]) && EncodableSeq(items[i + 1..]) && Encodable(items[i])
    ensures InlineOut(items[i..], d, show)
              == Then(ScalarOut(items[i], d, show).out, InlineOut(items[i + 1..], Comma, show))
  {
    EncodableSuffix(items, i);
    EncodableSuffix(items, i + 1);
    EncodableAt(items, i);
    assert items[i..][1..] == items[i + 1..];
  }

  lemma PairsOutAt(keys: seq<Text>, vals: seq<Value>, i: nat, d: Text, show: Formatter)
    requires |keys| == |vals| && EncodableSeq(vals) && i < |keys|
    ensures EncodableSeq(vals[i..]) && EncodableSeq(vals[i + 1..]) && Encodable(vals[i])
    ensures PairsOut(keys[i..], vals[i..], d, show)
              == Then(PairOut(keys[i], vals[i], d, show).out, PairsOut(keys[i + 1..], vals[i + 1..], Comma, show))
  {
    EncodableSuffix(vals, i);
    EncodableSuffix(vals, i + 1);
    EncodableAt(vals, i);
    assert keys[i..][1..] == keys[i + 1..];
    assert vals[i..][1..] == vals[i + 1..];
  }

  /** One step of rawPairs(): what the element at `i` contributes, given
   *  the flags the previous key left. */
  function RawStepOut(elt: Value, even: bool, skipping: bool, inlining: bool, d: Text,
                      show: Formatter): (r: (Text, bool, bool, Text))
    requires Encodable(elt)
  {
    if even then
      if elt.Skip? then ([], true, inlining, d)
      else if elt.Inline? then ([], skipping, true, d)
      else (Quoted([S(elt, show)], d) + ColonText, skipping, inlining, [])
    else if skipping then ([], false, inlining, d)
    else if inlining then
      var e := InlineValue(elt, d, show);
      (e.out, skipping, false, e.delim)
    else (ScalarOut(elt, d, show).out, skipping, inlining, Comma)
  }

  lemma RawOutAt(m: seq<Value>, i: nat, even: bool, skipping: bool, inlining: bool, d: Text,
                 show: Formatter)
    requires EncodableSeq(m) && i < |m|
    ensures EncodableSeq(m[i..]) && EncodableSeq(m[i + 1..]) && Encodable(m[i])
    ensures var r := RawStepOut(m[i], even, skipping, inlining, d, show);
      RawOut(m[i..], even, skipping, inlining, d, show)
        == Then(r.0, RawOut(m[i + 1..], !even, r.1, r.2, r.3, show))
  {
    EncodableSuffix(m, i);
    EncodableSuffix(m, i + 1);
    EncodableAt(m, i);
    assert m[i..][1..] == m[i + 1..];
    assert m[i..][0] == m[i];
  }
}
