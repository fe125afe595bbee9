/** The text the older encoder of buffer.go writes, as functions of the
 *  values logged.  It differs from marshal.go in three ways: the `\u`
 *  escapes use lower-case hexadecimal digits; every byte from the space up
 *  other than `"` and `\` is copied as it is (DEL and the bytes from 0x80
 *  up included, with no UTF-8 decoding); and a nil or empty AMap given to
 *  scalar() writes nothing at all, not even the pending delimiter.
 */
module LegacyEncoding {
  import opened Bytes
  import opened Utf8
  import opened Data
  import E = Encoding
  import JsonString

  // ---------------------------------------------------------------------
  // String escaping
  // ---------------------------------------------------------------------

  /** The bytes escape() copies unchanged (the `noEsc` table): everything
   *  from the space up except `"` and `\`. */
  predicate Passes(c: byte) {
    0x20 <= c && c != '"' as byte && c != '\\' as byte
  }

  /** What escapeByte() returns: a two-character escape where JSON has
   *  one, else `\u` and four lower-case hexadecimal digits. */
  function ByteEscape(c: byte): (t: Text)
    ensures |t| == 2 || |t| == 6
  {
    if E.ShortEscape(c as int) != 0 then ['\\' as byte, E.ShortEscape(c as int)]
    else Lit("\\u") + Hex(c as int, 4, LowerHex)
  }

  /** The escaped form of `s`, one byte at a time. */
  function Escaped(s: Text): Text {
    if s == [] then [] else (if Passes(s[0]) then [s[0]] else ByteEscape(s[0])) + Escaped(s[1..])
  }

  /** Several strings escaped one after the other. */
  function EscapedAll(strs: seq<Text>): Text {
    if strs == [] then [] else Escaped(strs[0]) + EscapedAll(strs[1..])
  }

  /** A quoted string with the pending delimiter before it. */
  function Quoted(strs: seq<Text>, delim: Text): Text {
    delim + Lit("\"") + EscapedAll(strs) + Lit("\"")
  }

  lemma EscapedAt(s: Text, i: nat)
    requires i < |s|
    ensures Escaped(s[i..]) == (if Passes(s[i]) then [s[i]] else ByteEscape(s[i])) + Escaped(s[i + 1..])
  {
    assert s[i..][1..] == s[i + 1..];
  }

  lemma {:induction false} EscapedAllSnoc(strs: seq<Text>, i: nat)
    requires i < |strs|
    ensures EscapedAll(strs[..i + 1]) == EscapedAll(strs[..i]) + Escaped(strs[i])
  {
    if i == 0 {
      assert strs[..1] == [strs[0]];
      assert strs[..1][1..] == [];
    } else {
      assert strs[..i + 1][1..] == strs[1..][..i];
      assert strs[..i][1..] == strs[1..][..i - 1];
      EscapedAllSnoc(strs[1..], i - 1);
    }
  }

  // ---------------------------------------------------------------------
  // What the escaped text stands for
  // ---------------------------------------------------------------------

  /** An escape of a byte that escape() does not copy reads back, as a
   *  JSON string, as that byte, whatever follows. */
  lemma ByteEscapeDecodes(c: byte, rest: Text)
    requires !Passes(c)
    ensures JsonString.Unescape(ByteEscape(c) + rest) == JsonString.Prefix([c], JsonString.Unescape(rest))
  {
    var t := ByteEscape(c) + rest;
    if E.ShortEscape(c as int) != 0 {
      assert t[0] == '\\' as byte && t[1] == E.ShortEscape(c as int);
      assert JsonString.ShortUnescape(t[1]) == c;
      JsonString.UnescapeAt(t, E.Piece([c], 2));
      assert t[2..] == rest;
    } else {
      var v: nat := c as int;
      assert t[0..6] == Lit("\\u") + Hex(v, 4, LowerHex);
      JsonString.HexEscapeOf(v, t, 0, LowerHex);
      assert t[1] == 'u' as byte;
      assert EncodeRune(v) == [c];
      JsonString.UnescapeAt(t, E.Piece([c], 6));
      assert t[6..] == rest;
    }
  }

  /** Read back as the body of a JSON string, the escaped text gives every
   *  byte of the original: the escaping loses nothing, whatever the bytes. */
  lemma {:induction false} EscapeRoundTrip(s: Text)
    ensures JsonString.Unescape(Escaped(s)) == Some(s)
    decreases |s|
  {
    if s != [] {
      EscapeRoundTrip(s[1..]);
      if Passes(s[0]) {
        JsonString.UnescapePlain([s[0]], Escaped(s[1..]));
      } else {
        ByteEscapeDecodes(s[0], Escaped(s[1..]));
      }
      assert [s[0]] + s[1..] == s;
    }
  }

  /** quote() of one string writes a JSON string that stands for it. */
  lemma QuoteRoundTrip(s: Text)
    ensures JsonString.IsJsonString(Quoted([s], []))
    ensures var q := Quoted([s], []); JsonString.Unescape(q[1..|q| - 1]) == Some(s)
  {
    var q := Quoted([s], []);
    assert EscapedAll([s]) == Escaped(s) by {
      assert EscapedAll([s][1..]) == [];
    }
    assert q[1..|q| - 1] == Escaped(s);
    EscapeRoundTrip(s);
  }

  /** On printable ASCII other than `"` and `\` both escapers copy the
   *  text unchanged. */
  lemma {:induction false} AgreesOnPlainAscii(s: Text)
    requires forall i | 0 <= i < |s| :: E.NoEsc(s[i])
    ensures Escaped(s) == s == E.Escaped(s)
    decreases |s|
  {
    if s != [] {
      AgreesOnPlainAscii(s[1..]);
      assert [s[0]] + s[1..] == s;
    }
  }

  /** Where the two escapers part: a control byte gets lower-case digits
   *  here and upper-case ones in marshal.go, and a byte that is not UTF-8
   *  passes through here, so the line is not well-formed UTF-8, while
   *  marshal.go writes its `«x..»` marker. */
  lemma DiffersFromMarshal()
    ensures Escaped([0x1B]) == Lit("\\u001b") && E.Escaped([0x1B]) == Lit("\\u001B")
    ensures Escaped([0xFF]) == [0xFF] && !ValidUtf8(Escaped([0xFF]))
    ensures E.Escaped([0xFF]) == E.InvalidToken([0xFF])
  {
    ControlHere();
    ControlThere();
    InvalidHere();
    InvalidThere();
  }

  lemma ControlHere()
    ensures Escaped([0x1B]) == Lit("\\u001b")
  {
    HexTables();
    assert Hex(0x1B, 4, LowerHex) == Lit("001b");
    assert [0x1B][1..] == [];
  }

  lemma ControlThere()
    ensures E.Escaped([0x1B]) == Lit("\\u001B")
  {
    HexTables();
    assert Hex(0x1B, 4, UpperHex) == Lit("001B");
    assert [0x1B][1..] == [];
  }

  lemma InvalidHere()
    ensures Escaped([0xFF]) == [0xFF] && !ValidUtf8(Escaped([0xFF]))
  {
    assert [0xFF][1..] == [];
    assert IsInvalid(DecodeRune([0xFF]));
  }

  lemma InvalidThere()
    ensures E.Escaped([0xFF]) == E.InvalidToken([0xFF])
  {
    assert [0xFF][1..] == [];
    assert IsInvalid(DecodeRune([0xFF]));
    assert E.InvalidRun([0xFF]) == 1;
    assert [0xFF][..1] == [0xFF];
  }

  // ---------------------------------------------------------------------
  // Values
  // ---------------------------------------------------------------------

  /** The value scalar() switches on: a deferred value is called first. */
  function Resolved(v: Value): (r: Value)
    ensures v.Deferred? ==> r == v.result
    ensures !v.Deferred? ==> r == v
  {
    if v.Deferred? then v.result else v
  }

  /** A nil or empty AMap, once resolved: scalar() returns at once. */
  predicate Vanishes(v: Value) {
    var s := Resolved(v);
    s.Pairs? && (s.m.NilMap? || |s.m.p.keys| == 0)
  }

  /** The diagnostic scalar() quotes for a func value that a deferred
   *  call returned, which json.Marshal cannot encode. */
  function FuncFailure(f: Value, show: Formatter): Text {
    Quoted([Lit("! "), E.FuncError, Lit("; "), show(f)], [])
  }

  /** The JSON scalar() writes for a value once the pending delimiter is
   *  out. */
  function Json(v: Value, show: Formatter): (t: Text)
    requires E.Encodable(v)
    decreases E.Size(v), 1
  {
    match v
    case Nil => Lit("null")
    case Str(s) => Quoted([s], [])
    case ByteSlice(b) => Quoted([b], [])
    case Int(i) => IntText(i as int)
    case Uint(u) => NatText(u as nat)
    case Bool(f) => if f then Lit("true") else Lit("false")
    case Strings(ss) => E.LBracket + StringsOut(ss, []).out + E.RBracket
    case List(items) => E.LBracket + ListOut(items, [], show).out + E.RBracket
    case Raw(elts) => E.LBrace + RawOut(elts, true, false, false, [], show).out + E.RBrace
    case Pairs(m) => E.LBrace + AMapOut(m, [], show).out + E.RBrace
    case ErrorV(msg) => Quoted([msg], [])
    case StringerV(str) => Quoted([str], [])
    case Deferred(r) => if r.Deferred? then FuncFailure(r, show) else Json(r, show)
    case KV(_) => Lit("{}")
    case Skip => Lit("\"\"")
    case Inline => Lit("\"\"")
    case Other(json) => json
    case Failing(err, syntax) => Quoted([Lit("! "), err, Lit("; "), syntax], [])
  }

  /** scalar(): nothing at all for a nil or empty AMap; otherwise the
   *  pending delimiter, the value, and a comma pending. */
  function ScalarOut(v: Value, d: Text, show: Formatter): (e: E.Emit)
    requires E.Encodable(v)
    decreases E.Size(v), 2
  {
    if Vanishes(v) then E.Emit([], d) else E.Emit(d + Json(v, show), E.Comma)
  }

  /** The elements of a `[]string`, each through scalar(). */
  function StringsOut(ss: seq<Text>, d: Text): (e: E.Emit)
    ensures ss == [] ==> e == E.Emit([], d)
    ensures ss != [] ==> e.delim == E.Comma
  {
    if ss == [] then E.Emit([], d)
    else E.Then(d + Quoted([ss[0]], []), StringsOut(ss[1..], E.Comma))
  }

  /** The elements of an AList, each through scalar(); an element that
   *  writes nothing leaves the delimiter pending for the next. */
  function ListOut(items: seq<Value>, d: Text, show: Formatter): (e: E.Emit)
    requires E.EncodableSeq(items)
    ensures items == [] ==> e == E.Emit([], d)
    decreases E.SizeSeq(items), 5
  {
    if items == [] then E.Emit([], d)
    else
      var h := ScalarOut(items[0], d, show);
      E.Then(h.out, ListOut(items[1..], h.delim, show))
  }

  /** pair(): the quoted key, a colon, and the value. */
  function PairOut(k: Text, v: Value, d: Text, show: Formatter): (e: E.Emit)
    requires E.Encodable(v)
    decreases E.Size(v), 3
  {
    E.Then(Quoted([k], d) + E.ColonText, ScalarOut(v, [], show))
  }

  /** pairs(): every key with its value, in order. */
  function PairsOut(keys: seq<Text>, vals: seq<Value>, d: Text, show: Formatter): (e: E.Emit)
    requires |keys| == |vals| && E.EncodableSeq(vals)
    ensures keys == [] ==> e == E.Emit([], d)
    decreases E.SizeSeq(vals), 5
  {
    if keys == [] then E.Emit([], d)
    else
      var h := PairOut(keys[0], vals[0], d, show);
      E.Then(h.out, PairsOut(keys[1..], vals[1..], h.delim, show))
  }

  /** pairs() of an AMap: nothing for a nil map. */
  function AMapOut(m: AMap, d: Text, show: Formatter): (e: E.Emit)
    requires E.Encodable(Pairs(m))
    ensures m.NilMap? ==> e == E.Emit([], d)
    decreases E.Size(Pairs(m)), 0
  {
    if m.NilMap? then E.Emit([], d) else PairsOut(m.p.keys, m.p.vals, d, show)
  }

  /** rawPairs() from some element on, as in marshal.go but with this
   *  file's scalar(). */
  function RawOut(rest: seq<Value>, even: bool, skipping: bool, inlining: bool, d: Text,
                  show: Formatter): (e: E.Emit)
    requires E.EncodableSeq(rest)
    decreases E.SizeSeq(rest), 6
  {
    if rest == [] then
      if !even && !skipping then E.Emit(d + Lit("null"), E.Comma) else E.Emit([], d)
    else
      var r := RawStepOut(rest[0], even, skipping, inlining, d, show);
      E.Then(r.0, RawOut(rest[1..], !even, r.1, r.2, r.3, show))
  }

  /** One step of rawPairs(): what the element contributes, given the flags
   *  the previous key left, and the flags and delimiter after it. */
  function RawStepOut(elt: Value, even: bool, skipping: bool, inlining: bool, d: Text,
                      show: Formatter): (r: (Text, bool, bool, Text))
    requires E.Encodable(elt)
    decreases E.Size(elt), 5
  {
    if even then
      if elt.Skip? then ([], true, inlining, d)
      else if elt.Inline? then ([], skipping, true, d)
      else (Quoted([S(elt, show)], d) + E.ColonText, skipping, inlining, [])
    else if skipping then ([], false, inlining, d)
    else if inlining then
      var e := InlineValue(elt, d, show);
      (e.out, skipping, false, e.delim)
    else
      var e := ScalarOut(elt, d, show);
      (e.out, skipping, inlining, e.delim)
  }

  /** The value after an InlinePairs key: the pairs of a RawMap, KVPairs or
   *  AMap spliced in, anything else as the pair `"cannot-inline"`. */
  function InlineValue(elt: Value, d: Text, show: Formatter): (e: E.Emit)
    requires E.Encodable(elt)
    decreases E.Size(elt), 4
  {
    if elt.Raw? then RawOut(elt.elts, true, false, false, d, show)
    else if elt.KV? then PairsOut(elt.kv.keys, elt.kv.vals, d, show)
    else if elt.Pairs? then AMapOut(elt.m, d, show)
    else PairOut(Lit("cannot-inline"), elt, d, show)
  }

  // ---------------------------------------------------------------------
  // Unfolding the encoders one element at a time
  // ---------------------------------------------------------------------

  lemma StringsOutAt(ss: seq<Text>, i: nat, d: Text)
    requires i < |ss|
    ensures StringsOut(ss[i..], d) == E.Then(d + Quoted([ss[i]], []), StringsOut(ss[i + 1..], E.Comma))
  {
    assert ss[i..][1..] == ss[i + 1..];
  }

  lemma ListOutAt(items: seq<Value>, i: nat, d: Text, show: Formatter)
    requires E.EncodableSeq(items) && i < |items|
    ensures E.EncodableSeq(items[i..]) && E.EncodableSeq(items[i + 1..]) && E.Encodable(items[i])
    ensures var h := ScalarOut(items[i], d, show);
      ListOut(items[i..], d, show) == E.Then(h.out, ListOut(items[i + 1..], h.delim, show))
  {
    E.EncodableSuffix(items, i);
    E.EncodableSuffix(items, i + 1);
    E.EncodableAt(items, i);
    assert items[i..][1..] == items[i + 1..];
  }

  lemma PairsOutAt(keys: seq<Text>, vals: seq<Value>, i: nat, d: Text, show: Formatter)
    requires |keys| == |vals| && E.EncodableSeq(vals) && i < |keys|
    ensures E.EncodableSeq(vals[i..]) && E.EncodableSeq(vals[i + 1..]) && E.Encodable(vals[i])
    ensures var h := PairOut(keys[i], vals[i], d, show);
      PairsOut(keys[i..], vals[i..], d, show) == E.Then(h.out, PairsOut(keys[i + 1..], vals[i + 1..], h.delim, show))
  {
    E.EncodableSuffix(vals, i);
    E.EncodableSuffix(vals, i + 1);
    E.EncodableAt(vals, i);
    assert keys[i..][1..] == keys[i + 1..];
    assert vals[i..][1..] == vals[i + 1..];
  }

  lemma RawOutAt(m: seq<Value>, i: nat, even: bool, skipping: bool, inlining: bool, d: Text,
                 show: Formatter)
    requires E.EncodableSeq(m) && i < |m|
    ensures E.EncodableSeq(m[i..]) && E.EncodableSeq(m[i + 1..]) && E.Encodable(m[i])
    ensures var r := RawStepOut(m[i], even, skipping, inlining, d, show);
      RawOut(m[i..], even, skipping, inlining, d, show)
        == E.Then(r.0, RawOut(m[i + 1..], !even, r.1, r.2, r.3, show))
  {
    E.EncodableSuffix(m, i);
    E.EncodableSuffix(m, i + 1);
    E.EncodableAt(m, i);
    assert m[i..][1..] == m[i + 1..];
    assert m[i..][0] == m[i];
  }

  // ---------------------------------------------------------------------
  // The empty-map rule
  // ---------------------------------------------------------------------

  /** scalar() of a nil or empty AMap, or of a func returning one, writes
   *  nothing and leaves the pending delimiter as it was; any other map is
   *  written as an object and leaves a comma pending. */
  lemma EmptyMapVanishes(m: AMap, d: Text, show: Formatter)
    requires E.Encodable(Pairs(m))
    ensures E.Encodable(Deferred(Pairs(m)))
    ensures m.Len() == 0 ==> ScalarOut(Pairs(m), d, show) == E.Emit([], d)
    ensures m.Len() == 0 ==> ScalarOut(Deferred(Pairs(m)), d, show) == E.Emit([], d)
    ensures m.Len() != 0 ==>
              ScalarOut(Pairs(m), d, show) == E.Emit(d + E.LBrace + AMapOut(m, [], show).out + E.RBrace, E.Comma)
  {
  }

  /** As the value of a pair, an empty map leaves the key and the colon
   *  with nothing after them and no delimiter pending: the next pair's
   *  key follows the colon directly. */
  lemma EmptyMapInPairs(k: Text, keys: seq<Text>, vals: seq<Value>, d: Text, show: Formatter)
    requires |keys| == |vals| && E.EncodableSeq(vals)
    ensures E.EncodableSeq([Pairs(NilMap)] + vals)
    ensures PairsOut([k] + keys, [Pairs(NilMap)] + vals, d, show)
              == E.Then(Quoted([k], d) + E.ColonText, PairsOut(keys, vals, [], show))
  {
    assert ([Pairs(NilMap)] + vals)[1..] == vals;
    assert ([k] + keys)[1..] == keys;
    var h := PairOut(k, Pairs(NilMap), d, show);
    assert h == E.Emit(Quoted([k], d) + E.ColonText, []);
  }

  /** The same pair in marshal.go, which replaced this encoder: the empty
   *  map is written as `{}`, so the key has its value and a comma is
   *  pending before the next pair. */
  lemma EmptyMapInPairsThere(k: Text, keys: seq<Text>, vals: seq<Value>, d: Text, show: Formatter)
    requires |keys| == |vals| && E.EncodableSeq(vals)
    ensures E.EncodableSeq([Pairs(NilMap)] + vals)
    ensures E.PairsOut([k] + keys, [Pairs(NilMap)] + vals, d, show)
              == E.Then(E.Quoted([k], d) + E.ColonText + E.LBrace + E.RBrace, E.PairsOut(keys, vals, E.Comma, show))
  {
    assert ([Pairs(NilMap)] + vals)[1..] == vals;
    assert ([k] + keys)[1..] == keys;
    assert E.AMapOut(NilMap, [], show).out == [];
    assert E.Json(Pairs(NilMap), show) == E.LBrace + E.RBrace;
  }
}
