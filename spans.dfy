/** The read-only span factory of gcp-spans/factory.go: trace-ID checks,
 *  span-ID formatting, the resource paths of an imported span and the
 *  X-Cloud-Trace-Context header that carries a span from one process to
 *  the next.  A Factory is an ROSpan here; a nil Factory is None.
 */
module Spans {
  import opened Bytes
  import opened Strings

  // -----------------------------------------------------------------------
  // Hexadecimal digits
  // -----------------------------------------------------------------------

  /** HexChars: a 256-bit set, eight 32-bit words, with a bit at the
   *  code of each of '0'..'9', 'a'..'f' and 'A'..'F'. */
  const HexChars: seq<nat> := [0, 0x3ff0000, 0x7e, 0x7e, 0, 0, 0, 0]

  function Pow2(k: nat): (r: nat)
    ensures r >= 1
  {
    if k == 0 then 1 else 2 * Pow2(k - 1)
  }

  /** Bit `b` of `w`: the `w & (1 << b) != 0` of Go. */
  predicate Bit(w: nat, b: nat) {
    (w / Pow2(b)) % 2 == 1
  }

  /** The test NonHexIndex() makes: bit `c&31` of word `c>>5`. */
  predicate HexBit(c: byte) {
    Bit(HexChars[c as int / 32], c as int % 32)
  }

  /** A block of `k` one bits: bit `b` is set exactly below `k`. */
  lemma {:induction false} OnesBits(k: nat, b: nat)
    ensures Bit(Pow2(k) - 1, b) <==> b < k
  {
    var x := Pow2(k) - 1;
    if k > 0 {
      assert x == 2 * (Pow2(k - 1) - 1) + 1;
      DivModUnique(x, 2, Pow2(k - 1) - 1, 1);
    } else {
      assert x == 0;
    }
    if b > 0 && k > 0 {
      OnesBits(k - 1, b - 1);
      DivDiv(x, 2, Pow2(b - 1));
    }
  }

  /** Shifting left by `m` moves every bit up by `m`. */
  lemma {:induction false} ShiftedBits(x: nat, m: nat, b: nat)
    ensures Bit(x * Pow2(m), b) <==> m <= b && Bit(x, b - m)
  {
    if m > 0 {
      var y := x * Pow2(m - 1);
      assert x * Pow2(m) == y * 2 by {
        assert x * (2 * Pow2(m - 1)) == (x * Pow2(m - 1)) * 2;
      }
      DivModUnique(y * 2, 2, y, 0);
      if b > 0 {
        ShiftedBits(x, m - 1, b - 1);
        DivDiv(y * 2, 2, Pow2(b - 1));
      }
    }
  }

  lemma Pow2Values()
    ensures Pow2(1) == 2 && Pow2(6) == 64 && Pow2(10) == 1024 && Pow2(16) == 65536
  {
    var p6 := Pow2(6);
    assert p6 == 64;
    var p10 := Pow2(10);
    assert p10 == 1024;
    var p16 := Pow2(16);
    assert p16 == 65536;
  }

  /** The bitset holds exactly the hexadecimal digits. */
  lemma HexCharsDigits(c: byte)
    ensures HexBit(c) <==> IsHexDigit(c)
  {
    var w, b := c as int / 32, c as int % 32;
    Pow2Values();
    if w == 1 {
      assert HexChars[w] == (Pow2(10) - 1) * Pow2(16);
      ShiftedBits(Pow2(10) - 1, 16, b);
      if b >= 16 {
        OnesBits(10, b - 16);
      }
    } else if w == 2 || w == 3 {
      assert HexChars[w] == (Pow2(6) - 1) * Pow2(1);
      ShiftedBits(Pow2(6) - 1, 1, b);
      if b >= 1 {
        OnesBits(6, b - 1);
      }
    } else {
      assert HexChars[w] == 0;
    }
  }

  /** The index NonHexIndex() reports: -1 when every byte is a hexadecimal
   *  digit, else the first byte that is not. */
  function FirstNonHex(s: Text): (i: int)
    ensures i == -1 <==> AllHex(s)
    ensures i != -1 ==> 0 <= i < |s| && !IsHexDigit(s[i]) && AllHex(s[..i])
  {
    if s == [] then -1
    else
      HexCharsDigits(s[0]);
      if !HexBit(s[0]) then 0
      else
        var j := FirstNonHex(s[1..]);
        assert forall k | 0 < k < |s| :: s[k] == s[1..][k - 1];
        if j == -1 then -1
        else
          assert s[..j + 1] == [s[0]] + s[1..][..j];
          j + 1
  }

  /** NonHexIndex(): the scan over `s` testing each byte in HexChars. */
  method NonHexIndex(s: Text) returns (i: int)
    ensures i == FirstNonHex(s)
  {
    var k := 0;
    while k < |s|
      invariant 0 <= k <= |s|
      invariant AllHex(s[..k])
    {
      HexCharsDigits(s[k]);
      if !HexBit(s[k]) {
        FirstNonHexAt(s, k);
        return k;
      }
      assert s[..k + 1] == s[..k] + [s[k]];
      k := k + 1;
    }
    assert s[..k] == s;
    return -1;
  }

  /** A byte that is no digit after a run of digits is the first non-hex
   *  byte. */
  lemma FirstNonHexAt(s: Text, k: nat)
    requires k < |s| && AllHex(s[..k]) && !IsHexDigit(s[k])
    ensures FirstNonHex(s) == k
  {
    var i := FirstNonHex(s);
    assert forall j | 0 <= j < k :: IsHexDigit(s[j]) by {
      forall j | 0 <= j < k ensures IsHexDigit(s[j]) {
        assert s[..k][j] == s[j];
      }
    }
  }

  /** 32 '0's: the trace ID that is not allowed. */
  const ZeroTraceID: Text := [48, 48, 48, 48, 48, 48, 48, 48, 48, 48, 48, 48, 48, 48, 48, 48,
                              48, 48, 48, 48, 48, 48, 48, 48, 48, 48, 48, 48, 48, 48, 48, 48]

  /** IsValidTraceID(): 32 hexadecimal digits, not all '0'. */
  function IsValidTraceID(s: Text): (r: bool)
    ensures r <==> |s| == 32 && AllHex(s) && s != ZeroTraceID
  {
    !(32 != |s| || FirstNonHex(s) != -1 || s == ZeroTraceID)
  }

  /** A trace ID holds no '/'. */
  lemma HexNoSlash(s: Text)
    requires AllHex(s)
    ensures Free(s, Slash)
  {
  }

  /** HexSpanID(): `%016x`, sixteen lower-case hexadecimal digits with
   *  leading zeros. */
  function HexSpanID(spanID: uint64): (r: Text)
    ensures |r| == 16 && AllHex(r) && HexValue(r) == spanID as nat
    ensures forall i | 0 <= i < |r| :: r[i] in LowerHex
  {
    var r := Hex(spanID as int, 16, LowerHex);
    assert AllHex(r) && HexValue(r) == spanID as nat by {
      HexRoundTrip(spanID as nat, 16, LowerHex);
      Pow16Of64();
      LemmaModUnique(spanID as nat, Pow16(16), 0, spanID as nat);
    }
    assert forall i | 0 <= i < |r| :: r[i] in LowerHex by {
      HexFromTable(spanID as int, 16, LowerHex);
    }
    r
  }

  lemma Pow16Of64()
    ensures Pow16(16) == 0x1_0000_0000_0000_0000
  {
    var p8 := Pow16(8);
    assert p8 == 0x1_0000_0000;
    Pow16Add(8, 8);
  }

  lemma {:induction false} Pow16Add(a: nat, b: nat)
    ensures Pow16(a + b) == Pow16(a) * Pow16(b)
  {
    if a > 0 {
      Pow16Add(a - 1, b);
      assert Pow16(a + b) == 16 * Pow16(a - 1 + b);
    }
  }

  /** Every digit Hex() writes comes from its table. */
  lemma {:induction false} HexFromTable(v: int, width: nat, digits: Text)
    requires |digits| == 16
    ensures forall i | 0 <= i < width :: Hex(v, width, digits)[i] in digits
    decreases width
  {
    if width > 0 {
      HexFromTable(v / 16, width - 1, digits);
    }
  }

  /** The example of the span tests: span 20 is "0000000000000014". */
  lemma HexSpanIDTwenty()
    ensures HexSpanID(20) == [48, 48, 48, 48, 48, 48, 48, 48, 48, 48, 48, 48, 48, 48, 49, 52]
  {
    HexStepBack(20, 16);
    assert Hex(0, 14, LowerHex) == seq(14, _ => 48 as byte) by {
      HexOfZero(14);
    }
  }

  /** Hex() of a value below 256 ends in its two low digits. */
  lemma HexStepBack(v: int, width: nat)
    requires width >= 2 && 0 <= v < 256
    ensures Hex(v, width, LowerHex) == Hex(0, width - 2, LowerHex) + [LowerHex[v / 16], LowerHex[v % 16]]
  {
    assert (v / 16) / 16 == 0;
  }

  lemma {:induction false} HexOfZero(width: nat)
    ensures Hex(0, width, LowerHex) == seq(width, _ => 48 as byte)
  {
    if width > 0 {
      HexOfZero(width - 1);
    }
  }

  // -----------------------------------------------------------------------
  // ROSpan
  // -----------------------------------------------------------------------

  /** An ROSpan: the project, and the imported span's trace ID and span
   *  ID; span ID 0 is the empty Factory. */
  datatype ROSpan = ROSpan(proj: Text, traceID: Text, spanID: uint64)

  /** '/' */
  const Slash: byte := 47

  /** "projects", "traces" and "spans". */
  const Projects: Text := [112, 114, 111, 106, 101, 99, 116, 115]
  const Traces: Text := [116, 114, 97, 99, 101, 115]
  const SpansPart: Text := [115, 112, 97, 110, 115]

  /** NewROSpan(): the empty Factory of a project. */
  function NewROSpan(proj: Text): ROSpan {
    ROSpan(proj, [], 0)
  }

  /** GetTracePath(): "projects/{projectID}/traces/{traceID}", or "" for
   *  the empty span. */
  function GetTracePath(s: ROSpan): (r: Text)
    ensures r == [] <==> s.spanID == 0
  {
    if s.spanID == 0 then []
    else Projects + [Slash] + s.proj + [Slash] + Traces + [Slash] + s.traceID
  }

  /** GetSpanPath(): "traces/{traceID}/spans/{spanID in hex}", or "". */
  function GetSpanPath(s: ROSpan): (r: Text)
    ensures r == [] <==> s.spanID == 0
  {
    if s.spanID == 0 then []
    else Traces + [Slash] + s.traceID + [Slash] + SpansPart + [Slash] + HexSpanID(s.spanID)
  }

  /** GetCloudContext(): "{traceID}/{spanID in decimal}", or "". */
  function GetCloudContext(s: ROSpan): (r: Text)
    ensures r == [] <==> s.spanID == 0
  {
    if s.spanID == 0 then [] else s.traceID + [Slash] + NatText(s.spanID as nat)
  }

  /** The trace path of an imported span names its project and trace:
   *  split at '/', it reads "projects", project, "traces", trace ID. */
  lemma TracePathParts(s: ROSpan)
    requires s.spanID != 0 && AllHex(s.traceID) && Free(s.proj, Slash)
    ensures Split(GetTracePath(s), Slash) == [Projects, s.proj, Traces, s.traceID]
  {
    var parts := [Projects, s.proj, Traces, s.traceID];
    HexNoSlash(s.traceID);
    JoinFour(parts, Slash);
    SplitJoin(parts, Slash);
  }

  /** The span path of an imported span names its trace and span: split
   *  at '/', it reads "traces", trace ID, "spans", and sixteen hex digits
   *  whose value is the span ID. */
  lemma SpanPathParts(s: ROSpan)
    requires s.spanID != 0 && AllHex(s.traceID)
    ensures var parts := Split(GetSpanPath(s), Slash);
      |parts| == 4 && parts[0] == Traces && parts[1] == s.traceID && parts[2] == SpansPart &&
      AllHex(parts[3]) && HexValue(parts[3]) == s.spanID as nat
  {
    var parts := [Traces, s.traceID, SpansPart, HexSpanID(s.spanID)];
    HexNoSlash(s.traceID);
    HexNoSlash(HexSpanID(s.spanID));
    JoinFour(parts, Slash);
    SplitJoin(parts, Slash);
  }

  /** Four pieces joined by a separator. */
  lemma JoinFour(parts: seq<Text>, sep: byte)
    requires |parts| == 4
    ensures Join(parts, sep) == parts[0] + [sep] + parts[1] + [sep] + parts[2] + [sep] + parts[3]
  {
    var rest := parts[1..];
    assert rest[1..][1..] == [parts[3]];
    assert Join(rest[1..], sep) == parts[2] + [sep] + parts[3];
    assert Join(rest, sep) == parts[1] + [sep] + Join(rest[1..], sep);
  }

  // -----------------------------------------------------------------------
  // Import
  // -----------------------------------------------------------------------

  /** Why Import() refuses a span, in the order it checks. */
  datatype ImportError =
    | ZeroSpanID
    | BadLength(length: nat)
    | NonHexChar(c: byte)
    | AllZeros

  datatype Imported = Span(span: ROSpan) | Refused(err: ImportError)

  /** Import(): a span made elsewhere, in the receiver's project; refused
   *  for span ID 0, then for a trace ID of the wrong length, then for a
   *  non-hex byte in it, then for 32 '0's. */
  function Import(s: ROSpan, traceID: Text, spanID: uint64): (r: Imported)
    ensures r.Span? <==> spanID != 0 && IsValidTraceID(traceID)
    ensures r.Span? ==> r.span == ROSpan(s.proj, traceID, spanID)
    ensures spanID == 0 ==> r == Refused(ZeroSpanID)
    ensures spanID != 0 && |traceID| != 32 ==> r == Refused(BadLength(|traceID|))
    ensures spanID != 0 && |traceID| == 32 && !AllHex(traceID) ==>
      r.Refused? && r.err.NonHexChar? && !IsHexDigit(r.err.c) &&
      0 <= FirstNonHex(traceID) && r.err.c == traceID[FirstNonHex(traceID)]
    ensures spanID != 0 && |traceID| == 32 && AllHex(traceID) && traceID == ZeroTraceID ==>
      r == Refused(AllZeros)
  {
    if spanID == 0 then Refused(ZeroSpanID)
    else if |traceID| != 32 then Refused(BadLength(|traceID|))
    else
      var i := FirstNonHex(traceID);
      if i != -1 then Refused(NonHexChar(traceID[i]))
      else if traceID == ZeroTraceID then Refused(AllZeros)
      else Span(ROSpan(s.proj, traceID, spanID))
  }

  // -----------------------------------------------------------------------
  // The X-Cloud-Trace-Context header
  // -----------------------------------------------------------------------

  /** http.Header: each (canonical) key maps to its list of values. */
  type HeaderMap = map<Text, seq<Text>>

  /** "X-Cloud-Trace-Context" */
  const TraceHeader: Text := [88, 45, 67, 108, 111, 117, 100, 45, 84, 114, 97, 99, 101, 45, 67, 111, 110,
                              116, 101, 120, 116]

  /** Header.Get(): the first value, or "". */
  function HeaderGet(h: HeaderMap, key: Text): Text {
    if key in h && h[key] != [] then h[key][0] else []
  }

  /** ImportFromHeaders(): the span the trace header names, or the empty
   *  span of the receiver's project when the header is missing, is not
   *  two '/'-separated parts, or does not Import(). */
  function ImportFromHeaders(s: ROSpan, headers: HeaderMap): (r: ROSpan)
    ensures r.proj == s.proj
    ensures r.spanID == 0 ==> r == NewROSpan(s.proj)
    ensures r.spanID != 0 ==>
      IsValidTraceID(r.traceID) && Split(HeaderGet(headers, TraceHeader), Slash)[0] == r.traceID
    ensures |Split(HeaderGet(headers, TraceHeader), Slash)| != 2 ==> r == NewROSpan(s.proj)
  {
    var parts := Split(HeaderGet(headers, TraceHeader), Slash);
    if |parts| == 2 then
      var spanID := ParseUint64(parts[1]).value as uint64;
      match Import(s, parts[0], spanID)
      case Span(im) => im
      case Refused(_) => NewROSpan(s.proj)
    else NewROSpan(s.proj)
  }

  /** The headers SetHeader() leaves: the trace header set to the cloud
   *  context of a non-empty span, nothing changed for the empty one. */
  function SetHeaderSpec(s: ROSpan, headers: HeaderMap): (h: HeaderMap)
    ensures s.spanID != 0 ==> HeaderGet(h, TraceHeader) == GetCloudContext(s)
    ensures forall k | k != TraceHeader :: (k in h <==> k in headers) && (k in h ==> h[k] == headers[k])
    ensures s.spanID == 0 ==> h == headers
  {
    if s.spanID != 0 then headers[TraceHeader := [GetCloudContext(s)]] else headers
  }

  /** The header map a caller passes by reference. */
  class Header {
    var values: HeaderMap

    constructor(values: HeaderMap)
      ensures this.values == values
    {
      this.values := values;
    }
  }

  /** SetHeader(): sets the trace header when the span is not empty and
   *  returns the span itself. */
  method SetHeader(s: ROSpan, headers: Header) returns (r: ROSpan)
    modifies headers
    ensures r == s
    ensures headers.values == SetHeaderSpec(s, old(headers.values))
  {
    if s.spanID != 0 {
      headers.values := headers.values[TraceHeader := [GetCloudContext(s)]];
    }
    return s;
  }

  /** The header SetHeader() writes for an imported span makes
   *  ImportFromHeaders() recover the same trace and span, in the
   *  importer's project. */
  lemma HeaderRoundTrip(s: ROSpan, t: ROSpan, headers: HeaderMap)
    requires s.spanID != 0 && IsValidTraceID(s.traceID)
    ensures ImportFromHeaders(t, SetHeaderSpec(s, headers)) == ROSpan(t.proj, s.traceID, s.spanID)
  {
    var dec := NatText(s.spanID as nat);
    var h := SetHeaderSpec(s, headers);
    assert HeaderGet(h, TraceHeader) == s.traceID + [Slash] + dec;
    HexNoSlash(s.traceID);
    assert Free(dec, Slash) by {
      forall j | 0 <= j < |dec| ensures dec[j] != Slash {
        assert IsDigit(dec[j]);
      }
    }
    var text := s.traceID + [Slash] + dec;
    SepIndexAfter(s.traceID, dec, Slash);
    SepIndexAfter(dec, [], Slash);
    assert text[..|s.traceID|] == s.traceID;
    assert text[|s.traceID| + 1..] == dec;
    assert Split(dec, Slash) == [dec];
    assert Split(HeaderGet(h, TraceHeader), Slash) == [s.traceID, dec];
    NatTextParses(s.spanID as nat);
  }

  /** The header GCP itself sends may carry ";o=1" after the span ID; the
   *  span ID then fails to parse, and the import gives the empty span. */
  lemma OptionsSuffixRefused(s: ROSpan, traceID: Text, spanID: uint64, options: Text, headers: HeaderMap)
    requires AllHex(traceID) && Free(options, Slash)
    requires HeaderGet(headers, TraceHeader) == traceID + [Slash] + NatText(spanID as nat) + [59] + options
    ensures ImportFromHeaders(s, headers) == NewROSpan(s.proj)
  {
    var rest := NatText(spanID as nat) + [59] + options;
    HexNoSlash(traceID);
    assert Free(rest, Slash) by {
      forall j | 0 <= j < |rest| ensures rest[j] != Slash {
        if j < |NatText(spanID as nat)| {
          assert IsDigit(rest[j]);
        }
      }
    }
    assert traceID + [Slash] + NatText(spanID as nat) + [59] + options == traceID + [Slash] + rest;
    var text := traceID + [Slash] + rest;
    SepIndexAfter(traceID, rest, Slash);
    SepIndexAfter(rest, [], Slash);
    assert text[..|traceID|] == traceID;
    assert text[|traceID| + 1..] == rest;
    assert Split(rest, Slash) == [rest];
    assert Split(HeaderGet(headers, TraceHeader), Slash) == [traceID, rest];
    assert rest == NatText(spanID as nat) + ([59] + options);
    ParseStopsAtNonDigit(spanID as nat, [59] + options);
  }

  /** ParseUint of a 64-bit number's digits followed by a non-digit fails
   *  with value 0. */
  lemma ParseStopsAtNonDigit(n: nat, tail: Text)
    requires n <= MaxUint64 && tail != [] && !IsDigit(tail[0])
    ensures ParseUint64(NatText(n) + tail) == Parsed(0, false)
  {
    NatTextRoundTrip(n);
    assert [] + NatText(n) == NatText(n);
    ParseFromAppend([], NatText(n), tail);
  }

  /** ParseUint's scan over digits that fit in 64 bits reaches what
   *  follows them with their value. */
  lemma {:induction false} ParseFromAppend(pre: Text, t: Text, tail: Text)
    requires AllDigits(pre + t) && DigitsValue(pre + t) <= MaxUint64
    ensures AllDigits(pre) && DigitsValue(pre) <= MaxUint64
    ensures ParseFrom(t + tail, DigitsValue(pre)) == ParseFrom(tail, DigitsValue(pre + t))
    decreases |t|
  {
    DigitsValuePrefix(pre, t);
    if t != [] {
      var pre' := pre + [t[0]];
      assert pre' + t[1..] == pre + t;
      assert pre'[..|pre'| - 1] == pre;
      assert IsDigit(t[0]) by { assert (pre + t)[|pre|] == t[0]; }
      assert AllDigits(pre');
      assert DigitsValue(pre') == DigitsValue(pre) * 10 + (t[0] - '0' as byte) as nat;
      DigitsValuePrefix(pre', t[1..]);
      ParseFromAppend(pre', t[1..], tail);
      assert (t + tail)[0] == t[0] && (t + tail)[1..] == t[1..] + tail;
      assert ParseFrom(t + tail, DigitsValue(pre)) == ParseFrom(t[1..] + tail, DigitsValue(pre'));
    } else {
      assert pre + t == pre;
      assert t + tail == tail;
    }
  }

  // -----------------------------------------------------------------------
  // New spans
  // -----------------------------------------------------------------------

  /** NewTrace() and NewSpan(): an ROSpan cannot start spans, so both give
   *  the empty span of the same project. */
  function NewTrace(s: ROSpan): (r: ROSpan)
    ensures r.proj == s.proj && GetCloudContext(r) == [] && GetTracePath(r) == [] && GetSpanPath(r) == []
  {
    ROSpan(s.proj, [], 0)
  }

  function NewSpan(s: ROSpan): (r: ROSpan)
    ensures r == NewTrace(s)
  {
    ROSpan(s.proj, [], 0)
  }

  /** NewSubSpan(): always nil. */
  function NewSubSpan(s: ROSpan): (r: Option<ROSpan>)
    ensures r == None
  {
    None
  }

  /** A span held through a pointer, for SetSpanID(). */
  class SpanRef {
    var span: ROSpan

    constructor(span: ROSpan)
      ensures this.span == span
    {
      this.span := span;
    }

    /** SetSpanID(): replaces the span ID, nothing else. */
    method SetSpanID(spanID: uint64)
      modifies this
      ensures span == old(span).(spanID := spanID)
    {
      span := span.(spanID := spanID);
    }
  }
}
