/** The scratch buffer of the older buffer.go: the same buffering and
 *  early flushing as marshal.go, a byte-by-byte copy in write(), the
 *  escaper of escapeByte() (lower-case digits, no UTF-8 handling), and the
 *  scalar() that writes nothing for a nil or empty AMap.  The destination
 *  writer is modelled as in marshal.dfy, by the ghost sequences `prior`
 *  and `early`.
 */
module LegacyBuffer {
  import opened Bytes
  import opened Data
  import opened LegacyEncoding
  import E = Encoding
  import M = Marshal

  /** escapeByte(): the two-character escapes by a switch, otherwise the
   *  template `\u0000` with its last four places filled from the low
   *  nibble up while the byte is shifted right. */
  method EscapeByte(c: byte) returns (t: Text)
    ensures t == ByteEscape(c)
  {
    if c == '"' as byte {
      return Lit("\\\"");
    } else if c == '\\' as byte {
      return Lit("\\\\");
    } else if c == 0x08 {
      return Lit("\\b");
    } else if c == 0x0C {
      return Lit("\\f");
    } else if c == 0x0A {
      return Lit("\\n");
    } else if c == 0x0D {
      return Lit("\\r");
    } else if c == 0x09 {
      return Lit("\\t");
    }
    t := HexEscape(c);
  }

  /** The `\u0000` template of escapeByte() with its four digits filled. */
  method HexEscape(c: byte) returns (t: Text)
    ensures t == Lit("\\u") + Hex(c as int, 4, LowerHex)
  {
    var buf := Lit("\\u0000");
    var x := c;
    var o := 5;
    while 1 < o
      invariant 1 <= o <= 5 && |buf| == 6
      invariant buf[..2] == Lit("\\u")
      invariant Hex(x as int, o - 1, LowerHex) + buf[o + 1..] == Hex(c as int, 4, LowerHex)
    {
      // c & 0xF, then c >>= 4
      var h := x % 16;
      ghost var before := buf;
      buf := buf[o := LowerHex[h]];
      assert buf[o..] == [LowerHex[h]] + before[o + 1..];
      x := x / 16;
      o := o - 1;
    }
    assert buf == buf[..2] + buf[2..];
    t := buf;
  }

  /** The escape loops at a byte copied unchanged. */
  lemma Kept(line: Text, s: Text, beg: nat, i: nat)
    requires beg <= i < |s| && Passes(s[i])
    ensures line + s[beg..i] + Escaped(s[i..]) == line + s[beg..i + 1] + Escaped(s[i + 1..])
  {
    assert s[beg..i + 1] == s[beg..i] + [s[i]];
    EscapedAt(s, i);
  }

  /** The escape loops at a byte that is escaped: the stretch before it,
   *  then its escape. */
  lemma Replaced(before: Text, after: Text, s: Text, beg: nat, i: nat)
    requires beg <= i < |s| && !Passes(s[i])
    requires after == before + s[beg..i] + ByteEscape(s[i])
    ensures before + s[beg..i] + Escaped(s[i..]) == after + s[i + 1..i + 1] + Escaped(s[i + 1..])
  {
    EscapedAt(s, i);
    assert s[i + 1..i + 1] == [];
  }

  /** The end of the escape loops: the last stretch completes the text. */
  lemma EscapedEnd(total: Text, before: Text, s: Text, beg: nat, after: Text)
    requires beg <= |s| && before + s[beg..|s|] + Escaped(s[|s|..]) == total
    requires after == before + s[beg..]
    ensures after == total
  {
    assert s[|s|..] == [] && s[beg..|s|] == s[beg..];
  }

  /** The room timestamp() makes sure of before writing (buffer.go). */
  const TimestampRoom: nat := 22

  /** The bytes the timestamp of a four-digit year takes. */
  const TimestampSize: nat := 27

  /** The room check of timestamp() as written: flush first when fewer
   *  than 22 bytes are left. */
  predicate FlushesBeforeTimestamp(n: nat) {
    M.Capacity < n + TimestampRoom
  }

  /** A four-digit year gives a 27-byte timestamp, so a buffer with 22
   *  bytes of room left is not flushed and yet cannot take it.  Every
   *  int2() still fits and one byte is left after the dot.  The fraction's
   *  int() is not checked: when its digits fit in that byte (a nanosecond
   *  count below 1,000,000) padding them to four digits reslices past the
   *  capacity, which panics; otherwise strconv.AppendInt moves the line
   *  to a new array, away from the scratch buffer. */
  lemma TimestampRoomShort(year: int, month: nat, day: nat, hour: nat, minute: nat, second: nat,
                           nanos: nat, iso: bool)
    requires 1000 <= year <= 9999 && nanos < 1_000_000_000
    ensures |E.TimestampText(year, month, day, hour, minute, second, nanos, iso)| == TimestampSize
    ensures !FlushesBeforeTimestamp(M.Capacity - TimestampRoom)
    ensures M.Capacity - TimestampRoom + |E.TimestampText(year, month, day, hour, minute, second, nanos, iso)| > M.Capacity
    ensures var upToDot := |E.DateText(year, month, day)| + |E.ClockText(iso, hour, minute, second)| + 1;
      upToDot <= TimestampRoom < upToDot + 4
    ensures TimestampRoom == |E.DateText(year, month, day)| + |E.ClockText(iso, hour, minute, second)| + 2
    ensures |IntText(nanos / 100000)| == 1 <==> nanos < 1_000_000
  {
    assert NatText(year) == NatText(year / 10) + [DecimalDigit(year % 10)];
    assert NatText(year / 10) == NatText(year / 100) + [DecimalDigit(year / 10 % 10)];
    assert NatText(year / 100) == NatText(year / 1000) + [DecimalDigit(year / 100 % 10)];
    FractionDigits(nanos);
  }

  /** Every year from -999 to 9999 gives a timestamp of at most 27 bytes. */
  lemma TimestampFits(year: int, month: nat, day: nat, hour: nat, minute: nat, second: nat,
                      nanos: nat, iso: bool)
    requires -999 <= year <= 9999 && nanos < 1_000_000_000
    ensures |E.TimestampText(year, month, day, hour, minute, second, nanos, iso)| <= TimestampSize
  {
    assert Pow10(4) == 10000;
    if year < 0 {
      assert Pow10(3) == 1000;
      NatTextLength(-year, 3);
    } else {
      NatTextLength(year, 4);
    }
    FractionDigits(nanos);
  }

  /** Tenths of milliseconds take four digits after padding. */
  lemma FractionDigits(nanos: nat)
    requires nanos < 1_000_000_000
    ensures |E.FractionText(nanos)| == 7
  {
    assert Pow10(4) == 10000;
    NatTextLength(nanos / 100000, 4);
  }

  /** The bytes int() leaves: what came before, `gap` '0's, then the
   *  digits. */
  lemma PaddedIn(b: Text, head: Text, t: Text, gap: nat)
    requires 0 < gap && |head| + gap + |t| <= |b| && b[..|head|] == head
    requires forall j | |head| <= j < |head| + gap :: b[j] == '0' as byte
    requires b[|head| + gap..|head| + gap + |t|] == t
    ensures b[..|head| + gap + |t|] == head + E.Padded(t, gap + |t|)
  {
    var p := E.Padded(t, gap + |t|);
    assert p == seq(gap, _ => '0' as byte) + t;
    forall j | 0 <= j < |head| + gap + |t|
      ensures b[j] == (head + p)[j]
    {
      if j < |head| {
      } else if j < |head| + gap {
      } else {
        assert b[j] == t[j - |head| - gap];
      }
    }
  }

  class Buffer {
    /** The scratch space; `buf` is its first `n` bytes. */
    const scratch: array<byte>
    var n: nat
    /** The delimiter to go before the next value. */
    var delim: Text
    /** Whether the output lock was taken to flush early. */
    var locked: bool
    /** What the writer received before the current line began. */
    ghost var prior: Text
    /** What it has received of the current line. */
    ghost var early: Text

    ghost predicate Valid()
      reads this
    {
      scratch.Length == M.Capacity && n <= M.Capacity && (!locked ==> early == [])
    }

    /** Every byte the destination writer has received. */
    ghost function Written(): Text
      reads this
    {
      prior + early
    }

    /** The bytes of the current line not yet written. */
    function Buf(): Text
      reads this, scratch
      requires n <= scratch.Length
    {
      scratch[..n]
    }

    /** The current line so far: what was flushed early, then `buf`. */
    ghost function Line(): Text
      reads this, scratch
      requires Valid()
    {
      early + scratch[..n]
    }

    /** What every writing step keeps: the lock is never released and
     *  what the writer had before the line stays as it was. */
    twostate predicate Grows()
      reads this
    {
      (old(locked) ==> locked) && prior == old(prior)
    }

    /** A buffer from the pool: empty, with no delimiter and no lock. */
    constructor()
      ensures Valid() && n == 0 && delim == [] && !locked && prior == [] && early == []
      ensures fresh(scratch)
    {
      scratch := new byte[M.Capacity];
      n := 0;
      delim := [];
      locked := false;
      prior := [];
      early := [];
    }

    /** lock(): take the output lock if not yet held and flush `buf`. */
    method Lock()
      requires Valid()
      modifies this
      ensures Valid() && locked && n == 0 && Line() == old(Line())
      ensures early == old(early) + old(Buf()) && prior == old(prior) && delim == old(delim)
    {
      if !locked {
        locked := true;
      }
      if 0 < n {
        early := early + scratch[..n];
        n := 0;
      }
    }

    /** unlock(): flush what is left and release the lock if it was taken;
     *  the whole line has then reached the writer. */
    method Unlock()
      requires Valid()
      modifies this
      ensures Valid() && !locked && n == 0
      ensures Written() == old(Written()) + old(Buf())
      ensures prior == old(prior) + old(Line()) && early == [] && delim == old(delim)
    {
      if 0 < n {
        early := early + scratch[..n];
        n := 0;
      }
      if locked {
        locked := false;
      }
      prior, early := prior + early, [];
    }

    /** Go's `append` to `buf` where the caller knows there is room. */
    method Append(t: Text)
      requires Valid() && n + |t| <= M.Capacity
      modifies this, scratch
      ensures Valid() && Buf() == old(Buf()) + t && Line() == old(Line()) + t
      ensures early == old(early) && locked == old(locked) && prior == old(prior) && delim == old(delim)
    {
      forall j | 0 <= j < |t| {
        scratch[n + j] := t[j];
      }
      n := n + |t|;
      assert scratch[..n] == old(scratch[..n]) + t;
    }

    /** writeBytes(): append a chunk, flushing first when it would not fit
     *  and writing it straight through when it exceeds the capacity. */
    method WriteBytes(s: Text)
      requires Valid()
      modifies this, scratch
      ensures Valid() && Grows() && Line() == old(Line()) + s && delim == old(delim)
      ensures M.Placed(old(Buf()), old(locked), old(early), s, Buf(), locked, early)
    {
      if M.Capacity < n + |s| {
        Lock();
      }
      if M.Capacity < |s| {
        early := early + s;
      } else {
        Append(s);
      }
    }

    /** write(): each string in turn, placed as writeBytes() places it. */
    method Write(strs: seq<Text>)
      requires Valid()
      modifies this, scratch
      ensures Valid() && Grows() && Line() == old(Line()) + Concat(strs) && delim == old(delim)
      ensures old(n) + |Concat(strs)| <= M.Capacity ==> n == old(n) + |Concat(strs)|
      ensures (Buf(), locked, early) == M.PlaceAll(old(Buf()), old(locked), old(early), strs)
      ensures M.Capacity < old(n) + |Concat(strs)| ==> locked
    {
      var i := 0;
      while i < |strs|
        invariant 0 <= i <= |strs|
        invariant Valid() && Grows() && delim == old(delim)
        invariant Line() == old(Line()) + Concat(strs[..i])
        invariant (Buf(), locked, early) == M.PlaceAll(old(Buf()), old(locked), old(early), strs[..i])
      {
        assert strs[..i + 1] == strs[..i] + [strs[i]];
        ConcatSnoc(strs[..i], strs[i]);
        M.PlaceAllNext(old(Buf()), old(locked), old(early), strs, i);
        WriteOne(strs[i]);
        i := i + 1;
      }
      assert strs[..i] == strs;
      M.PlaceAllLocks(old(Buf()), old(locked), old(early), strs);
    }

    /** The body of write() for one string: placed as writeBytes() places
     *  it, the bytes copied into the scratch space one by one. */
    method WriteOne(s: Text)
      requires Valid()
      modifies this, scratch
      ensures Valid() && Grows() && Line() == old(Line()) + s && delim == old(delim)
      ensures M.Placed(old(Buf()), old(locked), old(early), s, Buf(), locked, early)
    {
      if M.Capacity < n + |s| {
        Lock();
      }
      if M.Capacity < |s| {
        early := early + s;
      } else {
        var was := n;
        var will := was + |s|;
        ghost var head := Buf();
        n := will;
        CopyIn(was, s);
        assert Buf() == head + s;
      }
    }

    /** The copy loop of write(): the bytes of `s` one by one at `was`. */
    method CopyIn(was: nat, s: Text)
      requires scratch.Length == M.Capacity && was + |s| <= M.Capacity
      modifies scratch
      ensures scratch[..was + |s|] == old(scratch[..was]) + s
    {
      var i := 0;
      while i < |s|
        invariant 0 <= i <= |s|
        invariant scratch[..was] == old(scratch[..was])
        invariant scratch[was..was + i] == s[..i]
      {
        scratch[was + i] := s[i];
        assert scratch[was..was + i + 1] == scratch[was..was + i] + [s[i]];
        i := i + 1;
      }
      assert scratch[..was + |s|] == scratch[..was] + scratch[was..was + |s|];
    }

    // -------------------------------------------------------------------
    // Strings
    // -------------------------------------------------------------------

    /** One round of the escape loops: a byte that passes joins the
     *  pending stretch; any other byte flushes the stretch, with write()
     *  or writeBytes(), and writes its escape. */
    method EscapeAt(s: Text, beg: nat, i: nat, viaWrite: bool) returns (beg': nat, i': nat)
      requires Valid() && beg <= i < |s|
      modifies this, scratch
      ensures Valid() && Grows() && delim == old(delim)
      ensures beg' <= i' == i + 1 <= |s|
      ensures Line() + s[beg'..i'] + Escaped(s[i'..]) == old(Line()) + s[beg..i] + Escaped(s[i..])
    {
      var c := s[i];
      if Passes(c) {
        Kept(Line(), s, beg, i);
        beg' := beg;
      } else {
        ghost var before := Line();
        if viaWrite {
          Write([s[beg..i]]);
          ConcatPair(s[beg..i], []);
        } else {
          WriteBytes(s[beg..i]);
        }
        var e := EscapeByte(c);
        Write([e]);
        ConcatPair(e, []);
        Replaced(before, Line(), s, beg, i);
        beg' := i + 1;
      }
      i' := i + 1;
    }

    /** escape(): `s` escaped, copying unescaped stretches in one piece. */
    method Escape(s: Text)
      requires Valid()
      modifies this, scratch
      ensures Valid() && Grows() && Line() == old(Line()) + Escaped(s) && delim == old(delim)
    {
      var beg := 0;
      var i := 0;
      while i < |s|
        invariant 0 <= beg <= i <= |s|
        invariant Valid() && Grows() && delim == old(delim)
        invariant Line() + s[beg..i] + Escaped(s[i..]) == old(Line()) + Escaped(s)
      {
        beg, i := EscapeAt(s, beg, i, true);
      }
      ghost var before := Line();
      Write([s[beg..]]);
      ConcatPair(s[beg..], []);
      EscapedEnd(old(Line()) + Escaped(s), before, s, beg, Line());
    }

    /** escapeBytes(): the same loop, the stretches written with
     *  writeBytes(). */
    method EscapeBytes(s: Text)
      requires Valid()
      modifies this, scratch
      ensures Valid() && Grows() && Line() == old(Line()) + Escaped(s) && delim == old(delim)
    {
      var beg := 0;
      var i := 0;
      while i < |s|
        invariant 0 <= beg <= i <= |s|
        invariant Valid() && Grows() && delim == old(delim)
        invariant Line() + s[beg..i] + Escaped(s[i..]) == old(Line()) + Escaped(s)
      {
        beg, i := EscapeAt(s, beg, i, false);
      }
      ghost var before := Line();
      WriteBytes(s[beg..]);
      EscapedEnd(old(Line()) + Escaped(s), before, s, beg, Line());
    }

    /** The pending delimiter and the opening quote mark of quote(). */
    method OpenQuote()
      requires Valid()
      modifies this, scratch
      ensures Valid() && Grows() && Line() == old(Line()) + (old(delim) + Lit("\"")) && delim == old(delim)
    {
      Write([delim, Lit("\"")]);
      ConcatPair(delim, Lit("\""));
    }

    /** The closing quote mark of quote(). */
    method CloseQuote()
      requires Valid()
      modifies this, scratch
      ensures Valid() && Grows() && Line() == old(Line()) + Lit("\"") && delim == old(delim)
    {
      Write([Lit("\"")]);
      ConcatPair(Lit("\""), []);
    }

    /** quote(): the pending delimiter, then the strings escaped inside
     *  double quotes; a comma is pending afterwards. */
    method Quote(strs: seq<Text>)
      requires Valid()
      modifies this, scratch
      ensures Valid() && Grows() && Line() == old(Line()) + Quoted(strs, old(delim)) && delim == E.Comma
    {
      OpenQuote();
      ghost var head := Line();
      EscapeEach(strs);
      ghost var before := Line();
      CloseQuote();
      M.TokenAfter(old(Line()), old(delim) + Lit("\""), EscapedAll(strs), Lit("\""), head, before, Line());
      delim := E.Comma;
    }

    /** The loop of quote(): each string escaped in turn, with nothing
     *  between them. */
    method EscapeEach(strs: seq<Text>)
      requires Valid()
      modifies this, scratch
      ensures Valid() && Grows() && delim == old(delim)
      ensures Line() == old(Line()) + EscapedAll(strs)
    {
      var i := 0;
      while i < |strs|
        invariant 0 <= i <= |strs|
        invariant Valid() && Grows() && delim == old(delim)
        invariant Line() == old(Line()) + EscapedAll(strs[..i])
      {
        ghost var before := Line();
        Escape(strs[i]);
        EscapedAllSnoc(strs, i);
        M.Extend(old(Line()), EscapedAll(strs[..i]), Escaped(strs[i]), EscapedAll(strs[..i + 1]), before, Line());
        i := i + 1;
      }
      assert strs[..i] == strs;
    }

    /** quoteBytes(): like quote() for one byte slice, except that the
     *  pending delimiter is left as it was. */
    method QuoteBytes(s: Text)
      requires Valid()
      modifies this, scratch
      ensures Valid() && Grows() && Line() == old(Line()) + Quoted([s], old(delim)) && delim == old(delim)
    {
      OpenQuote();
      ghost var head := Line();
      EscapeBytes(s);
      ghost var before := Line();
      CloseQuote();
      assert EscapedAll([s]) == Escaped(s) by {
        assert [s][1..] == [];
      }
      M.TokenAfter(old(Line()), old(delim) + Lit("\""), Escaped(s), Lit("\""), head, before, Line());
    }

    // -------------------------------------------------------------------
    // Numbers and the timestamp
    // -------------------------------------------------------------------

    /** int2(): two digits after the buffer, without a room check. */
    method Int2(val: nat)
      requires Valid() && n + 2 <= M.Capacity
      modifies this, scratch
      ensures Valid() && Grows() && delim == old(delim)
      ensures Line() == old(Line()) + E.Int2Text(val) && n == old(n) + 2
    {
      var l := n;
      scratch[l] := E.DigitByte(val / 10);
      scratch[l + 1] := E.DigitByte(val % 10);
      n := l + 2;
      assert scratch[..n] == old(scratch[..n]) + E.Int2Text(val);
    }

    /** int(): the decimal digits of `val`, then moved right and '0's put
     *  in front when there are fewer than `digits` of them. */
    method IntDigits(val: int, digits: nat)
      requires Valid() && n + |E.Padded(IntText(val), digits)| <= M.Capacity
      modifies this, scratch
      ensures Valid() && Grows() && delim == old(delim)
      ensures Line() == old(Line()) + E.Padded(IntText(val), digits)
    {
      AppendPadded(IntText(val), digits);
    }

    /** The digits of int() written, then padded in place. */
    method AppendPadded(t: Text, digits: nat)
      requires Valid() && n + |E.Padded(t, digits)| <= M.Capacity
      modifies this, scratch
      ensures Valid() && Grows() && delim == old(delim)
      ensures Line() == old(Line()) + E.Padded(t, digits)
    {
      var bef := n;
      ghost var head, line := Buf(), Line();
      Append(t);
      assert Buf()[..bef] == head && Buf()[bef..] == t;
      PadAfter(bef, digits);
      ghost var p := E.Padded(t, digits);
      assert Buf() == head + p;
      assert line == early + head;
      assert Line() == early + (head + p) == line + p;
    }

    /** The digits after `bef`, padded in place when they are fewer than
     *  `digits`. */
    method PadAfter(bef: nat, digits: nat)
      requires Valid() && bef <= n && bef + |E.Padded(Buf()[bef..], digits)| <= M.Capacity
      modifies this, scratch
      ensures Valid() && early == old(early) && locked == old(locked) && prior == old(prior) && delim == old(delim)
      ensures Buf() == old(Buf()[..bef]) + E.Padded(old(Buf()[bef..]), digits)
    {
      if n - bef < digits {
        PadDigits(bef, digits);
      } else {
        assert Buf() == Buf()[..bef] + Buf()[bef..];
      }
    }

    /** The shift of int(): the digits after `bef` move right and '0's
     *  fill the gap up to `digits` bytes. */
    method PadDigits(bef: nat, digits: nat)
      requires Valid() && bef <= n && n - bef < digits && bef + digits <= M.Capacity
      modifies this, scratch
      ensures Valid() && early == old(early) && locked == old(locked) && prior == old(prior) && delim == old(delim)
      ensures Buf() == old(Buf()[..bef]) + E.Padded(old(Buf()[bef..]), digits)
    {
      ghost var head := Buf()[..bef];
      ghost var t := Buf()[bef..];
      var l := n - bef;
      assert scratch[..bef] == head && scratch[bef..bef + l] == t;
      PadFront(bef, l, digits - l);
      n := bef + digits;
      ghost var b := scratch[..];
      assert b[..bef] == head && b[bef + (digits - l)..bef + (digits - l) + l] == t;
      PaddedIn(b, head, t, digits - l);
    }

    /** The copy and the loop of int(): `l` digits at `bef` move `gap` places
     *  right, and '0's fill the gap. */
    method PadFront(bef: nat, l: nat, gap: nat)
      requires scratch.Length == M.Capacity && bef + gap + l <= M.Capacity
      modifies scratch
      ensures scratch[..bef] == old(scratch[..bef])
      ensures forall j | bef <= j < bef + gap :: scratch[j] == '0' as byte
      ensures scratch[bef + gap..bef + gap + l] == old(scratch[bef..bef + l])
    {
      forall j | 0 <= j < l {
        scratch[bef + gap + j] := scratch[bef + j];
      }
      var i := bef;
      while i < bef + gap
        invariant bef <= i <= bef + gap
        invariant scratch[..bef] == old(scratch[..bef])
        invariant forall j | bef <= j < i :: scratch[j] == '0' as byte
        invariant scratch[bef + gap..bef + gap + l] == old(scratch[bef..bef + l])
      {
        scratch[i] := '0' as byte;
        i := i + 1;
      }
    }

    /** timestamp(), with the room check widened to the 27 bytes a
     *  timestamp of a four-digit year takes: flush first when less room
     *  is left, then write the quoted UTC time.  The calendar fields stand
     *  for time.Now(). */
    method Timestamp(year: int64, month: nat, day: nat, hour: nat, minute: nat, second: nat,
                     nanos: nat, iso: bool)
      requires Valid() && -999 <= year <= 9999 && nanos < 1_000_000_000
      modifies this, scratch
      ensures Valid() && Grows() && delim == E.Comma
      ensures Line() == old(Line()) + E.TimestampText(year as int, month, day, hour, minute, second, nanos, iso)
    {
      if M.Capacity < n + TimestampSize {
        Lock();
      }
      TimestampFits(year as int, month, day, hour, minute, second, nanos, iso);
      ghost var time := E.ClockText(iso, hour, minute, second);
      ghost var frac := E.FractionText(nanos);
      ghost var l0 := Line();
      Date(year, month, day, |time| + |frac|);
      ghost var l1 := Line();
      Clock(iso, hour, minute, second, |frac|);
      ghost var l2 := Line();
      Fraction(nanos);
      M.Chain3(l0, E.DateText(year as int, month, day), time, frac, l1, l2, Line());
      delim := E.Comma;
    }

    /** The date part of timestamp(), with `more` bytes still to come. */
    method Date(year: int64, month: nat, day: nat, ghost more: nat)
      requires Valid() && n + |E.DateText(year as int, month, day)| + more <= M.Capacity
      modifies this, scratch
      ensures Valid() && Grows() && delim == old(delim)
      ensures Line() == old(Line()) + E.DateText(year as int, month, day)
      ensures n + more <= M.Capacity
    {
      ghost var y := IntText(year as int);
      Write([Lit("\"")]);
      ConcatPair(Lit("\""), []);
      ghost var l1 := Line();
      Append(IntText(year as int));
      ghost var l2 := Line();
      Write([Lit("-")]);
      ConcatPair(Lit("-"), []);
      ghost var l3 := Line();
      Int2(month);
      M.Chain4(old(Line()), Lit("\""), y, Lit("-"), E.Int2Text(month), l1, l2, l3, Line());
      ghost var l4 := Line();
      Write([Lit("-")]);
      ConcatPair(Lit("-"), []);
      ghost var l5 := Line();
      Int2(day);
      M.Chain3(old(Line()), Lit("\"") + y + Lit("-") + E.Int2Text(month), Lit("-"), E.Int2Text(day), l4, l5, Line());
    }

    /** The time-of-day part of timestamp(). */
    method Clock(iso: bool, hour: nat, minute: nat, second: nat, ghost more: nat)
      requires Valid() && n + |E.ClockText(iso, hour, minute, second)| + more <= M.Capacity
      modifies this, scratch
      ensures Valid() && Grows() && delim == old(delim)
      ensures Line() == old(Line()) + E.ClockText(iso, hour, minute, second)
      ensures n + more <= M.Capacity
    {
      var sep := if iso then Lit("T") else Lit(" ");
      Write([sep]);
      ConcatPair(sep, []);
      ghost var l1 := Line();
      Int2(hour);
      ghost var l2 := Line();
      Write([E.ColonText]);
      ConcatPair(E.ColonText, []);
      ghost var l3 := Line();
      Int2(minute);
      M.Chain4(old(Line()), sep, E.Int2Text(hour), E.ColonText, E.Int2Text(minute), l1, l2, l3, Line());
      ghost var l4 := Line();
      Write([E.ColonText]);
      ConcatPair(E.ColonText, []);
      ghost var l5 := Line();
      Int2(second);
      M.Chain3(old(Line()), sep + E.Int2Text(hour) + E.ColonText + E.Int2Text(minute), E.ColonText, E.Int2Text(second),
               l4, l5, Line());
    }

    /** The fraction of a second in timestamp(), and the closing quote. */
    method Fraction(nanos: nat)
      requires Valid() && n + |E.FractionText(nanos)| <= M.Capacity
      modifies this, scratch
      ensures Valid() && Grows() && delim == old(delim)
      ensures Line() == old(Line()) + E.FractionText(nanos)
    {
      Write([Lit(".")]);
      ConcatPair(Lit("."), []);
      ghost var l1 := Line();
      IntDigits(nanos / 100000, 4);
      ghost var l2 := Line();
      Write([Lit("Z\"")]);
      ConcatPair(Lit("Z\""), []);
      M.Chain3(old(Line()), Lit("."), E.Padded(IntText(nanos / 100000), 4), Lit("Z\""), l1, l2, Line());
    }

    // -------------------------------------------------------------------
    // Lists and maps
    // -------------------------------------------------------------------

    /** open(): the pending delimiter and the opening bracket; nothing is
     *  pending inside. */
    method Open(punct: Text)
      requires Valid()
      modifies this, scratch
      ensures Valid() && Grows() && Line() == old(Line()) + (old(delim) + punct) && delim == []
    {
      Write([delim, punct]);
      ConcatPair(delim, punct);
      delim := [];
    }

    /** colon(): the separator between a key and its value. */
    method Colon()
      requires Valid()
      modifies this, scratch
      ensures Valid() && Grows() && Line() == old(Line()) + E.ColonText && delim == []
    {
      Write([E.ColonText]);
      ConcatPair(E.ColonText, []);
      delim := [];
    }

    /** close(): the closing bracket; a comma is pending after it. */
    method Close(punct: Text)
      requires Valid()
      modifies this, scratch
      ensures Valid() && Grows() && Line() == old(Line()) + punct && delim == E.Comma
    {
      Write([punct]);
      ConcatPair(punct, []);
      delim := E.Comma;
    }

    /** pair(): a quoted key, a colon and the value. */
    method Pair(k: Text, v: Value, show: Formatter)
      requires Valid() && E.Encodable(v)
      modifies this, scratch
      ensures Valid() && Grows()
      ensures Line() == old(Line()) + PairOut(k, v, old(delim), show).out && delim == PairOut(k, v, old(delim), show).delim
      decreases E.Size(v), 5
    {
      Quote([k]);
      ghost var l1 := Line();
      Colon();
      ghost var l2 := Line();
      Scalar(v, show);
      M.Chain3(old(Line()), Quoted([k], old(delim)), E.ColonText, ScalarOut(v, [], show).out, l1, l2, Line());
    }

    /** pairs(): every pair of a map in order; nothing for a nil map. */
    method MapPairs(m: AMap, show: Formatter)
      requires Valid() && E.Encodable(Value.Pairs(m))
      modifies this, scratch
      ensures Valid() && Grows()
      ensures Line() == old(Line()) + AMapOut(m, old(delim), show).out && delim == AMapOut(m, old(delim), show).delim
      decreases E.Size(Value.Pairs(m)), 0
    {
      if m.Ref? {
        var keys, vals := m.p.keys, m.p.vals;
        var i := 0;
        while i < |keys|
          invariant 0 <= i <= |keys| && Valid() && Grows()
          invariant E.EncodableSeq(vals[i..])
          invariant E.Then(Line(), PairsOut(keys[i..], vals[i..], delim, show))
                      == E.Then(old(Line()), PairsOut(keys, vals, old(delim), show))
        {
          PairsOutAt(keys, vals, i, delim, show);
          E.SizeAt(vals, i);
          ghost var before := Line();
          ghost var h := PairOut(keys[i], vals[i], delim, show);
          Pair(keys[i], vals[i], show);
          M.ThenStep(before, h.out, Line(), PairsOut(keys[i + 1..], vals[i + 1..], h.delim, show));
          i := i + 1;
        }
      }
    }

    /** The pairs an InlinePairs key splices in (the inlining case of
     *  rawPairs()). */
    method InlinePairs(elt: Value, show: Formatter)
      requires Valid() && E.Encodable(elt)
      modifies this, scratch
      ensures Valid() && Grows()
      ensures Line() == old(Line()) + InlineValue(elt, old(delim), show).out && delim == InlineValue(elt, old(delim), show).delim
      decreases E.Size(elt), 6
    {
      if elt.Raw? {
        RawPairs(elt.elts, show);
      } else if elt.KV? {
        MapPairs(Ref(elt.kv), show);
      } else if elt.Pairs? {
        MapPairs(elt.m, show);
      } else {
        Pair(Lit("cannot-inline"), elt, show);
      }
    }

    /** rawPairs(): keys and values alternating, with the SkipThisPair and
     *  InlinePairs sentinels in key positions acting on the value after
     *  them, and `null` for a key without a value. */
    method RawPairs(m: seq<Value>, show: Formatter)
      requires Valid() && E.EncodableSeq(m)
      modifies this, scratch
      ensures Valid() && Grows()
      ensures Line() == old(Line()) + RawOut(m, true, false, false, old(delim), show).out && delim == RawOut(m, true, false, false, old(delim), show).delim
      decreases E.SizeSeq(m), 9
    {
      var skipping, inlining := RawLoop(m, show);
      if |m| % 2 == 1 && !skipping {
        Scalar(Nil, show);
      }
    }

    /** The loop of rawPairs(): every element of `m` in turn; what is left
     *  is the odd-end case of the specification. */
    method RawLoop(m: seq<Value>, show: Formatter) returns (skipping: bool, inlining: bool)
      requires Valid() && E.EncodableSeq(m)
      modifies this, scratch
      ensures Valid() && Grows()
      ensures E.Then(Line(), RawOut([], |m| % 2 == 0, skipping, inlining, delim, show))
                == E.Then(old(Line()), RawOut(m, true, false, false, old(delim), show))
      decreases E.SizeSeq(m), 8
    {
      skipping := false;
      inlining := false;
      ghost var goal := E.Then(old(Line()), RawOut(m, true, false, false, old(delim), show));
      var i := 0;
      while i < |m|
        invariant 0 <= i <= |m| && Valid() && Grows()
        invariant E.EncodableSeq(m[i..])
        invariant E.Then(Line(), RawOut(m[i..], i % 2 == 0, skipping, inlining, delim, show)) == goal
      {
        E.SizeAt(m, i);
        RawOutAt(m, i, i % 2 == 0, skipping, inlining, delim, show);
        ghost var before := Line();
        ghost var r := RawStepOut(m[i], i % 2 == 0, skipping, inlining, delim, show);
        ghost var rest := RawOut(m[i + 1..], !(i % 2 == 0), r.1, r.2, r.3, show);
        assert E.Then(before, E.Then(r.0, rest)) == goal;
        assert (i + 1) % 2 == 0 <==> !(i % 2 == 0);
        skipping, inlining := RawStep(m, i, skipping, inlining, show);
        M.ThenStep(before, r.0, Line(), rest);
        i := i + 1;
      }
      assert m[i..] == [];
    }

    /** The body of the rawPairs() loop for the element at `i`. */
    method RawStep(m: seq<Value>, i: nat, skipping: bool, inlining: bool, show: Formatter)
      returns (skipping': bool, inlining': bool)
      requires Valid() && i < |m| && E.Encodable(m[i])
      modifies this, scratch
      ensures Valid() && Grows()
      ensures var r := RawStepOut(m[i], i % 2 == 0, skipping, inlining, old(delim), show);
        Line() == old(Line()) + r.0 && skipping' == r.1 && inlining' == r.2 && delim == r.3
      decreases E.Size(m[i]), 7
    {
      var elt := m[i];
      skipping', inlining' := skipping, inlining;
      if i % 2 == 0 {
        if elt.Skip? {
          skipping' := true;
        } else if elt.Inline? {
          inlining' := true;
        } else {
          Quote([S(elt, show)]);
          ghost var l1 := Line();
          Colon();
          M.Extend(old(Line()), Quoted([S(elt, show)], old(delim)), E.ColonText,
                   Quoted([S(elt, show)], old(delim)) + E.ColonText, l1, Line());
        }
      } else if skipping {
        skipping' := false;
      } else if inlining {
        InlinePairs(elt, show);
        inlining' := false;
      } else {
        Scalar(elt, show);
      }
    }

    // -------------------------------------------------------------------
    // Scalars
    // -------------------------------------------------------------------

    /** scalar(): a deferred value is called first; a nil or empty AMap
     *  then writes nothing and leaves the delimiter pending; otherwise the
     *  pending delimiter, an early flush when fewer than 64 bytes of room
     *  are left, the value, and a comma pending. */
    method Scalar(v: Value, show: Formatter)
      requires Valid() && E.Encodable(v)
      modifies this, scratch
      ensures Valid() && Grows()
      ensures Line() == old(Line()) + ScalarOut(v, old(delim), show).out && delim == ScalarOut(v, old(delim), show).delim
      decreases E.Size(v), 4
    {
      var s := Resolved(v);
      if s.Pairs? && (s.m.NilMap? || |s.m.p.keys| == 0) {
        assert Vanishes(v);
        return;
      }
      ScalarBody(v, s, show);
    }

    /** scalar() past its early return: the pending delimiter, an early
     *  flush when fewer than 64 bytes of room are left, the value, and a
     *  comma pending. */
    method ScalarBody(v: Value, s: Value, show: Formatter)
      requires Valid() && E.Encodable(v) && s == Resolved(v)
      modifies this, scratch
      ensures Valid() && Grows()
      ensures Line() == old(Line()) + (old(delim) + Json(v, show)) && delim == E.Comma
      decreases E.Size(v), 3
    {
      Write([delim]);
      ConcatPair(delim, []);
      ghost var l1 := Line();
      delim := [];
      if M.Capacity < n + 64 {
        Lock();
      }
      EncodeBody(s, show);
      M.Extend(old(Line()), old(delim), if s.Deferred? then FuncFailure(s, show) else Json(s, show),
               old(delim) + Json(v, show), l1, Line());
      delim := E.Comma;
    }

    /** The switch of scalar() on the value's type. */
    method EncodeBody(s: Value, show: Formatter)
      requires Valid() && E.Encodable(s) && delim == [] && n + 64 <= M.Capacity
      modifies this, scratch
      ensures Valid() && Grows()
      ensures Line() == old(Line()) + (if s.Deferred? then FuncFailure(s, show) else Json(s, show))
      decreases E.Size(s), 2
    {
      match s
      case Strings(ss) => EncodeStrings(ss, show);
      case List(items) => EncodeList(items, show);
      case Raw(elts) => EncodeRaw(elts, show);
      case Pairs(m) => EncodeMap(m, show);
      case Str(_) => EncodeText(s, show);
      case ByteSlice(_) => EncodeText(s, show);
      case ErrorV(_) => EncodeText(s, show);
      case StringerV(_) => EncodeText(s, show);
      case Deferred(_) => EncodeText(s, show);
      case Failing(_, _) => EncodeText(s, show);
      case _ => EncodeLeaf(s, show);
    }

    /** A `[]string` as a JSON list, each element through scalar(). */
    method EncodeStrings(ss: seq<Text>, show: Formatter)
      requires Valid() && delim == []
      modifies this, scratch
      ensures Valid() && Grows()
      ensures Line() == old(Line()) + (E.LBracket + StringsOut(ss, []).out + E.RBracket)
      decreases E.Size(Strings(ss)), 1
    {
      ghost var l0 := Line();
      Open(E.LBracket);
      ghost var l1 := Line();
      StringItems(ss, show);
      ghost var l2 := Line();
      Close(E.RBracket);
      assert [] + E.LBracket == E.LBracket;
      M.Chain3(l0, E.LBracket, StringsOut(ss, []).out, E.RBracket, l1, l2, Line());
    }

    /** The loop of the `[]string` case of scalar(). */
    method StringItems(ss: seq<Text>, show: Formatter)
      requires Valid()
      modifies this, scratch
      ensures Valid() && Grows()
      ensures Line() == old(Line()) + StringsOut(ss, old(delim)).out && delim == StringsOut(ss, old(delim)).delim
      decreases E.Size(Strings(ss)), 0
    {
      var i := 0;
      while i < |ss|
        invariant 0 <= i <= |ss| && Valid() && Grows()
        invariant E.Then(Line(), StringsOut(ss[i..], delim)) == E.Then(old(Line()), StringsOut(ss, old(delim)))
      {
        StringsOutAt(ss, i, delim);
        ghost var before := Line();
        ghost var d := delim;
        Scalar(Str(ss[i]), show);
        M.ThenStep(before, d + Quoted([ss[i]], []), Line(), StringsOut(ss[i + 1..], E.Comma));
        i := i + 1;
      }
      assert ss[i..] == [];
    }

    /** An AList as a JSON list, each element through scalar(). */
    method EncodeList(items: seq<Value>, show: Formatter)
      requires Valid() && delim == [] && E.EncodableSeq(items)
      modifies this, scratch
      ensures Valid() && Grows()
      ensures Line() == old(Line()) + (E.LBracket + ListOut(items, [], show).out + E.RBracket)
      decreases E.Size(List(items)), 1
    {
      ghost var body := ListOut(items, [], show).out;
      Open(E.LBracket);
      ghost var l1 := Line();
      ListItems(items, show);
      assert Line() == l1 + body;
      ghost var l2 := Line();
      Close(E.RBracket);
      assert [] + E.LBracket == E.LBracket;
      M.Chain3(old(Line()), E.LBracket, body, E.RBracket, l1, l2, Line());
    }

    /** The loop of the AList case of scalar(). */
    method ListItems(items: seq<Value>, show: Formatter)
      requires Valid() && E.EncodableSeq(items)
      modifies this, scratch
      ensures Valid() && Grows()
      ensures Line() == old(Line()) + ListOut(items, old(delim), show).out && delim == ListOut(items, old(delim), show).delim
      decreases E.Size(List(items)), 0
    {
      var i := 0;
      while i < |items|
        invariant 0 <= i <= |items| && Valid() && Grows()
        invariant E.EncodableSeq(items[i..])
        invariant E.Then(Line(), ListOut(items[i..], delim, show)) == E.Then(old(Line()), ListOut(items, old(delim), show))
      {
        ListOutAt(items, i, delim, show);
        E.SizeAt(items, i);
        ghost var before := Line();
        ghost var h := ScalarOut(items[i], delim, show);
        Scalar(items[i], show);
        M.ThenStep(before, h.out, Line(), ListOut(items[i + 1..], h.delim, show));
        i := i + 1;
      }
      assert items[i..] == [];
    }

    /** A RawMap as a JSON object. */
    method EncodeRaw(elts: seq<Value>, show: Formatter)
      requires Valid() && delim == [] && E.EncodableSeq(elts)
      modifies this, scratch
      ensures Valid() && Grows()
      ensures Line() == old(Line()) + (E.LBrace + RawOut(elts, true, false, false, [], show).out + E.RBrace)
      decreases E.Size(Raw(elts)), 1
    {
      ghost var body := RawOut(elts, true, false, false, [], show).out;
      Open(E.LBrace);
      ghost var l1 := Line();
      RawPairs(elts, show);
      assert Line() == l1 + body;
      ghost var l2 := Line();
      Close(E.RBrace);
      assert [] + E.LBrace == E.LBrace;
      M.Chain3(old(Line()), E.LBrace, body, E.RBrace, l1, l2, Line());
    }

    /** An AMap as a JSON object. */
    method EncodeMap(m: AMap, show: Formatter)
      requires Valid() && delim == [] && E.Encodable(Value.Pairs(m))
      modifies this, scratch
      ensures Valid() && Grows()
      ensures Line() == old(Line()) + (E.LBrace + AMapOut(m, [], show).out + E.RBrace)
      decreases E.Size(Value.Pairs(m)), 1
    {
      ghost var body := AMapOut(m, [], show).out;
      Open(E.LBrace);
      ghost var l1 := Line();
      MapPairs(m, show);
      assert Line() == l1 + body;
      ghost var l2 := Line();
      Close(E.RBrace);
      assert [] + E.LBrace == E.LBrace;
      M.Chain3(old(Line()), E.LBrace, body, E.RBrace, l1, l2, Line());
    }

    /** The cases of scalar() that write a quoted string. */
    method EncodeText(s: Value, show: Formatter)
      requires Valid() && delim == []
      requires s.Str? || s.ByteSlice? || s.ErrorV? || s.StringerV? || s.Deferred? || s.Failing?
      modifies this, scratch
      ensures Valid() && Grows()
      ensures Line() == old(Line()) + (if s.Deferred? then FuncFailure(s, show) else Json(s, show))
    {
      match s
      case Str(x) =>
        Quote([x]);
      case ByteSlice(b) =>
        QuoteBytes(b);
      case ErrorV(msg) =>
        Quote([msg]);
      case StringerV(str) =>
        Quote([str]);
      case Deferred(_) =>
        Quote([Lit("! "), E.FuncError, Lit("; "), show(s)]);
      case Failing(err, syntax) =>
        Quote([Lit("! "), err, Lit("; "), syntax]);
    }

    /** The remaining cases of scalar(): literals, numbers, and bytes
     *  written as they are. */
    method EncodeLeaf(s: Value, show: Formatter)
      requires Valid() && delim == [] && n + 64 <= M.Capacity
      requires s.Nil? || s.Int? || s.Uint? || s.Bool? || s.KV? || s.Skip? || s.Inline? || s.Other?
      requires E.Encodable(s)
      modifies this, scratch
      ensures Valid() && Grows()
      ensures Line() == old(Line()) + Json(s, show)
    {
      match s
      case Nil =>
        Write([Lit("null")]);
        ConcatPair(Lit("null"), []);
      case Int(i) =>
        IntTextLength(i as int);
        Append(IntText(i as int));
      case Uint(u) =>
        IntTextLength(u as int);
        Append(NatText(u as nat));
      case Bool(f) =>
        var t := if f then Lit("true") else Lit("false");
        Write([t]);
        ConcatPair(t, []);
      case KV(_) =>
        WriteBytes(Lit("{}"));
      case Skip =>
        WriteBytes(Lit("\"\""));
      case Inline =>
        WriteBytes(Lit("\"\""));
      case Other(json) =>
        WriteBytes(json);
    }
  }
}
