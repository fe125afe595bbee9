/** The scratch buffer that composes one log line, and the JSON encoder of
 *  marshal.go: string escaping per section 7 of RFC 8259, numbers, and the
 *  nested lists and maps of a log line.
 *
 *  The destination writer is modelled by two ghost sequences: `prior`,
 *  every byte it received before the current line began, and `early`,
 *  the part of the current line flushed before the line was complete.
 *  While the buffer is not `locked`, nothing of the current line has
 *  reached the writer.
 */
module Marshal {
  import opened Bytes
  import opened Utf8
  import opened Data
  import opened Encoding

  /** The size of the scratch array (16 KiB). */
  const Capacity: nat := 16 * 1024

  /** How writeBytes places the chunk `s`, from the buffer, lock and
   *  early-flushed bytes before to those after: appended to the buffer
   *  when it fits; otherwise the buffer is flushed under the lock first,
   *  and a chunk larger than the whole scratch space goes straight to the
   *  writer. */
  ghost predicate Placed(buf: Text, locked: bool, early: Text, s: Text,
                         buf': Text, locked': bool, early': Text) {
    (|buf| + |s| <= Capacity ==> early' == early && locked' == locked && buf' == buf + s) &&
    (Capacity < |buf| + |s| && |s| <= Capacity ==> locked' && early' == early + buf && buf' == s) &&
    (Capacity < |s| ==> locked' && early' == early + buf + s && buf' == [])
  }

  /** The buffer, lock and early-flushed bytes writeBytes leaves. */
  ghost function Place(buf: Text, locked: bool, early: Text, s: Text): (r: (Text, bool, Text))
    ensures Placed(buf, locked, early, s, r.0, r.1, r.2)
    ensures r.1 == (locked || Capacity < |buf| + |s|)
  {
    if |buf| + |s| <= Capacity then (buf + s, locked, early)
    else if |s| <= Capacity then (s, true, early + buf)
    else ([], true, early + buf + s)
  }

  /** write(): the strings placed one after another. */
  ghost function PlaceAll(buf: Text, locked: bool, early: Text, strs: seq<Text>): (r: (Text, bool, Text))
    decreases |strs|
  {
    if strs == [] then (buf, locked, early)
    else
      var p := PlaceAll(buf, locked, early, strs[..|strs| - 1]);
      Place(p.0, p.1, p.2, strs[|strs| - 1])
  }

  /** Placing one more string after a prefix of the strings. */
  lemma PlaceAllNext(buf: Text, locked: bool, early: Text, strs: seq<Text>, i: nat)
    requires i < |strs|
    ensures var p := PlaceAll(buf, locked, early, strs[..i]);
      PlaceAll(buf, locked, early, strs[..i + 1]) == Place(p.0, p.1, p.2, strs[i])
  {
    assert strs[..i + 1][..i] == strs[..i];
  }

  /** write() appends its strings to the buffer while they fit all
   *  together, and has taken the lock by the end once they do not. */
  lemma {:induction false} PlaceAllLocks(buf: Text, locked: bool, early: Text, strs: seq<Text>)
    requires |buf| <= Capacity
    ensures var r := PlaceAll(buf, locked, early, strs);
      (|buf| + |Concat(strs)| <= Capacity ==> r == (buf + Concat(strs), locked, early)) &&
      (Capacity < |buf| + |Concat(strs)| ==> r.1) &&
      (locked ==> r.1)
    decreases |strs|
  {
    if strs != [] {
      var init := strs[..|strs| - 1];
      var s := strs[|strs| - 1];
      assert strs == init + [s];
      ConcatSnoc(init, s);
      assert Concat(strs) == Concat(init) + s;
      PlaceAllLocks(buf, locked, early, init);
      var q := PlaceAll(buf, locked, early, init);
      assert PlaceAll(buf, locked, early, strs) == Place(q.0, q.1, q.2, s);
      if |buf| + |Concat(init)| <= Capacity {
        assert (buf + Concat(init)) + s == buf + Concat(strs);
      }
    } else {
      assert buf + Concat(strs) == buf;
    }
  }

  lemma DropSuffix(a: Text, b: Text, s: Text)
    requires a + s == b + s
    ensures a == b
  {
    assert a == (a + s)[..|a|];
  }

  /** The step of nonUtf8Chars that writes one more byte in hex. */
  lemma HexBytesSnoc(s: Text, k: nat, line0: Text, before: Text, after: Text)
    requires k < |s| && before == line0 + HexBytes(s[..k])
    requires after == before + Hex(s[k] as int, 2, UpperHex)
    ensures after == line0 + HexBytes(s[..k + 1])
  {
    assert s[..k + 1][..k] == s[..k];
  }

  /** The step of the escape loops over a byte copied unchanged. */
  lemma Unescaped(line: Text, s: Text, beg: nat, i: nat)
    requires beg <= i < |s| && NoEsc(s[i])
    ensures line + s[beg..i] + Escaped(s[i..]) == line + s[beg..i + 1] + Escaped(s[i + 1..])
  {
    EscapedPlainAt(s, i);
    assert s[beg..i + 1] == s[beg..i] + [s[i]];
  }

  /** The step of the escape loops over a byte that is escaped: the
   *  unescaped stretch is flushed, then the step's output follows. */
  lemma Escaping(before: Text, after: Text, s: Text, beg: nat, i: nat, next: nat)
    requires beg <= i < |s| && next == i + EscapeStep(s[i..]).len
    requires after == before + s[beg..i] + EscapeStep(s[i..]).out
    ensures before + s[beg..i] + Escaped(s[i..]) == after + s[next..next] + Escaped(s[next..])
  {
    EscapedAt(s, i);
    Regroup(before, s[beg..i], EscapeStep(s[i..]).out, Escaped(s[i..]), Escaped(s[next..]), after);
    assert s[next..next] == [];
  }

  /** The end of the escape loops: the last stretch completes the line. */
  lemma EscapedTail(total: Text, before: Text, s: Text, beg: nat, after: Text)
    requires beg <= |s| && before + s[beg..|s|] + Escaped(s[|s|..]) == total
    requires after == before + s[beg..]
    ensures after == total
  {
    assert s[|s|..] == [] && s[beg..|s|] == s[beg..];
  }

  lemma Regroup(before: Text, mid: Text, out: Text, whole: Text, rest: Text, after: Text)
    requires after == before + mid + out && whole == out + rest
    ensures before + mid + whole == after + [] + rest
  {
  }

  /** The digits written over the placeholder of escape1Rune follow
   *  the `\u` that stays. */
  lemma PlaceholderPrefix(placed: Text, buf: Text, digits: Text)
    requires |placed| >= 6 && placed[|placed| - 6..] == Lit("\\uXXXX")
    requires buf == placed[..|placed| - 4] + digits
    ensures buf == placed[..|placed| - 6] + Lit("\\u") + digits
  {
    var m := |placed| - 6;
    assert placed[..m + 2] == placed[..m] + placed[m..m + 2];
    assert placed[m..m + 2] == placed[m..][..2];
  }

  /** A digit written over a placeholder just before the digits already
   *  in place. */
  lemma Poke(before: Text, placed: Text, m: nat, d: byte, digits: Text, after: Text)
    requires m < |placed| && before == placed[..m + 1] + digits && after == before[m := d]
    ensures after == placed[..m] + ([d] + digits)
  {
    assert after == after[..m] + [after[m]] + after[m + 1..];
  }

  /** The digit loop of escape1Rune's default case: the four
   *  upper-case hexadecimal digits of `r`, last one first, written over
   *  the last four bytes of `a[..m]`. */
  method PlaceHex(a: array<byte>, m: nat, r: int, ghost placed: Text)
    requires 4 <= m <= a.Length && a[..m] == placed
    modifies a
    ensures a[..m] == placed[..m - 4] + Hex(r, 4, UpperHex)
  {
    var v := r;
    var o := 1;
    while o <= 4
      invariant 1 <= o <= 5
      invariant v == r / Pow16(o - 1)
      invariant a[..m] == placed[..m + 1 - o] + Hex(r, o - 1, UpperHex)
    {
      ghost var before := a[..m];
      var d := UpperHex[v % 16];
      a[m - o] := d;
      assert a[..m] == before[m - o := d];
      FillStep(before, placed, r, o, a[..m]);
      v := v / 16;
      o := o + 1;
    }
  }

  /** One round of escape1Rune's digit loop: digit `o` from the right,
   *  written over the placeholder, extends the digits written so far. */
  lemma FillStep(before: Text, placed: Text, r: int, o: nat, after: Text)
    requires 1 <= o <= 4 && o <= |placed| && |before| == |placed|
    requires before == placed[..|placed| - o + 1] + Hex(r, o - 1, UpperHex)
    requires after == before[|placed| - o := UpperHex[(r / Pow16(o - 1)) % 16]]
    ensures after == placed[..|placed| - o] + Hex(r, o, UpperHex)
    ensures r / Pow16(o - 1) / 16 == r / Pow16(o)
  {
    HexStep(r, o, UpperHex);
    Poke(before, placed, |placed| - o, UpperHex[(r / Pow16(o - 1)) % 16], Hex(r, o - 1, UpperHex), after);
  }

  /** The two bytes writeByteHex pokes over its placeholder. */
  lemma PokeTwo(before: Text, a: byte, b: byte, after: Text)
    requires |before| >= 2 && after == before[|before| - 2 := a][|before| - 1 := b]
    ensures after == before[..|before| - 2] + [a, b]
  {
  }

  /** The two digits of a byte, high nibble first. */
  lemma HexByte(c: byte)
    ensures Hex(c as int, 2, UpperHex) == [UpperHex[c / 16], UpperHex[c % 16]]
  {
    assert (c as int / 16) % 16 == c as int / 16;
  }

  /** A prefix of a sequence in three consecutive slices. */
  lemma Pieces(a: Text, i: nat, j: nat, k: nat)
    requires i <= j <= k <= |a|
    ensures a[..k] == a[..i] + a[i..j] + a[j..k]
  {
  }

  /** What stood in the line before a suffix just written. */
  lemma BeforeSuffix(line: Text, head: Text, buf: Text, s: Text)
    requires head + buf == line + s && |s| <= |buf| && buf[|buf| - |s|..] == s
    ensures head + buf[..|buf| - |s|] == line
  {
    assert buf == buf[..|buf| - |s|] + s;
    assert head + buf == (head + buf[..|buf| - |s|]) + s;
    DropSuffix(head + buf[..|buf| - |s|], line, s);
  }

  /** Three pieces appended one after the other. */
  lemma Chain3(l0: Text, a: Text, b: Text, c: Text, l1: Text, l2: Text, l3: Text)
    requires l1 == l0 + a && l2 == l1 + b && l3 == l2 + c
    ensures l3 == l0 + (a + b + c)
  {
  }

  /** Four pieces appended one after the other. */
  lemma Chain4(l0: Text, a: Text, b: Text, c: Text, d: Text, l1: Text, l2: Text, l3: Text, l4: Text)
    requires l1 == l0 + a && l2 == l1 + b && l3 == l2 + c && l4 == l3 + d
    ensures l4 == l0 + (a + b + c + d)
  {
  }

  /** Bytes written move from the rest of an encoding into the line. */
  lemma ThenStep(before: Text, p: Text, after: Text, e: Emit)
    requires after == before + p
    ensures Then(before, Then(p, e)) == Then(after, e)
  {
  }

  /** A line grows by one more piece. */
  lemma Extend(head: Text, x: Text, e: Text, y: Text, before: Text, after: Text)
    requires before == head + x && after == before + e && y == x + e
    ensures after == head + y
  {
  }

  /** A line closed by a final piece: opening, body and closing in a row. */
  lemma TokenAfter(line: Text, open: Text, body: Text, close: Text, head: Text, before: Text, after: Text)
    requires head == line + open && before == head + body && after == before + close
    ensures after == line + (open + body + close)
  {
  }

  /** Appending to the buffer appends to the line. */
  lemma AppendAfter(head: Text, pre: Text, e: Text, line: Text, buf: Text)
    requires head + pre == line && buf == pre + e
    ensures head + buf == line + e
  {
  }

  // ---------------------------------------------------------------------
  // The buffer
  // ---------------------------------------------------------------------

  class Buffer {
    /** The scratch space; `buf` is its first `n` bytes. */
    const scratch: array<byte>
    var n: nat
    /** The delimiter to go before the next value. */
    var delim: Text
    /** Whether the output lock was taken to flush early. */
    var locked: bool
    /** What the writer received before the current line began. */
    ghost var prior: Text
    /** What it has received of the current line. */
    ghost var early: Text

    ghost predicate Valid()
      reads this
    {
      scratch.Length == Capacity && n <= Capacity && (!locked ==> early == [])
    }

    /** Every byte the destination writer has received. */
    ghost function Written(): Text
      reads this
    {
      prior + early
    }

    /** The bytes of the current line not yet written. */
    function Buf(): Text
      reads this, scratch
      requires n <= scratch.Length
    {
      scratch[..n]
    }

    /** The current line so far: what was flushed early, then `buf`. */
    ghost function Line(): Text
      reads this, scratch
      requires Valid()
    {
      early + scratch[..n]
    }

    /** What every writing step keeps: the lock is never released and
     *  what the writer had before the line stays as it was. */
    twostate predicate Grows()
      reads this
    {
      (old(locked) ==> locked) && prior == old(prior)
    }

    /** A buffer from the pool: empty, with no delimiter and no lock. */
    constructor()
      ensures Valid() && n == 0 && delim == [] && !locked && prior == [] && early == []
      ensures fresh(scratch)
    {
      scratch := new byte[Capacity];
      n := 0;
      delim := [];
      locked := false;
      prior := [];
      early := [];
    }

    /** lock(): take the output lock if not yet held and flush `buf`. */
    method Lock()
      requires Valid()
      modifies this
      ensures Valid() && locked && n == 0 && Line() == old(Line())
      ensures early == old(early) + old(Buf()) && prior == old(prior) && delim == old(delim)
    {
      if !locked {
        locked := true;
      }
      if 0 < n {
        early := early + scratch[..n];
        n := 0;
      }
    }

    /** unlock(): flush what is left and release the lock if it was taken.
     *  The whole line has then reached the writer, in one piece, and the
     *  next line starts after it. */
    method Unlock()
      requires Valid()
      modifies this
      ensures Valid() && !locked && n == 0
      ensures Written() == old(Written()) + old(Buf())
      ensures prior == old(prior) + old(Line()) && early == [] && delim == old(delim)
    {
      if 0 < n {
        early := early + scratch[..n];
        n := 0;
      }
      if locked {
        locked := false;
      }
      prior, early := prior + early, [];
    }

    /** Go's `append` to `buf` where the caller knows there is room. */
    method Append(t: Text)
      requires Valid() && n + |t| <= Capacity
      modifies this, scratch
      ensures Valid() && Buf() == old(Buf()) + t && Line() == old(Line()) + t
      ensures early == old(early) && locked == old(locked) && prior == old(prior) && delim == old(delim)
    {
      forall j | 0 <= j < |t| {
        scratch[n + j] := t[j];
      }
      n := n + |t|;
      assert scratch[..n] == old(scratch[..n]) + t;
    }

    /** writeBytes(): append a chunk, flushing first when it would not fit
     *  and writing it straight through when it exceeds the capacity. */
    method WriteBytes(s: Text)
      requires Valid()
      modifies this, scratch
      ensures Valid() && Grows() && Line() == old(Line()) + s && delim == old(delim)
      ensures Placed(old(Buf()), old(locked), old(early), s, Buf(), locked, early)
      ensures |s| <= Capacity ==> |s| <= n && Buf()[n - |s|..] == s
    {
      if Capacity < n + |s| {
        Lock();
      }
      if Capacity < |s| {
        early := early + s;
      } else {
        Append(s);
      }
    }

    /** write(): each string in turn, exactly as writeBytes treats it. */
    method Write(strs: seq<Text>)
      requires Valid()
      modifies this, scratch
      ensures Valid() && Grows() && Line() == old(Line()) + Concat(strs) && delim == old(delim)
      ensures strs != [] && |strs[|strs| - 1]| <= Capacity ==>
                |strs[|strs| - 1]| <= n && Buf()[n - |strs[|strs| - 1]|..] == strs[|strs| - 1]
      ensures old(n) + |Concat(strs)| <= Capacity ==> n == old(n) + |Concat(strs)|
      ensures (Buf(), locked, early) == PlaceAll(old(Buf()), old(locked), old(early), strs)
      ensures Capacity < old(n) + |Concat(strs)| ==> locked
    {
      var i := 0;
      while i < |strs|
        invariant 0 <= i <= |strs|
        invariant Valid() && Grows() && delim == old(delim)
        invariant Line() == old(Line()) + Concat(strs[..i])
        invariant 0 < i && |strs[i - 1]| <= Capacity ==> |strs[i - 1]| <= n && Buf()[n - |strs[i - 1]|..] == strs[i - 1]
        invariant (Buf(), locked, early) == PlaceAll(old(Buf()), old(locked), old(early), strs[..i])
      {
        WriteNext(old(Line()), old(Buf()), old(locked), old(early), strs, i);
        i := i + 1;
      }
      assert strs[..i] == strs;
      PlaceAllLocks(old(Buf()), old(locked), old(early), strs);
    }

    /** One round of write(): string `i` placed after those before it. */
    method WriteNext(ghost line: Text, ghost buf: Text, ghost lock: bool, ghost flushed: Text, strs: seq<Text>, i: nat)
      requires Valid() && i < |strs|
      requires Line() == line + Concat(strs[..i])
      requires (Buf(), locked, early) == PlaceAll(buf, lock, flushed, strs[..i])
      modifies this, scratch
      ensures Valid() && Grows() && Line() == line + Concat(strs[..i + 1]) && delim == old(delim)
      ensures (Buf(), locked, early) == PlaceAll(buf, lock, flushed, strs[..i + 1])
      ensures |strs[i]| <= Capacity ==> |strs[i]| <= n && Buf()[n - |strs[i]|..] == strs[i]
    {
      assert strs[..i + 1] == strs[..i] + [strs[i]];
      ConcatSnoc(strs[..i], strs[i]);
      PlaceAllNext(buf, lock, flushed, strs, i);
      WriteBytes(strs[i]);
    }

    /** escape1Rune(): write the six bytes `\uXXXX`, then either fill in
     *  the hexadecimal digits or overwrite the `u` and cut the rest. */
    method Escape1Rune(r: int)
      requires Valid()
      modifies this, scratch
      ensures Valid() && Grows() && Line() == old(Line()) + Escape1(r) && delim == old(delim)
    {
      WritePlaceholder();
      ghost var placed := Buf();
      ghost var head := early;
      FillPlaceholder(r, placed);
      AppendAfter(head, placed[..|placed| - 6], Escape1(r), old(Line()), Buf());
    }

    /** The six bytes `\uXXXX` written (write() of one string places it as
     *  writeBytes() does); what was in the line before stays in front of
     *  them. */
    method WritePlaceholder()
      requires Valid()
      modifies this, scratch
      ensures Valid() && Grows() && delim == old(delim)
      ensures n >= 6 && Buf()[n - 6..] == Lit("\\uXXXX")
      ensures early + Buf()[..n - 6] == old(Line())
    {
      var placeholder := Lit("\\uXXXX");
      WriteBytes(placeholder);
      BeforeSuffix(old(Line()), early, Buf(), placeholder);
    }

    /** The placeholder turned into escape1Rune's escape for `r`. */
    method FillPlaceholder(r: int, ghost placed: Text)
      requires Valid() && n >= 6 && placed == Buf() && placed[n - 6..] == Lit("\\uXXXX")
      modifies this, scratch
      ensures Valid() && Buf() == placed[..|placed| - 6] + Escape1(r)
      ensures early == old(early) && prior == old(prior) && locked == old(locked) && delim == old(delim)
    {
      var c := ShortEscape(r);
      if c != 0 {
        CutShort(r, placed);
      } else {
        FillHex(r, placed);
        PlaceholderPrefix(placed, Buf(), Hex(r, 4, UpperHex));
      }
    }

    /** The short cases of escape1Rune: the letter over the `u`, and the
     *  buffer cut after it. */
    method CutShort(r: int, ghost placed: Text)
      requires Valid() && n >= 6 && placed == Buf() && placed[n - 6..] == Lit("\\uXXXX")
      requires ShortEscape(r) != 0
      modifies this, scratch
      ensures Valid() && Buf() == placed[..|placed| - 6] + Escape1(r)
      ensures early == old(early) && prior == old(prior) && locked == old(locked) && delim == old(delim)
    {
      var c := ShortEscape(r);
      var end := n - 5;
      assert placed[end - 1] == '\\' as byte by {
        assert placed[end - 1] == placed[n - 6..][0];
      }
      scratch[end] := c;
      n := end + 1;
      assert scratch[..end] == placed[..end];
    }

    /** The default case of escape1Rune: the four digits, last one first,
     *  over the `XXXX` just written. */
    method FillHex(r: int, ghost placed: Text)
      requires Valid() && n >= 4 && placed == Buf()
      modifies scratch
      ensures Valid() && Buf() == placed[..n - 4] + Hex(r, 4, UpperHex)
    {
      PlaceHex(scratch, n, r, placed);
    }

    /** writeByteHex(): two placeholder bytes, written as writeBytes()
     *  writes them, then the two upper-case hexadecimal digits of `c`
     *  written over them. */
    method WriteByteHex(c: byte)
      requires Valid()
      modifies this, scratch
      ensures Valid() && Grows() && Line() == old(Line()) + Hex(c as int, 2, UpperHex) && delim == old(delim)
    {
      var blanks := Lit("  ");
      WriteBytes(blanks);
      ghost var placed := Buf();
      ghost var head := early;
      assert head + placed[..n - 2] == old(Line()) by {
        assert head + placed == old(Line()) + blanks;
        assert placed == placed[..n - 2] + blanks;
        assert head + placed == (head + placed[..n - 2]) + blanks;
        DropSuffix(head + placed[..n - 2], old(Line()), blanks);
      }
      scratch[n - 2] := UpperHex[c / 16];
      scratch[n - 1] := UpperHex[c % 16];
      assert Buf() == placed[n - 2 := UpperHex[c / 16]][n - 1 := UpperHex[c % 16]];
      PokeTwo(placed, UpperHex[c / 16], UpperHex[c % 16], Buf());
      HexByte(c);
      AppendAfter(head, placed[..n - 2], Hex(c as int, 2, UpperHex), old(Line()), Buf());
    }

    /** nonUtf8Chars() and nonUtf8Bytes(): the marker for the run of
     *  undecodable bytes at the front of `s`; returns its length. */
    method NonUtf8(s: Text) returns (k: nat)
      requires Valid() && s != []
      modifies this, scratch
      ensures Valid() && Grows() && delim == old(delim)
      ensures k == InvalidRun(s) && Line() == old(Line()) + InvalidToken(s[..k])
    {
      var open: Text := [0xC2, 0xAB, 'x' as byte];
      Write([open]);
      ConcatPair(open, []);
      ghost var line0 := Line();
      k := HexRun(s);
      ghost var before := Line();
      var close: Text := [0xC2, 0xBB];
      Write([close]);
      ConcatPair(close, []);
      TokenAfter(old(Line()), open, HexBytes(s[..k]), close, line0, before, Line());
    }

    /** The loop of nonUtf8Chars: each byte in hex, for as long as
     *  decoding fails. */
    method HexRun(s: Text) returns (k: nat)
      requires Valid() && s != []
      modifies this, scratch
      ensures Valid() && Grows() && delim == old(delim)
      ensures k == InvalidRun(s) && Line() == old(Line()) + HexBytes(s[..k])
    {
      ghost var line0 := Line();
      k := 0;
      while true
        invariant 0 <= k < |s|
        invariant Valid() && Grows() && delim == old(delim)
        invariant Line() == line0 + HexBytes(s[..k])
        invariant 1 <= k ==> RunFrom(s, 1) == RunFrom(s, k) == RunFrom(s, k + 1)
        decreases |s| - k
      {
        ghost var before := Line();
        WriteByteHex(s[k]);
        HexBytesSnoc(s, k, line0, before, Line());
        k := k + 1;
        if k == |s| {
          RunEnds(s, k);
          break;
        }
        var d := DecodeRune(s[k..]);
        if !IsInvalid(d) {
          RunEnds(s, k);
          break;
        }
        RunGoesOn(s, k);
      }
      assert s[..0] == [];
    }

    /** escape(): `s` escaped, copying unescaped stretches in one piece. */
    method Escape(s: Text)
      requires Valid()
      modifies this, scratch
      ensures Valid() && Grows() && Line() == old(Line()) + Escaped(s) && delim == old(delim)
    {
      var beg := 0;
      var i := 0;
      while i < |s|
        invariant 0 <= beg <= i <= |s|
        invariant Valid() && Grows() && delim == old(delim)
        invariant Line() + s[beg..i] + Escaped(s[i..]) == old(Line()) + Escaped(s)
      {
        beg, i := EscapeAt(s, beg, i, true);
      }
      ghost var before := Line();
      Write([s[beg..]]);
      ConcatPair(s[beg..], []);
      EscapedTail(old(Line()) + Escaped(s), before, s, beg, Line());
    }

    /** escapeBytes(): the same steps as escape(), writing with writeBytes. */
    method EscapeBytes(s: Text)
      requires Valid()
      modifies this, scratch
      ensures Valid() && Grows() && Line() == old(Line()) + Escaped(s) && delim == old(delim)
    {
      var beg := 0;
      var i := 0;
      while i < |s|
        invariant 0 <= beg <= i <= |s|
        invariant Valid() && Grows() && delim == old(delim)
        invariant Line() + s[beg..i] + Escaped(s[i..]) == old(Line()) + Escaped(s)
      {
        beg, i := EscapeAt(s, beg, i, false);
      }
      ghost var before := Line();
      WriteBytes(s[beg..]);
      EscapedTail(old(Line()) + Escaped(s), before, s, beg, Line());
    }

    /** One round of the escape loops: a byte that needs no escape joins
     *  the pending stretch; any other byte flushes the stretch and writes
     *  its escape. */
    method EscapeAt(s: Text, beg: nat, i: nat, viaWrite: bool) returns (beg': nat, i': nat)
      requires Valid() && beg <= i < |s|
      modifies this, scratch
      ensures Valid() && Grows() && delim == old(delim)
      ensures beg' <= i' <= |s| && i < i'
      ensures Line() + s[beg'..i'] + Escaped(s[i'..]) == old(Line()) + s[beg..i] + Escaped(s[i..])
    {
      if NoEsc(s[i]) {
        Unescaped(Line(), s, beg, i);
        beg', i' := beg, i + 1;
      } else {
        ghost var before := Line();
        var next := EscapeOne(s, beg, i, viaWrite);
        Escaping(before, Line(), s, beg, i, next);
        beg', i' := next, next;
      }
    }

    /** The body of the escape loops at a byte that needs escaping: the
     *  unescaped stretch before it, then its escape; returns where the
     *  next unescaped stretch begins.  `viaWrite` tells whether bytes go
     *  out through write() (escape) or writeBytes() (escapeBytes). */
    method EscapeOne(s: Text, beg: nat, i: nat, viaWrite: bool) returns (next: nat)
      requires Valid() && beg <= i < |s| && !NoEsc(s[i])
      modifies this, scratch
      ensures Valid() && Grows() && delim == old(delim)
      ensures next == i + EscapeStep(s[i..]).len
      ensures Line() == old(Line()) + s[beg..i] + EscapeStep(s[i..]).out
    {
      if viaWrite {
        Write([s[beg..i]]);
        ConcatPair(s[beg..i], []);
      } else {
        WriteBytes(s[beg..i]);
      }
      next := EscapeStepAt(s, i, viaWrite);
    }

    /** What the escape loops write for the byte at `i` and the bytes of
     *  its code point. */
    method EscapeStepAt(s: Text, i: nat, viaWrite: bool) returns (next: nat)
      requires Valid() && i < |s| && !NoEsc(s[i])
      modifies this, scratch
      ensures Valid() && Grows() && delim == old(delim)
      ensures next == i + EscapeStep(s[i..]).len
      ensures Line() == old(Line()) + EscapeStep(s[i..]).out
    {
      var c := s[i];
      if c < 128 {
        Escape1Rune(c as int);
        next := i + 1;
      } else {
        var d := DecodeRune(s[i..]);
        if IsInvalid(d) {
          var k := NonUtf8(s[i..]);
          next := i + k;
        } else {
          next := i + d.size;
          EscapeWide(d.r, s[i..next], viaWrite);
        }
      }
    }

    /** The valid-rune case of escape: a surrogate pair of escapes beyond
     *  U+FFFF, one escape below U+00A0, else the bytes as they were. */
    method EscapeWide(r: int, enc: Text, viaWrite: bool)
      requires Valid()
      modifies this, scratch
      ensures Valid() && Grows() && delim == old(delim)
      ensures Line() == old(Line()) + EncodeWide(r, enc)
    {
      if 0xFFFF < r {
        EscapePair(r);
      } else if r < 0xA0 {
        Escape1Rune(r);
      } else if viaWrite {
        Write([enc]);
        ConcatPair(enc, []);
      } else {
        WriteBytes(enc);
      }
    }

    /** A code point beyond U+FFFF as the escapes of its UTF-16 surrogate
     *  pair. */
    method EscapePair(r: int)
      requires Valid()
      modifies this, scratch
      ensures Valid() && Grows() && delim == old(delim)
      ensures Line() == old(Line()) + (Escape1(EncodeSurrogates(r).0) + Escape1(EncodeSurrogates(r).1))
    {
      var (surr1, surr2) := EncodeSurrogates(r);
      Escape1Rune(surr1);
      ghost var before := Line();
      Escape1Rune(surr2);
      Extend(old(Line()), Escape1(surr1), Escape1(surr2), Escape1(surr1) + Escape1(surr2), before, Line());
    }

    /** The pending delimiter and the opening quote mark of quote(). */
    method OpenQuote()
      requires Valid()
      modifies this, scratch
      ensures Valid() && Grows() && Line() == old(Line()) + (old(delim) + Lit("\"")) && delim == old(delim)
    {
      Write([delim, Lit("\"")]);
      ConcatPair(delim, Lit("\""));
    }

    /** The closing quote mark of quote(). */
    method CloseQuote()
      requires Valid()
      modifies this, scratch
      ensures Valid() && Grows() && Line() == old(Line()) + Lit("\"") && delim == old(delim)
    {
      Write([Lit("\"")]);
      ConcatPair(Lit("\""), []);
    }

    /** quote(): the pending delimiter, then the strings escaped inside
     *  double quotes; a comma is pending afterwards. */
    method Quote(strs: seq<Text>)
      requires Valid()
      modifies this, scratch
      ensures Valid() && Grows() && Line() == old(Line()) + Quoted(strs, old(delim)) && delim == Comma
    {
      OpenQuote();
      ghost var head := Line();
      EscapeEach(strs);
      ghost var before := Line();
      CloseQuote();
      TokenAfter(old(Line()), old(delim) + Lit("\""), EscapedAll(strs), Lit("\""), head, before, Line());
      delim := Comma;
    }

    /** The loop of quote(): each string escaped in turn, with nothing
     *  between them. */
    method EscapeEach(strs: seq<Text>)
      requires Valid()
      modifies this, scratch
      ensures Valid() && Grows() && delim == old(delim)
      ensures Line() == old(Line()) + EscapedAll(strs)
    {
      var i := 0;
      while i < |strs|
        invariant 0 <= i <= |strs|
        invariant Valid() && Grows() && delim == old(delim)
        invariant Line() == old(Line()) + EscapedAll(strs[..i])
      {
        ghost var before := Line();
        Escape(strs[i]);
        EscapedAllSnoc(strs, i);
        Extend(old(Line()), EscapedAll(strs[..i]), Escaped(strs[i]), EscapedAll(strs[..i + 1]), before, Line());
        i := i + 1;
      }
      assert strs[..i] == strs;
    }

    /** quoteBytes(): like quote() for one byte slice, except that the
     *  pending delimiter is left as it was. */
    method QuoteBytes(s: Text)
      requires Valid()
      modifies this, scratch
      ensures Valid() && Grows() && Line() == old(Line()) + Quoted([s], old(delim)) && delim == old(delim)
    {
      OpenQuote();
      ghost var head := Line();
      EscapeBytes(s);
      ghost var before := Line();
      CloseQuote();
      assert EscapedAll([s]) == Escaped(s) by {
        assert [s][1..] == [];
      }
      TokenAfter(old(Line()), old(delim) + Lit("\""), Escaped(s), Lit("\""), head, before, Line());
    }
    // -------------------------------------------------------------------
    // Numbers and the timestamp
    // -------------------------------------------------------------------

    /** int2(): two digits after the buffer, without a room check. */
    method Int2(val: nat)
      requires Valid() && n + 2 <= Capacity
      modifies this, scratch
      ensures Valid() && Grows() && delim == old(delim)
      ensures Line() == old(Line()) + Int2Text(val) && n == old(n) + 2
    {
      var l := n;
      scratch[l] := DigitByte(val / 10);
      scratch[l + 1] := DigitByte(val % 10);
      n := l + 2;
      assert scratch[..n] == old(scratch[..n]) + Int2Text(val);
    }

    /** int(): the decimal digits of `val`, then moved right and '0's put
     *  in front when there are fewer than `digits` of them. */
    method IntDigits(val: int, digits: nat)
      requires Valid() && n + |Padded(IntText(val), digits)| <= Capacity
      modifies this, scratch
      ensures Valid() && Grows() && delim == old(delim)
      ensures Line() == old(Line()) + Padded(IntText(val), digits)
    {
      var t := IntText(val);
      var bef := n;
      ghost var head := Buf();
      Append(t);
      if |t| < digits {
        assert Buf()[..bef] == head && Buf()[bef..] == t;
        PadDigits(bef, digits);
      }
      ghost var p := Padded(t, digits);
      assert Buf() == head + p;
      assert early + (head + p) == (early + head) + p;
    }

    /** The shift of int(): the digits after `bef` move right and '0's
     *  fill the gap up to `digits` bytes. */
    method PadDigits(bef: nat, digits: nat)
      requires Valid() && bef <= n && n - bef < digits && bef + digits <= Capacity
      modifies this, scratch
      ensures Valid() && early == old(early) && locked == old(locked) && prior == old(prior) && delim == old(delim)
      ensures Buf() == old(Buf()[..bef]) + Padded(old(Buf()[bef..]), digits)
    {
      ghost var head := Buf()[..bef];
      ghost var t := Buf()[bef..];
      var l := n - bef;
      assert scratch[..bef] == head && scratch[bef..bef + l] == t;
      PadFront(bef, l, digits - l);
      n := bef + digits;
      assert Padded(t, digits) == seq(digits - l, _ => '0' as byte) + t;
    }

    /** The copy and the loop of int(): `l` digits at `bef` move `gap` places
     *  right, and '0's fill the gap. */
    method PadFront(bef: nat, l: nat, gap: nat)
      requires scratch.Length == Capacity && bef + gap + l <= Capacity
      modifies scratch
      ensures scratch[..bef + gap + l] == old(scratch[..bef]) + seq(gap, _ => '0' as byte) + old(scratch[bef..bef + l])
    {
      forall j | 0 <= j < l {
        scratch[bef + gap + j] := scratch[bef + j];
      }
      var i := bef;
      while i < bef + gap
        invariant bef <= i <= bef + gap
        invariant scratch[..bef] == old(scratch[..bef])
        invariant forall j | bef <= j < i :: scratch[j] == '0' as byte
        invariant scratch[bef + gap..bef + gap + l] == old(scratch[bef..bef + l])
      {
        scratch[i] := '0' as byte;
        i := i + 1;
      }
      assert scratch[bef..bef + gap] == seq(gap, _ => '0' as byte);
      Pieces(scratch[..], bef, bef + gap, bef + gap + l);
    }

    /** timestamp(): the UTC time as a quoted string.  The calendar fields
     *  stand for time.Now(); there is no room check, the timestamp being
     *  first on a line, so the timestamp must fit in what is left. */
    method Timestamp(year: int64, month: nat, day: nat, hour: nat, minute: nat, second: nat,
                     nanos: nat, iso: bool)
      requires Valid()
      requires n + |TimestampText(year as int, month, day, hour, minute, second, nanos, iso)| <= Capacity
      modifies this, scratch
      ensures Valid() && Grows() && delim == Comma
      ensures Line() == old(Line()) + TimestampText(year as int, month, day, hour, minute, second, nanos, iso)
    {
      ghost var time := ClockText(iso, hour, minute, second);
      ghost var frac := FractionText(nanos);
      Date(year, month, day, |time| + |frac|);
      ghost var l1 := Line();
      Clock(iso, hour, minute, second, |frac|);
      ghost var l2 := Line();
      Fraction(nanos);
      Chain3(old(Line()), DateText(year as int, month, day), time, frac, l1, l2, Line());
      delim := Comma;
    }

    /** The date part of timestamp(), with `more` bytes still to come. */
    method Date(year: int64, month: nat, day: nat, ghost more: nat)
      requires Valid() && n + |DateText(year as int, month, day)| + more <= Capacity
      modifies this, scratch
      ensures Valid() && Grows() && delim == old(delim)
      ensures Line() == old(Line()) + DateText(year as int, month, day)
      ensures n + more <= Capacity
    {
      ghost var y := IntText(year as int);
      Write([Lit("\"")]);
      ConcatPair(Lit("\""), []);
      ghost var l1 := Line();
      Append(IntText(year as int));
      ghost var l2 := Line();
      Write([Lit("-")]);
      ConcatPair(Lit("-"), []);
      ghost var l3 := Line();
      Int2(month);
      Chain4(old(Line()), Lit("\""), y, Lit("-"), Int2Text(month), l1, l2, l3, Line());
      ghost var l4 := Line();
      Write([Lit("-")]);
      ConcatPair(Lit("-"), []);
      ghost var l5 := Line();
      Int2(day);
      Chain3(old(Line()), Lit("\"") + y + Lit("-") + Int2Text(month), Lit("-"), Int2Text(day), l4, l5, Line());
    }

    /** The time-of-day part of timestamp(). */
    method Clock(iso: bool, hour: nat, minute: nat, second: nat, ghost more: nat)
      requires Valid() && n + |ClockText(iso, hour, minute, second)| + more <= Capacity
      modifies this, scratch
      ensures Valid() && Grows() && delim == old(delim)
      ensures Line() == old(Line()) + ClockText(iso, hour, minute, second)
      ensures n + more <= Capacity
    {
      var sep := if iso then Lit("T") else Lit(" ");
      Write([sep]);
      ConcatPair(sep, []);
      ghost var l1 := Line();
      Int2(hour);
      ghost var l2 := Line();
      Write([ColonText]);
      ConcatPair(ColonText, []);
      ghost var l3 := Line();
      Int2(minute);
      Chain4(old(Line()), sep, Int2Text(hour), ColonText, Int2Text(minute), l1, l2, l3, Line());
      ghost var l4 := Line();
      Write([ColonText]);
      ConcatPair(ColonText, []);
      ghost var l5 := Line();
      Int2(second);
      Chain3(old(Line()), sep + Int2Text(hour) + ColonText + Int2Text(minute), ColonText, Int2Text(second),
             l4, l5, Line());
    }

    /** The fraction of a second in timestamp(), and the closing quote. */
    method Fraction(nanos: nat)
      requires Valid() && n + |FractionText(nanos)| <= Capacity
      modifies this, scratch
      ensures Valid() && Grows() && delim == old(delim)
      ensures Line() == old(Line()) + FractionText(nanos)
    {
      Write([Lit(".")]);
      ConcatPair(Lit("."), []);
      ghost var l1 := Line();
      IntDigits(nanos / 100000, 4);
      ghost var l2 := Line();
      Write([Lit("Z\"")]);
      ConcatPair(Lit("Z\""), []);
      Chain3(old(Line()), Lit("."), Padded(IntText(nanos / 100000), 4), Lit("Z\""), l1, l2, Line());
    }

    // -------------------------------------------------------------------
    // Lists and maps
    // -------------------------------------------------------------------

    /** open(): the pending delimiter and the opening bracket; nothing is
     *  pending inside. */
    method Open(punct: Text)
      requires Valid()
      modifies this, scratch
      ensures Valid() && Grows() && Line() == old(Line()) + (old(delim) + punct) && delim == []
    {
      Write([delim, punct]);
      ConcatPair(delim, punct);
      delim := [];
    }

    /** colon(): the separator between a key and its value. */
    method Colon()
      requires Valid()
      modifies this, scratch
      ensures Valid() && Grows() && Line() == old(Line()) + ColonText && delim == []
    {
      Write([ColonText]);
      ConcatPair(ColonText, []);
      delim := [];
    }

    /** close(): the closing bracket; a comma is pending after it. */
    method Close(punct: Text)
      requires Valid()
      modifies this, scratch
      ensures Valid() && Grows() && Line() == old(Line()) + punct && delim == Comma
    {
      Write([punct]);
      ConcatPair(punct, []);
      delim := Comma;
    }

    /** pair(): a quoted key, a colon and the value. */
    method Pair(k: Text, v: Value, show: Formatter)
      requires Valid() && Encodable(v)
      modifies this, scratch
      ensures Valid() && Grows()
      ensures Line() == old(Line()) + PairOut(k, v, old(delim), show).out && delim == Comma
      decreases Size(v), 4
    {
      Quote([k]);
      ghost var l1 := Line();
      Colon();
      ghost var l2 := Line();
      Scalar(v, show);
      Chain3(old(Line()), Quoted([k], old(delim)), ColonText, ScalarOut(v, [], show).out, l1, l2, Line());
    }

    /** pairs(): every pair of a map in order; nothing for a nil map. */
    method MapPairs(m: AMap, show: Formatter)
      requires Valid() && Encodable(Value.Pairs(m))
      modifies this, scratch
      ensures Valid() && Grows()
      ensures Line() == old(Line()) + AMapOut(m, old(delim), show).out && delim == AMapOut(m, old(delim), show).delim
      decreases Size(Value.Pairs(m)), 0
    {
      if m.Ref? {
        var keys, vals := m.p.keys, m.p.vals;
        var i := 0;
        while i < |keys|
          invariant 0 <= i <= |keys| && Valid() && Grows()
          invariant EncodableSeq(vals[i..])
          invariant Then(Line(), PairsOut(keys[i..], vals[i..], delim, show))
                      == Then(old(Line()), PairsOut(keys, vals, old(delim), show))
        {
          PairsOutAt(keys, vals, i, delim, show);
          SizeAt(vals, i);
          ghost var before := Line();
          ghost var d := delim;
          Pair(keys[i], vals[i], show);
          ThenStep(before, PairOut(keys[i], vals[i], d, show).out, Line(),
                   PairsOut(keys[i + 1..], vals[i + 1..], Comma, show));
          i := i + 1;
        }
      }
    }

    /** The pairs an InlinePairs key splices in (the inlining case of
     *  rawPairs()). */
    method InlinePairs(elt: Value, show: Formatter)
      requires Valid() && Encodable(elt)
      modifies this, scratch
      ensures Valid() && Grows()
      ensures Line() == old(Line()) + InlineValue(elt, old(delim), show).out && delim == InlineValue(elt, old(delim), show).delim
      decreases Size(elt), 5
    {
      if elt.Raw? {
        RawPairs(elt.elts, show);
      } else if elt.KV? {
        MapPairs(Ref(elt.kv), show);
      } else if elt.Pairs? {
        MapPairs(elt.m, show);
      } else {
        Pair(Lit("cannot-inline"), elt, show);
      }
    }

    /** rawPairs(): keys and values alternating, with the SkipThisPair and
     *  InlinePairs sentinels in key positions acting on the value after
     *  them, and `null` for a key without a value. */
    method RawPairs(m: seq<Value>, show: Formatter)
      requires Valid() && EncodableSeq(m)
      modifies this, scratch
      ensures Valid() && Grows()
      ensures Line() == old(Line()) + RawOut(m, true, false, false, old(delim), show).out && delim == RawOut(m, true, false, false, old(delim), show).delim
      decreases SizeSeq(m), 8
    {
      var skipping := false;
      var inlining := false;
      ghost var goal := Then(old(Line()), RawOut(m, true, false, false, old(delim), show));
      var i := 0;
      while i < |m|
        invariant 0 <= i <= |m| && Valid() && Grows() && EncodableSeq(m[i..])
        invariant Then(Line(), RawOut(m[i..], i % 2 == 0, skipping, inlining, delim, show)) == goal
      {
        skipping, inlining := RawRound(m, i, skipping, inlining, show);
        i := i + 1;
      }
      if |m| % 2 == 1 && !skipping {
        Scalar(Nil, show);
      }
    }

    /** One round of the rawPairs() loop: the element at `i` written, and
     *  the rest of the slice still to come. */
    method RawRound(m: seq<Value>, i: nat, skipping: bool, inlining: bool, show: Formatter)
      returns (skipping': bool, inlining': bool)
      requires Valid() && i < |m| && EncodableSeq(m) && EncodableSeq(m[i..])
      modifies this, scratch
      ensures Valid() && Grows() && EncodableSeq(m[i + 1..])
      ensures Then(Line(), RawOut(m[i + 1..], (i + 1) % 2 == 0, skipping', inlining', delim, show))
           == Then(old(Line()), RawOut(m[i..], i % 2 == 0, skipping, inlining, old(delim), show))
      decreases SizeSeq(m), 7
    {
      SizeAt(m, i);
      RawOutAt(m, i, i % 2 == 0, skipping, inlining, delim, show);
      ghost var before := Line();
      ghost var r := RawStepOut(m[i], i % 2 == 0, skipping, inlining, delim, show);
      ghost var rest := RawOut(m[i + 1..], !(i % 2 == 0), r.1, r.2, r.3, show);
      skipping', inlining' := RawStep(m, i, skipping, inlining, show);
      ThenStep(before, r.0, Line(), rest);
      assert (i + 1) % 2 == 0 <==> !(i % 2 == 0);
    }

    /** The body of the rawPairs() loop for the element at `i`. */
    method RawStep(m: seq<Value>, i: nat, skipping: bool, inlining: bool, show: Formatter)
      returns (skipping': bool, inlining': bool)
      requires Valid() && i < |m| && Encodable(m[i])
      modifies this, scratch
      ensures Valid() && Grows()
      ensures var r := RawStepOut(m[i], i % 2 == 0, skipping, inlining, old(delim), show);
        Line() == old(Line()) + r.0 && skipping' == r.1 && inlining' == r.2 && delim == r.3
      decreases Size(m[i]), 6
    {
      var elt := m[i];
      skipping', inlining' := skipping, inlining;
      if i % 2 == 0 {
        if elt.Skip? {
          skipping' := true;
        } else if elt.Inline? {
          inlining' := true;
        } else {
          Quote([S(elt, show)]);
          ghost var l1 := Line();
          Colon();
          Extend(old(Line()), Quoted([S(elt, show)], old(delim)), ColonText,
                 Quoted([S(elt, show)], old(delim)) + ColonText, l1, Line());
        }
      } else if skipping {
        skipping' := false;
      } else if inlining {
        InlinePairs(elt, show);
        inlining' := false;
      } else {
        Scalar(elt, show);
      }
    }

    /** inlineList(): each value in turn. */
    method InlineList(items: seq<Value>, show: Formatter)
      requires Valid() && EncodableSeq(items)
      modifies this, scratch
      ensures Valid() && Grows()
      ensures Line() == old(Line()) + InlineOut(items, old(delim), show).out && delim == InlineOut(items, old(delim), show).delim
      decreases SizeSeq(items), 7
    {
      var i := 0;
      while i < |items|
        invariant 0 <= i <= |items| && Valid() && Grows()
        invariant EncodableSeq(items[i..])
        invariant Then(Line(), InlineOut(items[i..], delim, show))
                    == Then(old(Line()), InlineOut(items, old(delim), show))
      {
        InlineOutAt(items, i, delim, show);
        SizeAt(items, i);
        ghost var before := Line();
        ghost var d := delim;
        Scalar(items[i], show);
        ThenStep(before, ScalarOut(items[i], d, show).out, Line(), InlineOut(items[i + 1..], Comma, show));
        i := i + 1;
      }
    }

    /** The strings of a `[]string`, each through scalar(). */
    method StringList(ss: seq<Text>, show: Formatter)
      requires Valid()
      modifies this, scratch
      ensures Valid() && Grows()
      ensures Line() == old(Line()) + StringsOut(ss, old(delim)).out && delim == StringsOut(ss, old(delim)).delim
      decreases 1, 7
    {
      var i := 0;
      while i < |ss|
        invariant 0 <= i <= |ss| && Valid() && Grows()
        invariant Then(Line(), StringsOut(ss[i..], delim)) == Then(old(Line()), StringsOut(ss, old(delim)))
      {
        StringsOutAt(ss, i, delim);
        ghost var before := Line();
        ghost var d := delim;
        Scalar(Str(ss[i]), show);
        ThenStep(before, d + Quoted([ss[i]], []), Line(), StringsOut(ss[i + 1..], Comma));
        i := i + 1;
      }
    }

    /** msgList(): the message and the arguments as one JSON list. */
    method MsgList(msg: Text, args: seq<Value>, show: Formatter)
      requires Valid() && EncodableSeq(args)
      modifies this, scratch
      ensures Valid() && Grows() && delim == Comma
      ensures Line() == old(Line()) + MsgListOut(msg, args, old(delim), show)
    {
      ghost var head := Json(Str(msg), show);
      ghost var tail := InlineOut(args, Comma, show).out;
      Open(LBracket);
      ghost var l1 := Line();
      Scalar(Str(msg), show);
      assert Line() == l1 + head;
      ghost var l2 := Line();
      InlineList(args, show);
      assert Line() == l2 + tail;
      ghost var l3 := Line();
      Close(RBracket);
      Chain4(old(Line()), old(delim) + LBracket, head, tail, RBracket, l1, l2, l3, Line());
    }

    // -------------------------------------------------------------------
    // Scalars
    // -------------------------------------------------------------------

    /** scalar(): a deferred value is called first; then the pending
     *  delimiter, an early flush when fewer than 64 bytes of room are
     *  left, the value, and a comma pending. */
    method Scalar(v: Value, show: Formatter)
      requires Valid() && Encodable(v)
      modifies this, scratch
      ensures Valid() && Grows()
      ensures Line() == old(Line()) + ScalarOut(v, old(delim), show).out && delim == Comma
      decreases Size(v), 3
    {
      var s := v;
      if s.Deferred? {
        s := s.result;
      }
      Write([delim]);
      ConcatPair(delim, []);
      ghost var l1 := Line();
      delim := [];
      if Capacity < n + 64 {
        Lock();
      }
      EncodeBody(s, show);
      Extend(old(Line()), old(delim), if s.Deferred? then FuncFailure(s, show) else Json(s, show),
             old(delim) + Json(v, show), l1, Line());
      delim := Comma;
    }

    /** The switch of scalar() on the value's type. */
    method EncodeBody(s: Value, show: Formatter)
      requires Valid() && Encodable(s) && delim == [] && n + 64 <= Capacity
      modifies this, scratch
      ensures Valid() && Grows()
      ensures Line() == old(Line()) + (if s.Deferred? then FuncFailure(s, show) else Json(s, show))
      decreases Size(s), 2
    {
      match s
      case Strings(ss) => EncodeStrings(ss, show);
      case List(items) => EncodeList(items, show);
      case Raw(elts) => EncodeRaw(elts, show);
      case Pairs(m) => EncodeMap(m, show);
      case Str(_) => EncodeText(s, show);
      case ByteSlice(_) => EncodeText(s, show);
      case ErrorV(_) => EncodeText(s, show);
      case StringerV(_) => EncodeText(s, show);
      case Deferred(_) => EncodeText(s, show);
      case Failing(_, _) => EncodeText(s, show);
      case _ => EncodeLeaf(s, show);
    }

    /** A `[]string` as a JSON list. */
    method EncodeStrings(ss: seq<Text>, show: Formatter)
      requires Valid() && delim == []
      modifies this, scratch
      ensures Valid() && Grows()
      ensures Line() == old(Line()) + (LBracket + StringsOut(ss, []).out + RBracket)
      decreases Size(Strings(ss)), 1
    {
      ghost var body := StringsOut(ss, []).out;
      Open(LBracket);
      ghost var l1 := Line();
      StringList(ss, show);
      assert Line() == l1 + body;
      ghost var l2 := Line();
      Close(RBracket);
      assert [] + LBracket == LBracket;
      Chain3(old(Line()), LBracket, body, RBracket, l1, l2, Line());
    }

    /** A `[]interface{}` as a JSON list. */
    method EncodeList(items: seq<Value>, show: Formatter)
      requires Valid() && delim == [] && EncodableSeq(items)
      modifies this, scratch
      ensures Valid() && Grows()
      ensures Line() == old(Line()) + (LBracket + InlineOut(items, [], show).out + RBracket)
      decreases Size(List(items)), 1
    {
      ghost var body := InlineOut(items, [], show).out;
      Open(LBracket);
      ghost var l1 := Line();
      InlineList(items, show);
      assert Line() == l1 + body;
      ghost var l2 := Line();
      Close(RBracket);
      assert [] + LBracket == LBracket;
      Chain3(old(Line()), LBracket, body, RBracket, l1, l2, Line());
    }

    /** A RawMap as a JSON object. */
    method EncodeRaw(elts: seq<Value>, show: Formatter)
      requires Valid() && delim == [] && EncodableSeq(elts)
      modifies this, scratch
      ensures Valid() && Grows()
      ensures Line() == old(Line()) + (LBrace + RawOut(elts, true, false, false, [], show).out + RBrace)
      decreases Size(Raw(elts)), 1
    {
      ghost var body := RawOut(elts, true, false, false, [], show).out;
      Open(LBrace);
      ghost var l1 := Line();
      RawPairs(elts, show);
      assert Line() == l1 + body;
      ghost var l2 := Line();
      Close(RBrace);
      assert [] + LBrace == LBrace;
      Chain3(old(Line()), LBrace, body, RBrace, l1, l2, Line());
    }

    /** An AMap as a JSON object. */
    method EncodeMap(m: AMap, show: Formatter)
      requires Valid() && delim == [] && Encodable(Value.Pairs(m))
      modifies this, scratch
      ensures Valid() && Grows()
      ensures Line() == old(Line()) + (LBrace + AMapOut(m, [], show).out + RBrace)
      decreases Size(Value.Pairs(m)), 1
    {
      ghost var body := AMapOut(m, [], show).out;
      Open(LBrace);
      ghost var l1 := Line();
      MapPairs(m, show);
      assert Line() == l1 + body;
      ghost var l2 := Line();
      Close(RBrace);
      assert [] + LBrace == LBrace;
      Chain3(old(Line()), LBrace, body, RBrace, l1, l2, Line());
    }

    /** The cases of scalar() that write a quoted string. */
    method EncodeText(s: Value, show: Formatter)
      requires Valid() && delim == []
      requires s.Str? || s.ByteSlice? || s.ErrorV? || s.StringerV? || s.Deferred? || s.Failing?
      modifies this, scratch
      ensures Valid() && Grows()
      ensures Line() == old(Line()) + (if s.Deferred? then FuncFailure(s, show) else Json(s, show))
    {
      match s
      case Str(x) =>
        Quote([x]);
      case ByteSlice(b) =>
        QuoteBytes(b);
      case ErrorV(msg) =>
        Quote([msg]);
      case StringerV(str) =>
        Quote([str]);
      case Deferred(_) =>
        Quote([Lit("! "), FuncError, Lit("; "), show(s)]);
      case Failing(err, syntax) =>
        Quote([Lit("! "), err, Lit("; "), syntax]);
    }

    /** The remaining cases of scalar(): literals, numbers, and bytes
     *  written as they are. */
    method EncodeLeaf(s: Value, show: Formatter)
      requires Valid() && delim == [] && n + 64 <= Capacity
      requires s.Nil? || s.Int? || s.Uint? || s.Bool? || s.KV? || s.Skip? || s.Inline? || s.Other?
      requires Encodable(s)
      modifies this, scratch
      ensures Valid() && Grows()
      ensures Line() == old(Line()) + Json(s, show)
    {
      match s
      case Nil =>
        Write([Lit("null")]);
        ConcatPair(Lit("null"), []);
      case Int(i) =>
        IntTextLength(i as int);
        Append(IntText(i as int));
      case Uint(u) =>
        IntTextLength(u as int);
        Append(NatText(u as nat));
      case Bool(f) =>
        var t := if f then Lit("true") else Lit("false");
        Write([t]);
        ConcatPair(t, []);
      case KV(_) =>
        WriteBytes(Lit("{}"));
      case Skip =>
        WriteBytes(Lit("\"\""));
      case Inline =>
        WriteBytes(Lit("\"\""));
      case Other(json) =>
        WriteBytes(json);
    }
  }

}
