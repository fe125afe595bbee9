/** What rawPairs() makes of the sentinels in a RawMap: a SkipThisPair
 *  key drops the value after it, an InlinePairs key splices the pairs of
 *  the value after it into the enclosing object, any other key is written
 *  through S(), and a key left without a value gets `null`.
 */
module RawMaps {
  import opened Bytes
  import opened Data
  import opened Encoding

  /** A key and a value in front of the rest of a RawMap. */
  lemma TwoMore(k: Value, v: Value, rest: seq<Value>)
    requires Encodable(k) && Encodable(v) && EncodableSeq(rest)
    ensures EncodableSeq([k, v] + rest)
    ensures ([k, v] + rest)[1..] == [v] + rest && ([v] + rest)[1..] == rest
  {
    assert ([k, v] + rest)[1..] == [v] + rest;
    assert ([v] + rest)[1..] == rest;
  }

  /** A SkipThisPair key: neither it nor its value is written, and the
   *  pending delimiter carries over. */
  lemma SkipPair(v: Value, rest: seq<Value>, d: Text, show: Formatter)
    requires Encodable(v) && EncodableSeq(rest)
    ensures EncodableSeq([Skip, v] + rest)
    ensures RawOut([Skip, v] + rest, true, false, false, d, show) == RawOut(rest, true, false, false, d, show)
  {
    TwoMore(Skip, v, rest);
  }

  /** Any other key: the pair `"S(k)":v`, as pair() writes it. */
  lemma KeyPair(k: Value, v: Value, rest: seq<Value>, d: Text, show: Formatter)
    requires !k.Skip? && !k.Inline? && Encodable(k) && Encodable(v) && EncodableSeq(rest)
    ensures EncodableSeq([k, v] + rest)
    ensures RawOut([k, v] + rest, true, false, false, d, show)
              == Then(PairOut(S(k, show), v, d, show).out, RawOut(rest, true, false, false, Comma, show))
  {
    TwoMore(k, v, rest);
    var key := Quoted([S(k, show)], d) + ColonText;
    var val := ScalarOut(v, [], show).out;
    assert key + (val + RawOut(rest, true, false, false, Comma, show).out)
        == (key + val) + RawOut(rest, true, false, false, Comma, show).out;
  }

  /** Unless(cond, name) as a key: the pair is dropped when `cond` holds
   *  and written under `name` otherwise. */
  lemma UnlessPair(cond: bool, name: Text, v: Value, rest: seq<Value>, d: Text, show: Formatter)
    requires Encodable(v) && EncodableSeq(rest)
    ensures EncodableSeq([Unless(cond, name), v] + rest)
    ensures cond ==> RawOut([Unless(cond, name), v] + rest, true, false, false, d, show)
                       == RawOut(rest, true, false, false, d, show)
    ensures !cond ==> RawOut([Unless(cond, name), v] + rest, true, false, false, d, show)
                        == Then(PairOut(name, v, d, show).out, RawOut(rest, true, false, false, Comma, show))
  {
    if cond {
      SkipPair(v, rest, d, show);
    } else {
      KeyPair(Str(name), v, rest, d, show);
    }
  }

  /** An InlinePairs key: the value's own pairs are written in place of a
   *  pair, and the delimiter after them is the one they leave. */
  lemma InlinePair(v: Value, rest: seq<Value>, d: Text, show: Formatter)
    requires Encodable(v) && EncodableSeq(rest)
    ensures EncodableSeq([Inline, v] + rest)
    ensures var e := InlineValue(v, d, show);
      RawOut([Inline, v] + rest, true, false, false, d, show)
        == Then(e.out, RawOut(rest, true, false, false, e.delim, show))
  {
    TwoMore(Inline, v, rest);
  }

  /** A key without a value at the end of an odd-length RawMap: an
   *  ordinary key gets `null`; a trailing SkipThisPair writes nothing;
   *  a trailing InlinePairs leaves a bare `null` with no key. */
  lemma OddEnd(k: Value, d: Text, show: Formatter)
    requires Encodable(k)
    ensures EncodableSeq([k])
    ensures !k.Skip? && !k.Inline? ==>
              RawOut([k], true, false, false, d, show)
                == Emit(Quoted([S(k, show)], d) + ColonText + Lit("null"), Comma)
    ensures k.Skip? ==> RawOut([k], true, false, false, d, show) == Emit([], d)
    ensures k.Inline? ==> RawOut([k], true, false, false, d, show) == Emit(d + Lit("null"), Comma)
  {
    assert [k][1..] == [];
    var key := Quoted([S(k, show)], d) + ColonText;
    assert key + ([] + Lit("null")) == key + Lit("null");
  }

  /** The RawMap `k1, v1, k2, v2, ...` with string keys. */
  function Interleave(keys: seq<Text>, vals: seq<Value>): (m: seq<Value>)
    requires |keys| == |vals|
    ensures |m| == 2 * |keys|
  {
    if keys == [] then [] else [Str(keys[0]), vals[0]] + Interleave(keys[1..], vals[1..])
  }

  /** A RawMap of string keys writes exactly what pairs() writes for the
   *  same keys and values. */
  lemma {:induction false} RawMatchesPairs(keys: seq<Text>, vals: seq<Value>, d: Text, show: Formatter)
    requires |keys| == |vals| && EncodableSeq(vals)
    ensures EncodableSeq(Interleave(keys, vals))
    ensures RawOut(Interleave(keys, vals), true, false, false, d, show) == PairsOut(keys, vals, d, show)
    decreases |keys|
  {
    if keys != [] {
      var rest := Interleave(keys[1..], vals[1..]);
      RawMatchesPairs(keys[1..], vals[1..], Comma, show);
      KeyPair(Str(keys[0]), vals[0], rest, d, show);
    }
  }

  /** The end of rawPairs() as it is evidently meant: `null` only after a
   *  key that was written, so a trailing InlinePairs, like a trailing
   *  SkipThisPair, writes nothing. */
  function IntendedEnd(even: bool, skipping: bool, inlining: bool, d: Text): (e: Emit)
    ensures e.out != [] <==> !even && !skipping && !inlining
    ensures e.out != [] ==> e == Emit(d + Lit("null"), Comma)
    ensures e.out == [] ==> e == Emit([], d)
  {
    if !even && !skipping && !inlining then Emit(d + Lit("null"), Comma) else Emit([], d)
  }

  /** The end of rawPairs() as written and the intended one part exactly
   *  after a trailing InlinePairs, where the written one puts a `null`
   *  with no key in front of it. */
  lemma WrittenEndDiffers(even: bool, skipping: bool, inlining: bool, d: Text, show: Formatter)
    ensures RawOut([], even, skipping, inlining, d, show) != IntendedEnd(even, skipping, inlining, d)
            <==> !even && !skipping && inlining
    ensures !even && !skipping && inlining ==>
              RawOut([], even, skipping, inlining, d, show) == Emit(d + Lit("null"), Comma)
  {
    if !even && !skipping && inlining {
      assert |d + Lit("null")| > 0;
    }
  }

  /** With the intended end, a RawMap of one key writes `"key":null` for
   *  an ordinary key and nothing for either marker. */
  lemma IntendedOddEnd(k: Value, d: Text, show: Formatter)
    requires Encodable(k)
    ensures !k.Skip? && !k.Inline? ==>
              Then(Quoted([S(k, show)], d) + ColonText, IntendedEnd(false, false, false, [])) ==
              Emit(Quoted([S(k, show)], d) + ColonText + Lit("null"), Comma)
    ensures k.Skip? || k.Inline? ==> IntendedEnd(false, k.Skip?, k.Inline?, d) == Emit([], d)
  {
    var key := Quoted([S(k, show)], d) + ColonText;
    assert key + ([] + Lit("null")) == key + Lit("null");
  }
}
