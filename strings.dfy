/** strings.Split and strings.Join on a one-byte separator, as the
 *  caller-path shortening of stack.go and the trace header of
 *  gcp-spans/factory.go use them. */
module Strings {
  import opened Bytes

  /** The text holds no separator. */
  predicate Free(t: Text, sep: byte) {
    forall j | 0 <= j < |t| :: t[j] != sep
  }

  /** No piece holds the separator. */
  predicate NoSep(parts: seq<Text>, sep: byte) {
    forall i | 0 <= i < |parts| :: Free(parts[i], sep)
  }

  /** Where the first piece ends: the first separator, or the end. */
  function SepIndex(s: Text, sep: byte): (i: nat)
    ensures i <= |s| && (i < |s| ==> s[i] == sep) && Free(s[..i], sep)
  {
    if s == [] || s[0] == sep then 0
    else
      var i := 1 + SepIndex(s[1..], sep);
      assert s[..i] == [s[0]] + s[1..][..i - 1];
      i
  }

  /** strings.Split(s, sep): the pieces between separators; always at
   *  least one, "" giving [""]. */
  function Split(s: Text, sep: byte): (parts: seq<Text>)
    ensures |parts| >= 1
    decreases |s|
  {
    var i := SepIndex(s, sep);
    if i == |s| then [s] else [s[..i]] + Split(s[i + 1..], sep)
  }

  /** strings.Join(parts, sep). */
  function Join(parts: seq<Text>, sep: byte): Text
  {
    if parts == [] then []
    else if |parts| == 1 then parts[0]
    else parts[0] + [sep] + Join(parts[1..], sep)
  }

  /** The first separator after a piece free of it ends that piece. */
  lemma {:induction false} SepIndexAfter(p: Text, r: Text, sep: byte)
    requires Free(p, sep)
    ensures SepIndex(p, sep) == |p|
    ensures SepIndex(p + [sep] + r, sep) == |p|
  {
    if p != [] {
      SepIndexAfter(p[1..], r, sep);
      assert (p + [sep] + r)[1..] == p[1..] + [sep] + r;
    }
  }

  /** Joining the pieces of a split gives back the string. */
  lemma {:induction false} JoinSplit(s: Text, sep: byte)
    ensures Join(Split(s, sep), sep) == s
    decreases |s|
  {
    var i := SepIndex(s, sep);
    if i < |s| {
      JoinSplit(s[i + 1..], sep);
      assert s == s[..i] + [sep] + s[i + 1..];
    }
  }

  /** No piece of a split holds the separator. */
  lemma {:induction false} SplitNoSep(s: Text, sep: byte)
    ensures NoSep(Split(s, sep), sep)
    decreases |s|
  {
    var i := SepIndex(s, sep);
    if i < |s| {
      SplitNoSep(s[i + 1..], sep);
      var parts := Split(s, sep);
      forall k | 0 < k < |parts|
        ensures Free(parts[k], sep)
      {
        assert parts[k] == Split(s[i + 1..], sep)[k - 1];
      }
    }
  }

  /** Splitting a join of pieces free of the separator gives the pieces
   *  back. */
  lemma {:induction false} SplitJoin(parts: seq<Text>, sep: byte)
    requires parts != [] && NoSep(parts, sep)
    ensures Split(Join(parts, sep), sep) == parts
    decreases |parts|
  {
    assert Free(parts[0], sep);
    if |parts| == 1 {
      SepIndexAfter(parts[0], [], sep);
    } else {
      var rest := parts[1..];
      assert NoSep(rest, sep) by {
        forall k | 0 <= k < |rest|
          ensures Free(rest[k], sep)
        {
          assert rest[k] == parts[k + 1];
        }
      }
      SplitJoin(rest, sep);
      var j := Join(rest, sep);
      var s := parts[0] + [sep] + j;
      SepIndexAfter(parts[0], j, sep);
      var n := |parts[0]|;
      assert s[..n] == parts[0] && s[n + 1..] == j;
      assert parts == [parts[0]] + rest;
    }
  }

  /** Joining the pieces after the first `k` gives the tail of the whole
   *  join after a separator. */
  lemma {:induction false} JoinTail(parts: seq<Text>, sep: byte, k: nat)
    requires 0 < k < |parts|
    ensures Join(parts, sep) == Join(parts[..k], sep) + [sep] + Join(parts[k..], sep)
    decreases k
  {
    if k > 1 {
      var rest := parts[1..];
      JoinTail(rest, sep, k - 1);
      assert rest[..k - 1] == parts[..k][1..];
      assert rest[k - 1..] == parts[k..];
      var a, b := Join(rest[..k - 1], sep), Join(parts[k..], sep);
      assert Join(parts, sep) == parts[0] + [sep] + (a + [sep] + b);
      assert Join(parts[..k], sep) == parts[0] + [sep] + a;
    } else {
      assert parts[..1] == [parts[0]];
      assert parts[1..] == parts[k..];
    }
  }
}
