/** Caller information of stack.go: the source file, line and function of
 *  a frame on the call stack, shortened for the log, added to a logger as
 *  `_file`, `_line` and `_func`, or a list of frames added as `_stack`.
 *  The call stack is given as data: `frames[d]` is the frame `d` levels
 *  above the code that asked.
 */
module Stack {
  import opened Bytes
  import opened Data
  import opened Lager
  import opened Strings

  /** A frame as runtime.CallersFrames() reports it; line 0 when there is
   *  no frame. */
  datatype Frame = Frame(file: Text, line: int64, fn: Text)

  const NoFrame: Frame := Frame([], 0, [])

  /** os.PathSeparator on a Unix system. */
  const PathSep: byte := 47

  const Dot: byte := 46

  /** The keys WithCaller() and WithStack() add: "_file", "_line",
   *  "_func" and "_stack". */
  const FileKey: Text := [95, 102, 105, 108, 101]
  const LineKey: Text := [95, 108, 105, 110, 101]
  const FuncKey: Text := [95, 102, 117, 110, 99]
  const StackKey: Text := [95, 115, 116, 97, 99, 107]

  // -----------------------------------------------------------------------
  // caller()
  // -----------------------------------------------------------------------

  /** The last piece of a split. */
  function LastPiece(s: Text, sep: byte): Text {
    Last(Split(s, sep))
  }

  function Last(parts: seq<Text>): Text
    requires parts != []
  {
    parts[|parts| - 1]
  }

  /** The last piece is a tail of the text, free of the separator, right
   *  after a separator when it is shorter than the text. */
  lemma {:induction false} LastPieceTail(s: Text, sep: byte)
    ensures var r := LastPiece(s, sep);
      |r| <= |s| && s[|s| - |r|..] == r && Free(r, sep)
    ensures var r := LastPiece(s, sep);
      |r| < |s| ==> s[|s| - |r| - 1] == sep
    decreases |s|
  {
    var i := SepIndex(s, sep);
    if i == |s| {
      assert Split(s, sep) == [s];
      assert s[..i] == s && s[0..] == s;
    } else {
      var t := s[i + 1..];
      LastPieceTail(t, sep);
      LastPieceAfter(s, sep);
      var r := LastPiece(t, sep);
      var m := |s| - |r|;
      assert m == i + 1 + (|t| - |r|);
      DropDrop(s, i + 1, |t| - |r|);
      if |r| < |t| {
        assert s[m - 1] == t[|t| - |r| - 1];
      } else {
        assert m - 1 == i;
      }
    }
  }

  /** Past a separator, the last piece is that of what follows it. */
  lemma LastPieceAfter(s: Text, sep: byte)
    requires SepIndex(s, sep) < |s|
    ensures LastPiece(s, sep) == LastPiece(s[SepIndex(s, sep) + 1..], sep)
  {
    var i := SepIndex(s, sep);
    var rest := Split(s[i + 1..], sep);
    assert Split(s, sep) == [s[..i]] + rest;
    LastOfCons(s[..i], rest);
  }

  lemma LastOfCons(a: Text, r: seq<Text>)
    requires r != []
    ensures Last([a] + r) == Last(r)
  {
  }

  /** Dropping twice is dropping once. */
  lemma DropDrop(s: Text, a: nat, b: nat)
    requires a + b <= |s|
    ensures s[a..][b..] == s[a + b..]
  {
  }

  /** The last piece is the whole text exactly when the text holds no
   *  separator. */
  lemma LastPieceWhole(s: Text, sep: byte)
    ensures Free(s, sep) <==> LastPiece(s, sep) == s
  {
    LastPieceTail(s, sep);
    if Free(s, sep) {
      SepIndexAfter(s, [], sep);
    }
  }

  /** The function name without its package path and receiver: the last
   *  piece of strings.Split(name, "."). */
  function ShortFunc(f: Text): Text {
    LastPiece(f, Dot)
  }

  /** The short name is the part of the name after its last '.', the
   *  whole name when it has none. */
  lemma ShortFuncTail(f: Text)
    ensures var r := ShortFunc(f);
      |r| <= |f| && f[|f| - |r|..] == r && Free(r, Dot)
    ensures var r := ShortFunc(f);
      Free(f, Dot) <==> r == f
    ensures var r := ShortFunc(f);
      |r| < |f| ==> f[|f| - |r| - 1] == Dot
  {
    LastPieceTail(f, Dot);
    LastPieceWhole(f, Dot);
  }

  /** The file path cut to its last `pathParts` components when there are
   *  more than that and `pathParts` is positive. */
  function ShortPath(file: Text, pathParts: int): (r: Text)
  {
    var parts := Split(file, PathSep);
    if 0 < pathParts < |parts| then Join(parts[|parts| - pathParts..], PathSep) else file
  }

  /** Outside the range where it cuts, the path is kept whole. */
  lemma ShortPathWhole(file: Text, pathParts: int)
    requires !(0 < pathParts < |Split(file, PathSep)|)
    ensures ShortPath(file, pathParts) == file
  {
  }

  /** A shortened path is a tail of the full path that starts right
   *  after a separator. */
  lemma ShortPathSuffix(file: Text, pathParts: int)
    requires 0 < pathParts < |Split(file, PathSep)|
    ensures var r := ShortPath(file, pathParts);
      |r| < |file| && file[|file| - |r|..] == r && file[|file| - |r| - 1] == PathSep
  {
    var parts := Split(file, PathSep);
    var k := |parts| - pathParts;
    var r := Join(parts[k..], PathSep);
    var j := Join(parts[..k], PathSep);
    JoinSplit(file, PathSep);
    JoinTail(parts, PathSep, k);
    assert ShortPath(file, pathParts) == r;
    assert file == j + [PathSep] + r;
    assert |file| - |r| - 1 == |j|;
    assert file[|j| + 1..] == r;
  }

  /** A shortened path is made of exactly the last `pathParts`
   *  components of the full path. */
  lemma ShortPathPieces(file: Text, pathParts: int)
    requires 0 < pathParts < |Split(file, PathSep)|
    ensures var parts := Split(file, PathSep);
      Split(ShortPath(file, pathParts), PathSep) == parts[|parts| - pathParts..]
  {
    var parts := Split(file, PathSep);
    var k := |parts| - pathParts;
    SplitNoSep(file, PathSep);
    TailNoSep(parts, PathSep, k);
    assert ShortPath(file, pathParts) == Join(parts[k..], PathSep);
    SplitJoin(parts[k..], PathSep);
  }

  /** The pieces of a tail are pieces too. */
  lemma TailNoSep(parts: seq<Text>, sep: byte, k: nat)
    requires k <= |parts| && NoSep(parts, sep)
    ensures NoSep(parts[k..], sep)
  {
    forall i | 0 <= i < |parts| - k
      ensures Free(parts[k..][i], sep)
    {
      assert parts[k..][i] == parts[k + i];
    }
  }

  /** The line of the frame `depth` levels up; 0 when there is none. */
  function LineAt(frames: seq<Frame>, depth: int): int64 {
    if 0 <= depth < |frames| then frames[depth].line else 0
  }

  /** The frame `depth` levels up, as caller() reports it: the short
   *  function name and the shortened path; the empty frame beyond the top
   *  of the stack. */
  function Caller(frames: seq<Frame>, depth: int, pathParts: int): (f: Frame)
    ensures f.line == LineAt(frames, depth)
  {
    if 0 <= depth < |frames| then
      var fr := frames[depth];
      Frame(ShortPath(fr.file, pathParts), fr.line, ShortFunc(fr.fn))
    else NoFrame
  }

  // -----------------------------------------------------------------------
  // WithCaller() and WithStack()
  // -----------------------------------------------------------------------

  /** The arguments of Pairs("_file", file, "_line", line, "_func", fn). */
  function CallerArgs(f: Frame): seq<Value> {
    [Str(FileKey), Str(f.file), Str(LineKey), Int(f.line), Str(FuncKey), Str(f.fn)]
  }

  /** The arguments pair up as `_file`, `_line` and `_func` with the
   *  frame's values. */
  lemma CallerArgPairs(f: Frame, show: Formatter)
    ensures ArgPairs(CallerArgs(f), show) == [(FileKey, Str(f.file)), (LineKey, Int(f.line)), (FuncKey, Str(f.fn))]
  {
    var args := CallerArgs(f);
    ArgPairsAt(args, show, 0);
    ArgPairsAt(args, show, 1);
    ArgPairsAt(args, show, 2);
  }

  /** The caller pairs are exactly `_file`, `_line` and `_func`, in that
   *  order, with the frame's values. */
  lemma CallerPairsContents(f: Frame, show: Formatter)
    ensures AddPairsSpec(NilMap, CallerArgs(f), show) ==
      Ref(KVPairs([FileKey, LineKey, FuncKey], [Str(f.file), Int(f.line), Str(f.fn)]))
  {
    CallerArgPairs(f, show);
    assert FileKey[1] != LineKey[1] && FileKey[2] != FuncKey[2] && LineKey[1] != FuncKey[1];
    PutThree(FileKey, LineKey, FuncKey, Str(f.file), Int(f.line), Str(f.fn));
  }

  /** Three updates with distinct keys on no pairs. */
  lemma PutThree(k0: Text, k1: Text, k2: Text, v0: Value, v1: Value, v2: Value)
    requires k0 != k1 && k0 != k2 && k1 != k2
    ensures PutAll(KVPairs([], []), [(k0, v0), (k1, v1), (k2, v2)]) == KVPairs([k0, k1, k2], [v0, v1, v2])
  {
    var p0 := KVPairs([], []);
    PutAllSnoc(p0, [], (k0, v0));
    assert [] + [(k0, v0)] == [(k0, v0)];
    PutAllSnoc(p0, [(k0, v0)], (k1, v1));
    assert [(k0, v0)] + [(k1, v1)] == [(k0, v0), (k1, v1)];
    PutAllSnoc(p0, [(k0, v0), (k1, v1)], (k2, v2));
    assert [(k0, v0), (k1, v1)] + [(k2, v2)] == [(k0, v0), (k1, v1), (k2, v2)];
  }

  /** Applying one more update. */
  lemma PutAllSnoc(p: KVPairs, kvs: seq<(Text, Value)>, kv: (Text, Value))
    requires p.Wf()
    ensures PutAll(p, kvs + [kv]) == Put(PutAll(p, kvs), kv.0, kv.1)
  {
    assert (kvs + [kv])[..|kvs|] == kvs;
  }

  /** WithCaller(): the logger itself when there is no frame at that
   *  depth; otherwise a copy whose pairs gain `_file`, `_line` and `_func`
   *  by Merge(). */
  method WithCaller(l: Logger, depth: int, frames: seq<Frame>, pathParts: int, show: Formatter)
    returns (r: Logger)
    requires l.kvp.Wf()
    ensures Caller(frames, depth, pathParts).line == 0 ==> r == l
    ensures Caller(frames, depth, pathParts).line != 0 ==>
      fresh(r) && r.lev == l.lev && r.mod == l.mod && r.g == l.g &&
      r.kvp == MergeSpec(l.kvp, AddPairsSpec(NilMap, CallerArgs(Caller(frames, depth, pathParts)), show))
  {
    var f := Caller(frames, depth, pathParts);
    if f.line == 0 {
      return l;
    }
    var pairs := MakePairs(CallerArgs(f), show);
    AddPairsProperties(NilMap, CallerArgs(f), show, []);
    var kvp := Merge(l.kvp, pairs);
    r := new Logger(l.lev, kvp, l.mod, l.g);
  }

  /** The caller pairs are well formed and hold the frame's values under
   *  `_file`, `_line` and `_func`. */
  lemma CallerPairsGet(f: Frame, show: Formatter)
    ensures var p := AddPairsSpec(NilMap, CallerArgs(f), show);
      p.Wf() && p.Contents().keys == [FileKey, LineKey, FuncKey] &&
      Get(p.Contents(), FileKey) == Some(Str(f.file)) && Get(p.Contents(), LineKey) == Some(Int(f.line)) &&
      Get(p.Contents(), FuncKey) == Some(Str(f.fn))
  {
    CallerPairsContents(f, show);
    var keys := [FileKey, LineKey, FuncKey];
    assert FileKey[1] != LineKey[1] && FileKey[2] != FuncKey[2] && LineKey[1] != FuncKey[1];
    assert Unique(keys);
    assert IndexOf(keys, FileKey) == 0;
    assert IndexOf(keys, LineKey) == 1;
    assert IndexOf(keys, FuncKey) == 2;
  }

  /** After WithCaller() the three keys hold the frame's values, and the
   *  logger's own keys are all still there, first and in order. */
  lemma WithCallerAdds(kvp: AMap, f: Frame, show: Formatter)
    requires kvp.Wf()
    ensures var p := AddPairsSpec(NilMap, CallerArgs(f), show);
      p.Wf() && kvp.Contents().keys <= MergeSpec(kvp, p).Contents().keys
    ensures var m := MergeSpec(kvp, AddPairsSpec(NilMap, CallerArgs(f), show)).Contents();
      Get(m, FileKey) == Some(Str(f.file)) && Get(m, LineKey) == Some(Int(f.line)) &&
      Get(m, FuncKey) == Some(Str(f.fn))
  {
    CallerPairsGet(f, show);
    var p := AddPairsSpec(NilMap, CallerArgs(f), show);
    MergeProperties(kvp, p, FileKey);
    MergeProperties(kvp, p, LineKey);
    MergeProperties(kvp, p, FuncKey);
  }

  /** After WithCaller() every other key keeps the logger's value. */
  lemma WithCallerKeeps(kvp: AMap, f: Frame, show: Formatter, k: Text)
    requires kvp.Wf() && k != FileKey && k != LineKey && k != FuncKey
    ensures AddPairsSpec(NilMap, CallerArgs(f), show).Wf()
    ensures Get(MergeSpec(kvp, AddPairsSpec(NilMap, CallerArgs(f), show)).Contents(), k) == Get(kvp.Contents(), k)
  {
    CallerPairsGet(f, show);
    var p := AddPairsSpec(NilMap, CallerArgs(f), show);
    assert k !in p.Contents().keys;
    MergeProperties(kvp, p, k);
  }

  /** One `_stack` entry: "line file function", or "line file" when the
   *  function name is empty. */
  function Entry(f: Frame): Text {
    if f.fn == [] then IntText(f.line as int) + [32] + f.file
    else IntText(f.line as int) + [32] + f.file + [32] + f.fn
  }

  /** How many entries WithStack() collects from `depth` on: one per
   *  frame until a frame with line 0, and no more than `stackLen` in all
   *  when `stackLen` is positive. */
  function Run(frames: seq<Frame>, depth: int, minDepth: int, stackLen: int): nat
    decreases |frames| - depth
  {
    if 0 < stackLen && stackLen <= depth - minDepth then 0
    else if LineAt(frames, depth) == 0 then 0
    else 1 + Run(frames, depth + 1, minDepth, stackLen)
  }

  /** The `_stack` list: one entry per frame of the run, in order from
   *  `minDepth` up. */
  function StackEntries(frames: seq<Frame>, minDepth: int, stackLen: int, pathParts: int): (stack: seq<Text>)
    ensures |stack| == Run(frames, minDepth, minDepth, stackLen)
  {
    seq(Run(frames, minDepth, minDepth, stackLen), k requires 0 <= k => Entry(Caller(frames, minDepth + k, pathParts)))
  }

  /** The run from `depth` on: every frame in it has a line; it is no
   *  longer than what is left of `stackLen` when that is positive; and it
   *  stops short of that only at a frame with line 0. */
  lemma {:induction false} RunBounds(frames: seq<Frame>, depth: int, minDepth: int, stackLen: int)
    requires minDepth <= depth && (0 < stackLen ==> depth - minDepth <= stackLen)
    ensures var n := Run(frames, depth, minDepth, stackLen);
      forall d | depth <= d < depth + n :: LineAt(frames, d) != 0
    ensures var n := Run(frames, depth, minDepth, stackLen);
      0 < stackLen ==> depth - minDepth + n <= stackLen
    ensures var n := Run(frames, depth, minDepth, stackLen);
      (0 < stackLen ==> depth - minDepth + n < stackLen) ==> LineAt(frames, depth + n) == 0
    decreases |frames| - depth
  {
    if !(0 < stackLen && stackLen <= depth - minDepth) && LineAt(frames, depth) != 0 {
      RunBounds(frames, depth + 1, minDepth, stackLen);
    }
  }

  /** The `_stack` list holds one entry for each frame from `minDepth`
   *  up (entry `k` for the frame `minDepth + k` levels up), each with a
   *  line, until the first frame without one or until
   *  `stackLen` entries when that is positive. */
  lemma StackEntriesSpan(frames: seq<Frame>, minDepth: int, stackLen: int, pathParts: int)
    ensures var s := StackEntries(frames, minDepth, stackLen, pathParts);
      forall d | minDepth <= d < minDepth + |s| :: Caller(frames, d, pathParts).line != 0
    ensures var s := StackEntries(frames, minDepth, stackLen, pathParts);
      0 < stackLen ==> |s| <= stackLen
    ensures var s := StackEntries(frames, minDepth, stackLen, pathParts);
      (0 < stackLen ==> |s| < stackLen) ==> Caller(frames, minDepth + |s|, pathParts).line == 0
  {
    RunBounds(frames, minDepth, minDepth, stackLen);
    var n := Run(frames, minDepth, minDepth, stackLen);
    forall d | minDepth <= d < minDepth + n
      ensures Caller(frames, d, pathParts).line != 0
    {
      assert LineAt(frames, d) != 0;
    }
  }

  /** One step of the loop: a frame with a line, before the cut-off,
   *  lengthens the run by one. */
  lemma RunStep(frames: seq<Frame>, depth: int, minDepth: int, stackLen: int)
    requires !(0 < stackLen && stackLen <= depth - minDepth) && LineAt(frames, depth) != 0
    ensures Run(frames, depth, minDepth, stackLen) == 1 + Run(frames, depth + 1, minDepth, stackLen)
  {
  }

  /** The loop of WithStack(). */
  method CollectStack(frames: seq<Frame>, minDepth: int, stackLen: int, pathParts: int)
    returns (stack: seq<Text>)
    ensures stack == StackEntries(frames, minDepth, stackLen, pathParts)
  {
    ghost var n := Run(frames, minDepth, minDepth, stackLen);
    stack := [];
    var depth := minDepth;
    while true
      invariant minDepth <= depth && n == depth - minDepth + Run(frames, depth, minDepth, stackLen)
      invariant stack == StackEntries(frames, minDepth, stackLen, pathParts)[..depth - minDepth]
      decreases |frames| - depth
    {
      if 0 < stackLen && stackLen <= depth - minDepth {
        break;
      }
      var f := Caller(frames, depth, pathParts);
      if f.line == 0 {
        break;
      }
      var e: Text;
      if f.fn == [] {
        e := IntText(f.line as int) + [32] + f.file;
      } else {
        e := IntText(f.line as int) + [32] + f.file + [32] + f.fn;
      }
      RunStep(frames, depth, minDepth, stackLen);
      assert e == Entry(f);
      assert minDepth + (depth - minDepth) == depth;
      ghost var all := StackEntries(frames, minDepth, stackLen, pathParts);
      assert e == all[depth - minDepth];
      assert all[..depth - minDepth + 1] == all[..depth - minDepth] + [e];
      stack := stack + [e];
      depth := depth + 1;
    }
  }

  /** WithStack(): a copy of the logger whose pairs gain `_stack`, the
   *  list of entries, by Merge(). */
  method WithStack(l: Logger, minDepth: int, stackLen: int, frames: seq<Frame>, pathParts: int,
                   show: Formatter) returns (r: Logger)
    requires l.kvp.Wf()
    ensures fresh(r) && r.lev == l.lev && r.mod == l.mod && r.g == l.g
    ensures r.kvp == MergeSpec(l.kvp, AddPairsSpec(NilMap,
      [Str(StackKey), Strings(StackEntries(frames, minDepth, stackLen, pathParts))], show))
  {
    var stack := CollectStack(frames, minDepth, stackLen, pathParts);
    var pairs := MakePairs([Str(StackKey), Strings(stack)], show);
    AddPairsProperties(NilMap, [Str(StackKey), Strings(stack)], show, []);
    var kvp := Merge(l.kvp, pairs);
    r := new Logger(l.lev, kvp, l.mod, l.g);
  }
}
