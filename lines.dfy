/** The frame of every log line lager.go writes: start() picks the
 *  destination and writes the opening bracket, the timestamp and the
 *  level; end() adds the logger's context pairs and module, closes the
 *  line and hands it to the writer.  A line is a JSON array when no key
 *  scheme is set and a JSON object when one is.
 */
module Lines {
  import opened Bytes
  import opened Data
  import opened Encoding
  import L = Lager
  import M = Marshal
  import S = Stack
  import Modules

  /** Where a line goes. */
  datatype Stream = Stdout | Stderr | Dest(w: L.WriterId)

  /** start(): Panic and Exit lines go to standard error, the rest to
   *  standard output, unless an alternate destination is set. */
  function Destination(lev: L.Level, dest: Option<L.WriterId>): (w: Stream)
  {
    if dest.Some? then Dest(dest.value)
    else if lev == L.Panic || lev == L.Exit then Stderr
    else Stdout
  }

  /** An alternate destination takes every line; without one, exactly
   *  the Panic and Exit lines go to standard error. */
  lemma DestinationCases(lev: L.Level, dest: Option<L.WriterId>)
    ensures dest.Some? ==> Destination(lev, dest) == Dest(dest.value)
    ensures dest.None? ==> (Destination(lev, dest) == Stderr <==> lev == L.Panic || lev == L.Exit)
    ensures Destination(lev, dest).Dest? <==> dest.Some?
  {
  }

  /** The UTC calendar fields time.Now() would give. */
  datatype Time = Time(year: int64, month: nat, day: nat, hour: nat, minute: nat, second: nat,
                       nanos: nat)

  /** The timestamp of a line; ISO 8601 with a `T` when keys are set. */
  function Stamp(t: Time, keys: Option<L.KeyStrs>): Text {
    TimestampText(t.year as int, t.month, t.day, t.hour, t.minute, t.second, t.nanos, keys.Some?)
  }

  /** What start() writes before the timestamp. */
  function Opener(keys: Option<L.KeyStrs>): Text {
    if keys.None? then LBracket else LBrace + Quoted([keys.value.when], []) + ColonText
  }

  /** What start() writes after the timestamp: the level description, as
   *  the next array element or under the `lev` key. */
  function LevelField(keys: Option<L.KeyStrs>, desc: Text): Text {
    if keys.None? then Quoted([desc], Comma)
    else Quoted([keys.value.lev], Comma) + ColonText + Quoted([desc], [])
  }

  /** Everything start() writes. */
  function StartText(keys: Option<L.KeyStrs>, t: Time, desc: Text): (s: Text)
  {
    Opener(keys) + Stamp(t, keys) + LevelField(keys, desc)
  }

  /** Where end() puts the logger's pairs: nothing when it has none; one
   *  more array element; inline at the top level when the `ctx` key is
   *  empty; otherwise an object under the `ctx` key. */
  function CtxOut(keys: Option<L.KeyStrs>, kvp: AMap, d: Text, show: Formatter): (e: Emit)
    requires Encodable(Value.Pairs(kvp))
  {
    if kvp.Len() == 0 then Emit([], d)
    else if keys.None? then ScalarOut(Value.Pairs(kvp), d, show)
    else if keys.value.ctx == [] then AMapOut(kvp, d, show)
    else PairOut(keys.value.ctx, Value.Pairs(kvp), d, show)
  }

  /** The module name end() adds: `"mod=name"` in an array, a pair under
   *  the `mod` key in an object, nothing for the main logger. */
  function ModOut(keys: Option<L.KeyStrs>, mod: Text, d: Text, show: Formatter): (e: Emit)
  {
    if mod == [] then Emit([], d)
    else if keys.None? then Emit(Quoted([Lit("mod=") + mod], d), Comma)
    else PairOut(keys.value.mod, Str(mod), d, show)
  }

  /** The closing bracket and the newline. */
  function Closer(keys: Option<L.KeyStrs>): Text {
    if keys.None? then Lit("]\n") else Lit("}\n")
  }

  /** Everything end() adds to a line. */
  function EndText(keys: Option<L.KeyStrs>, kvp: AMap, mod: Text, d: Text, show: Formatter): Text
    requires Encodable(Value.Pairs(kvp))
  {
    var c := CtxOut(keys, kvp, d, show);
    c.out + ModOut(keys, mod, c.delim, show).out + Closer(keys)
  }

  // -----------------------------------------------------------------------
  // Properties of the frame
  // -----------------------------------------------------------------------

  /** A line opens with `[` exactly when no key scheme is set, with `{`
   *  otherwise, and end() closes it with the matching bracket and a
   *  newline. */
  lemma Brackets(keys: Option<L.KeyStrs>, t: Time, desc: Text, kvp: AMap, mod: Text, d: Text,
                 show: Formatter)
    requires Encodable(Value.Pairs(kvp))
    ensures StartText(keys, t, desc)[0] == (if keys.None? then '[' as byte else '{' as byte)
    ensures var e := EndText(keys, kvp, mod, d, show);
      |e| >= 2 && e[|e| - 2] == StartText(keys, t, desc)[0] + 2 && e[|e| - 1] == '\n' as byte
  {
    var c := CtxOut(keys, kvp, d, show);
    var e := EndText(keys, kvp, mod, d, show);
    assert e == (c.out + ModOut(keys, mod, c.delim, show).out) + Closer(keys);
  }

  /** The pairs of a map with a delimiter before them: the delimiter, then
   *  the same text as with none. */
  lemma AMapOutDelim(m: AMap, d: Text, show: Formatter)
    requires Encodable(Value.Pairs(m)) && m.Len() > 0
    ensures AMapOut(m, d, show).out == d + AMapOut(m, [], show).out
    ensures |AMapOut(m, [], show).out| >= 2
  {
    PairsOutDelim(m.p.keys, m.p.vals, d, show);
  }

  lemma PairsOutDelim(keys: seq<Text>, vals: seq<Value>, d: Text, show: Formatter)
    requires |keys| == |vals| && EncodableSeq(vals) && keys != []
    ensures PairsOut(keys, vals, d, show).out == d + PairsOut(keys, vals, [], show).out
    ensures |PairsOut(keys, vals, [], show).out| >= 2
  {
    EncodableAt(vals, 0);
    PairOutDelim(keys[0], vals[0], d, show);
    Assoc(d, PairOut(keys[0], vals[0], [], show).out, PairsOut(keys[1..], vals[1..], Comma, show).out);
  }

  lemma Assoc(a: Text, b: Text, c: Text)
    ensures (a + b) + c == a + (b + c) && |b + c| >= |b|
  {
  }

  /** One pair: the pending delimiter goes in front of its quoted key. */
  lemma PairOutDelim(k: Text, v: Value, d: Text, show: Formatter)
    requires Encodable(v)
    ensures PairOut(k, v, d, show).out == d + PairOut(k, v, [], show).out
    ensures |PairOut(k, v, [], show).out| >= 2
  {
    QuotedDelim([k], d);
    DelimFront(d, Quoted([k], []), ScalarOut(v, [], show).out);
  }

  lemma DelimFront(d: Text, q: Text, sc: Text)
    ensures ((d + q) + ColonText) + sc == d + ((q + ColonText) + sc)
    ensures |(q + ColonText) + sc| >= |q|
  {
  }

  /** The context pairs are the same text in every mode: an array holds
   *  them as one object element; with an empty `ctx` key they stand
   *  inline in the line's own object; with a `ctx` key that object goes
   *  under it; and they leave no trace when the logger has none. */
  lemma ContextPlacement(keys: Option<L.KeyStrs>, kvp: AMap, d: Text, show: Formatter)
    requires Encodable(Value.Pairs(kvp))
    ensures var inner := AMapOut(kvp, [], show).out;
      (kvp.Len() == 0 ==> CtxOut(keys, kvp, d, show) == Emit([], d)) &&
      (kvp.Len() > 0 && keys.None? ==> CtxOut(keys, kvp, d, show).out == d + LBrace + inner + RBrace) &&
      (kvp.Len() > 0 && keys.Some? && keys.value.ctx == [] ==> CtxOut(keys, kvp, d, show).out == d + inner) &&
      (kvp.Len() > 0 && keys.Some? && keys.value.ctx != [] ==>
         CtxOut(keys, kvp, d, show).out == Quoted([keys.value.ctx], d) + ColonText + LBrace + inner + RBrace)
    ensures kvp.Len() > 0 ==> |CtxOut(keys, kvp, d, show).out| > |d| && CtxOut(keys, kvp, d, show).delim == Comma
  {
    if kvp.Len() > 0 {
      ghost var inner := AMapOut(kvp, [], show).out;
      ghost var obj := Json(Value.Pairs(kvp), show);
      assert obj == LBrace + inner + RBrace;
      if keys.None? {
        assert CtxOut(keys, kvp, d, show).out == d + obj;
      } else if keys.value.ctx == [] {
        AMapOutDelim(kvp, d, show);
        EncodableAt(kvp.p.vals, 0);
      } else {
        ghost var ctx := keys.value.ctx;
        assert CtxOut(keys, kvp, d, show) == PairOut(ctx, Value.Pairs(kvp), d, show);
        assert PairOut(ctx, Value.Pairs(kvp), d, show).out ==
          (Quoted([ctx], d) + ColonText) + ScalarOut(Value.Pairs(kvp), [], show).out;
        assert ScalarOut(Value.Pairs(kvp), [], show).out == [] + obj;
      }
    }
  }

  /** The module name is the only thing ModOut() writes, after the
   *  delimiter: prefixed by `mod=` in an array, under the `mod` key in
   *  an object. */
  lemma ModPlacement(keys: Option<L.KeyStrs>, mod: Text, d: Text, show: Formatter)
    ensures mod == [] ==> ModOut(keys, mod, d, show) == Emit([], d)
    ensures mod != [] && keys.None? ==>
      ModOut(keys, mod, d, show).out == d + Lit("\"") + Escaped(Lit("mod=") + mod) + Lit("\"")
    ensures mod != [] && keys.Some? ==>
      ModOut(keys, mod, d, show).out == Quoted([keys.value.mod], d) + ColonText + Quoted([mod], [])
    ensures mod != [] ==> ModOut(keys, mod, d, show).delim == Comma
  {
    if mod != [] && keys.None? {
      assert EscapedAll([Lit("mod=") + mod]) == Escaped(Lit("mod=") + mod) + EscapedAll([]);
    } else if mod != [] {
      assert ScalarOut(Str(mod), [], show).out == [] + Quoted([mod], []);
    }
  }

  // -----------------------------------------------------------------------
  // start() and end()
  // -----------------------------------------------------------------------

  /** start(): a buffer from the pool (empty, no delimiter, no lock) gets
   *  the opening of the line.  The timestamp must fit beside what comes
   *  before it: timestamp() checks for no room, and its unchecked int2()
   *  and int() panic near the end of the buffer.  A logger without a
   *  configuration (`g` nil, as every module logger is) stops start() at
   *  `b.g.dest` before anything is written: None. */
  method Start(l: L.Logger, b: M.Buffer, t: Time, show: Formatter) returns (w: Option<Stream>)
    requires b.Valid() && b.n == 0 && b.delim == [] && !b.locked
    requires l.g != null ==> |Opener(l.g.keys)| + |Stamp(t, l.g.keys)| <= M.Capacity
    modifies b, b.scratch
    ensures l.g == null ==> w.None? && unchanged(b, b.scratch)
    ensures l.g != null ==> w == Some(Destination(l.lev, l.g.dest))
    ensures l.g != null ==> b.Valid() && b.Grows() && b.delim == Comma
    ensures l.g != null ==> b.Line() == StartText(l.g.keys, t, l.g.levDesc(L.LevelName(l.lev)))
  {
    w := Route(l);
    if w.None? {
      return;
    }
    var desc := l.g.levDesc(L.LevelName(l.lev));
    StartLine(b, l.g.keys, t, desc, show);
  }

  /** The stream start() picks for the logger's level; None where `b.g`
   *  is nil and reading `b.g.dest` stops it. */
  method Route(l: L.Logger) returns (w: Option<Stream>)
    ensures w.None? <==> l.g == null
    ensures l.g != null ==> w == Some(Destination(l.lev, l.g.dest))
  {
    var g := l.g;
    if g == null {
      return None;
    }
    var s := Pick(l.lev, g);
    return Some(s);
  }

  /** Standard error for Panic and Exit, standard output otherwise, and
   *  the configured destination over both. */
  method Pick(lev: L.Level, g: L.Globals) returns (w: Stream)
    ensures w == Destination(lev, g.dest)
    ensures g.dest.None? ==> (w == Stderr <==> lev == L.Panic || lev == L.Exit)
  {
    if lev == L.Panic || lev == L.Exit {
      w := Stderr;
    } else {
      w := Stdout;
    }
    if g.dest.Some? {
      w := Dest(g.dest.value);
    }
  }

  /** The configuration a logger is meant to log with: its own, or the
   *  current one when it has none. */
  function ConfigOf(l: L.Logger, current: L.Globals): (g: L.Globals)
    reads l
    ensures l.g != null ==> g == l.g
  {
    if l.g == null then current else l.g
  }

  /** start() as it is meant to work for module loggers too: a logger
   *  without its own configuration logs with the current one, so every
   *  logger gets its line opened, and a logger with a configuration gets
   *  exactly what Start() gives it. */
  method StartResolved(l: L.Logger, current: L.Globals, b: M.Buffer, t: Time, show: Formatter)
    returns (w: Stream)
    requires b.Valid() && b.n == 0 && b.delim == [] && !b.locked
    requires |Opener(ConfigOf(l, current).keys)| + |Stamp(t, ConfigOf(l, current).keys)| <= M.Capacity
    modifies b, b.scratch
    ensures w == Destination(l.lev, ConfigOf(l, current).dest)
    ensures b.Valid() && b.Grows() && b.delim == Comma
    ensures b.Line() ==
      StartText(ConfigOf(l, current).keys, t, ConfigOf(l, current).levDesc(L.LevelName(l.lev)))
  {
    var g := ConfigOf(l, current);
    w := Pick(l.lev, g);
    var desc := g.levDesc(L.LevelName(l.lev));
    StartLine(b, g.keys, t, desc, show);
  }

  /** As written, no module logger ever gets a line started: Module.Init()
   *  makes its loggers with `g` nil, Level() hands out copies of them, the
   *  Panic and Exit slots are nil, and start() stops on `b.g.dest`. */
  method ModuleLinesCrash(name: Text, levels: Text, enabled: Text, c: byte, ctxs: seq<AMap>,
                          b: M.Buffer, t: Time, show: Formatter) returns (w: Option<Stream>)
    requires L.AllWf(ctxs) && b.Valid() && b.n == 0 && b.delim == [] && !b.locked
    modifies b, b.scratch
    ensures w.None?
  {
    var m := new Modules.Module(name);
    m.Init(levels, enabled);
    var x := m.Level(c, ctxs);
    if x.Some? && x.value.Active? {
      if Modules.ModLevelOf(c).value < L.Fail {
        // Panic and Exit slots stay nil through Init()
        assert false;
      }
      w := Start(x.value.l, b, t, show);
    } else {
      w := None;
    }
  }

  /** The opening of the line start() writes into an empty buffer. */
  method StartLine(b: M.Buffer, keys: Option<L.KeyStrs>, t: Time, desc: Text, show: Formatter)
    requires b.Valid() && b.n == 0 && b.delim == [] && !b.locked
    requires |Opener(keys)| + |Stamp(t, keys)| <= M.Capacity
    modifies b, b.scratch
    ensures b.Valid() && b.Grows() && b.delim == Comma
    ensures b.Line() == StartText(keys, t, desc)
  {
    OpenLine(b, keys);
    ghost var l1 := b.Line();
    b.Timestamp(t.year, t.month, t.day, t.hour, t.minute, t.second, t.nanos, keys.Some?);
    ghost var l2 := b.Line();
    LevelPart(b, keys, desc, show);
    M.Chain3([], Opener(keys), Stamp(t, keys), LevelField(keys, desc), l1, l2, b.Line());
  }

  /** The opening bracket, and in an object the `when` key. */
  method OpenLine(b: M.Buffer, keys: Option<L.KeyStrs>)
    requires b.Valid() && b.n == 0 && b.delim == [] && !b.locked
    modifies b, b.scratch
    ensures b.Valid() && b.Grows() && b.Line() == Opener(keys) && b.n <= |Opener(keys)|
  {
    if keys.None? {
      b.Open(LBracket);
    } else {
      b.Open(LBrace);
      ghost var l1 := b.Line();
      b.Quote([keys.value.when]);
      ghost var l2 := b.Line();
      b.Colon();
      M.Chain3([], LBrace, Quoted([keys.value.when], []), ColonText, l1, l2, b.Line());
    }
    assert |b.Line()| == |b.early| + b.n;
  }

  /** The level description, under the `lev` key in an object. */
  method LevelPart(b: M.Buffer, keys: Option<L.KeyStrs>, desc: Text, show: Formatter)
    requires b.Valid() && b.delim == Comma
    modifies b, b.scratch
    ensures b.Valid() && b.Grows() && b.delim == Comma
    ensures b.Line() == old(b.Line()) + LevelField(keys, desc)
  {
    if keys.Some? {
      KeyedField(b, keys.value.lev, desc, show);
    } else {
      ScalarStr(desc, Comma, show);
      b.Scalar(Str(desc), show);
    }
  }

  /** A string under a key, with a comma pending before the key. */
  method KeyedField(b: M.Buffer, key: Text, s: Text, show: Formatter)
    requires b.Valid() && b.delim == Comma
    modifies b, b.scratch
    ensures b.Valid() && b.Grows() && b.delim == Comma
    ensures b.Line() == old(b.Line()) + (Quoted([key], Comma) + ColonText + Quoted([s], []))
  {
    b.Quote([key]);
    ghost var l1 := b.Line();
    b.Colon();
    ghost var l2 := b.Line();
    ScalarStr(s, [], show);
    b.Scalar(Str(s), show);
    M.Chain3(old(b.Line()), Quoted([key], Comma), ColonText, Quoted([s], []), l1, l2, b.Line());
  }

  /** How end() leaves: it returns; an Exit line exits the process when
   *  no RecoverPanicToExit() is waiting (`_exiters` 0) and otherwise
   *  panics for it to exit; a Panic line panics; and a logger without a
   *  configuration stops on the nil `g` before anything is written. */
  datatype Outcome = Returns | ExitsProcess | PanicsToExit | PanicsLogged | NilConfig

  /** The pairs end() logs: for an Exit line while stacks are logged on
   *  exit, WithStack(2, 0)'s pairs, that is the logger's pairs with
   *  `_stack` merged in; otherwise the logger's own. */
  function EndPairs(kvp: AMap, lev: L.Level, stackWithExit: bool, frames: seq<S.Frame>, pathParts: int,
                    show: Formatter): (r: AMap)
    requires kvp.Wf() && Encodable(Value.Pairs(kvp))
    ensures r.Wf() && Encodable(Value.Pairs(r))
    ensures !(lev == L.Exit && stackWithExit) ==> r == kvp
  {
    if lev == L.Exit && stackWithExit then
      var st := StackPairs(frames, pathParts, show);
      StackPairsEncodable(kvp, frames, pathParts, show);
      MergeSpec(kvp, st)
    else kvp
  }

  /** Pairs("_stack", stack) for the frames from depth 2 on, no limit. */
  function StackPairs(frames: seq<S.Frame>, pathParts: int, show: Formatter): (p: AMap)
    ensures p.Wf()
  {
    OnePair(S.StackKey, Strings(S.StackEntries(frames, 2, 0, pathParts)), show);
    AddPairsSpec(NilMap, [Str(S.StackKey), Strings(S.StackEntries(frames, 2, 0, pathParts))], show)
  }

  /** On an Exit line with stacks on exit, `_stack` holds the stack and
   *  every other key keeps its value and its place. */
  lemma ExitStack(kvp: AMap, frames: seq<S.Frame>, pathParts: int, show: Formatter, k: Text)
    requires kvp.Wf() && Encodable(Value.Pairs(kvp))
    ensures var r := EndPairs(kvp, L.Exit, true, frames, pathParts, show).Contents();
      kvp.Contents().keys <= r.keys &&
      Get(r, S.StackKey) == Some(Strings(S.StackEntries(frames, 2, 0, pathParts))) &&
      (k != S.StackKey ==> Get(r, k) == Get(kvp.Contents(), k))
  {
    var st := StackPairs(frames, pathParts, show);
    OnePair(S.StackKey, Strings(S.StackEntries(frames, 2, 0, pathParts)), show);
    MergeProperties(kvp, st, k);
    MergeProperties(kvp, st, S.StackKey);
    assert IndexOf([S.StackKey], S.StackKey) == 0;
  }

  /** Every value of the map is encodable: the sequence predicate read
   *  element by element. */
  lemma {:induction false} EncodableAll(vs: seq<Value>)
    ensures EncodableSeq(vs) <==> forall i | 0 <= i < |vs| :: Encodable(vs[i])
    decreases |vs|
  {
    if vs != [] {
      EncodableAll(vs[1..]);
      assert forall i | 1 <= i < |vs| :: vs[1..][i - 1] == vs[i];
    }
  }

  /** Storing encodable values keeps every value encodable. */
  lemma {:induction false} PutAllEncodable(p: KVPairs, kvs: seq<(Text, Value)>)
    requires p.Wf() && forall i | 0 <= i < |p.vals| :: Encodable(p.vals[i])
    requires forall i | 0 <= i < |kvs| :: Encodable(kvs[i].1)
    ensures forall i | 0 <= i < |PutAll(p, kvs).vals| :: Encodable(PutAll(p, kvs).vals[i])
    decreases |kvs|
  {
    if kvs != [] {
      PutAllEncodable(p, kvs[..|kvs| - 1]);
    }
  }

  /** Merging two encodable maps gives an encodable map. */
  lemma MergeEncodable(a: AMap, b: AMap)
    requires a.Wf() && b.Wf() && Encodable(Value.Pairs(a)) && Encodable(Value.Pairs(b))
    ensures Encodable(Value.Pairs(MergeSpec(a, b)))
  {
    if a.Len() != 0 && b.Len() != 0 {
      EncodableAll(a.p.vals);
      EncodableAll(b.p.vals);
      PutAllEncodable(a.p, Zip(b.p));
      EncodableAll(PutAll(a.p, Zip(b.p)).vals);
    }
  }

  lemma StackPairsEncodable(kvp: AMap, frames: seq<S.Frame>, pathParts: int, show: Formatter)
    requires kvp.Wf() && Encodable(Value.Pairs(kvp))
    ensures Encodable(Value.Pairs(MergeSpec(kvp, StackPairs(frames, pathParts, show))))
  {
    var v := Strings(S.StackEntries(frames, 2, 0, pathParts));
    OnePair(S.StackKey, v, show);
    EncodableAll([v]);
    MergeEncodable(kvp, StackPairs(frames, pathParts, show));
  }

  /** end(): for an Exit line with stacks on exit, the stack first; then
   *  the context pairs and the module, the closing bracket, and the whole
   *  line to the writer; the buffer goes back to the pool empty, unlocked
   *  and with no delimiter; then an Exit or Panic line stops.  `exiters`
   *  is `_exiters`, `stackWithExit` whether `_stackWithExit` is set, and
   *  `pathParts` the configured path length for the stack. */
  method End(l: L.Logger, b: M.Buffer, stackWithExit: bool, exiters: int, frames: seq<S.Frame>,
             pathParts: int, show: Formatter) returns (o: Outcome)
    requires b.Valid() && l.kvp.Wf() && Encodable(Value.Pairs(l.kvp))
    modifies b, b.scratch
    ensures l.g == null ==> o == NilConfig && unchanged(b, b.scratch)
    ensures l.g != null ==> b.Valid() && b.n == 0 && !b.locked && b.delim == []
    ensures l.g != null ==>
      b.prior == old(b.prior) + (old(b.Line()) +
        EndText(l.g.keys, EndPairs(l.kvp, l.lev, stackWithExit, frames, pathParts, show), l.mod, old(b.delim), show))
    ensures l.g != null ==> (o == Returns <==> l.lev != L.Exit && l.lev != L.Panic)
    ensures l.g != null && l.lev == L.Exit ==> o == (if exiters == 0 then ExitsProcess else PanicsToExit)
    ensures l.g != null && l.lev == L.Panic ==> o == PanicsLogged
  {
    if l.g == null {
      return NilConfig;
    }
    var kvp := l.kvp;
    if l.lev == L.Exit && stackWithExit {
      var withStack := S.WithStack(l, 2, 0, frames, pathParts, show);
      kvp := withStack.kvp;
    }
    assert kvp == EndPairs(l.kvp, l.lev, stackWithExit, frames, pathParts, show);
    CloseLine(b, l.g.keys, kvp, l.mod, show);
    b.delim := [];
    b.Unlock();
    if l.lev == L.Exit {
      o := if exiters == 0 then ExitsProcess else PanicsToExit;
    } else if l.lev == L.Panic {
      o := PanicsLogged;
    } else {
      o := Returns;
    }
  }

  /** The closing part of a line, still in the buffer. */
  method CloseLine(b: M.Buffer, keys: Option<L.KeyStrs>, kvp: AMap, mod: Text, show: Formatter)
    requires b.Valid() && Encodable(Value.Pairs(kvp))
    modifies b, b.scratch
    ensures b.Valid() && b.Grows()
    ensures b.Line() == old(b.Line()) + EndText(keys, kvp, mod, old(b.delim), show)
  {
    ghost var c := CtxOut(keys, kvp, b.delim, show);
    CtxPart(b, keys, kvp, show);
    ghost var l1 := b.Line();
    ghost var m := ModOut(keys, mod, c.delim, show).out;
    ModPart(b, keys, mod, show);
    ghost var l2 := b.Line();
    if keys.None? {
      b.Close(Lit("]\n"));
    } else {
      b.Close(Lit("}\n"));
    }
    M.Chain3(old(b.Line()), c.out, m, Closer(keys), l1, l2, b.Line());
  }

  /** The logger's pairs, placed by the key scheme. */
  method CtxPart(b: M.Buffer, keys: Option<L.KeyStrs>, kvp: AMap, show: Formatter)
    requires b.Valid() && Encodable(Value.Pairs(kvp))
    modifies b, b.scratch
    ensures b.Valid() && b.Grows()
    ensures b.Line() == old(b.Line()) + CtxOut(keys, kvp, old(b.delim), show).out
    ensures b.delim == CtxOut(keys, kvp, old(b.delim), show).delim
  {
    if kvp.Ref? && 0 < |kvp.p.keys| {
      if keys.None? {
        b.Scalar(Value.Pairs(kvp), show);
      } else if keys.value.ctx == [] {
        b.MapPairs(kvp, show);
      } else {
        b.Pair(keys.value.ctx, Value.Pairs(kvp), show);
      }
    }
  }

  /** The module name, when there is one. */
  method ModPart(b: M.Buffer, keys: Option<L.KeyStrs>, mod: Text, show: Formatter)
    requires b.Valid()
    modifies b, b.scratch
    ensures b.Valid() && b.Grows()
    ensures b.Line() == old(b.Line()) + ModOut(keys, mod, old(b.delim), show).out
    ensures b.delim == ModOut(keys, mod, old(b.delim), show).delim
  {
    if mod != [] {
      if keys.None? {
        b.Quote([Lit("mod=") + mod]);
      } else {
        b.Pair(keys.value.mod, Str(mod), show);
      }
    }
  }
}
