/** The level registry of lager.go: the eleven log levels and their names,
 *  the enable-string that decides which of them log, the key scheme for
 *  writing lines as JSON objects, the copy-on-write snapshot of the global
 *  configuration, and `With`, which adds context pairs to a logger.
 */
module Lager {
  import opened Bytes
  import opened Data

  // -----------------------------------------------------------------------
  // Levels
  // -----------------------------------------------------------------------

  /** `level`, an int8. */
  type Level = l: int | -128 <= l < 128

  const Panic: Level := 0
  const Exit: Level := 1
  const Fail: Level := 2
  const Guts: Level := 10
  /** How many levels there are (`nLevels`). */
  const NLevels: nat := 11

  /** `levNames`, indexed by level. */
  const Names: seq<Text> := [Lit("PANIC"), Lit("EXIT"), Lit("FAIL"), Lit("WARN"), Lit("NOTE"),
                             Lit("ACCESS"), Lit("INFO"), Lit("TRACE"), Lit("DEBUG"), Lit("OBJ"),
                             Lit("GUTS")]

  /** The first letters of the level names, in level order. */
  const Initials: Text := Lit("PEFWNAITDOG")

  predicate IsUpper(c: byte) {
    'A' as byte <= c <= 'Z' as byte
  }

  /** A byte with ASCII lower case letters folded to upper case. */
  function ToUpper(c: byte): (u: byte)
    ensures IsUpper(u) ==> (c == u || c as int == u as int + 32)
  {
    if 'a' as byte <= c <= 'z' as byte then c - 32 else c
  }

  /** level.String(): the level's name, or its number for a level that has
   *  none. */
  function LevelName(l: Level): (name: Text)
    ensures 1 <= |name|
  {
    if 0 <= l < NLevels as int then Names[l] else IntText(l)
  }

  /** Level(): a letter from "PEFWNAITDOG" in either case selects that
   *  level; any other byte makes Level() panic (None). */
  function LevelOf(c: byte): (r: Option<Level>)
    ensures r.Some? ==> 0 <= r.value < NLevels as int
  {
    match ToUpper(c)
    case 80 => Some(0)   // P
    case 69 => Some(1)   // E
    case 70 => Some(2)   // F
    case 87 => Some(3)   // W
    case 78 => Some(4)   // N
    case 65 => Some(5)   // A
    case 73 => Some(6)   // I
    case 84 => Some(7)   // T
    case 68 => Some(8)   // D
    case 79 => Some(9)   // O
    case 71 => Some(10)  // G
    case _ => None
  }

  /** Each level is selected by the first letter of its name, in upper or
   *  lower case. */
  lemma LevelOfInitial(l: Level)
    requires 0 <= l < NLevels as int
    ensures LevelName(l)[0] == Initials[l]
    ensures LevelOf(Initials[l]) == Some(l) && LevelOf(Initials[l] + 32) == Some(l)
  {
  }

  /** ... and by no other byte: Level() panics unless the byte, folded to
   *  upper case, is a level's initial. */
  lemma LevelOfOnlyInitials(c: byte)
    ensures LevelOf(c).Some? <==> ToUpper(c) in Initials
    ensures LevelOf(c).Some? ==> ToUpper(c) == LevelName(LevelOf(c).value)[0]
  {
    var u := ToUpper(c);
    if u in Initials {
      var l :| 0 <= l < |Initials| && Initials[l] == u;
      LevelOfInitial(l);
    }
    if LevelOf(c).Some? {
      var l := LevelOf(c).value;
      LevelOfInitial(l);
      assert Initials[l] == u;
    }
  }

  /** A number's first byte, '-' or a digit, selects no level. */
  lemma NumberNotLevel(n: int)
    ensures LevelOf(IntText(n)[0]).None?
  {
    if n >= 0 {
      assert IsDigit(NatText(n)[0]);
    }
  }

  /** `%d` gives different numbers different texts. */
  lemma IntTextInjective(a: int, b: int)
    requires IntText(a) == IntText(b)
    ensures a == b
  {
    if a < 0 && b < 0 {
      assert IntText(a)[1..] == NatText(-a);
      assert IntText(b)[1..] == NatText(-b);
      NatTextRoundTrip(-a);
      NatTextRoundTrip(-b);
    } else if a >= 0 && b >= 0 {
      NatTextRoundTrip(a);
      NatTextRoundTrip(b);
    } else {
      NumberSign(a);
      NumberSign(b);
      assert false;
    }
  }

  /** `%d` puts '-' first exactly for a negative number. */
  lemma NumberSign(n: int)
    ensures IntText(n)[0] == '-' as byte <==> n < 0
  {
    if n >= 0 {
      assert IsDigit(NatText(n)[0]);
    }
  }

  /** Different levels have different names, so a level name can be read
   *  back. */
  lemma LevelNameInjective(a: Level, b: Level)
    requires LevelName(a) == LevelName(b)
    ensures a == b
  {
    var inA := 0 <= a < NLevels as int;
    var inB := 0 <= b < NLevels as int;
    if inA && inB {
      LevelOfInitial(a);
      LevelOfInitial(b);
    } else if inA {
      LevelOfInitial(a);
      NumberNotLevel(b);
    } else if inB {
      LevelOfInitial(b);
      NumberNotLevel(a);
    } else {
      IntTextInjective(a, b);
    }
  }

  // -----------------------------------------------------------------------
  // The enable-string
  // -----------------------------------------------------------------------

  /** The letters setLevels() accepts, Fail through Guts in level order. */
  const Letters: Text := Lit("FWNAITDOG")

  /** The level an enable-string letter turns on: upper case F W N A I T D
   *  O G only. */
  function LetterLevel(c: byte): (r: Option<Level>)
    ensures r.Some? ==> Fail <= r.value <= Guts
  {
    match c
    case 70 => Some(2)   // F
    case 87 => Some(3)   // W
    case 78 => Some(4)   // N
    case 65 => Some(5)   // A
    case 73 => Some(6)   // I
    case 84 => Some(7)   // T
    case 68 => Some(8)   // D
    case 79 => Some(9)   // O
    case 71 => Some(10)  // G
    case _ => None
  }

  /** setLevels() accepts exactly what Level() accepts, less lower case and
   *  the two levels that are always on. */
  lemma LetterLevelAgrees(c: byte)
    ensures LetterLevel(c) == (if IsUpper(c) && LevelOf(c).Some? && LevelOf(c).value >= Fail
                               then LevelOf(c) else None)
    ensures LetterLevel(c).Some? <==> c in Letters
  {
    if c in Letters {
      var i :| 0 <= i < |Letters| && Letters[i] == c;
    }
    if LetterLevel(c).Some? {
      assert Letters[LetterLevel(c).value - Fail] == c;
    }
  }

  /** The enable-string setLevels() works from: "" stands for "FWNA". */
  function Effective(levels: Text): (s: Text)
    ensures levels != [] ==> s == levels
  {
    if levels == [] then Lit("FWNA") else levels
  }

  /** The `enabled` string built from the bytes of `s`: each accepted
   *  letter the first time it appears. */
  function EnabledText(s: Text): Text
  {
    if s == [] then []
    else
      var e := EnabledText(s[..|s| - 1]);
      var c := s[|s| - 1];
      if LetterLevel(c).Some? && c !in e then e + [c] else e
  }

  /** A byte is in `enabled` exactly when it is an accepted letter of the
   *  enable-string. */
  lemma {:induction false} EnabledMembers(s: Text, c: byte)
    ensures c in EnabledText(s) <==> c in s && LetterLevel(c).Some?
  {
    if s != [] {
      var init := s[..|s| - 1];
      EnabledMembers(init, c);
      assert s == init + [s[|s| - 1]];
    }
  }

  /** No letter is in `enabled` twice. */
  lemma {:induction false} EnabledUnique(s: Text)
    ensures Unique(EnabledText(s))
  {
    if s != [] {
      EnabledUnique(s[..|s| - 1]);
    }
  }

  /** The index of the first `c` in `s`. */
  function FirstIndex(s: Text, c: byte): (i: nat)
    requires c in s
    ensures i < |s| && s[i] == c && c !in s[..i]
  {
    if s[0] == c then 0 else 1 + FirstIndex(s[1..], c)
  }

  lemma {:induction false} FirstIndexPrefix(s: Text, n: nat, c: byte)
    requires n <= |s| && c in s[..n]
    ensures FirstIndex(s, c) == FirstIndex(s[..n], c)
  {
    var i := FirstIndex(s[..n], c);
    var j := FirstIndex(s, c);
    assert s[..n][..i] == s[..i];
  }

  /** `enabled` lists the letters in the order they first appear. */
  lemma {:induction false} EnabledOrder(s: Text)
    ensures forall i, j | 0 <= i < j < |EnabledText(s)| ::
      EnabledText(s)[i] in s && EnabledText(s)[j] in s &&
      FirstIndex(s, EnabledText(s)[i]) < FirstIndex(s, EnabledText(s)[j])
  {
    if s != [] {
      var init := s[..|s| - 1];
      var c := s[|s| - 1];
      var e := EnabledText(init);
      EnabledOrder(init);
      assert s == init + [c];
      forall x | x in e
        ensures x in init && x in s && FirstIndex(s, x) == FirstIndex(init, x)
      {
        EnabledMembers(init, x);
        FirstIndexPrefix(s, |s| - 1, x);
        assert s[..|s| - 1] == init;
      }
      if LetterLevel(c).Some? && c !in e {
        EnabledMembers(init, c);
        assert FirstIndex(s, c) == |s| - 1;
        assert EnabledText(s) == e + [c];
        forall i, j | 0 <= i < j < |EnabledText(s)|
          ensures FirstIndex(s, EnabledText(s)[i]) < FirstIndex(s, EnabledText(s)[j])
        {
          assert EnabledText(s)[i] == e[i];
          if j < |e| {
            assert EnabledText(s)[j] == e[j];
          }
        }
      }
    }
  }

  // -----------------------------------------------------------------------
  // Loggers and the configuration snapshot
  // -----------------------------------------------------------------------

  /** `logger`: a level, its context pairs, a module name, and the snapshot
   *  it was made for.  Only `g` is ever changed after a logger is made. */
  class Logger {
    const lev: Level
    const kvp: AMap
    const mod: Text
    var g: Globals?

    constructor (lev: Level, kvp: AMap, mod: Text, g: Globals?)
      ensures this.lev == lev && this.kvp == kvp && this.mod == mod && this.g == g
    {
      this.lev := lev;
      this.kvp := kvp;
      this.mod := mod;
      this.g := g;
    }

    /** With(): merges each context's pairs into the logger's in turn;
     *  the logger itself when that leaves its own map in place, and
     *  otherwise a copy holding the merged pairs. */
    method With(ctxs: seq<AMap>) returns (r: Logger)
      requires kvp.Wf() && AllWf(ctxs)
      ensures WithPairs(kvp, ctxs).same ==> r == this
      ensures !WithPairs(kvp, ctxs).same ==> fresh(r) && r.kvp == WithPairs(kvp, ctxs).pairs
      ensures r.kvp == WithPairs(kvp, ctxs).pairs && r.lev == lev && r.mod == mod && r.g == g
    {
      var m := kvp;
      var same := true;
      var i := 0;
      while i < |ctxs|
        invariant 0 <= i <= |ctxs| && m.Wf()
        invariant WithPairs(kvp, ctxs[..i]) == Merged(m, same)
      {
        var c := ctxs[i];
        assert ctxs[..i + 1][..i] == ctxs[..i] && ctxs[..i + 1][i] == c;
        MergeProperties(m, c, []);
        if m.Len() == 0 {
          same := c.NilMap? && kvp.NilMap?;
        } else if c.Len() != 0 {
          same := false;
        }
        m := Merge(m, c);
        i := i + 1;
      }
      assert ctxs[..i] == ctxs;
      if same {
        WithIdentity(kvp, ctxs);
        return this;
      }
      r := new Logger(lev, m, mod, g);
    }
  }

  /** Contexts whose pairs are all well formed. */
  predicate AllWf(ctxs: seq<AMap>) {
    forall i | 0 <= i < |ctxs| :: ctxs[i].Wf()
  }

  /** Contexts none of which holds a pair. */
  predicate NoPairs(ctxs: seq<AMap>) {
    forall i | 0 <= i < |ctxs| :: ctxs[i].Len() == 0
  }

  /** Merge() has no pairs only when neither input has. */
  lemma MergeEmpty(a: AMap, b: AMap)
    requires a.Wf() && b.Wf()
    ensures MergeSpec(a, b).Wf()
    ensures MergeSpec(a, b).Len() == 0 <==> a.Len() == 0 && b.Len() == 0
  {
    MergeProperties(a, b, []);
  }

  /** The pairs With() arrives at, and whether they are still the
   *  logger's own map object. */
  datatype Merged = Merged(pairs: AMap, same: bool)

  /** The pairs after merging each context in turn.  Merge() returns one
   *  of its inputs by identity when the other is empty, so the result is
   *  the logger's own map until a context brings pairs, or until an empty
   *  map hands over a context other than nil.  Distinct maps are taken to
   *  be distinct objects; nil is one. */
  function WithPairs(kvp: AMap, ctxs: seq<AMap>): (r: Merged)
    requires kvp.Wf() && AllWf(ctxs)
    ensures r.pairs.Wf()
    decreases |ctxs|
  {
    if ctxs == [] then Merged(kvp, true)
    else
      var w := WithPairs(kvp, ctxs[..|ctxs| - 1]);
      var c := ctxs[|ctxs| - 1];
      MergeEmpty(w.pairs, c);
      Merged(MergeSpec(w.pairs, c),
             if w.pairs.Len() == 0 then c.NilMap? && kvp.NilMap? else w.same && c.Len() == 0)
  }

  /** With() hands back the logger itself exactly when no context brings
   *  pairs and either the logger has pairs of its own, there are no
   *  contexts, or the logger's map and the last context are both nil;
   *  and then the pairs are the logger's own. */
  lemma {:induction false} WithIdentity(kvp: AMap, ctxs: seq<AMap>)
    requires kvp.Wf() && AllWf(ctxs)
    ensures WithPairs(kvp, ctxs).same <==>
      NoPairs(ctxs) &&
      (kvp.Len() > 0 || ctxs == [] || (kvp.NilMap? && ctxs[|ctxs| - 1].NilMap?))
    ensures WithPairs(kvp, ctxs).same ==> WithPairs(kvp, ctxs).pairs == kvp
    decreases |ctxs|
  {
    if ctxs != [] {
      var init := ctxs[..|ctxs| - 1];
      var c := ctxs[|ctxs| - 1];
      WithIdentity(kvp, init);
      WithSize(kvp, init);
      MergeEmpty(WithPairs(kvp, init).pairs, c);
      assert NoPairs(ctxs) <==> NoPairs(init) && c.Len() == 0;
    }
  }

  /** The merged pairs are empty exactly when the logger's and every
   *  context's are. */
  lemma {:induction false} WithSize(kvp: AMap, ctxs: seq<AMap>)
    requires kvp.Wf() && AllWf(ctxs)
    ensures WithPairs(kvp, ctxs).pairs.Len() == 0 <==> kvp.Len() == 0 && NoPairs(ctxs)
    decreases |ctxs|
  {
    if ctxs != [] {
      var init := ctxs[..|ctxs| - 1];
      var c := ctxs[|ctxs| - 1];
      WithSize(kvp, init);
      MergeEmpty(WithPairs(kvp, init).pairs, c);
      assert NoPairs(ctxs) <==> NoPairs(init) && c.Len() == 0;
    }
  }

  /** The value a key ends up with when each context is merged in turn:
   *  the last context that holds the key decides, and otherwise the
   *  logger's own pairs. */
  function Latest(kvp: AMap, ctxs: seq<AMap>, k: Text): Option<Value>
    requires kvp.Wf() && AllWf(ctxs)
    decreases |ctxs|
  {
    if ctxs == [] then Get(kvp.Contents(), k)
    else
      var c := ctxs[|ctxs| - 1];
      if k in c.Contents().keys then Get(c.Contents(), k)
      else Latest(kvp, ctxs[..|ctxs| - 1], k)
  }

  /** With() keeps the logger's keys first and in place, and every key
   *  takes the value of the last context holding it. */
  lemma {:induction false} WithContents(kvp: AMap, ctxs: seq<AMap>, k: Text)
    requires kvp.Wf() && AllWf(ctxs)
    ensures kvp.Contents().keys <= WithPairs(kvp, ctxs).pairs.Contents().keys
    ensures Get(WithPairs(kvp, ctxs).pairs.Contents(), k) == Latest(kvp, ctxs, k)
    decreases |ctxs|
  {
    if ctxs != [] {
      var init := ctxs[..|ctxs| - 1];
      var c := ctxs[|ctxs| - 1];
      WithContents(kvp, init, k);
      MergeProperties(WithPairs(kvp, init).pairs, c, k);
    }
  }

  /** A `Lager`: the `noop` that logs nothing, or a `*logger`. */
  datatype Lager = Noop | Active(l: Logger)

  /** A Lager by what it logs: its level, pairs and module, not its
   *  identity. */
  datatype LagerView = NoopView | ActiveView(lev: Level, kvp: AMap, mod: Text)

  function ViewOf(x: Lager): LagerView {
    match x
    case Noop => NoopView
    case Active(l) => ActiveView(l.lev, l.kvp, l.mod)
  }

  /** A Lager after With(): `noop` stays `noop`; a logger gets the merged
   *  pairs. */
  function WithView(x: LagerView, ctxs: seq<AMap>): (r: LagerView)
    requires x.ActiveView? ==> x.kvp.Wf()
    requires AllWf(ctxs)
    ensures r.NoopView? <==> x.NoopView?
  {
    match x
    case NoopView => NoopView
    case ActiveView(lev, kvp, mod) => ActiveView(lev, WithPairs(kvp, ctxs).pairs, mod)
  }

  /** Lager.With(): `noop` returns itself. */
  method LagerWith(x: Lager, ctxs: seq<AMap>) returns (r: Lager)
    requires x.Active? ==> x.l.kvp.Wf()
    requires AllWf(ctxs)
    ensures ViewOf(r) == WithView(ViewOf(x), ctxs)
    ensures x.Noop? ==> r == Noop
    ensures x.Active? ==>
      r.Active? && r.l.g == x.l.g && (WithPairs(x.l.kvp, ctxs).same ==> r == x)
  {
    if x.Noop? {
      return Noop;
    }
    var l := x.l.With(ctxs);
    return Active(l);
  }

  /** keyStrs. */
  datatype KeyStrs = KeyStrs(when: Text, lev: Text, msg: Text, args: Text, ctx: Text, mod: Text)

  /** What Keys() does with six key names. */
  datatype KeysOutcome = Install(keys: Option<KeyStrs>) | Fatal

  /** Keys(): six empty names go back to JSON arrays; otherwise `when`,
   *  `lev`, `args` and `mod` must all be given, `msg` and `ctx` may be
   *  empty. */
  function KeysChoice(when: Text, lev: Text, msg: Text, args: Text, ctx: Text, mod: Text): (r: KeysOutcome)
  {
    if when == [] && lev == [] && args == [] && mod == [] && ctx == [] && msg == [] then Install(None)
    else if when == [] || lev == [] || args == [] || mod == [] then Fatal
    else Install(Some(KeyStrs(when, lev, msg, args, ctx, mod)))
  }

  /** A scheme is installed exactly when its four required names are
   *  present, and it holds the names given; arrays come back only for
   *  six empty names; an installed scheme never has a blank required
   *  name. */
  lemma KeysChoiceCases(when: Text, lev: Text, msg: Text, args: Text, ctx: Text, mod: Text)
    ensures KeysChoice(when, lev, msg, args, ctx, mod) == Install(None) <==>
      when + lev + msg + args + ctx + mod == []
    ensures KeysChoice(when, lev, msg, args, ctx, mod).Fatal? <==>
      when + lev + msg + args + ctx + mod != [] && (when == [] || lev == [] || args == [] || mod == [])
    ensures KeysChoice(when, lev, msg, args, ctx, mod).Install? && KeysChoice(when, lev, msg, args, ctx, mod).keys.Some?
      <==> when != [] && lev != [] && args != [] && mod != []
    ensures KeysChoice(when, lev, msg, args, ctx, mod) == Install(None) ||
      KeysChoice(when, lev, msg, args, ctx, mod) == Fatal ||
      KeysChoice(when, lev, msg, args, ctx, mod) == Install(Some(KeyStrs(when, lev, msg, args, ctx, mod)))
  {
    var all := when + lev + msg + args + ctx + mod;
    assert |all| == |when| + |lev| + |msg| + |args| + |ctx| + |mod|;
  }

  /** An alternate destination: an io.Writer, by identity. */
  type WriterId = nat

  /** The configuration by value. */
  datatype Snapshot = Snapshot(lagers: seq<LagerView>, keys: Option<KeyStrs>, enabled: Text,
                               dest: Option<WriterId>, pathParts: int, inGcp: bool,
                               spanPrefix: Text)

  /** The slots after setLevels(levels): Panic and Exit as they were, each
   *  of Fail..Guts a new logger if its letter is in the enable-string and
   *  `noop` otherwise. */
  function LevelSlots(before: seq<LagerView>, levels: Text): (slots: seq<LagerView>)
    requires |before| == NLevels
    ensures |slots| == NLevels
  {
    seq(NLevels, i requires 0 <= i < NLevels =>
      if i < Fail then before[i]
      else if Letters[i - Fail] in Effective(levels) then ActiveView(i, NilMap, [])
      else NoopView)
  }

  /** The configuration updates lager.go makes through updateGlobals(). */
  datatype Updater =
    | SetLevels(levels: Text)
    | SetKeys(keys: Option<KeyStrs>)
    | SetOutput(dest: Option<WriterId>)
    | SetPathParts(pathParts: int)
    | SetSpanPrefix(prefix: Text)

  /** What an updater does to the configuration. */
  function Apply(u: Updater, s: Snapshot): (r: Snapshot)
    requires |s.lagers| == NLevels
    ensures |r.lagers| == NLevels
  {
    match u
    case SetLevels(levels) =>
      s.(lagers := LevelSlots(s.lagers, levels), enabled := EnabledText(Effective(levels)))
    case SetKeys(keys) => s.(keys := keys)
    case SetOutput(dest) => s.(dest := dest)
    case SetPathParts(parts) => s.(pathParts := parts)
    case SetSpanPrefix(prefix) => s.(spanPrefix := prefix)
  }

  /** setLevels() leaves Panic and Exit alone; a level logs exactly when
   *  its letter is in the enable-string, which is "FWNA" when empty; and
   *  `enabled` names exactly the levels that log. */
  lemma SetLevelsEffect(s: Snapshot, levels: Text, l: Level)
    requires |s.lagers| == NLevels && 0 <= l < NLevels as int
    ensures var r := Apply(SetLevels(levels), s);
      (l < Fail ==> r.lagers[l] == s.lagers[l]) &&
      (Fail <= l ==> (r.lagers[l].ActiveView? <==> Initials[l] in Effective(levels))) &&
      (Fail <= l ==> (r.lagers[l].ActiveView? <==> Initials[l] in r.enabled)) &&
      (forall c | c in r.enabled :: LetterLevel(c).Some?)
  {
    var r := Apply(SetLevels(levels), s);
    if Fail <= l {
      assert Letters[l - Fail] == Initials[l];
      EnabledMembers(Effective(levels), Initials[l]);
      LetterLevelAgrees(Initials[l]);
    }
    forall c | c in r.enabled
      ensures LetterLevel(c).Some?
    {
      EnabledMembers(Effective(levels), c);
    }
  }

  /** The body of setLevels(): every slot from Fail to Guts back to
   *  `noop`, then the letters of the enable-string. */
  method Levels(before: seq<Lager>, levels: Text) returns (slots: seq<Lager>, on: Text)
    requires |before| == NLevels
    ensures |slots| == NLevels && slots[..Fail] == before[..Fail]
    ensures forall i | Fail <= i < NLevels ::
      ViewOf(slots[i]) == (if Letters[i - Fail] in Effective(levels) then ActiveView(i, NilMap, []) else NoopView)
    ensures forall i | Fail <= i < NLevels && slots[i].Active? :: fresh(slots[i].l) && slots[i].l.g == null
    ensures on == EnabledText(Effective(levels))
  {
    slots := before;
    var l := Fail as int;
    while l <= Guts as int
      invariant Fail <= l <= Guts + 1 && |slots| == NLevels
      invariant slots[..Fail] == before[..Fail]
      invariant forall i | Fail <= i < l :: slots[i] == Noop
    {
      slots := slots[l := Noop];
      l := l + 1;
    }
    var s := if levels == [] then Lit("FWNA") else levels;
    slots, on := Enable(slots, s);
  }

  /** The loop of setLevels(): each accepted letter puts a new logger in
   *  its level's slot and, the first time, goes onto `enabled`. */
  method Enable(cleared: seq<Lager>, s: Text) returns (slots: seq<Lager>, on: Text)
    requires |cleared| == NLevels && forall i | Fail <= i < NLevels :: cleared[i] == Noop
    ensures |slots| == NLevels && slots[..Fail] == cleared[..Fail]
    ensures forall i | Fail <= i < NLevels ::
      ViewOf(slots[i]) == (if Letters[i - Fail] in s then ActiveView(i, NilMap, []) else NoopView)
    ensures forall i | Fail <= i < NLevels && slots[i].Active? :: fresh(slots[i].l) && slots[i].l.g == null
    ensures on == EnabledText(s)
  {
    slots := cleared;
    on := [];
    var j := 0;
    while j < |s|
      invariant 0 <= j <= |s| && |slots| == NLevels
      invariant slots[..Fail] == cleared[..Fail]
      invariant forall i | Fail <= i < NLevels ::
        ViewOf(slots[i]) == (if Letters[i - Fail] in s[..j] then ActiveView(i, NilMap, []) else NoopView)
      invariant forall i | Fail <= i < NLevels && slots[i].Active? ::
        fresh(slots[i].l) && slots[i].l.g == null
      invariant on == EnabledText(s[..j])
    {
      var c := s[j];
      assert s[..j + 1] == s[..j] + [c];
      var lev := LetterLevel(c);
      if lev.Some? {
        LetterLevelAgrees(c);
        var made := new Logger(lev.value, NilMap, [], null);
        slots := slots[lev.value := Active(made)];
        if c !in on {
          on := on + [c];
        }
      }
      j := j + 1;
    }
    assert s[..j] == s;
  }

  /** The first loop of updateGlobals(): each `*logger` copied by value
   *  into a new object, `noop`s kept. */
  method CopyLoggers(ls: seq<Lager>) returns (r: seq<Lager>)
    ensures |r| == |ls|
    ensures forall i | 0 <= i < |ls| :: ViewOf(r[i]) == ViewOf(ls[i])
    ensures forall i | 0 <= i < |ls| && ls[i].Active? ::
      r[i].Active? && fresh(r[i].l) && r[i].l.g == ls[i].l.g
  {
    r := ls;
    var i := 0;
    while i < |ls|
      invariant 0 <= i <= |ls| && |r| == |ls|
      invariant forall k | i <= k < |ls| :: r[k] == ls[k]
      invariant forall k | 0 <= k < i :: ViewOf(r[k]) == ViewOf(ls[k])
      invariant forall k | 0 <= k < i && ls[k].Active? ::
        r[k].Active? && fresh(r[k].l) && r[k].l.g == ls[k].l.g
    {
      if ls[i].Active? {
        var p := ls[i].l;
        var cp := new Logger(p.lev, p.kvp, p.mod, p.g);
        r := r[i := Active(cp)];
      }
      i := i + 1;
    }
  }

  /** `globals`: the configuration that loggers consult. */
  class Globals {
    var lagers: seq<Lager>
    var keys: Option<KeyStrs>
    var enabled: Text
    var dest: Option<WriterId>
    var pathParts: int
    var levDesc: Text -> Text
    var inGcp: bool
    var spanPrefix: Text

    predicate Valid()
      reads this
    {
      |lagers| == NLevels && forall i | 0 <= i < NLevels && lagers[i].Active? :: lagers[i].l.kvp.Wf()
    }

    /** The `*logger`s in the slots. */
    function Loggers(): set<Logger>
      reads this
    {
      set i | 0 <= i < |lagers| && lagers[i].Active? :: lagers[i].l
    }

    /** The last loop of updateGlobals(): every logger in the slots now
     *  refers to this configuration. */
    method Repoint()
      modifies Loggers()
      ensures forall i | 0 <= i < |lagers| && lagers[i].Active? :: lagers[i].l.g == this
    {
      var i := 0;
      while i < |lagers|
        invariant 0 <= i <= |lagers|
        invariant forall k | 0 <= k < i && lagers[k].Active? :: lagers[k].l.g == this
      {
        if lagers[i].Active? {
          lagers[i].l.g := this;
        }
        i := i + 1;
      }
    }

    function View(): (s: Snapshot)
      reads this
      ensures |s.lagers| == |lagers|
    {
      var ls := lagers;
      Snapshot(seq(|ls|, i requires 0 <= i < |ls| => ViewOf(ls[i])), keys, enabled,
               dest, pathParts, inGcp, spanPrefix)
    }

    /** `copy := *curr`. */
    constructor Copy(c: Globals)
      ensures lagers == c.lagers && keys == c.keys && enabled == c.enabled && dest == c.dest
      ensures pathParts == c.pathParts && levDesc == c.levDesc && inGcp == c.inGcp
      ensures spanPrefix == c.spanPrefix
    {
      lagers := c.lagers;
      keys := c.keys;
      enabled := c.enabled;
      dest := c.dest;
      pathParts := c.pathParts;
      levDesc := c.levDesc;
      inGcp := c.inGcp;
      spanPrefix := c.spanPrefix;
    }

    /** The updater setLevels(levels) returns, applied to this snapshot. */
    method SetLevels(levels: Text)
      requires Valid()
      modifies this
      ensures Valid() && levDesc == old(levDesc)
      ensures View() == Apply(Updater.SetLevels(levels), old(View()))
      ensures forall i | 0 <= i < NLevels && lagers[i].Active? ::
        lagers[i] == old(lagers[i]) || (fresh(lagers[i].l) && lagers[i].l.g == null)
    {
      ghost var start := View();
      lagers, enabled := Levels(lagers, levels);
      assert View().lagers == LevelSlots(start.lagers, levels);
    }

    /** An updater applied to this snapshot. */
    method Run(u: Updater)
      requires Valid()
      modifies this
      ensures Valid() && levDesc == old(levDesc)
      ensures View() == Apply(u, old(View()))
      ensures forall i | 0 <= i < NLevels && lagers[i].Active? ::
        lagers[i] == old(lagers[i]) || fresh(lagers[i].l)
    {
      match u
      case SetLevels(levels) =>
        SetLevels(levels);
      case SetKeys(k) =>
        keys := k;
      case SetOutput(d) =>
        dest := d;
      case SetPathParts(p) =>
        pathParts := p;
      case SetSpanPrefix(p) =>
        spanPrefix := p;
    }
  }

  /** `_globals`: the published configuration. */
  class Registry {
    var current: Globals

    constructor (g: Globals)
      ensures current == g
    {
      current := g;
    }

    /** updateGlobals(): copy the configuration and every logger in it,
     *  apply the updater to the copy, point the copy's loggers at it and
     *  publish it.  The previous configuration and its loggers are left
     *  as they were, for whoever still holds them. */
    method UpdateGlobals(u: Updater)
      requires current.Valid()
      modifies this
      ensures fresh(current) && current.Valid() && current.levDesc == old(current.levDesc)
      ensures current.View() == Apply(u, old(current.View()))
      ensures forall i | 0 <= i < NLevels && current.lagers[i].Active? ::
        fresh(current.lagers[i].l) && current.lagers[i].l.g == current
      ensures unchanged(old(current))
      ensures forall i | 0 <= i < NLevels && old(current.lagers[i]).Active? ::
        unchanged(old(current.lagers[i]).l)
    {
      var copy := new Globals.Copy(current);
      ghost var view := copy.View();
      copy.lagers := CopyLoggers(copy.lagers);
      assert copy.View() == view;
      copy.Run(u);
      copy.Repoint();
      current := copy;
    }

    /** Init(): the levels of an enable-string. */
    method Init(levels: Text)
      requires current.Valid()
      modifies this
      ensures fresh(current) && current.Valid()
      ensures current.View() == Apply(SetLevels(levels), old(current.View()))
      ensures forall i | 0 <= i < NLevels && current.lagers[i].Active? :: current.lagers[i].l.g == current
    {
      UpdateGlobals(SetLevels(levels));
    }

    /** Keys(): install a key scheme, or go back to JSON arrays; `fatal`
     *  where the source logs at Exit and ends the process instead, with
     *  the configuration as it was. */
    method Keys(when: Text, lev: Text, msg: Text, args: Text, ctx: Text, mod: Text)
      returns (fatal: bool)
      requires current.Valid()
      modifies this
      ensures fatal <==> KeysChoice(when, lev, msg, args, ctx, mod).Fatal?
      ensures fatal ==> current == old(current)
      ensures !fatal ==> current.Valid()
      ensures !fatal ==>
        current.View() == Apply(SetKeys(KeysChoice(when, lev, msg, args, ctx, mod).keys), old(current.View()))
    {
      if when == [] && lev == [] && args == [] && mod == [] && ctx == [] && msg == [] {
        UpdateGlobals(SetKeys(None));
        return false;
      } else if when == [] || lev == [] || args == [] || mod == [] {
        return true;
      }
      UpdateGlobals(SetKeys(Some(KeyStrs(when, lev, msg, args, ctx, mod))));
      return false;
    }

    /** Level(): the logger for a level letter in either case, with the
     *  contexts' pairs merged in; None for any other byte, where the
     *  source panics. */
    method Level(c: byte, ctxs: seq<AMap>) returns (r: Option<Lager>)
      requires current.Valid() && AllWf(ctxs)
      ensures r.None? <==> LevelOf(c).None?
      ensures r.Some? ==> ViewOf(r.value) == WithView(ViewOf(current.lagers[LevelOf(c).value]), ctxs)
    {
      var lev := LevelOf(c);
      if lev.None? {
        return None;
      }
      var x := LagerWith(current.lagers[lev.value], ctxs);
      return Some(x);
    }
  }
}
