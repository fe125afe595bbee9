/** Named modules of module.go: each has its own table of loggers, set
 *  from a string of level letters, and its name goes on every line it
 *  logs.  Modules are kept in a registry by name.
 */
module Modules {
  import opened Bytes
  import opened Data
  import opened Lager

  // -----------------------------------------------------------------------
  // The letters Module.Init() accepts and the `levels` string
  // -----------------------------------------------------------------------

  /** The letters Module.Init() accepts, in level order. */
  const ModLetters: Text := Lit("FWITDOG")

  /** The level a Module.Init() letter turns on: upper case F W I T D O G
   *  only. */
  function ModLetterLevel(c: byte): (r: Option<Level>)
    ensures r.Some? ==> Fail <= r.value <= Guts
  {
    match c
    case 70 => Some(2)   // F
    case 87 => Some(3)   // W
    case 73 => Some(6)   // I
    case 84 => Some(7)   // T
    case 68 => Some(8)   // D
    case 79 => Some(9)   // O
    case 71 => Some(10)  // G
    case _ => None
  }

  /** Module.Init() accepts what setLevels() accepts except N (Note) and
   *  A (Access), which it ignores; the accepted bytes are ModLetters. */
  lemma ModLetterAgrees(c: byte)
    ensures ModLetterLevel(c) == (if c == 'N' as byte || c == 'A' as byte then None else LetterLevel(c))
    ensures ModLetterLevel(c).Some? <==> c in ModLetters
    ensures ModLetterLevel(c).Some? ==> Initials[ModLetterLevel(c).value] == c
  {
    assert ModLetters == [70, 87, 73, 84, 68, 79, 71];
  }

  /** strconv.QuoteRune() of an accepted letter: `'F'`. */
  function QuoteLetter(c: byte): Text {
    [39, c, 39]
  }

  /** The accepted letters of a string, in order, repeats included. */
  function Accepted(s: Text): (a: Text)
    ensures |a| <= |s|
  {
    if s == [] then []
    else
      var c := s[|s| - 1];
      Accepted(s[..|s| - 1]) + (if ModLetterLevel(c).Some? then [c] else [])
  }

  /** The `levels` string Module.Init() builds: each accepted letter,
   *  quoted, in the order given. */
  function QuotedLevels(s: Text): Text
  {
    if s == [] then []
    else
      var c := s[|s| - 1];
      QuotedLevels(s[..|s| - 1]) + (if ModLetterLevel(c).Some? then QuoteLetter(c) else [])
  }

  /** `levels` is three bytes per accepted letter: a quote, the letter and
   *  a quote, letter by letter in the order of the string, repeats
   *  kept. */
  lemma QuotedLevelsShape(s: Text)
    ensures |QuotedLevels(s)| == 3 * |Accepted(s)|
    ensures forall k | 0 <= k < |Accepted(s)| ::
      QuotedLevels(s)[3 * k .. 3 * k + 3] == QuoteLetter(Accepted(s)[k])
  {
    QuotedLevelsLength(s);
    forall k | 0 <= k < |Accepted(s)|
      ensures QuotedLevels(s)[3 * k .. 3 * k + 3] == QuoteLetter(Accepted(s)[k])
    {
      QuotedLevelsAt(s, k);
    }
  }

  lemma {:induction false} QuotedLevelsLength(s: Text)
    ensures |QuotedLevels(s)| == 3 * |Accepted(s)|
  {
    if s != [] {
      QuotedLevelsLength(s[..|s| - 1]);
    }
  }

  /** The `k`th accepted letter, quoted, sits at `3k` in `levels`. */
  lemma {:induction false} QuotedLevelsAt(s: Text, k: nat)
    requires k < |Accepted(s)|
    ensures 3 * k + 3 <= |QuotedLevels(s)|
    ensures QuotedLevels(s)[3 * k .. 3 * k + 3] == QuoteLetter(Accepted(s)[k])
  {
    var init, c := s[..|s| - 1], s[|s| - 1];
    var q, a := QuotedLevels(init), Accepted(init);
    QuotedLevelsLength(s);
    QuotedLevelsLength(init);
    if k < |a| {
      QuotedLevelsAt(init, k);
      assert QuotedLevels(s)[3 * k .. 3 * k + 3] == q[3 * k .. 3 * k + 3];
      assert Accepted(s)[k] == a[k];
    } else {
      assert ModLetterLevel(c).Some?;
      assert QuotedLevels(s) == q + QuoteLetter(c);
      assert Accepted(s)[k] == c;
    }
  }

  /** The accepted letters of two strings in a row are those of each. */
  lemma {:induction false} AcceptedConcat(a: Text, b: Text)
    ensures Accepted(a + b) == Accepted(a) + Accepted(b)
  {
    if b == [] {
      assert a + b == a;
    } else {
      var init, c := b[..|b| - 1], b[|b| - 1];
      var last := if ModLetterLevel(c).Some? then [c] else [];
      AcceptedConcat(a, init);
      assert (a + b)[..|a + b| - 1] == a + init && (a + b)[|a + b| - 1] == c;
      assert Accepted(a + b) == (Accepted(a) + Accepted(init)) + last;
      assert Accepted(b) == Accepted(init) + last;
    }
  }

  /** The `levels` of two strings in a row are those of each, one after
   *  the other. */
  lemma {:induction false} QuotedConcat(a: Text, b: Text)
    ensures QuotedLevels(a + b) == QuotedLevels(a) + QuotedLevels(b)
  {
    if b == [] {
      assert a + b == a;
    } else {
      var init, c := b[..|b| - 1], b[|b| - 1];
      var last := if ModLetterLevel(c).Some? then QuoteLetter(c) else [];
      QuotedConcat(a, init);
      assert (a + b)[..|a + b| - 1] == a + init && (a + b)[|a + b| - 1] == c;
      assert QuotedLevels(a + b) == (QuotedLevels(a) + QuotedLevels(init)) + last;
      assert QuotedLevels(b) == QuotedLevels(init) + last;
    }
  }

  /** A byte is accepted from a string exactly when it is in the string
   *  and is one of F W I T D O G. */
  lemma {:induction false} AcceptedMembers(s: Text, c: byte)
    ensures c in Accepted(s) <==> c in s && ModLetterLevel(c).Some?
  {
    if s != [] {
      var init := s[..|s| - 1];
      AcceptedMembers(init, c);
      assert s == init + [s[|s| - 1]];
    }
  }

  /** GetModuleLevels() answers "n/a" for an unknown module, which no
   *  module's `levels` can be. */
  lemma NotApplicableIsNoLevels(s: Text)
    ensures QuotedLevels(s) != Lit("n/a")
  {
    QuotedLevelsShape(s);
    if |QuotedLevels(s)| == 3 {
      assert QuotedLevels(s)[0..3] == QuoteLetter(Accepted(s)[0]);
    }
  }

  // -----------------------------------------------------------------------
  // The slots of a module
  // -----------------------------------------------------------------------

  /** A slot of a module's table: a Lager, or the nil interface Go leaves
   *  in a slot that was never set. */
  type Slot = Option<Lager>

  function SlotView(x: Slot): Option<LagerView> {
    if x.None? then None else Some(ViewOf(x.value))
  }

  /** The slots after Module.Init() with the letters of `s`: Panic and Exit
   *  as they were; each of Fail..Guts a logger with the module's name if
   *  its letter is accepted and in `s`, and `noop` otherwise. */
  function ModSlots(before: seq<Option<LagerView>>, name: Text, s: Text): (slots: seq<Option<LagerView>>)
    requires |before| == NLevels
    ensures |slots| == NLevels
  {
    seq(NLevels, i requires 0 <= i < NLevels =>
      if i < Fail then before[i]
      else if Initials[i] in Accepted(s) then Some(ActiveView(i, NilMap, name))
      else Some(NoopView))
  }

  /** Module.Init() leaves Panic and Exit alone, never enables Note or
   *  Access, and enables any other level exactly when its letter is in the
   *  string. */
  lemma ModSlotsEffect(before: seq<Option<LagerView>>, name: Text, s: Text, l: Level)
    requires |before| == NLevels && 0 <= l < NLevels as int
    ensures l < Fail ==> ModSlots(before, name, s)[l] == before[l]
    ensures l == 4 || l == 5 ==> ModSlots(before, name, s)[l] == Some(NoopView)
    ensures Fail <= l && l != 4 && l != 5 ==>
      (ModSlots(before, name, s)[l] == Some(ActiveView(l, NilMap, name)) <==> Initials[l] in s)
    ensures Fail <= l ==> ModSlots(before, name, s)[l].Some?
  {
    AcceptedMembers(s, Initials[l]);
    ModLetterAgrees(Initials[l]);
    if Fail <= l && l != 4 && l != 5 {
      assert ModLetterLevel(Initials[l]) == Some(l);
    }
  }

  /** The loop of Module.Init(): each accepted letter puts a new logger
   *  named after the module in its level's slot and adds its quoted form
   *  to `levels`. */
  method InitSlots(cleared: seq<Slot>, name: Text, s: Text) returns (slots: seq<Slot>, levels: Text)
    requires |cleared| == NLevels && forall i | Fail <= i < NLevels :: cleared[i] == Some(Noop)
    ensures |slots| == NLevels && slots[..Fail] == cleared[..Fail]
    ensures forall i | Fail <= i < NLevels ::
      SlotView(slots[i]) == (if Initials[i] in Accepted(s) then Some(ActiveView(i, NilMap, name)) else Some(NoopView))
    ensures forall i | Fail <= i < NLevels && slots[i].Some? && slots[i].value.Active? ::
      fresh(slots[i].value.l) && slots[i].value.l.g == null
    ensures levels == QuotedLevels(s)
  {
    slots := cleared;
    levels := [];
    var j := 0;
    while j < |s|
      invariant 0 <= j <= |s| && |slots| == NLevels
      invariant slots[..Fail] == cleared[..Fail]
      invariant forall i | Fail <= i < NLevels ::
        SlotView(slots[i]) == (if Initials[i] in Accepted(s[..j]) then Some(ActiveView(i, NilMap, name)) else Some(NoopView))
      invariant forall i | Fail <= i < NLevels && slots[i].Some? && slots[i].value.Active? ::
        fresh(slots[i].value.l) && slots[i].value.l.g == null
      invariant levels == QuotedLevels(s[..j])
    {
      var c := s[j];
      assert s[..j + 1] == s[..j] + [c];
      var lev := ModLetterLevel(c);
      if lev.Some? {
        ModLetterAgrees(c);
        var made := new Logger(lev.value, NilMap, name, null);
        slots := slots[lev.value := Some(Active(made))];
        levels := levels + QuoteLetter(c);
      }
      j := j + 1;
    }
    assert s[..j] == s;
  }

  /** Reset every slot from Fail to Guts to `noop`. */
  method ClearSlots(before: seq<Slot>) returns (slots: seq<Slot>)
    requires |before| == NLevels
    ensures |slots| == NLevels && slots[..Fail] == before[..Fail]
    ensures forall i | Fail <= i < NLevels :: slots[i] == Some(Noop)
  {
    slots := before;
    var l := Fail as int;
    while l <= Guts as int
      invariant Fail <= l <= Guts + 1 && |slots| == NLevels
      invariant slots[..Fail] == before[..Fail]
      invariant forall i | Fail <= i < l :: slots[i] == Some(Noop)
    {
      slots := slots[l := Some(Noop)];
      l := l + 1;
    }
  }

  /** Module.Level(): upper case P E F W I T D O G only. */
  function ModLevelOf(c: byte): (r: Option<Level>)
  {
    match c
    case 80 => Some(0)   // P
    case 69 => Some(1)   // E
    case 70 => Some(2)   // F
    case 87 => Some(3)   // W
    case 73 => Some(6)   // I
    case 84 => Some(7)   // T
    case 68 => Some(8)   // D
    case 79 => Some(9)   // O
    case 71 => Some(10)  // G
    case _ => None
  }

  /** Module.Level() selects what Level() selects for the same letter,
   *  but takes no lower case and no N or A. */
  lemma ModLevelAgrees(c: byte)
    ensures ModLevelOf(c).Some? <==> c in Lit("PEFWITDOG")
    ensures ModLevelOf(c).Some? ==> ModLevelOf(c) == LevelOf(c) && IsUpper(c)
    ensures ModLevelOf(c).Some? ==> Initials[ModLevelOf(c).value] == c
  {
    assert Lit("PEFWITDOG") == [80, 69, 70, 87, 73, 84, 68, 79, 71];
  }

  /** The slots a module is made with, as `&Module{name: name}` writes
   *  it: all eleven nil, and Init() later fills only Fail to Guts. */
  function WrittenSlots(): (slots: seq<Option<LagerView>>)
    ensures |slots| == NLevels
  {
    seq(NLevels, _ => None)
  }

  /** The slots a module is meant to start with: Panic and Exit always
   *  enabled, logging with the module's name. */
  function IntendedSlots(name: Text): (slots: seq<Option<LagerView>>)
    ensures |slots| == NLevels
  {
    seq(NLevels, i requires 0 <= i < NLevels =>
      if i < Fail then Some(ActiveView(i, NilMap, name)) else None)
  }

  /** What Module.Level() finds for a letter: None where it panics, for a
   *  letter it does not take or a slot that holds nil. */
  function ModuleLevel(slots: seq<Option<LagerView>>, c: byte): (r: Option<LagerView>)
    requires |slots| == NLevels
  {
    var lev := ModLevelOf(c);
    if lev.None? then None else slots[lev.value]
  }

  /** As written, a new module's Panic and Exit slots stay nil after
   *  Init(), so Panic(), Exit() and Level('P') or Level('E') panic on a
   *  nil interface instead of returning a logger. */
  lemma NilPanicSlots(name: Text, s: Text)
    ensures ModuleLevel(ModSlots(WrittenSlots(), name, s), 'P' as byte).None?
    ensures ModuleLevel(ModSlots(WrittenSlots(), name, s), 'E' as byte).None?
  {
  }

  /** With Panic and Exit filled in, every letter Module.Level() takes
   *  yields a Lager whatever Init() was given, and Panic and Exit log
   *  with the module's name. */
  lemma IntendedSlotsComplete(name: Text, s: Text, c: byte)
    ensures ModLevelOf(c).Some? ==> ModuleLevel(ModSlots(IntendedSlots(name), name, s), c).Some?
    ensures ModuleLevel(ModSlots(IntendedSlots(name), name, s), 'P' as byte) == Some(ActiveView(Panic, NilMap, name))
    ensures ModuleLevel(ModSlots(IntendedSlots(name), name, s), 'E' as byte) == Some(ActiveView(Exit, NilMap, name))
  {
    if ModLevelOf(c).Some? {
      var l := ModLevelOf(c).value;
      if Fail <= l {
        ModSlotsEffect(IntendedSlots(name), name, s, l);
      }
    }
  }

  // -----------------------------------------------------------------------
  // Module
  // -----------------------------------------------------------------------

  class Module {
    const name: Text
    var levels: Text
    var lagers: seq<Slot>

    predicate Valid()
      reads this
    {
      |lagers| == NLevels && forall i | 0 <= i < NLevels && lagers[i].Some? && lagers[i].value.Active? ::
        lagers[i].value.l.kvp.Wf()
    }

    function Slots(): (s: seq<Option<LagerView>>)
      reads this
      ensures |s| == |lagers|
    {
      var ls := lagers;
      seq(|ls|, i requires 0 <= i < |ls| => SlotView(ls[i]))
    }

    /** `&Module{name: name}` as written: every slot, Panic and Exit
     *  included, the nil interface; `levels` empty. */
    constructor (name: Text)
      ensures this.name == name && levels == [] && Valid()
      ensures Slots() == WrittenSlots() && forall i | 0 <= i < |lagers| :: lagers[i].None?
    {
      this.name := name;
      levels := [];
      lagers := seq(NLevels, _ => None);
    }

    /** A module with the Panic and Exit loggers it is meant to have (see
     *  IntendedSlots and IntendedSlotsComplete); `levels` empty. */
    constructor Intended(name: Text)
      ensures this.name == name && levels == [] && Valid()
      ensures Slots() == IntendedSlots(name)
      ensures forall i | 0 <= i < Fail ::
                lagers[i].Some? && lagers[i].value.Active? &&
                fresh(lagers[i].value.l) && lagers[i].value.l.g == null
    {
      this.name := name;
      levels := [];
      var panic := new Logger(Panic, NilMap, name, null);
      var exit := new Logger(Exit, NilMap, name, null);
      lagers := [Some(Active(panic)), Some(Active(exit))] + seq(NLevels - 2, _ => None);
    }

    /** Module.Init(): back to `noop` from Fail to Guts, then the letters of
     *  `levels`, or of the globally enabled levels when it is empty. */
    method Init(levels: Text, enabled: Text)
      requires Valid()
      modifies this
      ensures Valid() && this.levels == QuotedLevels(if levels == [] then enabled else levels)
      ensures Slots() == ModSlots(old(Slots()), name, if levels == [] then enabled else levels)
      ensures forall i | Fail <= i < NLevels && lagers[i].Some? && lagers[i].value.Active? ::
        fresh(lagers[i].value.l) && lagers[i].value.l.g == null
      ensures lagers[..Fail] == old(lagers[..Fail])
    {
      ghost var start := Slots();
      var s := if levels == [] then enabled else levels;
      var cleared := ClearSlots(lagers);
      lagers, this.levels := InitSlots(cleared, name, s);
      assert Slots() == ModSlots(start, name, s);
    }

    /** Module.Level(): the module's Lager for an upper-case letter, with
     *  the contexts' pairs merged in; None where the source panics. */
    method Level(c: byte, ctxs: seq<AMap>) returns (r: Option<Lager>)
      requires Valid() && AllWf(ctxs)
      ensures r.None? <==> ModuleLevel(Slots(), c).None?
      ensures r.Some? ==> ViewOf(r.value) == WithView(ModuleLevel(Slots(), c).value, ctxs)
      ensures r.Some? && r.value.Active? ==>
        ModLevelOf(c).Some? && lagers[ModLevelOf(c).value].Some? &&
        lagers[ModLevelOf(c).value].value.Active? &&
        r.value.l.g == lagers[ModLevelOf(c).value].value.l.g
    {
      var lev := ModLevelOf(c);
      if lev.None? || lagers[lev.value].None? {
        return None;
      }
      var x := LagerWith(lagers[lev.value].value, ctxs);
      return Some(x);
    }
  }

  // -----------------------------------------------------------------------
  // The registry
  // -----------------------------------------------------------------------

  /** `modMap`: modules by name. */
  class ModuleMap {
    var mods: map<Text, Module>

    predicate Valid()
      reads this, mods.Values
    {
      forall k | k in mods :: mods[k].name == k && mods[k].Valid()
    }

    constructor ()
      ensures mods == map[]
    {
      mods := map[];
    }

    /** NewModule(): a module already registered under the name is
     *  returned as it is; otherwise a new one is set from the one
     *  default, unless the LAGER_<name>_LEVELS value `env` is non-empty,
     *  and registered.  None for more than one default, where the source
     *  panics. */
    method NewModule(name: Text, defaults: seq<Text>, env: Text, enabled: Text) returns (r: Option<Module>)
      requires Valid()
      modifies this
      ensures Valid()
      ensures name in old(mods) ==> r == Some(old(mods)[name]) && mods == old(mods)
      ensures name !in old(mods) && |defaults| > 1 ==> r.None? && mods == old(mods)
      ensures name !in old(mods) && |defaults| <= 1 ==>
        r.Some? && fresh(r.value) && mods == old(mods)[name := r.value] &&
        r.value.levels == QuotedLevels(ModuleString(defaults, env, enabled)) &&
        r.value.Slots() == ModSlots(WrittenSlots(), name, ModuleString(defaults, env, enabled))
    {
      if name in mods {
        return Some(mods[name]);
      }
      var levels: Text := [];
      if |defaults| == 1 {
        levels := defaults[0];
      } else if |defaults| != 0 {
        return None;
      }
      if env != [] {
        levels := env;
      }
      var m := new Module(name);
      m.Init(levels, enabled);
      mods := mods[name := m];
      return Some(m);
    }

    /** SetModuleLevels(): false for an unknown name; otherwise the
     *  module's levels set again. */
    method SetModuleLevels(name: Text, levels: Text, enabled: Text) returns (found: bool)
      requires Valid()
      modifies mods.Values
      ensures Valid()
      ensures found <==> name in mods
      ensures found ==> mods[name].levels == QuotedLevels(if levels == [] then enabled else levels)
      ensures found ==>
        mods[name].Slots() == ModSlots(old(mods[name].Slots()), name, if levels == [] then enabled else levels)
      ensures mods == old(mods)
      ensures forall k | k in mods && k != name ::
        mods[k].levels == old(mods[k].levels) && mods[k].Slots() == old(mods[k].Slots())
    {
      if name !in mods {
        return false;
      }
      var m := mods[name];
      m.Init(levels, enabled);
      return true;
    }

    /** GetModuleLevels(): the module's `levels`, or "n/a" for an unknown
     *  name. */
    function GetModuleLevels(name: Text): (r: Text)
      reads this, mods.Values
    {
      if name in mods then mods[name].levels else Lit("n/a")
    }
  }

  /** The string NewModule() gives to Init(): a non-empty environment
   *  value, else the one default, else "" (the globally enabled levels). */
  function ModuleString(defaults: seq<Text>, env: Text, enabled: Text): Text
    requires |defaults| <= 1
  {
    var levels := if env != [] then env else if |defaults| == 1 then defaults[0] else [];
    if levels == [] then enabled else levels
  }

  /** The string a module is set from: the environment wins when it is not
   *  empty, then the one default when it is not empty, then the global
   *  levels; and the module's `levels` answers "n/a" only for unknown
   *  names. */
  lemma ModuleStringPrecedence(defaults: seq<Text>, env: Text, enabled: Text)
    requires |defaults| <= 1
    ensures env != [] ==> ModuleString(defaults, env, enabled) == env
    ensures env == [] && |defaults| == 1 && defaults[0] != [] ==> ModuleString(defaults, env, enabled) == defaults[0]
    ensures env == [] && (defaults == [] || defaults[0] == []) ==> ModuleString(defaults, env, enabled) == enabled
    ensures QuotedLevels(ModuleString(defaults, env, enabled)) != Lit("n/a")
  {
    NotApplicableIsNoLevels(ModuleString(defaults, env, enabled));
  }
}
