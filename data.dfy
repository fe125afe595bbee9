/** The values a log line is composed from, and the ordered key/value maps
 *  (`KVPairs`, `AMap`) of data.go.
 */
module Data {
  import opened Bytes

  /** A Go `interface{}` argument, by the dynamic type the encoder looks at.
   *  Integers of every width are `Int` or `Uint`; a `func() interface{}` is
   *  `Deferred`, holding the value that calling it returns.  `KV` is a
   *  `KVPairs` passed by value, `Skip` and `Inline` are the two sentinels.
   *  `Other` is a value of any other type, holding the bytes json.Marshal
   *  gives for it; `Failing` is one json.Marshal rejects, holding the
   *  error message and the value's `%#v` form. */
  datatype Value =
    | Nil
    | Str(s: Text)
    | ByteSlice(bytes: Text)
    | Int(i: int64)
    | Uint(u: uint64)
    | Bool(flag: bool)
    | Strings(ss: seq<Text>)
    | List(items: seq<Value>)
    | Raw(elts: seq<Value>)
    | Pairs(m: AMap)
    | KV(kv: KVPairs)
    | ErrorV(msg: Text)
    | StringerV(str: Text)
    | Deferred(result: Value)
    | Skip
    | Inline
    | Other(json: Text)
    | Failing(err: Text, syntax: Text)

  /** Two parallel lists: the keys and their values, in insertion order. */
  datatype KVPairs = KVPairs(keys: seq<Text>, vals: seq<Value>)
  {
    /** What every map the package builds satisfies: as many values as
     *  keys, and no key twice. */
    predicate Wf() {
      |keys| == |vals| && Unique(keys)
    }
  }

  /** `*KVPairs`: nil or a map. */
  datatype AMap = NilMap | Ref(p: KVPairs)
  {
    predicate Wf() {
      Ref? ==> p.Wf()
    }

    function Len(): nat {
      if NilMap? then 0 else |p.keys|
    }

    /** The pairs a nil map stands for: none. */
    function Contents(): KVPairs {
      if NilMap? then KVPairs([], []) else p
    }
  }

  predicate Unique<T(==)>(s: seq<T>) {
    forall i, j | 0 <= i < j < |s| :: s[i] != s[j]
  }

  /** The `%v` rendering of a value that is neither a string nor a byte
   *  slice; fmt is not part of this model, so callers supply it. */
  type Formatter = Value -> Text

  /** S(): strings as they are, byte slices as the same text, anything
   *  else through `%v`. */
  function S(arg: Value, show: Formatter): (r: Text)
    ensures arg.Str? ==> r == arg.s
    ensures arg.ByteSlice? ==> r == arg.bytes
    ensures !arg.Str? && !arg.ByteSlice? ==> r == show(arg)
  {
    match arg
    case Str(s) => s
    case ByteSlice(t) => t
    case _ => show(arg)
  }

  /** A byte slice is stringified exactly as the string with its bytes. */
  lemma SBytesAsString(t: Text, show: Formatter)
    ensures S(ByteSlice(t), show) == S(Str(t), show) == t
  {
  }

  /** Unless(): the label when the condition is false, else the marker
   *  that makes the encoder drop the pair. */
  function Unless(cond: bool, name: Text): (r: Value)
    ensures r == Skip <==> cond
    ensures !cond ==> r == Str(name)
  {
    if !cond then Str(name) else Skip
  }

  // ---------------------------------------------------------------------
  // The specification of the map operations: a fold of single updates
  // ---------------------------------------------------------------------

  /** The first position of `k` in `keys`. */
  function IndexOf(keys: seq<Text>, k: Text): (j: nat)
    requires k in keys
    ensures j < |keys| && keys[j] == k && k !in keys[..j]
  {
    if keys[0] == k then 0 else 1 + IndexOf(keys[1..], k)
  }

  lemma {:induction false} IndexOfUnique(keys: seq<Text>, j: nat)
    requires Unique(keys) && j < |keys|
    ensures IndexOf(keys, keys[j]) == j
  {
    if j > 0 {
      assert keys[0] != keys[j];
      assert keys[1..][j - 1] == keys[j];
      IndexOfUnique(keys[1..], j - 1);
    }
  }

  /** The value stored under `k`, if any. */
  function Get(p: KVPairs, k: Text): Option<Value>
    requires |p.keys| == |p.vals|
  {
    if k in p.keys then Some(p.vals[IndexOf(p.keys, k)]) else None
  }

  /** One update: overwrite the value in place when the key is present,
   *  otherwise append the pair. */
  function Put(p: KVPairs, k: Text, v: Value): (r: KVPairs)
    requires p.Wf()
    ensures r.Wf()
  {
    if k in p.keys then KVPairs(p.keys, p.vals[IndexOf(p.keys, k) := v])
    else KVPairs(p.keys + [k], p.vals + [v])
  }

  /** The updates of `kvs`, applied left to right. */
  function PutAll(p: KVPairs, kvs: seq<(Text, Value)>): (r: KVPairs)
    requires p.Wf()
    ensures r.Wf()
  {
    if kvs == [] then p
    else
      var last := kvs[|kvs| - 1];
      Put(PutAll(p, kvs[..|kvs| - 1]), last.0, last.1)
  }

  /** The value the last pair with key `k` carries, if any. */
  function LastVal(kvs: seq<(Text, Value)>, k: Text): Option<Value>
  {
    if kvs == [] then None
    else if kvs[|kvs| - 1].0 == k then Some(kvs[|kvs| - 1].1)
    else LastVal(kvs[..|kvs| - 1], k)
  }

  function KeysOf(kvs: seq<(Text, Value)>): (ks: seq<Text>)
    ensures |ks| == |kvs| && forall i | 0 <= i < |kvs| :: ks[i] == kvs[i].0
  {
    seq(|kvs|, i requires 0 <= i < |kvs| => kvs[i].0)
  }

  function ValsOf(kvs: seq<(Text, Value)>): (vs: seq<Value>)
    ensures |vs| == |kvs| && forall i | 0 <= i < |kvs| :: vs[i] == kvs[i].1
  {
    seq(|kvs|, i requires 0 <= i < |kvs| => kvs[i].1)
  }

  /** The keys of `ks` not in `seen`, each once, in order of first
   *  occurrence. */
  function NewKeys(seen: seq<Text>, ks: seq<Text>): seq<Text>
  {
    if ks == [] then []
    else
      var pre := NewKeys(seen, ks[..|ks| - 1]);
      var k := ks[|ks| - 1];
      if k in seen || k in pre then pre else pre + [k]
  }

  /** The keys of `ks` not in `seen`, in order (with repeats). */
  function Filter(ks: seq<Text>, seen: seq<Text>): seq<Text>
  {
    if ks == [] then []
    else
      var pre := Filter(ks[..|ks| - 1], seen);
      if ks[|ks| - 1] in seen then pre else pre + [ks[|ks| - 1]]
  }

  lemma GetPut(p: KVPairs, k: Text, v: Value, k': Text)
    requires p.Wf()
    ensures Get(Put(p, k, v), k') == if k == k' then Some(v) else Get(p, k')
  {
    var r := Put(p, k, v);
    if k in p.keys {
      if k' in p.keys && k' != k {
        assert IndexOf(p.keys, k') != IndexOf(p.keys, k);
      }
    } else {
      if k == k' {
        IndexOfUnique(r.keys, |p.keys|);
      } else if k' in p.keys {
        var j := IndexOf(p.keys, k');
        assert r.keys[j] == k';
        IndexOfUnique(r.keys, j);
      }
    }
  }

  /** After the updates, a key holds the value of its last update, or its
   *  old value when no update names it. */
  lemma {:induction false} PutAllGet(p: KVPairs, kvs: seq<(Text, Value)>, k: Text)
    requires p.Wf()
    ensures Get(PutAll(p, kvs), k) == if LastVal(kvs, k).Some? then LastVal(kvs, k) else Get(p, k)
  {
    if kvs != [] {
      var init, last := kvs[..|kvs| - 1], kvs[|kvs| - 1];
      PutAllGet(p, init, k);
      GetPut(PutAll(p, init), last.0, last.1, k);
    }
  }

  /** The updates keep the old keys where they were and append the new
   *  keys in order of first occurrence. */
  lemma {:induction false} PutAllKeys(p: KVPairs, kvs: seq<(Text, Value)>)
    requires p.Wf()
    ensures PutAll(p, kvs).keys == p.keys + NewKeys(p.keys, KeysOf(kvs))
  {
    if kvs != [] {
      var init, last := kvs[..|kvs| - 1], kvs[|kvs| - 1];
      PutAllKeys(p, init);
      assert KeysOf(kvs)[..|kvs| - 1] == KeysOf(init);
      var pre := NewKeys(p.keys, KeysOf(init));
      assert last.0 in p.keys + pre <==> last.0 in p.keys || last.0 in pre;
    } else {
      assert p.keys + [] == p.keys;
    }
  }

  /** Updating with distinct keys none of which is present just appends. */
  lemma {:induction false} PutAllFresh(p: KVPairs, kvs: seq<(Text, Value)>)
    requires p.Wf()
    requires Unique(KeysOf(kvs))
    requires forall i | 0 <= i < |kvs| :: kvs[i].0 !in p.keys
    ensures PutAll(p, kvs).keys == p.keys + KeysOf(kvs)
    ensures PutAll(p, kvs).vals == p.vals + ValsOf(kvs)
  {
    if kvs != [] {
      var init, last := kvs[..|kvs| - 1], kvs[|kvs| - 1];
      assert KeysOf(kvs) == KeysOf(init) + [last.0];
      assert ValsOf(kvs) == ValsOf(init) + [last.1];
      assert Unique(KeysOf(init));
      PutAllFresh(p, init);
      var q := PutAll(p, init);
      assert last.0 !in KeysOf(init) by {
        assert KeysOf(kvs)[|init|] == last.0;
      }
      assert last.0 !in q.keys;
      assert PutAll(p, kvs) == Put(q, last.0, last.1);
    } else {
      assert p.vals + [] == p.vals;
      assert p.keys + [] == p.keys;
    }
  }

  /** For distinct keys, the first-occurrence list is the plain filter. */
  lemma {:induction false} NewKeysOfUnique(seen: seq<Text>, ks: seq<Text>)
    requires Unique(ks)
    ensures NewKeys(seen, ks) == Filter(ks, seen)
    ensures forall k | k in Filter(ks, seen) :: k in ks[..|ks|]
  {
    if ks != [] {
      var init := ks[..|ks| - 1];
      assert Unique(init);
      NewKeysOfUnique(seen, init);
      assert ks[|ks| - 1] !in init;
    }
  }

  // ---------------------------------------------------------------------
  // Merge
  // ---------------------------------------------------------------------

  /** The pairs of a map as a list of updates. */
  function Zip(p: KVPairs): (kvs: seq<(Text, Value)>)
    requires |p.keys| == |p.vals|
    ensures |kvs| == |p.keys| && KeysOf(kvs) == p.keys
  {
    seq(|p.keys|, i requires 0 <= i < |p.keys| => (p.keys[i], p.vals[i]))
  }

  /** What `a.Merge(b)` returns. */
  function MergeSpec(a: AMap, b: AMap): AMap
    requires a.Wf() && b.Wf()
  {
    if a.Len() == 0 then b
    else if b.Len() == 0 then a
    else Ref(PutAll(a.p, Zip(b.p)))
  }

  /** Merge: `b` itself when `a` has no pairs, `a` itself when `b` has
   *  none, otherwise a fresh map with `b`'s pairs applied to `a`'s.  The
   *  idx map records where each key already sits. */
  method Merge(a: AMap, b: AMap) returns (r: AMap)
    requires a.Wf() && b.Wf()
    ensures a.Len() == 0 ==> r == b
    ensures a.Len() != 0 && b.Len() == 0 ==> r == a
    ensures r == MergeSpec(a, b)
  {
    var m := a.Len();
    if m == 0 {
      return b;
    }
    var n := b.Len();
    if n == 0 {
      return a;
    }
    var keys, vals, idx := Allocate(a.p, m + n);
    ghost var kvs := Zip(b.p);
    var o: nat := m;
    var i := 0;
    while i < n
      invariant 0 <= i <= n && m <= o <= m + i
      invariant keys[..o] == PutAll(a.p, kvs[..i]).keys
      invariant vals[..o] == PutAll(a.p, kvs[..i]).vals
      invariant IndexMap(idx, keys[..o])
    {
      var key, val := b.p.keys[i], b.p.vals[i];
      PutAllSnoc(a.p, kvs, i);
      idx, o := Update(keys, vals, idx, o, PutAll(a.p, kvs[..i]), key, val);
      i := i + 1;
    }
    assert kvs[..n] == kvs;
    r := Ref(KVPairs(keys[..o], vals[..o]));
  }

  lemma PutAllSnoc(p: KVPairs, kvs: seq<(Text, Value)>, i: nat)
    requires p.Wf() && i < |kvs|
    ensures PutAll(p, kvs[..i + 1]) == Put(PutAll(p, kvs[..i]), kvs[i].0, kvs[i].1)
  {
    assert kvs[..i + 1][..i] == kvs[..i];
  }

  /** The body of the update loops of Merge and AddPairs: overwrite the
   *  value where `idx` says the key sits, or append the pair at `o`. */
  method Update(keys: array<Text>, vals: array<Value>, idx: map<Text, nat>, o: nat,
                ghost q: KVPairs, key: Text, val: Value)
    returns (idx': map<Text, nat>, o': nat)
    requires keys.Length == vals.Length && o < keys.Length
    requires q.Wf() && keys[..o] == q.keys && vals[..o] == q.vals && IndexMap(idx, q.keys)
    modifies keys, vals
    ensures o <= o' <= o + 1
    ensures keys[..o'] == Put(q, key, val).keys && vals[..o'] == Put(q, key, val).vals
    ensures IndexMap(idx', keys[..o'])
  {
    PutStep(q, idx, key, val);
    idx', o' := idx, o;
    if key in idx {
      vals[idx[key]] := val;
      assert vals[..o] == q.vals[idx[key] := val];
    } else {
      keys[o] := key;
      vals[o] := val;
      assert keys[..o + 1] == q.keys + [key];
      assert vals[..o + 1] == q.vals + [val];
      idx' := idx[key := o];
      o' := o + 1;
    }
  }

  /** One step of the update loop, with the position map standing in for
   *  the search of the keys. */
  lemma PutStep(q: KVPairs, idx: map<Text, nat>, k: Text, v: Value)
    requires q.Wf() && IndexMap(idx, q.keys)
    ensures k in idx ==> Put(q, k, v) == KVPairs(q.keys, q.vals[idx[k] := v])
    ensures k !in idx ==> Put(q, k, v) == KVPairs(q.keys + [k], q.vals + [v])
    ensures k !in idx ==> IndexMap(idx[k := |q.keys|], q.keys + [k])
  {
    if k in idx {
      IndexOfUnique(q.keys, idx[k]);
    }
  }

  /** The fresh arrays of Merge and AddPairs, with the receiver's pairs
   *  copied to the front and their positions recorded in `idx`. */
  method Allocate(p: KVPairs, size: nat) returns (keys: array<Text>, vals: array<Value>, idx: map<Text, nat>)
    requires p.Wf() && |p.keys| <= size
    ensures fresh(keys) && fresh(vals)
    ensures keys.Length == size && vals.Length == size
    ensures keys[..|p.keys|] == p.keys && vals[..|p.keys|] == p.vals
    ensures IndexMap(idx, p.keys)
  {
    keys := new Text[size];
    vals := new Value[size];
    forall j | 0 <= j < |p.keys| {
      keys[j] := p.keys[j];
    }
    forall j | 0 <= j < |p.keys| {
      vals[j] := p.vals[j];
    }
    idx := IndexKeys(p.keys);
  }

  /** `idx` maps exactly the keys of `ks` to a position holding them. */
  ghost predicate IndexMap(idx: map<Text, nat>, ks: seq<Text>) {
    (forall k :: k in idx <==> k in ks) &&
    (forall k | k in idx :: idx[k] < |ks| && ks[idx[k]] == k)
  }

  /** The loop over the receiver's keys that fills the position map. */
  method IndexKeys(ks: seq<Text>) returns (idx: map<Text, nat>)
    ensures IndexMap(idx, ks)
  {
    idx := map[];
    var i := 0;
    while i < |ks|
      invariant 0 <= i <= |ks|
      invariant IndexMap(idx, ks[..i])
    {
      assert ks[..i + 1] == ks[..i] + [ks[i]];
      idx := idx[ks[i] := i];
      i := i + 1;
    }
    assert ks[..i] == ks;
  }

  /** Merge keeps `a`'s keys in place, appends `b`'s other keys in `b`'s
   *  order, and a key takes `b`'s value when `b` has it. */
  lemma MergeProperties(a: AMap, b: AMap, k: Text)
    requires a.Wf() && b.Wf()
    ensures MergeSpec(a, b).Wf()
    ensures MergeSpec(a, b).Contents().keys == a.Contents().keys + Filter(b.Contents().keys, a.Contents().keys)
    ensures Get(MergeSpec(a, b).Contents(), k) ==
              if k in b.Contents().keys then Get(b.Contents(), k) else Get(a.Contents(), k)
  {
    var pa, pb := a.Contents(), b.Contents();
    var kvs := Zip(pb);
    NewKeysOfUnique(pa.keys, pb.keys);
    if a.Len() == 0 {
      FilterNone(pb.keys, pa.keys);
      assert pa.keys == [];
      assert [] + pb.keys == pb.keys;
    } else if b.Len() == 0 {
      assert pb.keys == [] && pa.keys + [] == pa.keys;
    } else {
      PutAllKeys(pa, kvs);
      PutAllGet(pa, kvs, k);
      ZipLastVal(pb, k);
    }
  }

  lemma {:induction false} FilterNone(ks: seq<Text>, seen: seq<Text>)
    requires seen == []
    ensures Filter(ks, seen) == ks
  {
    if ks != [] {
      FilterNone(ks[..|ks| - 1], seen);
    }
  }

  /** In a map's own pairs, the last update of a key is its stored value. */
  lemma ZipLastVal(p: KVPairs, k: Text)
    requires p.Wf()
    ensures LastVal(Zip(p), k) == Get(p, k)
  {
    PutAllFresh(KVPairs([], []), Zip(p));
    PutAllGet(KVPairs([], []), Zip(p), k);
    var q := PutAll(KVPairs([], []), Zip(p));
    assert q.keys == p.keys && q.vals == p.vals;
  }

  /** The shortcuts return what the general case would have built. */
  lemma MergeShortcutsAgree(a: AMap, b: AMap)
    requires a.Wf() && b.Wf()
    ensures MergeSpec(a, b).Contents() == PutAll(a.Contents(), Zip(b.Contents()))
  {
    var pa, pb := a.Contents(), b.Contents();
    if a.Len() == 0 {
      PutAllFresh(pa, Zip(pb));
      assert pa.keys == [] && pa.vals == [];
      assert ValsOf(Zip(pb)) == pb.vals;
      assert PutAll(pa, Zip(pb)).keys == pb.keys;
      assert PutAll(pa, Zip(pb)).vals == pb.vals;
    } else if b.Len() == 0 {
      assert Zip(pb) == [];
    }
  }

  // ---------------------------------------------------------------------
  // AddPairs and Pairs
  // ---------------------------------------------------------------------

  /** The updates an argument list stands for: keys at even positions
   *  stringified by S, each followed by its value, or nil after a
   *  trailing key. */
  function ArgPairs(args: seq<Value>, show: Formatter): (kvs: seq<(Text, Value)>)
    ensures |kvs| == (|args| + 1) / 2
  {
    seq((|args| + 1) / 2, i requires 0 <= i < (|args| + 1) / 2 =>
      (S(args[2 * i], show), if 2 * i + 1 < |args| then args[2 * i + 1] else Nil))
  }

  lemma ArgPairsAt(args: seq<Value>, show: Formatter, i: nat)
    requires i < (|args| + 1) / 2
    ensures 2 * i < |args|
    ensures ArgPairs(args, show)[i] ==
              (S(args[2 * i], show), if 2 * i + 1 < |args| then args[2 * i + 1] else Nil)
  {
  }

  /** What `p.AddPairs(args...)` returns. */
  function AddPairsSpec(p: AMap, args: seq<Value>, show: Formatter): AMap
    requires p.Wf()
  {
    if args == [] then p else Ref(PutAll(p.Contents(), ArgPairs(args, show)))
  }

  /** AddPairs: the receiver itself when there are no arguments, otherwise
   *  a fresh map with the argument pairs applied to the receiver's. */
  method AddPairs(p: AMap, args: seq<Value>, show: Formatter) returns (r: AMap)
    requires p.Wf()
    ensures args == [] ==> r == p
    ensures r == AddPairsSpec(p, args, show)
  {
    var n := |args|;
    if n == 0 {
      return p;
    }
    n := (n + 1) / 2;
    var m := p.Len();
    var base := p.Contents();
    var keys, vals, idx := Allocate(base, m + n);
    var o := PutArgs(keys, vals, idx, base, args, show);
    r := Ref(KVPairs(keys[..o], vals[..o]));
  }

  /** The loop of AddPairs: the argument pairs applied one by one over the
   *  receiver's pairs at the front of the arrays. */
  method PutArgs(keys: array<Text>, vals: array<Value>, idx: map<Text, nat>, base: KVPairs,
                 args: seq<Value>, show: Formatter) returns (o: nat)
    requires base.Wf() && keys.Length == vals.Length == |base.keys| + (|args| + 1) / 2
    requires keys[..|base.keys|] == base.keys && vals[..|base.keys|] == base.vals
    requires IndexMap(idx, base.keys)
    modifies keys, vals
    ensures o <= keys.Length
    ensures keys[..o] == PutAll(base, ArgPairs(args, show)).keys
    ensures vals[..o] == PutAll(base, ArgPairs(args, show)).vals
  {
    ghost var kvs := ArgPairs(args, show);
    var n := (|args| + 1) / 2;
    var m := |base.keys|;
    var idx := idx;
    o := m;
    var i := 0;
    while i < n
      invariant 0 <= i <= n && m <= o <= m + i
      invariant keys[..o] == PutAll(base, kvs[..i]).keys
      invariant vals[..o] == PutAll(base, kvs[..i]).vals
      invariant IndexMap(idx, keys[..o])
    {
      var key, val := ArgAt(args, show, i);
      ghost var q := PutAll(base, kvs[..i]);
      PutAllSnoc(base, kvs, i);
      idx, o := Update(keys, vals, idx, o, q, key, val);
      i := i + 1;
    }
    assert kvs[..n] == kvs;
  }

  /** The key at `2i`, stringified, and the value after it or nil. */
  method ArgAt(args: seq<Value>, show: Formatter, i: nat) returns (key: Text, val: Value)
    requires i < (|args| + 1) / 2
    ensures (key, val) == ArgPairs(args, show)[i]
  {
    ArgPairsAt(args, show, i);
    key := S(args[2 * i], show);
    val := Nil;
    if 2 * i + 1 < |args| {
      val := args[2 * i + 1];
    }
  }

  /** Pairs(): a fresh map holding the argument pairs, or nil when there
   *  are none. */
  method MakePairs(args: seq<Value>, show: Formatter) returns (r: AMap)
    ensures r == AddPairsSpec(NilMap, args, show)
    ensures args == [] <==> r == NilMap
  {
    r := AddPairs(NilMap, args, show);
  }

  /** A repeated key keeps its first position and takes its last value;
   *  the receiver's keys keep their positions. */
  lemma AddPairsProperties(p: AMap, args: seq<Value>, show: Formatter, k: Text)
    requires p.Wf() && args != []
    ensures AddPairsSpec(p, args, show).Wf()
    ensures AddPairsSpec(p, args, show).Contents().keys ==
              p.Contents().keys + NewKeys(p.Contents().keys, KeysOf(ArgPairs(args, show)))
    ensures Get(AddPairsSpec(p, args, show).Contents(), k) ==
              if LastVal(ArgPairs(args, show), k).Some? then LastVal(ArgPairs(args, show), k)
              else Get(p.Contents(), k)
  {
    PutAllKeys(p.Contents(), ArgPairs(args, show));
    PutAllGet(p.Contents(), ArgPairs(args, show), k);
  }

  /** A trailing key without a value is paired with nil. */
  lemma ArgPairsOdd(args: seq<Value>, show: Formatter)
    requires |args| % 2 == 1
    ensures ArgPairs(args, show)[|args| / 2] == (S(args[|args| - 1], show), Nil)
  {
  }

  /** Stringified keys: a byte-slice key and a string key with the same
   *  bytes are the same key. */
  lemma ArgKeysAgree(args: seq<Value>, show: Formatter, i: nat)
    requires 2 * i < |args| && (args[2 * i].Str? || args[2 * i].ByteSlice?)
    ensures ArgPairs(args, show)[i].0 == if args[2 * i].Str? then args[2 * i].s else args[2 * i].bytes
  {
  }

  /** Pairs() of one key and value is the one-pair map. */
  lemma OnePair(k: Text, v: Value, show: Formatter)
    ensures AddPairsSpec(NilMap, [Str(k), v], show) == Ref(KVPairs([k], [v]))
  {
    var kvs := ArgPairs([Str(k), v], show);
    assert kvs[0] == (k, v);
    assert kvs[..0] == [];
    var p0 := KVPairs([], []);
    assert PutAll(p0, kvs) == Put(p0, k, v);
    assert Put(p0, k, v) == KVPairs([k], [v]);
  }
}
