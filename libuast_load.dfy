// UastLoad (uast/libuast/uast.h): the recursive copy of a node from one
// node interface into another. The source is the tree its handles stand
// for, read through Kind, Size, KeyAt, ValueAt and the As* accessors; the
// destination is any implementation of the constructors and setters of the
// interface, threading its own state. Two destinations are given: one that
// logs every call, used to state the order of the calls, and the Go store
// of libuast, as written and with tree handles resolved.
module LibuastLoad {
  import opened Wrappers
  import opened Nodes
  import LibuastGo

  // --------------------------------------------------------------- source

  /**
   * A source node as the source interface presents it: its kind, the keys
   * of an object (a key can be a C NULL), the children and the values.
   */
  datatype Src =
    | SNull
    | SObject(entries: seq<Entry>)
    | SArray(elems: seq<Src>)
    | SString(s: string)
    | SInt(i: int)
    | SUint(u: nat)
    | SFloat(bits: FloatBits)
    | SBool(b: bool)
    | SUnknown(kind: int)   // a kind outside the NodeKind constants

  datatype Entry = Entry(key: Option<string>, val: Src)

  predicate HasNullKey(es: seq<Entry>)
  {
    exists j :: 0 <= j < |es| && es[j].key.None?
  }

  // ---------------------------------------------------------- destination

  /** The constructors and setters of a destination interface over its state S; handles are nat, 0 is NULL. */
  datatype Dst<!S> = Dst(
    newObject: (S, nat) -> (S, nat),
    newArray: (S, nat) -> (S, nat),
    newString: (S, string) -> (S, nat),
    newInt: (S, int) -> (S, nat),
    newUint: (S, nat) -> (S, nat),
    newFloat: (S, FloatBits) -> (S, nat),
    newBool: (S, bool) -> (S, nat),
    setValue: (S, nat, nat, nat) -> S,
    setKeyValue: (S, nat, string, nat) -> S)

  // ----------------------------------------------------------------- load

  /** What UastLoad does to the destination and the handle it returns. */
  function Load<S>(src: Src, dst: Dst<S>, s: S): (S, nat)
    decreases src, 1
  {
    match src
    case SNull => (s, 0)
    case SObject(es) =>
      var (s1, m) := dst.newObject(s, |es|);
      LoadEntries(es, 0, m, dst, s1)
    case SArray(es) =>
      var (s1, m) := dst.newArray(s, |es|);
      LoadElems(es, 0, m, dst, s1)
    case SString(v) => dst.newString(s, v)
    case SInt(v) => dst.newInt(s, v)
    case SUint(v) => dst.newUint(s, v)
    case SFloat(v) => dst.newFloat(s, v)
    case SBool(v) => dst.newBool(s, v)
    case SUnknown(_) => (s, 0)
  }

  /** The object loop from key i on: a NULL key ends the copy with 0; each value is loaded and set under its key. */
  function LoadEntries<S>(es: seq<Entry>, i: nat, m: nat, dst: Dst<S>, s: S): (S, nat)
    requires i <= |es|
    decreases SObject(es), 0, |es| - i
  {
    if i == |es| then (s, m)
    else if es[i].key.None? then (s, 0)
    else
      var (s1, v) := Load(es[i].val, dst, s);
      LoadEntries(es, i + 1, m, dst, dst.setKeyValue(s1, m, es[i].key.value, v))
  }

  /** The array loop from index i on: each element is loaded and set at its index. */
  function LoadElems<S>(es: seq<Src>, i: nat, m: nat, dst: Dst<S>, s: S): (S, nat)
    requires i <= |es|
    decreases SArray(es), 0, |es| - i
  {
    if i == |es| then (s, m)
    else
      var (s1, v) := Load(es[i], dst, s);
      LoadElems(es, i + 1, m, dst, dst.setValue(s1, m, i, v))
  }

  /** UastLoad: the copy through the two interfaces, with its loops. */
  method UastLoad<S>(src: Src, dst: Dst<S>, s: S) returns (t: S, h: nat)
    ensures (t, h) == Load(src, dst, s)
    decreases src, 1
  {
    match src {
      case SNull => return s, 0;
      case SObject(es) =>
        var sz := |es|;
        var made := dst.newObject(s, sz);
        var m := made.1;
        t := made.0;
        var i := 0;
        while i < sz
          invariant 0 <= i <= sz
          invariant LoadEntries(es, i, m, dst, t) == Load(src, dst, s)
        {
          var k := es[i].key;
          if k.None? {
            return t, 0;
          }
          var v;
          t, v := UastLoad(es[i].val, dst, t);
          t := dst.setKeyValue(t, m, k.value, v);
          i := i + 1;
        }
        return t, m;
      case SArray(es) =>
        var sz := |es|;
        var made := dst.newArray(s, sz);
        var m := made.1;
        t := made.0;
        var i := 0;
        while i < sz
          invariant 0 <= i <= sz
          invariant LoadElems(es, i, m, dst, t) == Load(src, dst, s)
        {
          var v;
          t, v := UastLoad(es[i], dst, t);
          t := dst.setValue(t, m, i, v);
          i := i + 1;
        }
        return t, m;
      case SString(v) => t, h := dst.newString(s, v).0, dst.newString(s, v).1;
      case SInt(v) => t, h := dst.newInt(s, v).0, dst.newInt(s, v).1;
      case SUint(v) => t, h := dst.newUint(s, v).0, dst.newUint(s, v).1;
      case SFloat(v) => t, h := dst.newFloat(s, v).0, dst.newFloat(s, v).1;
      case SBool(v) => t, h := dst.newBool(s, v).0, dst.newBool(s, v).1;
      case SUnknown(_) => return s, 0;
    }
  }

  // ------------------------------------------------------ call recording

  /** One call of the destination interface. */
  datatype Call =
    | NewObjectCall(size: nat)
    | NewArrayCall(size: nat)
    | NewStringCall(s: string)
    | NewIntCall(i: int)
    | NewUintCall(u: nat)
    | NewFloatCall(bits: FloatBits)
    | NewBoolCall(b: bool)
    | SetValueCall(node: nat, index: nat, val: nat)
    | SetKeyValueCall(node: nat, key: string, val: nat)

  /** A constructor call is logged, and its handle is its position in the log plus one. */
  function Record(log: seq<Call>, c: Call): (r: (seq<Call>, nat))
  {
    (log + [c], |log| + 1)
  }

  /** A destination that only logs the calls made on it. */
  function Recorder(): Dst<seq<Call>>
  {
    Dst((l, sz) => Record(l, NewObjectCall(sz)),
        (l, sz) => Record(l, NewArrayCall(sz)),
        (l, v) => Record(l, NewStringCall(v)),
        (l, v) => Record(l, NewIntCall(v)),
        (l, v) => Record(l, NewUintCall(v)),
        (l, v) => Record(l, NewFloatCall(v)),
        (l, v) => Record(l, NewBoolCall(v)),
        (l, m, i, v) => l + [SetValueCall(m, i, v)],
        (l, m, k, v) => l + [SetKeyValueCall(m, k, v)])
  }

  /** The constructor a source node is copied with: the New* matching its kind, none for Null and unknown kinds. */
  function FirstCall(src: Src): Option<Call>
  {
    match src
    case SObject(es) => Some(NewObjectCall(|es|))
    case SArray(es) => Some(NewArrayCall(|es|))
    case SString(v) => Some(NewStringCall(v))
    case SInt(v) => Some(NewIntCall(v))
    case SUint(v) => Some(NewUintCall(v))
    case SFloat(v) => Some(NewFloatCall(v))
    case SBool(v) => Some(NewBoolCall(v))
    case _ => None
  }

  predicate IsScalar(src: Src)
  {
    src.SString? || src.SInt? || src.SUint? || src.SFloat? || src.SBool?
  }

  /** Every setter call targets a handle above b. */
  predicate SetsAbove(calls: seq<Call>, b: nat)
  {
    forall c :: c in calls && (c.SetValueCall? || c.SetKeyValueCall?) ==> c.node > b
  }

  /** The keys of the SetKeyValue calls on node m, in order. */
  function SetKeys(calls: seq<Call>, m: nat): seq<string>
  {
    if calls == [] then []
    else (if calls[0].SetKeyValueCall? && calls[0].node == m then [calls[0].key] else []) + SetKeys(calls[1..], m)
  }

  /** The indices of the SetValue calls on node m, in order. */
  function SetIndices(calls: seq<Call>, m: nat): seq<nat>
  {
    if calls == [] then []
    else (if calls[0].SetValueCall? && calls[0].node == m then [calls[0].index] else []) + SetIndices(calls[1..], m)
  }

  /** The keys of an object up to its first NULL key. */
  function KeysBeforeNull(es: seq<Entry>): seq<string>
  {
    if es == [] || es[0].key.None? then [] else [es[0].key.value] + KeysBeforeNull(es[1..])
  }

  /** lo, lo + 1, ..., hi - 1. */
  function Range(lo: nat, hi: nat): seq<nat>
    decreases hi - lo
  {
    if lo >= hi then [] else [lo] + Range(lo + 1, hi)
  }

  lemma {:induction false} SetKeysAppend(a: seq<Call>, b: seq<Call>, m: nat)
    ensures SetKeys(a + b, m) == SetKeys(a, m) + SetKeys(b, m)
    ensures SetIndices(a + b, m) == SetIndices(a, m) + SetIndices(b, m)
  {
    KeysAppend(a, b, m);
    IndicesAppend(a, b, m);
  }

  lemma {:induction false} KeysAppend(a: seq<Call>, b: seq<Call>, m: nat)
    ensures SetKeys(a + b, m) == SetKeys(a, m) + SetKeys(b, m)
  {
    if a == [] {
      assert a + b == b;
    } else {
      assert (a + b)[0] == a[0];
      assert (a + b)[1..] == a[1..] + b;
      KeysAppend(a[1..], b, m);
    }
  }

  lemma {:induction false} IndicesAppend(a: seq<Call>, b: seq<Call>, m: nat)
    ensures SetIndices(a + b, m) == SetIndices(a, m) + SetIndices(b, m)
  {
    if a == [] {
      assert a + b == b;
    } else {
      assert (a + b)[0] == a[0];
      assert (a + b)[1..] == a[1..] + b;
      IndicesAppend(a[1..], b, m);
    }
  }

  /** A node m at or below b gets no setter call from calls that only target handles above b. */
  lemma {:induction false} SetsAboveNone(calls: seq<Call>, b: nat, m: nat)
    requires SetsAbove(calls, b) && m <= b
    ensures SetKeys(calls, m) == [] && SetIndices(calls, m) == []
  {
    if calls != [] {
      assert calls[0] in calls;
      assert forall c | c in calls[1..] :: c in calls;
      SetsAboveNone(calls[1..], b, m);
    }
  }

  lemma {:induction false} NullKeyShift(es: seq<Entry>, i: nat)
    requires i < |es| && es[i].key.Some?
    ensures HasNullKey(es[i..]) <==> HasNullKey(es[i + 1..])
    ensures KeysBeforeNull(es[i..]) == [es[i].key.value] + KeysBeforeNull(es[i + 1..])
  {
    assert es[i..][1..] == es[i + 1..];
    if HasNullKey(es[i..]) {
      var j :| 0 <= j < |es[i..]| && es[i..][j].key.None?;
      assert es[i + 1..][j - 1] == es[i..][j];
    }
    if HasNullKey(es[i + 1..]) {
      var j :| 0 <= j < |es[i + 1..]| && es[i + 1..][j].key.None?;
      assert es[i..][j + 1] == es[i + 1..][j];
    }
  }

  /** l is log followed by calls whose setters only target handles above b. */
  predicate Grows(log: seq<Call>, l: seq<Call>, b: nat)
  {
    |log| <= |l| && l[..|log|] == log && SetsAbove(l[|log|..], b)
  }

  /** One step of the object loop on the recording destination. */
  lemma {:induction false} EntriesStep(es: seq<Entry>, i: nat, m: nat, log: seq<Call>)
    requires i < |es| && es[i].key.Some?
    ensures var (l1, v) := Load(es[i].val, Recorder(), log);
      LoadEntries(es, i, m, Recorder(), log) == LoadEntries(es, i + 1, m, Recorder(), l1 + [SetKeyValueCall(m, es[i].key.value, v)])
  {
  }

  /** One step of the array loop on the recording destination. */
  lemma {:induction false} ElemsStep(es: seq<Src>, i: nat, m: nat, log: seq<Call>)
    requires i < |es|
    ensures var (l1, v) := Load(es[i], Recorder(), log);
      LoadElems(es, i, m, Recorder(), log) == LoadElems(es, i + 1, m, Recorder(), l1 + [SetValueCall(m, i, v)])
  {
  }

  /** A child's calls, one setter on the parent m, then the rest of the loop. */
  lemma {:induction false} GrowsThen(log: seq<Call>, l1: seq<Call>, c: Call, l: seq<Call>, m: nat)
    requires 0 < m <= |log| && (c.SetValueCall? || c.SetKeyValueCall?) && c.node == m
    requires Grows(log, l1, |log|) && Grows(l1 + [c], l, m - 1)
    ensures Grows(log, l, m - 1)
    ensures l[|log|..] == l1[|log|..] + [c] + l[|l1| + 1..]
  {
    var c1 := l1[|log|..];
    var c2 := l[|l1| + 1..];
    assert l == l1 + [c] + c2;
    assert l1 == log + c1;
    assert l[|log|..] == c1 + [c] + c2;
    assert l[..|log|] == log;
  }

  /**
   * A load appends to the log and nothing else; its setters only target
   * nodes this load made. Null and unknown kinds make no call and return 0.
   */
  lemma {:induction false} LoadFrame(src: Src, log: seq<Call>)
    ensures Grows(log, Load(src, Recorder(), log).0, |log|)
    ensures FirstCall(src).None? ==> Load(src, Recorder(), log) == (log, 0)
    decreases src, 1
  {
    match src
    case SObject(es) =>
      var log1 := log + [NewObjectCall(|es|)];
      EntriesFrame(es, 0, |log| + 1, log1);
      var l := LoadEntries(es, 0, |log| + 1, Recorder(), log1).0;
      assert l[|log|..] == [NewObjectCall(|es|)] + l[|log1|..];
    case SArray(es) =>
      var log1 := log + [NewArrayCall(|es|)];
      ElemsFrame(es, 0, |log| + 1, log1);
      var l := LoadElems(es, 0, |log| + 1, Recorder(), log1).0;
      assert l[|log|..] == [NewArrayCall(|es|)] + l[|log1|..];
    case _ =>
  }

  lemma {:induction false} EntriesFrame(es: seq<Entry>, i: nat, m: nat, log: seq<Call>)
    requires i <= |es| && 0 < m <= |log|
    ensures Grows(log, LoadEntries(es, i, m, Recorder(), log).0, m - 1)
    decreases SObject(es), 0, |es| - i
  {
    if i < |es| && es[i].key.Some? {
      LoadFrame(es[i].val, log);
      var (l1, v) := Load(es[i].val, Recorder(), log);
      var c := SetKeyValueCall(m, es[i].key.value, v);
      EntriesStep(es, i, m, log);
      EntriesFrame(es, i + 1, m, l1 + [c]);
      GrowsThen(log, l1, c, LoadEntries(es, i + 1, m, Recorder(), l1 + [c]).0, m);
    }
  }

  lemma {:induction false} ElemsFrame(es: seq<Src>, i: nat, m: nat, log: seq<Call>)
    requires i <= |es| && 0 < m <= |log|
    ensures Grows(log, LoadElems(es, i, m, Recorder(), log).0, m - 1)
    decreases SArray(es), 0, |es| - i
  {
    if i < |es| {
      LoadFrame(es[i], log);
      var (l1, v) := Load(es[i], Recorder(), log);
      var c := SetValueCall(m, i, v);
      ElemsStep(es, i, m, log);
      ElemsFrame(es, i + 1, m, l1 + [c]);
      GrowsThen(log, l1, c, LoadElems(es, i + 1, m, Recorder(), l1 + [c]).0, m);
    }
  }

  /** The object loop sets the keys in source order up to the first NULL key, and returns 0 exactly when there is one. */
  lemma {:induction false} EntriesKeys(es: seq<Entry>, i: nat, m: nat, log: seq<Call>)
    requires i <= |es| && 0 < m <= |log|
    ensures var (l, h) := LoadEntries(es, i, m, Recorder(), log);
      |log| <= |l| && SetKeys(l[|log|..], m) == KeysBeforeNull(es[i..]) && h == (if HasNullKey(es[i..]) then 0 else m)
    decreases |es| - i
  {
    if i == |es| {
      assert !HasNullKey(es[i..]);
    } else if es[i].key.None? {
      assert es[i..][0] == es[i];
    } else {
      LoadFrame(es[i].val, log);
      var (l1, v) := Load(es[i].val, Recorder(), log);
      var c := SetKeyValueCall(m, es[i].key.value, v);
      EntriesFrame(es, i + 1, m, l1 + [c]);
      EntriesKeys(es, i + 1, m, l1 + [c]);
      var (l, h) := LoadEntries(es, i + 1, m, Recorder(), l1 + [c]);
      EntryKeysStep(es, i, m, log, l1, v, l, h);
    }
  }

  /** One step of EntriesKeys: the key of entry i, then the keys the rest of the loop sets. */
  lemma {:induction false} EntryKeysStep(es: seq<Entry>, i: nat, m: nat, log: seq<Call>, l1: seq<Call>, v: nat, l: seq<Call>, h: nat)
    requires i < |es| && es[i].key.Some? && 0 < m <= |log|
    requires (l1, v) == Load(es[i].val, Recorder(), log) && Grows(log, l1, |log|)
    requires (l, h) == LoadEntries(es, i + 1, m, Recorder(), l1 + [SetKeyValueCall(m, es[i].key.value, v)])
    requires Grows(l1 + [SetKeyValueCall(m, es[i].key.value, v)], l, m - 1)
    requires SetKeys(l[|l1| + 1..], m) == KeysBeforeNull(es[i + 1..]) && h == (if HasNullKey(es[i + 1..]) then 0 else m)
    ensures LoadEntries(es, i, m, Recorder(), log) == (l, h)
    ensures |log| <= |l| && SetKeys(l[|log|..], m) == KeysBeforeNull(es[i..]) && h == (if HasNullKey(es[i..]) then 0 else m)
  {
    EntriesStep(es, i, m, log);
    SetterThen(log, l1, SetKeyValueCall(m, es[i].key.value, v), l, m);
    NullKeyShift(es, i);
  }

  /**
   * The calls a loop step adds for parent m: the child's calls, which set
   * nothing on m, one setter on m, then the rest of the loop.
   */
  lemma {:induction false} SetterThen(log: seq<Call>, l1: seq<Call>, c: Call, l: seq<Call>, m: nat)
    requires 0 < m <= |log| && (c.SetValueCall? || c.SetKeyValueCall?) && c.node == m
    requires Grows(log, l1, |log|) && Grows(l1 + [c], l, m - 1)
    ensures |log| <= |l1| < |l|
    ensures SetKeys(l[|log|..], m) == (if c.SetKeyValueCall? then [c.key] else []) + SetKeys(l[|l1| + 1..], m)
    ensures SetIndices(l[|log|..], m) == (if c.SetValueCall? then [c.index] else []) + SetIndices(l[|l1| + 1..], m)
  {
    GrowsThen(log, l1, c, l, m);
    var c1 := l1[|log|..];
    var rest := l[|l1| + 1..];
    SetsAboveNone(c1, |log|, m);
    SetKeysAppend(c1 + [c], rest, m);
    SetKeysAppend(c1, [c], m);
    assert [c][1..] == [];
  }

  /** The array loop sets indices i to the size, in order. */
  lemma {:induction false} ElemsIndices(es: seq<Src>, i: nat, m: nat, log: seq<Call>)
    requires i <= |es| && 0 < m <= |log|
    ensures var (l, h) := LoadElems(es, i, m, Recorder(), log);
      |log| <= |l| && SetIndices(l[|log|..], m) == Range(i, |es|) && h == m
    decreases |es| - i
  {
    if i < |es| {
      LoadFrame(es[i], log);
      var (l1, v) := Load(es[i], Recorder(), log);
      var c := SetValueCall(m, i, v);
      ElemsStep(es, i, m, log);
      ElemsFrame(es, i + 1, m, l1 + [c]);
      ElemsIndices(es, i + 1, m, l1 + [c]);
      var (l, h) := LoadElems(es, i + 1, m, Recorder(), l1 + [c]);
      assert LoadElems(es, i, m, Recorder(), log) == (l, h);
      SetterThen(log, l1, c, l, m);
      assert Range(i, |es|) == [i] + Range(i + 1, |es|);
    }
  }

  /**
   * Copying an object: the first call makes an object of the source's
   * size; then SetKeyValue is called on it for the keys in source order up
   * to the first NULL key, which makes the load return 0 while the keys set
   * before it stay set.
   */
  lemma {:induction false} LoadObjectCalls(es: seq<Entry>, log: seq<Call>)
    ensures var (l, h) := Load(SObject(es), Recorder(), log);
      |log| < |l| && l[|log|] == NewObjectCall(|es|) &&
      SetKeys(l[|log| + 1..], |log| + 1) == KeysBeforeNull(es) &&
      h == (if HasNullKey(es) then 0 else |log| + 1)
  {
    var log1 := log + [NewObjectCall(|es|)];
    assert Load(SObject(es), Recorder(), log) == LoadEntries(es, 0, |log| + 1, Recorder(), log1);
    EntriesFrame(es, 0, |log| + 1, log1);
    EntriesKeys(es, 0, |log| + 1, log1);
    assert es[0..] == es;
  }

  /** Copying an array: the first call makes an array of the source's size; then SetValue on it at indices 0 to the size, in order. */
  lemma {:induction false} LoadArrayCalls(es: seq<Src>, log: seq<Call>)
    ensures var (l, h) := Load(SArray(es), Recorder(), log);
      |log| < |l| && l[|log|] == NewArrayCall(|es|) &&
      SetIndices(l[|log| + 1..], |log| + 1) == Range(0, |es|) && h == |log| + 1
  {
    var log1 := log + [NewArrayCall(|es|)];
    assert Load(SArray(es), Recorder(), log) == LoadElems(es, 0, |log| + 1, Recorder(), log1);
    ElemsFrame(es, 0, |log| + 1, log1);
    ElemsIndices(es, 0, |log| + 1, log1);
  }

  /** Copying a value is the one constructor call of its kind, with the source's value. */
  lemma {:induction false} LoadScalarCall(src: Src, log: seq<Call>)
    requires IsScalar(src)
    ensures Load(src, Recorder(), log) == (log + [FirstCall(src).value], |log| + 1)
  {
  }

  // --------------------------------------------------------------- meaning

  /**
   * The tree a source node stands for: nil for Null, for unknown kinds and
   * for objects with a NULL key (their copy is handle 0); a repeated key
   * keeps its last value.
   */
  function Denote(src: Src): Node
    decreases src, 1
  {
    match src
    case SNull => Null
    case SObject(es) => if HasNullKey(es) then Null else Obj(DenoteFields(es, |es|))
    case SArray(es) => Arr(DenoteElems(es, |es|))
    case SString(v) => Str(v)
    case SInt(v) => Int(v)
    case SUint(v) => Uint(v)
    case SFloat(v) => Float(v)
    case SBool(v) => Bool(v)
    case SUnknown(_) => Null
  }

  /** The fields of the first n entries, later entries winning. */
  function DenoteFields(es: seq<Entry>, n: nat): map<string, Node>
    requires n <= |es| && forall j :: 0 <= j < n ==> es[j].key.Some?
    decreases SObject(es), 0, n
  {
    if n == 0 then map[] else DenoteFields(es, n - 1)[es[n - 1].key.value := Denote(es[n - 1].val)]
  }

  function DenoteElems(es: seq<Src>, n: nat): (r: seq<Node>)
    requires n <= |es|
    ensures |r| == n
    decreases SArray(es), 0, n
  {
    if n == 0 then [] else DenoteElems(es, n - 1) + [Denote(es[n - 1])]
  }

  function Nulls(n: nat): (r: seq<Node>)
    ensures |r| == n && forall j :: 0 <= j < n ==> r[j] == Null
  {
    seq(n, _ => Null)
  }

  // ------------------------------------------------------ the Go store

  type Arena = LibuastGo.Arena

  /** The state of the Go store as a destination: a panic ends the process, so a panicked state stays. */
  type GoState = Result<Arena, LibuastGo.Panic>

  function GoNewObject(s: GoState, sz: nat): (GoState, nat)
  {
    if s.Err? then (s, 0) else var (a, h) := s.value.NewObject(sz); (Ok(a), h)
  }

  function GoNewArray(s: GoState, sz: nat): (GoState, nat)
  {
    if s.Err? then (s, 0) else var (a, h) := s.value.NewArray(sz); (Ok(a), h)
  }

  /** uastNewString and the other value constructors: the value registered through toNode. */
  function GoNewValue(s: GoState, v: Node): (GoState, nat)
  {
    if s.Err? then (s, 0) else var (a, h) := s.value.ToHandle(v); (Ok(a), h)
  }

  function GoSetValue(s: GoState, m: nat, i: nat, v: nat): GoState
  {
    if s.Err? then s else s.value.SetValue(m, i, v)
  }

  function GoSetKeyValue(s: GoState, m: nat, k: string, v: nat): GoState
  {
    if s.Err? then s else s.value.SetKeyValue(m, k, v)
  }

  /** The exported uast* functions of the Go side, as written. */
  function GoDst(): Dst<GoState>
  {
    Dst((s, sz) => GoNewObject(s, sz), (s, sz) => GoNewArray(s, sz),
        (s, v) => GoNewValue(s, Str(v)), (s, v) => GoNewValue(s, Int(v)), (s, v) => GoNewValue(s, Uint(v)),
        (s, v) => GoNewValue(s, Float(v)), (s, v) => GoNewValue(s, Bool(v)),
        (s, m, i, v) => GoSetValue(s, m, i, v), (s, m, k, v) => GoSetKeyValue(s, m, k, v))
  }

  /** uastSetValue with the value handle resolved through temporary nodes as well. */
  function FixedSetValue(s: GoState, m: nat, i: nat, v: nat): GoState
  {
    if s.Err? || m !in s.value.tmp then s
    else
      var n := s.value.Resolve(v);
      s.value.PutElem(m, i, if n == Null then None else Some(n))
  }

  /** uastSetKeyValue with the value handle resolved through temporary nodes as well. */
  function FixedSetKeyValue(s: GoState, m: nat, k: string, v: nat): GoState
  {
    if s.Err? || m !in s.value.tmp then s else s.value.PutKey(m, k, s.value.Resolve(v))
  }

  /** The Go side with the setters resolving handles of temporary nodes, as loading into Go memory needs. */
  function FixedGoDst(): Dst<GoState>
  {
    Dst((s, sz) => GoNewObject(s, sz), (s, sz) => GoNewArray(s, sz),
        (s, v) => GoNewValue(s, Str(v)), (s, v) => GoNewValue(s, Int(v)), (s, v) => GoNewValue(s, Uint(v)),
        (s, v) => GoNewValue(s, Float(v)), (s, v) => GoNewValue(s, Bool(v)),
        (s, m, i, v) => FixedSetValue(s, m, i, v), (s, m, k, v) => FixedSetKeyValue(s, m, k, v))
  }

  /**
   * As written, copying {"a": {}} into a fresh Go store returns a handle
   * that AsNode cannot resolve, and the nested object was stored as nil,
   * since its handle is a temporary one too.
   */
  lemma {:induction false} LoadIntoGoLosesObjects(src: Src)
    requires src == SObject([Entry(Some("a"), SObject([]))])
    ensures Denote(src) == Obj(map["a" := Obj(map[])])
    ensures var (s, h) := Load(src, GoDst(), Ok(LibuastGo.EmptyArena));
      s.Ok? && h == 1 && s.value.AsNode(h).None? && s.value.tmp[1] == LibuastGo.TmpObj(map["a" := Null])
  {
    var es := src.entries;
    var inner: seq<Entry> := [];
    assert !HasNullKey(es);
    assert !HasNullKey(inner);
    assert DenoteFields(es, 1) == map["a" := Obj(map[])];
    var a1 := LibuastGo.Arena(1, map[], map[1 := LibuastGo.TmpObj(map[])]);
    var a2 := LibuastGo.Arena(2, map[], map[1 := LibuastGo.TmpObj(map[]), 2 := LibuastGo.TmpObj(map[])]);
    var a3 := a2.(tmp := a2.tmp[1 := LibuastGo.TmpObj(map["a" := Null])]);
    assert LibuastGo.EmptyArena.NewObject(1) == (a1, 1);
    assert GoDst().newObject(Ok(LibuastGo.EmptyArena), |es|) == (Ok(a1), 1);
    assert Load(src, GoDst(), Ok(LibuastGo.EmptyArena)) == LoadEntries(es, 0, 1, GoDst(), Ok(a1));
    assert a1.NewObject(0) == (a2, 2);
    assert GoDst().newObject(Ok(a1), 0) == (Ok(a2), 2);
    assert Load(SObject(inner), GoDst(), Ok(a1)) == (Ok(a2), 2);
    assert GoSetKeyValue(Ok(a2), 1, "a", 2) == Ok(a3);
    assert LoadEntries(es, 0, 1, GoDst(), Ok(a1)) == LoadEntries(es, 1, 1, GoDst(), Ok(a3));
  }

  lemma {:induction false} FixedEntriesStep(es: seq<Entry>, i: nat, m: nat, s: GoState)
    requires i < |es| && es[i].key.Some?
    ensures var (s1, v) := Load(es[i].val, FixedGoDst(), s);
      LoadEntries(es, i, m, FixedGoDst(), s) == LoadEntries(es, i + 1, m, FixedGoDst(), FixedSetKeyValue(s1, m, es[i].key.value, v))
  {
  }

  lemma {:induction false} FixedElemsStep(es: seq<Src>, i: nat, m: nat, s: GoState)
    requires i < |es|
    ensures var (s1, v) := Load(es[i], FixedGoDst(), s);
      LoadElems(es, i, m, FixedGoDst(), s) == LoadElems(es, i + 1, m, FixedGoDst(), FixedSetValue(s1, m, i, v))
  {
  }

  lemma {:induction false} FixedKeyStep(b: Arena, m: nat, k: string, v: nat, t: LibuastGo.TmpNode)
    requires m in b.tmp && b.tmp[m].TmpObj? && t == LibuastGo.TmpObj(b.tmp[m].obj[k := b.Resolve(v)])
    ensures FixedSetKeyValue(Ok(b), m, k, v) == Ok(b.(tmp := b.tmp[m := t]))
  {
  }

  lemma {:induction false} FixedElemStep(b: Arena, m: nat, i: nat, v: nat, t: LibuastGo.TmpNode)
    requires m in b.tmp && b.tmp[m].TmpArr? && i < |b.tmp[m].arr|
    requires t == LibuastGo.TmpArr(if b.Resolve(v) == Null then b.tmp[m].arr else b.tmp[m].arr[i := b.Resolve(v)])
    ensures FixedSetValue(Ok(b), m, i, v) == Ok(b.(tmp := b.tmp[m := t]))
  {
    if b.Resolve(v) == Null {
      assert b.tmp[m := t] == b.tmp;
    }
  }

  /** Setting element i of the partly copied array. */
  lemma {:induction false} ElemsSnoc(es: seq<Src>, i: nat)
    requires i < |es|
    ensures (DenoteElems(es, i) + Nulls(|es| - i))[i := Denote(es[i])] == DenoteElems(es, i + 1) + Nulls(|es| - i - 1)
    ensures Denote(es[i]) == Null ==> DenoteElems(es, i) + Nulls(|es| - i) == DenoteElems(es, i + 1) + Nulls(|es| - i - 1)
  {
    var x := DenoteElems(es, i) + Nulls(|es| - i);
    var y := DenoteElems(es, i + 1) + Nulls(|es| - i - 1);
    assert DenoteElems(es, i + 1) == DenoteElems(es, i) + [Denote(es[i])];
    assert forall j | 0 <= j < |es| && j != i :: x[j] == y[j];
    assert y[i] == Denote(es[i]);
  }

  /**
   * With the setters resolving handles of temporary nodes, loading into the
   * Go store never panics, keeps everything the store had, and the returned
   * handle stands for the tree the source node stands for.
   */
  lemma {:induction false} LoadFixed(src: Src, a: Arena)
    requires a.Valid()
    ensures var (s, h) := Load(src, FixedGoDst(), Ok(a));
      s.Ok? && s.value.Valid() && a.Keeps(s.value) && s.value.Resolve(h) == Denote(src)
    decreases src, 1
  {
    match src
    case SObject(es) =>
      var (a1, m) := a.NewObject(|es|);
      assert Load(src, FixedGoDst(), Ok(a)) == LoadEntries(es, 0, m, FixedGoDst(), Ok(a1));
      LoadEntriesFixed(es, 0, m, a, a1);
    case SArray(es) =>
      var (a1, m) := a.NewArray(|es|);
      assert a1.tmp[m].arr == DenoteElems(es, 0) + Nulls(|es|);
      assert Load(src, FixedGoDst(), Ok(a)) == LoadElems(es, 0, m, FixedGoDst(), Ok(a1));
      LoadElemsFixed(es, 0, m, a, a1);
    case _ =>
  }

  lemma {:induction false} LoadEntriesFixed(es: seq<Entry>, i: nat, m: nat, a0: Arena, ai: Arena)
    requires i <= |es| && forall j :: 0 <= j < i ==> es[j].key.Some?
    requires a0.Valid() && ai.Valid() && a0.Keeps(ai) && m == a0.last + 1
    requires m in ai.tmp && ai.tmp[m] == LibuastGo.TmpObj(DenoteFields(es, i))
    ensures var (s, h) := LoadEntries(es, i, m, FixedGoDst(), Ok(ai));
      s.Ok? && s.value.Valid() && a0.Keeps(s.value) && s.value.Resolve(h) == Denote(SObject(es))
    decreases SObject(es), 0, |es| - i
  {
    if i == |es| {
      assert !HasNullKey(es);
    } else if es[i].key.None? {
      assert HasNullKey(es);
    } else {
      LoadFixed(es[i].val, ai);
      var (s1, v) := Load(es[i].val, FixedGoDst(), Ok(ai));
      var a2 := EntryStored(es, i, m, a0, ai, s1.value, v);
      FixedEntriesStep(es, i, m, Ok(ai));
      LoadEntriesFixed(es, i + 1, m, a0, a2);
    }
  }

  /** Storing the copied value of entry i under its key in the partly copied object. */
  lemma {:induction false} EntryStored(es: seq<Entry>, i: nat, m: nat, a0: Arena, ai: Arena, b: Arena, v: nat)
      returns (a2: Arena)
    requires i < |es| && forall j :: 0 <= j <= i ==> es[j].key.Some?
    requires a0.Valid() && ai.Valid() && a0.Keeps(ai) && m == a0.last + 1
    requires m in ai.tmp && ai.tmp[m] == LibuastGo.TmpObj(DenoteFields(es, i))
    requires b.Valid() && ai.Keeps(b) && b.Resolve(v) == Denote(es[i].val)
    ensures FixedSetKeyValue(Ok(b), m, es[i].key.value, v) == Ok(a2)
    ensures a2.Valid() && a0.Keeps(a2) && m in a2.tmp && a2.tmp[m] == LibuastGo.TmpObj(DenoteFields(es, i + 1))
  {
    LibuastGo.KeepsTrans(a0, ai, b);
    var t := LibuastGo.TmpObj(DenoteFields(es, i + 1));
    a2 := b.(tmp := b.tmp[m := t]);
    FixedKeyStep(b, m, es[i].key.value, v, t);
    LibuastGo.KeepsTmpAbove(a0, b, m, t);
    LibuastGo.ValidTmpUpdate(b, m, t);
  }

  lemma {:induction false} LoadElemsFixed(es: seq<Src>, i: nat, m: nat, a0: Arena, ai: Arena)
    requires i <= |es|
    requires a0.Valid() && ai.Valid() && a0.Keeps(ai) && m == a0.last + 1
    requires m in ai.tmp && ai.tmp[m] == LibuastGo.TmpArr(DenoteElems(es, i) + Nulls(|es| - i))
    ensures var (s, h) := LoadElems(es, i, m, FixedGoDst(), Ok(ai));
      s.Ok? && s.value.Valid() && a0.Keeps(s.value) && s.value.Resolve(h) == Denote(SArray(es))
    decreases SArray(es), 0, |es| - i
  {
    if i == |es| {
      assert DenoteElems(es, i) + Nulls(|es| - i) == DenoteElems(es, |es|);
    } else {
      LoadFixed(es[i], ai);
      var (s1, v) := Load(es[i], FixedGoDst(), Ok(ai));
      var b := s1.value;
      LibuastGo.KeepsTrans(a0, ai, b);
      ElemsSnoc(es, i);
      var t := LibuastGo.TmpArr(DenoteElems(es, i + 1) + Nulls(|es| - i - 1));
      var a2 := b.(tmp := b.tmp[m := t]);
      assert b.tmp[m] == ai.tmp[m];
      assert b.Resolve(v) == Denote(es[i]);
      FixedElemStep(b, m, i, v, t);
      LibuastGo.KeepsTmpAbove(a0, b, m, t);
      LibuastGo.ValidTmpUpdate(b, m, t);
      FixedElemsStep(es, i, m, Ok(ai));
      LoadElemsFixed(es, i + 1, m, a0, a2);
    }
  }
}
