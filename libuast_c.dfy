// The C side of libuast: nodes that live in the client's memory and are
// reached only through the callbacks of the client's NodeIface. The Go
// wrappers cache what they read: the sorted keys of an object, the size of
// an array and the value of a scalar.
module LibuastC {
  import opened Wrappers
  import opened Nodes
  import Strings
  import Sorting

  /**
   * A client's NodeIface as the Go side reads it: the answer of each
   * callback for each handle. A NULL C string is None.
   */
  datatype Client = Client(
    kind: nat -> int,
    size: nat -> nat,
    keyAt: (nat, nat) -> Option<string>,
    valueAt: (nat, nat) -> nat,
    asString: nat -> Option<string>,
    asInt: nat -> int,
    asUint: nat -> nat,
    asFloat: nat -> FloatBits,
    asBool: nat -> bool)

  /** The NodeKind enumeration: the position of each kind in it. */
  function KindCode(k: Kind): (c: nat)
    ensures c < 8
  {
    match k
    case KindNil => 0
    case KindObject => 1
    case KindArray => 2
    case KindString => 3
    case KindInt => 4
    case KindUint => 5
    case KindFloat => 6
    case KindBool => 7
  }

  /** kindToGo: the Go kind of a C NodeKind value; None outside the enumeration. */
  function KindToGo(c: int): (r: Option<Kind>)
  {
    if c == 0 then Some(KindNil)
    else if c == 1 then Some(KindObject)
    else if c == 2 then Some(KindArray)
    else if c == 3 then Some(KindString)
    else if c == 4 then Some(KindInt)
    else if c == 5 then Some(KindUint)
    else if c == 6 then Some(KindFloat)
    else if c == 7 then Some(KindBool)
    else None
  }

  /** The table of kindToGo is the inverse of the enumeration, both ways. */
  lemma {:induction false} KindToGoCode(c: int, k: Kind)
    ensures KindToGo(c) == Some(k) <==> KindCode(k) == c
    ensures KindToGo(c).Some? <==> 0 <= c < 8
  {
  }

  /** C.GoString: a NULL C string reads as "". */
  function GoString(s: Option<string>): (r: string)
    ensures s.Some? ==> r == s.value
    ensures s.None? ==> r == ""
  {
    if s.None? then "" else s.value
  }

  /**
   * The kind of the wrapper asNode gives a handle: none for handle 0 and
   * for a null or unknown kind, otherwise the kind the client reports.
   */
  function WrapKind(cl: Client, h: nat): (r: Option<Kind>)
    ensures r.Some? <==> h != 0 && 0 < cl.kind(h) < 8
    ensures r.Some? ==> KindCode(r.value) == cl.kind(h) && r.value != KindNil
  {
    if h == 0 then None
    else match KindToGo(cl.kind(h))
      case None => None
      case Some(k) => if k == KindNil then None else Some(k)
  }

  /** A Go wrapper of a client node. */
  datatype CRef = ObjRef(o: CObject) | ArrRef(a: CArray) | ValRef(v: CValue)

  function RefHandle(r: CRef): nat
  {
    match r
    case ObjRef(o) => o.h
    case ArrRef(a) => a.h
    case ValRef(v) => v.h
  }

  function RefKind(r: CRef): Kind
  {
    match r
    case ObjRef(_) => KindObject
    case ArrRef(_) => KindArray
    case ValRef(v) => v.kind
  }

  function RefObject(r: CRef): object
  {
    match r
    case ObjRef(o) => o
    case ArrRef(a) => a
    case ValRef(v) => v
  }

  /** r is what asNode makes of handle h: the wrapper of the right kind, with nothing cached yet. */
  ghost predicate Made(cl: Client, h: nat, r: Option<CRef>)
    reads if r.Some? then {RefObject(r.value)} else {}
  {
    (r.None? <==> WrapKind(cl, h).None?) &&
    (r.Some? ==>
      RefHandle(r.value) == h && RefKind(r.value) == WrapKind(cl, h).value &&
      match r.value
      case ObjRef(o) => o.cl == cl && o.keys.None? && o.ind.None?
      case ArrRef(a) => a.cl == cl && a.sz == -1 && a.queries == 0
      case ValRef(v) => v.cl == cl && v.val.None?)
  }

  /** cNodes.asNode: a fresh wrapper for the handle, or nil. */
  method AsNode(cl: Client, h: nat) returns (r: Option<CRef>)
    ensures Made(cl, h, r)
    ensures r.Some? ==> fresh(RefObject(r.value))
  {
    var k := WrapKind(cl, h);
    if k.None? {
      return None;
    }
    if k.value == KindObject {
      var o := new CObject(cl, h);
      r := Some(ObjRef(o));
    } else if k.value == KindArray {
      var a := new CArray(cl, h);
      r := Some(ArrRef(a));
    } else {
      var v := new CValue(cl, h, k.value);
      r := Some(ValRef(v));
    }
  }

  /** cTmpNode.Build: the node under the same handle the temporary node had. */
  method TmpBuild(cl: Client, h: nat) returns (r: Option<CRef>)
    ensures Made(cl, h, r) && (r.Some? ==> RefHandle(r.value) == h)
    ensures r.Some? ==> fresh(RefObject(r.value))
  {
    r := AsNode(cl, h);
  }

  // ----------------------------------------------------------- sorting keys

  /** 0, 1, ..., n - 1. */
  function Range(n: nat): (r: seq<nat>)
    ensures |r| == n && forall i :: 0 <= i < n ==> r[i] == i
  {
    seq(n, i => i)
  }

  /** Pairs of a key and its original index, as offsSort keeps them. */
  function Zip(ks: seq<string>, ind: seq<nat>): (r: seq<(string, nat)>)
    requires |ks| == |ind|
    ensures |r| == |ks| && forall i :: 0 <= i < |r| ==> r[i] == (ks[i], ind[i])
  {
    seq(|ks|, i requires 0 <= i < |ks| => (ks[i], ind[i]))
  }

  function Image<A, B>(s: seq<A>, f: A -> B): (r: seq<B>)
    ensures |r| == |s| && forall i :: 0 <= i < |s| ==> r[i] == f(s[i])
  {
    seq(|s|, i requires 0 <= i < |s| => f(s[i]))
  }

  function Key(p: (string, nat)): string { p.0 }

  function Index(p: (string, nat)): nat { p.1 }

  /** offsSort.Less: by key alone. */
  function KeyLess(p: (string, nat), q: (string, nat)): bool
  {
    Strings.Less(p.0, q.0)
  }

  lemma {:induction false} ImageAppend<A, B>(s: seq<A>, t: seq<A>, f: A -> B)
    ensures Image(s + t, f) == Image(s, f) + Image(t, f)
  {
  }

  /** Taking one occurrence of x out of two reorderings of each other. */
  lemma {:induction false} RemoveOne<A>(s: seq<A>, t: seq<A>, j: int)
    requires multiset(s) == multiset(t) && s != [] && 0 <= j < |t| && t[j] == s[0]
    ensures multiset(s[1..]) == multiset(t[..j] + t[j + 1..])
  {
    var x := s[0];
    assert s == [x] + s[1..];
    assert t == t[..j] + [x] + t[j + 1..];
    assert multiset(s[1..]) == multiset(s) - multiset{x};
    assert multiset(t[..j] + t[j + 1..]) == multiset(t) - multiset{x};
  }

  /** Reordering a sequence reorders its image the same way. */
  lemma {:induction false} ImagePermutes<A, B>(s: seq<A>, t: seq<A>, f: A -> B)
    requires multiset(s) == multiset(t)
    ensures multiset(Image(s, f)) == multiset(Image(t, f))
    decreases |s|
  {
    if s == [] {
      assert |t| == |multiset(t)| == 0;
    } else {
      var x := s[0];
      assert x in multiset(t);
      var j :| 0 <= j < |t| && t[j] == x;
      var u := t[..j] + t[j + 1..];
      RemoveOne(s, t, j);
      ImagePermutes(s[1..], u, f);
      assert s == [x] + s[1..];
      assert t == t[..j] + [x] + t[j + 1..];
      ImageAppend([x], s[1..], f);
      ImageAppend(t[..j], [x], f);
      ImageAppend(t[..j] + [x], t[j + 1..], f);
      ImageAppend(t[..j], t[j + 1..], f);
    }
  }

  lemma {:induction false} OrderedStep(s: seq<string>, i: int, j: int)
    requires Sorting.Ordered(s, Strings.Less) && 0 <= i < j < |s|
    ensures Strings.LessEq(s[i], s[j])
    decreases j - i
  {
    assert !Strings.Less(s[j], s[j - 1]);
    if s[j - 1] != s[j] {
      Strings.LessTotal(s[j - 1], s[j]);
    }
    if i < j - 1 {
      OrderedStep(s, i, j - 1);
      if s[i] != s[j - 1] && s[j - 1] != s[j] {
        Strings.LessTransitive(s[i], s[j - 1], s[j]);
      }
    }
  }

  /** Adjacent elements in order make the whole sequence sorted. */
  lemma {:induction false} OrderedSorted(s: seq<string>)
    requires Sorting.Ordered(s, Strings.Less)
    ensures Strings.Sorted(s)
  {
    forall i, j | 0 <= i < j < |s| ensures Strings.LessEq(s[i], s[j]) {
      OrderedStep(s, i, j);
    }
  }

  /**
   * What Keys leaves behind for an object whose keys, in the client's
   * order, are raw: keys sorted and holding the same keys; ind absent when
   * raw was already sorted, and otherwise a permutation of the indices with
   * keys[j] the original key number ind[j].
   */
  ghost predicate SortedView(raw: seq<string>, keys: seq<string>, ind: Option<seq<nat>>)
  {
    |keys| == |raw| && Strings.Sorted(keys) && multiset(keys) == multiset(raw) &&
    (ind.None? <==> Sorting.Ordered(raw, Strings.Less)) &&
    (ind.None? ==> keys == raw) &&
    (ind.Some? ==>
      |ind.value| == |raw| && multiset(ind.value) == multiset(Range(|raw|)) &&
      forall j :: 0 <= j < |keys| ==> ind.value[j] < |raw| && keys[j] == raw[ind.value[j]])
  }

  /** Sorting the (key, index) pairs keeps each key with its index. */
  lemma {:induction false} SortPairsView(raw: seq<string>, ind: seq<nat>)
    requires ind == Range(|raw|) && !Sorting.Ordered(raw, Strings.Less)
    ensures var s := Sorting.SortStable(Zip(raw, ind), KeyLess);
      SortedView(raw, Image(s, Key), Some(Image(s, Index)))
  {
    var z := Zip(raw, ind);
    var s := Sorting.SortStable(z, KeyLess);
    Sorting.SortStablePermutes(z, KeyLess);
    Strings.LessAsymmetricAll();
    Sorting.SortStableOrdered(z, KeyLess);
    assert Image(z, Key) == raw;
    assert Image(z, Index) == ind;
    ImagePermutes(s, z, Key);
    ImagePermutes(s, z, Index);
    var ks := Image(s, Key);
    assert Sorting.Ordered(ks, Strings.Less) by {
      forall i | 0 <= i < |ks| - 1 ensures !Strings.Less(ks[i + 1], ks[i]) {
        assert !KeyLess(s[i + 1], s[i]);
      }
    }
    OrderedSorted(ks);
    forall j | 0 <= j < |s| ensures s[j].1 < |raw| && s[j].0 == raw[s[j].1] {
      assert s[j] in multiset(z);
      var i :| 0 <= i < |z| && z[i] == s[j];
    }
  }

  /** Swapping two neighbours keeps the multiset. */
  lemma {:induction false} SwapNeighbours(ind: seq<nat>, j: nat)
    requires j + 1 < |ind|
    ensures multiset(ind[j := ind[j + 1]][j + 1 := ind[j]]) == multiset(ind)
  {
    var sw := ind[j := ind[j + 1]][j + 1 := ind[j]];
    assert ind == ind[..j] + [ind[j], ind[j + 1]] + ind[j + 2..];
    assert sw == ind[..j] + [ind[j + 1], ind[j]] + ind[j + 2..];
  }

  /**
   * Keys from the client need not be distinct, and sort.Sort is not
   * stable: swapping the indices of two equal neighbouring keys gives
   * another sorted view, so the tie order is not determined.
   */
  lemma {:induction false} SwapTiesView(raw: seq<string>, keys: seq<string>, ind: seq<nat>, j: nat)
    requires SortedView(raw, keys, Some(ind))
    requires j + 1 < |keys| && keys[j] == keys[j + 1]
    ensures SortedView(raw, keys, Some(ind[j := ind[j + 1]][j + 1 := ind[j]]))
  {
    var sw := ind[j := ind[j + 1]][j + 1 := ind[j]];
    SwapNeighbours(ind, j);
    assert |sw| == |raw| && multiset(sw) == multiset(Range(|raw|));
    assert forall i :: 0 <= i < |keys| ==> sw[i] < |raw| && keys[i] == raw[sw[i]] by {
      forall i | 0 <= i < |keys| ensures sw[i] < |raw| && keys[i] == raw[sw[i]] {
        if i == j {
          assert sw[i] == ind[j + 1];
        } else if i == j + 1 {
          assert sw[i] == ind[j];
        } else {
          assert sw[i] == ind[i];
        }
      }
    }
  }

  // ------------------------------------------------------------ the wrappers

  /** cObject: a client object; keys and ind are filled by the first Keys call. */
  class CObject {
    const cl: Client
    const h: nat
    var keys: Option<seq<string>>
    var ind: Option<seq<nat>>

    /** The keys in the client's order, through its callbacks. */
    function Raw(): (r: seq<string>)
      ensures |r| == cl.size(h) && forall i :: 0 <= i < |r| ==> r[i] == GoString(cl.keyAt(h, i))
    {
      seq(cl.size(h), (i: int) requires 0 <= i => GoString(cl.keyAt(h, i)))
    }

    ghost predicate Valid()
      reads this
    {
      (keys.None? ==> ind.None?) &&
      (keys.Some? ==> SortedView(Raw(), keys.value, ind))
    }

    constructor (cl: Client, h: nat)
      ensures this.cl == cl && this.h == h && keys.None? && ind.None? && Valid()
    {
      this.cl := cl;
      this.h := h;
      keys := None;
      ind := None;
    }

    /** The original index of sorted key number j. */
    function Orig(j: nat): (o: nat)
      reads this
      requires Valid() && keys.Some? && j < |keys.value|
      ensures o < |Raw()| && Raw()[o] == keys.value[j]
    {
      if ind.Some? then ind.value[j] else j
    }

    /** Size: the cached key count, else the client's size. */
    function Size(): (n: nat)
      reads this
      requires Valid()
      ensures n == cl.size(h)
    {
      if keys.Some? then |keys.value| else cl.size(h)
    }

    /** Keys: read all keys once, then sort them together with their original indices. */
    method Keys() returns (ks: seq<string>)
      requires Valid()
      modifies this
      ensures Valid() && keys == Some(ks)
      ensures SortedView(Raw(), ks, ind)
      ensures old(keys).Some? ==> keys == old(keys) && ind == old(ind)
    {
      if keys.Some? {
        return keys.value;
      }
      var sz := cl.size(h);
      var k: seq<string> := [];
      for i := 0 to sz
        invariant k == Raw()[..i]
      {
        k := k + [GoString(cl.keyAt(h, i))];
      }
      assert k == Raw();
      if Sorting.Ordered(k, Strings.Less) {
        OrderedSorted(k);
        keys := Some(k);
        ind := None;
      } else {
        var idx: seq<nat> := [];
        for i := 0 to |k|
          invariant idx == Range(i)
        {
          idx := idx + [i];
        }
        var sorted := Sorting.SortStable(Zip(k, idx), KeyLess);
        SortPairsView(k, idx);
        keys := Some(Image(sorted, Key));
        ind := Some(Image(sorted, Index));
      }
      ks := keys.value;
    }

    /** valueAt: nil before Keys and out of range; otherwise the child at the original index. */
    method ValueAtIndex(j: int) returns (r: Option<CRef>)
      requires Valid()
      ensures keys.None? || j < 0 || j >= |keys.value| ==> r.None?
      ensures keys.Some? && 0 <= j < |keys.value| ==> Made(cl, cl.valueAt(h, Orig(j)), r)
      ensures r.Some? ==> fresh(RefObject(r.value))
    {
      if keys.None? || j < 0 || j >= |keys.value| {
        return None;
      }
      var i := if ind.Some? then ind.value[j] else j;
      r := AsNode(cl, cl.valueAt(h, i));
    }

    /** ValueAt: the value of the first sorted key equal to key, and whether there is one. */
    method ValueAt(key: string) returns (v: Option<CRef>, found: bool)
      requires Valid()
      modifies this
      ensures Valid() && keys.Some?
      ensures old(keys).Some? ==> keys == old(keys) && ind == old(ind)
      ensures found <==> key in Raw()
      ensures !found ==> v.None?
      ensures found ==> exists o :: 0 <= o < |Raw()| && Raw()[o] == key && Made(cl, cl.valueAt(h, o), v)
      ensures v.Some? ==> fresh(RefObject(v.value))
    {
      var ks := Keys();
      assert forall x :: x in ks <==> x in Raw() by {
        assert forall x :: x in ks <==> x in multiset(ks);
        assert forall x :: x in Raw() <==> x in multiset(Raw());
      }
      for i := 0 to |ks|
        invariant Valid() && keys == Some(ks)
        invariant forall j :: 0 <= j < i ==> ks[j] != key
      {
        if ks[i] == key {
          v := ValueAtIndex(i);
          found := true;
          return;
        }
      }
      v := None;
      found := false;
    }
  }

  /** cArray: a client array; the size is asked for once and kept, -1 meaning not yet. */
  class CArray {
    const cl: Client
    const h: nat
    var sz: int
    /** How many times the client's size callback was called. */
    ghost var queries: nat

    ghost predicate Valid()
      reads this
    {
      (sz == -1 && queries == 0) || (sz == cl.size(h) && queries == 1)
    }

    constructor (cl: Client, h: nat)
      ensures this.cl == cl && this.h == h && sz == -1 && queries == 0 && Valid()
    {
      this.cl := cl;
      this.h := h;
      sz := -1;
      queries := 0;
    }

    /** Size: the client's size, asked for on the first call only. */
    method Size() returns (n: nat)
      requires Valid()
      modifies this
      ensures Valid() && n == cl.size(h) && sz == n && queries == 1
      ensures queries == old(queries) + (if old(sz) < 0 then 1 else 0)
    {
      if sz < 0 {
        sz := cl.size(h);
        queries := queries + 1;
      }
      n := sz;
    }

    /** ValueAt: the client's element i, wrapped. */
    method ValueAt(i: nat) returns (r: Option<CRef>)
      ensures Made(cl, cl.valueAt(h, i), r)
      ensures r.Some? ==> fresh(RefObject(r.value))
    {
      r := AsNode(cl, cl.valueAt(h, i));
    }
  }

  /** The Go value of a client scalar of the given kind; None for the other kinds. */
  function ScalarOf(cl: Client, h: nat, kind: Kind): (r: Option<Node>)
    ensures r.Some? <==> kind !in {KindNil, KindObject, KindArray}
    ensures r.Some? ==> KindOf(r.value) == kind && IsValue(r.value)
    ensures kind == KindString ==> r == Some(Str(GoString(cl.asString(h))))
    ensures kind == KindInt ==> r == Some(Int(cl.asInt(h)))
    ensures kind == KindUint ==> r == Some(Uint(cl.asUint(h)))
    ensures kind == KindFloat ==> r == Some(Float(cl.asFloat(h)))
    ensures kind == KindBool ==> r == Some(Bool(cl.asBool(h)))
  {
    match kind
    case KindString => Some(Str(GoString(cl.asString(h))))
    case KindInt => Some(Int(cl.asInt(h)))
    case KindUint => Some(Uint(cl.asUint(h)))
    case KindFloat => Some(Float(cl.asFloat(h)))
    case KindBool => Some(Bool(cl.asBool(h)))
    case KindNil => None
    case KindObject => None
    case KindArray => None
  }

  /** cValue: a client scalar whose Go value is read once and kept. */
  class CValue {
    const cl: Client
    const h: nat
    const kind: Kind
    var val: Option<Node>

    ghost predicate Valid()
      reads this
    {
      val.None? || val == ScalarOf(cl, h, kind)
    }

    constructor (cl: Client, h: nat, kind: Kind)
      ensures this.cl == cl && this.h == h && this.kind == kind && val.None? && Valid()
    {
      this.cl := cl;
      this.h := h;
      this.kind := kind;
      val := None;
    }

    /** Value: the cached value, else read through the callback of the kind and cached. */
    method Value() returns (r: Option<Node>)
      requires Valid()
      modifies this
      ensures Valid() && r == ScalarOf(cl, h, kind) && val == r
      ensures old(val).Some? ==> val == old(val)
    {
      if val.Some? {
        return val;
      }
      match kind {
        case KindString =>
          val := Some(Str(GoString(cl.asString(h))));
        case KindInt =>
          val := Some(Int(cl.asInt(h)));
        case KindUint =>
          val := Some(Uint(cl.asUint(h)));
        case KindFloat =>
          val := Some(Float(cl.asFloat(h)));
        case KindBool =>
          val := Some(Bool(cl.asBool(h)));
        case KindNil =>
          return None;
        case KindObject =>
          return None;
        case KindArray =>
          return None;
      }
      r := val;
    }
  }
}
