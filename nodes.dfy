// The generic UAST value: null, object, array or one of the value kinds.
// The nodes package (uast/nodes) and the older uast package (uast/node.go)
// share this shape; the older one has no unsigned kind and never builds one.
module Nodes {
  import Strings

  /** Float values are opaque: only their bit pattern is kept. */
  type FloatBits = bv64

  datatype Node =
    | Null
    | Obj(fields: map<string, Node>)
    | Arr(elems: seq<Node>)
    | Str(s: string)
    | Int(i: int)
    | Uint(u: nat)
    | Float(bits: FloatBits)
    | Bool(b: bool)

  /** nodes.Kind; the order of the constructors is the order of the NODE_* constants of libuast. */
  datatype Kind = KindNil | KindObject | KindArray | KindString | KindInt | KindUint | KindFloat | KindBool

  function KindOf(n: Node): (k: Kind)
    ensures (k == KindNil) <==> n.Null?
    ensures (k == KindObject) <==> n.Obj?
    ensures (k == KindArray) <==> n.Arr?
  {
    match n
    case Null => KindNil
    case Obj(_) => KindObject
    case Arr(_) => KindArray
    case Str(_) => KindString
    case Int(_) => KindInt
    case Uint(_) => KindUint
    case Float(_) => KindFloat
    case Bool(_) => KindBool
  }

  /** One of the value kinds (KindsValues). */
  predicate IsValue(n: Node)
  {
    n.Str? || n.Int? || n.Uint? || n.Float? || n.Bool?
  }

  // ------------------------------------------------------------------ size

  /** The number of nodes in a tree, nulls included; a measure for recursion. */
  ghost function Size(n: Node): (r: nat)
    ensures r >= 1
    decreases n, if n.Obj? then |n.fields.Keys| + 1 else 0
  {
    match n
    case Obj(m) => 1 + SizeKeys(m, Strings.SortedKeys(m.Keys))
    case Arr(s) => 1 + SizeSeq(s)
    case _ => 1
  }

  ghost function SizeSeq(s: seq<Node>): nat
    decreases s
  {
    if s == [] then 0 else Size(s[0]) + SizeSeq(s[1..])
  }

  ghost function SizeKeys(m: map<string, Node>, keys: seq<string>): nat
    decreases Obj(m), |keys|
  {
    if keys == [] then 0
    else (if keys[0] in m then Size(m[keys[0]]) else 0) + SizeKeys(m, keys[1..])
  }

  lemma {:induction false} SizeSeqAppend(a: seq<Node>, b: seq<Node>)
    ensures SizeSeq(a + b) == SizeSeq(a) + SizeSeq(b)
    decreases |a|
  {
    if a == [] {
      assert a + b == b;
    } else {
      assert (a + b)[1..] == a[1..] + b;
      SizeSeqAppend(a[1..], b);
    }
  }

  /** Dropping the first tree of a forest makes it smaller. */
  lemma {:induction false} SizeSeqTail(s: seq<Node>)
    requires s != []
    ensures SizeSeq(s[1..]) < SizeSeq(s)
  {
    assert SizeSeq(s) == Size(s[0]) + SizeSeq(s[1..]);
  }

  lemma {:induction false} SizeSeqUpper(s: seq<Node>)
    ensures SizeSeq(s) >= |s|
    decreases |s|
  {
    if s != [] { SizeSeqUpper(s[1..]); }
  }

  // -------------------------------------------------------------- children

  /** The non-null elements of a sequence, in order. */
  function NonNull(s: seq<Node>): (r: seq<Node>)
    ensures |r| <= |s| && Null !in r
  {
    if s == [] then []
    else if s[0] == Null then NonNull(s[1..])
    else [s[0]] + NonNull(s[1..])
  }

  /** The non-null values of m under keys, in the order of keys; absent keys are skipped. */
  function NonNullValues(m: map<string, Node>, keys: seq<string>): (r: seq<Node>)
    ensures |r| <= |keys| && Null !in r
  {
    if keys == [] then []
    else if keys[0] !in m || m[keys[0]] == Null then NonNullValues(m, keys[1..])
    else [m[keys[0]]] + NonNullValues(m, keys[1..])
  }

  /**
   * The children eachChild visits: object fields in sorted key order and
   * array elements in index order, nulls skipped; values have none.
   */
  ghost function Kids(n: Node): seq<Node>
  {
    match n
    case Obj(m) => NonNullValues(m, Strings.SortedKeys(m.Keys))
    case Arr(s) => NonNull(s)
    case _ => []
  }

  lemma {:induction false} NonNullSize(s: seq<Node>)
    ensures SizeSeq(NonNull(s)) <= SizeSeq(s)
    decreases |s|
  {
    if s != [] { NonNullSize(s[1..]); }
  }

  lemma {:induction false} NonNullValuesSize(m: map<string, Node>, keys: seq<string>)
    ensures SizeSeq(NonNullValues(m, keys)) <= SizeKeys(m, keys)
    decreases |keys|
  {
    if keys != [] { NonNullValuesSize(m, keys[1..]); }
  }

  lemma {:induction false} KidsNoNull(n: Node)
    ensures Null !in Kids(n)
  {
  }

  /** The children of a node are together smaller than the node. */
  lemma {:induction false} KidsSmaller(n: Node)
    ensures SizeSeq(Kids(n)) < Size(n)
  {
    match n
    case Obj(m) => NonNullValuesSize(m, Strings.SortedKeys(m.Keys));
    case Arr(s) => NonNullSize(s);
    case _ =>
  }

  lemma {:induction false} SizeSeqElement(s: seq<Node>, i: int)
    requires 0 <= i < |s|
    ensures Size(s[i]) <= SizeSeq(s)
    decreases |s|
  {
    if i > 0 { SizeSeqElement(s[1..], i - 1); }
  }

  /** Associativity of concatenation, stated once so proofs can cite it instead of rediscovering it. */
  lemma {:induction false} Assoc<T>(a: seq<T>, b: seq<T>, c: seq<T>)
    ensures a + (b + c) == (a + b) + c
  {
  }

  /** Extending a prefix of s by one element, stated on plain sequences. */
  lemma {:induction false} TakeSnoc<T>(s: seq<T>, i: int)
    requires 0 <= i < |s|
    ensures s[..i + 1] == s[..i] + [s[i]]
  {
    assert forall k | 0 <= k <= i :: s[..i + 1][k] == (s[..i] + [s[i]])[k];
  }

  /** Concatenation of a sequence of sequences. */
  function Flatten<T>(ss: seq<seq<T>>): seq<T>
  {
    if ss == [] then [] else ss[0] + Flatten(ss[1..])
  }

  lemma {:induction false} FlattenAppend<T>(a: seq<seq<T>>, b: seq<seq<T>>)
    ensures Flatten(a + b) == Flatten(a) + Flatten(b)
    decreases |a|
  {
    if a == [] {
      assert a + b == b;
    } else {
      assert (a + b)[1..] == a[1..] + b;
      FlattenAppend(a[1..], b);
    }
  }

  function Reverse<T>(s: seq<T>): (r: seq<T>)
    ensures |r| == |s|
  {
    if s == [] then [] else Reverse(s[1..]) + [s[0]]
  }
}
