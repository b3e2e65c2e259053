// The version-1 protocol conversion (protocol/types.go): a generic UAST
// tree becomes protocol nodes; values become properties or token nodes,
// everything else becomes children, sorted by byOffset.
module ProtocolTypes {
  import opened Wrappers
  import opened Strings
  import opened Nodes
  import opened Legacy
  import UastNode
  import Sorting

  const KeyStart := "@start"
  const KeyEnd := "@end"

  /** The keys objectAsNode reads through the object helpers and then skips. */
  predicate Special(k: string)
  {
    k == UastNode.KeyType || k == UastNode.KeyToken || k == UastNode.KeyRoles || k == KeyStart || k == KeyEnd
  }

  // --------------------------------------------------------- positions

  /** uint32(i) for an int64 i: two's-complement truncation. */
  function Uint32(i: int): (r: nat)
    ensures r < 0x1_0000_0000
    ensures 0 <= i < 0x1_0000_0000 ==> r == i
  {
    i % 0x1_0000_0000
  }

  function IntAt(m: map<string, Node>, k: string): int
  {
    if k in m && m[k].Int? then m[k].i else 0
  }

  /** AsPosition (uast/uast.go): the Int fields off, line and col, missing ones as 0. */
  function AsPosition(m: map<string, Node>): Position
  {
    Position(Uint32(IntAt(m, "off")), Uint32(IntAt(m, "line")), Uint32(IntAt(m, "col")))
  }

  /** Position.ToObject (uast/uast.go). */
  function PositionObject(p: Position): map<string, Node>
  {
    map["off" := Int(p.offset), "line" := Int(p.line), "col" := Int(p.col)]
  }

  /** A position whose fields fit in a uint32 survives ToObject and AsPosition. */
  lemma {:induction false} AsPositionObject(p: Position)
    requires p.offset < 0x1_0000_0000 && p.line < 0x1_0000_0000 && p.col < 0x1_0000_0000
    ensures AsPosition(PositionObject(p)) == p
  {
  }

  /** StartPosition/EndPosition: the position object under key, if it is an object. */
  function PositionAt(m: map<string, Node>, key: string): Option<Position>
  {
    if key in m && m[key].Obj? then Some(AsPosition(m[key].fields)) else None
  }

  // ------------------------------------------------------- conversion

  /** The internalRole property naming the field a node came from, when there is a field. */
  function FieldProps(field: string): (r: map<string, string>)
    ensures field != "" ==> r == map[InternalRoleKey := field]
    ensures field == "" ==> r == map[]
  {
    if field != "" then map[InternalRoleKey := field] else map[]
  }

  /** The value fields of an object, printed, special keys aside. */
  function ValueProps(m: map<string, Node>, formatFloat: FloatBits -> string): map<string, string>
  {
    map k | k in m && !Special(k) && IsValue(m[k]) :: UastNode.Sprint(m[k], formatFloat)
  }

  /** valueAsNode: a token node holding the printed value. */
  function ValueAsNode(v: Node, field: string, formatFloat: FloatBits -> string): LNode
  {
    LNode("", FieldProps(field), [], UastNode.Sprint(v, formatFloat), None, None, [])
  }

  /** asNode: nil gives nothing, an array the results of its elements, anything else one node. */
  ghost function AsNodes(n: Node, field: string, formatFloat: FloatBits -> string): seq<LNode>
    decreases n, 2, 0
  {
    match n
    case Null => []
    case Arr(s) => ArrayAsNodes(s, field, formatFloat)
    case Obj(m) => [ObjectAsNode(m, field, formatFloat)]
    case _ => [ValueAsNode(n, field, formatFloat)]
  }

  /** arrayAsNode: the elements' results concatenated, all under the same field name. */
  ghost function ArrayAsNodes(s: seq<Node>, field: string, formatFloat: FloatBits -> string): seq<LNode>
    decreases s, 0, 0
  {
    if s == [] then []
    else ArrayAsNodes(s[..|s| - 1], field, formatFloat) + AsNodes(s[|s| - 1], field, formatFloat)
  }

  /** The children collected from the non-special, non-value fields under keys, each under its key. */
  ghost function KidsOf(m: map<string, Node>, keys: seq<string>, formatFloat: FloatBits -> string): seq<LNode>
    decreases Obj(m), 0, |keys|
  {
    if keys == [] then []
    else
      var k := keys[|keys| - 1];
      KidsOf(m, keys[..|keys| - 1], formatFloat)
        + (if k in m && !Special(k) && !IsValue(m[k]) then AsNodes(m[k], k, formatFloat) else [])
  }

  /**
   * objectAsNode. The loop over the map is taken in sorted key order. Go
   * takes it in a random order, and children that byOffset leaves unordered
   * (equal offsets, or fields it cannot tell apart) can then end up in
   * another order after the stable sort.
   */
  ghost function ObjectAsNode(m: map<string, Node>, field: string, formatFloat: FloatBits -> string): LNode
    decreases Obj(m), 1, 0
  {
    LNode(
      UastNode.Type(m),
      FieldProps(field) + ValueProps(m, formatFloat),
      Sorting.SortStable(KidsOf(m, SortedKeys(m.Keys), formatFloat), ByOffsetLess),
      UastNode.Token(m, formatFloat),
      PositionAt(m, KeyStart),
      PositionAt(m, KeyEnd),
      UastNode.Roles(m))
  }

  /** ToNode: no result is nil, one result is returned, several are wrapped in a parent. */
  ghost function ToNode(n: Node, formatFloat: FloatBits -> string): Option<LNode>
  {
    var nd := AsNodes(n, "", formatFloat);
    if |nd| == 0 then None
    else if |nd| == 1 then Some(nd[0])
    else Some(LNode("", map[], nd, "", None, None, []))
  }

  // ------------------------------------------------------- ordering

  /** startPosition: the node's own start, else the least start among its children, the first on ties. */
  function StartPos(n: LNode): Option<Position>
    decreases n, 1
  {
    if n.start.Some? then n.start else MinStart(n.children)
  }

  function MinStart(cs: seq<LNode>): Option<Position>
    decreases cs, 0
  {
    if cs == [] then None
    else
      var rest := MinStart(cs[..|cs| - 1]);
      var other := StartPos(cs[|cs| - 1]);
      if other.None? then rest
      else if rest.None? || other.value.offset < rest.value.offset then other
      else rest
  }

  /** byOffset.Less: by offset when both are positioned, unpositioned before positioned, then by field name. */
  predicate ByOffsetLess(a: LNode, b: LNode)
  {
    var ap := StartPos(a);
    var bp := StartPos(b);
    if ap.Some? && bp.Some? && ap.value.offset != bp.value.offset then ap.value.offset < bp.value.offset
    else if ap.Some? != bp.Some? then bp.Some?
    else InternalRoleKey in a.properties && InternalRoleKey in b.properties
         && Less(a.properties[InternalRoleKey], b.properties[InternalRoleKey])
  }

  lemma {:induction false} ByOffsetAsymmetric()
    ensures Sorting.Asymmetric(ByOffsetLess)
  {
    forall a, b | ByOffsetLess(a, b) ensures !ByOffsetLess(b, a) {
      if InternalRoleKey in a.properties && InternalRoleKey in b.properties
        && Less(a.properties[InternalRoleKey], b.properties[InternalRoleKey])
      {
        LessAsymmetric(a.properties[InternalRoleKey], b.properties[InternalRoleKey]);
      }
    }
  }

  /** No node of the subtree has a start position. */
  ghost predicate Unpositioned(n: LNode)
    decreases n
  {
    n.start.None? && forall i :: 0 <= i < |n.children| ==> Unpositioned(n.children[i])
  }

  /** startPosition is nil exactly when no node of the subtree has a start position. */
  lemma {:induction false} StartPosNone(n: LNode)
    ensures StartPos(n).None? <==> Unpositioned(n)
    decreases n, 1
  {
    if n.start.None? {
      MinStartNone(n.children);
    }
  }

  lemma {:induction false} MinStartNone(cs: seq<LNode>)
    ensures MinStart(cs).None? <==> forall i :: 0 <= i < |cs| ==> Unpositioned(cs[i])
    decreases cs, 0
  {
    if cs != [] {
      var init := cs[..|cs| - 1];
      MinStartNone(init);
      StartPosNone(cs[|cs| - 1]);
      if forall i :: 0 <= i < |init| ==> Unpositioned(init[i]) {
        if Unpositioned(cs[|cs| - 1]) {
          forall i | 0 <= i < |cs| ensures Unpositioned(cs[i]) {
            if i < |init| { assert cs[i] == init[i]; }
          }
        }
      } else {
        var i :| 0 <= i < |init| && !Unpositioned(init[i]);
        assert cs[i] == init[i];
      }
    }
  }

  /** The least start among the children is one of theirs and no later than any of theirs. */
  lemma {:induction false} MinStartLeast(cs: seq<LNode>)
    ensures MinStart(cs).Some? ==> exists i :: 0 <= i < |cs| && StartPos(cs[i]) == MinStart(cs)
    ensures forall i :: 0 <= i < |cs| && StartPos(cs[i]).Some? ==>
      MinStart(cs).Some? && MinStart(cs).value.offset <= StartPos(cs[i]).value.offset
    decreases |cs|
  {
    if cs != [] {
      var init := cs[..|cs| - 1];
      MinStartLeast(init);
      if MinStart(init).Some? {
        var i :| 0 <= i < |init| && StartPos(init[i]) == MinStart(init);
        assert cs[i] == init[i];
      }
      forall i | 0 <= i < |cs| && StartPos(cs[i]).Some?
        ensures MinStart(cs).Some? && MinStart(cs).value.offset <= StartPos(cs[i]).value.offset
      {
        if i < |init| { assert cs[i] == init[i]; }
      }
    }
  }

  // ------------------------------------------------------- properties

  /** asNode(nil) is empty, and ToNode of nil is nil. */
  lemma {:induction false} ToNodeNull(formatFloat: FloatBits -> string)
    ensures AsNodes(Null, "", formatFloat) == []
    ensures ToNode(Null, formatFloat) == None
  {
  }

  /** An object converts to one node, returned as it is. */
  lemma {:induction false} ToNodeObject(m: map<string, Node>, formatFloat: FloatBits -> string)
    ensures ToNode(Obj(m), formatFloat) == Some(ObjectAsNode(m, "", formatFloat))
  {
  }

  /** Two objects in a list are wrapped in a parent holding both, in order. */
  lemma {:induction false} ToNodeWrapped(a: map<string, Node>, b: map<string, Node>, formatFloat: FloatBits -> string)
    ensures ToNode(Arr([Obj(a), Obj(b)]), formatFloat)
      == Some(LNode("", map[], [ObjectAsNode(a, "", formatFloat), ObjectAsNode(b, "", formatFloat)], "", None, None, []))
  {
    var s := [Obj(a), Obj(b)];
    assert s[..1] == [Obj(a)];
    assert s[..1][..0] == [];
    assert ArrayAsNodes(s[..1], "", formatFloat) == [ObjectAsNode(a, "", formatFloat)];
    assert ArrayAsNodes(s, "", formatFloat) == [ObjectAsNode(a, "", formatFloat), ObjectAsNode(b, "", formatFloat)];
  }

  /** Arrays flatten: the results over a concatenation are the concatenated results. */
  lemma {:induction false} ArrayAsNodesAppend(a: seq<Node>, b: seq<Node>, field: string, formatFloat: FloatBits -> string)
    ensures ArrayAsNodes(a + b, field, formatFloat) == ArrayAsNodes(a, field, formatFloat) + ArrayAsNodes(b, field, formatFloat)
    decreases |b|
  {
    if b == [] {
      assert a + b == a;
    } else {
      var init := b[..|b| - 1];
      assert (a + b)[..|a + b| - 1] == a + init;
      assert (a + b)[|a + b| - 1] == b[|b| - 1];
      ArrayAsNodesAppend(a, init, field, formatFloat);
      Assoc(ArrayAsNodes(a, field, formatFloat), ArrayAsNodes(init, field, formatFloat), AsNodes(b[|b| - 1], field, formatFloat));
    }
  }

  /** A value becomes a token node carrying its field name. */
  lemma {:induction false} ValueAsNodeField(v: Node, field: string, formatFloat: FloatBits -> string)
    requires IsValue(v) && field != ""
    ensures AsNodes(v, field, formatFloat) == [ValueAsNode(v, field, formatFloat)]
    ensures ValueAsNode(v, field, formatFloat).properties == map[InternalRoleKey := field]
    ensures ValueAsNode(v, field, formatFloat).token == UastNode.Sprint(v, formatFloat)
  {
  }

  /**
   * The properties of an object node: its printed value fields, special
   * keys aside, and internalRole set to the field name unless a value
   * field of that name overrides it.
   */
  lemma {:induction false} ObjectProperties(m: map<string, Node>, field: string, formatFloat: FloatBits -> string)
    ensures var p := ObjectAsNode(m, field, formatFloat).properties;
      && (forall k :: k in p <==> (k == InternalRoleKey && field != "") || (k in m && !Special(k) && IsValue(m[k])))
      && (forall k :: k in m && !Special(k) && IsValue(m[k]) ==> p[k] == UastNode.Sprint(m[k], formatFloat))
      && (field != "" && !(InternalRoleKey in m && IsValue(m[InternalRoleKey])) ==> p[InternalRoleKey] == field)
  {
    assert !Special(InternalRoleKey);
  }

  /** The children of an object node are its non-value fields' results, reordered by byOffset only. */
  lemma {:induction false} ObjectChildren(m: map<string, Node>, field: string, formatFloat: FloatBits -> string)
    ensures var c := ObjectAsNode(m, field, formatFloat).children;
      && multiset(c) == multiset(KidsOf(m, SortedKeys(m.Keys), formatFloat))
      && Sorting.Ordered(c, ByOffsetLess)
  {
    Sorting.SortStablePermutes(KidsOf(m, SortedKeys(m.Keys), formatFloat), ByOffsetLess);
    ByOffsetAsymmetric();
    Sorting.SortStableOrdered(KidsOf(m, SortedKeys(m.Keys), formatFloat), ByOffsetLess);
  }

  predicate Positioned(n: LNode) { StartPos(n).Some? }

  /** Unpositioned children come before all positioned ones. */
  lemma {:induction false} UnpositionedFirst(m: map<string, Node>, field: string, formatFloat: FloatBits -> string, i: int, j: int)
    requires var c := ObjectAsNode(m, field, formatFloat).children; 0 <= i <= j < |c| && Positioned(c[i])
    ensures Positioned(ObjectAsNode(m, field, formatFloat).children[j])
  {
    var c := ObjectAsNode(m, field, formatFloat).children;
    ObjectChildren(m, field, formatFloat);
    Sorting.OrderedPartitions(c, ByOffsetLess, Positioned, i, j);
  }

  // ---------------------------------------------------------- methods

  /** The value fields among keys, printed. */
  function ValuePropsOf(m: map<string, Node>, keys: seq<string>, formatFloat: FloatBits -> string): map<string, string>
  {
    map k | k in keys && k in m && !Special(k) && IsValue(m[k]) :: UastNode.Sprint(m[k], formatFloat)
  }

  lemma {:induction false} MapUpdateUnion(a: map<string, string>, b: map<string, string>, k: string, v: string)
    ensures (a + b)[k := v] == a + b[k := v]
  {
  }

  /** One key of the objectAsNode loop: the children it adds. */
  lemma {:induction false} KidsStep(m: map<string, Node>, keys: seq<string>, i: int, formatFloat: FloatBits -> string)
    requires 0 <= i < |keys| && keys[i] in m
    ensures KidsOf(m, keys[..i + 1], formatFloat) == KidsOf(m, keys[..i], formatFloat)
      + (if !Special(keys[i]) && !IsValue(m[keys[i]]) then AsNodes(m[keys[i]], keys[i], formatFloat) else [])
  {
    assert keys[..i + 1][..i] == keys[..i];
  }

  /** One key of the objectAsNode loop: the property it adds. */
  lemma {:induction false} PropsStep(m: map<string, Node>, keys: seq<string>, i: int, formatFloat: FloatBits -> string)
    requires 0 <= i < |keys| && keys[i] in m
    ensures ValuePropsOf(m, keys[..i + 1], formatFloat)
      == if !Special(keys[i]) && IsValue(m[keys[i]]) then ValuePropsOf(m, keys[..i], formatFloat)[keys[i] := UastNode.Sprint(m[keys[i]], formatFloat)]
         else ValuePropsOf(m, keys[..i], formatFloat)
  {
    var k := keys[i];
    assert forall x :: x in keys[..i + 1] <==> x in keys[..i] || x == k by {
      assert keys[..i + 1] == keys[..i] + [k];
    }
  }

  /** The property half of the objectAsNode loop. */
  method ObjectPropsM(m: map<string, Node>, keys: seq<string>, field: string, formatFloat: FloatBits -> string)
    returns (props: map<string, string>)
    requires forall k :: k in keys <==> k in m
    ensures props == FieldProps(field) + ValueProps(m, formatFloat)
  {
    props := FieldProps(field);
    for i := 0 to |keys|
      invariant props == FieldProps(field) + ValuePropsOf(m, keys[..i], formatFloat)
    {
      var k := keys[i];
      assert k in keys;
      PropsStep(m, keys, i, formatFloat);
      if !Special(k) && IsValue(m[k]) {
        MapUpdateUnion(FieldProps(field), ValuePropsOf(m, keys[..i], formatFloat), k, UastNode.Sprint(m[k], formatFloat));
        props := props[k := UastNode.Sprint(m[k], formatFloat)];
      }
    }
    assert keys[..|keys|] == keys;
    assert ValuePropsOf(m, keys, formatFloat) == ValueProps(m, formatFloat);
  }

  /** The children half of the objectAsNode loop, before sorting. */
  method ObjectKidsM(m: map<string, Node>, keys: seq<string>, formatFloat: FloatBits -> string) returns (kids: seq<LNode>)
    requires forall k :: k in keys ==> k in m
    ensures kids == KidsOf(m, keys, formatFloat)
    decreases Obj(m), 0
  {
    kids := [];
    for i := 0 to |keys|
      invariant kids == KidsOf(m, keys[..i], formatFloat)
    {
      var k := keys[i];
      assert k in keys;
      KidsStep(m, keys, i, formatFloat);
      if !Special(k) && !IsValue(m[k]) {
        var sn := AsNodesM(m[k], k, formatFloat);
        kids := kids + sn;
      }
    }
    assert keys[..|keys|] == keys;
  }

  /** objectAsNode, with the loop over the map taken in sorted key order. */
  method ObjectAsNodeM(m: map<string, Node>, field: string, formatFloat: FloatBits -> string) returns (nd: LNode)
    ensures nd == ObjectAsNode(m, field, formatFloat)
    decreases Obj(m), 1
  {
    var keys := SortedKeysOf(m);
    var props := ObjectPropsM(m, keys, field, formatFloat);
    var kids := ObjectKidsM(m, keys, formatFloat);
    var children := Sorting.SortStable(kids, ByOffsetLess);
    nd := LNode(UastNode.Type(m), props, children, UastNode.Token(m, formatFloat),
      PositionAt(m, KeyStart), PositionAt(m, KeyEnd), UastNode.Roles(m));
  }

  method ArrayAsNodesM(s: seq<Node>, field: string, formatFloat: FloatBits -> string) returns (arr: seq<LNode>)
    ensures arr == ArrayAsNodes(s, field, formatFloat)
    decreases s, 0
  {
    arr := [];
    for i := 0 to |s|
      invariant arr == ArrayAsNodes(s[..i], field, formatFloat)
    {
      assert s[..i + 1][..i] == s[..i];
      var nd := AsNodesM(s[i], field, formatFloat);
      arr := arr + nd;
    }
    assert s[..|s|] == s;
  }

  method AsNodesM(n: Node, field: string, formatFloat: FloatBits -> string) returns (r: seq<LNode>)
    ensures r == AsNodes(n, field, formatFloat)
    decreases n, 2
  {
    match n
    case Null => r := [];
    case Arr(s) => r := ArrayAsNodesM(s, field, formatFloat);
    case Obj(m) =>
      var nd := ObjectAsNodeM(m, field, formatFloat);
      r := [nd];
    case _ => r := [ValueAsNode(n, field, formatFloat)];
  }

  /** ToNode, as a method over asNode's result. */
  method ToNodeM(n: Node, formatFloat: FloatBits -> string) returns (r: Option<LNode>)
    ensures r == ToNode(n, formatFloat)
  {
    var nd := AsNodesM(n, "", formatFloat);
    if |nd| == 0 {
      r := None;
    } else if |nd| == 1 {
      r := Some(nd[0]);
    } else {
      r := Some(LNode("", map[], nd, "", None, None, []));
    }
  }
}
