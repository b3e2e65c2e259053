// The native-JSON to version-1 node converter
// (protocol/native/objecttonoder.go): nested maps and lists become nodes
// whose internal type, token, start position and properties are filled
// from configured keys.
module ObjectToNoder {
  import opened Wrappers
  import opened Strings
  import opened Legacy
  import UastNode
  import Sorting
  import ProtocolTypes

  type Native = UastNode.Native
  type FloatBits = bv64

  /** The converter's settings; a map to bool is kept as the set of keys mapped to true. */
  datatype Config = Config(
    internalTypeKey: string,
    offsetKey: string,
    lineKey: string,
    columnKey: string,
    tokenKeys: set<string>,
    syntheticTokens: map<string, string>,
    promotedPropertyLists: map<string, set<string>>,
    promoteAllPropertyLists: bool,
    topLevelIsRootNode: bool)

  datatype Error =
    | EmptyAST
    | TwoTokensSameNode(was: string, now: string)
    | TwoTypesSameNode(was: string, now: string)
    | UnexpectedObject
    | UnexpectedObjectSize(want: nat, got: nat)
    | Unsupported(what: string)
    | Uint32Error

  const Unannotated := "Unannotated"
  const PromotedKey := "promotedPropertyList"

  /** uast.NewNode: no type, token or position, empty properties, the Unannotated role. */
  function NewNode(): LNode
  {
    LNode("", map[], [], "", None, None, [Unannotated])
  }

  /**
   * fmt.Sprint of a decoded JSON scalar; nil prints as "<nil>". Maps and
   * slices never get here: the type switch of toNode handles them before
   * addProperty (protocol/native/objecttonoder.go:125-153). A JSON decoder
   * never produces GoNode or GoOther values either; fmt.Sprint would print
   * them, and the "" given for them here stands in for that output.
   */
  function NativeSprint(o: Native, formatFloat: FloatBits -> string): string
  {
    match o
    case GoString(s) => s
    case GoInt(i) => UastNode.Decimal(i)
    case GoFloat64(b) => formatFloat(b)
    case GoBool(b) => if b then "true" else "false"
    case GoNil => "<nil>"
    case _ => ""
  }

  // ------------------------------------------------------------ uint32

  /** strconv.ParseUint(s, 10, 32): a non-empty run of decimal digits below 2^32. */
  function ParseUint32(s: string): (r: Result<nat, Error>)
    ensures r.Ok? ==> r.value < 0x1_0000_0000
  {
    if s != [] && (forall i :: 0 <= i < |s| ==> '0' <= s[i] <= '9') && UastNode.DigitsValue(s) < 0x1_0000_0000
    then Ok(UastNode.DigitsValue(s))
    else Err(Uint32Error)
  }

  /** toUint32: decimal strings, integers truncated to 32 bits, floats through int64; nothing else. */
  function ToUint32(o: Native): (r: Result<nat, Error>)
    ensures r.Ok? ==> r.value < 0x1_0000_0000
  {
    match o
    case GoString(s) => ParseUint32(s)
    case GoInt(i) => Ok(ProtocolTypes.Uint32(i))
    case GoFloat64(b) => Ok(ProtocolTypes.Uint32(UastNode.TruncInt64(b)))
    case _ => Err(Uint32Error)
  }

  /** A printed uint32 parses back to itself. */
  lemma {:induction false} ToUint32Digits(n: nat)
    requires n < 0x1_0000_0000
    ensures ToUint32(UastNode.GoString(UastNode.Digits(n))) == Ok(n)
  {
    UastNode.DigitsRoundTrip(n);
  }

  /** Empty strings, strings with a non-digit (a sign, say) and booleans are refused. */
  lemma {:induction false} ToUint32Refuses(s: string, i: int, b: bool)
    requires 0 <= i < |s| && !('0' <= s[i] <= '9')
    ensures ToUint32(UastNode.GoString("")) == Err(Uint32Error)
    ensures ToUint32(UastNode.GoString(s)) == Err(Uint32Error)
    ensures ToUint32(UastNode.GoBool(b)) == Err(Uint32Error)
  {
  }

  // ------------------------------------------------------ node fields

  /** setInternalKey: a node with a different non-empty type is refused. */
  function SetInternalKey(n: LNode, k: string): (r: Result<LNode, Error>)
    ensures r.Err? <==> n.internalType != "" && n.internalType != k
    ensures r.Ok? ==> r.value == n.(internalType := k)
  {
    if n.internalType != "" && n.internalType != k then Err(TwoTypesSameNode(n.internalType, k))
    else Ok(n.(internalType := k))
  }

  /** Setting the token: a different non-empty token is refused. */
  function SetToken(n: LNode, s: string): (r: Result<LNode, Error>)
    ensures r.Err? <==> n.token != "" && n.token != s
    ensures r.Ok? ==> r.value == n.(token := s)
  {
    if n.token != "" && n.token != s then Err(TwoTokensSameNode(n.token, s)) else Ok(n.(token := s))
  }

  /** The start position, created empty on first use. */
  function StartOrZero(n: LNode): Position
  {
    if n.start.Some? then n.start.value else Position(0, 0, 0)
  }

  /** addProperty: token keys, the type key's synthetic token, the three position keys, or a property. */
  function AddProperty(c: Config, n: LNode, k: string, o: Native, formatFloat: FloatBits -> string): Result<LNode, Error>
  {
    if k in c.tokenKeys then SetToken(n, NativeSprint(o, formatFloat))
    else if k == c.internalTypeKey then
      var s := NativeSprint(o, formatFloat);
      var tk := if s in c.syntheticTokens then c.syntheticTokens[s] else "";
      if tk != "" then SetToken(n, tk) else Ok(n)
    else if k == c.offsetKey then
      match ToUint32(o)
      case Err(e) => Err(e)
      case Ok(i) => Ok(n.(start := Some(StartOrZero(n).(offset := i))))
    else if k == c.lineKey then
      match ToUint32(o)
      case Err(e) => Err(e)
      case Ok(i) => Ok(n.(start := Some(StartOrZero(n).(line := i))))
    else if k == c.columnKey then
      match ToUint32(o)
      case Err(e) => Err(e)
      case Ok(i) => Ok(n.(start := Some(StartOrZero(n).(col := i))))
    else Ok(n.(properties := n.properties[k := NativeSprint(o, formatFloat)]))
  }

  /** The nodes with internalRole set to the field they were listed under. */
  function WithField(ns: seq<LNode>, k: string): (r: seq<LNode>)
    ensures |r| == |ns|
    ensures forall i :: 0 <= i < |ns| ==> r[i] == ns[i].(properties := ns[i].properties[InternalRoleKey := k])
  {
    seq(|ns|, i requires 0 <= i < |ns| => ns[i].(properties := ns[i].properties[InternalRoleKey := k]))
  }

  /** The node a promoted list becomes: typed parent.key, marked, holding the converted elements. */
  function PromotedNode(typ: string, ns: seq<LNode>): LNode
  {
    NewNode().(internalType := typ, properties := map[PromotedKey := "true"], children := ns)
  }

  /** byOffset.Less of this converter: positioned before unpositioned, then by offset. */
  predicate ByOffsetLess(a: LNode, b: LNode)
  {
    var ap := ProtocolTypes.StartPos(a);
    var bp := ProtocolTypes.StartPos(b);
    if ap.None? then false else if bp.None? then true else ap.value.offset < bp.value.offset
  }

  // -------------------------------------------------------- conversion

  /** The internal type of an object: the string under the type key, else empty. */
  function InternalKey(c: Config, m: map<string, Native>): string
  {
    if c.internalTypeKey in m && m[c.internalTypeKey].GoString? then m[c.internalTypeKey].s else ""
  }

  /** The keys whose lists are promoted for an object of the given type. */
  function PromotedKeys(c: Config, internalKey: string): set<string>
  {
    if !c.promoteAllPropertyLists && internalKey in c.promotedPropertyLists then c.promotedPropertyLists[internalKey] else {}
  }

  /** toNode: an object becomes a node; its fields are taken in sorted key order. */
  ghost function Convert(c: Config, o: Native, formatFloat: FloatBits -> string): Result<LNode, Error>
    decreases o, 3, 0
  {
    if !o.GoMap? then Err(UnexpectedObject)
    else
      var m := o.entries;
      var internalKey := InternalKey(c, m);
      var n0 := NewNode().(internalType := internalKey);
      match Fields(c, m, SortedKeys(m.Keys), n0, internalKey, formatFloat)
      case Err(e) => Err(e)
      case Ok(n) => Ok(n.(children := Sorting.SortStable(n.children, ByOffsetLess)))
  }

  /** The node after the fields under keys have been added, in the order of keys. */
  ghost function Fields(c: Config, m: map<string, Native>, keys: seq<string>, n0: LNode, internalKey: string,
                        formatFloat: FloatBits -> string): Result<LNode, Error>
    decreases UastNode.GoMap(m), 2, |keys|
  {
    if keys == [] then Ok(n0)
    else
      match Fields(c, m, keys[..|keys| - 1], n0, internalKey, formatFloat)
      case Err(e) => Err(e)
      case Ok(n) =>
        var k := keys[|keys| - 1];
        if k in m then AddField(c, m, k, n, internalKey, formatFloat) else Ok(n)
  }

  /** One field: a map becomes a child, a list children or one promoted child, anything else a property. */
  ghost function AddField(c: Config, m: map<string, Native>, k: string, n: LNode, internalKey: string,
                          formatFloat: FloatBits -> string): Result<LNode, Error>
    requires k in m
    decreases UastNode.GoMap(m), 1, 0
  {
    match m[k]
    case GoMap(_) =>
      (match Convert(c, m[k], formatFloat)
       case Err(e) => Err(e)
       case Ok(child) =>
         Ok(n.(children := n.children + [child.(properties := child.properties[InternalRoleKey := k])])))
    case GoSlice(s) =>
      (match Elements(c, s, formatFloat)
       case Err(e) => Err(e)
       case Ok(ns) =>
         if c.promoteAllPropertyLists || k in PromotedKeys(c, internalKey) then
           if ns == [] then Ok(n)
           else Ok(n.(children := n.children + [PromotedNode(internalKey + "." + k, ns)]))
         else Ok(n.(children := n.children + WithField(ns, k))))
    case _ => AddProperty(c, n, k, m[k], formatFloat)
  }

  /** The elements of a list converted in order; the first failure is returned. */
  ghost function Elements(c: Config, s: seq<Native>, formatFloat: FloatBits -> string): Result<seq<LNode>, Error>
    decreases s, 0, 0
  {
    if s == [] then Ok([])
    else
      match Elements(c, s[..|s| - 1], formatFloat)
      case Err(e) => Err(e)
      case Ok(ns) =>
        match Convert(c, s[|s| - 1], formatFloat)
        case Err(e) => Err(e)
        case Ok(n) => Ok(ns + [n])
  }

  /** findRoot: the input itself, or the value of its only key. */
  ghost function FindRoot(m: map<string, Native>, topLevelIsRootNode: bool): (r: Result<Native, Error>)
    ensures r.Ok? && !topLevelIsRootNode ==> r.value in m.Values
  {
    if |m| == 0 then Err(EmptyAST)
    else if topLevelIsRootNode then Ok(UastNode.GoMap(m))
    else if |m| > 1 then Err(UnexpectedObjectSize(1, |m|))
    else
      var k :| k in m;
      Ok(m[k])
  }

  /** A map of one key has no other key. */
  lemma {:induction false} SoleKey<V>(m: map<string, V>, k: string)
    requires |m| == 1 && k in m
    ensures m == map[k := m[k]]
  {
    forall k' | k' in m ensures k' == k {
      if k' != k {
        assert {k, k'} <= m.Keys;
        assert |{k, k'}| == 2;
        SubsetCard({k, k'}, m.Keys);
      }
    }
  }

  lemma {:induction false} SubsetCard(a: set<string>, b: set<string>)
    requires a <= b
    ensures |a| <= |b|
  {
    assert b == a + (b - a);
  }

  /** ObjectToNoder.ToNode. */
  ghost function ToNode(c: Config, v: Native, formatFloat: FloatBits -> string): Result<LNode, Error>
  {
    if !v.GoMap? then Err(Unsupported("non-object root node"))
    else
      match FindRoot(v.entries, c.topLevelIsRootNode)
      case Err(e) => Err(e)
      case Ok(root) => Convert(c, root, formatFloat)
  }

  // -------------------------------------------------------- properties

  /** A root that is not a map, an empty map, or a map of several keys when the root is its only value, are refused. */
  lemma {:induction false} ToNodeErrors(c: Config, v: Native, formatFloat: FloatBits -> string)
    ensures !v.GoMap? ==> ToNode(c, v, formatFloat) == Err(Unsupported("non-object root node"))
    ensures v.GoMap? && |v.entries| == 0 ==> ToNode(c, v, formatFloat) == Err(EmptyAST)
    ensures v.GoMap? && |v.entries| > 1 && !c.topLevelIsRootNode ==>
      ToNode(c, v, formatFloat) == Err(UnexpectedObjectSize(1, |v.entries|))
  {
  }

  /** With a single key and the root below it, the root is that key's value. */
  lemma {:induction false} ToNodeSingleKey(c: Config, k: string, root: Native, formatFloat: FloatBits -> string)
    requires !c.topLevelIsRootNode
    ensures ToNode(c, UastNode.GoMap(map[k := root]), formatFloat) == Convert(c, root, formatFloat)
  {
    var m := map[k := root];
    assert |m| == 1;
  }

  /** setInternalKey on a fresh node always succeeds; a conflicting non-empty type is refused. */
  lemma {:induction false} SetInternalKeyCases(n: LNode, a: string, b: string)
    requires a != "" && a != b
    ensures SetInternalKey(NewNode(), a) == Ok(NewNode().(internalType := a))
    ensures SetInternalKey(n.(internalType := a), b) == Err(TwoTypesSameNode(a, b))
    ensures SetInternalKey(n.(internalType := a), a).Ok?
  {
  }

  /** Two different tokens on one node are refused; the same token twice is accepted. */
  lemma {:induction false} AddPropertyTokens(c: Config, n: LNode, k: string, o: Native, formatFloat: FloatBits -> string)
    requires k in c.tokenKeys && n.token != ""
    ensures NativeSprint(o, formatFloat) != n.token ==>
      AddProperty(c, n, k, o, formatFloat) == Err(TwoTokensSameNode(n.token, NativeSprint(o, formatFloat)))
    ensures NativeSprint(o, formatFloat) == n.token ==> AddProperty(c, n, k, o, formatFloat) == Ok(n)
  {
  }

  /** A plain key becomes a printed property and nothing else changes. */
  lemma {:induction false} AddPropertyPlain(c: Config, n: LNode, k: string, o: Native, formatFloat: FloatBits -> string)
    requires k !in c.tokenKeys && k != c.internalTypeKey && k != c.offsetKey && k != c.lineKey && k != c.columnKey
    ensures AddProperty(c, n, k, o, formatFloat) == Ok(n.(properties := n.properties[k := NativeSprint(o, formatFloat)]))
  {
  }

  /** The position keys each fill one field of the start position, leaving the others as they were. */
  lemma {:induction false} AddPropertyOffset(c: Config, n: LNode, k: string, i: int, formatFloat: FloatBits -> string)
    requires k !in c.tokenKeys && k != c.internalTypeKey && k == c.offsetKey
    requires 0 <= i < 0x1_0000_0000
    ensures var r := AddProperty(c, n, k, UastNode.GoInt(i), formatFloat);
      && r.Ok? && r.value.start.Some? && r.value.start.value.offset == i
      && (n.start.Some? ==> r.value.start.value.line == n.start.value.line && r.value.start.value.col == n.start.value.col)
      && r.value.(start := n.start) == n
  {
  }

  /** An empty list under a promoted key adds no child. */
  lemma {:induction false} EmptyPromotedList(c: Config, m: map<string, Native>, k: string, n: LNode, internalKey: string, formatFloat: FloatBits -> string)
    requires k in m && m[k] == UastNode.GoSlice([])
    requires c.promoteAllPropertyLists || k in PromotedKeys(c, internalKey)
    ensures AddField(c, m, k, n, internalKey, formatFloat) == Ok(n)
  {
  }

  /** A nested object becomes one child carrying its key as internalRole. */
  lemma {:induction false} MapFieldChild(c: Config, m: map<string, Native>, k: string, n: LNode, internalKey: string, formatFloat: FloatBits -> string)
    requires k in m && m[k].GoMap? && Convert(c, m[k], formatFloat).Ok?
    ensures var r := AddField(c, m, k, n, internalKey, formatFloat);
      && r.Ok? && |r.value.children| == |n.children| + 1
      && r.value.children[..|n.children|] == n.children
      && r.value.children[|n.children|].properties[InternalRoleKey] == k
  {
  }

  lemma {:induction false} ByOffsetAsymmetric()
    ensures Sorting.Asymmetric(ByOffsetLess)
  {
  }

  /** Positioned children come before all unpositioned ones. */
  lemma {:induction false} UnpositionedLast(c: Config, o: Native, formatFloat: FloatBits -> string, i: int, j: int)
    requires Convert(c, o, formatFloat).Ok?
    requires var ch := Convert(c, o, formatFloat).value.children; 0 <= i <= j < |ch| && !ProtocolTypes.Positioned(ch[i])
    ensures !ProtocolTypes.Positioned(Convert(c, o, formatFloat).value.children[j])
  {
    var m := o.entries;
    var n := Fields(c, m, SortedKeys(m.Keys), NewNode().(internalType := InternalKey(c, m)), InternalKey(c, m), formatFloat).value;
    var ch := Sorting.SortStable(n.children, ByOffsetLess);
    ByOffsetAsymmetric();
    Sorting.SortStableOrdered(n.children, ByOffsetLess);
    Sorting.OrderedPartitions(ch, ByOffsetLess, Unplaced, i, j);
  }

  predicate Unplaced(n: LNode) { !ProtocolTypes.Positioned(n) }

  /** The internal type of a converted object is the string under the type key. */
  lemma {:induction false} ConvertType(c: Config, m: map<string, Native>, formatFloat: FloatBits -> string)
    requires Convert(c, UastNode.GoMap(m), formatFloat).Ok?
    ensures Convert(c, UastNode.GoMap(m), formatFloat).value.internalType == InternalKey(c, m)
  {
    FieldsKeepType(c, m, SortedKeys(m.Keys), NewNode().(internalType := InternalKey(c, m)), InternalKey(c, m), formatFloat);
  }

  /** The fields never change the internal type set before them. */
  lemma {:induction false} FieldsKeepType(c: Config, m: map<string, Native>, keys: seq<string>, n0: LNode, internalKey: string,
                                          formatFloat: FloatBits -> string)
    ensures Fields(c, m, keys, n0, internalKey, formatFloat).Ok? ==>
      Fields(c, m, keys, n0, internalKey, formatFloat).value.internalType == n0.internalType
    decreases |keys|
  {
    if keys != [] {
      FieldsKeepType(c, m, keys[..|keys| - 1], n0, internalKey, formatFloat);
    }
  }

  // ----------------------------------------------------------- methods

  /** The loop of toNode over keys, each field added in turn. */
  method FieldsM(c: Config, m: map<string, Native>, keys: seq<string>, n0: LNode, internalKey: string,
                 formatFloat: FloatBits -> string) returns (r: Result<LNode, Error>)
    requires forall k :: k in keys ==> k in m
    ensures r == Fields(c, m, keys, n0, internalKey, formatFloat)
    decreases UastNode.GoMap(m), 2
  {
    var n := n0;
    for i := 0 to |keys|
      invariant Fields(c, m, keys[..i], n0, internalKey, formatFloat) == Ok(n)
    {
      var k := keys[i];
      assert k in keys;
      assert keys[..i + 1][..i] == keys[..i];
      var step := AddFieldM(c, m, k, n, internalKey, formatFloat);
      if step.Err? {
        FieldsFailStays(c, m, keys, i + 1, n0, internalKey, formatFloat);
        assert keys[..|keys|] == keys;
        return step;
      }
      n := step.value;
    }
    assert keys[..|keys|] == keys;
    r := Ok(n);
  }

  /** Once a field fails, the remaining fields keep the failure. */
  lemma {:induction false} FieldsFailStays(c: Config, m: map<string, Native>, keys: seq<string>, i: int, n0: LNode,
                                           internalKey: string, formatFloat: FloatBits -> string)
    requires 0 <= i <= |keys|
    requires Fields(c, m, keys[..i], n0, internalKey, formatFloat).Err?
    ensures Fields(c, m, keys, n0, internalKey, formatFloat) == Fields(c, m, keys[..i], n0, internalKey, formatFloat)
    decreases |keys| - i
  {
    if i < |keys| {
      assert keys[..i + 1][..i] == keys[..i];
      FieldsFailStays(c, m, keys, i + 1, n0, internalKey, formatFloat);
    } else {
      assert keys[..i] == keys;
    }
  }

  method AddFieldM(c: Config, m: map<string, Native>, k: string, n: LNode, internalKey: string,
                   formatFloat: FloatBits -> string) returns (r: Result<LNode, Error>)
    requires k in m
    ensures r == AddField(c, m, k, n, internalKey, formatFloat)
    decreases UastNode.GoMap(m), 1
  {
    match m[k] {
      case GoMap(_) =>
        var child := ConvertM(c, m[k], formatFloat);
        if child.Err? {
          return Err(child.error);
        }
        var ch := child.value;
        r := Ok(n.(children := n.children + [ch.(properties := ch.properties[InternalRoleKey := k])]));
      case GoSlice(s) =>
        var ns := ElementsM(c, s, formatFloat);
        if ns.Err? {
          return Err(ns.error);
        }
        if c.promoteAllPropertyLists || k in PromotedKeys(c, internalKey) {
          if ns.value == [] {
            r := Ok(n);
          } else {
            r := Ok(n.(children := n.children + [PromotedNode(internalKey + "." + k, ns.value)]));
          }
        } else {
          r := Ok(n.(children := n.children + WithField(ns.value, k)));
        }
      case _ =>
        r := AddProperty(c, n, k, m[k], formatFloat);
    }
  }

  method ElementsM(c: Config, s: seq<Native>, formatFloat: FloatBits -> string) returns (r: Result<seq<LNode>, Error>)
    ensures r == Elements(c, s, formatFloat)
    decreases s, 0
  {
    var ns: seq<LNode> := [];
    for i := 0 to |s|
      invariant Elements(c, s[..i], formatFloat) == Ok(ns)
    {
      assert s[..i + 1][..i] == s[..i];
      var n := ConvertM(c, s[i], formatFloat);
      if n.Err? {
        ElementsFailStays(c, s, i + 1, formatFloat);
        assert s[..|s|] == s;
        return Err(n.error);
      }
      ns := ns + [n.value];
    }
    assert s[..|s|] == s;
    r := Ok(ns);
  }

  lemma {:induction false} ElementsFailStays(c: Config, s: seq<Native>, i: int, formatFloat: FloatBits -> string)
    requires 0 <= i <= |s|
    requires Elements(c, s[..i], formatFloat).Err?
    ensures Elements(c, s, formatFloat) == Elements(c, s[..i], formatFloat)
    decreases |s| - i
  {
    if i < |s| {
      assert s[..i + 1][..i] == s[..i];
      ElementsFailStays(c, s, i + 1, formatFloat);
    } else {
      assert s[..i] == s;
    }
  }

  /** toNode: the keys are sorted first, as the source does for reproducible output. */
  method ConvertM(c: Config, o: Native, formatFloat: FloatBits -> string) returns (r: Result<LNode, Error>)
    ensures r == Convert(c, o, formatFloat)
    decreases o, 3
  {
    if !o.GoMap? {
      return Err(UnexpectedObject);
    }
    var m := o.entries;
    var internalKey := InternalKey(c, m);
    var n0 := NewNode();
    var typed := SetInternalKey(n0, internalKey);
    var keys := SortedKeysOf(m);
    var f := FieldsM(c, m, keys, typed.value, internalKey, formatFloat);
    if f.Err? {
      return Err(f.error);
    }
    var n := f.value;
    r := Ok(n.(children := Sorting.SortStable(n.children, ByOffsetLess)));
  }

  method ToNodeM(c: Config, v: Native, formatFloat: FloatBits -> string) returns (r: Result<LNode, Error>)
    ensures r == ToNode(c, v, formatFloat)
  {
    if !v.GoMap? {
      return Err(Unsupported("non-object root node"));
    }
    var m := v.entries;
    if |m| == 0 {
      return Err(EmptyAST);
    }
    var root := v;
    if !c.topLevelIsRootNode {
      if |m| > 1 {
        return Err(UnexpectedObjectSize(1, |m|));
      }
      var k :| k in m;
      SoleKey(m, k);
      root := m[k];
    }
    r := ConvertM(c, root, formatFloat);
  }
}
