// The older uast package's node helpers (uast/node.go): object accessors,
// deep and shallow copies, conversion from schema-less values, the
// pre-order walk and the copy-on-write rewrite Apply.
module UastNode {
  import opened Wrappers
  import opened Strings
  import opened Nodes

  const KeyType := "@type"
  const KeyToken := "@token"
  const KeyRoles := "@role"

  // ------------------------------------------------------------ copies

  /**
   * Clone as written: Object.Clone skips nil fields, but Array.Clone calls
   * Clone on every element, so a nil element of an array panics.
   */
  ghost predicate ClonePanics(n: Node)
  {
    match n
    case Obj(m) => exists k :: k in m && ClonePanics(m[k])
    case Arr(s) => exists i :: 0 <= i < |s| && (s[i] == Null || ClonePanics(s[i]))
    case _ => false
  }

  /** The outcome of Clone as written: None where it panics. */
  ghost function CloneAsWritten(n: Node): (r: Option<Node>)
    ensures r.None? <==> ClonePanics(n)
    ensures r.Some? ==> r.value == n
  {
    if ClonePanics(n) then None else Some(n)
  }

  /** An array holding a nil element, as ToNode produces from a JSON null in a list. */
  lemma {:induction false} CloneAsWrittenPanics()
    ensures CloneAsWritten(Arr([Null])) == None
    ensures CloneAsWritten(Obj(map["a" := Null])) == Some(Obj(map["a" := Null]))
  {
    assert Arr([Null]).elems[0] == Null;
    assert !ClonePanics(Null);
    assert !ClonePanics(Obj(map["a" := Null])) by {
      forall k | k in map["a" := Null] ensures !ClonePanics(map["a" := Null][k]) {
      }
    }
  }

  /**
   * Clone, corrected: a deep copy that keeps nil wherever the original has
   * one, in objects and arrays alike. Nodes are values here, so a copy
   * equal to the original is all a deep copy can be.
   */
  method Clone(n: Node) returns (c: Node)
    ensures c == n
    decreases n
  {
    match n
    case Obj(m) =>
      var out: map<string, Node> := map[];
      var rest := m.Keys;
      while rest != {}
        invariant rest <= m.Keys
        invariant out.Keys == m.Keys - rest
        invariant forall k :: k in out ==> out[k] == m[k]
        decreases |rest|
      {
        var k :| k in rest;
        if m[k] != Null {
          var v := Clone(m[k]);
          out := out[k := v];
        } else {
          out := out[k := Null];
        }
        rest := rest - {k};
      }
      assert out == m;
      c := Obj(out);
    case Arr(s) =>
      var out: seq<Node> := [];
      for i := 0 to |s|
        invariant out == s[..i]
      {
        var v := Clone(s[i]);
        out := out + [v];
      }
      assert s[..|s|] == s;
      c := Arr(out);
    case _ =>
      c := n;
  }

  /** CloneObject: the same keys holding the same (uncopied) children. */
  method CloneObject(m: map<string, Node>) returns (r: map<string, Node>)
    ensures r.Keys == m.Keys
    ensures forall k :: k in r ==> r[k] == m[k]
  {
    r := map[];
    var rest := m.Keys;
    while rest != {}
      invariant rest <= m.Keys
      invariant r.Keys == m.Keys - rest
      invariant forall k :: k in r ==> r[k] == m[k]
      decreases |rest|
    {
      var k :| k in rest;
      r := r[k := m[k]];
      rest := rest - {k};
    }
  }

  // ---------------------------------------------------------- children

  /** The fields under keys that are not values (objects, arrays and nil), in the order of keys. */
  function ChildrenOf(m: map<string, Node>, keys: seq<string>): seq<Node>
  {
    if keys == [] then []
    else
      var k := keys[|keys| - 1];
      ChildrenOf(m, keys[..|keys| - 1]) + (if k in m && !IsValue(m[k]) then [m[k]] else [])
  }

  /** A node is among the children exactly when some listed key holds it and it is not a value. */
  lemma {:induction false} ChildrenOfMembers(m: map<string, Node>, keys: seq<string>, x: Node)
    ensures x in ChildrenOf(m, keys) <==> exists i :: 0 <= i < |keys| && keys[i] in m && m[keys[i]] == x && !IsValue(x)
    decreases |keys|
  {
    if keys != [] {
      var init := keys[..|keys| - 1];
      ChildrenOfMembers(m, init, x);
      if x in ChildrenOf(m, init) {
        var i :| 0 <= i < |init| && init[i] in m && m[init[i]] == x && !IsValue(x);
        assert keys[i] == init[i];
      }
      if exists i :: 0 <= i < |keys| && keys[i] in m && m[keys[i]] == x && !IsValue(x) {
        var i :| 0 <= i < |keys| && keys[i] in m && m[keys[i]] == x && !IsValue(x);
        if i < |init| {
          assert init[i] == keys[i];
        }
      }
    }
  }

  /** Children holds exactly the non-value fields of the object. */
  lemma {:induction false} ChildrenExactly(m: map<string, Node>, x: Node)
    ensures x in ChildrenOf(m, SortedKeys(m.Keys)) <==> exists k :: k in m && m[k] == x && !IsValue(x)
  {
    var keys := SortedKeys(m.Keys);
    ChildrenOfMembers(m, keys, x);
    if exists k :: k in m && m[k] == x && !IsValue(x) {
      var k :| k in m && m[k] == x && !IsValue(x);
      assert k in keys;
      var i :| 0 <= i < |keys| && keys[i] == k;
    }
  }

  lemma {:induction false} ChildrenOfSnoc(m: map<string, Node>, keys: seq<string>, i: int)
    requires 0 <= i < |keys| && keys[i] in m
    ensures ChildrenOf(m, keys[..i + 1]) == ChildrenOf(m, keys[..i]) + (if !IsValue(m[keys[i]]) then [m[keys[i]]] else [])
  {
    assert keys[..i + 1][..i] == keys[..i];
  }

  /** Object.Children: the non-value fields in sorted key order. */
  method Children(m: map<string, Node>) returns (out: seq<Node>)
    ensures out == ChildrenOf(m, SortedKeys(m.Keys))
  {
    var keys := SortedKeysOf(m);
    out := [];
    assert forall k :: k in keys ==> k in m;
    for i := 0 to |keys|
      invariant out == ChildrenOf(m, keys[..i])
    {
      assert keys[i] in keys;
      ChildrenOfSnoc(m, keys, i);
      var v := m[keys[i]];
      if !IsValue(v) {
        out := out + [v];
      }
    }
    assert keys[..|keys|] == keys;
  }

  // --------------------------------------------------------- accessors

  /** Object.Type: the string under @type, or the empty string. */
  function Type(m: map<string, Node>): string
  {
    if KeyType in m && m[KeyType].Str? then m[KeyType].s else ""
  }

  /** Object.SetType: a string property under @type. */
  function SetType(m: map<string, Node>, typ: string): (r: map<string, Node>)
    ensures r.Keys == m.Keys + {KeyType}
  {
    m[KeyType := Str(typ)]
  }

  /** Type reads back what SetType stored, and SetType touches no other field. */
  lemma {:induction false} TypeSetType(m: map<string, Node>, typ: string)
    ensures Type(SetType(m, typ)) == typ
    ensures forall k :: k in m && k != KeyType ==> SetType(m, typ)[k] == m[k]
  {
  }

  /** An object whose @type is absent or is not a string has the empty type. */
  lemma {:induction false} TypeMissing(m: map<string, Node>)
    requires KeyType !in m || !m[KeyType].Str?
    ensures Type(m) == ""
  {
  }

  /** The decimal digits of a natural number, most significant first (strconv.Itoa). */
  function Digits(n: nat): (r: string)
    ensures |r| >= 1
    ensures forall i :: 0 <= i < |r| ==> '0' <= r[i] <= '9'
  {
    if n < 10 then [('0' as int + n) as char]
    else Digits(n / 10) + [('0' as int + n % 10) as char]
  }

  /** The number a string of decimal digits denotes. */
  function DigitsValue(s: string): nat
  {
    if s == [] then 0
    else
      var d := s[|s| - 1] as int - '0' as int;
      DigitsValue(s[..|s| - 1]) * 10 + (if 0 <= d <= 9 then d else 0)
  }

  /** Digits is read back by DigitsValue. */
  lemma {:induction false} DigitsRoundTrip(n: nat)
    ensures DigitsValue(Digits(n)) == n
  {
    if n >= 10 {
      DigitsRoundTrip(n / 10);
      var r := Digits(n);
      assert r[..|r| - 1] == Digits(n / 10);
    }
  }

  /** fmt.Sprint of an integer. */
  function Decimal(i: int): (r: string)
    ensures |r| >= 1
  {
    if i < 0 then "-" + Digits(-i) else Digits(i)
  }

  /** fmt.Sprint of a value; float formatting is given by the caller. */
  function Sprint(v: Node, formatFloat: FloatBits -> string): string
  {
    match v
    case Str(s) => s
    case Int(i) => Decimal(i)
    case Uint(u) => Digits(u)
    case Float(b) => formatFloat(b)
    case Bool(b) => if b then "true" else "false"
    case _ => ""
  }

  /** Object.Token: the string under @token, another value printed, or the empty string. */
  function Token(m: map<string, Node>, formatFloat: FloatBits -> string): string
  {
    if KeyToken in m && IsValue(m[KeyToken]) then Sprint(m[KeyToken], formatFloat) else ""
  }

  function SetToken(m: map<string, Node>, tok: string): map<string, Node>
  {
    m[KeyToken := Str(tok)]
  }

  /** Token reads back what SetToken stored; integer and boolean tokens are printed. */
  lemma {:induction false} TokenSetToken(m: map<string, Node>, tok: string, i: int, b: bool, formatFloat: FloatBits -> string)
    ensures Token(SetToken(m, tok), formatFloat) == tok
    ensures Token(m[KeyToken := Int(i)], formatFloat) == Decimal(i)
    ensures Token(m[KeyToken := Bool(b)], formatFloat) == (if b then "true" else "false")
    ensures KeyToken !in m ==> Token(m, formatFloat) == ""
  {
  }

  /** A printed integer token denotes the integer. */
  lemma {:induction false} TokenOfInt(m: map<string, Node>, i: nat, formatFloat: FloatBits -> string)
    ensures DigitsValue(Token(m[KeyToken := Int(i)], formatFloat)) == i
  {
    DigitsRoundTrip(i);
  }

  /** The string elements of an array, in order; other elements are skipped. */
  function StringsOf(s: seq<Node>): seq<string>
  {
    if s == [] then []
    else StringsOf(s[..|s| - 1]) + (if s[|s| - 1].Str? then [s[|s| - 1].s] else [])
  }

  /** Object.Roles: the strings in the @role array; no array gives no roles. */
  function Roles(m: map<string, Node>): seq<string>
  {
    if KeyRoles in m && m[KeyRoles].Arr? then StringsOf(m[KeyRoles].elems) else []
  }

  /** RoleList: an array of role names. */
  function RoleList(roles: seq<string>): (r: Node)
    ensures r.Arr? && |r.elems| == |roles|
    ensures forall i :: 0 <= i < |roles| ==> r.elems[i] == Str(roles[i])
  {
    Arr(seq(|roles|, i requires 0 <= i < |roles| => Str(roles[i])))
  }

  function SetRoles(m: map<string, Node>, roles: seq<string>): map<string, Node>
  {
    m[KeyRoles := RoleList(roles)]
  }

  lemma {:induction false} StringsOfRoleList(roles: seq<string>)
    ensures StringsOf(RoleList(roles).elems) == roles
    decreases |roles|
  {
    if roles != [] {
      var init := roles[..|roles| - 1];
      StringsOfRoleList(init);
      assert RoleList(roles).elems[..|roles| - 1] == RoleList(init).elems;
    }
  }

  /** Roles reads back what SetRoles stored. */
  lemma {:induction false} RolesSetRoles(m: map<string, Node>, roles: seq<string>)
    ensures Roles(SetRoles(m, roles)) == roles
  {
    StringsOfRoleList(roles);
  }

  /** Roles drops the elements of @role that are not strings. */
  lemma {:induction false} RolesSkipNonStrings(m: map<string, Node>, r: string)
    requires m == map[KeyRoles := Arr([Int(1), Str(r), Null])]
    ensures Roles(m) == [r]
  {
    var s := [Int(1), Str(r), Null];
    assert s[..2] == [Int(1), Str(r)];
    assert s[..2][..1] == [Int(1)];
    assert [Int(1)][..0] == [];
    assert StringsOf([Int(1)]) == [];
    assert StringsOf(s[..2]) == [r];
    assert StringsOf(s) == StringsOf(s[..2]);
  }

  // ------------------------------------------------------------ ToNode

  /** The dynamic values a schema-less decoder hands to ToNode, by Go type. */
  datatype Native =
    | GoNil
    | GoNode(node: Node)
    | GoMap(entries: map<string, Native>)
    | GoSlice(items: seq<Native>)
    | GoString(s: string)
    | GoInt(i: int)          // int and int64 alike
    | GoFloat64(bits: FloatBits)
    | GoBool(b: bool)
    | GoOther(typeName: string)

  const Two63: int := 0x8000_0000_0000_0000

  function Pow2(k: nat): (r: nat)
    ensures r >= 1
  {
    if k == 0 then 1 else 2 * Pow2(k - 1)
  }

  /** The fields of an IEEE 754 binary64 bit pattern. */
  function Exponent(b: FloatBits): nat { ((b >> 52) & 0x7FF) as nat }
  function Fraction(b: FloatBits): nat { (b & 0xF_FFFF_FFFF_FFFF) as nat }
  predicate SignBit(b: FloatBits) { b >> 63 == 1 }
  predicate Finite(b: FloatBits) { Exponent(b) != 0x7FF }

  /** A finite float's magnitude is Significand(b) * 2^Scale(b). */
  function Significand(b: FloatBits): nat
  {
    if Exponent(b) == 0 then Fraction(b) else Pow2(52) + Fraction(b)
  }

  function Scale(b: FloatBits): int
  {
    if Exponent(b) == 0 then -1074 else Exponent(b) - 1075
  }

  /** The real number s * 2^e. */
  ghost function ScaledValue(s: nat, e: int): real
  {
    if e >= 0 then (s * Pow2(e)) as real else s as real / Pow2(-e) as real
  }

  /** s * 2^e truncated toward zero. */
  function ScaledTrunc(s: nat, e: int): nat
  {
    if e >= 0 then MulNat(s, Pow2(e)) else DivNat(s, Pow2(-e))
  }

  function MulNat(a: nat, c: nat): nat { a * c }

  function DivNat(a: nat, c: nat): nat
    requires c >= 1
  {
    a / c
  }

  /** Whether s * 2^e is a whole number. */
  predicate ScaledIntegral(s: nat, e: int)
  {
    e >= 0 || s % Pow2(-e) == 0
  }

  /** The real number a finite float denotes. */
  ghost function FloatValue(b: FloatBits): real
    requires Finite(b)
  {
    var mag := ScaledValue(Significand(b), Scale(b));
    if SignBit(b) then -mag else mag
  }

  /** The magnitude truncated toward zero. */
  function TruncMagnitude(b: FloatBits): nat
  {
    ScaledTrunc(Significand(b), Scale(b))
  }

  predicate Integral(b: FloatBits)
  {
    ScaledIntegral(Significand(b), Scale(b))
  }

  /**
   * int64(f) on amd64: truncation toward zero; NaN, the infinities and
   * values outside the int64 range give -2^63.
   */
  function TruncInt64(b: FloatBits): int
  {
    var t := if SignBit(b) then -(TruncMagnitude(b) as int) else TruncMagnitude(b);
    if Finite(b) && -Two63 <= t < Two63 then t else -Two63
  }

  /**
   * float64(int64(f)) == f: the truncated value converts back exactly
   * when f is finite, integral and was not clamped.
   */
  predicate RoundTrips(b: FloatBits)
  {
    var t := if SignBit(b) then -(TruncMagnitude(b) as int) else TruncMagnitude(b);
    Finite(b) && Integral(b) && TruncInt64(b) == t
  }

  /** ToNode on a float64: Int when the value survives the int64 round trip, Float otherwise. */
  function FloatToNode(b: FloatBits): Node
  {
    if RoundTrips(b) then Int(TruncInt64(b)) else Float(b)
  }

  lemma {:induction false} DivExact(s: nat, p: nat, j: int)
    requires p >= 1
    ensures s as real / p as real == j as real <==> s == j * p
  {
    if s as real / p as real == j as real {
      assert s as real == j as real * p as real;
      assert s as real == (j * p) as real;
    }
  }

  /** s * 2^e is the integer j exactly when it is whole and truncates to j. */
  lemma {:induction false} ScaledExact(s: nat, e: int, j: int)
    ensures ScaledValue(s, e) == j as real <==> ScaledIntegral(s, e) && ScaledTrunc(s, e) == j
  {
    if e >= 0 {
      var n := s * Pow2(e);
      assert ScaledValue(s, e) == n as real && ScaledTrunc(s, e) == n;
    } else {
      var p := Pow2(-e);
      assert ScaledValue(s, e) == s as real / p as real;
      assert ScaledTrunc(s, e) == s / p;
      assert ScaledIntegral(s, e) <==> s % p == 0;
      DivExact(s, p, j);
      DivMul(s, p, j);
    }
  }

  lemma {:induction false} DivMul(s: nat, p: nat, j: int)
    requires p >= 1
    ensures s == j * p <==> s % p == 0 && s / p == j
  {
    if s == j * p {
      MulDiv(j, p);
    }
    if s % p == 0 {
      DivExactly(s, p);
    }
  }

  lemma {:induction false} MulDiv(j: int, p: nat)
    requires p >= 1
    ensures (j * p) % p == 0 && (j * p) / p == j
  {
    var q, r := (j * p) / p, (j * p) % p;
    assert j * p == q * p + r && 0 <= r < p;
    assert (j - q) * p == r;
    MulBound(j - q, p);
  }

  lemma {:induction false} MulBound(d: int, p: nat)
    requires p >= 1
    ensures d >= 1 ==> d * p >= p
    ensures d <= -1 ==> d * p <= -(p as int)
  {
    if d >= 1 {
      assert d * p == (d - 1) * p + p;
    } else if d <= -1 {
      assert d * p == (d + 1) * p - p;
    }
  }

  lemma {:induction false} DivExactly(s: nat, p: nat)
    requires p >= 1 && s % p == 0
    ensures s == (s / p) * p
  {
  }

  /** A float becomes Int(i) exactly when it denotes the integer i and i fits in an int64. */
  lemma {:induction false} FloatToNodeInt(b: FloatBits, i: int)
    ensures FloatToNode(b) == Int(i) <==> Finite(b) && FloatValue(b) == i as real && -Two63 <= i < Two63
  {
    if Finite(b) {
      var j := if SignBit(b) then -i else i;
      ScaledExact(Significand(b), Scale(b), j);
    }
  }

  /** Minus zero becomes Int(0); a NaN stays a Float. */
  lemma {:induction false} FloatToNodeExamples(negZero: FloatBits, nan: FloatBits)
    requires negZero == 0x8000_0000_0000_0000 && nan == 0x7FF8_0000_0000_0000
    ensures FloatToNode(negZero) == Int(0)
    ensures FloatToNode(nan) == Float(nan)
  {
    assert Exponent(negZero) == 0 && Fraction(negZero) == 0;
    assert Exponent(nan) == 0x7FF;
  }

  /** The Go type names ToNode rejects somewhere inside o. */
  ghost function Unsupported(o: Native): set<string>
  {
    match o
    case GoMap(m) => set k, t | k in m && t in Unsupported(m[k]) :: t
    case GoSlice(s) => set i, t | 0 <= i < |s| && t in Unsupported(s[i]) :: t
    case GoOther(name) => {name}
    case _ => {}
  }

  /** The node ToNode builds, or None when it fails. */
  ghost function Converted(o: Native): Option<Node>
  {
    match o
    case GoNil => Some(Null)
    case GoNode(n) => Some(n)
    case GoMap(m) =>
      if forall k :: k in m ==> Converted(m[k]).Some? then
        Some(Obj(map k | k in m :: Converted(m[k]).value))
      else None
    case GoSlice(s) =>
      if forall i :: 0 <= i < |s| ==> Converted(s[i]).Some? then
        Some(Arr(seq(|s|, i requires 0 <= i < |s| => Converted(s[i]).value)))
      else None
    case GoString(s) => Some(Str(s))
    case GoInt(i) => Some(Int(i))
    case GoFloat64(b) => Some(FloatToNode(b))
    case GoBool(b) => Some(Bool(b))
    case GoOther(_) => None
  }

  /** ToNode fails exactly when some value inside has an unsupported type. */
  lemma {:induction false} ConvertedFails(o: Native)
    ensures Converted(o).None? <==> Unsupported(o) != {}
    decreases o
  {
    match o
    case GoMap(m) =>
      forall k | k in m ensures Converted(m[k]).None? <==> Unsupported(m[k]) != {} {
        ConvertedFails(m[k]);
      }
      if Converted(o).None? {
        var k :| k in m && Converted(m[k]).None?;
        var t :| t in Unsupported(m[k]);
        assert t in Unsupported(o);
      }
    case GoSlice(s) =>
      forall i | 0 <= i < |s| ensures Converted(s[i]).None? <==> Unsupported(s[i]) != {} {
        ConvertedFails(s[i]);
      }
      if Converted(o).None? {
        var i :| 0 <= i < |s| && Converted(s[i]).None?;
        var t :| t in Unsupported(s[i]);
        assert t in Unsupported(o);
      }
    case _ =>
  }

  function UnsupportedError(typeName: string): string
  {
    "unsupported type: " + typeName
  }

  /**
   * ToNode: nil stays nil, nodes pass through, maps and slices convert
   * element by element and fail on the first element that fails, which
   * for a map depends on its iteration order.
   */
  method ToNode(o: Native) returns (r: Result<Node, string>)
    ensures r.Ok? <==> Converted(o).Some?
    ensures r.Ok? ==> r.value == Converted(o).value
    ensures r.Err? ==> exists t :: t in Unsupported(o) && r.error == UnsupportedError(t)
    decreases o
  {
    match o
    case GoNil => r := Ok(Null);
    case GoNode(n) => r := Ok(n);
    case GoMap(m) =>
      var out: map<string, Node> := map[];
      var rest := m.Keys;
      while rest != {}
        invariant rest <= m.Keys
        invariant out.Keys == m.Keys - rest
        invariant forall k :: k in out ==> Converted(m[k]) == Some(out[k])
        decreases |rest|
      {
        var k :| k in rest;
        var nv := ToNode(m[k]);
        if nv.Err? {
          ghost var t :| t in Unsupported(m[k]) && nv.error == UnsupportedError(t);
          assert t in Unsupported(o);
          return Err(nv.error);
        }
        out := out[k := nv.value];
        rest := rest - {k};
      }
      assert out == map k | k in m :: Converted(m[k]).value;
      r := Ok(Obj(out));
    case GoSlice(s) =>
      var out: seq<Node> := [];
      for i := 0 to |s|
        invariant |out| == i
        invariant forall j :: 0 <= j < i ==> Converted(s[j]) == Some(out[j])
      {
        var nv := ToNode(s[i]);
        if nv.Err? {
          ghost var t :| t in Unsupported(s[i]) && nv.error == UnsupportedError(t);
          assert t in Unsupported(o);
          return Err(nv.error);
        }
        out := out + [nv.value];
      }
      assert out == seq(|s|, i requires 0 <= i < |s| => Converted(s[i]).value);
      r := Ok(Arr(out));
    case GoString(s) => r := Ok(Str(s));
    case GoInt(i) => r := Ok(Int(i));
    case GoFloat64(b) => r := Ok(FloatToNode(b));
    case GoBool(b) => r := Ok(Bool(b));
    case GoOther(name) => r := Err(UnsupportedError(name));
  }

  // ------------------------------------------------------ WalkPreOrder

  /**
   * The nodes WalkPreOrder hands to walk, in call order: the node itself,
   * then (unless walk said false) its fields in sorted key order or its
   * elements in order. Nil fields and elements are handed over too.
   */
  ghost function Walked(n: Node, walk: Node -> bool): seq<Node>
    decreases n, if n.Obj? then |n.fields.Keys| + 1 else 0
  {
    if !walk(n) then [n]
    else
      match n
      case Obj(m) => [n] + WalkedKeys(m, SortedKeys(m.Keys), walk)
      case Arr(s) => [n] + WalkedSeq(s, walk)
      case _ => [n]
  }

  ghost function WalkedKeys(m: map<string, Node>, keys: seq<string>, walk: Node -> bool): seq<Node>
    decreases Obj(m), |keys|
  {
    if keys == [] then []
    else (if keys[0] in m then Walked(m[keys[0]], walk) else []) + WalkedKeys(m, keys[1..], walk)
  }

  ghost function WalkedSeq(s: seq<Node>, walk: Node -> bool): seq<Node>
    decreases s
  {
    if s == [] then [] else Walked(s[0], walk) + WalkedSeq(s[1..], walk)
  }

  /** A walk that never stops visits every node of the tree, nil included, once. */
  lemma {:induction false} WalkedAll(n: Node, walk: Node -> bool)
    requires forall x :: walk(x)
    ensures |Walked(n, walk)| == Size(n)
    decreases n, if n.Obj? then |n.fields.Keys| + 1 else 0
  {
    match n
    case Obj(m) => WalkedKeysAll(m, SortedKeys(m.Keys), walk);
    case Arr(s) => WalkedSeqAll(s, walk);
    case _ =>
  }

  lemma {:induction false} WalkedKeysAll(m: map<string, Node>, keys: seq<string>, walk: Node -> bool)
    requires forall x :: walk(x)
    ensures |WalkedKeys(m, keys, walk)| == SizeKeys(m, keys)
    decreases Obj(m), |keys|
  {
    if keys != [] {
      if keys[0] in m { WalkedAll(m[keys[0]], walk); }
      WalkedKeysAll(m, keys[1..], walk);
    }
  }

  lemma {:induction false} WalkedSeqAll(s: seq<Node>, walk: Node -> bool)
    requires forall x :: walk(x)
    ensures |WalkedSeq(s, walk)| == SizeSeq(s)
    decreases s
  {
    if s != [] {
      WalkedAll(s[0], walk);
      WalkedSeqAll(s[1..], walk);
    }
  }

  /** A walk that refuses the root sees nothing else. */
  lemma {:induction false} WalkedStops(n: Node, walk: Node -> bool)
    requires !walk(n)
    ensures Walked(n, walk) == [n]
  {
  }

  /** WalkPreOrder; the calls to walk are returned as the sequence of their arguments. */
  method WalkPreOrder(root: Node, walk: Node -> bool) returns (visited: seq<Node>)
    ensures visited == Walked(root, walk)
    decreases root
  {
    visited := [root];
    if !walk(root) {
      return;
    }
    match root
    case Obj(m) =>
      var keys := SortedKeysOf(m);
      for i := 0 to |keys|
        invariant visited + WalkedKeys(m, keys[i..], walk) == Walked(root, walk)
      {
        assert keys[i] in keys;
        assert keys[i..][1..] == keys[i + 1..];
        var sub := WalkPreOrder(m[keys[i]], walk);
        Assoc(visited, sub, WalkedKeys(m, keys[i + 1..], walk));
        visited := visited + sub;
      }
    case Arr(s) =>
      for i := 0 to |s|
        invariant visited + WalkedSeq(s[i..], walk) == Walked(root, walk)
      {
        assert s[i..][1..] == s[i + 1..];
        var sub := WalkPreOrder(s[i], walk);
        Assoc(visited, sub, WalkedSeq(s[i + 1..], walk));
        visited := visited + sub;
      }
    case _ =>
  }

  // ------------------------------------------------------------- Apply

  /**
   * Apply: nil is returned unchanged without a callback; otherwise the
   * children are rewritten first, the node is copied only when some child
   * reports a change, and the callback then sees the (possibly copied) node.
   */
  ghost function Apply(root: Node, f: Node -> (Node, bool)): (Node, bool)
    decreases root, 1
  {
    if root == Null then (Null, false)
    else
      var (r, changed) := Rebuild(root, f);
      var (nn, changed2) := f(r);
      (nn, changed || changed2)
  }

  /** The node with its changed children replaced, and whether any child changed. */
  ghost function Rebuild(root: Node, f: Node -> (Node, bool)): (Node, bool)
    decreases root, 0
  {
    match root
    case Obj(m) =>
      if exists k :: k in m && Apply(m[k], f).1 then
        (Obj(map k | k in m :: if Apply(m[k], f).1 then Apply(m[k], f).0 else m[k]), true)
      else (root, false)
    case Arr(s) =>
      if exists i :: 0 <= i < |s| && Apply(s[i], f).1 then
        (Arr(seq(|s|, i requires 0 <= i < |s| => if Apply(s[i], f).1 then Apply(s[i], f).0 else s[i])), true)
      else (root, false)
    case _ => (root, false)
  }

  /** The arguments of all callback invocations Apply makes, as a multiset (map order is free). */
  ghost function Calls(root: Node, f: Node -> (Node, bool)): multiset<Node>
    decreases root, 2, 0
  {
    if root == Null then multiset{} else KidCalls(root, f) + multiset{Rebuild(root, f).0}
  }

  ghost function KidCalls(root: Node, f: Node -> (Node, bool)): multiset<Node>
    decreases root, 1, 0
  {
    match root
    case Obj(m) => CallsKeys(m, SortedKeys(m.Keys), f)
    case Arr(s) => CallsSeq(s, f)
    case _ => multiset{}
  }

  ghost function CallsKeys(m: map<string, Node>, keys: seq<string>, f: Node -> (Node, bool)): multiset<Node>
    decreases Obj(m), 0, |keys|
  {
    if keys == [] then multiset{}
    else (if keys[0] in m then Calls(m[keys[0]], f) else multiset{}) + CallsKeys(m, keys[1..], f)
  }

  ghost function CallsSeq(s: seq<Node>, f: Node -> (Node, bool)): multiset<Node>
    decreases s
  {
    if s == [] then multiset{} else Calls(s[0], f) + CallsSeq(s[1..], f)
  }

  ghost predicate Flagged(calls: multiset<Node>, f: Node -> (Node, bool))
  {
    exists x :: x in calls && f(x).1
  }

  /** Apply reports a change exactly when some callback invocation reported one. */
  lemma {:induction false} ApplyChanged(root: Node, f: Node -> (Node, bool))
    ensures Apply(root, f).1 <==> Flagged(Calls(root, f), f)
    decreases root, 2, 0
  {
    if root != Null {
      KidsChanged(root, f);
    }
  }

  lemma {:induction false} KidsChanged(root: Node, f: Node -> (Node, bool))
    ensures Rebuild(root, f).1 <==> Flagged(KidCalls(root, f), f)
    decreases root, 1, 1
  {
    match root
    case Obj(m) =>
      ObjectKidsChanged(m, f);
    case Arr(s) =>
      SeqChanged(s, f);
    case _ =>
  }

  lemma {:induction false} ObjectKidsChanged(m: map<string, Node>, f: Node -> (Node, bool))
    ensures Rebuild(Obj(m), f).1 <==> Flagged(CallsKeys(m, SortedKeys(m.Keys), f), f)
    decreases Obj(m), 1, 0
  {
    var keys := SortedKeys(m.Keys);
    KeysChanged(m, keys, f);
    RebuildObjectFlag(m, f);
    SomeKeyChanged(m, keys, f);
  }

  lemma {:induction false} RebuildObjectFlag(m: map<string, Node>, f: Node -> (Node, bool))
    ensures Rebuild(Obj(m), f).1 <==> exists k :: k in m && Apply(m[k], f).1
  {
  }

  /** Some child changes exactly when the child under some listed key does, when keys lists m's keys. */
  lemma {:induction false} SomeKeyChanged(m: map<string, Node>, keys: seq<string>, f: Node -> (Node, bool))
    requires forall k :: k in keys <==> k in m
    ensures (exists k :: k in m && Apply(m[k], f).1) <==> (exists i :: 0 <= i < |keys| && keys[i] in m && Apply(m[keys[i]], f).1)
  {
    if exists k :: k in m && Apply(m[k], f).1 {
      var k :| k in m && Apply(m[k], f).1;
      assert k in keys;
      var i :| 0 <= i < |keys| && keys[i] == k;
    }
  }

  lemma {:induction false} KeysChanged(m: map<string, Node>, keys: seq<string>, f: Node -> (Node, bool))
    ensures Flagged(CallsKeys(m, keys, f), f) <==> exists i :: 0 <= i < |keys| && keys[i] in m && Apply(m[keys[i]], f).1
    decreases Obj(m), 0, |keys|
  {
    if keys != [] {
      var head := if keys[0] in m then Calls(m[keys[0]], f) else multiset{};
      if keys[0] in m { ApplyChanged(m[keys[0]], f); }
      KeysChanged(m, keys[1..], f);
      FlaggedUnion(head, CallsKeys(m, keys[1..], f), f);
      KeyChangedCons(m, keys, f);
    }
  }

  /** A change is flagged in a union of calls exactly when it is flagged in one of the two. */
  lemma {:induction false} FlaggedUnion(a: multiset<Node>, b: multiset<Node>, f: Node -> (Node, bool))
    ensures Flagged(a + b, f) <==> Flagged(a, f) || Flagged(b, f)
  {
    if Flagged(a + b, f) {
      var x :| x in a + b && f(x).1;
      assert x in a || x in b;
    }
    if Flagged(a, f) {
      var x :| x in a && f(x).1;
      assert x in a + b;
    }
    if Flagged(b, f) {
      var x :| x in b && f(x).1;
      assert x in a + b;
    }
  }

  /** Some listed key's field reports a change exactly when the first one does or one of the rest does. */
  lemma {:induction false} KeyChangedCons(m: map<string, Node>, keys: seq<string>, f: Node -> (Node, bool))
    requires keys != []
    ensures (exists i :: 0 <= i < |keys| && keys[i] in m && Apply(m[keys[i]], f).1) <==>
      (keys[0] in m && Apply(m[keys[0]], f).1) || exists i :: 0 <= i < |keys[1..]| && keys[1..][i] in m && Apply(m[keys[1..][i]], f).1
  {
    if exists i :: 0 <= i < |keys| && keys[i] in m && Apply(m[keys[i]], f).1 {
      var i :| 0 <= i < |keys| && keys[i] in m && Apply(m[keys[i]], f).1;
      if i > 0 { assert keys[1..][i - 1] == keys[i]; }
    }
    if exists i :: 0 <= i < |keys[1..]| && keys[1..][i] in m && Apply(m[keys[1..][i]], f).1 {
      var i :| 0 <= i < |keys[1..]| && keys[1..][i] in m && Apply(m[keys[1..][i]], f).1;
      assert keys[i + 1] == keys[1..][i];
    }
  }

  lemma {:induction false} SeqChanged(s: seq<Node>, f: Node -> (Node, bool))
    ensures Flagged(CallsSeq(s, f), f) <==> exists i :: 0 <= i < |s| && Apply(s[i], f).1
    decreases s
  {
    if s != [] {
      ApplyChanged(s[0], f);
      SeqChanged(s[1..], f);
      assert Flagged(CallsSeq(s, f), f) <==> Flagged(Calls(s[0], f), f) || Flagged(CallsSeq(s[1..], f), f);
      if exists i :: 0 <= i < |s| && Apply(s[i], f).1 {
        var i :| 0 <= i < |s| && Apply(s[i], f).1;
        if i > 0 { assert s[1..][i - 1] == s[i]; }
      }
    }
  }

  /**
   * When no callback reports a change, nothing is copied: the callback sees
   * the original node and Apply returns its answer for the root alone.
   */
  lemma {:induction false} ApplyUnflagged(root: Node, f: Node -> (Node, bool))
    requires root != Null
    requires !Flagged(Calls(root, f), f)
    ensures Rebuild(root, f).0 == root
    ensures Apply(root, f) == (f(root).0, false)
  {
    KidsChanged(root, f);
  }

  /** A callback that keeps every node leaves the tree as it is. */
  lemma {:induction false} ApplyIdentity(root: Node, f: Node -> (Node, bool))
    requires forall x :: f(x) == (x, false)
    ensures Apply(root, f) == (root, false)
  {
    if root != Null {
      ApplyChanged(root, f);
      ApplyUnflagged(root, f);
    }
  }

  /** The object case of Apply: children rewritten in map order, the object cloned on the first change. */
  method ApplyObject(m: map<string, Node>, f: Node -> (Node, bool)) returns (r: Node, changed: bool)
    ensures (r, changed) == Rebuild(Obj(m), f)
    decreases Obj(m), 0
  {
    var nn := m;
    changed := false;
    var rest := m.Keys;
    while rest != {}
      invariant rest <= m.Keys
      invariant nn.Keys == m.Keys
      invariant forall k :: k in m ==> nn[k] == (if k !in rest && Apply(m[k], f).1 then Apply(m[k], f).0 else m[k])
      invariant changed <==> exists k :: k in m && k !in rest && Apply(m[k], f).1
      decreases |rest|
    {
      var k :| k in rest;
      var nv, ok := ApplyM(m[k], f);
      if ok {
        if !changed {
          nn := CloneObject(m);
        }
        nn := nn[k := nv];
        changed := true;
      }
      rest := rest - {k};
    }
    r := if changed then Obj(nn) else Obj(m);
    RebuildObject(m, f, nn, changed);
  }

  /** What the object loop of Apply ends with is Rebuild of the object. */
  lemma {:induction false} RebuildObject(m: map<string, Node>, f: Node -> (Node, bool), nn: map<string, Node>, changed: bool)
    requires nn.Keys == m.Keys
    requires forall k :: k in m ==> nn[k] == (if Apply(m[k], f).1 then Apply(m[k], f).0 else m[k])
    requires changed <==> exists k :: k in m && Apply(m[k], f).1
    ensures (if changed then Obj(nn) else Obj(m), changed) == Rebuild(Obj(m), f)
  {
    if changed {
      assert nn == map k | k in m :: if Apply(m[k], f).1 then Apply(m[k], f).0 else m[k];
    }
  }

  /** The array case of Apply: the list is cloned on the first change. */
  method ApplyArray(s: seq<Node>, f: Node -> (Node, bool)) returns (r: Node, changed: bool)
    ensures (r, changed) == Rebuild(Arr(s), f)
    decreases Arr(s), 0
  {
    var nn := s;
    changed := false;
    for i := 0 to |s|
      invariant |nn| == |s|
      invariant forall j :: 0 <= j < |s| ==> nn[j] == (if j < i && Apply(s[j], f).1 then Apply(s[j], f).0 else s[j])
      invariant changed <==> exists j :: 0 <= j < i && Apply(s[j], f).1
    {
      var nv, ok := ApplyM(s[i], f);
      if ok {
        nn := nn[i := nv];
        changed := true;
      }
    }
    if changed {
      assert nn == seq(|s|, i requires 0 <= i < |s| => if Apply(s[i], f).1 then Apply(s[i], f).0 else s[i]);
      r := Arr(nn);
    } else {
      r := Arr(s);
    }
  }

  /** Apply, with the map loop taken in the map's own order (applySort is false). */
  method ApplyM(root: Node, f: Node -> (Node, bool)) returns (nn: Node, changed: bool)
    ensures (nn, changed) == Apply(root, f)
    decreases root, 1
  {
    if root == Null {
      return Null, false;
    }
    var r := root;
    var kids := false;
    match root {
      case Obj(m) => r, kids := ApplyObject(m, f);
      case Arr(s) => r, kids := ApplyArray(s, f);
      case _ =>
    }
    var res := f(r);
    nn := res.0;
    changed := kids || res.1;
  }
}
