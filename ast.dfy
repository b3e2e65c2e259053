// Helpers for native AST shapes: role lists, the roles field, FieldRole
// (validate and build), ASTObjectLeft and the C-like comment markers.
module TransformerAst {
  import opened Wrappers
  import opened Nodes
  import opened TransformerState
  import opened Ops
  import UastNode
  import OpsProps
  import Strings
  import Utf8

  // ----------------------------------------------------------------- Roles

  /** The operations of Roles: one Is of the role's name per role, in order. */
  function RoleOps(roles: seq<string>): seq<Op>
  {
    seq(|roles|, i requires 0 <= i < |roles| => Is(Str(roles[i])))
  }

  /** Roles: the list operation built with one append per role. */
  method Roles(roles: seq<string>) returns (op: Op)
    ensures op == ArrOp(RoleOps(roles))
  {
    var arr: seq<Op> := [];
    for i := 0 to |roles|
      invariant |arr| == i
      invariant forall j :: 0 <= j < i ==> arr[j] == Is(Str(roles[j]))
    {
      arr := arr + [Is(Str(roles[i]))];
    }
    op := ArrOp(arr);
  }

  lemma {:induction false} RoleElemsConstruct(roles: seq<string>, i: nat, st: Vars, acc: seq<Node>)
    requires i <= |roles| && |acc| == i
    requires forall j :: 0 <= j < i ==> acc[j] == Str(roles[j])
    ensures ConstructElems(ArrOp(RoleOps(roles)), i, st, acc) == Ok(UastNode.RoleList(roles))
    decreases |roles| - i
  {
    var op := ArrOp(RoleOps(roles));
    if i == |roles| {
      assert Arr(acc) == UastNode.RoleList(roles);
    } else {
      assert Construct(op.elems[i], st, Null) == Ok(Str(roles[i]));
      RoleElemsConstruct(roles, i + 1, st, acc + [Str(roles[i])]);
    }
  }

  /** The list operation of Roles constructs exactly the role list, whatever the variables. */
  lemma {:induction false} RolesConstruct(roles: seq<string>, st: Vars)
    ensures Construct(ArrOp(RoleOps(roles)), st, Null) == Ok(UastNode.RoleList(roles))
  {
    RoleElemsConstruct(roles, 0, st, []);
  }

  lemma {:induction false} RoleElemsCheck(roles: seq<string>, i: nat, arr: seq<Node>, st: Vars)
    requires i <= |roles| == |arr|
    ensures CheckElems(ArrOp(RoleOps(roles)), i, arr, st) == Outcome(forall j :: i <= j < |arr| ==> arr[j] == Str(roles[j]), None, st)
    decreases |roles| - i
  {
    if i < |roles| {
      var op := ArrOp(RoleOps(roles));
      ValueEqIsEquality(Str(roles[i]), arr[i]);
      assert Check(op.elems[i], st, arr[i]) == Outcome(arr[i] == Str(roles[i]), None, st);
      RoleElemsCheck(roles, i + 1, arr, st);
    }
  }

  /** The list operation of Roles matches exactly the role list, and binds nothing. */
  lemma {:induction false} RolesCheck(roles: seq<string>, st: Vars, n: Node)
    ensures Check(ArrOp(RoleOps(roles)), st, n) == Outcome(n == UastNode.RoleList(roles), None, st)
  {
    if n.Arr? && |n.elems| == |roles| {
      RoleElemsCheck(roles, 0, n.elems, st);
      if forall j :: 0 <= j < |n.elems| ==> n.elems[j] == Str(roles[j]) {
        assert n == UastNode.RoleList(roles);
      }
    }
  }

  // ----------------------------------------------------------- roles field

  /**
   * AppendRoles: with no roles the list operation itself, otherwise the
   * roles appended with AppendArr, which is passed in as appendArr.
   */
  function AppendRoles(prev: seq<Op>, roles: seq<string>, appendArr: (seq<Op>, seq<Op>) -> seq<Op>): (r: seq<Op>)
    ensures roles == [] ==> r == prev
  {
    if roles == [] then prev else appendArr(prev, RoleOps(roles))
  }

  /** The list operation of RolesFieldOp: the custom one, extended with the roles, or the roles alone. */
  function RolesList(rop: Option<seq<Op>>, roles: seq<string>, appendArr: (seq<Op>, seq<Op>) -> seq<Op>): seq<Op>
  {
    match rop
    case Some(op) => AppendRoles(op, roles, appendArr)
    case None => RoleOps(roles)
  }

  /**
   * RolesFieldOp: with no roles and no custom operation the roles are kept
   * in vr when present; otherwise the roles are appended to the saved ones
   * when there were any, or are the whole list when there were none.
   */
  function RolesFieldOp(vr: string, rop: Option<seq<Op>>, roles: seq<string>, appendArr: (seq<Op>, seq<Op>) -> seq<Op>): (f: Field)
    ensures f.name == UastNode.KeyRoles
    ensures roles == [] && rop.None? ==> f.op == Var(vr) && f.optional == vr + "_exists"
    ensures roles != [] || rop.Some? ==> f.optional == "" && f.op.IfOp? && f.op.cond == vr + "_exists"
  {
    if roles == [] && rop.None? then Field(UastNode.KeyRoles, vr + "_exists", Var(vr))
    else
      var rl := RolesList(rop, roles, appendArr);
      Field(UastNode.KeyRoles, "", IfOp(vr + "_exists", Append(NotEmpty(Var(vr)), [rl]), ArrOp(rl)))
  }

  /** Stands in for AppendArr where no custom list operation is given; it is then never called. */
  function NoCustomOp(a: seq<Op>, b: seq<Op>): seq<Op>
  {
    a + b
  }

  /** RolesField: RolesFieldOp with no custom list operation. */
  function RolesField(vr: string, roles: seq<string>): Field
  {
    RolesFieldOp(vr, None, roles, NoCustomOp)
  }

  /** The variables a roles field reads when saved roles exist. */
  predicate SavedRoles(st: Vars, vr: string, saved: seq<Node>)
  {
    vr + "_exists" in st.vars && st.vars[vr + "_exists"] == Bool(true) &&
    vr in st.vars && st.vars[vr] == Arr(saved)
  }

  /** With roles saved, the roles field constructs the saved roles followed by the new ones. */
  lemma {:induction false} RolesFieldAppends(vr: string, roles: seq<string>, st: Vars, saved: seq<Node>)
    requires roles != [] && saved != []
    requires SavedRoles(st, vr, saved)
    ensures Construct(RolesField(vr, roles).op, st, Null) == Ok(Arr(saved + UastNode.RoleList(roles).elems))
  {
    var op := RolesField(vr, roles).op;
    var app := op.thenOp;
    assert Construct(app.sub, st, Null) == Ok(Arr(saved));
    RolesConstruct(roles, st);
    assert app.arrs[0] == ArrOp(RoleOps(roles));
    var all := saved + UastNode.RoleList(roles).elems;
    assert ConstructChunks(app, 1, st, all) == Ok(Arr(all));
    assert ConstructChunks(app, 0, st, saved) == Ok(Arr(all));
    assert Construct(app, st, Null) == Ok(Arr(all));
    assert BoolVar(st, vr + "_exists") == Ok(true);
  }

  /** With no saved roles, the roles field constructs just the new roles. */
  lemma {:induction false} RolesFieldFresh(vr: string, roles: seq<string>, st: Vars)
    requires roles != []
    requires vr + "_exists" in st.vars && st.vars[vr + "_exists"] == Bool(false)
    ensures Construct(RolesField(vr, roles).op, st, Null) == Ok(UastNode.RoleList(roles))
  {
    RolesConstruct(roles, st);
  }

  /** ObjectRoles: an object whose roles field is RolesField and whose other fields are kept in vr. */
  function ObjectRoles(vr: string, roles: seq<string>): (r: Op)
    ensures r.Object? && r.other == vr && r.fields == [RolesField(vr + "_roles", roles)]
  {
    Part(vr, Object([RolesField(vr + "_roles", roles)], ""))
  }

  /** OptObjectRoles: ObjectRoles under an existence flag vr + "_set". */
  function OptObjectRoles(vr: string, roles: seq<string>): Op
  {
    Opt(vr + "_set", ObjectRoles(vr, roles))
  }

  /** EachObjectRoles: ObjectRoles on every element of a list, the element states kept in vr + "_arr". */
  function EachObjectRoles(vr: string, roles: seq<string>): Op
  {
    Each(vr + "_arr", ObjectRoles(vr, roles))
  }

  // ------------------------------------------------------------- FieldRole

  /** FieldRole: what to do with one field of an annotated object. */
  datatype FieldRole = FieldRole(
    rename: string,
    skip: bool,
    add: bool,
    opt: bool,
    arr: bool,
    op: Option<Op>,
    roles: seq<string>)

  /** The errors of FieldRole.validate. */
  datatype RoleErr = ListAndOptional | NeedsRolesOrOp | SkipWithOthers | RenameWithSkip

  /** The combinations validate accepts. */
  predicate WellFormed(f: FieldRole)
  {
    !(f.arr && f.opt) &&
    ((f.opt || f.arr) ==> f.roles != [] || f.op.Some?) &&
    (f.skip ==> !f.opt && !f.arr && f.roles == []) &&
    (f.skip && f.rename != "" ==> f.add)
  }

  /** FieldRole.validate: the checks in order, the first failing one is reported. */
  function Validate(f: FieldRole): (r: Option<RoleErr>)
    ensures r.None? <==> WellFormed(f)
    ensures r == Some(ListAndOptional) <==> f.arr && f.opt
    ensures r == Some(NeedsRolesOrOp) ==> (f.opt || f.arr) && f.roles == [] && f.op.None?
    ensures r == Some(SkipWithOthers) ==> f.skip && (f.opt || f.arr || f.roles != [])
    ensures r == Some(RenameWithSkip) ==> f.skip && f.rename != "" && !f.add
  {
    if f.arr && f.opt then Some(ListAndOptional)
    else if f.roles == [] && f.op.None? && (f.opt || f.arr) then Some(NeedsRolesOrOp)
    else if f.skip && (f.opt || f.arr || f.roles != []) then Some(SkipWithOthers)
    else if f.skip && f.rename != "" && !f.add then Some(RenameWithSkip)
    else None
  }

  /** The two sides build produces; an empty name and no operation stand for a side that is absent. */
  datatype Built = Built(leftName: string, leftOp: Option<Op>, rightName: string, rightOp: Option<Op>)

  /** The operations of the two sides before Skip and Add are applied. */
  function SideOps(f: FieldRole, vr: string): (Op, Op)
  {
    if f.op.Some? then (f.op.value, f.op.value)
    else if f.roles == [] then (Var(vr), Var(vr))
    else if f.arr then (EachObjectRoles(vr, []), EachObjectRoles(vr, f.roles))
    else if f.opt then (OptObjectRoles(vr, []), OptObjectRoles(vr, f.roles))
    else (ObjectRoles(vr, []), ObjectRoles(vr, f.roles))
  }

  /**
   * FieldRole.build: the left side keeps the original name unless the field
   * is only added; the right side uses the new name unless the field is only
   * skipped. A skipped field accepts anything on the left.
   */
  function Build(f: FieldRole, name: string): (r: Result<Built, RoleErr>)
    ensures r.Err? <==> !WellFormed(f)
    ensures r.Err? ==> Validate(f) == Some(r.error)
    ensures r.Ok? ==> (r.value.leftOp.Some? <==> f.skip || !f.add)
    ensures r.Ok? ==> (r.value.rightOp.Some? <==> !f.skip || f.add)
    ensures r.Ok? ==> r.value.leftName == (if r.value.leftOp.Some? then name else "")
    ensures r.Ok? ==> r.value.rightName == (if r.value.rightOp.None? then "" else if f.rename != "" then f.rename else name)
    ensures r.Ok? && f.skip ==> r.value.leftOp == Some(Any(Is(Null)))
  {
    match Validate(f)
    case Some(e) => Err(e)
    case None =>
      var rname := if f.rename != "" then f.rename else name;
      var (l0, r0) := SideOps(f, name + "_var");
      var l := if f.skip then Any(Is(Null)) else l0;
      var left := f.skip || !f.add;
      var right := !f.skip || f.add;
      Ok(Built(if left then name else "", if left then Some(l) else None,
               if right then rname else "", if right then Some(r0) else None))
  }

  /** Every accepted field role keeps at least one side. */
  lemma {:induction false} BuildKeepsASide(f: FieldRole, name: string)
    requires Build(f, name).Ok?
    ensures Build(f, name).value.leftOp.Some? || Build(f, name).value.rightOp.Some?
  {
  }

  /** A plain field is carried over unchanged through a variable named after it. */
  lemma {:induction false} BuildPlain(name: string)
    ensures Build(FieldRole("", false, false, false, false, None, []), name)
         == Ok(Built(name, Some(Var(name + "_var")), name, Some(Var(name + "_var"))))
  {
  }

  /** With roles, the left side only saves the native roles and the right side appends the new ones. */
  lemma {:induction false} BuildRoles(f: FieldRole, name: string)
    requires WellFormed(f) && f.op.None? && f.roles != [] && !f.skip
    ensures var b := Build(f, name).value;
      b.rightOp.Some? &&
      (f.arr ==> b.rightOp.value == EachObjectRoles(name + "_var", f.roles)) &&
      (f.opt ==> b.rightOp.value == OptObjectRoles(name + "_var", f.roles)) &&
      (!f.arr && !f.opt ==> b.rightOp.value == ObjectRoles(name + "_var", f.roles)) &&
      (b.leftOp.Some? ==> b.leftOp.value == SideOps(f, name + "_var").0)
  {
  }

  // --------------------------------------------------------- ASTObjectLeft

  /**
   * ASTObjectLeft: the native object with its type fixed, its roles saved
   * and its other fields kept in "_". An object that already has a roles
   * field is refused (a panic in Go), shown here as None.
   */
  function ASTObjectLeft(typ: string, ast: Op): (r: Option<Op>)
    requires ast.Object?
    ensures r.None? <==> UastNode.KeyRoles in Names(ast.fields)
    ensures r.Some? ==> r.value.Object? && r.value.other == "_"
  {
    if GetField(ast, UastNode.KeyRoles).Some? then None
    else
      var a := if typ != "" then SetField(ast, UastNode.KeyType, Is(Str(typ))) else ast;
      Some(Part("_", SetFieldObj(a, RolesField(typ + "_roles", []))))
  }

  /** The fields of ASTObjectLeft: the type, the saved roles, and the original fields otherwise. */
  lemma {:induction false} ASTObjectLeftFields(typ: string, ast: Op, k: string)
    requires ast.Object? && UastNode.KeyRoles !in Names(ast.fields)
    ensures var o := ASTObjectLeft(typ, ast).value;
      GetField(o, UastNode.KeyRoles) == Some(Var(typ + "_roles")) &&
      (typ != "" ==> GetField(o, UastNode.KeyType) == Some(Is(Str(typ)))) &&
      (k != UastNode.KeyRoles && (typ == "" || k != UastNode.KeyType) ==> GetField(o, k) == GetField(ast, k))
  {
    var a := if typ != "" then SetField(ast, UastNode.KeyType, Is(Str(typ))) else ast;
    var f := RolesField(typ + "_roles", []);
    OpsProps.ReplaceThenFind(ast.fields, Field(UastNode.KeyType, "", Is(Str(typ))), k);
    OpsProps.ReplaceThenFind(ast.fields, Field(UastNode.KeyType, "", Is(Str(typ))), UastNode.KeyType);
    OpsProps.ReplaceThenFind(a.fields, f, k);
    OpsProps.ReplaceThenFind(a.fields, f, UastNode.KeyRoles);
    OpsProps.ReplaceThenFind(a.fields, f, UastNode.KeyType);
  }

  // ------------------------------------------------------------- comments

  /** comment: a block comment when the text spans lines, a line comment otherwise. */
  function Comment(s: string): (r: string)
    ensures Strings.HasPrefix(r, "//") || Strings.HasPrefix(r, "/*")
  {
    if '\n' in s then "/*" + s + "*/" else "//" + s
  }

  /**
   * uncomment as written: the markers are cut by position, so a block
   * comment shorter than its two markers is a slice out of range (a panic), shown
   * here as None.
   */
  function UncommentAsWritten(s: string): (r: Option<string>)
  {
    if Strings.HasPrefix(s, "//") then Some(s[2..])
    else if Strings.HasPrefix(s, "/*") then (if |s| < 4 then None else Some(s[2..|s| - 2]))
    else Some(s)
  }

  /** The two-character and three-character block openings make uncomment panic instead of returning its error. */
  lemma {:induction false} UncommentShortBlockPanics()
    ensures UncommentAsWritten("/*").None?
    ensures UncommentAsWritten("/*/").None?
  {
    assert Strings.HasPrefix("/*", "/*") && !Strings.HasPrefix("/*", "//");
    assert Strings.HasPrefix("/*/", "/*") && !Strings.HasPrefix("/*/", "//");
  }

  /** The errors of uncomment. */
  datatype UncommentErr = UnterminatedComment

  /** uncomment with a short block comment reported through its error result. */
  function Uncomment(s: string): (r: Result<string, UncommentErr>)
    ensures r.Err? <==> Strings.HasPrefix(s, "/*") && |s| < 4
    ensures r.Ok? ==> UncommentAsWritten(s) == Some(r.value)
  {
    if Strings.HasPrefix(s, "//") then Ok(s[2..])
    else if Strings.HasPrefix(s, "/*") then (if |s| < 4 then Err(UnterminatedComment) else Ok(s[2..|s| - 2]))
    else Ok(s)
  }

  /** uncomment undoes comment for every text. */
  lemma {:induction false} UncommentComment(s: string)
    ensures Uncomment(Comment(s)) == Ok(s)
    ensures UncommentAsWritten(Comment(s)) == Some(s)
  {
    var c := Comment(s);
    if '\n' in s {
      assert c[1] == '*';
      assert !Strings.HasPrefix(c, "//");
      assert Strings.HasPrefix(c, "/*");
      assert c[2..|c| - 2] == s;
    } else {
      assert Strings.HasPrefix(c, "//");
      assert c[2..] == s;
    }
  }

  /** The other way round fails: a one-line block comment comes back as a line comment. */
  lemma {:induction false} CommentUncommentDiffers()
    ensures Comment(Uncomment("/*a*/").value) == "//a"
  {
    assert Strings.HasPrefix("/*a*/", "/*") && !Strings.HasPrefix("/*a*/", "//");
    assert "/*a*/"[2..3] == "a";
  }
  // ------------------------------------------------------ comments as bytes

  // The UTF-8 bytes of the line marker and the block opening marker.
  const LineMarker: seq<Utf8.Byte> := [0x2F, 0x2F]
  const BlockMarker: seq<Utf8.Byte> := [0x2F, 0x2A]

  // uncomment as Go runs it, on the UTF-8 bytes of the text: the markers are
  // cut by byte position, and a block shorter than four bytes panics (None).
  function UncommentBytes(b: seq<Utf8.Byte>): (r: Option<seq<Utf8.Byte>>)
    ensures r.None? <==> |b| >= 2 && b[..2] == BlockMarker && |b| < 4
    ensures r.Some? && |b| >= 2 && b[..2] == LineMarker ==> b == LineMarker + r.value
    ensures r.Some? && |b| >= 2 && b[..2] == BlockMarker ==> |r.value| == |b| - 4 && b[2..|b| - 2] == r.value
    ensures r.Some? && !(|b| >= 2 && (b[..2] == LineMarker || b[..2] == BlockMarker)) ==> r.value == b
  {
    if |b| >= 2 && b[..2] == LineMarker then Some(b[2..])
    else if |b| >= 2 && b[..2] == BlockMarker then (if |b| < 4 then None else Some(b[2..|b| - 2]))
    else Some(b)
  }

  /** An uncomment result with the text taken to its UTF-8 bytes. */
  function EncodeText(r: Option<string>): Option<seq<Utf8.Byte>>
  {
    if r.Some? then Some(Utf8.Encode(r.value)) else None
  }

  /** The encoding of a text starts with two given ASCII bytes exactly when the text starts with those characters. */
  lemma {:induction false} EncodeStartsWith(s: string, c0: char, c1: char)
    requires c0 as int < 0x80 && c1 as int < 0x80
    ensures (|Utf8.Encode(s)| >= 2 && Utf8.Encode(s)[..2] == [c0 as int, c1 as int]) <==> Strings.HasPrefix(s, [c0, c1])
  {
    var b := Utf8.Encode(s);
    if s != [] {
      Utf8.EncodeFirst(s);
      if s[0] as int < 0x80 && s[1..] != [] {
        Utf8.EncodeFirst(s[1..]);
        assert s[1..][0] == s[1];
        assert b[1] == Utf8.Encode(s[1..])[0];
        if Strings.HasPrefix(s, [c0, c1]) {
          assert s[0] == c0 && s[1] == c1;
        }
        if |b| >= 2 && b[..2] == [c0 as int, c1 as int] {
          assert b[0] == c0 as int && b[1] == c1 as int;
          assert s[..2] == [c0, c1];
        }
      } else if s[0] as int < 0x80 {
        assert s == [s[0]];
      }
    }
  }

  // Counting code points is counting bytes for uncomment whenever a block
  // comment ends in its closing marker: Go's uncomment on the bytes gives the
  // bytes of the model's result, panics included.
  lemma {:induction false} UncommentBytesAgree(s: string)
    requires Strings.HasPrefix(s, "/*") ==> Strings.HasSuffix(s, "*/")
    ensures UncommentBytes(Utf8.Encode(s)) == EncodeText(UncommentAsWritten(s))
  {
    var b := Utf8.Encode(s);
    EncodeStartsWith(s, '/', '/');
    EncodeStartsWith(s, '/', '*');
    assert LineMarker == ['/' as int, '/' as int] && BlockMarker == ['/' as int, '*' as int];
    if Strings.HasPrefix(s, "//") {
      assert s == "//" + s[2..];
      Utf8.EncodeAppend("//", s[2..]);
      assert Utf8.Encode("//") == LineMarker by {
        assert "//"[1..][1..] == [];
      }
      assert b[2..] == Utf8.Encode(s[2..]);
    } else if Strings.HasPrefix(s, "/*") {
      if |s| < 4 {
        assert |s| == 3 && s == "/*/" by {
          assert s[..2] == "/*" && s[|s| - 2..] == "*/";
        }
        assert b == [0x2F, 0x2A, 0x2F] by {
          assert s[1..] == "*/" && s[1..][1..] == "/" && s[1..][1..][1..] == [];
        }
      } else {
        var m := s[2..|s| - 2];
        assert s == "/*" + m + "*/" by {
          assert s[..2] == "/*" && s[|s| - 2..] == "*/";
        }
        Utf8.EncodeAppend("/*" + m, "*/");
        Utf8.EncodeAppend("/*", m);
        assert Utf8.Encode("/*") == BlockMarker by {
          assert "/*"[1..][1..] == [];
        }
        assert Utf8.Encode("*/") == [0x2A, 0x2F] by {
          assert "*/"[1..][1..] == [];
        }
        assert b == BlockMarker + Utf8.Encode(m) + [0x2A, 0x2F];
        assert b[2..|b| - 2] == Utf8.Encode(m);
      }
    }
  }

  // An unterminated block comment with non-ASCII text is where the two differ:
  // the opening marker and one two-byte character make four bytes, which Go cuts
  // to nothing where the model panics; with two such characters Go keeps the
  // first where the model keeps nothing.
  lemma {:induction false} UncommentUnterminatedDiffers()
    ensures UncommentBytes(Utf8.Encode("/*\U{E9}")) == Some([]) && UncommentAsWritten("/*\U{E9}") == None
    ensures UncommentBytes(Utf8.Encode("/*\U{E9}\U{E9}")) == Some(Utf8.Encode("\U{E9}"))
    ensures UncommentAsWritten("/*\U{E9}\U{E9}") == Some("")
  {
    var one := "/*\U{E9}";
    var two := "/*\U{E9}\U{E9}";
    assert Utf8.Encode("\U{E9}") == [0xC3, 0xA9] by {
      assert "\U{E9}"[1..] == [];
    }
    assert Utf8.Encode(one) == [0x2F, 0x2A, 0xC3, 0xA9] by {
      assert one[1..] == "*\U{E9}" && one[1..][1..] == "\U{E9}";
    }
    assert Utf8.Encode(two) == [0x2F, 0x2A, 0xC3, 0xA9, 0xC3, 0xA9] by {
      assert two[1..] == "*\U{E9}\U{E9}" && two[1..][1..] == "\U{E9}\U{E9}" && two[1..][1..][1..] == "\U{E9}";
    }
    assert Strings.HasPrefix(one, "/*") && !Strings.HasPrefix(one, "//");
    assert Strings.HasPrefix(two, "/*") && !Strings.HasPrefix(two, "//");
    assert [0x2F, 0x2A, 0xC3, 0xA9, 0xC3, 0xA9][2..4] == [0xC3, 0xA9];
  }
}
