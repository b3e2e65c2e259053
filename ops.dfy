// The transformer operations (uast/transformer/ops.go): every operation can
// Check a node, binding variables in a state, and Construct a node back from
// the variables. The operations form a tree; Check and Construct walk it.
module Ops {
  import opened Wrappers
  import opened Nodes
  import opened TransformerState
  import Strings
  import Semantic

  // ------------------------------------------------------------ operations

  /** Field: the operation on one field of an object, with the variable that records whether the field exists. */
  datatype Field = Field(name: string, optional: string, op: Op)

  /**
   * The operations. An Is constant is a value or Null (Go's nil); the
   * operations of an AppendOp are list operations (ArrOp); a LookupOp carries
   * its map and the reverse map.
   */
  datatype Op =
    | Is(v: Node)
    | Var(name: string)
    | Any(create: Op)
    | AndOp(ops: seq<Op>)
    | Object(fields: seq<Field>, other: string)
    | ArrOp(elems: seq<Op>)
    | LookupOp(sub: Op, fwd: map<Node, Node>, rev: map<Node, Node>)
    | AppendOp(sub: Op, arrs: seq<Op>)
    | IfOp(cond: string, thenOp: Op, elseOp: Op)
    | Each(vr: string, sub: Op)
    | NotEmpty(sub: Op)
    | Opt(vr: string, sub: Op)
    | CommentOp(startToken: string, endToken: string, textVar: string, prefVar: string,
                suffVar: string, indentVar: string, doTrim: bool)

  /** What Check returns: whether the node matched, the error if any, and the state it leaves. */
  datatype Outcome = Outcome(ok: bool, err: Option<Err>, st: Vars)

  /** The names of the fields. */
  function Names(fields: seq<Field>): set<string>
  {
    set i | 0 <= i < |fields| :: fields[i].name
  }

  /** The number of elements an AppendOp takes from the end of the list. */
  function TailLen(arrs: seq<Op>): nat
  {
    if arrs == [] then 0 else ArrLen(arrs[0]) + TailLen(arrs[1..])
  }

  /** The number of elements the i-th list operation takes. */
  function ArrLen(op: Op): nat
  {
    if op.ArrOp? then |op.elems| else 0
  }

  /** An empty node for NotEmpty: nil, an empty list or an empty object. */
  predicate IsEmptyNode(n: Node)
  {
    n == Null || n == Arr([]) || n == Obj(map[])
  }

  /** The variables Split's parts are bound to (a later name replaces an earlier equal one, as in a Go map literal). */
  function CommentVars(op: Op, p: Semantic.Parts): (r: map<string, Node>)
    requires op.CommentOp?
    ensures r.Keys == {op.textVar, op.prefVar, op.suffVar, op.indentVar}
    ensures forall k :: k in r ==> r[k].Str?
  {
    map[op.textVar := Str(p.text)][op.prefVar := Str(p.prefix)][op.suffVar := Str(p.suffix)][op.indentVar := Str(p.indent)]
  }

  // ----------------------------------------------------------------- Check

  /** Check: whether the node matches the operation; Check only ever adds bindings to the state. */
  function Check(op: Op, st: Vars, n: Node): (r: Outcome)
    ensures r.err.Some? ==> !r.ok
    ensures Extends(r.st, st)
    decreases op, 1, 0
  {
    match op
    case Is(v) => Outcome(if IsValue(n) then ValueEq(v, n) else v == Null && n == Null, None, st)
    case Var(name) =>
      (match SetVarIn(st, name, n)
       case Ok(st1) => Outcome(true, None, st1)
       case Err(e) => Outcome(false, Some(e), st))
    case Any(_) => Outcome(true, None, st)
    case AndOp(_) => CheckAnd(op, 0, st, n)
    case Object(_, _) => CheckObject(op, st, n)
    case ArrOp(ops) =>
      if !n.Arr? || |n.elems| != |ops| then Outcome(false, None, st)
      else CheckElems(op, 0, n.elems, st)
    case LookupOp(sub, fwd, _) =>
      if !IsValue(n) then Outcome(false, Some(ExpectedValue), st)
      else if n !in fwd then Outcome(false, Some(UnhandledValueIn), st)
      else Check(sub, st, fwd[n])
    case AppendOp(_, _) => CheckAppend(op, st, n)
    case IfOp(_, _, _) => CheckIf(op, st, n)
    case Each(_, _) => CheckEachOp(op, st, n)
    case NotEmpty(sub) =>
      if IsEmptyNode(n) then Outcome(false, None, st) else Check(sub, st, n)
    case Opt(_, _) => CheckOpt(op, st, n)
    case CommentOp(_, _, _, _, _, _, _) => CheckComment(op, st, n)
  }

  /** Object.Check: the fields in order, then the keys no field names. */
  function CheckObject(op: Op, st: Vars, n: Node): (r: Outcome)
    requires op.Object?
    ensures r.err.Some? ==> !r.ok
    ensures Extends(r.st, st)
    decreases op, 0, |op.fields| + 1
  {
    if !n.Obj? then Outcome(false, None, st)
    else
      var r := CheckFields(op, 0, n.fields, st);
      if !r.ok || r.err.Some? then r
      else
        var r2 := CheckRest(op.other, Names(op.fields), n.fields, r.st);
        ExtendsTrans(st, r.st, r2.st);
        r2
  }

  /**
   * opAppend.Check: the list operations check the end of the list, the
   * operation the elements before them (an empty list when there are none).
   */
  function CheckAppend(op: Op, st: Vars, n: Node): (r: Outcome)
    requires op.AppendOp?
    ensures r.err.Some? ==> !r.ok
    ensures Extends(r.st, st)
    decreases op, 0, |op.arrs| + 1
  {
    if !n.Arr? || TailLen(op.arrs) > |n.elems| then Outcome(false, None, st)
    else
      var k := |n.elems| - TailLen(op.arrs);
      var r := Check(op.sub, st, Arr(n.elems[..k]));
      if r.err.Some? then Outcome(false, Some(InAppend(r.err.value)), r.st)
      else if !r.ok then Outcome(false, None, r.st)
      else
        var r2 := CheckChunks(op, 0, n.elems[k..], r.st);
        ExtendsTrans(st, r.st, r2.st);
        r2
  }

  /**
   * opIf.Check: each branch is checked on a copy of the state; the first
   * that matches is applied and the condition records which one it was.
   */
  function CheckIf(op: Op, st: Vars, n: Node): (r: Outcome)
    requires op.IfOp?
    ensures r.err.Some? ==> !r.ok
    ensures Extends(r.st, st)
    decreases op, 0, 0
  {
    var r1 := Check(op.thenOp, st, n);
    if r1.ok && r1.err.None? then Outcome(true, None, SetVarOrKeep(ApplyFromIn(st, r1.st), op.cond, Bool(true)))
    else
      var r2 := Check(op.elseOp, st, n);
      if r2.ok && r2.err.None? then Outcome(true, None, SetVarOrKeep(ApplyFromIn(st, r2.st), op.cond, Bool(false)))
      else Outcome(false, if r1.err.Some? then r1.err else r2.err, st)
  }

  /** opEach.Check: a list (or nil) whose elements all match; their states are kept in the state variable. */
  function CheckEachOp(op: Op, st: Vars, n: Node): (r: Outcome)
    requires op.Each?
    ensures r.err.Some? ==> !r.ok
    ensures Extends(r.st, st)
    decreases op, 0, (if n.Arr? then |n.elems| else 0) + 1
  {
    if !n.Arr? && n != Null then Outcome(false, None, st)
    else
      match CheckEach(op, 0, if n.Arr? then n.elems else [], [])
      case Err(e) => Outcome(false, e, st)
      case Ok(subs) =>
        (match SetStateVarIn(st, op.vr, if n.Arr? then Some(subs) else None)
         case Ok(st1) => Outcome(true, None, st1)
         case Err(e) => Outcome(false, Some(e), st))
  }

  /** opOptional.Check: the variable records whether the node exists; an existing node must match. */
  function CheckOpt(op: Op, st: Vars, n: Node): (r: Outcome)
    requires op.Opt?
    ensures r.err.Some? ==> !r.ok
    ensures Extends(r.st, st)
    decreases op, 0, 0
  {
    match SetVarIn(st, op.vr, Bool(n != Null))
    case Err(e) => Outcome(false, Some(e), st)
    case Ok(st1) =>
      if n == Null then Outcome(true, None, st1)
      else
        var r := Check(op.sub, st1, n);
        ExtendsTrans(st, st1, r.st);
        r
  }

  /** commentUAST.Check: a string that Split accepts; its four parts are bound to the four variables. */
  function CheckComment(op: Op, st: Vars, n: Node): (r: Outcome)
    requires op.CommentOp?
    ensures r.err.Some? ==> !r.ok
    ensures Extends(r.st, st)
  {
    if !n.Str? then Outcome(false, None, st)
    else
      match Semantic.SplitAsWritten(op.startToken, op.endToken, op.doTrim, n.s)
      case None => Outcome(false, None, st)
      case Some(p) =>
        var (st1, err) := SetVarsIn(st, CommentVars(op, p));
        Outcome(err.None?, err, st1)
  }

  /** opAnd.Check from the i-th operation: every operation must match; the first error or mismatch stops. */
  function CheckAnd(parent: Op, i: nat, st: Vars, n: Node): (r: Outcome)
    requires parent.AndOp? && i <= |parent.ops|
    ensures r.err.Some? ==> !r.ok
    ensures Extends(r.st, st)
    decreases parent, 0, |parent.ops| - i
  {
    if i == |parent.ops| then Outcome(true, None, st)
    else
      var r1 := Check(parent.ops[i], st, n);
      if r1.err.Some? then Outcome(false, Some(InOp(i, r1.err.value)), r1.st)
      else if !r1.ok then Outcome(false, None, r1.st)
      else
        var r2 := CheckAnd(parent, i + 1, r1.st, n);
        ExtendsTrans(st, r1.st, r2.st);
        r2
  }

  /** The field loop of Object.Check from the i-th field. */
  function CheckFields(parent: Op, i: nat, cur: map<string, Node>, st: Vars): (r: Outcome)
    requires parent.Object? && i <= |parent.fields|
    ensures r.err.Some? ==> !r.ok
    ensures Extends(r.st, st)
    decreases parent, 0, |parent.fields| - i
  {
    if i == |parent.fields| then Outcome(true, None, st)
    else
      var f := parent.fields[i];
      var present := f.name in cur;
      var set1 := FieldFlag(f, cur, st);
      if set1.Err? then Outcome(false, Some(InKey(f.name, set1.error)), st)
      else
        var st1 := set1.value;
        if !present then
          if f.optional != "" then
            var r2 := CheckFields(parent, i + 1, cur, st1);
            ExtendsTrans(st, st1, r2.st);
            r2
          else Outcome(false, None, st1)
        else
          assert f in parent.fields;
          var r1 := Check(f.op, st1, cur[f.name]);
          ExtendsTrans(st, st1, r1.st);
          if r1.err.Some? then Outcome(false, Some(InKey(f.name, r1.err.value)), r1.st)
          else if !r1.ok then Outcome(false, None, r1.st)
          else
            var r2 := CheckFields(parent, i + 1, cur, r1.st);
            ExtendsTrans(st, r1.st, r2.st);
            r2
  }

  /** The existence flag of an optional field, recorded in its variable. */
  function FieldFlag(f: Field, cur: map<string, Node>, st: Vars): (r: Result<Vars, Err>)
    ensures r.Ok? ==> Extends(r.value, st)
    ensures f.optional == "" ==> r == Ok(st)
  {
    if f.optional != "" then SetVarIn(st, f.optional, Bool(f.name in cur)) else Ok(st)
  }

  /** The keys of an object that no field names. */
  function Unused(names: set<string>, cur: map<string, Node>): set<string>
  {
    cur.Keys - names
  }

  /** The end of Object.Check: without `other` an unused key is an error; with it the unused fields are bound to it. */
  function CheckRest(other: string, names: set<string>, cur: map<string, Node>, st: Vars): (r: Outcome)
    ensures r.err.Some? ==> !r.ok
    ensures Extends(r.st, st)
  {
    if other == "" then
      if Unused(names, cur) != {} then Outcome(false, Some(UnusedField(Strings.Least(Unused(names, cur)))), st)
      else Outcome(true, None, st)
    else
      match SetVarIn(st, other, Obj(map k | k in Unused(names, cur) :: cur[k]))
      case Ok(st1) => Outcome(true, None, st1)
      case Err(e) => Outcome(false, Some(e), st)
  }

  /** The element loop of opArr.Check from the i-th element. */
  function CheckElems(parent: Op, i: nat, arr: seq<Node>, st: Vars): (r: Outcome)
    requires parent.ArrOp? && i <= |parent.elems| == |arr|
    ensures r.err.Some? ==> !r.ok
    ensures Extends(r.st, st)
    decreases parent, 0, |parent.elems| - i
  {
    if i == |parent.elems| then Outcome(true, None, st)
    else
      var r1 := Check(parent.elems[i], st, arr[i]);
      if r1.err.Some? then Outcome(false, Some(InElem(i, r1.err.value)), r1.st)
      else if !r1.ok then Outcome(false, None, r1.st)
      else
        var r2 := CheckElems(parent, i + 1, arr, r1.st);
        ExtendsTrans(st, r1.st, r2.st);
        r2
  }

  /** The chunk loop of opAppend.Check: the i-th list operation checks the next chunk of the tail. */
  function CheckChunks(parent: Op, i: nat, rest: seq<Node>, st: Vars): (r: Outcome)
    requires parent.AppendOp? && i <= |parent.arrs|
    ensures r.err.Some? ==> !r.ok
    ensures Extends(r.st, st)
    decreases parent, 0, |parent.arrs| - i
  {
    if i == |parent.arrs| then Outcome(true, None, st)
    else
      var len := ArrLen(parent.arrs[i]);
      if len > |rest| then Outcome(false, None, st)
      else
        var r1 := Check(parent.arrs[i], st, Arr(rest[..len]));
        if r1.err.Some? then Outcome(false, Some(InElem(i, r1.err.value)), r1.st)
        else if !r1.ok then Outcome(false, None, r1.st)
        else
          var r2 := CheckChunks(parent, i + 1, rest[len..], r1.st);
          ExtendsTrans(st, r1.st, r2.st);
          r2
  }

  /**
   * The element loop of opEach.Check: every element is checked in a new
   * state; the states are collected, and an error (Some) or a mismatch
   * (None) stops the loop.
   */
  function CheckEach(parent: Op, i: nat, arr: seq<Node>, acc: seq<Vars>): (r: Result<seq<Vars>, Option<Err>>)
    requires parent.Each? && i <= |arr|
    ensures r.Ok? ==> |r.value| == |acc| + |arr| - i && r.value[..|acc|] == acc
    decreases parent, 0, |arr| - i
  {
    if i == |arr| then Ok(acc)
    else
      var r1 := Check(parent.sub, Empty, arr[i]);
      if r1.err.Some? then Err(Some(InElem(i, r1.err.value)))
      else if !r1.ok then Err(None)
      else CheckEach(parent, i + 1, arr, acc + [r1.st])
  }

  // ------------------------------------------------------------- Construct

  /** noNode: the node passed to Construct must be nil. */
  function NoNode(n: Node): Option<Err>
  {
    if n == Null then None else Some(UnexpectedNode)
  }

  /** The value of a boolean variable, or the error MustGetVar or the type assertion gives. */
  function BoolVar(st: Vars, name: string): (r: Result<bool, Err>)
    ensures r.Ok? <==> name in st.vars && st.vars[name].Bool?
    ensures r.Ok? ==> st.vars[name] == Bool(r.value)
  {
    match MustGetVarIn(st, name)
    case Err(e) => Err(e)
    case Ok(v) => if v.Bool? then Ok(v.b) else Err(UnexpectedType)
  }

  /** Construct: the node the operation builds from the variables of the state. */
  function Construct(op: Op, st: Vars, n: Node): (r: Result<Node, Err>)
    decreases op, 1, 0
  {
    match op
    case Is(v) => Ok(v)
    case Var(name) => if n != Null then Err(UnexpectedNode) else MustGetVarIn(st, name)
    case Any(create) => Construct(create, st, n)
    case AndOp(_) => ConstructAnd(op, 0, st, n)
    case Object(_, _) => ConstructObject(op, st, n)
    case ArrOp(_) => if n != Null then Err(UnexpectedNode) else ConstructElems(op, 0, st, [])
    case LookupOp(sub, _, rev) =>
      if n != Null then Err(UnexpectedNode)
      else
        (match Construct(sub, st, Null)
         case Err(e) => Err(e)
         case Ok(v) =>
           if !IsValue(v) then Err(ExpectedValue)
           else if v !in rev then Err(UnhandledValueIn)
           else Ok(rev[v]))
    case AppendOp(sub, _) =>
      (match Construct(sub, st, n)
       case Err(e) => Err(e)
       case Ok(head) => if !head.Arr? then Err(ExpectedList) else ConstructChunks(op, 0, st, head.elems))
    case IfOp(cond, thenOp, elseOp) =>
      (match BoolVar(st, cond)
       case Err(e) => Err(e)
       case Ok(b) => if b then Construct(thenOp, st, n) else Construct(elseOp, st, n))
    case Each(vr, _) =>
      if n != Null then Err(UnexpectedNode)
      else if vr !in st.states then Err(VariableNotDefined(vr))
      else
        (match st.states[vr]
         case None => Ok(Null)
         case Some(subs) => ConstructEach(op, 0, subs, []))
    case NotEmpty(sub) =>
      (match Construct(sub, st, n)
       case Err(e) => Err(e)
       case Ok(v) => if IsEmptyNode(v) then Err(UnexpectedValue) else Ok(v))
    case Opt(vr, sub) =>
      (match BoolVar(st, vr)
       case Err(e) => Err(e)
       case Ok(exists_) => if !exists_ then Ok(Null) else Construct(sub, st, n))
    case CommentOp(_, _, _, _, _, _, _) => ConstructComment(op, st)
  }

  /** Object.Construct: the fields that exist, then the entries kept in `other`. */
  function ConstructObject(op: Op, st: Vars, n: Node): (r: Result<Node, Err>)
    requires op.Object?
    decreases op, 0, |op.fields| + 1
  {
    if n != Null then Err(UnexpectedNode)
    else
      match ConstructFields(op, 0, st, map[])
      case Err(e) => Err(e)
      case Ok(obj) =>
        if op.other == "" then Ok(Obj(obj))
        else
          (match MustGetVarIn(st, op.other)
           case Err(e) => Err(e)
           case Ok(left) => if left.Obj? then Ok(Obj(obj + left.fields)) else Err(ExpectedObject))
  }

  /** commentUAST.Construct: the four parts read back as strings and joined. */
  function ConstructComment(op: Op, st: Vars): (r: Result<Node, Err>)
    requires op.CommentOp?
  {
    match StringVars(st, {op.textVar, op.prefVar, op.suffVar, op.indentVar})
    case Some(e) => Err(e)
    case None =>
      var p := Semantic.Parts(st.vars[op.textVar].s, st.vars[op.prefVar].s, st.vars[op.suffVar].s, st.vars[op.indentVar].s);
      Ok(Str(Semantic.JoinParts(op.startToken, op.endToken, p)))
  }

  /** MustGetVars for string variables: every name must be bound to a string; the least failing name reports. */
  function StringVars(st: Vars, names: set<string>): (r: Option<Err>)
    ensures r.None? <==> forall k :: k in names ==> k in st.vars && st.vars[k].Str?
    decreases |names|
  {
    if names == {} then None
    else
      var k := Strings.Least(names);
      if k !in st.vars then Some(VariableNotDefined(k))
      else if !st.vars[k].Str? then Some(UnexpectedType)
      else StringVars(st, names - {k})
  }

  /** opAnd.Construct from the i-th operation: each operation rewrites the node the previous one built. */
  function ConstructAnd(parent: Op, i: nat, st: Vars, n: Node): (r: Result<Node, Err>)
    requires parent.AndOp? && i <= |parent.ops|
    decreases parent, 0, |parent.ops| - i
  {
    if i == |parent.ops| then Ok(n)
    else
      match Construct(parent.ops[i], st, n)
      case Err(e) => Err(InOp(i, e))
      case Ok(n1) => ConstructAnd(parent, i + 1, st, n1)
  }

  /** The field loop of Object.Construct from the i-th field, adding to obj. */
  function ConstructFields(parent: Op, i: nat, st: Vars, obj: map<string, Node>): (r: Result<map<string, Node>, Err>)
    requires parent.Object? && i <= |parent.fields|
    decreases parent, 0, |parent.fields| - i
  {
    if i == |parent.fields| then Ok(obj)
    else
      var f := parent.fields[i];
      var exists_ := if f.optional != "" then BoolVar(st, f.optional) else Ok(true);
      if exists_.Err? then Err(InKey(f.name, exists_.error))
      else if !exists_.value then ConstructFields(parent, i + 1, st, obj)
      else
        assert f in parent.fields;
        match Construct(f.op, st, Null)
        case Err(e) => Err(InKey(f.name, e))
        case Ok(v) => ConstructFields(parent, i + 1, st, obj[f.name := v])
  }

  /** The element loop of opArr.Construct from the i-th operation. */
  function ConstructElems(parent: Op, i: nat, st: Vars, acc: seq<Node>): (r: Result<Node, Err>)
    requires parent.ArrOp? && i <= |parent.elems|
    ensures r.Ok? ==> r.value.Arr? && |r.value.elems| == |acc| + |parent.elems| - i
    decreases parent, 0, |parent.elems| - i
  {
    if i == |parent.elems| then Ok(Arr(acc))
    else
      match Construct(parent.elems[i], st, Null)
      case Err(e) => Err(InElem(i, e))
      case Ok(v) => ConstructElems(parent, i + 1, st, acc + [v])
  }

  /** The list loop of opAppend.Construct: the lists the list operations build are appended. */
  function ConstructChunks(parent: Op, i: nat, st: Vars, acc: seq<Node>): (r: Result<Node, Err>)
    requires parent.AppendOp? && i <= |parent.arrs|
    decreases parent, 0, |parent.arrs| - i
  {
    if i == |parent.arrs| then Ok(Arr(acc))
    else
      match Construct(parent.arrs[i], st, Null)
      case Err(e) => Err(InElem(i, e))
      case Ok(v) => if !v.Arr? then Err(InElem(i, ExpectedList)) else ConstructChunks(parent, i + 1, st, acc + v.elems)
  }

  /** The element loop of opEach.Construct: every element state constructs one element. */
  function ConstructEach(parent: Op, i: nat, subs: seq<Vars>, acc: seq<Node>): (r: Result<Node, Err>)
    requires parent.Each? && i <= |subs|
    decreases parent, 0, |subs| - i
  {
    if i == |subs| then Ok(Arr(acc))
    else
      match Construct(parent.sub, subs[i], Null)
      case Err(e) => Err(InElem(i, e))
      case Ok(v) => ConstructEach(parent, i + 1, subs, acc + [v])
  }

  // ---------------------------------------------------------- constructors

  /** And: a single operation stands for itself; otherwise the operations run in sequence. */
  function And(ops: seq<Op>): Op
  {
    if |ops| == 1 then ops[0] else AndOp(ops)
  }

  /** The names of the fields, in order. */
  function FieldNames(fs: seq<Field>): (r: seq<string>)
    ensures |r| == |fs| && forall i :: 0 <= i < |fs| ==> r[i] == fs[i].name
  {
    if fs == [] then [] else [fs[0].name] + FieldNames(fs[1..])
  }

  lemma {:induction false} NamesCons(fs: seq<Field>)
    requires fs != []
    ensures Names(fs) == {fs[0].name} + Names(fs[1..])
  {
    forall x | x in Names(fs) ensures x in {fs[0].name} + Names(fs[1..]) {
      var i :| 0 <= i < |fs| && fs[i].name == x;
      if i > 0 { assert fs[1..][i - 1].name == x; }
    }
  }

  /** Obj.Object: one field per entry of the map, sorted by name, none optional. */
  function ObjFields(m: map<string, Op>): (fs: seq<Field>)
    ensures FieldNames(fs) == Strings.SortedKeys(m.Keys)
    ensures forall i :: 0 <= i < |fs| ==> fs[i].name in m && fs[i].op == m[fs[i].name] && fs[i].optional == ""
    decreases m.Keys
  {
    if m == map[] then []
    else
      var k := Strings.Least(m.Keys);
      var m' := m - {k};
      assert m'.Keys == m.Keys - {k};
      [Field(k, "", m[k])] + ObjFields(m')
  }

  /** The Object an Obj map stands for. */
  function ObjObject(m: map<string, Op>): Op
  {
    Object(ObjFields(m), "")
  }

  /** No field name is known already and no two fields share a name. */
  predicate FreshNames(known: set<string>, fs: seq<Field>)
  {
    (forall i :: 0 <= i < |fs| ==> fs[i].name !in known) &&
    (forall i, j :: 0 <= i < j < |fs| ==> fs[i].name != fs[j].name)
  }

  /** setFields: adds the names of the fields to the known names; a name seen before is ErrDuplicateField. */
  function SetFields(known: set<string>, fs: seq<Field>): (r: Result<set<string>, Err>)
    ensures r.Ok? <==> FreshNames(known, fs)
    ensures r.Ok? ==> r.value == known + Names(fs)
    ensures r.Err? ==> exists j :: 0 <= j < |fs| && r.error == DuplicateField(fs[j].name) &&
                                 (fs[j].name in known || exists i :: 0 <= i < j && fs[i].name == fs[j].name)
    decreases fs
  {
    if fs == [] then Ok(known)
    else if fs[0].name in known then Err(DuplicateField(fs[0].name))
    else
      var r := SetFields(known + {fs[0].name}, fs[1..]);
      NamesCons(fs);
      if r.Err? then
        var j :| 0 <= j < |fs[1..]| && r.error == DuplicateField(fs[1..][j].name) &&
                 (fs[1..][j].name in known + {fs[0].name} || exists i :: 0 <= i < j && fs[1..][i].name == fs[1..][j].name);
        assert r.error == DuplicateField(fs[j + 1].name);
        assert fs[j + 1].name in known || fs[0].name == fs[j + 1].name || exists i :: 1 <= i < j + 1 && fs[i].name == fs[j + 1].name by {
          if !(fs[1..][j].name in known + {fs[0].name}) {
            var i :| 0 <= i < j && fs[1..][i].name == fs[1..][j].name;
            assert fs[i + 1].name == fs[j + 1].name;
          }
        }
        r
      else
        assert FreshNames(known, fs) by {
          forall i, j | 0 <= i < j < |fs| ensures fs[i].name != fs[j].name {
            if i > 0 { assert fs[1..][i - 1].name == fs[i].name && fs[1..][j - 1].name == fs[j].name; }
            else { assert fs[1..][j - 1].name == fs[j].name; }
          }
        }
        r
  }

  /** Fields.Object: an Object over fields in the given order; a repeated name is an error (a panic in Go). */
  function FieldsObject(fs: seq<Field>): (r: Result<Op, Err>)
    ensures r.Ok? <==> FreshNames({}, fs)
    ensures r.Ok? ==> r.value == Object(fs, "")
  {
    match SetFields({}, fs)
    case Err(e) => Err(e)
    case Ok(_) => Ok(Object(fs, ""))
  }

  /** Part: the fields an object does not name are kept in the variable vr. */
  function Part(vr: string, o: Op): Op
    requires o.Object?
  {
    o.(other := vr)
  }

  /** Pre: the given fields are checked before the fields of the object. */
  function Pre(fs: seq<Field>, o: Op): (r: Result<Op, Err>)
    requires o.Object?
    ensures r.Ok? <==> FreshNames(Names(o.fields), fs)
    ensures r.Ok? ==> r.value == Object(fs + o.fields, o.other)
  {
    match SetFields(Names(o.fields), fs)
    case Err(e) => Err(e)
    case Ok(_) => Ok(Object(fs + o.fields, o.other))
  }

  /** Post: the given fields are checked after the fields of the object. */
  function Post(o: Op, fs: seq<Field>): (r: Result<Op, Err>)
    requires o.Object?
    ensures r.Ok? <==> FreshNames(Names(o.fields), fs)
    ensures r.Ok? ==> r.value == Object(o.fields + fs, o.other)
  {
    match SetFields(Names(o.fields), fs)
    case Err(e) => Err(e)
    case Ok(_) => Ok(Object(o.fields + fs, o.other))
  }

  /** The operation of the first field with the name k. */
  function FirstField(fs: seq<Field>, k: string): (r: Option<Op>)
    ensures r.Some? <==> k in Names(fs)
  {
    if fs == [] then None
    else if fs[0].name == k then Some(fs[0].op)
    else
      NamesCons(fs);
      FirstField(fs[1..], k)
  }

  /** Object.GetField. */
  function GetField(o: Op, k: string): Option<Op>
    requires o.Object?
  {
    FirstField(o.fields, k)
  }

  /** The fields with the first field named f.name replaced by f, or f appended when there is none. */
  function ReplaceField(fs: seq<Field>, f: Field): (r: seq<Field>)
  {
    if fs == [] then [f]
    else if fs[0].name == f.name then [f] + fs[1..]
    else [fs[0]] + ReplaceField(fs[1..], f)
  }

  /** Object.SetFieldObj. */
  function SetFieldObj(o: Op, f: Field): Op
    requires o.Object?
  {
    o.(fields := ReplaceField(o.fields, f))
  }

  /** Object.SetField: sets a field that is not optional. */
  function SetField(o: Op, k: string, op: Op): Op
    requires o.Object?
  {
    SetFieldObj(o, Field(k, "", op))
  }

  /** No two keys of the map have the same value. */
  predicate Injective(m: map<Node, Node>)
  {
    forall a, b :: a in m && b in m && m[a] == m[b] ==> a == b
  }

  /** rev maps every value of fwd back to its key, and has no other entries. */
  predicate Inverse(fwd: map<Node, Node>, rev: map<Node, Node>)
  {
    (forall k :: k in fwd ==> fwd[k] in rev && rev[fwd[k]] == k) &&
    (forall v :: v in rev ==> rev[v] in fwd && fwd[rev[v]] == v)
  }

  /** Lookup: the reverse map is built from the map; a value reached from two keys is ErrAmbiguousValue (a panic in Go). */
  function Lookup(sub: Op, m: map<Node, Node>): (r: Result<Op, Err>)
    ensures r.Ok? <==> Injective(m)
    ensures r.Ok? ==> r.value.LookupOp? && r.value.sub == sub && r.value.fwd == m && Inverse(m, r.value.rev)
    ensures r.Err? ==> r.error == AmbiguousValue
  {
    if Injective(m) then Ok(LookupOp(sub, m, map k | k in m :: m[k] := k)) else Err(AmbiguousValue)
  }

  /** Append: with no lists the operation itself, otherwise the lists are checked at the end of the list. */
  function Append(to: Op, items: seq<seq<Op>>): (r: Op)
  {
    if items == [] then to else AppendOp(to, seq(|items|, i requires 0 <= i < |items| => ArrOp(items[i])))
  }

  /** CommentText and CommentTextTrimmed: the four variables are named after vr. */
  function CommentText(startToken: string, endToken: string, vr: string, doTrim: bool): Op
  {
    CommentOp(startToken, endToken, vr + "_text", vr + "_pref", vr + "_suff", vr + "_tab", doTrim)
  }
}
