// The operations as the Go code runs them: Check updates a State in place,
// one loop per operation list; Construct reads the variables and builds maps
// and lists with loops. Each method is proved equal to the function of the
// same name in module Ops.
module OpsExec {
  import opened Wrappers
  import opened Nodes
  import opened TransformerState
  import opened Ops
  import Strings
  import Semantic

  // ----------------------------------------------------------------- Check

  /** Op.Check: the verdict, the error and the new variables are those Check describes. */
  method CheckM(op: Op, st: State, n: Node) returns (ok: bool, err: Option<Err>)
    modifies st
    ensures Outcome(ok, err, st.Contents()) == Check(op, old(st.Contents()), n)
    decreases op, 1
  {
    match op
    case Is(v) =>
      ok, err := if IsValue(n) then ValueEq(v, n) else v == Null && n == Null, None;
    case Var(name) =>
      err := st.SetVar(name, n);
      ok := err.None?;
    case Any(_) =>
      ok, err := true, None;
    case AndOp(_) =>
      ok, err := CheckAndM(op, st, n);
    case Object(_, _) =>
      ok, err := CheckObjectM(op, st, n);
    case ArrOp(_) =>
      ok, err := CheckArrM(op, st, n);
    case LookupOp(sub, fwd, _) =>
      if !IsValue(n) {
        ok, err := false, Some(ExpectedValue);
      } else if n !in fwd {
        ok, err := false, Some(UnhandledValueIn);
      } else {
        ok, err := CheckM(sub, st, fwd[n]);
      }
    case AppendOp(_, _) =>
      ok, err := CheckAppendM(op, st, n);
    case IfOp(_, _, _) =>
      ok, err := CheckIfM(op, st, n);
    case Each(_, _) =>
      ok, err := CheckEachM(op, st, n);
    case NotEmpty(sub) =>
      if IsEmptyNode(n) {
        ok, err := false, None;
      } else {
        ok, err := CheckM(sub, st, n);
      }
    case Opt(_, _) =>
      ok, err := CheckOptM(op, st, n);
    case CommentOp(_, _, _, _, _, _, _) =>
      ok, err := CheckCommentM(op, st, n);
  }

  /** opAnd.Check. */
  method CheckAndM(op: Op, st: State, n: Node) returns (ok: bool, err: Option<Err>)
    requires op.AndOp?
    modifies st
    ensures Outcome(ok, err, st.Contents()) == CheckAnd(op, 0, old(st.Contents()), n)
    decreases op, 0
  {
    var i := 0;
    while i < |op.ops|
      invariant 0 <= i <= |op.ops|
      invariant CheckAnd(op, i, st.Contents(), n) == CheckAnd(op, 0, old(st.Contents()), n)
    {
      ok, err := CheckM(op.ops[i], st, n);
      if err.Some? {
        return false, Some(InOp(i, err.value));
      }
      if !ok {
        return false, None;
      }
      i := i + 1;
    }
    return true, None;
  }

  /** Object.Check: the field loop, then the unused keys. */
  method CheckObjectM(op: Op, st: State, n: Node) returns (ok: bool, err: Option<Err>)
    requires op.Object?
    modifies st
    ensures Outcome(ok, err, st.Contents()) == CheckObject(op, old(st.Contents()), n)
    decreases op, 0
  {
    if !n.Obj? {
      return false, None;
    }
    var cur := n.fields;
    var i := 0;
    while i < |op.fields|
      invariant 0 <= i <= |op.fields|
      invariant CheckFields(op, i, cur, st.Contents()) == CheckFields(op, 0, cur, old(st.Contents()))
    {
      var f := op.fields[i];
      var present := f.name in cur;
      if f.optional != "" {
        err := st.SetVar(f.optional, Bool(present));
        if err.Some? {
          return false, Some(InKey(f.name, err.value));
        }
      }
      if !present {
        if f.optional == "" {
          return false, None;
        }
      } else {
        assert f in op.fields;
        ok, err := CheckM(f.op, st, cur[f.name]);
        if err.Some? {
          return false, Some(InKey(f.name, err.value));
        }
        if !ok {
          return false, None;
        }
      }
      i := i + 1;
    }
    var names := Names(op.fields);
    if op.other == "" {
      var unused := cur.Keys - names;
      if unused != {} {
        return false, Some(UnusedField(Strings.Least(unused)));
      }
      return true, None;
    }
    var left := LeftOver(cur, names);
    err := st.SetVar(op.other, Obj(left));
    ok := err.None?;
  }

  /** The entries of the object whose keys no field names. */
  method LeftOver(cur: map<string, Node>, names: set<string>) returns (left: map<string, Node>)
    ensures left == map k | k in Unused(names, cur) :: cur[k]
  {
    left := map[];
    var rest := cur.Keys;
    while rest != {}
      invariant rest <= cur.Keys
      invariant left == map k | k in (cur.Keys - rest) - names :: cur[k]
      decreases rest
    {
      var k :| k in rest;
      if k !in names {
        left := left[k := cur[k]];
      }
      rest := rest - {k};
    }
  }

  /** opArr.Check. */
  method CheckArrM(op: Op, st: State, n: Node) returns (ok: bool, err: Option<Err>)
    requires op.ArrOp?
    modifies st
    ensures Outcome(ok, err, st.Contents()) == Check(op, old(st.Contents()), n)
    decreases op, 0
  {
    if !n.Arr? || |n.elems| != |op.elems| {
      return false, None;
    }
    var i := 0;
    while i < |op.elems|
      invariant 0 <= i <= |op.elems|
      invariant CheckElems(op, i, n.elems, st.Contents()) == CheckElems(op, 0, n.elems, old(st.Contents()))
    {
      ok, err := CheckM(op.elems[i], st, n.elems[i]);
      if err.Some? {
        return false, Some(InElem(i, err.value));
      }
      if !ok {
        return false, None;
      }
      i := i + 1;
    }
    return true, None;
  }

  /** The number of elements the list operations of an Append take, summed with a loop. */
  method TailLenM(arrs: seq<Op>) returns (tail: nat)
    ensures tail == TailLen(arrs)
  {
    tail := 0;
    var j := 0;
    while j < |arrs|
      invariant 0 <= j <= |arrs|
      invariant tail + TailLen(arrs[j..]) == TailLen(arrs)
    {
      assert arrs[j..][1..] == arrs[j + 1..];
      tail := tail + ArrLen(arrs[j]);
      j := j + 1;
    }
  }

  /** opAppend.Check. */
  method CheckAppendM(op: Op, st: State, n: Node) returns (ok: bool, err: Option<Err>)
    requires op.AppendOp?
    modifies st
    ensures Outcome(ok, err, st.Contents()) == CheckAppend(op, old(st.Contents()), n)
    decreases op, 0
  {
    if !n.Arr? {
      return false, None;
    }
    var tail := TailLenM(op.arrs);
    if tail > |n.elems| {
      return false, None;
    }
    var k := |n.elems| - tail;
    ok, err := CheckM(op.sub, st, Arr(n.elems[..k]));
    if err.Some? {
      return false, Some(InAppend(err.value));
    }
    if !ok {
      return false, None;
    }
    var rest := n.elems[k..];
    var i := 0;
    while i < |op.arrs|
      invariant 0 <= i <= |op.arrs|
      invariant CheckChunks(op, i, rest, st.Contents()) == CheckAppend(op, old(st.Contents()), n)
    {
      var len := ArrLen(op.arrs[i]);
      if len > |rest| {
        return false, None;
      }
      ok, err := CheckM(op.arrs[i], st, Arr(rest[..len]));
      if err.Some? {
        return false, Some(InElem(i, err.value));
      }
      if !ok {
        return false, None;
      }
      rest := rest[len..];
      i := i + 1;
    }
    return true, None;
  }

  /** opIf.Check: each branch on a clone of the state; the one that matches is applied. */
  method CheckIfM(op: Op, st: State, n: Node) returns (ok: bool, err: Option<Err>)
    requires op.IfOp?
    modifies st
    ensures Outcome(ok, err, st.Contents()) == CheckIf(op, old(st.Contents()), n)
    decreases op, 0
  {
    var st1 := st.Clone();
    var ok1, err1 := CheckM(op.thenOp, st1, n);
    if ok1 && err1.None? {
      st.ApplyFrom(st1);
      var ignored := st.SetVar(op.cond, Bool(true));
      return true, None;
    }
    var st2 := st.Clone();
    var ok2, err2 := CheckM(op.elseOp, st2, n);
    if ok2 && err2.None? {
      st.ApplyFrom(st2);
      var ignored := st.SetVar(op.cond, Bool(false));
      return true, None;
    }
    return false, if err1.Some? then err1 else err2;
  }

  /** opEach.Check: every element is checked in a new state, and the states are stored. */
  method CheckEachM(op: Op, st: State, n: Node) returns (ok: bool, err: Option<Err>)
    requires op.Each?
    modifies st
    ensures Outcome(ok, err, st.Contents()) == CheckEachOp(op, old(st.Contents()), n)
    decreases op, 0
  {
    if !n.Arr? && n != Null {
      return false, None;
    }
    var arr := if n.Arr? then n.elems else [];
    var subs: seq<Vars> := [];
    var i := 0;
    while i < |arr|
      invariant 0 <= i <= |arr| && |subs| == i
      invariant CheckEach(op, i, arr, subs) == CheckEach(op, 0, arr, [])
      invariant st.Contents() == old(st.Contents())
    {
      var sst := new State();
      ok, err := CheckM(op.sub, sst, arr[i]);
      if err.Some? {
        return false, Some(InElem(i, err.value));
      }
      if !ok {
        return false, None;
      }
      subs := subs + [sst.Contents()];
      i := i + 1;
    }
    err := st.SetStateVar(op.vr, if n.Arr? then Some(subs) else None);
    ok := err.None?;
  }

  /** opOptional.Check. */
  method CheckOptM(op: Op, st: State, n: Node) returns (ok: bool, err: Option<Err>)
    requires op.Opt?
    modifies st
    ensures Outcome(ok, err, st.Contents()) == CheckOpt(op, old(st.Contents()), n)
    decreases op, 0
  {
    err := st.SetVar(op.vr, Bool(n != Null));
    if err.Some? {
      return false, err;
    }
    if n == Null {
      return true, None;
    }
    ok, err := CheckM(op.sub, st, n);
  }

  /** commentUAST.Check: Split on a fresh commentElems, then SetVars of the four parts. */
  method CheckCommentM(op: Op, st: State, n: Node) returns (ok: bool, err: Option<Err>)
    requires op.CommentOp?
    modifies st
    ensures Outcome(ok, err, st.Contents()) == CheckComment(op, old(st.Contents()), n)
  {
    if !n.Str? {
      return false, None;
    }
    var p := SplitCommentM(op, n.s);
    if p.None? {
      return false, None;
    }
    err := st.SetVars(CommentVars(op, p.value));
    ok := err.None?;
  }

  /** The Split half of commentUAST.Check, on a fresh commentElems. */
  method SplitCommentM(op: Op, s: string) returns (p: Option<Semantic.Parts>)
    requires op.CommentOp?
    ensures p == Semantic.SplitAsWritten(op.startToken, op.endToken, op.doTrim, s)
  {
    var c := new Semantic.CommentElems(op.startToken, op.endToken, Semantic.Parts("", "", "", ""), op.doTrim);
    var split := c.Split(s);
    p := if split then Some(c.Current()) else None;
  }

  // ------------------------------------------------------------- Construct

  /** Op.Construct: the node or the error Construct describes. */
  method ConstructM(op: Op, vs: Vars, n: Node) returns (r: Result<Node, Err>)
    ensures r == Construct(op, vs, n)
    decreases op, 1
  {
    match op
    case Is(v) =>
      r := Ok(v);
    case Var(name) =>
      r := if n != Null then Err(UnexpectedNode) else MustGetVarIn(vs, name);
    case Any(create) =>
      r := ConstructM(create, vs, n);
    case AndOp(_) =>
      r := ConstructAndM(op, vs, n);
    case Object(_, _) =>
      r := ConstructObjectM(op, vs, n);
    case ArrOp(_) =>
      r := ConstructArrM(op, vs, n);
    case LookupOp(sub, _, rev) =>
      if n != Null {
        return Err(UnexpectedNode);
      }
      var v := ConstructM(sub, vs, Null);
      if v.Err? {
        return Err(v.error);
      }
      r := if !IsValue(v.value) then Err(ExpectedValue) else if v.value !in rev then Err(UnhandledValueIn) else Ok(rev[v.value]);
    case AppendOp(_, _) =>
      r := ConstructAppendM(op, vs, n);
    case IfOp(cond, thenOp, elseOp) =>
      var b := BoolVar(vs, cond);
      if b.Err? {
        return Err(b.error);
      }
      if b.value {
        r := ConstructM(thenOp, vs, n);
      } else {
        r := ConstructM(elseOp, vs, n);
      }
    case Each(_, _) =>
      r := ConstructEachM(op, vs, n);
    case NotEmpty(sub) =>
      r := ConstructM(sub, vs, n);
      if r.Ok? && IsEmptyNode(r.value) {
        r := Err(UnexpectedValue);
      }
    case Opt(vr, sub) =>
      var b := BoolVar(vs, vr);
      if b.Err? {
        return Err(b.error);
      }
      if !b.value {
        return Ok(Null);
      }
      r := ConstructM(sub, vs, n);
    case CommentOp(_, _, _, _, _, _, _) =>
      r := ConstructCommentM(op, vs);
  }

  /** opAnd.Construct: each operation rewrites the node the previous one built. */
  method ConstructAndM(op: Op, vs: Vars, n: Node) returns (r: Result<Node, Err>)
    requires op.AndOp?
    ensures r == ConstructAnd(op, 0, vs, n)
    decreases op, 0
  {
    var cur := n;
    var i := 0;
    while i < |op.ops|
      invariant 0 <= i <= |op.ops|
      invariant ConstructAnd(op, i, vs, cur) == ConstructAnd(op, 0, vs, n)
    {
      var next := ConstructM(op.ops[i], vs, cur);
      if next.Err? {
        return Err(InOp(i, next.error));
      }
      cur := next.value;
      i := i + 1;
    }
    return Ok(cur);
  }

  /** Object.Construct: the field loop, then the kept entries copied over. */
  method ConstructObjectM(op: Op, vs: Vars, n: Node) returns (r: Result<Node, Err>)
    requires op.Object?
    ensures r == ConstructObject(op, vs, n)
    decreases op, 0
  {
    if n != Null {
      return Err(UnexpectedNode);
    }
    var obj: map<string, Node> := map[];
    var i := 0;
    while i < |op.fields|
      invariant 0 <= i <= |op.fields|
      invariant ConstructFields(op, i, vs, obj) == ConstructFields(op, 0, vs, map[])
    {
      var f := op.fields[i];
      var exists_ := if f.optional != "" then BoolVar(vs, f.optional) else Ok(true);
      if exists_.Err? {
        return Err(InKey(f.name, exists_.error));
      }
      if exists_.value {
        assert f in op.fields;
        var v := ConstructM(f.op, vs, Null);
        if v.Err? {
          return Err(InKey(f.name, v.error));
        }
        obj := obj[f.name := v.value];
      }
      i := i + 1;
    }
    if op.other == "" {
      return Ok(Obj(obj));
    }
    var left := MustGetVarIn(vs, op.other);
    if left.Err? {
      return Err(left.error);
    }
    if !left.value.Obj? {
      return Err(ExpectedObject);
    }
    var all := Overlay(obj, left.value.fields);
    return Ok(Obj(all));
  }

  /** The entries of b copied over a, one by one. */
  method Overlay(a: map<string, Node>, b: map<string, Node>) returns (out: map<string, Node>)
    ensures out == a + b
  {
    out := a;
    var rest := b.Keys;
    while rest != {}
      invariant rest <= b.Keys
      invariant out == a + map k | k in b.Keys - rest :: b[k]
      decreases rest
    {
      var k :| k in rest;
      out := out[k := b[k]];
      rest := rest - {k};
    }
  }

  /** opArr.Construct. */
  method ConstructArrM(op: Op, vs: Vars, n: Node) returns (r: Result<Node, Err>)
    requires op.ArrOp?
    ensures r == Construct(op, vs, n)
    decreases op, 0
  {
    if n != Null {
      return Err(UnexpectedNode);
    }
    var arr: seq<Node> := [];
    var i := 0;
    while i < |op.elems|
      invariant 0 <= i <= |op.elems|
      invariant ConstructElems(op, i, vs, arr) == ConstructElems(op, 0, vs, [])
    {
      var v := ConstructM(op.elems[i], vs, Null);
      if v.Err? {
        return Err(InElem(i, v.error));
      }
      arr := arr + [v.value];
      i := i + 1;
    }
    return Ok(Arr(arr));
  }

  /** opAppend.Construct: the lists the list operations build are appended to a copy of the head. */
  method ConstructAppendM(op: Op, vs: Vars, n: Node) returns (r: Result<Node, Err>)
    requires op.AppendOp?
    ensures r == Construct(op, vs, n)
    decreases op, 0
  {
    var head := ConstructM(op.sub, vs, n);
    if head.Err? {
      return Err(head.error);
    }
    if !head.value.Arr? {
      return Err(ExpectedList);
    }
    var arr := head.value.elems;
    var i := 0;
    while i < |op.arrs|
      invariant 0 <= i <= |op.arrs|
      invariant ConstructChunks(op, i, vs, arr) == ConstructChunks(op, 0, vs, head.value.elems)
    {
      var v := ConstructM(op.arrs[i], vs, Null);
      if v.Err? {
        return Err(InElem(i, v.error));
      }
      if !v.value.Arr? {
        return Err(InElem(i, ExpectedList));
      }
      arr := arr + v.value.elems;
      i := i + 1;
    }
    return Ok(Arr(arr));
  }

  /** opEach.Construct: one element per stored element state. */
  method ConstructEachM(op: Op, vs: Vars, n: Node) returns (r: Result<Node, Err>)
    requires op.Each?
    ensures r == Construct(op, vs, n)
    decreases op, 0
  {
    if n != Null {
      return Err(UnexpectedNode);
    }
    if op.vr !in vs.states {
      return Err(VariableNotDefined(op.vr));
    }
    var stored := vs.states[op.vr];
    if stored.None? {
      return Ok(Null);
    }
    var subs := stored.value;
    var arr: seq<Node> := [];
    var i := 0;
    while i < |subs|
      invariant 0 <= i <= |subs|
      invariant ConstructEach(op, i, subs, arr) == ConstructEach(op, 0, subs, [])
    {
      var v := ConstructM(op.sub, subs[i], Null);
      if v.Err? {
        return Err(InElem(i, v.error));
      }
      arr := arr + [v.value];
      i := i + 1;
    }
    return Ok(Arr(arr));
  }

  /** commentUAST.Construct: the four parts read back, then Join on a commentElems holding them. */
  method ConstructCommentM(op: Op, vs: Vars) returns (r: Result<Node, Err>)
    requires op.CommentOp?
    ensures r == ConstructComment(op, vs)
  {
    var missing := StringVars(vs, {op.textVar, op.prefVar, op.suffVar, op.indentVar});
    if missing.Some? {
      return Err(missing.value);
    }
    var p := Semantic.Parts(vs.vars[op.textVar].s, vs.vars[op.prefVar].s, vs.vars[op.suffVar].s, vs.vars[op.indentVar].s);
    var c := new Semantic.CommentElems(op.startToken, op.endToken, p, false);
    var s := c.Join();
    return Ok(Str(s));
  }
}
