// Properties of the transformer operations: what Check accepts and binds,
// what Construct builds, and that Construct rebuilds the node Check matched.
module OpsProps {
  import opened Wrappers
  import opened Nodes
  import opened TransformerState
  import opened Ops
  import Semantic
  import Strings

  // ------------------------------------------------------------ reversible

  /**
   * A string on which a start and an end token overlap: it starts with the one
   * and ends with the other but is shorter than the two together (the block
   * comment made of a slash, a star and a slash is one).
   */
  predicate Overlapped(s: string, startToken: string, endToken: string)
  {
    Strings.HasPrefix(s, startToken) && Strings.HasSuffix(s, endToken) && |s| < |startToken| + |endToken|
  }

  /**
   * A tree without floating-point values (their equality is IEEE equality,
   * not identity) and without a string on which any of the token pairs
   * overlap (Split as written accepts those, and Join does not give them back).
   */
  ghost predicate Fits(n: Node, toks: set<(string, string)>)
  {
    match n
    case Float(_) => false
    case Str(s) => forall t :: t in toks ==> !Overlapped(s, t.0, t.1)
    case Obj(m) => forall k :: k in m ==> Fits(m[k], toks)
    case Arr(s) => forall i :: 0 <= i < |s| ==> Fits(s[i], toks)
    case _ => true
  }

  /**
   * The token pairs hold those of every comment operation inside op, and every
   * value a lookup inside op produces fits them.
   */
  ghost predicate Covers(op: Op, toks: set<(string, string)>)
    decreases op
  {
    match op
    case Object(fields, _) => forall i :: 0 <= i < |fields| ==> fields[i] in fields && Covers(fields[i].op, toks)
    case ArrOp(elems) => forall i :: 0 <= i < |elems| ==> Covers(elems[i], toks)
    case AndOp(ops) => forall i :: 0 <= i < |ops| ==> Covers(ops[i], toks)
    case LookupOp(sub, fwd, _) => Covers(sub, toks) && forall k :: k in fwd ==> Fits(fwd[k], toks)
    case AppendOp(sub, arrs) => Covers(sub, toks) && forall i :: 0 <= i < |arrs| ==> Covers(arrs[i], toks)
    case IfOp(_, thenOp, elseOp) => Covers(thenOp, toks) && Covers(elseOp, toks)
    case Each(_, sub) => Covers(sub, toks)
    case NotEmpty(sub) => Covers(sub, toks)
    case Opt(_, sub) => Covers(sub, toks)
    case CommentOp(startToken, endToken, _, _, _, _, _) => (startToken, endToken) in toks
    case _ => true
  }

  /**
   * An operation Append can hand an empty head to. Append passes a nil list
   * then; an Each records nil states for it, and its Construct gives nil,
   * not a list, which Append's Construct refuses. So an Each, alone or under
   * Opt or NotEmpty, is not one.
   */
  predicate NilHeadSafe(op: Op)
  {
    match op
    case Each(_, _) => false
    case Opt(_, sub) => NilHeadSafe(sub)
    case NotEmpty(sub) => NilHeadSafe(sub)
    case _ => true
  }

  /** Four pairwise different variable names. */
  predicate Distinct4(a: string, b: string, c: string, d: string)
  {
    a != b && a != c && a != d && b != c && b != d && c != d
  }

  /**
   * The operations whose Construct undoes their Check: Any, And and If are
   * left out (Any forgets the node, And hands each Construct the node the
   * previous one built, If leaves a clash on its condition variable
   * unreported); a Lookup map must be reversed by its reverse map, to values
   * other than floats; a comment must not be trimmed and must use four
   * different variables.
   */
  ghost predicate Reversible(op: Op)
    decreases op
  {
    match op
    case Is(_) => true
    case Var(_) => true
    case Any(_) => false
    case AndOp(_) => false
    case Object(fields, _) => forall i :: 0 <= i < |fields| ==> fields[i] in fields && Reversible(fields[i].op)
    case ArrOp(elems) => forall i :: 0 <= i < |elems| ==> Reversible(elems[i])
    case LookupOp(sub, fwd, rev) =>
      Reversible(sub) && forall k :: k in fwd ==> IsValue(fwd[k]) && !fwd[k].Float? && fwd[k] in rev && rev[fwd[k]] == k
    case AppendOp(sub, arrs) => Reversible(sub) && NilHeadSafe(sub) && forall i :: 0 <= i < |arrs| ==> arrs[i].ArrOp? && Reversible(arrs[i])
    case IfOp(_, _, _) => false
    case Each(_, sub) => Reversible(sub)
    case NotEmpty(sub) => Reversible(sub)
    case Opt(_, sub) => Reversible(sub)
    case CommentOp(_, _, textVar, prefVar, suffVar, indentVar, doTrim) => !doTrim && Distinct4(textVar, prefVar, suffVar, indentVar)
  }

  /** The entries of an object whose keys are among the names. */
  function Restrict(cur: map<string, Node>, names: set<string>): (r: map<string, Node>)
    ensures r.Keys == cur.Keys * names
    ensures forall k :: k in r ==> r[k] == cur[k]
  {
    map k | k in cur && k in names :: cur[k]
  }

  lemma {:induction false} RestrictAdd(obj: map<string, Node>, cur: map<string, Node>, name: string, names: set<string>)
    requires name in cur
    ensures obj[name := cur[name]] + Restrict(cur, names) == obj + Restrict(cur, {name} + names)
  {
    var a := obj[name := cur[name]] + Restrict(cur, names);
    var b := obj + Restrict(cur, {name} + names);
    assert a.Keys == b.Keys;
    forall k | k in a ensures a[k] == b[k] {
    }
  }

  lemma {:induction false} RestrictSkip(cur: map<string, Node>, name: string, names: set<string>)
    requires name !in cur
    ensures Restrict(cur, {name} + names) == Restrict(cur, names)
  {
    assert Restrict(cur, {name} + names).Keys == Restrict(cur, names).Keys;
  }

  lemma {:induction false} SnocRest<T>(acc: seq<T>, s: seq<T>, i: nat)
    requires i < |s|
    ensures acc + [s[i]] + s[i + 1..] == acc + s[i..]
  {
    assert s[i..] == [s[i]] + s[i + 1..];
  }

  lemma {:induction false} SplitRest<T>(acc: seq<T>, s: seq<T>, k: nat)
    requires k <= |s|
    ensures acc + s[..k] + s[k..] == acc + s
  {
    assert s[..k] + s[k..] == s;
  }

  // ------------------------------------------------------------- bindings

  /** A successful SetVar of a node that is not a float leaves the variable bound to exactly that node. */
  lemma {:induction false} SetVarBinds(st: Vars, name: string, val: Node)
    requires SetVarIn(st, name, val).Ok? && !val.Float?
    ensures name in SetVarIn(st, name, val).value.vars && SetVarIn(st, name, val).value.vars[name] == val
  {
    if name in st.vars {
      ValueEqIsEquality(val, st.vars[name]);
    }
  }

  /** A binding survives into every state that extends the state holding it. */
  lemma {:induction false} BoundIn(a: Vars, b: Vars, name: string, val: Node)
    requires Extends(b, a) && name in a.vars && a.vars[name] == val
    ensures MustGetVarIn(b, name) == Ok(val)
  {
  }

  // ----------------------------------------------------------- round trip

  /**
   * Construct rebuilds what Check matched: when a reversible operation
   * accepts a node without floats and without a string its comment tokens
   * overlap on, Construct in any state that extends the state Check left
   * returns that node.
   */
  lemma {:induction false} CheckThenConstruct(op: Op, st: Vars, n: Node, st2: Vars, toks: set<(string, string)>)
    requires Reversible(op) && Covers(op, toks) && Fits(n, toks)
    requires Check(op, st, n).ok && Extends(st2, Check(op, st, n).st)
    ensures Construct(op, st2, Null) == Ok(n)
    decreases op, 1, 0
  {
    match op
    case Is(v) =>
    case Var(name) =>
      VarThenConstruct(op, st, n, st2);
    case Object(fields, other) =>
      ObjectThenConstruct(op, st, n, st2, toks);
    case ArrOp(elems) =>
      ArrThenConstruct(op, st, n, st2, toks);
    case LookupOp(sub, fwd, rev) =>
      LookupThenConstruct(op, st, n, st2, toks);
    case AppendOp(sub, arrs) =>
      AppendThenConstruct(op, st, n, st2, toks);
    case Each(vr, sub) =>
      EachCheckThenConstruct(op, st, n, st2, toks);
    case NotEmpty(sub) =>
      CheckThenConstruct(sub, st, n, st2, toks);
    case Opt(vr, sub) =>
      OptThenConstruct(op, st, n, st2, toks);
    case CommentOp(startToken, endToken, textVar, prefVar, suffVar, indentVar, doTrim) =>
      CommentThenConstruct(op, st, n, st2, toks);
  }

  /** The Var case of CheckThenConstruct: the variable holds the node. */
  lemma {:induction false} VarThenConstruct(op: Op, st: Vars, n: Node, st2: Vars)
    requires op.Var? && !n.Float?
    requires Check(op, st, n).ok && Extends(st2, Check(op, st, n).st)
    ensures Construct(op, st2, Null) == Ok(n)
  {
    SetVarBinds(st, op.name, n);
  }

  /** The list case of CheckThenConstruct. */
  lemma {:induction false} ArrThenConstruct(op: Op, st: Vars, n: Node, st2: Vars, toks: set<(string, string)>)
    requires op.ArrOp? && Reversible(op) && Covers(op, toks) && Fits(n, toks)
    requires Check(op, st, n).ok && Extends(st2, Check(op, st, n).st)
    ensures Construct(op, st2, Null) == Ok(n)
    decreases op, 0, |op.elems| + 1
  {
    ElemsThenConstruct(op, 0, n.elems, st, st2, [], toks);
    assert [] + n.elems[0..] == n.elems;
  }

  /** The Lookup case of CheckThenConstruct: the reverse map takes the value back to the node. */
  lemma {:induction false} LookupThenConstruct(op: Op, st: Vars, n: Node, st2: Vars, toks: set<(string, string)>)
    requires op.LookupOp? && Reversible(op) && Covers(op, toks) && Fits(n, toks)
    requires Check(op, st, n).ok && Extends(st2, Check(op, st, n).st)
    ensures Construct(op, st2, Null) == Ok(n)
    decreases op, 0, 0
  {
    CheckThenConstruct(op.sub, st, op.fwd[n], st2, toks);
  }

  /** The Optional case of CheckThenConstruct: the flag records whether there was a node. */
  lemma {:induction false} OptThenConstruct(op: Op, st: Vars, n: Node, st2: Vars, toks: set<(string, string)>)
    requires op.Opt? && Reversible(op) && Covers(op, toks) && Fits(n, toks)
    requires Check(op, st, n).ok && Extends(st2, Check(op, st, n).st)
    ensures Construct(op, st2, Null) == Ok(n)
    decreases op, 0, 0
  {
    var st1 := SetVarIn(st, op.vr, Bool(n != Null)).value;
    SetVarBinds(st, op.vr, Bool(n != Null));
    if n != Null {
      CheckThenConstruct(op.sub, st1, n, st2, toks);
    }
  }

  /** The Object case of CheckThenConstruct. */
  lemma {:induction false} ObjectThenConstruct(op: Op, st: Vars, n: Node, st2: Vars, toks: set<(string, string)>)
    requires op.Object? && Reversible(op) && Covers(op, toks) && Fits(n, toks)
    requires CheckObject(op, st, n).ok && Extends(st2, CheckObject(op, st, n).st)
    ensures ConstructObject(op, st2, Null) == Ok(n)
    decreases op, 0, |op.fields| + 1
  {
    var cur := n.fields;
    var r := CheckFields(op, 0, cur, st);
    var r2 := CheckRest(op.other, Names(op.fields), cur, r.st);
    ExtendsTrans(r.st, r2.st, st2);
    FieldsThenConstruct(op, 0, cur, st, st2, map[], toks);
    assert op.fields[0..] == op.fields;
    var obj := Restrict(cur, Names(op.fields));
    assert map[] + obj == obj;
    var left := map k | k in Unused(Names(op.fields), cur) :: cur[k];
    RestrictSplit(cur, Names(op.fields), obj, left);
    if op.other != "" {
      SetVarBinds(r.st, op.other, Obj(left));
    }
  }

  /** The fields an object op names and the fields it leaves to `other` make up the whole object. */
  lemma {:induction false} RestrictSplit(cur: map<string, Node>, names: set<string>, obj: map<string, Node>,
                                         left: map<string, Node>)
    requires obj == Restrict(cur, names) && left == map k | k in Unused(names, cur) :: cur[k]
    ensures obj + left == cur
    ensures Unused(names, cur) == {} ==> obj == cur
  {
    assert (obj + left).Keys == cur.Keys;
  }

  /** The field loop: the fields from the i-th on add the entries of the node they name. */
  lemma {:induction false} FieldsThenConstruct(parent: Op, i: nat, cur: map<string, Node>, st: Vars, st2: Vars,
                                               obj: map<string, Node>, toks: set<(string, string)>)
    requires parent.Object? && Reversible(parent) && Covers(parent, toks) && i <= |parent.fields|
    requires forall k :: k in cur ==> Fits(cur[k], toks)
    requires CheckFields(parent, i, cur, st).ok && Extends(st2, CheckFields(parent, i, cur, st).st)
    ensures ConstructFields(parent, i, st2, obj) == Ok(obj + Restrict(cur, Names(parent.fields[i..])))
    decreases parent, 0, |parent.fields| - i, 1
  {
    if i == |parent.fields| {
      assert Restrict(cur, Names(parent.fields[i..])) == map[];
      assert obj + map[] == obj;
    } else {
      var f := parent.fields[i];
      NamesCons(parent.fields[i..]);
      assert parent.fields[i..][1..] == parent.fields[i + 1..];
      var st1 := FieldFlag(f, cur, st).value;
      if f.optional != "" {
        SetVarBinds(st, f.optional, Bool(f.name in cur));
      }
      if f.name !in cur {
        FieldAbsent(parent, i, cur, st1, st2, obj, toks);
        RestrictSkip(cur, f.name, Names(parent.fields[i + 1..]));
      } else {
        FieldPresent(parent, i, cur, st1, st2, obj, toks);
        RestrictAdd(obj, cur, f.name, Names(parent.fields[i + 1..]));
      }
    }
  }

  /** A missing optional field adds nothing, as its flag is false. */
  lemma {:induction false} FieldAbsent(parent: Op, i: nat, cur: map<string, Node>, st1: Vars, st2: Vars,
                                       obj: map<string, Node>, toks: set<(string, string)>)
    requires parent.Object? && Reversible(parent) && Covers(parent, toks) && i < |parent.fields|
    requires forall k :: k in cur ==> Fits(cur[k], toks)
    requires parent.fields[i].name !in cur && parent.fields[i].optional != ""
    requires parent.fields[i].optional in st1.vars && st1.vars[parent.fields[i].optional] == Bool(false)
    requires CheckFields(parent, i + 1, cur, st1).ok && Extends(st2, CheckFields(parent, i + 1, cur, st1).st)
    ensures ConstructFields(parent, i, st2, obj) == Ok(obj + Restrict(cur, Names(parent.fields[i + 1..])))
    decreases parent, 0, |parent.fields| - i, 0
  {
    ExtendsTrans(st1, CheckFields(parent, i + 1, cur, st1).st, st2);
    FieldsThenConstruct(parent, i + 1, cur, st1, st2, obj, toks);
  }

  /** A present field adds its entry, which its operation rebuilds. */
  lemma {:induction false} FieldPresent(parent: Op, i: nat, cur: map<string, Node>, st1: Vars, st2: Vars,
                                        obj: map<string, Node>, toks: set<(string, string)>)
    requires parent.Object? && Reversible(parent) && Covers(parent, toks) && i < |parent.fields|
    requires forall k :: k in cur ==> Fits(cur[k], toks)
    requires parent.fields[i].name in cur
    requires parent.fields[i].optional != "" ==>
               parent.fields[i].optional in st1.vars && st1.vars[parent.fields[i].optional] == Bool(true)
    requires Check(parent.fields[i].op, st1, cur[parent.fields[i].name]).ok
    requires var r1 := Check(parent.fields[i].op, st1, cur[parent.fields[i].name]);
             CheckFields(parent, i + 1, cur, r1.st).ok && Extends(st2, CheckFields(parent, i + 1, cur, r1.st).st)
    ensures ConstructFields(parent, i, st2, obj) ==
            Ok(obj[parent.fields[i].name := cur[parent.fields[i].name]] + Restrict(cur, Names(parent.fields[i + 1..])))
    decreases parent, 0, |parent.fields| - i, 0
  {
    var f := parent.fields[i];
    var r1 := Check(f.op, st1, cur[f.name]);
    var r2 := CheckFields(parent, i + 1, cur, r1.st);
    ExtendsTrans(r1.st, r2.st, st2);
    ExtendsTrans(st1, r1.st, st2);
    assert f in parent.fields;
    CheckThenConstruct(f.op, st1, cur[f.name], st2, toks);
    FieldsThenConstruct(parent, i + 1, cur, r1.st, st2, obj[f.name := cur[f.name]], toks);
  }

  /** The element loop of a list: the operations from the i-th on build the elements from the i-th on. */
  lemma {:induction false} ElemsThenConstruct(parent: Op, i: nat, arr: seq<Node>, st: Vars, st2: Vars, acc: seq<Node>, toks: set<(string, string)>)
    requires parent.ArrOp? && Reversible(parent) && Covers(parent, toks) && i <= |parent.elems| == |arr|
    requires forall j :: 0 <= j < |arr| ==> Fits(arr[j], toks)
    requires CheckElems(parent, i, arr, st).ok && Extends(st2, CheckElems(parent, i, arr, st).st)
    ensures ConstructElems(parent, i, st2, acc) == Ok(Arr(acc + arr[i..]))
    decreases parent, 0, |parent.elems| - i
  {
    if i == |parent.elems| {
      assert acc + arr[i..] == acc;
    } else {
      var r1 := Check(parent.elems[i], st, arr[i]);
      var r2 := CheckElems(parent, i + 1, arr, r1.st);
      ExtendsTrans(r1.st, r2.st, st2);
      CheckThenConstruct(parent.elems[i], st, arr[i], st2, toks);
      ElemsThenConstruct(parent, i + 1, arr, r1.st, st2, acc + [arr[i]], toks);
      SnocRest(acc, arr, i);
    }
  }

  /** The Append case of CheckThenConstruct. */
  lemma {:induction false} AppendThenConstruct(op: Op, st: Vars, n: Node, st2: Vars, toks: set<(string, string)>)
    requires op.AppendOp? && Reversible(op) && Covers(op, toks) && Fits(n, toks)
    requires CheckAppend(op, st, n).ok && Extends(st2, CheckAppend(op, st, n).st)
    ensures Construct(op, st2, Null) == Ok(n)
    decreases op, 0, |op.arrs| + 1
  {
    AppendCheckParts(op, st, n);
    var k := |n.elems| - TailLen(op.arrs);
    var head := Arr(n.elems[..k]);
    var r := Check(op.sub, st, head);
    var r2 := CheckChunks(op, 0, n.elems[k..], r.st);
    ExtendsTrans(r.st, r2.st, st2);
    CheckThenConstruct(op.sub, st, head, st2, toks);
    AppendConstructParts(op, st2, head);
    assert op.arrs[0..] == op.arrs;
    ChunksThenConstruct(op, 0, n.elems[k..], r.st, st2, n.elems[..k], toks);
    assert n.elems[..k] + n.elems[k..] == n.elems;
  }

  /** A successful Append check: the head matched the leading elements and the list operations the rest. */
  lemma {:induction false} AppendCheckParts(op: Op, st: Vars, n: Node)
    requires op.AppendOp? && CheckAppend(op, st, n).ok
    ensures n.Arr? && TailLen(op.arrs) <= |n.elems|
    ensures var k := |n.elems| - TailLen(op.arrs); var r := Check(op.sub, st, Arr(n.elems[..k]));
      r.ok && CheckChunks(op, 0, n.elems[k..], r.st) == CheckAppend(op, st, n)
  {
  }

  /** Append.Construct on a head that built a list: the list operations extend it. */
  lemma {:induction false} AppendConstructParts(op: Op, st: Vars, head: Node)
    requires op.AppendOp? && Construct(op.sub, st, Null) == Ok(head) && head.Arr?
    ensures Construct(op, st, Null) == ConstructChunks(op, 0, st, head.elems)
  {
  }

  /** The list loop of Append: the list operations from the i-th on build the rest of the list. */
  lemma {:induction false} ChunksThenConstruct(parent: Op, i: nat, rest: seq<Node>, st: Vars, st2: Vars, acc: seq<Node>, toks: set<(string, string)>)
    requires parent.AppendOp? && Reversible(parent) && Covers(parent, toks) && i <= |parent.arrs|
    requires TailLen(parent.arrs[i..]) == |rest|
    requires forall j :: 0 <= j < |rest| ==> Fits(rest[j], toks)
    requires CheckChunks(parent, i, rest, st).ok && Extends(st2, CheckChunks(parent, i, rest, st).st)
    ensures ConstructChunks(parent, i, st2, acc) == Ok(Arr(acc + rest))
    decreases parent, 0, |parent.arrs| - i
  {
    if i == |parent.arrs| {
      assert rest == [] && acc + rest == acc;
    } else {
      var len := ArrLen(parent.arrs[i]);
      assert parent.arrs[i..][1..] == parent.arrs[i + 1..];
      var piece := Arr(rest[..len]);
      var r1 := Check(parent.arrs[i], st, piece);
      var r2 := CheckChunks(parent, i + 1, rest[len..], r1.st);
      ExtendsTrans(r1.st, r2.st, st2);
      CheckThenConstruct(parent.arrs[i], st, piece, st2, toks);
      ChunksThenConstruct(parent, i + 1, rest[len..], r1.st, st2, acc + rest[..len], toks);
      SplitRest(acc, rest, len);
    }
  }

  /** The Each case of CheckThenConstruct. */
  lemma {:induction false} EachCheckThenConstruct(op: Op, st: Vars, n: Node, st2: Vars, toks: set<(string, string)>)
    requires op.Each? && Reversible(op) && Covers(op, toks) && Fits(n, toks)
    requires CheckEachOp(op, st, n).ok && Extends(st2, CheckEachOp(op, st, n).st)
    ensures Construct(op, st2, Null) == Ok(n)
    decreases op, 0, (if n.Arr? then |n.elems| else 0) + 1
  {
    var arr := if n.Arr? then n.elems else [];
    var subs := CheckEach(op, 0, arr, []).value;
    if n.Arr? {
      EachThenConstruct(op, 0, arr, [], [], toks);
      assert [] + arr[0..] == arr;
    }
  }

  /** The element loop of Each: the element states from the i-th on build the elements from the i-th on. */
  lemma {:induction false} EachThenConstruct(parent: Op, i: nat, arr: seq<Node>, acc: seq<Vars>, built: seq<Node>, toks: set<(string, string)>)
    requires parent.Each? && Reversible(parent) && Covers(parent, toks) && i <= |arr| && |acc| == i
    requires forall j :: 0 <= j < |arr| ==> Fits(arr[j], toks)
    requires CheckEach(parent, i, arr, acc).Ok?
    ensures ConstructEach(parent, i, CheckEach(parent, i, arr, acc).value, built) == Ok(Arr(built + arr[i..]))
    decreases parent, 0, |arr| - i
  {
    var subs := CheckEach(parent, i, arr, acc).value;
    if i < |arr| {
      var r1 := Check(parent.sub, Empty, arr[i]);
      assert subs == CheckEach(parent, i + 1, arr, acc + [r1.st]).value;
      assert subs[..i + 1] == acc + [r1.st];
      assert subs[i] == subs[..i + 1][i];
      ExtendsRefl(r1.st);
      CheckThenConstruct(parent.sub, Empty, arr[i], subs[i], toks);
      EachThenConstruct(parent, i + 1, arr, acc + [r1.st], built + [arr[i]], toks);
      SnocRest(built, arr, i);
    } else {
      assert |subs| == i && built + arr[i..] == built;
    }
  }

  /** The comment case of CheckThenConstruct: the four parts Split stores join back into the comment. */
  lemma {:induction false} CommentThenConstruct(op: Op, st: Vars, n: Node, st2: Vars, toks: set<(string, string)>)
    requires op.CommentOp? && Reversible(op) && Covers(op, toks) && Fits(n, toks)
    requires CheckComment(op, st, n).ok && Extends(st2, CheckComment(op, st, n).st)
    ensures ConstructComment(op, st2) == Ok(n)
  {
    assert n.Str?;
    var sp := Semantic.SplitAsWritten(op.startToken, op.endToken, op.doTrim, n.s);
    assert sp.Some?;
    assert !Overlapped(n.s, op.startToken, op.endToken);
    var p := sp.value;
    var m := CommentVars(op, p);
    assert SetVarsIn(st, m).1.None? && Extends(st2, SetVarsIn(st, m).0);
    CommentVarsAt(op, p);
    SetVarsBinds(st, m, st2);
    StringsBound(op, st2, p);
    Semantic.SplitAsWrittenThenJoin(op.startToken, op.endToken, op.doTrim, n.s);
  }

  /** SetVars of nodes that are not floats binds every variable to exactly its node. */
  lemma {:induction false} SetVarsBinds(st: Vars, m: map<string, Node>, st2: Vars)
    requires SetVarsIn(st, m).1.None? && Extends(st2, SetVarsIn(st, m).0)
    requires forall k :: k in m ==> !m[k].Float?
    ensures forall k :: k in m ==> k in st2.vars && st2.vars[k] == m[k]
  {
    var st1 := SetVarsIn(st, m).0;
    forall k | k in m ensures k in st2.vars && st2.vars[k] == m[k] {
      ValueEqIsEquality(m[k], st1.vars[k]);
    }
  }

  /** The variables a comment binds, and the string each holds. */
  lemma {:induction false} CommentVarsAt(op: Op, p: Semantic.Parts)
    requires op.CommentOp? && Distinct4(op.textVar, op.prefVar, op.suffVar, op.indentVar)
    ensures CommentVars(op, p).Keys == {op.textVar, op.prefVar, op.suffVar, op.indentVar}
    ensures CommentVars(op, p)[op.textVar] == Str(p.text) && CommentVars(op, p)[op.prefVar] == Str(p.prefix)
    ensures CommentVars(op, p)[op.suffVar] == Str(p.suffix) && CommentVars(op, p)[op.indentVar] == Str(p.indent)
  {
  }

  /** A state holding the four parts gives them back to Construct. */
  lemma {:induction false} StringsBound(op: Op, st: Vars, p: Semantic.Parts)
    requires op.CommentOp? && Distinct4(op.textVar, op.prefVar, op.suffVar, op.indentVar)
    requires forall k :: k in CommentVars(op, p) ==> k in st.vars && st.vars[k] == CommentVars(op, p)[k]
    ensures ConstructComment(op, st) == Ok(Str(Semantic.JoinParts(op.startToken, op.endToken, p)))
  {
    CommentVarsAt(op, p);
    var names := {op.textVar, op.prefVar, op.suffVar, op.indentVar};
    assert StringVars(st, names) == None;
    assert Semantic.Parts(st.vars[op.textVar].s, st.vars[op.prefVar].s, st.vars[op.suffVar].s, st.vars[op.indentVar].s) == p;
  }

  // ------------------------------------------------------ single operations

  /** Is: the node matches iff it is the same value, or both are nil; Check binds nothing. */
  lemma {:induction false} IsCheck(v: Node, st: Vars, n: Node)
    requires !n.Float?
    ensures Check(Is(v), st, n).ok <==> (IsValue(n) && n == v) || (v == Null && n == Null)
    ensures Check(Is(v), st, n).st == st && Check(Is(v), st, n).err == None
    ensures Construct(Is(v), st, n) == Ok(v)
  {
    if IsValue(n) {
      ValueEqIsEquality(n, v);
      assert ValueEq(v, n) <==> ValueEq(n, v);
    }
  }

  /** Var: Check binds the node; Construct needs a nil node and a bound variable, and returns its node. */
  lemma {:induction false} VarCheckConstruct(name: string, st: Vars, n: Node)
    ensures Check(Var(name), st, n).ok <==> SetVarIn(st, name, n).Ok?
    ensures Check(Var(name), st, n).ok && !n.Float? ==> Check(Var(name), st, n).st.vars[name] == n
    ensures Construct(Var(name), st, n).Ok? <==> n == Null && name in st.vars
    ensures Construct(Var(name), st, n).Ok? ==> Construct(Var(name), st, n).value == st.vars[name]
    ensures n != Null ==> Construct(Var(name), st, n) == Err(UnexpectedNode)
    ensures n == Null && name !in st.vars ==> Construct(Var(name), st, n) == Err(VariableNotDefined(name))
  {
    if Check(Var(name), st, n).ok && !n.Float? {
      SetVarBinds(st, name, n);
    }
  }

  /** And of one operation behaves as that operation: the same verdict and the same state. */
  lemma {:induction false} AndSingle(op: Op, st: Vars, n: Node)
    ensures And([op]) == op
    ensures Check(AndOp([op]), st, n).ok == Check(op, st, n).ok
    ensures Check(AndOp([op]), st, n).st == Check(op, st, n).st
    ensures Construct(AndOp([op]), st, n).Ok? == Construct(op, st, n).Ok?
    ensures Construct(op, st, n).Ok? ==> Construct(AndOp([op]), st, n) == Construct(op, st, n)
  {
    var r1 := Check(op, st, n);
    assert CheckAnd(AndOp([op]), 1, r1.st, n) == Outcome(true, None, r1.st);
    if Construct(op, st, n).Ok? {
      assert ConstructAnd(AndOp([op]), 1, st, Construct(op, st, n).value) == Construct(op, st, n);
    }
  }

  /** And stops at the first operation that fails: operations after it are never looked at. */
  lemma {:induction false} AndStops(ops: seq<Op>, more: seq<Op>, i: nat, st: Vars, n: Node)
    requires i <= |ops| && !CheckAnd(AndOp(ops), i, st, n).ok
    ensures CheckAnd(AndOp(ops + more), i, st, n) == CheckAnd(AndOp(ops), i, st, n)
    decreases |ops| - i
  {
    if i < |ops| {
      assert (ops + more)[i] == ops[i];
      var r1 := Check(ops[i], st, n);
      if r1.ok && r1.err.None? {
        AndStops(ops, more, i + 1, r1.st, n);
      }
    }
  }

  /** And.Construct runs its operations in sequence: one more operation rewrites the node the others built. */
  lemma {:induction false} AndConstructSnoc(ops: seq<Op>, last: Op, i: nat, st: Vars, n: Node)
    requires i <= |ops|
    ensures ConstructAnd(AndOp(ops + [last]), i, st, n) ==
            match ConstructAnd(AndOp(ops), i, st, n)
            case Err(e) => Err(e)
            case Ok(n1) => (match Construct(last, st, n1) case Err(e) => Err(InOp(|ops|, e)) case Ok(n2) => Ok(n2))
    decreases |ops| - i
  {
    if i < |ops| {
      assert (ops + [last])[i] == ops[i];
      match Construct(ops[i], st, n)
      case Err(e) =>
      case Ok(n1) => AndConstructSnoc(ops, last, i + 1, st, n1);
    } else {
      assert (ops + [last])[i] == last;
      var n2 := Construct(last, st, n);
      if n2.Ok? {
        assert ConstructAnd(AndOp(ops + [last]), i + 1, st, n2.value) == Ok(n2.value);
      }
    }
  }

  /** Without `other`, an object matches only if every key is named by a field; the error names an unused key. */
  lemma {:induction false} ObjectUnusedField(op: Op, st: Vars, n: Node)
    requires op.Object? && op.other == "" && n.Obj?
    requires CheckFields(op, 0, n.fields, st).ok
    ensures Check(op, st, n).ok <==> n.fields.Keys <= Names(op.fields)
    ensures !Check(op, st, n).ok ==> (Check(op, st, n).err.Some? && Check(op, st, n).err.value.UnusedField? &&
                                       Check(op, st, n).err.value.field in n.fields.Keys - Names(op.fields))
  {
    var unused := Unused(Names(op.fields), n.fields);
    assert Check(op, st, n) == CheckRest("", Names(op.fields), n.fields, CheckFields(op, 0, n.fields, st).st);
    if unused != {} {
      var k := Strings.Least(unused);
      assert k in unused && k in n.fields.Keys && k !in Names(op.fields);
    } else {
      assert forall k :: k in n.fields.Keys ==> k in Names(op.fields) by {
        forall k | k in n.fields.Keys ensures k in Names(op.fields) {
          assert k !in unused;
        }
      }
    }
  }

  /** With `other`, the keys no field names are bound to `other` as one object. */
  lemma {:induction false} ObjectKeepsRest(op: Op, st: Vars, n: Node)
    requires op.Object? && op.other != "" && Check(op, st, n).ok
    ensures n.Obj? && op.other in Check(op, st, n).st.vars
    ensures Check(op, st, n).st.vars[op.other] == Obj(map k | k in n.fields.Keys - Names(op.fields) :: n.fields[k])
  {
    var r := CheckFields(op, 0, n.fields, st);
    SetVarBinds(r.st, op.other, Obj(map k | k in Unused(Names(op.fields), n.fields) :: n.fields[k]));
  }

  /** A list operation matches only lists of its length and builds only lists of its length. */
  lemma {:induction false} ArrLength(ops: seq<Op>, st: Vars, n: Node)
    ensures Check(ArrOp(ops), st, n).ok ==> n.Arr? && |n.elems| == |ops|
    ensures Construct(ArrOp(ops), st, n).Ok? ==> (Construct(ArrOp(ops), st, n).value.Arr? &&
                                                  |Construct(ArrOp(ops), st, n).value.elems| == |ops|)
  {
  }

  /** A Lookup built from a map whose values are values other than floats can be undone by its reverse map. */
  lemma {:induction false} LookupReversible(sub: Op, m: map<Node, Node>)
    requires Reversible(sub) && Lookup(sub, m).Ok?
    requires forall k :: k in m ==> IsValue(m[k]) && !m[k].Float?
    ensures Reversible(Lookup(sub, m).value)
  {
  }

  /** Lookup only accepts values of its map, and maps them before the operation sees them. */
  lemma {:induction false} LookupCheck(sub: Op, fwd: map<Node, Node>, rev: map<Node, Node>, st: Vars, n: Node)
    ensures !IsValue(n) ==> Check(LookupOp(sub, fwd, rev), st, n) == Outcome(false, Some(ExpectedValue), st)
    ensures IsValue(n) && n !in fwd ==> Check(LookupOp(sub, fwd, rev), st, n) == Outcome(false, Some(UnhandledValueIn), st)
    ensures IsValue(n) && n in fwd ==> Check(LookupOp(sub, fwd, rev), st, n) == Check(sub, st, fwd[n])
  {
  }

  /** Opt: Check records in the variable whether the node exists; Construct gives nil when it did not. */
  lemma {:induction false} OptCheckConstruct(vr: string, sub: Op, st: Vars, n: Node)
    ensures Check(Opt(vr, sub), st, n).ok ==>
              (vr in Check(Opt(vr, sub), st, n).st.vars && Check(Opt(vr, sub), st, n).st.vars[vr] == Bool(n != Null))
    ensures vr in st.vars && st.vars[vr] == Bool(false) ==> Construct(Opt(vr, sub), st, n) == Ok(Null)
    ensures vr in st.vars && st.vars[vr] == Bool(true) ==> Construct(Opt(vr, sub), st, n) == Construct(sub, st, n)
    ensures vr in st.vars && !st.vars[vr].Bool? ==> Construct(Opt(vr, sub), st, n) == Err(UnexpectedType)
  {
    var flag := SetVarIn(st, vr, Bool(n != Null));
    if flag.Ok? {
      SetVarBinds(st, vr, Bool(n != Null));
    }
  }

  /** NotEmpty never accepts and never builds nil, an empty list or an empty object. */
  lemma {:induction false} NotEmptyNever(sub: Op, st: Vars, n: Node)
    ensures IsEmptyNode(n) ==> !Check(NotEmpty(sub), st, n).ok
    ensures Construct(NotEmpty(sub), st, n).Ok? ==> !IsEmptyNode(Construct(NotEmpty(sub), st, n).value)
    ensures !IsEmptyNode(n) ==> Check(NotEmpty(sub), st, n) == Check(sub, st, n)
  {
  }

  /** CommentText names four different variables, so an untrimmed comment operation is reversible. */
  lemma {:induction false} CommentTextReversible(startToken: string, endToken: string, vr: string)
    ensures Reversible(CommentText(startToken, endToken, vr, false))
  {
    var t, p, s := vr + "_text", vr + "_pref", vr + "_suff";
    assert t[|vr| + 1] == 't' && p[|vr| + 1] == 'p' && s[|vr| + 1] == 's';
  }

  /**
   * If: when neither branch binds the condition variable, Construct takes the
   * branch Check took, and rebuilds the node when that branch is reversible.
   */
  lemma {:induction false} IfCheckThenConstruct(op: Op, st: Vars, n: Node, st2: Vars, toks: set<(string, string)>)
    requires op.IfOp? && Reversible(op.thenOp) && Reversible(op.elseOp) && Covers(op, toks) && Fits(n, toks)
    requires op.cond !in Check(op.thenOp, st, n).st.vars && op.cond !in Check(op.elseOp, st, n).st.vars
    requires Check(op, st, n).ok && Extends(st2, Check(op, st, n).st)
    ensures Construct(op, st2, Null) == Ok(n)
  {
    var r1 := Check(op.thenOp, st, n);
    if r1.ok && r1.err.None? {
      var mid := ApplyFromIn(st, r1.st);
      assert mid == r1.st;
      ExtendsTrans(r1.st, SetVarOrKeep(mid, op.cond, Bool(true)), st2);
      CheckThenConstruct(op.thenOp, st, n, st2, toks);
    } else {
      var r2 := Check(op.elseOp, st, n);
      var mid := ApplyFromIn(st, r2.st);
      assert mid == r2.st;
      ExtendsTrans(r2.st, SetVarOrKeep(mid, op.cond, Bool(false)), st2);
      CheckThenConstruct(op.elseOp, st, n, st2, toks);
    }
  }

  // ---------------------------------------------------------------- fields

  /** SetFieldObj then GetField: the set field is found, every other field is as before. */
  lemma {:induction false} ReplaceThenFind(fs: seq<Field>, f: Field, k: string)
    ensures FirstField(ReplaceField(fs, f), k) == if k == f.name then Some(f.op) else FirstField(fs, k)
    ensures Names(ReplaceField(fs, f)) == Names(fs) + {f.name}
    decreases |fs|
  {
    var r := ReplaceField(fs, f);
    if fs == [] {
      assert Names(r) == {f.name} by { NamesCons(r); assert r[1..] == []; }
    } else {
      NamesCons(fs);
      NamesCons(r);
      if fs[0].name == f.name {
        assert r[1..] == fs[1..];
      } else {
        assert r[0] == fs[0] && r[1..] == ReplaceField(fs[1..], f);
        ReplaceThenFind(fs[1..], f, k);
      }
    }
  }

  /** Object.SetFieldObj and Object.GetField on an Object. */
  lemma {:induction false} SetThenGetField(o: Op, f: Field, k: string)
    requires o.Object?
    ensures GetField(SetFieldObj(o, f), k) == if k == f.name then Some(f.op) else GetField(o, k)
    ensures Names(SetFieldObj(o, f).fields) == Names(o.fields) + {f.name} && SetFieldObj(o, f).other == o.other
  {
    ReplaceThenFind(o.fields, f, k);
  }
}
