// The variable state the transformer operations share (uast/transformer/transformer.go):
// named variables bound to nodes, named state variables bound to the
// states of list elements, and a stack of objects being built.
module TransformerState {
  import opened Wrappers
  import opened Nodes
  import Strings

  // ------------------------------------------------------------------ errors

  /** The error kinds of the transformer package, with the wrappers that name where an error arose. */
  datatype Err =
    | VariableRedeclared(name: string)
    | VariableNotDefined(name: string)
    | ExpectedObject
    | ExpectedList
    | ExpectedValue
    | UnhandledValueIn
    | UnexpectedNode
    | UnexpectedValue
    | UnexpectedType
    | AmbiguousValue
    | FewSteps
    | UnusedField(field: string)
    | DuplicateField(field: string)
    | InOp(index: nat, inner: Err)
    | InKey(key: string, inner: Err)
    | InElem(index: nat, inner: Err)
    | InAppend(inner: Err)
    | NoActiveObjects
    | StackBroken(expected: string, got: string)

  // ------------------------------------------------------------ value equality

  /** An IEEE 754 NaN: all exponent bits set and a non-zero fraction. */
  predicate IsNaN(b: FloatBits)
  {
    (b >> 52) & 0x7FF == 0x7FF && b & 0xF_FFFF_FFFF_FFFF != 0
  }

  /** Positive or negative zero. */
  predicate IsZero(b: FloatBits)
  {
    b & 0x7FFF_FFFF_FFFF_FFFF == 0
  }

  /** Go's == on float64 (IEEE 754 equality): NaN equals nothing, and the two zeros are equal. */
  predicate FloatEq(a: FloatBits, b: FloatBits)
  {
    !IsNaN(a) && !IsNaN(b) && (a == b || (IsZero(a) && IsZero(b)))
  }

  /** Go's == on two uast.Value interfaces: the same kind and an equal value. */
  predicate ValueEq(a: Node, b: Node)
  {
    IsValue(a) && IsValue(b) && (if a.Float? && b.Float? then FloatEq(a.bits, b.bits) else a == b)
  }

  /** Without floating-point values, Go's == on values is equality. */
  lemma {:induction false} ValueEqIsEquality(a: Node, b: Node)
    requires !a.Float?
    ensures ValueEq(a, b) <==> IsValue(a) && a == b
  {
  }

  /** Positive and negative zero are equal values although their bits differ, and a NaN is not equal to itself. */
  lemma {:induction false} FloatEqExamples(pz: FloatBits, nz: FloatBits, nan: FloatBits)
    requires pz == 0 && nz == 0x8000_0000_0000_0000 && nan == 0x7FF8_0000_0000_0000
    ensures ValueEq(Float(pz), Float(nz)) && pz != nz
    ensures !ValueEq(Float(nan), Float(nan))
  {
    assert IsZero(nz) by {
      assert nz & 0x7FFF_FFFF_FFFF_FFFF == 0;
    }
    assert IsNaN(nan) by {
      assert (nan >> 52) & 0x7FF == 0x7FF;
    }
  }

  // -------------------------------------------------------------- contents

  /**
   * The contents of a State as a value: the variables and the state
   * variables. A state variable is a list of element states, or None for
   * Go's nil slice.
   */
  datatype Vars = Vars(vars: map<string, Node>, states: map<string, Option<seq<Vars>>>)

  /** NewState: no variables. */
  const Empty := Vars(map[], map[])

  /** b holds every binding of a, unchanged. */
  predicate Extends(b: Vars, a: Vars)
  {
    (forall k :: k in a.vars ==> k in b.vars && b.vars[k] == a.vars[k]) &&
    (forall k :: k in a.states ==> k in b.states && b.states[k] == a.states[k])
  }

  lemma {:induction false} ExtendsRefl(a: Vars)
    ensures Extends(a, a)
  {
  }

  lemma {:induction false} ExtendsTrans(a: Vars, b: Vars, c: Vars)
    requires Extends(b, a) && Extends(c, b)
    ensures Extends(c, a)
  {
  }

  /**
   * SetVar on the contents: a new name is bound; an existing binding stays
   * and is accepted only when old and new are equal values.
   */
  function SetVarIn(st: Vars, name: string, val: Node): (r: Result<Vars, Err>)
    ensures r.Ok? <==> name !in st.vars || ValueEq(st.vars[name], val)
    ensures r.Ok? ==> Extends(r.value, st) && name in r.value.vars && r.value.states == st.states
    ensures r.Ok? ==> r.value.vars.Keys == st.vars.Keys + {name}
    ensures r.Ok? && name !in st.vars ==> r.value.vars[name] == val
    ensures r.Ok? && name in st.vars ==> r.value == st
    ensures r.Err? ==> r.error == VariableRedeclared(name)
  {
    if name !in st.vars then Ok(st.(vars := st.vars[name := val]))
    else if ValueEq(st.vars[name], val) then Ok(st)
    else Err(VariableRedeclared(name))
  }

  /** SetStateVar on the contents: any redeclaration is rejected. */
  function SetStateVarIn(st: Vars, name: string, sub: Option<seq<Vars>>): (r: Result<Vars, Err>)
    ensures r.Ok? <==> name !in st.states
    ensures r.Ok? ==> Extends(r.value, st) && r.value.vars == st.vars
    ensures r.Ok? ==> r.value.states.Keys == st.states.Keys + {name} && r.value.states[name] == sub
    ensures r.Err? ==> r.error == VariableRedeclared(name)
  {
    if name in st.states then Err(VariableRedeclared(name))
    else Ok(st.(states := st.states[name := sub]))
  }

  /** SetVar with its error ignored, as If does for its condition variable. */
  function SetVarOrKeep(st: Vars, name: string, val: Node): (r: Vars)
    ensures Extends(r, st)
    ensures name !in st.vars ==> name in r.vars && r.vars[name] == val
  {
    match SetVarIn(st, name, val)
    case Ok(st1) => st1
    case Err(_) => st
  }

  /**
   * SetVars: SetVar of every entry, in increasing order of the names (Go
   * visits the map in its own order), stopping at the first error; the
   * entries bound before the error stay bound.
   */
  function SetVarsIn(st: Vars, m: map<string, Node>): (r: (Vars, Option<Err>))
    ensures Extends(r.0, st)
    ensures r.1.None? ==> forall k :: k in m ==> k in r.0.vars && ValueEqOrSame(r.0.vars[k], m[k])
    decreases |m|
  {
    if m == map[] then (st, None)
    else
      var k := Strings.Least(m.Keys);
      match SetVarIn(st, k, m[k])
      case Err(e) => (st, Some(e))
      case Ok(st1) =>
        var r := SetVarsIn(st1, m - {k});
        assert k in r.0.vars && r.0.vars[k] == st1.vars[k];
        r
  }

  /** The binding SetVar leaves for a name: the new value, or an equal value already bound. */
  predicate ValueEqOrSame(bound: Node, val: Node)
  {
    bound == val || ValueEq(bound, val)
  }

  /** MustGetVar: the bound node, or an error for an undefined name. */
  function MustGetVarIn(st: Vars, name: string): (r: Result<Node, Err>)
    ensures r.Ok? <==> name in st.vars
    ensures r.Ok? ==> r.value == st.vars[name]
    ensures r.Err? ==> r.error == VariableNotDefined(name)
  {
    if name in st.vars then Ok(st.vars[name]) else Err(VariableNotDefined(name))
  }

  /** A lookup succeeds the same way in every extension. */
  lemma {:induction false} MustGetVarExtends(a: Vars, b: Vars, name: string)
    requires Extends(b, a) && MustGetVarIn(a, name).Ok?
    ensures MustGetVarIn(b, name) == MustGetVarIn(a, name)
  {
  }

  /** The entries of b whose keys a lacks, added to a; no entry of a is overwritten. */
  function Merge<V>(a: map<string, V>, b: map<string, V>): (r: map<string, V>)
    ensures r.Keys == a.Keys + b.Keys
    ensures forall k :: k in a ==> r[k] == a[k]
    ensures forall k :: k in b && k !in a ==> r[k] == b[k]
  {
    map k | k in a.Keys + b.Keys :: if k in a then a[k] else b[k]
  }

  /** ApplyFrom on the contents: the variables and state variables st lacks are taken from st2. */
  function ApplyFromIn(st: Vars, st2: Vars): (r: Vars)
    ensures Extends(r, st)
    ensures Extends(st2, st) ==> r == st2
  {
    var r := Vars(Merge(st.vars, st2.vars), Merge(st.states, st2.states));
    assert Extends(st2, st) ==> r.vars == st2.vars && r.states == st2.states;
    r
  }

  /** Merging in a state that extends the current one gives that state; merging in itself changes nothing. */
  lemma {:induction false} ApplyFromSelf(st: Vars)
    ensures ApplyFromIn(st, st) == st
  {
  }

  // ------------------------------------------------------------- map copies

  /** The loop `for k, v := range m { out[k] = v }`, from an empty map. */
  method CopyMap<V>(m: map<string, V>) returns (out: map<string, V>)
    ensures out == m
  {
    out := map[];
    var rest := m.Keys;
    while rest != {}
      invariant rest <= m.Keys
      invariant out.Keys == m.Keys - rest
      invariant forall k :: k in out ==> out[k] == m[k]
      decreases |rest|
    {
      var k :| k in rest;
      out := out[k := m[k]];
      rest := rest - {k};
    }
  }

  /** The loop `for k, v := range b { if _, ok := a[k]; !ok { a[k] = v } }`. */
  method MergeLoop<V>(a: map<string, V>, b: map<string, V>) returns (out: map<string, V>)
    ensures out == Merge(a, b)
  {
    out := a;
    var rest := b.Keys;
    while rest != {}
      invariant rest <= b.Keys
      invariant out.Keys == a.Keys + (b.Keys - rest)
      invariant forall k :: k in out ==> out[k] == Merge(a, b)[k]
      decreases |rest|
    {
      var k :| k in rest;
      if k !in out {
        out := out[k := b[k]];
      }
      rest := rest - {k};
    }
  }

  // ------------------------------------------------------------------ State

  /** procObject: an object under construction, with the variable name it is bound to. */
  class ProcObject {
    const name: string
    var fields: map<string, Node>

    constructor(name: string)
      ensures this.name == name && fields == map[]
    {
      this.name := name;
      fields := map[];
    }
  }

  /** State: the variables, the state variables and the stack of objects being built. */
  class State {
    var vars: map<string, Node>
    var states: map<string, Option<seq<Vars>>>
    var objs: seq<ProcObject>

    /** NewState. */
    constructor()
      ensures Contents() == Empty && objs == []
      ensures Bound()
    {
      vars, states, objs := map[], map[], [];
    }

    /**
     * Every named object on the stack is bound to its variable: the variable
     * holds the object's own fields (the same map, which UseKey adds to), and
     * no two named objects share a name.
     */
    predicate Bound()
      reads this, objs
    {
      (forall i :: 0 <= i < |objs| && objs[i].name != "" ==>
         objs[i].name in vars && vars[objs[i].name] == Obj(objs[i].fields)) &&
      (forall i, j :: 0 <= i < j < |objs| && objs[i].name != "" ==> objs[i].name != objs[j].name)
    }

    /** The variables and state variables as a value. */
    function Contents(): Vars
      reads this
    {
      Vars(vars, states)
    }

    /** GetVar: the bound node and whether the name is bound. */
    method GetVar(name: string) returns (n: Node, ok: bool)
      ensures ok == (name in vars)
      ensures n == if ok then vars[name] else Null
    {
      ok := name in vars;
      n := if ok then vars[name] else Null;
    }

    /** SetVar: binds a new name; redeclaring is an error unless old and new are equal values. */
    method SetVar(name: string, val: Node) returns (err: Option<Err>)
      modifies this
      ensures objs == old(objs)
      ensures err.None? <==> SetVarIn(old(Contents()), name, val).Ok?
      ensures err.None? ==> Contents() == SetVarIn(old(Contents()), name, val).value
      ensures err.Some? ==> err == Some(SetVarIn(old(Contents()), name, val).error) && Contents() == old(Contents())
    {
      if name !in vars {
        vars := vars[name := val];
        return None;
      }
      var cur := vars[name];
      if ValueEq(cur, val) {
        return None;
      }
      return Some(VariableRedeclared(name));
    }

    /** GetStateVar: the bound list of element states and whether the name is bound. */
    method GetStateVar(name: string) returns (sub: Option<seq<Vars>>, ok: bool)
      ensures ok == (name in states)
      ensures sub == if ok then states[name] else None
    {
      ok := name in states;
      sub := if ok then states[name] else None;
    }

    /** SetStateVar: binds a new name; any redeclaration is an error. */
    method SetStateVar(name: string, sub: Option<seq<Vars>>) returns (err: Option<Err>)
      modifies this
      ensures objs == old(objs)
      ensures err.None? <==> SetStateVarIn(old(Contents()), name, sub).Ok?
      ensures err.None? ==> Contents() == SetStateVarIn(old(Contents()), name, sub).value
      ensures err.Some? ==> err == Some(VariableRedeclared(name)) && Contents() == old(Contents())
    {
      if name in states {
        return Some(VariableRedeclared(name));
      }
      states := states[name := sub];
      return None;
    }

    /** SetVars: SetVar of every entry of the map, stopping at the first error. */
    method SetVars(m: map<string, Node>) returns (err: Option<Err>)
      modifies this
      ensures (Contents(), err) == SetVarsIn(old(Contents()), m)
      ensures objs == old(objs)
    {
      var r := SetVarsIn(Contents(), m);
      vars, states := r.0.vars, r.0.states;
      err := r.1;
    }

    /** Clone: a new state with copies of both maps and the same object stack. */
    method Clone() returns (st2: State)
      ensures fresh(st2)
      ensures st2.Contents() == Contents() && st2.objs == objs
    {
      st2 := new State();
      var v := CopyMap(vars);
      var s := CopyMap(states);
      st2.vars, st2.states := v, s;
      st2.objs := [] + objs;
    }

    /**
     * ApplyFrom: the variables and state variables of st2 that this state
     * lacks are added, and the objects st2 has beyond this state's stack are
     * pushed.
     */
    method ApplyFrom(st2: State)
      modifies this
      ensures Contents() == ApplyFromIn(old(Contents()), old(st2.Contents()))
      ensures objs == if |old(st2.objs)| > |old(objs)| then old(objs) + old(st2.objs)[|old(objs)|..] else old(objs)
    {
      var v2, s2, o2 := st2.vars, st2.states, st2.objs;
      var v := MergeLoop(vars, v2);
      var s := MergeLoop(states, s2);
      vars, states := v, s;
      if |o2| > |objs| {
        objs := objs + o2[|objs|..];
      }
    }

    /**
     * StartObject: a named object is bound to its variable first; the object
     * is pushed. The variable holds the object's fields, empty for now.
     */
    method StartObject(name: string) returns (obj: ProcObject?, err: Option<Err>)
      modifies this
      ensures err.Some? ==> obj == null && Contents() == old(Contents()) && objs == old(objs)
      ensures err.Some? <==> name != "" && SetVarIn(old(Contents()), name, Obj(map[])).Err?
      ensures err.None? ==> obj != null && fresh(obj) && obj.name == name && obj.fields == map[]
      ensures err.None? ==> objs == old(objs) + [obj]
      ensures err.None? ==> Contents() == if name == "" then old(Contents()) else SetVarIn(old(Contents()), name, Obj(map[])).value
      ensures old(Bound()) ==> Bound()
    {
      var o := new ProcObject(name);
      if name != "" {
        err := SetVar(name, Obj(o.fields));
        if err.Some? {
          return null, err;
        }
      }
      objs := objs + [o];
      return o, None;
    }

    /**
     * The function StartObject returns: the top object is popped, and it is
     * an error (a panic) when the stack is empty or the top is not the
     * object that was started.
     */
    method FinishObject(name: string) returns (err: Option<Err>)
      modifies this
      ensures Contents() == old(Contents())
      ensures old(objs) == [] ==> objs == [] && err == Some(NoActiveObjects)
      ensures old(objs) != [] ==> objs == old(objs)[..|old(objs)| - 1]
      ensures old(objs) != [] ==> (err.None? <==> old(objs)[|old(objs)| - 1].name == name)
      ensures old(objs) != [] && err.Some? ==> err == Some(StackBroken(name, old(objs)[|old(objs)| - 1].name))
      ensures old(Bound()) ==> Bound()
    {
      if |objs| == 0 {
        return Some(NoActiveObjects);
      }
      var i := |objs| - 1;
      var cur := objs[i];
      objs := objs[..i];
      if cur.name != name {
        return Some(StackBroken(name, cur.name));
      }
      return None;
    }

    /**
     * UseKey: the key is set on the top object; with no object open nothing
     * happens. The variable of a named object holds the object's own fields,
     * so it holds the new key as well.
     */
    method UseKey(key: string, val: Node)
      modifies this, if objs == [] then {} else {objs[|objs| - 1]}
      ensures objs == old(objs) && states == old(states)
      ensures objs == [] ==> vars == old(vars)
      ensures objs != [] ==> objs[|objs| - 1].fields == old(objs[|objs| - 1].fields)[key := val]
      ensures objs != [] && objs[|objs| - 1].name != "" ==>
                vars == old(vars)[objs[|objs| - 1].name := Obj(objs[|objs| - 1].fields)]
      ensures objs != [] && objs[|objs| - 1].name == "" ==> vars == old(vars)
      ensures old(Bound()) ==> Bound()
    {
      if |objs| == 0 {
        return;
      }
      var cur := objs[|objs| - 1];
      cur.fields := cur.fields[key := val];
      if cur.name != "" {
        vars := vars[cur.name := Obj(cur.fields)];
      }
    }
  }

  /**
   * A named object that gets a key: its variable then holds the object with
   * that key, and finishing the object leaves the variable so.
   */
  method StartUseFinish(st: State, name: string, key: string, val: Node) returns (err: Option<Err>)
    requires name != ""
    modifies st
    ensures err.None? <==> SetVarIn(old(st.Contents()), name, Obj(map[])).Ok?
    ensures err.None? ==> st.objs == old(st.objs) && name in st.vars && st.vars[name] == Obj(map[key := val])
  {
    var obj;
    obj, err := st.StartObject(name);
    if err.Some? {
      return;
    }
    st.UseKey(key, val);
    err := st.FinishObject(name);
    assert err.None?;
  }

  /** A started object that is finished by name leaves the stack and the variables as they were after starting. */
  method StartThenFinish(st: State, name: string) returns (err: Option<Err>)
    modifies st
    ensures err.None? ==> st.objs == old(st.objs)
    ensures err.None? <==> name == "" || SetVarIn(old(st.Contents()), name, Obj(map[])).Ok?
  {
    var obj;
    obj, err := st.StartObject(name);
    if err.Some? {
      return;
    }
    err := st.FinishObject(name);
    assert err.None?;
  }
}
