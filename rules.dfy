// Selectors and rules over node paths (uast/rules.go). A path lists the
// nodes from the root down to the current node, which is the last one.
module Rules {
  import opened Wrappers
  import opened Legacy

  datatype Selector =
    | OnPath(selectors: seq<Selector>)
    | OnNoRole
    | OnInternalType(types: seq<string>)
    | OnInternalRole(iroles: seq<string>)

  /** A rule: Selector.Role, Rules, or a rule that fails with an error. */
  datatype Rule =
    | RoleRule(on: Selector, add: seq<Role>)
    | AllRules(rules: seq<Rule>)
    | Failing(err: string)

  // ---------------------------------------------------------- measures

  function SelSize(s: Selector): nat
  {
    match s
    case OnPath(ss) => 1 + SelsSize(ss)
    case _ => 1
  }

  function SelsSize(ss: seq<Selector>): nat
  {
    if ss == [] then 0 else SelsSize(ss[..|ss| - 1]) + SelSize(ss[|ss| - 1])
  }

  // ------------------------------------------------------ declarative

  /** The last |types| nodes of ns have exactly these internal types, in order. */
  predicate TypeSuffix(types: seq<string>, ns: NodePath)
  {
    0 < |types| <= |ns|
    && forall k :: 0 <= k < |types| ==> ns[|ns| - |types| + k].internalType == types[k]
  }

  /** The last |iroles| nodes of ns carry exactly these internal roles, in order. */
  predicate RoleSuffix(iroles: seq<string>, ns: NodePath)
  {
    0 < |iroles| <= |ns|
    && forall k :: 0 <= k < |iroles| ==> HasInternalRole(ns[|ns| - |iroles| + k], iroles[k])
  }

  predicate HasInternalRole(n: LNode, r: string)
  {
    InternalRoleKey in n.properties && n.properties[InternalRoleKey] == r
  }

  // ---------------------------------------------------- the selectors

  /** What a selector returns on a path. */
  function Matches(s: Selector, ns: NodePath): bool
    decreases SelSize(s), 0, 0
  {
    match s
    case OnNoRole => |ns| > 0 && |ns[|ns| - 1].roles| == 0
    case OnInternalType(types) => TypeSuffix(types, ns)
    case OnInternalRole(iroles) => RoleSuffix(iroles, ns)
    case OnPath(ss) => |ns| > 0 && |ss| > 0 && Scan(ss, ns, |ns| - 1)
  }

  /**
   * The loop of OnPath: the last selector of stack is tried on ns[i..],
   * for i from the end down to 0; on a match it is popped and ns is cut at i.
   */
  function Scan(stack: seq<Selector>, ns: NodePath, i: int): bool
    requires |stack| > 0 && i < |ns|
    decreases SelsSize(stack), 1, i + 1
  {
    if i < 0 then false
    else if Matches(stack[|stack| - 1], ns[i..]) then
      |stack| == 1 || Scan(stack[..|stack| - 1], ns[..i], i - 1)
    else Scan(stack, ns, i - 1)
  }

  /** A path that some selector matches is not empty. */
  lemma {:induction false} MatchesNonEmpty(s: Selector, ns: NodePath)
    requires Matches(s, ns)
    ensures ns != []
  {
  }

  /**
   * The cut points OnPath finds: the last selector matches a suffix ns[i..],
   * and the other selectors match, in the same way, within ns[..i].
   */
  ghost predicate Embeds(ss: seq<Selector>, ns: NodePath)
    decreases |ss|
  {
    |ss| > 0
    && exists i :: (0 <= i < |ns| && Matches(ss[|ss| - 1], ns[i..])
      && (|ss| == 1 || Embeds(ss[..|ss| - 1], ns[..i])))
  }

  lemma {:induction false} ScanSound(stack: seq<Selector>, ns: NodePath, i: int)
    requires |stack| > 0 && i < |ns| && Scan(stack, ns, i)
    ensures Embeds(stack, ns)
    decreases |stack|, i + 1
  {
    if Matches(stack[|stack| - 1], ns[i..]) {
      if |stack| > 1 {
        ScanSound(stack[..|stack| - 1], ns[..i], i - 1);
      }
    } else {
      ScanSound(stack, ns, i - 1);
    }
  }

  /** OnPath matches its selectors against the path from the end, each within what the later ones left. */
  lemma {:induction false} OnPathSound(ss: seq<Selector>, ns: NodePath)
    requires Matches(OnPath(ss), ns)
    ensures Embeds(ss, ns)
  {
    ScanSound(ss, ns, |ns| - 1);
  }

  /** OnPath(foo, bar) matches a path ending in foo, bar, but not one with another node between them. */
  lemma {:induction false} OnPathExamples(foo: LNode, other: LNode, bar: LNode)
    requires foo.internalType == "foo" && other.internalType == "other" && bar.internalType == "bar"
    ensures Matches(OnPath([OnInternalType(["foo"]), OnInternalType(["bar"])]), [foo, bar])
    ensures !Matches(OnPath([OnInternalType(["foo"]), OnInternalType(["bar"])]), [foo, other, bar])
  {
    var ss := [OnInternalType(["foo"]), OnInternalType(["bar"])];
    var p := [foo, other, bar];
    assert Matches(ss[1], p[2..]);
    assert p[..2] == [foo, other] && p[..2][1..] == [other];
    assert other.internalType != "foo" by { assert |"other"| != |"foo"|; }
    assert !TypeSuffix(["foo"], [other]) by { assert [other][0].internalType != ["foo"][0]; }
    assert !Matches(ss[0], [other]);
    assert !Matches(ss[0], [foo, other]);
    var st := ss[..1];
    assert st[0] == ss[0] && |st| == 1;
    assert p[..2][0..] == [foo, other];
    assert !Scan(st, p[..2], -1);
    assert !Scan(st, p[..2], 0);
    assert !Scan(st, p[..2], 1);
    assert !Scan(ss, p, 2);
    var q := [foo, bar];
    assert q[1..] == [bar] && q[..1] == [foo] && q[..1][0..] == [foo];
    assert Matches(ss[0], q[..1][0..]);
    assert Scan(st, q[..1], 0);
    assert Scan(ss, q, 1);
  }

  // ------------------------------------------------ selector methods

  /** The loop of OnInternalType: compares types and nodes from the end. */
  method InternalTypeMatch(types: seq<string>, ns: NodePath) returns (r: bool)
    ensures r == TypeSuffix(types, ns)
  {
    if |types| == 0 || |types| > |ns| {
      return false;
    }
    var i := |types| - 1;
    var j := |ns| - 1;
    while i >= 0 && j >= 0
      invariant -1 <= i < |types| && j == i + |ns| - |types|
      invariant forall k :: i < k < |types| ==> ns[|ns| - |types| + k].internalType == types[k]
    {
      if ns[j].internalType != types[i] {
        return false;
      }
      i := i - 1;
      j := j - 1;
    }
    return true;
  }

  /** The loop of OnInternalRole: compares internal roles and nodes from the end. */
  method InternalRoleMatch(iroles: seq<string>, ns: NodePath) returns (r: bool)
    ensures r == RoleSuffix(iroles, ns)
  {
    if |iroles| == 0 || |iroles| > |ns| {
      return false;
    }
    var i := |iroles| - 1;
    var j := |ns| - 1;
    while i >= 0 && j >= 0
      invariant -1 <= i < |iroles| && j == i + |ns| - |iroles|
      invariant forall k :: i < k < |iroles| ==> HasInternalRole(ns[|ns| - |iroles| + k], iroles[k])
    {
      var props := ns[j].properties;
      if InternalRoleKey !in props || props[InternalRoleKey] != iroles[i] {
        assert !HasInternalRole(ns[|ns| - |iroles| + i], iroles[i]);
        return false;
      }
      i := i - 1;
      j := j - 1;
    }
    return true;
  }

  lemma {:induction false} SelsSizeSnoc(ss: seq<Selector>)
    requires ss != []
    ensures SelsSize(ss) == SelsSize(ss[..|ss| - 1]) + SelSize(ss[|ss| - 1])
  {
  }

  /** Runs a selector on a path. */
  method Select(s: Selector, ns: NodePath) returns (r: bool)
    ensures r == Matches(s, ns)
    decreases SelSize(s), 0
  {
    match s {
      case OnNoRole => r := |ns| > 0 && |ns[|ns| - 1].roles| == 0;
      case OnInternalType(types) => r := InternalTypeMatch(types, ns);
      case OnInternalRole(iroles) => r := InternalRoleMatch(iroles, ns);
      case OnPath(ss) => r := OnPathMatch(ss, ns);
    }
  }

  /** The loop of OnPath. */
  method OnPathMatch(selectors: seq<Selector>, ns0: NodePath) returns (r: bool)
    ensures r == Matches(OnPath(selectors), ns0)
    decreases SelsSize(selectors), 1
  {
    var stack := selectors;
    var ns := ns0;
    if |ns| == 0 || |stack| == 0 {
      return false;
    }
    var i := |ns| - 1;
    while i >= 0
      invariant 0 < |stack| && i < |ns| && SelsSize(stack) <= SelsSize(selectors)
      invariant Scan(stack, ns, i) == Scan(selectors, ns0, |ns0| - 1)
    {
      var path := ns[i..];
      var selector := stack[|stack| - 1];
      SelsSizeSnoc(stack);
      var m := Select(selector, path);
      if !m {
        i := i - 1;
        continue;
      }
      if |stack| == 1 {
        return true;
      }
      stack := stack[..|stack| - 1];
      ns := ns[..i];
      i := i - 1;
    }
    return false;
  }

  // ------------------------------------------------------------ rules

  function RuleSize(r: Rule): (n: nat)
    ensures n >= 1
  {
    match r
    case AllRules(rs) => 1 + RulesSize(rs)
    case _ => 1
  }

  function RulesSize(rs: seq<Rule>): nat
  {
    if rs == [] then 0 else RulesSize(rs[..|rs| - 1]) + RuleSize(rs[|rs| - 1])
  }

  /** A rule run on a path: the new path (only the current node may change), or the error it returned. */
  function Run(r: Rule, ns: NodePath): Result<NodePath, string>
    decreases RuleSize(r), 0
  {
    match r
    case RoleRule(on, add) =>
      if Matches(on, ns) then
        MatchesNonEmpty(on, ns);
        Ok(SetLast(ns, WithRoles(ns[|ns| - 1], add)))
      else Ok(ns)
    case AllRules(rs) => RunAll(rs, ns)
    case Failing(e) => Err(e)
  }

  /** Rules: each rule in turn, on the path the previous ones left; the first error stops it. */
  function RunAll(rs: seq<Rule>, ns: NodePath): Result<NodePath, string>
    decreases RulesSize(rs), 1
  {
    if rs == [] then Ok(ns)
    else
      match RunAll(rs[..|rs| - 1], ns)
      case Err(e) => Err(e)
      case Ok(p) => Run(rs[|rs| - 1], p)
  }

  /** Two paths that differ at most in the roles of the current node, which only grow. */
  predicate SameButRoles(a: NodePath, b: NodePath)
  {
    |a| == |b|
    && (|a| > 0 ==>
      a[..|a| - 1] == b[..|b| - 1]
      && b[|b| - 1].(roles := a[|a| - 1].roles) == a[|a| - 1]
      && |a[|a| - 1].roles| <= |b[|b| - 1].roles|
      && b[|b| - 1].roles[..|a[|a| - 1].roles|] == a[|a| - 1].roles)
  }

  lemma {:induction false} SameButRolesTrans(a: NodePath, b: NodePath, c: NodePath)
    requires SameButRoles(a, b) && SameButRoles(b, c)
    ensures SameButRoles(a, c)
  {
    if |a| > 0 {
      var ra, rb, rc := a[|a| - 1].roles, b[|b| - 1].roles, c[|c| - 1].roles;
      assert rc[..|ra|] == rc[..|rb|][..|ra|];
    }
  }

  /** A role rule appends its roles to the current node when its selector matches, and changes nothing else. */
  lemma {:induction false} RoleRuleEffect(on: Selector, add: seq<Role>, ns: NodePath)
    ensures Run(RoleRule(on, add), ns).Ok?
    ensures var p := Run(RoleRule(on, add), ns).value;
      if Matches(on, ns) then
        |p| == |ns| > 0 && p[..|p| - 1] == ns[..|ns| - 1] && p[|p| - 1] == WithRoles(ns[|ns| - 1], add)
      else p == ns
  {
    if Matches(on, ns) { MatchesNonEmpty(on, ns); }
  }

  /** No rule touches anything but the roles of the current node, and those only grow. */
  lemma {:induction false} RunKeepsPath(r: Rule, ns: NodePath)
    requires Run(r, ns).Ok?
    ensures SameButRoles(ns, Run(r, ns).value)
    decreases RuleSize(r), 0
  {
    match r
    case RoleRule(on, add) =>
      if Matches(on, ns) {
        MatchesNonEmpty(on, ns);
        var p := Run(r, ns).value;
        assert p[|p| - 1].roles[..|ns[|ns| - 1].roles|] == ns[|ns| - 1].roles;
      }
    case AllRules(rs) => RunAllKeepsPath(rs, ns);
    case Failing(_) =>
  }

  lemma {:induction false} RunAllKeepsPath(rs: seq<Rule>, ns: NodePath)
    requires RunAll(rs, ns).Ok?
    ensures SameButRoles(ns, RunAll(rs, ns).value)
    decreases RulesSize(rs), 1
  {
    if rs != [] {
      var p := RunAll(rs[..|rs| - 1], ns).value;
      RunAllKeepsPath(rs[..|rs| - 1], ns);
      RunKeepsPath(rs[|rs| - 1], p);
      SameButRolesTrans(ns, p, RunAll(rs, ns).value);
    }
  }

  /** Rules returns the error of the first failing rule; the rules before it all succeeded. */
  lemma {:induction false} RunAllFirstError(rs: seq<Rule>, ns: NodePath)
    requires RunAll(rs, ns).Err?
    ensures exists k :: (0 <= k < |rs| && RunAll(rs[..k], ns).Ok?
      && Run(rs[k], RunAll(rs[..k], ns).value) == RunAll(rs, ns))
    decreases |rs|
  {
    var init := rs[..|rs| - 1];
    if RunAll(init, ns).Err? {
      RunAllFirstError(init, ns);
      var k :| 0 <= k < |init| && RunAll(init[..k], ns).Ok?
        && Run(init[k], RunAll(init[..k], ns).value) == RunAll(init, ns);
      assert init[..k] == rs[..k] && init[k] == rs[k];
    } else {
      assert rs[..|rs| - 1] == init;
    }
  }

  /** Runs a rule on a path. */
  method Apply(r: Rule, ns: NodePath) returns (res: Result<NodePath, string>)
    ensures res == Run(r, ns)
    decreases RuleSize(r), 0
  {
    match r {
      case RoleRule(on, add) =>
        var m := Select(on, ns);
        if m {
          MatchesNonEmpty(on, ns);
          var n := ns[|ns| - 1];
          res := Ok(ns[..|ns| - 1] + [n.(roles := n.roles + add)]);
        } else {
          res := Ok(ns);
        }
      case AllRules(rs) => res := ApplyAll(rs, ns);
      case Failing(e) => res := Err(e);
    }
  }

  /** The loop of Rules. */
  method ApplyAll(rs: seq<Rule>, ns: NodePath) returns (res: Result<NodePath, string>)
    ensures res == RunAll(rs, ns)
    decreases RulesSize(rs), 1
  {
    var p := ns;
    var j := 0;
    while j < |rs|
      invariant 0 <= j <= |rs| && RunAll(rs[..j], ns) == Ok(p)
    {
      assert rs[..j + 1][..j] == rs[..j];
      RulesSizePrefix(rs, j + 1);
      var r := Apply(rs[j], p);
      if r.Err? {
        RunAllErrStays(rs, j + 1, ns);
        return r;
      }
      p := r.value;
      j := j + 1;
    }
    assert rs[..j] == rs;
    return Ok(p);
  }

  lemma {:induction false} RulesSizePrefix(rs: seq<Rule>, k: int)
    requires 0 < k <= |rs|
    ensures RuleSize(rs[k - 1]) <= RulesSize(rs)
    decreases |rs|
  {
    if k < |rs| {
      RulesSizePrefix(rs[..|rs| - 1], k);
      assert rs[..|rs| - 1][k - 1] == rs[k - 1];
    }
  }

  /** Once a prefix of the rules fails, the whole list fails with the same error. */
  lemma {:induction false} RunAllErrStays(rs: seq<Rule>, k: int, ns: NodePath)
    requires 0 <= k <= |rs| && RunAll(rs[..k], ns).Err?
    ensures RunAll(rs, ns) == RunAll(rs[..k], ns)
    decreases |rs| - k
  {
    if k < |rs| {
      assert rs[..k + 1][..k] == rs[..k];
      RunAllErrStays(rs, k + 1, ns);
    } else {
      assert rs[..k] == rs;
    }
  }
}
