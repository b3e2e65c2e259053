// The NPath complexity metric of uast/npath.go over version-1 nodes: the
// number of acyclic execution paths through each function body, computed
// from the roles of the nodes.
module NPath {
  import opened Wrappers
  import opened Legacy
  import Nodes

  // The role names the metric looks at.
  const FunctionDeclarationBody: Role := "FunctionDeclarationBody"
  const If: Role := "If"
  const IfBody: Role := "IfBody"
  const IfCondition: Role := "IfCondition"
  const IfElse: Role := "IfElse"
  const While: Role := "While"
  const WhileBody: Role := "WhileBody"
  const WhileCondition: Role := "WhileCondition"
  const DoWhile: Role := "DoWhile"
  const DoWhileBody: Role := "DoWhileBody"
  const DoWhileCondition: Role := "DoWhileCondition"
  const For: Role := "For"
  const ForBody: Role := "ForBody"
  const ForExpression: Role := "ForExpression"
  const Switch: Role := "Switch"
  const SwitchCase: Role := "SwitchCase"
  const SwitchDefault: Role := "SwitchDefault"
  const Return: Role := "Return"
  const OpBooleanAnd: Role := "OpBooleanAnd"
  const OpBooleanOr: Role := "OpBooleanOr"

  lemma {:induction false} CountPos(n: LNode)
    ensures Count(n) >= 1
  {
  }

  /** A node that is one of cs is no bigger than all of cs together. */
  lemma {:induction false} CountSeqIn(cs: seq<LNode>, x: LNode)
    requires x in cs
    ensures Count(x) <= CountSeq(cs)
    decreases |cs|
  {
    if cs[|cs| - 1] != x {
      assert x in cs[..|cs| - 1];
      CountSeqIn(cs[..|cs| - 1], x);
    }
  }

  /** The number of times w occurs in roles. */
  function Occurrences(roles: seq<Role>, w: Role): (k: nat)
    ensures k == 0 <==> w !in roles
    ensures k <= |roles|
  {
    if roles == [] then 0
    else Occurrences(roles[..|roles| - 1], w) + (if roles[|roles| - 1] == w then 1 else 0)
  }

  // ------------------------------------------------------------ children

  /** containsRol */
  method ContainsRole(n: LNode, w: Role) returns (r: bool)
    ensures r <==> w in n.roles
  {
    for i := 0 to |n.roles|
      invariant w !in n.roles[..i]
    {
      if n.roles[i] == w {
        return true;
      }
      assert n.roles[..i + 1] == n.roles[..i] + [n.roles[i]];
    }
    assert n.roles[..|n.roles|] == n.roles;
    return false;
  }

  /** x repeated k times. */
  function Repeat(x: LNode, k: nat): (r: seq<LNode>)
    ensures |r| == k && forall y :: y in r ==> y == x
  {
    if k == 0 then [] else Repeat(x, k - 1) + [x]
  }

  /**
   * childrenOfRole: the children among cs holding role w, in order; a child
   * appears once per occurrence of w among its roles.
   */
  function ChildrenOfRole(cs: seq<LNode>, w: Role): (r: seq<LNode>)
    ensures forall x :: x in r ==> x in cs && w in x.roles
  {
    if cs == [] then []
    else
      var c := cs[|cs| - 1];
      assert forall x :: x in cs[..|cs| - 1] ==> x in cs;
      ChildrenOfRole(cs[..|cs| - 1], w) + Repeat(c, Occurrences(c.roles, w))
  }

  /** The loops of childrenOfRole. */
  method ChildrenOfRoleM(n: LNode, w: Role) returns (children: seq<LNode>)
    ensures children == ChildrenOfRole(n.children, w)
  {
    children := [];
    for i := 0 to |n.children|
      invariant children == ChildrenOfRole(n.children[..i], w)
    {
      var copies := RoleCopies(n.children[i], w);
      children := children + copies;
      assert n.children[..i + 1][..i] == n.children[..i];
    }
    assert n.children[..|n.children|] == n.children;
  }

  /** The inner loop of childrenOfRole: the child once per role equal to w. */
  method RoleCopies(child: LNode, w: Role) returns (copies: seq<LNode>)
    ensures copies == Repeat(child, Occurrences(child.roles, w))
  {
    copies := [];
    for j := 0 to |child.roles|
      invariant copies == Repeat(child, Occurrences(child.roles[..j], w))
    {
      assert child.roles[..j + 1][..j] == child.roles[..j];
      var k := Occurrences(child.roles[..j], w);
      assert Occurrences(child.roles[..j + 1], w) == k + (if child.roles[j] == w then 1 else 0);
      if child.roles[j] == w {
        assert Repeat(child, k + 1) == Repeat(child, k) + [child];
        copies := copies + [child];
      }
    }
    assert child.roles[..|child.roles|] == child.roles;
  }

  // --------------------------------------------------------- descendants

  /** All the nodes below n, in pre-order, n itself excluded: a reference for the deep searches. */
  function Descendants(n: LNode): seq<LNode>
    decreases Count(n), 0
  {
    DescendantsOf(n.children)
  }

  function DescendantsOf(cs: seq<LNode>): seq<LNode>
    decreases CountSeq(cs), 1
  {
    if cs == [] then []
    else
      var c := cs[|cs| - 1];
      CountPos(c);
      DescendantsOf(cs[..|cs| - 1]) + [c] + Descendants(c)
  }

  /** The nodes of s that hold role w. */
  function WithRole(s: seq<LNode>, w: Role): (r: seq<LNode>)
    ensures forall x :: x in r ==> x in s && w in x.roles
  {
    if s == [] then [] else WithRole(s[..|s| - 1], w) + (if w in s[|s| - 1].roles then [s[|s| - 1]] else [])
  }

  lemma {:induction false} WithRoleAppend(a: seq<LNode>, b: seq<LNode>, w: Role)
    ensures WithRole(a + b, w) == WithRole(a, w) + WithRole(b, w)
    decreases |b|
  {
    if b == [] {
      assert a + b == a;
    } else {
      var b' := b[..|b| - 1];
      assert (a + b)[..|a + b| - 1] == a + b';
      WithRoleAppend(a, b', w);
      Nodes.Assoc(WithRole(a, w), WithRole(b', w), if w in b[|b| - 1].roles then [b[|b| - 1]] else []);
    }
  }

  // ---------------------------------------------- deep searches as written

  /**
   * deepCountChildrenOfRol as written: for every child and every one of its
   * roles, one for a role equal to w, plus the whole count below the child
   * again. A child without roles hides its subtree; a child with k roles
   * counts its subtree k times.
   */
  function DeepCountAsWritten(n: LNode, w: Role): nat
    decreases Count(n), 2, 0
  {
    CountKidsAsWritten(n.children, w)
  }

  function CountKidsAsWritten(cs: seq<LNode>, w: Role): nat
    decreases CountSeq(cs), 4, 0
  {
    if cs == [] then 0
    else
      var c := cs[|cs| - 1];
      CountPos(c);
      CountKidsAsWritten(cs[..|cs| - 1], w) + CountRolesAsWritten(c, c.roles, w)
  }

  function CountRolesAsWritten(c: LNode, rs: seq<Role>, w: Role): nat
    decreases Count(c), 3, |rs|
  {
    if rs == [] then 0
    else CountRolesAsWritten(c, rs[..|rs| - 1], w) + (if rs[|rs| - 1] == w then 1 else 0) + DeepCountAsWritten(c, w)
  }

  /** deepChildrenOfRole as written, with the same recursion inside the roles loop. */
  function DeepChildrenAsWritten(n: LNode, w: Role): seq<LNode>
    decreases Count(n), 2, 0
  {
    KidsAsWritten(n.children, w)
  }

  function KidsAsWritten(cs: seq<LNode>, w: Role): seq<LNode>
    decreases CountSeq(cs), 4, 0
  {
    if cs == [] then []
    else
      var c := cs[|cs| - 1];
      CountPos(c);
      KidsAsWritten(cs[..|cs| - 1], w) + RolesAsWritten(c, c.roles, w)
  }

  function RolesAsWritten(c: LNode, rs: seq<Role>, w: Role): seq<LNode>
    decreases Count(c), 3, |rs|
  {
    if rs == [] then []
    else RolesAsWritten(c, rs[..|rs| - 1], w) + (if rs[|rs| - 1] == w then [c] else []) + DeepChildrenAsWritten(c, w)
  }

  /** A node whose only child has no roles but has a child with role w. */
  function HiddenTree(w: Role): LNode
  {
    LNode("module", map[], [LNode("x", map[], [LNode("s", map[], [], "", None, None, [w])], "", None, None, [])], "", None, None, [])
  }

  lemma {:induction false} HiddenTreeAsWritten(w: Role)
    ensures DeepCountAsWritten(HiddenTree(w), w) == 0
    ensures DeepChildrenAsWritten(HiddenTree(w), w) == []
  {
    var t := HiddenTree(w);
    var x := t.children[0];
    assert t.children[..0] == [] && x.roles == [];
    assert CountRolesAsWritten(x, x.roles, w) == 0;
    assert RolesAsWritten(x, x.roles, w) == [];
    assert CountKidsAsWritten(t.children, w) == 0;
    assert KidsAsWritten(t.children, w) == [];
  }

  /** A node whose only child has roles [w, v] and itself a child with role w. */
  function DoubledTree(w: Role, v: Role): LNode
  {
    LNode("module", map[], [LNode("x", map[], [LNode("s", map[], [], "", None, None, [w])], "", None, None, [w, v])], "", None, None, [])
  }

  lemma {:induction false} DoubledTreeAsWritten(w: Role, v: Role)
    requires w != v
    ensures DeepCountAsWritten(DoubledTree(w, v), w) == 3
  {
    var t := DoubledTree(w, v);
    var x := t.children[0];
    var s := x.children[0];
    assert t.children[..0] == [] && x.children[..0] == [];
    assert s.roles[..0] == [];
    assert DeepCountAsWritten(s, w) == 0;
    assert CountRolesAsWritten(s, s.roles, w) == 1;
    assert DeepCountAsWritten(x, w) == 1;
    assert x.roles[..1] == [w] && [w][..0] == [];
    assert CountRolesAsWritten(x, [w], w) == 2;
    assert CountRolesAsWritten(x, [w, v], w) == 3;
  }

  // --------------------------------------------------- deep searches, fixed

  /** Every node below n holding role w, counted once: the count the metric needs. */
  function DeepCount(n: LNode, w: Role): nat
    decreases Count(n), 0
  {
    DeepCountOf(n.children, w)
  }

  function DeepCountOf(cs: seq<LNode>, w: Role): nat
    decreases CountSeq(cs), 1
  {
    if cs == [] then 0
    else
      var c := cs[|cs| - 1];
      CountPos(c);
      DeepCountOf(cs[..|cs| - 1], w) + (if w in c.roles then 1 else 0) + DeepCount(c, w)
  }

  /** The nodes below n holding role w, in pre-order, each once. */
  function DeepChildren(n: LNode, w: Role): seq<LNode>
    decreases Count(n), 0
  {
    DeepChildrenOf(n.children, w)
  }

  function DeepChildrenOf(cs: seq<LNode>, w: Role): seq<LNode>
    decreases CountSeq(cs), 1
  {
    if cs == [] then []
    else
      var c := cs[|cs| - 1];
      CountPos(c);
      DeepChildrenOf(cs[..|cs| - 1], w) + (if w in c.roles then [c] else []) + DeepChildren(c, w)
  }

  /** The fixed deep search is the pre-order list of descendants filtered by the role, and the count is its length. */
  lemma {:induction false} DeepChildrenSpec(n: LNode, w: Role)
    ensures DeepChildren(n, w) == WithRole(Descendants(n), w)
    ensures DeepCount(n, w) == |DeepChildren(n, w)|
    decreases Count(n), 0
  {
    DeepChildrenOfSpec(n.children, w);
  }

  lemma {:induction false} DeepChildrenOfSpec(cs: seq<LNode>, w: Role)
    ensures DeepChildrenOf(cs, w) == WithRole(DescendantsOf(cs), w)
    ensures DeepCountOf(cs, w) == |DeepChildrenOf(cs, w)|
    decreases CountSeq(cs), 1
  {
    if cs != [] {
      var c := cs[|cs| - 1];
      var pre := cs[..|cs| - 1];
      CountPos(c);
      DeepChildrenOfSpec(pre, w);
      DeepChildrenSpec(c, w);
      var a := DescendantsOf(pre);
      WithRoleAppend(a + [c], Descendants(c), w);
      WithRoleAppend(a, [c], w);
      assert [c][..0] == [];
    }
  }

  /** Every node below n has exactly one role. */
  predicate OneRoleBelow(n: LNode)
    decreases Count(n), 0
  {
    OneRoleAll(n.children)
  }

  predicate OneRoleAll(cs: seq<LNode>)
    decreases CountSeq(cs), 1
  {
    cs == [] ||
      var c := cs[|cs| - 1];
      CountPos(c);
      |c.roles| == 1 && OneRoleBelow(c) && OneRoleAll(cs[..|cs| - 1])
  }

  /** When every node below has exactly one role, as the trees of the tests do, the code as written agrees with the fix. */
  lemma {:induction false} AsWrittenAgrees(n: LNode, w: Role)
    requires OneRoleBelow(n)
    ensures DeepCountAsWritten(n, w) == DeepCount(n, w)
    ensures DeepChildrenAsWritten(n, w) == DeepChildren(n, w)
    decreases Count(n), 0
  {
    AsWrittenAgreesOf(n.children, w);
  }

  lemma {:induction false} AsWrittenAgreesOf(cs: seq<LNode>, w: Role)
    requires OneRoleAll(cs)
    ensures CountKidsAsWritten(cs, w) == DeepCountOf(cs, w)
    ensures KidsAsWritten(cs, w) == DeepChildrenOf(cs, w)
    decreases CountSeq(cs), 1
  {
    if cs != [] {
      var c := cs[|cs| - 1];
      CountPos(c);
      AsWrittenAgreesOf(cs[..|cs| - 1], w);
      AsWrittenAgrees(c, w);
      OneRole(c, w);
    }
  }

  /** A node with one role goes once around the roles loop. */
  lemma {:induction false} OneRole(c: LNode, w: Role)
    requires |c.roles| == 1
    ensures CountRolesAsWritten(c, c.roles, w) == (if w in c.roles then 1 else 0) + DeepCountAsWritten(c, w)
    ensures RolesAsWritten(c, c.roles, w) == (if w in c.roles then [c] else []) + DeepChildrenAsWritten(c, w)
  {
    var rs := c.roles;
    assert rs == [rs[0]] && rs[..0] == [];
    assert (w in rs) <==> rs[0] == w;
  }

  /** The hidden and doubled trees: what the fix counts there. */
  lemma {:induction false} FixedCounts(w: Role, v: Role)
    requires w != v
    ensures DeepCount(HiddenTree(w), w) == 1
    ensures DeepCount(DoubledTree(w, v), w) == 2
  {
    var t := HiddenTree(w);
    var x := t.children[0];
    var s := x.children[0];
    assert t.children[..0] == [] && x.children[..0] == [] && s.children == [];
    assert DeepCount(s, w) == 0;
    assert DeepCount(x, w) == DeepCountOf(x.children, w) == 1;
    assert DeepCountOf(t.children, w) == 1;
    var d := DoubledTree(w, v);
    var y := d.children[0];
    assert d.children[..0] == [] && y.children[..0] == [];
    assert y.children[0] == s;
    assert DeepCount(y, w) == DeepCountOf(y.children, w) == 1;
    assert DeepCountOf(d.children, w) == 2;
  }

  /** A node whose only child has two roles a, b, neither w, and a child of role w. */
  function TwiceTree(w: Role, a: Role, b: Role): LNode
  {
    LNode("module", map[], [LNode("x", map[], [LNode("s", map[], [], "", None, None, [w])], "", None, None, [a, b])], "", None, None, [])
  }

  lemma {:induction false} TwiceTreeAsWritten(w: Role, a: Role, b: Role)
    requires w != a && w != b
    ensures var t := TwiceTree(w, a, b);
      DeepChildrenAsWritten(t, w) == [t.children[0].children[0], t.children[0].children[0]]
  {
    var t := TwiceTree(w, a, b);
    var x := t.children[0];
    var s := x.children[0];
    assert t.children[..0] == [] && x.children[..0] == [] && s.children == [];
    assert s.roles[..0] == [] && x.roles[..1] == [a] && [a][..0] == [];
    assert DeepChildrenAsWritten(s, w) == [];
    assert RolesAsWritten(s, s.roles, w) == [s];
    assert DeepChildrenAsWritten(x, w) == [s];
    assert RolesAsWritten(x, [a], w) == [s];
    assert RolesAsWritten(x, [a, b], w) == [s, s];
  }

  lemma {:induction false} TwiceTreeFixed(w: Role, a: Role, b: Role)
    requires w != a && w != b
    ensures var t := TwiceTree(w, a, b);
      DeepChildren(t, w) == [t.children[0].children[0]]
  {
    var t := TwiceTree(w, a, b);
    var x := t.children[0];
    var s := x.children[0];
    assert t.children == [x] && x.children == [s] && s.children == [];
    assert [x][..0] == [] && [s][..0] == [];
    assert DeepChildren(s, w) == [];
    assert DeepChildrenOf([s], w) == [] + [s] + [];
    assert DeepChildren(x, w) == [s];
    assert w !in x.roles;
    assert DeepChildrenOf([x], w) == [] + [] + [s];
  }

  /** When every node below has one role, the bodies and the expression counts as written are the intended ones. */
  lemma {:induction false} BodiesAgree(n: LNode)
    requires OneRoleBelow(n)
    ensures Bodies(n) == BodiesIntended(n)
    ensures ExprComp(n) == ExprCompIntended(n)
  {
    AsWrittenAgrees(n, FunctionDeclarationBody);
    AsWrittenAgrees(n, OpBooleanAnd);
    AsWrittenAgrees(n, OpBooleanOr);
  }

  /** deepCountChildrenOfRol as written: the loops over the children and their roles, the recursive call inside the roles loop. */
  method DeepCountM(n: LNode, w: Role) returns (count: nat)
    ensures count == DeepCountAsWritten(n, w)
    decreases Count(n)
  {
    count := 0;
    for i := 0 to |n.children|
      invariant count == CountKidsAsWritten(n.children[..i], w)
    {
      var child := n.children[i];
      assert n.children[..i + 1][..i] == n.children[..i];
      CountSeqIn(n.children, child);
      var before := count;
      for j := 0 to |child.roles|
        invariant count == before + CountRolesAsWritten(child, child.roles[..j], w)
      {
        assert child.roles[..j + 1][..j] == child.roles[..j];
        if child.roles[j] == w {
          count := count + 1;
        }
        var below := DeepCountM(child, w);
        count := count + below;
      }
      assert child.roles[..|child.roles|] == child.roles;
    }
    assert n.children[..|n.children|] == n.children;
  }

  // -------------------------------------------------------------- visitors

  // A visit that indexes a missing child (ifBody[0] when there is no IfBody
  // child, say) panics in the source; here it gives None, and so does every
  // visit that contains it.

  function Mul(a: Option<int>, b: Option<int>): (r: Option<int>)
    ensures r.Some? <==> a.Some? && b.Some?
    ensures r.Some? ==> r.value == a.value * b.value
  {
    if a.Some? && b.Some? then Some(a.value * b.value) else None
  }

  function Add(a: Option<int>, b: Option<int>): (r: Option<int>)
    ensures r.Some? <==> a.Some? && b.Some?
    ensures r.Some? ==> r.value == a.value + b.value
  {
    if a.Some? && b.Some? then Some(a.value + b.value) else None
  }

  /** expressionComp as written: the And and Or counts of deepCountChildrenOfRol, plus one. */
  function ExprComp(n: LNode): (r: int)
    ensures r >= 1
  {
    DeepCountAsWritten(n, OpBooleanAnd) + DeepCountAsWritten(n, OpBooleanOr) + 1
  }

  /** expressionComp with the fixed count: the And and Or operators below n, each once, plus one. */
  function ExprCompIntended(n: LNode): (r: int)
    ensures r == |WithRole(Descendants(n), OpBooleanAnd)| + |WithRole(Descendants(n), OpBooleanOr)| + 1
  {
    DeepChildrenSpec(n, OpBooleanAnd);
    DeepChildrenSpec(n, OpBooleanOr);
    DeepCount(n, OpBooleanAnd) + DeepCount(n, OpBooleanOr) + 1
  }

  /** visitorSelector: dispatch on the first role only; a node without roles is worth -10. */
  function Visit(n: LNode): Option<int>
    decreases Count(n), 3, 0
  {
    if |n.roles| == 0 then Some(-10)
    else
      var r := n.roles[0];
      if r == If then VisitIf(n)
      else if r == While then VisitWhile(n)
      else if r == Switch then VisitSwitch(n)
      else if r == DoWhile then VisitDoWhile(n)
      else if r == For then VisitFor(n)
      else if r == Return then Some(ExprComp(n))
      else MultOf(n)
  }

  /** complexityMultOf: the product of the children's values (so also visitFunctionBody and visitNotCompNode). */
  function MultOf(n: LNode): Option<int>
    decreases Count(n), 1, 0
  {
    MultKids(n.children)
  }

  function MultKids(cs: seq<LNode>): Option<int>
    decreases CountSeq(cs), 4, 0
  {
    if cs == [] then Some(1)
    else
      var c := cs[|cs| - 1];
      CountPos(c);
      Mul(MultKids(cs[..|cs| - 1]), Visit(c))
  }

  /** complexitySumOf: the sum of the children's values. */
  function SumOf(n: LNode): Option<int>
    decreases Count(n), 1, 0
  {
    SumKids(n.children)
  }

  function SumKids(cs: seq<LNode>): Option<int>
    decreases CountSeq(cs), 4, 0
  {
    if cs == [] then Some(0)
    else
      var c := cs[|cs| - 1];
      CountPos(c);
      Add(SumKids(cs[..|cs| - 1]), Visit(c))
  }

  /** The first child of n with role w, if any: the x[0] of the visitors. */
  function First(n: LNode, w: Role): (r: Option<LNode>)
    ensures r.Some? ==> r.value in n.children && Count(r.value) < Count(n)
    ensures r.None? <==> ChildrenOfRole(n.children, w) == []
  {
    var cs := ChildrenOfRole(n.children, w);
    if cs == [] then None
    else
      CountSeqIn(n.children, cs[0]);
      Some(cs[0])
  }

  /** MultOf of the first child with role w; None when there is none. */
  function MultOfFirst(n: LNode, w: Role): Option<int>
    decreases Count(n), 2, 0
  {
    var f := First(n, w);
    if f.None? then None else MultOf(f.value)
  }

  function SumOfFirst(n: LNode, w: Role): Option<int>
    decreases Count(n), 2, 0
  {
    var f := First(n, w);
    if f.None? then None else SumOf(f.value)
  }

  function ExprCompOfFirst(n: LNode, w: Role): Option<int>
  {
    var f := First(n, w);
    if f.None? then None else Some(ExprComp(f.value))
  }

  /** (else, or 1) times body, plus the condition's operators. */
  function VisitIf(n: LNode): Option<int>
    decreases Count(n), 2, 1
  {
    var otherwise := if ChildrenOfRole(n.children, IfElse) == [] then Some(1) else MultOfFirst(n, IfElse);
    Add(Mul(otherwise, MultOfFirst(n, IfBody)), ExprCompOfFirst(n, IfCondition))
  }

  /** The same shape as an if, with the while condition and body (and an else, as Python has). */
  function VisitWhile(n: LNode): Option<int>
    decreases Count(n), 2, 1
  {
    var otherwise := if ChildrenOfRole(n.children, IfElse) == [] then Some(1) else MultOfFirst(n, IfElse);
    Add(Mul(otherwise, MultOfFirst(n, WhileBody)), ExprCompOfFirst(n, WhileCondition))
  }

  /** The sum over the body, plus the condition's operators, plus one for not entering. */
  function VisitDoWhile(n: LNode): Option<int>
    decreases Count(n), 2, 1
  {
    Add(Add(SumOfFirst(n, DoWhileBody), ExprCompOfFirst(n, DoWhileCondition)), Some(1))
  }

  function VisitFor(n: LNode): Option<int>
    decreases Count(n), 2, 1
  {
    Add(Add(SumOfFirst(n, ForBody), ExprCompOfFirst(n, ForExpression)), Some(1))
  }

  /**
   * visitSwitch: every case is visited, but each one overwrites the running
   * value, so only the last case counts; then the default (or 1) is added.
   */
  function VisitSwitch(n: LNode): Option<int>
    decreases Count(n), 2, 1
  {
    var cases := ChildrenOfRole(n.children, SwitchCase);
    var last := LastCase(n, cases);
    var dflt := if ChildrenOfRole(n.children, SwitchDefault) == [] then Some(1) else MultOfFirst(n, SwitchDefault);
    Add(last, dflt)
  }

  function LastCase(n: LNode, cases: seq<LNode>): Option<int>
    requires forall c :: c in cases ==> c in n.children
    decreases Count(n), 1, |cases|
  {
    if cases == [] then Some(0)
    else
      var c := cases[|cases| - 1];
      CountSeqIn(n.children, c);
      assert forall x :: x in cases[..|cases| - 1] ==> x in cases;
      var before := LastCase(n, cases[..|cases| - 1]);
      if before.None? then None else MultOf(c)
  }

  /** When every case evaluates, the overwriting loop leaves the value of the last case alone. */
  lemma {:induction false} LastCaseIsLast(n: LNode, cases: seq<LNode>)
    requires cases != [] && forall c :: c in cases ==> c in n.children
    requires forall i :: 0 <= i < |cases| ==> MultOf(cases[i]).Some?
    ensures LastCase(n, cases) == MultOf(cases[|cases| - 1])
    decreases |cases|
  {
    var pre := cases[..|cases| - 1];
    assert forall x :: x in pre ==> x in cases;
    if pre != [] {
      LastCaseIsLast(n, pre);
      assert pre[|pre| - 1] == cases[|cases| - 2];
    }
  }

  /** A switch without a default whose cases all evaluate is worth its last case plus one, whatever the earlier cases are worth. */
  lemma {:induction false} SwitchLastCase(n: LNode)
    requires var cases := ChildrenOfRole(n.children, SwitchCase);
      cases != [] && forall i :: 0 <= i < |cases| ==> MultOf(cases[i]).Some?
    requires ChildrenOfRole(n.children, SwitchDefault) == []
    ensures var cases := ChildrenOfRole(n.children, SwitchCase);
      VisitSwitch(n) == Some(MultOf(cases[|cases| - 1]).value + 1)
  {
    LastCaseIsLast(n, ChildrenOfRole(n.children, SwitchCase));
  }

  // ------------------------------------------------------ NpathComplexity

  const NotFoundError := "Function declaration not found"

  /** The values of NpathComplexity and its error, if any. */
  datatype Metric = Metric(values: seq<int>, err: Option<string>)

  /** The function bodies measured: the node itself if it is one, else what deepChildrenOfRole returns as written. */
  function Bodies(n: LNode): seq<LNode>
  {
    if FunctionDeclarationBody in n.roles then [n] else DeepChildrenAsWritten(n, FunctionDeclarationBody)
  }

  /** The bodies the metric means: the node itself if it is one, else every body below it, once each, in pre-order. */
  function BodiesIntended(n: LNode): (r: seq<LNode>)
    ensures FunctionDeclarationBody !in n.roles ==> r == WithRole(Descendants(n), FunctionDeclarationBody)
  {
    DeepChildrenSpec(n, FunctionDeclarationBody);
    if FunctionDeclarationBody in n.roles then [n] else DeepChildren(n, FunctionDeclarationBody)
  }

  /** The value of each body, in order. */
  function MultOfAll(fs: seq<LNode>): (r: Option<seq<int>>)
    ensures r.Some? ==> |r.value| == |fs|
  {
    if fs == [] then Some([])
    else
      var pre := MultOfAll(fs[..|fs| - 1]);
      var v := MultOf(fs[|fs| - 1]);
      if pre.Some? && v.Some? then Some(pre.value + [v.value]) else None
  }

  /** NpathComplexity; None when a visit panics. */
  function Complexity(n: LNode): Option<Metric>
  {
    var funcs := Bodies(n);
    if |funcs| == 0 then Some(Metric([-1], Some(NotFoundError)))
    else
      var vs := MultOfAll(funcs);
      if vs.None? then None else Some(Metric(vs.value, None))
  }

  /** The loop of NpathComplexity over the function bodies. */
  method NpathComplexity(n: LNode) returns (r: Option<Metric>)
    ensures r == Complexity(n)
  {
    var funcs: seq<LNode>;
    var isBody := ContainsRole(n, FunctionDeclarationBody);
    if isBody {
      funcs := [n];
    } else {
      funcs := DeepChildrenAsWritten(n, FunctionDeclarationBody);
    }
    if |funcs| <= 0 {
      return Some(Metric([-1], Some(NotFoundError)));
    }
    var npath: seq<int> := [];
    for i := 0 to |funcs|
      invariant MultOfAll(funcs[..i]) == Some(npath)
    {
      assert funcs[..i + 1][..i] == funcs[..i];
      var v := MultOf(funcs[i]);
      if v.None? {
        MultOfAllStays(funcs, i + 1);
        return None;
      }
      npath := npath + [v.value];
    }
    assert funcs[..|funcs|] == funcs;
    return Some(Metric(npath, None));
  }

  /** Once a body panics, the whole run does. */
  lemma {:induction false} MultOfAllStays(fs: seq<LNode>, k: nat)
    requires k <= |fs| && MultOfAll(fs[..k]).None?
    ensures MultOfAll(fs).None?
    decreases |fs| - k
  {
    if k == |fs| {
      assert fs[..k] == fs;
    } else {
      assert fs[..k + 1][..k] == fs[..k];
      MultOfAllStays(fs, k + 1);
    }
  }

  /**
   * The error comes exactly when no function body is found, with the single
   * value -1; otherwise there is one value per body.
   */
  lemma {:induction false} ComplexityResult(n: LNode)
    ensures var r := Complexity(n);
      && (|Bodies(n)| == 0 <==> r == Some(Metric([-1], Some(NotFoundError))))
      && (r.Some? && r.value.err.None? ==> |r.value.values| == |Bodies(n)|)
      && (r.Some? ==> (r.value.err.Some? <==> |Bodies(n)| == 0))
  {
  }

  /** TestZeroFunction: a tree with no function body is an error. */
  lemma {:induction false} ZeroFunction(n: LNode)
    requires n.children == [] && n.roles == []
    ensures Complexity(n) == Some(Metric([-1], Some(NotFoundError)))
  {
    assert DeepChildrenAsWritten(n, FunctionDeclarationBody) == [];
  }

  /** Sequential statements multiply: the value of a block is the product over its parts. */
  lemma {:induction false} MultKidsAppend(a: seq<LNode>, b: seq<LNode>)
    ensures MultKids(a + b) == Mul(MultKids(a), MultKids(b))
    decreases |b|
  {
    if b == [] {
      assert a + b == a;
    } else {
      var b' := b[..|b| - 1];
      assert (a + b)[..|a + b| - 1] == a + b';
      MultKidsAppend(a, b');
      MulAssoc(MultKids(a), MultKids(b'), Visit(b[|b| - 1]));
    }
  }

  lemma {:induction false} MulAssoc(x: Option<int>, y: Option<int>, z: Option<int>)
    ensures Mul(Mul(x, y), z) == Mul(x, Mul(y, z))
  {
    if x.Some? && y.Some? && z.Some? {
      IntMulAssoc(x.value, y.value, z.value);
    }
  }

  lemma {:induction false} IntMulAssoc(x: int, y: int, z: int)
    ensures (x * y) * z == x * (y * z)
  {
  }

  /** Three statements of NPath 7 in sequence give 343. */
  lemma {:induction false} ThreeInSequence(n: LNode)
    requires |n.children| == 3 && forall i :: 0 <= i < 3 ==> Visit(n.children[i]) == Some(7)
    ensures MultOf(n) == Some(343)
  {
    var cs := n.children;
    assert cs[..2][..1] == cs[..1] && cs[..1][..0] == [] && cs[..3] == cs;
    assert MultKids(cs[..1]) == Some(7);
    assert MultKids(cs[..2]) == Some(49);
  }

  /** A visit that needs a child of some role panics when there is none. */
  lemma {:induction false} MissingChildPanics(n: LNode)
    ensures ChildrenOfRole(n.children, IfBody) == [] ==> VisitIf(n).None?
    ensures ChildrenOfRole(n.children, IfCondition) == [] ==> VisitIf(n).None?
    ensures ChildrenOfRole(n.children, ForBody) == [] ==> VisitFor(n).None?
    ensures ChildrenOfRole(n.children, DoWhileBody) == [] ==> VisitDoWhile(n).None?
  {
  }

  /** Only the first role of a node is looked at, and a node without roles is worth -10. */
  lemma {:induction false} FirstRoleOnly(n: LNode, extra: seq<Role>)
    requires |n.roles| > 0
    ensures Visit(n.(roles := n.roles + extra)) == Visit(n) || n.roles[0] in [If, While, Switch, DoWhile, For, Return]
    ensures Visit(n.(roles := [])) == Some(-10)
  {
    var m := n.(roles := n.roles + extra);
    assert m.roles[0] == n.roles[0];
    assert Count(m) == Count(n);
  }

  /** TestExpresionComplex, the flat case: an And and a Xor below count 2. */
  lemma {:induction false} ExprCompFlat(n: LNode, and: LNode, xor: LNode, opXor: Role)
    requires opXor != OpBooleanAnd && opXor != OpBooleanOr
    requires n.children == [and, xor] && and.roles == [OpBooleanAnd] && xor.roles == [opXor]
    requires and.children == [] && xor.children == []
    ensures ExprComp(n) == 2
  {
    assert [and, xor][..1] == [and] && [and][..0] == [];
    assert OneRoleBelow(and) && OneRoleBelow(xor);
    assert OneRoleAll([and]);
    assert OneRoleAll([and, xor]);
    BodiesAgree(n);
    assert OpBooleanOr != OpBooleanAnd by { assert |OpBooleanOr| != |OpBooleanAnd|; }
    assert DeepCount(and, OpBooleanAnd) == 0 && DeepCount(and, OpBooleanOr) == 0;
    assert DeepCount(xor, OpBooleanAnd) == 0 && DeepCount(xor, OpBooleanOr) == 0;
    assert DeepCountOf([and], OpBooleanAnd) == 1 && DeepCountOf([and], OpBooleanOr) == 0;
    assert DeepCountOf([and, xor], OpBooleanAnd) == 1 && DeepCountOf([and, xor], OpBooleanOr) == 0;
  }

  /** TestExpresionComplex, the nested case: an And above an Or above a Xor count 3. */
  lemma {:induction false} ExprCompNested(n: LNode, and: LNode, or: LNode, xor: LNode, opXor: Role)
    requires opXor != OpBooleanAnd && opXor != OpBooleanOr
    requires n.children == [and] && and.children == [or] && or.children == [xor] && xor.children == []
    requires and.roles == [OpBooleanAnd] && or.roles == [OpBooleanOr] && xor.roles == [opXor]
    ensures ExprComp(n) == 3
  {
    assert [and][..0] == [] && [or][..0] == [] && [xor][..0] == [];
    assert OneRoleBelow(xor);
    assert OneRoleAll([xor]);
    assert OneRoleBelow(or);
    assert OneRoleAll([or]);
    assert OneRoleBelow(and);
    assert OneRoleAll([and]);
    assert OneRoleBelow(n);
    BodiesAgree(n);
    assert OpBooleanOr != OpBooleanAnd by { assert |OpBooleanOr| != |OpBooleanAnd|; }
    assert DeepCount(xor, OpBooleanAnd) == 0 && DeepCount(xor, OpBooleanOr) == 0;
    assert DeepCountOf([xor], OpBooleanAnd) == 0 && DeepCountOf([xor], OpBooleanOr) == 0;
    assert DeepCount(or, OpBooleanAnd) == 0 && DeepCount(or, OpBooleanOr) == 0;
    assert DeepCountOf([or], OpBooleanAnd) == 0 && DeepCountOf([or], OpBooleanOr) == 1;
    assert DeepCount(and, OpBooleanAnd) == 0 && DeepCount(and, OpBooleanOr) == 1;
    assert DeepCountOf([and], OpBooleanAnd) == 1 && DeepCountOf([and], OpBooleanOr) == 1;
  }

  /** A function body under a node without roles is never found: the metric reports no function. */
  lemma {:induction false} HiddenBodyNotFound()
    ensures Complexity(HiddenTree(FunctionDeclarationBody)) == Some(Metric([-1], Some(NotFoundError)))
    ensures |BodiesIntended(HiddenTree(FunctionDeclarationBody))| == 1
  {
    HiddenTreeAsWritten(FunctionDeclarationBody);
    FixedCounts(FunctionDeclarationBody, If);
    DeepChildrenSpec(HiddenTree(FunctionDeclarationBody), FunctionDeclarationBody);
  }

  /** A function body under a node with two other roles is measured twice: two values for one body. */
  lemma {:induction false} TwiceBodyMeasuredTwice(a: Role, b: Role)
    requires a != FunctionDeclarationBody && b != FunctionDeclarationBody
    ensures Complexity(TwiceTree(FunctionDeclarationBody, a, b)) == Some(Metric([1, 1], None))
    ensures |BodiesIntended(TwiceTree(FunctionDeclarationBody, a, b))| == 1
  {
    var t := TwiceTree(FunctionDeclarationBody, a, b);
    var s := t.children[0].children[0];
    TwiceTreeAsWritten(FunctionDeclarationBody, a, b);
    TwiceTreeFixed(FunctionDeclarationBody, a, b);
    assert Bodies(t) == [s, s];
    assert MultOf(s) == Some(1);
    assert [s, s][..1] == [s] && [s][..0] == [];
    assert MultOfAll([]) == Some([]);
    assert MultOfAll([s]) == Some([] + [1]);
    assert [] + [1] == [1] && [1] + [1] == [1, 1];
    assert MultOfAll([s, s]) == Some([1] + [1]);
  }
}
