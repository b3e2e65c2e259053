// The annotation DSL (uast/ann/ann.go): path matchers, rules with actions
// and child rules, and Rule.Apply, which walks a tree with an explicit stack.
module Ann {
  import opened Wrappers
  import opened Legacy
  import Nodes

  datatype NodePredicate =
    | HasInternalType(it: string)
    | HasProperty(key: string, value: string)
    | HasToken(tk: string)
    | Not(p: NodePredicate)

  /** HasInternalRole(r) is HasProperty(internalRole, r). */
  function HasInternalRole(r: string): NodePredicate
  {
    HasProperty(InternalRoleKey, r)
  }

  predicate Holds(p: NodePredicate, n: LNode)
  {
    match p
    case HasInternalType(it) => n.internalType == it
    case HasProperty(k, v) => k in n.properties && n.properties[k] == v
    case HasToken(tk) => n.token == tk
    case Not(q) => !Holds(q, n)
  }

  /** A path matcher: a predicate on the whole path, a predicate on the current node, or a join. */
  datatype Matcher =
    | PathPred(f: NodePath -> bool)
    | NodeMatch(pred: NodePredicate)
    | JoinMatcher(matchers: seq<Matcher>)

  function MatcherSize(m: Matcher): (n: nat)
    ensures n >= 1
  {
    match m
    case JoinMatcher(ms) => 1 + MatchersSize(ms)
    case _ => 1
  }

  function MatchersSize(ms: seq<Matcher>): nat
  {
    if ms == [] then 0 else MatchersSize(ms[..|ms| - 1]) + MatcherSize(ms[|ms| - 1])
  }

  /** MatchPath: the prefix of the path left unmatched; empty when the whole path matched. */
  function MatchPath(m: Matcher, path: NodePath): NodePath
    decreases MatcherSize(m), 0
  {
    match m
    case PathPred(f) => if f(path) then [] else path
    case NodeMatch(p) =>
      if path == [] then path
      else if !Holds(p, path[|path| - 1]) then path
      else path[..|path| - 1]
    case JoinMatcher(ms) => JoinMatch(ms, path)
  }

  /** joinMatcher.MatchPath: matchers from the last to the first, until one leaves the length unchanged. */
  function JoinMatch(stack: seq<Matcher>, path: NodePath): NodePath
    decreases MatchersSize(stack), 1
  {
    if stack == [] then path
    else
      var p := MatchPath(stack[|stack| - 1], path);
      if |p| == |path| then p else JoinMatch(stack[..|stack| - 1], p)
  }

  /** What every matcher returns is a prefix of the path it was given. */
  lemma {:induction false} MatchPathPrefix(m: Matcher, path: NodePath)
    ensures var r := MatchPath(m, path); |r| <= |path| && r == path[..|r|]
    decreases MatcherSize(m), 0
  {
    match m
    case PathPred(_) =>
    case NodeMatch(_) =>
    case JoinMatcher(ms) => JoinMatchPrefix(ms, path);
  }

  lemma {:induction false} JoinMatchPrefix(stack: seq<Matcher>, path: NodePath)
    ensures var r := JoinMatch(stack, path); |r| <= |path| && r == path[..|r|]
    decreases MatchersSize(stack), 1
  {
    if stack != [] {
      var p := MatchPath(stack[|stack| - 1], path);
      MatchPathPrefix(stack[|stack| - 1], path);
      if |p| != |path| {
        JoinMatchPrefix(stack[..|stack| - 1], p);
        var r := JoinMatch(stack[..|stack| - 1], p);
        assert path[..|p|][..|r|] == path[..|r|];
      }
    }
  }

  /** A node predicate leaves an empty path alone, drops the current node on a match, and keeps the path otherwise. */
  lemma {:induction false} NodeMatchResult(p: NodePredicate, path: NodePath)
    ensures path == [] ==> MatchPath(NodeMatch(p), path) == []
    ensures path != [] && Holds(p, path[|path| - 1]) ==> MatchPath(NodeMatch(p), path) == path[..|path| - 1]
    ensures path != [] && !Holds(p, path[|path| - 1]) ==> MatchPath(NodeMatch(p), path) == path
  {
  }

  /** A join stops at the first matcher that leaves the path as it is. */
  lemma {:induction false} JoinStops(stack: seq<Matcher>, path: NodePath)
    requires stack != [] && |MatchPath(stack[|stack| - 1], path)| == |path|
    ensures JoinMatch(stack, path) == path
  {
    MatchPathPrefix(stack[|stack| - 1], path);
  }

  /** No element is itself a join. */
  predicate Flat(ms: seq<Matcher>)
  {
    forall i :: 0 <= i < |ms| ==> !ms[i].JoinMatcher?
  }

  /** The matchers of m, with those of a join spliced in. */
  function Splice(m: Matcher): seq<Matcher>
  {
    if m.JoinMatcher? then m.matchers else [m]
  }

  function SpliceAll(ms: seq<Matcher>): (r: seq<Matcher>)
    ensures (forall i :: 0 <= i < |ms| ==> ms[i].JoinMatcher? ==> Flat(ms[i].matchers)) ==> Flat(r)
  {
    if ms == [] then []
    else
      var r := SpliceAll(ms[..|ms| - 1]) + Splice(ms[|ms| - 1]);
      assert forall i :: 0 <= i < |ms[..|ms| - 1]| ==> ms[..|ms| - 1][i] == ms[i];
      r
  }

  /** Join: one join over all the matchers, nested joins flattened in order. */
  function Join(ms: seq<Matcher>): (r: Matcher)
    ensures r.JoinMatcher? && r.matchers == SpliceAll(ms)
  {
    JoinMatcher(SpliceAll(ms))
  }

  /** Joins built by Join are flat, so joining them again stays flat. */
  lemma {:induction false} JoinFlat(ms: seq<Matcher>)
    requires forall i :: 0 <= i < |ms| ==> ms[i].JoinMatcher? ==> Flat(ms[i].matchers)
    ensures Flat(Join(ms).matchers)
  {
  }

  /** The loop of joinMatcher.MatchPath. */
  method JoinMatchPath(matchers: seq<Matcher>, path0: NodePath) returns (path: NodePath)
    ensures path == JoinMatch(matchers, path0)
    decreases MatchersSize(matchers), 1
  {
    var stack := matchers;
    path := path0;
    while true
      invariant MatchersSize(stack) <= MatchersSize(matchers)
      invariant JoinMatch(stack, path) == JoinMatch(matchers, path0)
      decreases |stack|
    {
      if |stack| == 0 {
        break;
      }
      var matcher := stack[|stack| - 1];
      stack := stack[..|stack| - 1];
      var n := |path|;
      path := Match(matcher, path);
      if |path| == n {
        break;
      }
    }
  }

  /** MatchPath of any matcher. */
  method Match(m: Matcher, path: NodePath) returns (r: NodePath)
    ensures r == MatchPath(m, path)
    decreases MatcherSize(m), 0
  {
    match m {
      case PathPred(f) => r := if f(path) then [] else path;
      case NodeMatch(p) =>
        if path == [] || !Holds(p, path[|path| - 1]) {
          r := path;
        } else {
          r := path[..|path| - 1];
        }
      case JoinMatcher(ms) => r := JoinMatchPath(ms, path);
    }
  }

  /** Any: the path predicate that always holds. */
  function Any(): Matcher
  {
    PathPred(_ => true)
  }

  /** A path predicate gives the empty path when it holds and the path itself otherwise. */
  lemma {:induction false} PathPredResult(f: NodePath -> bool, path: NodePath)
    ensures f(path) ==> MatchPath(PathPred(f), path) == []
    ensures !f(path) ==> MatchPath(PathPred(f), path) == path
  {
  }

  lemma {:induction false} AnyMatchesAll(path: NodePath)
    ensures MatchPath(Any(), path) == []
  {
  }

  /** Not negates; negating twice gives the predicate back. */
  lemma {:induction false} NotNegates(p: NodePredicate, n: LNode)
    ensures Holds(Not(p), n) <==> !Holds(p, n)
    ensures Holds(Not(Not(p)), n) <==> Holds(p, n)
  {
  }

  /** The cases of the HasInternalType test, with nodes of types foo, other and bar. */
  lemma {:induction false} HasInternalTypeExamples(foo: LNode, other: LNode, bar: LNode)
    requires foo.internalType == "foo" && other.internalType == "other" && bar.internalType == "bar"
    ensures var has := NodeMatch(HasInternalType("foo"));
      && MatchPath(has, []) == []
      && MatchPath(has, [foo]) == []
      && MatchPath(has, [other]) == [other]
      && MatchPath(has, [other, foo]) == [other]
      && MatchPath(has, [foo, bar]) == [foo, bar]
  {
    assert |other.internalType| != |"foo"|;
    assert [other, foo][..1] == [other];
  }

  // ------------------------------------------------------------------ rules

  /** An action on the current node: append roles, or fail with an error. */
  datatype Action = AddRoles(roles: seq<Role>) | Fails(err: string)

  /** A rule: a matcher, actions for fully matched nodes, and child rules. */
  datatype AnnRule = AnnRule(on: Matcher, actions: seq<Action>, rules: seq<AnnRule>)

  /** On: a rule whose matcher joins the given ones, with no actions and no child rules. */
  function On(matchers: seq<Matcher>): (r: AnnRule)
    ensures r.on.JoinMatcher? && r.on.matchers == SpliceAll(matchers)
    ensures r.actions == [] && r.rules == []
  {
    AnnRule(Join(matchers), [], [])
  }

  /** Do: the actions appended after the rule's own. */
  function Do(r: AnnRule, actions: seq<Action>): (r': AnnRule)
    ensures r'.on == r.on && r'.rules == r.rules
    ensures |r'.actions| == |r.actions| + |actions|
    ensures r'.actions[..|r.actions|] == r.actions && r'.actions[|r.actions|..] == actions
  {
    r.(actions := r.actions + actions)
  }

  /** Roles: one more action, adding the given roles. */
  function Roles(r: AnnRule, roles: seq<Role>): (r': AnnRule)
    ensures r'.on == r.on && r'.rules == r.rules && r'.actions == r.actions + [AddRoles(roles)]
  {
    Do(r, [AddRoles(roles)])
  }

  /** Rules: the children attached, each with the parent's matcher joined in front of its own. */
  function Rules(r: AnnRule, children: seq<AnnRule>): (r': AnnRule)
    ensures r'.on == r.on && r'.actions == r.actions
    ensures |r'.rules| == |r.rules| + |children| && r'.rules[..|r.rules|] == r.rules
    ensures forall i :: 0 <= i < |children| ==>
      var c := r'.rules[|r.rules| + i];
      c.actions == children[i].actions && c.rules == children[i].rules &&
      c.on.JoinMatcher? && c.on.matchers == Splice(r.on) + Splice(children[i].on)
  {
    var attached := seq(|children|, i requires 0 <= i < |children| => children[i].(on := Join([r.on, children[i].on])));
    forall i | 0 <= i < |children|
      ensures SpliceAll([r.on, children[i].on]) == Splice(r.on) + Splice(children[i].on)
    {
      SpliceTwo(r.on, children[i].on);
    }
    r.(rules := r.rules + attached)
  }

  lemma {:induction false} SpliceTwo(a: Matcher, b: Matcher)
    ensures SpliceAll([a, b]) == Splice(a) + Splice(b)
  {
    assert [a, b][..1] == [a];
    assert [a][..0] == [];
    assert SpliceAll([a]) == Splice(a);
  }

  /** One action applied: the role additions it makes, at the node with this address. */
  datatype Effect = Effect(addr: seq<nat>, roles: seq<Role>)

  /** What a run did: the role additions in order, and the error that stopped it, if any. */
  datatype Outcome = Outcome(log: seq<Effect>, err: Option<string>)

  /** Earlier effects followed by an outcome. */
  function Then(log: seq<Effect>, o: Outcome): (r: Outcome)
    ensures r.err == o.err && |r.log| == |log| + |o.log|
  {
    Outcome(log + o.log, o.err)
  }

  lemma {:induction false} ThenThen(a: seq<Effect>, b: seq<Effect>, o: Outcome)
    ensures Then(a, Then(b, o)) == Then(a + b, o)
  {
    Nodes.Assoc(a, b, o.log);
  }

  /** The actions of one rule, in order, on the node at addr; the first error stops them. */
  function RunActions(actions: seq<Action>, addr: seq<nat>): Outcome
  {
    if actions == [] then Outcome([], None)
    else
      var o := RunActions(actions[..|actions| - 1], addr);
      if o.err.Some? then o
      else match actions[|actions| - 1]
        case AddRoles(roles) => Outcome(o.log + [Effect(addr, roles)], None)
        case Fails(e) => Outcome(o.log, Some(e))
  }

  /** Whether a rule applies here: its matcher consumes the whole path. */
  predicate FullMatch(r: AnnRule, path: NodePath)
  {
    MatchPath(r.on, path) == []
  }

  /** The rules of one stack entry, in order: the fully matched ones run their actions. */
  function RunHere(rules: seq<AnnRule>, path: NodePath, addr: seq<nat>): Outcome
  {
    if rules == [] then Outcome([], None)
    else
      var o := RunHere(rules[..|rules| - 1], path, addr);
      var r := rules[|rules| - 1];
      if o.err.Some? || !FullMatch(r, path) then o
      else Then(o.log, RunActions(r.actions, addr))
  }

  /** The child rules of all the given rules, in order. */
  function Nested(rules: seq<AnnRule>): seq<AnnRule>
  {
    if rules == [] then [] else Nested(rules[..|rules| - 1]) + rules[|rules| - 1].rules
  }

  /** The rules handed to the children: the same rules followed by their child rules. */
  function ChildRules(rules: seq<AnnRule>): (r: seq<AnnRule>)
    ensures |r| >= |rules| && r[..|rules|] == rules
  {
    rules + Nested(rules)
  }

  // ------------------------------------------------------------- Rule.Apply

  /** A stack entry of Apply: the path to a node, the node's address from the root, and the rules to try there. */
  datatype Entry = Entry(above: NodePath, node: LNode, addr: seq<nat>, rules: seq<AnnRule>)

  function PathOf(e: Entry): (p: NodePath)
    ensures |p| == |e.above| + 1 && p[|p| - 1] == e.node
  {
    e.above + [e.node]
  }

  /** The entries for the first k children of e's node, in order, each with the given rules. */
  function KidEntries(e: Entry, rules: seq<AnnRule>, k: nat): (r: seq<Entry>)
    requires k <= |e.node.children|
    ensures |r| == k
  {
    if k == 0 then []
    else KidEntries(e, rules, k - 1) + [Entry(PathOf(e), e.node.children[k - 1], e.addr + [k - 1], rules)]
  }

  /** The number of nodes still to visit from a stack. */
  function StackCount(st: seq<Entry>): nat
  {
    if st == [] then 0 else StackCount(st[..|st| - 1]) + Count(st[|st| - 1].node)
  }

  lemma {:induction false} KidsCount(st: seq<Entry>, e: Entry, rules: seq<AnnRule>, k: nat)
    requires k <= |e.node.children|
    ensures StackCount(st + KidEntries(e, rules, k)) == StackCount(st) + CountSeq(e.node.children[..k])
  {
    if k == 0 {
      assert st + [] == st;
    } else {
      var cs := e.node.children;
      var prev := st + KidEntries(e, rules, k - 1);
      assert st + KidEntries(e, rules, k) == prev + [KidEntries(e, rules, k)[k - 1]];
      assert (prev + [KidEntries(e, rules, k)[k - 1]])[..|prev|] == prev;
      KidsCount(st, e, rules, k - 1);
      assert cs[..k][..k - 1] == cs[..k - 1];
    }
  }

  lemma {:induction false} PopCount(st: seq<Entry>)
    requires st != []
    ensures var e := st[|st| - 1];
      StackCount(st[..|st| - 1] + KidEntries(e, ChildRules(e.rules), |e.node.children|)) < StackCount(st)
  {
    var e := st[|st| - 1];
    KidsCount(st[..|st| - 1], e, ChildRules(e.rules), |e.node.children|);
    assert e.node.children[..|e.node.children|] == e.node.children;
  }

  /**
   * Rule.Apply as a function of the stack: the last entry is taken, its rules
   * run, and on success the entries of its children are pushed in order, so
   * the last child is visited first. The first error ends the run.
   */
  function VisitStack(st: seq<Entry>): Outcome
    decreases StackCount(st)
  {
    if st == [] then Outcome([], None)
    else
      var e := st[|st| - 1];
      var here := RunHere(e.rules, PathOf(e), e.addr);
      if here.err.Some? then here
      else
        PopCount(st);
        Then(here.log, VisitStack(st[..|st| - 1] + KidEntries(e, ChildRules(e.rules), |e.node.children|)))
  }

  /** The run of Apply(r) on the tree rooted at root. */
  function ApplyRule(r: AnnRule, root: LNode): Outcome
  {
    VisitStack([Entry([], root, [], [r])])
  }

  /** The actions loop of Apply. */
  method RunActionsM(actions: seq<Action>, addr: seq<nat>) returns (o: Outcome)
    ensures o == RunActions(actions, addr)
  {
    o := Outcome([], None);
    for i := 0 to |actions|
      invariant o == RunActions(actions[..i], addr) && o.err.None?
    {
      assert actions[..i + 1][..i] == actions[..i];
      match actions[i] {
        case AddRoles(roles) =>
          o := Outcome(o.log + [Effect(addr, roles)], None);
        case Fails(e) =>
          o := Outcome(o.log, Some(e));
          RunActionsStays(actions, addr, i + 1);
          return;
      }
    }
    assert actions[..|actions|] == actions;
  }

  /** Once an action has failed, the later ones change nothing. */
  lemma {:induction false} RunActionsStays(actions: seq<Action>, addr: seq<nat>, k: nat)
    requires k <= |actions| && RunActions(actions[..k], addr).err.Some?
    ensures RunActions(actions, addr) == RunActions(actions[..k], addr)
    decreases |actions| - k
  {
    if k == |actions| {
      assert actions[..k] == actions;
    } else {
      assert actions[..k + 1][..k] == actions[..k];
      RunActionsStays(actions, addr, k + 1);
    }
  }

  /** Once a rule's action has failed, the later rules change nothing. */
  lemma {:induction false} RunHereStays(rules: seq<AnnRule>, path: NodePath, addr: seq<nat>, k: nat)
    requires k <= |rules| && RunHere(rules[..k], path, addr).err.Some?
    ensures RunHere(rules, path, addr) == RunHere(rules[..k], path, addr)
    decreases |rules| - k
  {
    if k == |rules| {
      assert rules[..k] == rules;
    } else {
      assert rules[..k + 1][..k] == rules[..k];
      RunHereStays(rules, path, addr, k + 1);
    }
  }

  /** The rules loop of Apply for one stack entry: runs the rules and collects the child rules. */
  method Here(rules: seq<AnnRule>, path: NodePath, addr: seq<nat>) returns (o: Outcome, childRules: seq<AnnRule>)
    ensures o == RunHere(rules, path, addr)
    ensures o.err.None? ==> childRules == ChildRules(rules)
  {
    o := Outcome([], None);
    childRules := rules;
    for i := 0 to |rules|
      invariant o == RunHere(rules[..i], path, addr) && o.err.None?
      invariant childRules == rules + Nested(rules[..i])
    {
      var r := rules[i];
      assert rules[..i + 1][..i] == rules[..i];
      Nodes.Assoc(rules, Nested(rules[..i]), r.rules);
      childRules := childRules + r.rules;
      var rest := Match(r.on, path);
      if |rest| > 0 {
        continue;
      }
      var acts := RunActionsM(r.actions, addr);
      o := Then(o.log, acts);
      if o.err.Some? {
        RunHereStays(rules, path, addr, i + 1);
        return;
      }
    }
    assert rules[..|rules|] == rules;
  }

  /** Pushes the entries of e's children, in order, on top of rest. */
  method PushKids(rest: seq<Entry>, e: Entry, rules: seq<AnnRule>) returns (st: seq<Entry>)
    ensures st == rest + KidEntries(e, rules, |e.node.children|)
  {
    st := rest;
    var path := PathOf(e);
    for j := 0 to |e.node.children|
      invariant st == rest + KidEntries(e, rules, j)
    {
      Nodes.Assoc(rest, KidEntries(e, rules, j), [Entry(path, e.node.children[j], e.addr + [j], rules)]);
      st := st + [Entry(path, e.node.children[j], e.addr + [j], rules)];
    }
  }

  /** One step of VisitStack, with no error at the top entry. */
  lemma {:induction false} VisitStep(st: seq<Entry>, here: Outcome, kids: seq<Entry>)
    requires st != []
    requires here == RunHere(st[|st| - 1].rules, PathOf(st[|st| - 1]), st[|st| - 1].addr) && here.err.None?
    requires kids == st[..|st| - 1] + KidEntries(st[|st| - 1], ChildRules(st[|st| - 1].rules), |st[|st| - 1].node.children|)
    ensures VisitStack(st) == Then(here.log, VisitStack(kids))
  {
  }

  /**
   * Rule.Apply: a stack of paths and a stack of rule lists, popped from the
   * end; the actions of every fully matched rule run on the current node, and
   * the first error is returned.
   */
  method Apply(r: AnnRule, root: LNode) returns (out: Outcome)
    ensures out == ApplyRule(r, root)
  {
    var stack := [Entry([], root, [], [r])];
    var log: seq<Effect> := [];
    while |stack| > 0
      invariant Then(log, VisitStack(stack)) == ApplyRule(r, root)
      decreases StackCount(stack)
    {
      var e := stack[|stack| - 1];
      var here, childRules := Here(e.rules, PathOf(e), e.addr);
      if here.err.Some? {
        return Then(log, here);
      }
      var kids := PushKids(stack[..|stack| - 1], e, childRules);
      VisitStep(stack, here, kids);
      ThenThen(log, here.log, VisitStack(kids));
      PopCount(stack);
      log := log + here.log;
      stack := kids;
    }
    assert log + [] == log;
    out := Outcome(log, None);
  }

  // ------------------------------------------------------------- properties

  /** Every effect of an action list is one of its AddRoles at addr, and an error is one of its Fails. */
  lemma {:induction false} RunActionsSound(actions: seq<Action>, addr: seq<nat>)
    ensures var o := RunActions(actions, addr);
      && (forall k :: 0 <= k < |o.log| ==> o.log[k].addr == addr && AddRoles(o.log[k].roles) in actions)
      && (o.err.Some? ==> Fails(o.err.value) in actions)
    decreases |actions|
  {
    if actions != [] {
      var pre := actions[..|actions| - 1];
      RunActionsSound(pre, addr);
      assert forall a :: a in pre ==> a in actions;
    }
  }

  /** Without a Fails action there is no error, and each AddRoles gives one effect. */
  lemma {:induction false} RunActionsNoFail(actions: seq<Action>, addr: seq<nat>)
    requires forall i :: 0 <= i < |actions| ==> actions[i].AddRoles?
    ensures RunActions(actions, addr).err.None? && |RunActions(actions, addr).log| == |actions|
    decreases |actions|
  {
    if actions != [] {
      RunActionsNoFail(actions[..|actions| - 1], addr);
    }
  }

  /**
   * The effects at one stack entry come only from fully matched rules, each
   * from one of their AddRoles actions, at the entry's own address; an error
   * is one of the Fails actions of a fully matched rule.
   */
  lemma {:induction false} RunHereSound(rules: seq<AnnRule>, path: NodePath, addr: seq<nat>)
    ensures var o := RunHere(rules, path, addr);
      && (forall k :: 0 <= k < |o.log| ==>
            && o.log[k].addr == addr
            && exists i :: 0 <= i < |rules| && FullMatch(rules[i], path) && AddRoles(o.log[k].roles) in rules[i].actions)
      && (o.err.Some? ==> exists i :: 0 <= i < |rules| && FullMatch(rules[i], path) && Fails(o.err.value) in rules[i].actions)
    decreases |rules|
  {
    if rules != [] {
      var n := |rules| - 1;
      var pre := rules[..n];
      var o := RunHere(pre, path, addr);
      RunHereSound(pre, path, addr);
      assert forall i :: 0 <= i < n ==> pre[i] == rules[i];
      if o.err.None? && FullMatch(rules[n], path) {
        var a := RunActions(rules[n].actions, addr);
        RunActionsSound(rules[n].actions, addr);
        var o' := Then(o.log, a);
        forall k | |o.log| <= k < |o'.log|
          ensures o'.log[k].addr == addr && AddRoles(o'.log[k].roles) in rules[n].actions
        {
          assert o'.log[k] == a.log[k - |o.log|];
        }
      }
    }
  }

  /** Rules that match no further than part of the path do nothing there. */
  lemma {:induction false} RunHereUnmatched(rules: seq<AnnRule>, path: NodePath, addr: seq<nat>)
    requires forall i :: 0 <= i < |rules| ==> !FullMatch(rules[i], path)
    ensures RunHere(rules, path, addr) == Outcome([], None)
    decreases |rules|
  {
    if rules != [] {
      RunHereUnmatched(rules[..|rules| - 1], path, addr);
    }
  }

  /** A rule and all the rules under it have no Fails action. */
  predicate NoFails(r: AnnRule)
  {
    (forall i :: 0 <= i < |r.actions| ==> r.actions[i].AddRoles?) &&
    (forall i :: 0 <= i < |r.rules| ==> NoFails(r.rules[i]))
  }

  predicate AllNoFails(rules: seq<AnnRule>)
  {
    forall i :: 0 <= i < |rules| ==> NoFails(rules[i])
  }

  lemma {:induction false} RunHereNoFail(rules: seq<AnnRule>, path: NodePath, addr: seq<nat>)
    requires AllNoFails(rules)
    ensures RunHere(rules, path, addr).err.None?
    decreases |rules|
  {
    if rules != [] {
      RunHereNoFail(rules[..|rules| - 1], path, addr);
      RunActionsNoFail(rules[|rules| - 1].actions, addr);
    }
  }

  lemma {:induction false} NestedNoFails(rules: seq<AnnRule>)
    requires AllNoFails(rules)
    ensures AllNoFails(ChildRules(rules))
    decreases |rules|
  {
    if rules != [] {
      var pre := rules[..|rules| - 1];
      NestedNoFails(pre);
      var last := rules[|rules| - 1];
      assert NoFails(last);
      var n := Nested(pre);
      assert AllNoFails(pre + n);
      assert forall i :: 0 <= i < |n| ==> NoFails(n[i]) by {
        forall i | 0 <= i < |n| ensures NoFails(n[i]) {
          assert n[i] == (pre + n)[|pre| + i];
        }
      }
      assert Nested(rules) == n + last.rules;
    }
  }

  /** Every entry of the stack has rules without Fails actions. */
  predicate StackNoFails(st: seq<Entry>)
  {
    forall i :: 0 <= i < |st| ==> AllNoFails(st[i].rules)
  }

  lemma {:induction false} KidEntriesRules(e: Entry, rules: seq<AnnRule>, k: nat)
    requires k <= |e.node.children|
    ensures forall i :: 0 <= i < k ==> KidEntries(e, rules, k)[i].rules == rules
  {
    if k > 0 {
      KidEntriesRules(e, rules, k - 1);
    }
  }

  /** When no rule anywhere has a Fails action, Apply returns no error. */
  lemma {:induction false} VisitNoFail(st: seq<Entry>)
    requires StackNoFails(st)
    ensures VisitStack(st).err.None?
    decreases StackCount(st)
  {
    if st != [] {
      var e := st[|st| - 1];
      RunHereNoFail(e.rules, PathOf(e), e.addr);
      var cr := ChildRules(e.rules);
      NestedNoFails(e.rules);
      var kids := KidEntries(e, cr, |e.node.children|);
      KidEntriesRules(e, cr, |e.node.children|);
      var st' := st[..|st| - 1] + kids;
      assert StackNoFails(st') by {
        forall i | 0 <= i < |st'| ensures AllNoFails(st'[i].rules) {
          if i < |st| - 1 {
            assert st'[i] == st[i];
          } else {
            assert st'[i] == kids[i - (|st| - 1)];
          }
        }
      }
      PopCount(st);
      VisitNoFail(st');
    }
  }

  lemma {:induction false} ApplyNoFail(r: AnnRule, root: LNode)
    requires NoFails(r)
    ensures ApplyRule(r, root).err.None?
  {
    VisitNoFail([Entry([], root, [], [r])]);
  }

  /** A rule that matches every path, adds roles and has no child rules. */
  ghost predicate Everywhere(r0: AnnRule, roles: seq<Role>)
  {
    r0.rules == [] && r0.actions == [AddRoles(roles)] && forall p :: FullMatch(r0, p)
  }

  /** Such a rule keeps itself as the only rule of every child entry. */
  lemma {:induction false} EverywhereHere(r0: AnnRule, roles: seq<Role>, path: NodePath, addr: seq<nat>)
    requires Everywhere(r0, roles)
    ensures RunHere([r0], path, addr) == Outcome([Effect(addr, roles)], None)
    ensures ChildRules([r0]) == [r0]
  {
    assert [r0][..0] == [];
    assert FullMatch(r0, path);
    assert r0.actions[..0] == [];
    assert RunActions(r0.actions, addr) == Outcome([] + [Effect(addr, roles)], None);
    assert [] + [Effect(addr, roles)] == [Effect(addr, roles)];
    assert Nested([r0]) == [] + r0.rules;
  }

  /** A rule that matches everywhere adds its roles once per node, and never fails. */
  lemma {:induction false} VisitEveryNode(st: seq<Entry>, r0: AnnRule, roles: seq<Role>)
    requires Everywhere(r0, roles)
    requires forall i :: 0 <= i < |st| ==> st[i].rules == [r0]
    ensures var o := VisitStack(st);
      o.err.None? && |o.log| == StackCount(st) && forall k :: 0 <= k < |o.log| ==> o.log[k].roles == roles
    decreases StackCount(st)
  {
    if st != [] {
      var e := st[|st| - 1];
      var cs := e.node.children;
      EverywhereHere(r0, roles, PathOf(e), e.addr);
      var kids := KidEntries(e, [r0], |cs|);
      KidEntriesRules(e, [r0], |cs|);
      var st' := st[..|st| - 1] + kids;
      assert forall i :: 0 <= i < |st'| ==> st'[i].rules == [r0] by {
        forall i | 0 <= i < |st'| ensures st'[i].rules == [r0] {
          if i < |st| - 1 {
            assert st'[i] == st[i];
          } else {
            assert st'[i] == kids[i - (|st| - 1)];
          }
        }
      }
      KidsCount(st[..|st| - 1], e, [r0], |cs|);
      assert cs[..|cs|] == cs;
      VisitEveryNode(st', r0, roles);
    }
  }

  /** On(Any()).Roles(roles) makes one role addition per node of the tree. */
  lemma {:induction false} ApplyAnyRoles(root: LNode, roles: seq<Role>)
    ensures var o := ApplyRule(Roles(On([Any()]), roles), root);
      o.err.None? && |o.log| == Count(root) && forall k :: 0 <= k < |o.log| ==> o.log[k].roles == roles
  {
    var r0 := Roles(On([Any()]), roles);
    AnyEverywhere(roles);
    var st := [Entry([], root, [], [r0])];
    VisitEveryNode(st, r0, roles);
    assert st[..0] == [];
    assert StackCount(st) == Count(root);
  }

  lemma {:induction false} AnyEverywhere(roles: seq<Role>)
    ensures Everywhere(Roles(On([Any()]), roles), roles)
  {
    var r0 := Roles(On([Any()]), roles);
    assert r0.on.matchers == [Any()];
    forall p: NodePath ensures FullMatch(r0, p) {
      AnyFull(r0, p);
    }
  }

  lemma {:induction false} AnyFull(r0: AnnRule, p: NodePath)
    requires r0.on.JoinMatcher? && r0.on.matchers == [Any()]
    ensures FullMatch(r0, p)
  {
    assert MatchPath(Any(), p) == [];
    assert [Any()][..0] == [];
  }

  /** The tree of the rule tests: a node of type root with one child of type foo. */
  predicate RootFoo(root: LNode, foo: LNode)
  {
    root.internalType == "root" && foo.internalType == "foo" && root.children == [foo] && foo.children == []
  }

  /** On(HasInternalType("root")).Rules(child), for a child rule built by On(HasInternalType("foo")). */
  function RootRule(child: AnnRule): AnnRule
  {
    Rules(On([NodeMatch(HasInternalType("root"))]), [child])
  }

  /** At the root only the parent rule is tried; it matches, has no actions, and its child rule is passed on. */
  lemma {:induction false} RootStep(root: LNode, foo: LNode, acts: seq<Action>)
    requires RootFoo(root, foo)
    ensures var r := RootRule(Do(On([NodeMatch(HasInternalType("foo"))]), acts));
      && RunHere([r], [root], []) == Outcome([], None)
      && VisitStack([Entry([], root, [], [r])]) == VisitStack([Entry([root], foo, [0], ChildRules([r]))])
  {
    var r := RootRule(Do(On([NodeMatch(HasInternalType("foo"))]), acts));
    var mr := NodeMatch(HasInternalType("root"));
    assert [mr][..0] == [];
    assert r.on == JoinMatcher([mr]) && r.actions == [];
    RootVisit(root, foo, r);
  }

  /** The visit of the root under a parent rule that matches it and has no actions. */
  lemma {:induction false} RootVisit(root: LNode, foo: LNode, r: AnnRule)
    requires root.internalType == "root" && root.children == [foo]
    requires r.on == JoinMatcher([NodeMatch(HasInternalType("root"))]) && r.actions == []
    ensures RunHere([r], [root], []) == Outcome([], None)
    ensures VisitStack([Entry([], root, [], [r])]) == VisitStack([Entry([root], foo, [0], ChildRules([r]))])
  {
    RootHere(root, r);
    var e := Entry([], root, [], [r]);
    RootKids(root, foo, e, ChildRules([r]));
    assert [e][..0] == [];
    VisitStep([e], Outcome([], None), [Entry([root], foo, [0], ChildRules([r]))]);
  }

  /** The parent rule matches the root and has no actions. */
  lemma {:induction false} RootHere(root: LNode, r: AnnRule)
    requires root.internalType == "root" && r.on == JoinMatcher([NodeMatch(HasInternalType("root"))]) && r.actions == []
    ensures RunHere([r], [root], []) == Outcome([], None)
  {
    var m := [NodeMatch(HasInternalType("root"))];
    assert m[..0] == [];
    assert JoinMatch(m, [root]) == [];
    assert [r][..0] == [];
  }

  /** The root's one child entry. */
  lemma {:induction false} RootKids(root: LNode, foo: LNode, e: Entry, rules: seq<AnnRule>)
    requires root.children == [foo] && e.above == [] && e.node == root && e.addr == []
    ensures KidEntries(e, rules, |e.node.children|) == [Entry([root], foo, [0], rules)]
  {
    assert PathOf(e) == [root] && [] + [0] == [0];
    assert KidEntries(e, rules, 0) == [];
  }

  /** At foo the parent rule does not match and the child rule, joined to it, does. */
  lemma {:induction false} FooStep(root: LNode, foo: LNode, acts: seq<Action>)
    requires RootFoo(root, foo)
    ensures var r := RootRule(Do(On([NodeMatch(HasInternalType("foo"))]), acts));
      && ChildRules([r]) == [r, r.rules[0]]
      && !FullMatch(r, [root, foo])
      && FullMatch(r.rules[0], [root, foo])
  {
    var mr := NodeMatch(HasInternalType("root"));
    var mf := NodeMatch(HasInternalType("foo"));
    var r := RootRule(Do(On([mf]), acts));
    assert [mr][..0] == [] && [mf][..0] == [];
    assert r.on.matchers == [mr];
    assert r.rules[0].on.matchers == [mr, mf];
    FooChildRules(r);
    FooParentMisses(root, foo, r);
    FooChildMatches(root, foo, r);
  }

  lemma {:induction false} FooChildRules(r: AnnRule)
    requires |r.rules| == 1
    ensures ChildRules([r]) == [r, r.rules[0]]
  {
    assert [r][..0] == [];
    assert Nested([r]) == [] + r.rules;
  }

  lemma {:induction false} FooParentMisses(root: LNode, foo: LNode, r: AnnRule)
    requires RootFoo(root, foo) && r.on == JoinMatcher([NodeMatch(HasInternalType("root"))])
    ensures !FullMatch(r, [root, foo])
  {
    var mr := NodeMatch(HasInternalType("root"));
    assert [mr][..0] == [];
    assert |foo.internalType| != |"root"|;
    assert JoinMatch([mr], [root, foo]) == [root, foo];
  }

  lemma {:induction false} FooChildMatches(root: LNode, foo: LNode, r: AnnRule)
    requires RootFoo(root, foo) && |r.rules| == 1
    requires r.rules[0].on.JoinMatcher?
    requires r.rules[0].on.matchers == [NodeMatch(HasInternalType("root")), NodeMatch(HasInternalType("foo"))]
    ensures FullMatch(r.rules[0], [root, foo])
  {
    var mr := NodeMatch(HasInternalType("root"));
    var mf := NodeMatch(HasInternalType("foo"));
    assert [mr][..0] == [];
    assert [mr, mf][..1] == [mr];
    assert [root, foo][..1] == [root];
    assert JoinMatch([mr, mf], [root, foo]) == JoinMatch([mr], [root]);
  }

  /** The last visit: foo has no children, so the stack is left empty. */
  lemma {:induction false} FooVisit(root: LNode, foo: LNode, rules: seq<AnnRule>)
    requires RootFoo(root, foo)
    ensures VisitStack([Entry([root], foo, [0], rules)]) == RunHere(rules, [root, foo], [0])
  {
    var e := Entry([root], foo, [0], rules);
    assert [e][..0] == [];
    assert PathOf(e) == [root, foo];
    if RunHere(rules, [root, foo], [0]).err.None? {
      assert [] + KidEntries(e, ChildRules(rules), 0) == [];
      var h := RunHere(rules, [root, foo], [0]);
      assert h.log + [] == h.log;
    }
  }

  /** TestRuleOnRulesApply: the child rule adds its role to foo only. */
  lemma {:induction false} RuleOnRulesApplyExample(root: LNode, foo: LNode, role: Role)
    requires RootFoo(root, foo)
    ensures ApplyRule(RootRule(Roles(On([NodeMatch(HasInternalType("foo"))]), [role])), root)
      == Outcome([Effect([0], [role])], None)
  {
    var acts := [AddRoles([role])];
    var r := RootRule(Do(On([NodeMatch(HasInternalType("foo"))]), acts));
    RootStep(root, foo, acts);
    FooStep(root, foo, acts);
    FooVisit(root, foo, [r, r.rules[0]]);
    assert [r, r.rules[0]][..1] == [r];
    assert RunHere([r], [root, foo], [0]) == Outcome([], None) by {
      assert [r][..0] == [];
    }
    assert r.rules[0].actions == acts;
    assert acts[..0] == [];
    assert RunActions(acts, [0]) == Outcome([Effect([0], [role])], None);
  }

  /** TestRuleOnRulesActionError: the failing action of the child rule is the error of Apply. */
  lemma {:induction false} RuleOnRulesActionErrorExample(root: LNode, foo: LNode, err: string)
    requires RootFoo(root, foo)
    ensures ApplyRule(RootRule(Do(On([NodeMatch(HasInternalType("foo"))]), [Fails(err)])), root).err == Some(err)
  {
    var acts := [Fails(err)];
    var r := RootRule(Do(On([NodeMatch(HasInternalType("foo"))]), acts));
    RootStep(root, foo, acts);
    FooStep(root, foo, acts);
    FooVisit(root, foo, [r, r.rules[0]]);
    assert [r, r.rules[0]][..1] == [r];
    assert RunHere([r], [root, foo], [0]) == Outcome([], None) by {
      assert [r][..0] == [];
    }
    assert r.rules[0].actions == acts;
    assert acts[..0] == [];
    assert RunActions(acts, [0]) == Outcome([], Some(err));
    assert RunHere([r, r.rules[0]], [root, foo], [0]).err == Some(err);
    assert ApplyRule(r, root) == Then([], VisitStack([Entry([root], foo, [0], ChildRules([r]))]));
  }

  // -------------------------------------------------- Rule.Apply as written

  /**
   * A stack entry of Rule.Apply as written: the entry, and the capacity of
   * the backing array of its path slice (the path has |above| + 1 nodes).
   * A child's path is append(path, child). While the array has room, every
   * child's path is the same slice one longer, its new slot written by each
   * child in turn, so after the loop all of them end in the last child; only
   * a full array is copied into a new one of the next capacity. The rest of
   * the array store need not be kept: a slot is written only by the loop over
   * the children of the entry being visited, the longest path in its array
   * still on the stack, so no entry below it sees the write.
   */
  datatype SliceEntry = SliceEntry(entry: Entry, cap: nat)

  /** The capacity append gives a full slice of pointers of capacity c, for the small capacities a path has: it doubles. */
  function Doubling(c: nat): (r: nat)
    ensures r > c
  {
    if c == 0 then 1 else 2 * c
  }

  /** The entry append(path, child) gives the i-th child of g's node as written. */
  function SliceKid(g: SliceEntry, rules: seq<AnnRule>, grow: nat -> nat, i: nat): (r: SliceEntry)
    requires i < |g.entry.node.children|
    ensures r.entry.above == PathOf(g.entry) && r.entry.rules == rules
    ensures var last := |g.entry.node.children| - 1;
      |g.entry.above| + 1 < g.cap ==>
        r.entry.node == g.entry.node.children[last] && r.entry.addr == g.entry.addr + [last] && r.cap == g.cap
    ensures |g.entry.above| + 1 >= g.cap ==>
      r.entry.node == g.entry.node.children[i] && r.entry.addr == g.entry.addr + [i] && r.cap == grow(g.cap)
  {
    var e := g.entry;
    var last := |e.node.children| - 1;
    if |e.above| + 1 < g.cap then SliceEntry(Entry(PathOf(e), e.node.children[last], e.addr + [last], rules), g.cap)
    else SliceEntry(Entry(PathOf(e), e.node.children[i], e.addr + [i], rules), grow(g.cap))
  }

  /** The entries of the first k children of g's node, in order, as written. */
  function SliceKids(g: SliceEntry, rules: seq<AnnRule>, grow: nat -> nat, k: nat): (r: seq<SliceEntry>)
    requires k <= |g.entry.node.children|
    ensures |r| == k
  {
    if k == 0 then [] else SliceKids(g, rules, grow, k - 1) + [SliceKid(g, rules, grow, k - 1)]
  }

  /**
   * A bound on the visits from a node when the children of a node may all
   * be visited as copies of the last one.
   */
  function Weight(n: LNode): nat
  {
    1 + |n.children| * WeightSeq(n.children)
  }

  function WeightSeq(s: seq<LNode>): nat
  {
    if s == [] then 0 else WeightSeq(s[..|s| - 1]) + Weight(s[|s| - 1])
  }

  function SliceWeight(st: seq<SliceEntry>): nat
  {
    if st == [] then 0 else SliceWeight(st[..|st| - 1]) + Weight(st[|st| - 1].entry.node)
  }

  lemma {:induction false} SliceWeightAppend(a: seq<SliceEntry>, b: seq<SliceEntry>)
    ensures SliceWeight(a + b) == SliceWeight(a) + SliceWeight(b)
    decreases |b|
  {
    if b == [] {
      assert a + b == a;
    } else {
      assert (a + b)[..|a + b| - 1] == a + b[..|b| - 1];
      SliceWeightAppend(a, b[..|b| - 1]);
    }
  }

  /** The weight of the first k child entries when the path array has room: k copies of the last child. */
  lemma {:induction false} SharedKidsWeight(g: SliceEntry, rules: seq<AnnRule>, grow: nat -> nat, k: nat)
    requires k <= |g.entry.node.children| && |g.entry.above| + 1 < g.cap
    ensures var cs := g.entry.node.children;
      |cs| > 0 ==> SliceWeight(SliceKids(g, rules, grow, k)) == k * Weight(cs[|cs| - 1])
  {
    var cs := g.entry.node.children;
    if k > 0 {
      SharedKidsWeight(g, rules, grow, k - 1);
      var kids := SliceKids(g, rules, grow, k);
      assert kids[..k - 1] == SliceKids(g, rules, grow, k - 1);
      assert kids[k - 1].entry.node == cs[|cs| - 1];
      OneMore(k, Weight(cs[|cs| - 1]));
    }
  }

  lemma {:induction false} OneMore(k: nat, w: nat)
    requires k >= 1
    ensures (k - 1) * w + w == k * w
  {
  }

  /** The weight of the first k child entries when the path array is full: the first k children. */
  lemma {:induction false} CopiedKidsWeight(g: SliceEntry, rules: seq<AnnRule>, grow: nat -> nat, k: nat)
    requires k <= |g.entry.node.children| && |g.entry.above| + 1 >= g.cap
    ensures SliceWeight(SliceKids(g, rules, grow, k)) == WeightSeq(g.entry.node.children[..k])
  {
    var cs := g.entry.node.children;
    if k == 0 {
      assert cs[..0] == [];
    } else {
      CopiedKidsWeight(g, rules, grow, k - 1);
      var kids := SliceKids(g, rules, grow, k);
      assert kids[..k - 1] == SliceKids(g, rules, grow, k - 1);
      assert cs[..k][..k - 1] == cs[..k - 1];
    }
  }

  /** The child entries weigh less than their parent. */
  lemma {:induction false} SliceKidsLighter(g: SliceEntry, rules: seq<AnnRule>, grow: nat -> nat)
    ensures SliceWeight(SliceKids(g, rules, grow, |g.entry.node.children|)) < Weight(g.entry.node)
  {
    var cs := g.entry.node.children;
    var k := |cs|;
    if |g.entry.above| + 1 < g.cap {
      SharedKidsWeight(g, rules, grow, k);
    } else {
      CopiedKidsWeight(g, rules, grow, k);
    }
    assert cs[..k] == cs;
    if k > 0 {
      assert cs[..k - 1] + [cs[k - 1]] == cs;
      var last, all := Weight(cs[k - 1]), WeightSeq(cs);
      assert all == WeightSeq(cs[..k - 1]) + last;
      Scaled(k, last, all);
    }
  }

  /** k copies of x, or y once, weigh no more than k copies of y when x <= y and k >= 1. */
  lemma {:induction false} Scaled(k: nat, x: nat, y: nat)
    requires k >= 1 && x <= y
    ensures k * x <= k * y && y <= k * y
  {
  }

  lemma {:induction false} SlicePop(st: seq<SliceEntry>, rules: seq<AnnRule>, grow: nat -> nat)
    requires st != []
    ensures var g := st[|st| - 1];
      SliceWeight(st[..|st| - 1] + SliceKids(g, rules, grow, |g.entry.node.children|)) < SliceWeight(st)
  {
    var g := st[|st| - 1];
    SliceWeightAppend(st[..|st| - 1], SliceKids(g, rules, grow, |g.entry.node.children|));
    SliceKidsLighter(g, rules, grow);
  }

  /**
   * Rule.Apply as written, as a function of the stack: VisitStack with the
   * child paths append gives; grow is the capacity append gives a full
   * slice.
   */
  function VisitAsWritten(st: seq<SliceEntry>, grow: nat -> nat): Outcome
    decreases SliceWeight(st)
  {
    if st == [] then Outcome([], None)
    else
      var g := st[|st| - 1];
      var e := g.entry;
      var here := RunHere(e.rules, PathOf(e), e.addr);
      if here.err.Some? then here
      else
        var kids := SliceKids(g, ChildRules(e.rules), grow, |e.node.children|);
        SlicePop(st, ChildRules(e.rules), grow);
        Then(here.log, VisitAsWritten(st[..|st| - 1] + kids, grow))
  }

  /** The run of Apply(r) as written, the first path being a slice of length and capacity one. */
  function ApplyAsWritten(r: AnnRule, root: LNode, grow: nat -> nat): Outcome
  {
    VisitAsWritten([SliceEntry(Entry([], root, [], [r]), 1)], grow)
  }

  /** One step of VisitAsWritten under a rule that matches everywhere. */
  lemma {:induction false} SliceStep(st: seq<SliceEntry>, r0: AnnRule, roles: seq<Role>, grow: nat -> nat)
    requires st != [] && Everywhere(r0, roles) && st[|st| - 1].entry.rules == [r0]
    ensures var g := st[|st| - 1];
      VisitAsWritten(st, grow) ==
      Then([Effect(g.entry.addr, roles)], VisitAsWritten(st[..|st| - 1] + SliceKids(g, [r0], grow, |g.entry.node.children|), grow))
  {
    var g := st[|st| - 1];
    EverywhereHere(r0, roles, PathOf(g.entry), g.entry.addr);
  }

  /** An only child, its parent's path array full: the child's path is a copy one longer. */
  lemma {:induction false} SliceOnlyKid(g: SliceEntry, rules: seq<AnnRule>, grow: nat -> nat, c: LNode)
    requires g.entry.node.children == [c] && |g.entry.above| + 1 >= g.cap
    ensures SliceKids(g, rules, grow, 1) == [SliceEntry(Entry(PathOf(g.entry), c, g.entry.addr + [0], rules), grow(g.cap))]
  {
    assert SliceKids(g, rules, grow, 0) == [];
  }

  /** Two children, their parent's path array with room: both paths end in the second child. */
  lemma {:induction false} SliceSharedKids(g: SliceEntry, rules: seq<AnnRule>, grow: nat -> nat, c1: LNode, c2: LNode)
    requires g.entry.node.children == [c1, c2] && |g.entry.above| + 1 < g.cap
    ensures var x := SliceEntry(Entry(PathOf(g.entry), c2, g.entry.addr + [1], rules), g.cap);
      SliceKids(g, rules, grow, 2) == [x, x]
  {
    assert SliceKids(g, rules, grow, 0) == [];
  }

  /** A leaf entry on top of the rest: visiting it leaves the rest. */
  lemma {:induction false} SliceLeaf(st: seq<SliceEntry>, rules: seq<AnnRule>, grow: nat -> nat)
    requires st != [] && st[|st| - 1].entry.node.children == []
    ensures st[..|st| - 1] + SliceKids(st[|st| - 1], rules, grow, 0) == st[..|st| - 1]
  {
  }

  /** One step of VisitStack under a rule that matches everywhere. */
  lemma {:induction false} EntryStep(st: seq<Entry>, r0: AnnRule, roles: seq<Role>)
    requires st != [] && Everywhere(r0, roles) && st[|st| - 1].rules == [r0]
    ensures var e := st[|st| - 1];
      VisitStack(st) == Then([Effect(e.addr, roles)], VisitStack(st[..|st| - 1] + KidEntries(e, [r0], |e.node.children|)))
  {
    var e := st[|st| - 1];
    EverywhereHere(r0, roles, PathOf(e), e.addr);
  }

  lemma {:induction false} EntryOnlyKid(e: Entry, rules: seq<AnnRule>, c: LNode)
    requires e.node.children == [c]
    ensures KidEntries(e, rules, 1) == [Entry(PathOf(e), c, e.addr + [0], rules)]
  {
    assert KidEntries(e, rules, 0) == [];
  }

  lemma {:induction false} EntryTwoKids(e: Entry, rules: seq<AnnRule>, c1: LNode, c2: LNode)
    requires e.node.children == [c1, c2]
    ensures KidEntries(e, rules, 2) == [Entry(PathOf(e), c1, e.addr + [0], rules), Entry(PathOf(e), c2, e.addr + [1], rules)]
  {
    assert KidEntries(e, rules, 0) == [];
  }

  /** The tree of the finding: root, a and b in a line, and two leaves c1 and c2 under b. */
  predicate DeepPair(root: LNode, a: LNode, b: LNode, c1: LNode, c2: LNode)
  {
    root.children == [a] && a.children == [b] && b.children == [c1, c2] && c1.children == [] && c2.children == []
  }

  /** A visit of one entry whose node has one child, under a rule that matches everywhere; next is the child's entry. */
  lemma {:induction false} SliceOneStep(g: SliceEntry, next: SliceEntry, c: LNode, r0: AnnRule, roles: seq<Role>, grow: nat -> nat)
    requires Everywhere(r0, roles) && g.entry.rules == [r0]
    requires g.entry.node.children == [c] && |g.entry.above| + 1 >= g.cap
    requires next == SliceEntry(Entry(PathOf(g.entry), c, g.entry.addr + [0], [r0]), grow(g.cap))
    ensures VisitAsWritten([g], grow) == Then([Effect(g.entry.addr, roles)], VisitAsWritten([next], grow))
  {
    SliceStep([g], r0, roles, grow);
    SliceOnlyKid(g, [r0], grow, c);
    assert [g][..0] == [];
  }

  /** A leaf entry x on top of st: its visit logs its roles and leaves st. */
  lemma {:induction false} SliceLeafStep(st: seq<SliceEntry>, x: SliceEntry, r0: AnnRule, roles: seq<Role>, grow: nat -> nat)
    requires Everywhere(r0, roles) && x.entry.rules == [r0] && x.entry.node.children == []
    ensures VisitAsWritten(st + [x], grow) == Then([Effect(x.entry.addr, roles)], VisitAsWritten(st, grow))
  {
    SliceStep(st + [x], r0, roles, grow);
    SliceLeaf(st + [x], [r0], grow);
    assert (st + [x])[..|st|] == st;
  }

  /** A visit of one entry with two leaf children whose paths share a slot; x is the entry both children get. */
  lemma {:induction false} SliceSharedStep(g: SliceEntry, x: SliceEntry, c1: LNode, c2: LNode, r0: AnnRule, roles: seq<Role>,
                                           grow: nat -> nat)
    requires Everywhere(r0, roles) && g.entry.rules == [r0] && c2.children == []
    requires g.entry.node.children == [c1, c2] && |g.entry.above| + 1 < g.cap
    requires x == SliceEntry(Entry(PathOf(g.entry), c2, g.entry.addr + [1], [r0]), g.cap)
    ensures VisitAsWritten([g], grow) == Outcome([Effect(g.entry.addr, roles), Effect(x.entry.addr, roles), Effect(x.entry.addr, roles)], None)
  {
    SliceStep([g], r0, roles, grow);
    SliceSharedKids(g, [r0], grow, c1, c2);
    assert [g][..0] + [x, x] == [x] + [x];
    SliceLeafStep([x], x, r0, roles, grow);
    assert [x] == [] + [x];
    SliceLeafStep([], x, r0, roles, grow);
    ThenThree(Effect(g.entry.addr, roles), Effect(x.entry.addr, roles), Effect(x.entry.addr, roles));
  }

  /** A visit of one entry whose node has one child, under a rule that matches everywhere; next is the child's entry. */
  lemma {:induction false} EntryOneStep(e: Entry, next: Entry, c: LNode, r0: AnnRule, roles: seq<Role>)
    requires Everywhere(r0, roles) && e.rules == [r0] && e.node.children == [c]
    requires next == Entry(PathOf(e), c, e.addr + [0], [r0])
    ensures VisitStack([e]) == Then([Effect(e.addr, roles)], VisitStack([next]))
  {
    EntryStep([e], r0, roles);
    EntryOnlyKid(e, [r0], c);
    assert [e][..0] == [];
  }

  /** A visit of one entry with two leaf children at addresses a1 and a2: the second child first, then the first. */
  lemma {:induction false} EntryPairStep(e: Entry, c1: LNode, c2: LNode, r0: AnnRule, roles: seq<Role>, a1: seq<nat>, a2: seq<nat>)
    requires Everywhere(r0, roles) && e.rules == [r0] && c1.children == [] && c2.children == []
    requires e.node.children == [c1, c2] && a1 == e.addr + [0] && a2 == e.addr + [1]
    ensures VisitStack([e]) == Outcome([Effect(e.addr, roles), Effect(a2, roles), Effect(a1, roles)], None)
  {
    var y1 := Entry(PathOf(e), c1, e.addr + [0], [r0]);
    var y2 := Entry(PathOf(e), c2, e.addr + [1], [r0]);
    EntryStep([e], r0, roles);
    EntryTwoKids(e, [r0], c1, c2);
    assert [e][..0] + [y1, y2] == [y1, y2];
    EntryStep([y1, y2], r0, roles);
    assert [y1, y2][..1] + KidEntries(y2, [r0], 0) == [y1];
    EntryStep([y1], r0, roles);
    assert [y1][..0] + KidEntries(y1, [r0], 0) == [];
  }

  /**
   * The finding in Rule.Apply as written: the path of b has length three in
   * an array of capacity four, so both children's paths end in the slot c2
   * was written to last. With a rule that matches everywhere, c2 (address
   * 0, 0, 1) gets the roles twice and c1 (address 0, 0, 0) never.
   */
  lemma {:induction false} SharedSlotAsWritten(root: LNode, a: LNode, b: LNode, c1: LNode, c2: LNode,
                                               r0: AnnRule, roles: seq<Role>)
    requires DeepPair(root, a, b, c1, c2) && Everywhere(r0, roles)
    ensures ApplyAsWritten(r0, root, Doubling) == Outcome([Effect([], roles), Effect([0], roles), Effect([0, 0], roles),
                                                           Effect([0, 0, 1], roles), Effect([0, 0, 1], roles)], None)
  {
    var s2 := SliceEntry(Entry([root, a], b, [0, 0], [r0]), 4);
    SliceDescent(root, a, b, r0, roles, s2);
    var x := SliceEntry(Entry([root, a, b], c2, [0, 0, 1], [r0]), 4);
    assert PathOf(s2.entry) == [root, a, b] && [0, 0] + [1] == [0, 0, 1];
    SliceSharedStep(s2, x, c1, c2, r0, roles, Doubling);
    ThenFive(Effect([], roles), Effect([0], roles), Effect([0, 0], roles), Effect([0, 0, 1], roles), Effect([0, 0, 1], roles));
  }

  /** The first two steps of SharedSlotAsWritten: root and a, each an only child with a full path array. */
  lemma {:induction false} SliceDescent(root: LNode, a: LNode, b: LNode, r0: AnnRule, roles: seq<Role>, s2: SliceEntry)
    requires root.children == [a] && a.children == [b] && Everywhere(r0, roles)
    requires s2 == SliceEntry(Entry([root, a], b, [0, 0], [r0]), 4)
    ensures ApplyAsWritten(r0, root, Doubling) ==
      Then([Effect([], roles)], Then([Effect([0], roles)], VisitAsWritten([s2], Doubling)))
  {
    var s0 := SliceEntry(Entry([], root, [], [r0]), 1);
    var s1 := SliceEntry(Entry([root], a, [0], [r0]), 2);
    assert PathOf(s0.entry) == [root] && PathOf(s1.entry) == [root, a];
    assert [] + [0] == [0] && [0] + [0] == [0, 0];
    assert Doubling(1) == 2 && Doubling(2) == 4;
    SliceOneStep(s0, s1, a, r0, roles, Doubling);
    SliceOneStep(s1, s2, b, r0, roles, Doubling);
  }

  /** The same tree under Apply: every node gets the roles once, c2 before c1. */
  lemma {:induction false} SharedSlotFixed(root: LNode, a: LNode, b: LNode, c1: LNode, c2: LNode,
                                           r0: AnnRule, roles: seq<Role>)
    requires DeepPair(root, a, b, c1, c2) && Everywhere(r0, roles)
    ensures ApplyRule(r0, root) == Outcome([Effect([], roles), Effect([0], roles), Effect([0, 0], roles),
                                            Effect([0, 0, 1], roles), Effect([0, 0, 0], roles)], None)
  {
    var n0 := Entry([], root, [], [r0]);
    var n1 := Entry([root], a, [0], [r0]);
    var n2 := Entry([root, a], b, [0, 0], [r0]);
    var e0, e1, e2, e3, e4 := Effect([], roles), Effect([0], roles), Effect([0, 0], roles), Effect([0, 0, 1], roles), Effect([0, 0, 0], roles);
    assert PathOf(n0) == [root] && PathOf(n1) == [root, a];
    assert [] + [0] == [0] && [0] + [0] == [0, 0] && [0, 0] + [0] == [0, 0, 0] && [0, 0] + [1] == [0, 0, 1];
    EntryOneStep(n0, n1, a, r0, roles);
    EntryOneStep(n1, n2, b, r0, roles);
    EntryPairStep(n2, c1, c2, r0, roles, [0, 0, 0], [0, 0, 1]);
    ThenFive(e0, e1, e2, e3, e4);
  }

  lemma {:induction false} ThenFive(e0: Effect, e1: Effect, e2: Effect, e3: Effect, e4: Effect)
    ensures Then([e0], Then([e1], Outcome([e2, e3, e4], None))) == Outcome([e0, e1, e2, e3, e4], None)
  {
    assert [e1] + [e2, e3, e4] == [e1, e2, e3, e4];
    assert [e0] + [e1, e2, e3, e4] == [e0, e1, e2, e3, e4];
  }

  lemma {:induction false} ThenThree(e0: Effect, e1: Effect, e2: Effect)
    ensures Then([e0], Then([e1], Then([e2], Outcome([], None)))) == Outcome([e0, e1, e2], None)
  {
    assert [e2] + [] == [e2];
    assert [e1] + [e2] == [e1, e2];
    assert [e0] + [e1, e2] == [e0, e1, e2];
  }
}
