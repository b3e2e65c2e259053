// The rule describer of uast/ann/folder.go: a pre-order fold over a rule
// tree that keeps the current path as a stack and appends one XPath-like
// description per rule with actions.
module Folder {
  import opened Strings
  import Nodes

  /**
   * The rule shape folder.go reads: an axis, predicates and actions, each
   * already rendered as text, and child rules.
   */
  datatype FoldRule = FoldRule(axis: string, predicates: seq<string>, actions: seq<string>, rules: seq<FoldRule>)

  function RuleSize(r: FoldRule): (n: nat)
    ensures n >= 1
  {
    1 + RulesSize(r.rules)
  }

  function RulesSize(rs: seq<FoldRule>): nat
  {
    if rs == [] then 0 else RulesSize(rs[..|rs| - 1]) + RuleSize(rs[|rs| - 1])
  }

  // ------------------------------------------------------------------ paths

  /** "[p]" for each predicate, in order. */
  function Predicates(ps: seq<string>): string
  {
    if ps == [] then "" else Predicates(ps[..|ps| - 1]) + "[" + ps[|ps| - 1] + "]"
  }

  /** One step of a path: "/" axis "::*" and the predicates. */
  function Step(r: FoldRule): string
  {
    "/" + r.axis + "::*" + Predicates(r.predicates)
  }

  /** path.String: the steps of the rules from the root down. */
  function PathString(p: seq<FoldRule>): string
  {
    if p == [] then "" else PathString(p[..|p| - 1]) + Step(p[|p| - 1])
  }

  /** Pushing a rule adds its step at the end of the path's text. */
  lemma {:induction false} PathStringPush(p: seq<FoldRule>, r: FoldRule)
    ensures PathString(p + [r]) == PathString(p) + Step(r)
  {
    assert (p + [r])[..|p|] == p;
  }

  /** Every step starts with '/', so a non-empty path's text does too, and the text only grows with the path. */
  lemma {:induction false} PathStringShape(p: seq<FoldRule>)
    ensures p == [] <==> PathString(p) == ""
    ensures p != [] ==> PathString(p)[0] == '/'
    decreases |p|
  {
    if p != [] {
      PathStringShape(p[..|p| - 1]);
      var s := Step(p[|p| - 1]);
      assert s[0] == '/';
    }
  }

  // ------------------------------------------------------------ abbreviate

  /** strings.Replace with no limit: leftmost non-overlapping occurrences, from the left. */
  function ReplaceAll(s: string, pat: string, rep: string): string
    requires |pat| > 0
    decreases |s|
  {
    if HasPrefix(s, pat) then rep + ReplaceAll(s[|pat|..], pat, rep)
    else if s == [] then []
    else [s[0]] + ReplaceAll(s[1..], pat, rep)
  }

  /** A replacement by something shorter never lengthens, and keeps the length only when nothing was replaced. */
  lemma {:induction false} ReplaceAllShrinks(s: string, pat: string, rep: string)
    requires |rep| < |pat|
    ensures |ReplaceAll(s, pat, rep)| <= |s|
    ensures |ReplaceAll(s, pat, rep)| == |s| ==> ReplaceAll(s, pat, rep) == s
    decreases |s|
  {
    if HasPrefix(s, pat) {
      ReplaceAllShrinks(s[|pat|..], pat, rep);
    } else if s != [] {
      ReplaceAllShrinks(s[1..], pat, rep);
      assert [s[0]] + s[1..] == s;
    }
  }

  lemma {:induction false} PrefixChar(s: string, pat: string, k: nat)
    requires k < |pat|
    ensures HasPrefix(s, pat) ==> pat[k] in s
  {
    if HasPrefix(s, pat) {
      assert s[..|pat|][k] == s[k];
    }
  }

  /** A string lacking one of the characters of pat has no occurrence of it to replace. */
  lemma {:induction false} ReplaceAllAbsent(s: string, pat: string, rep: string, k: nat)
    requires |pat| > 0 && k < |pat| && pat[k] !in s
    ensures ReplaceAll(s, pat, rep) == s
    decreases |s|
  {
    PrefixChar(s, pat, k);
    if s != [] {
      assert forall c :: c in s[1..] ==> c in s;
      ReplaceAllAbsent(s[1..], pat, rep, k);
      assert [s[0]] + s[1..] == s;
    }
  }

  const RootStep := "/self::*[*]"
  const RootArrow := "/self::*[*] -> "

  // abbreviate: drop a leading RootStep (unless the description is of the
  // root rule itself), then shorten the descendant axis to a double slash
  // and drop the child axis name.
  function Abbreviate(s: string): string
  {
    var t := if !HasPrefix(s, RootArrow) then TrimPrefix(s, RootStep) else s;
    ReplaceAll(ReplaceAll(t, "/descendant::*", "//*"), "/child::", "/")
  }

  /** Abbreviating never lengthens, and keeps the length only when it changes nothing. */
  lemma {:induction false} AbbreviateShrinks(s: string)
    ensures |Abbreviate(s)| <= |s|
    ensures |Abbreviate(s)| == |s| ==> Abbreviate(s) == s
  {
    var t := if !HasPrefix(s, RootArrow) then TrimPrefix(s, RootStep) else s;
    var u := ReplaceAll(t, "/descendant::*", "//*");
    ReplaceAllShrinks(t, "/descendant::*", "//*");
    ReplaceAllShrinks(u, "/child::", "/");
  }

  lemma {:induction false} PrefixAt(s: string, p: string, k: nat)
    requires k < |p|
    ensures HasPrefix(s, p) ==> s[k] == p[k]
  {
    if HasPrefix(s, p) {
      assert s[..|p|][k] == s[k];
    }
  }

  lemma {:induction false} RootStepChars(a: string, x: string)
    requires a == RootStep && x == "/x"
    ensures 'd' !in a && 'd' !in x && 'c' !in a && 'c' !in x
  {
  }

  /** Neither replacement touches a string built from the root step and "/x". */
  lemma {:induction false} Untouched(v: string, a: string, x: string)
    requires a == RootStep && x == "/x"
    requires forall c :: c in v ==> c in a || c in x
    ensures ReplaceAll(ReplaceAll(v, "/descendant::*", "//*"), "/child::", "/") == v
  {
    RootStepChars(a, x);
    ReplaceAllAbsent(v, "/descendant::*", "//*", 1);
    ReplaceAllAbsent(v, "/child::", "/", 2);
  }

  /** The doubled root step of a description loses one copy per call. */
  lemma {:induction false} AbbreviateTrimsTwice(a: string, x: string)
    requires a == RootStep && x == "/x"
    ensures Abbreviate(a + a + x) == a + x
  {
    var t := a + a + x;
    assert t[..|a|] == a;
    assert t[|a|..] == a + x;
    PrefixAt(t, RootArrow, |a|);
    assert t[|a|] != RootArrow[|a|];
    Untouched(a + x, a, x);
  }

  lemma {:induction false} AbbreviateTrimsOnce(a: string, x: string)
    requires a == RootStep && x == "/x"
    ensures Abbreviate(a + x) == x
  {
    var v := a + x;
    assert !HasPrefix(v, RootArrow) by {
      assert |v| < |RootArrow|;
    }
    assert v[..|a|] == a;
    assert v[|a|..] == x;
    Untouched(x, a, x);
  }

  /** abbreviate is called idempotent, but a description with a doubled root step changes on a second call. */
  lemma {:induction false} AbbreviateNotIdempotent(t: string)
    requires t == "/self::*[*]/self::*[*]/x"
    ensures Abbreviate(Abbreviate(t)) != Abbreviate(t)
  {
    var a, x := RootStep, "/x";
    assert t == a + a + x;
    AbbreviateTrimsTwice(a, x);
    AbbreviateTrimsOnce(a, x);
    assert |x| != |a + x|;
  }

  /** Abbreviation repeated until it changes nothing: the idempotent version. */
  function AbbreviateFixed(s: string): (r: string)
    ensures Abbreviate(r) == r
    ensures |r| <= |s|
    decreases |s|
  {
    AbbreviateShrinks(s);
    var t := Abbreviate(s);
    if |t| < |s| then AbbreviateFixed(t) else s
  }

  lemma {:induction false} AbbreviateFixedIdempotent(s: string)
    ensures AbbreviateFixed(AbbreviateFixed(s)) == AbbreviateFixed(s)
  {
    var r := AbbreviateFixed(s);
    AbbreviateShrinks(r);
  }

  /** Where one call already reaches a fixed point, the two versions agree. */
  lemma {:induction false} AbbreviateFixedAgrees(s: string)
    requires Abbreviate(Abbreviate(s)) == Abbreviate(s)
    ensures AbbreviateFixed(s) == Abbreviate(s)
  {
    AbbreviateShrinks(s);
    var t := Abbreviate(s);
    if |t| < |s| {
      AbbreviateShrinks(t);
    }
  }

  // ------------------------------------------------------------------- fold

  /** The text fold abbreviates for a rule with actions at the end of path p. */
  function RawDescription(p: seq<FoldRule>, r: FoldRule): string
  {
    PathString(p + [r]) + " -> " + Join(r.actions, ", ")
  }

  /** The description of one rule with actions at the end of path p: one call of abbreviate. */
  function Describe(p: seq<FoldRule>, r: FoldRule): (d: string)
    ensures |d| <= |RawDescription(p, r)|
  {
    AbbreviateShrinks(RawDescription(p, r));
    Abbreviate(RawDescription(p, r))
  }

  /** The description with the idempotent abbreviation: a fixed point of abbreviate. */
  function DescribeIntended(p: seq<FoldRule>, r: FoldRule): (d: string)
    ensures Abbreviate(d) == d
  {
    AbbreviateFixed(RawDescription(p, r))
  }

  /** The two descriptions agree wherever one abbreviate call already reaches a fixed point. */
  lemma {:induction false} DescribeAgrees(p: seq<FoldRule>, r: FoldRule)
    requires Abbreviate(Describe(p, r)) == Describe(p, r)
    ensures DescribeIntended(p, r) == Describe(p, r)
  {
    AbbreviateFixedAgrees(RawDescription(p, r));
  }

  /**
   * folder.fold, as the descriptions it appends: nothing for a rule with
   * neither actions nor child rules; otherwise the rule is pushed, described
   * if it has actions, and its child rules are folded in order.
   */
  function Folded(p: seq<FoldRule>, r: FoldRule): seq<string>
    decreases RuleSize(r), 0
  {
    if r.actions == [] && r.rules == [] then []
    else (if r.actions != [] then [Describe(p, r)] else []) + FoldedAll(p + [r], r.rules)
  }

  function FoldedAll(p: seq<FoldRule>, rs: seq<FoldRule>): seq<string>
    decreases RulesSize(rs), 1
  {
    if rs == [] then [] else FoldedAll(p, rs[..|rs| - 1]) + Folded(p, rs[|rs| - 1])
  }

  /** The number of rules with actions in a rule tree. */
  function WithActions(r: FoldRule): nat
    decreases RuleSize(r), 0
  {
    (if r.actions != [] then 1 else 0) + AllWithActions(r.rules)
  }

  function AllWithActions(rs: seq<FoldRule>): nat
    decreases RulesSize(rs), 1
  {
    if rs == [] then 0 else AllWithActions(rs[..|rs| - 1]) + WithActions(rs[|rs| - 1])
  }

  /** Each rule with actions, anywhere in the tree, gets exactly one description. */
  lemma {:induction false} FoldCount(p: seq<FoldRule>, r: FoldRule)
    ensures |Folded(p, r)| == WithActions(r)
    decreases RuleSize(r), 0
  {
    FoldAllCount(p + [r], r.rules);
  }

  lemma {:induction false} FoldAllCount(p: seq<FoldRule>, rs: seq<FoldRule>)
    ensures |FoldedAll(p, rs)| == AllWithActions(rs)
    decreases RulesSize(rs), 1
  {
    if rs != [] {
      FoldAllCount(p, rs[..|rs| - 1]);
      FoldCount(p, rs[|rs| - 1]);
    }
  }

  /** folder.String: every description followed by a newline. */
  function Lines(ds: seq<string>): string
  {
    if ds == [] then "" else Lines(ds[..|ds| - 1]) + ds[|ds| - 1] + "\n"
  }

  /** The text is the descriptions joined by newlines, with a final newline. */
  lemma {:induction false} LinesJoin(ds: seq<string>)
    ensures ds != [] ==> Lines(ds) == Join(ds, "\n") + "\n"
    decreases |ds|
  {
    if |ds| > 1 {
      var pre := ds[..|ds| - 1];
      LinesJoin(pre);
      JoinSnoc(pre, ds[|ds| - 1], "\n");
      assert pre + [ds[|ds| - 1]] == ds;
    } else if |ds| == 1 {
      assert ds[..0] == [];
    }
  }

  /** One newline per description, when the descriptions hold none. */
  lemma {:induction false} LinesCount(ds: seq<string>)
    requires forall i :: 0 <= i < |ds| ==> '\n' !in ds[i]
    ensures multiset(Lines(ds))['\n'] == |ds|
    decreases |ds|
  {
    if ds != [] {
      var pre := ds[..|ds| - 1];
      assert forall i :: 0 <= i < |pre| ==> pre[i] == ds[i];
      LinesCount(pre);
      var last := ds[|ds| - 1];
      assert '\n' !in last;
      assert multiset(last)['\n'] == 0;
      assert Lines(ds) == Lines(pre) + last + "\n";
      assert multiset(Lines(ds)) == multiset(Lines(pre)) + multiset(last) + multiset("\n");
    }
  }

  lemma {:induction false} JoinSnoc(a: seq<string>, x: string, sep: string)
    requires a != []
    ensures Join(a + [x], sep) == Join(a, sep) + sep + x
    decreases |a|
  {
    if |a| == 1 {
      assert a + [x] == [a[0], x];
      assert [a[0], x][1..] == [x];
    } else {
      assert (a + [x])[1..] == a[1..] + [x];
      JoinSnoc(a[1..], x, sep);
    }
  }

  /** The state of a folder: the rules from the root to the current one, and the descriptions so far. */
  class Describer {
    var current: seq<FoldRule>
    var descriptions: seq<string>

    constructor ()
      ensures current == [] && descriptions == []
    {
      current := [];
      descriptions := [];
    }

    /** path.push */
    method Push(r: FoldRule)
      modifies this
      ensures current == old(current) + [r] && descriptions == old(descriptions)
    {
      current := current + [r];
    }

    /** path.pop: undoes the last push. */
    method Pop()
      requires current != []
      modifies this
      ensures current == old(current)[..|old(current)| - 1] && descriptions == old(descriptions)
      ensures forall p: seq<FoldRule>, r: FoldRule :: old(current) == p + [r] ==> current == p
    {
      current := current[..|current| - 1];
      forall p: seq<FoldRule>, r: FoldRule | old(current) == p + [r] ensures current == p {
        assert old(current)[..|p|] == p;
      }
    }

    /** folder.fold: appends the descriptions of r and its child rules, and leaves the path as it was. */
    method Fold(r: FoldRule)
      modifies this
      ensures current == old(current)
      ensures descriptions == old(descriptions) + Folded(old(current), r)
      decreases RuleSize(r), 0
    {
      if r.actions == [] && r.rules == [] {
        assert descriptions + [] == descriptions;
        return;
      }
      var p := current;
      Push(r);
      if r.actions != [] {
        var s := PathString(current) + " -> " + Join(r.actions, ", ");
        descriptions := descriptions + [Abbreviate(s)];
      }
      FoldChildren(r.rules);
      Pop();
      assert current == p;
      Nodes.Assoc(old(descriptions), if r.actions != [] then [Describe(p, r)] else [], FoldedAll(p + [r], r.rules));
    }

    /** The loop over the child rules of fold. */
    method FoldChildren(rs: seq<FoldRule>)
      modifies this
      ensures current == old(current)
      ensures descriptions == old(descriptions) + FoldedAll(old(current), rs)
      decreases RulesSize(rs), 1
    {
      for i := 0 to |rs|
        invariant current == old(current)
        invariant descriptions == old(descriptions) + FoldedAll(current, rs[..i])
      {
        assert rs[..i + 1][..i] == rs[..i];
        RulesSizePrefix(rs, i + 1);
        Fold(rs[i]);
        Nodes.Assoc(old(descriptions), FoldedAll(current, rs[..i]), Folded(current, rs[i]));
      }
      assert rs[..|rs|] == rs;
    }

    /** folder.String */
    function Text(): string
      reads this
    {
      Lines(descriptions)
    }
  }

  lemma {:induction false} RulesSizePrefix(rs: seq<FoldRule>, k: nat)
    requires 0 < k <= |rs|
    ensures RuleSize(rs[k - 1]) <= RulesSize(rs[..k]) <= RulesSize(rs)
    decreases |rs|
  {
    assert rs[..k][..k - 1] == rs[..k - 1];
    if k < |rs| {
      RulesSizePrefix(rs[..|rs| - 1], k);
      assert rs[..|rs| - 1][..k] == rs[..k];
    } else {
      assert rs[..k] == rs;
    }
  }
}
