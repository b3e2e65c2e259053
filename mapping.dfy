// Mapping: a list of steps, each an operation; Do rewrites a tree with
// Apply, checking every node against one step and constructing the next.
module TransformerMapping {
  import opened Wrappers
  import opened Nodes
  import opened TransformerState
  import opened Ops
  import Strings
  import UastNode
  import OpsProps

  datatype Step = Step(name: string, op: Op)

  datatype Mapping = Mapping(name: string, steps: seq<Step>)

  /** Map: the two-step mapping from src to dst. */
  function Map(name: string, src: Op, dst: Op): (m: Mapping)
    ensures |m.steps| == 2 && m.steps[0].op == src && m.steps[1].op == dst
  {
    Mapping(name, [Step("src", src), Step("dst", dst)])
  }

  /** The steps in the opposite order. */
  function Reversed(s: seq<Step>): (r: seq<Step>)
  {
    seq(|s|, i requires 0 <= i < |s| => s[|s| - 1 - i])
  }

  /** Reversing twice gives the original steps back. */
  lemma {:induction false} ReversedTwice(s: seq<Step>)
    ensures Reversed(Reversed(s)) == s
  {
    var r := Reversed(s);
    assert forall i | 0 <= i < |s| :: Reversed(r)[i] == r[|s| - 1 - i] == s[i];
  }

  /** Mapping.Reverse: a new step list filled from the back; the name is kept. */
  method Reverse(m: Mapping) returns (r: Mapping)
    ensures r == Mapping(m.name, Reversed(m.steps))
  {
    var n := |m.steps|;
    // every slot of this placeholder is overwritten below
    var steps := m.steps;
    for i := 0 to n
      invariant |steps| == n
      invariant forall j :: 0 <= j < i ==> steps[n - 1 - j] == m.steps[j]
    {
      steps := steps[n - 1 - i := m.steps[i]];
    }
    assert forall k | 0 <= k < n :: steps[k] == steps[n - 1 - (n - 1 - k)];
    r := Mapping(m.name, steps);
  }

  // ------------------------------------------------------------- applyMap

  /**
   * The callback applyMap gives Apply: check the node against src in a new
   * state and construct dst from it. The third component is the error the
   * callback records; on any failure the node is kept and not marked changed.
   */
  function MapNode(src: Op, dst: Op, x: Node): (r: (Node, bool, Option<Err>))
    ensures !r.1 ==> r.0 == x
    ensures r.2.Some? ==> !r.1
    ensures r.1 <==> Check(src, Empty, x).ok && Check(src, Empty, x).err.None? && Construct(dst, Check(src, Empty, x).st, Null).Ok?
  {
    var c := Check(src, Empty, x);
    if c.err.Some? then (x, false, c.err)
    else if !c.ok then (x, false, None)
    else match Construct(dst, c.st, Null)
      case Err(e) => (x, false, Some(e))
      case Ok(nn) => (nn, true, None)
  }

  function Callback(src: Op, dst: Op): Node -> (Node, bool)
  {
    x => (MapNode(src, dst, x).0, MapNode(src, dst, x).1)
  }

  /** The callback invocations of Apply in order: children first, keys sorted, then the node. */
  ghost function CallOrder(root: Node, f: Node -> (Node, bool)): seq<Node>
    decreases root, 2, 0
  {
    if root == Null then [] else KidOrder(root, f) + [UastNode.Rebuild(root, f).0]
  }

  ghost function KidOrder(root: Node, f: Node -> (Node, bool)): seq<Node>
    decreases root, 1, 0
  {
    match root
    case Obj(m) => KeysOrder(m, Strings.SortedKeys(m.Keys), f)
    case Arr(s) => SeqOrder(s, f)
    case _ => []
  }

  ghost function KeysOrder(m: map<string, Node>, keys: seq<string>, f: Node -> (Node, bool)): seq<Node>
    decreases Obj(m), 0, |keys|
  {
    if keys == [] then []
    else (if keys[0] in m then CallOrder(m[keys[0]], f) else []) + KeysOrder(m, keys[1..], f)
  }

  ghost function SeqOrder(s: seq<Node>, f: Node -> (Node, bool)): seq<Node>
    decreases s
  {
    if s == [] then [] else CallOrder(s[0], f) + SeqOrder(s[1..], f)
  }

  /** The ordered calls are exactly the calls Apply makes. */
  lemma {:induction false} CallOrderCalls(root: Node, f: Node -> (Node, bool))
    ensures multiset(CallOrder(root, f)) == UastNode.Calls(root, f)
    decreases root, 2, 0
  {
    if root != Null {
      KidOrderCalls(root, f);
    }
  }

  lemma {:induction false} KidOrderCalls(root: Node, f: Node -> (Node, bool))
    ensures multiset(KidOrder(root, f)) == UastNode.KidCalls(root, f)
    decreases root, 1, 0
  {
    match root
    case Obj(m) => KeysOrderCalls(m, Strings.SortedKeys(m.Keys), f);
    case Arr(s) => SeqOrderCalls(s, f);
    case _ =>
  }

  lemma {:induction false} KeysOrderCalls(m: map<string, Node>, keys: seq<string>, f: Node -> (Node, bool))
    ensures multiset(KeysOrder(m, keys, f)) == UastNode.CallsKeys(m, keys, f)
    decreases Obj(m), 0, |keys|
  {
    if keys != [] {
      if keys[0] in m {
        CallOrderCalls(m[keys[0]], f);
      }
      KeysOrderCalls(m, keys[1..], f);
    }
  }

  lemma {:induction false} SeqOrderCalls(s: seq<Node>, f: Node -> (Node, bool))
    ensures multiset(SeqOrder(s, f)) == UastNode.CallsSeq(s, f)
    decreases s
  {
    if s != [] {
      CallOrderCalls(s[0], f);
      SeqOrderCalls(s[1..], f);
    }
  }

  /** The first error recorded along the calls. */
  function FirstErr(src: Op, dst: Op, calls: seq<Node>): (r: Option<Err>)
  {
    FirstSome(x => MapNode(src, dst, x).2, calls)
  }

  /** The first Some that err gives along s. */
  function FirstSome<T, E>(err: T -> Option<E>, s: seq<T>): (r: Option<E>)
  {
    if s == [] then None
    else if err(s[0]).Some? then err(s[0])
    else FirstSome(err, s[1..])
  }

  /** FirstSome is None exactly when err gives None everywhere, and otherwise the error of the earliest element. */
  lemma {:induction false} FirstSomeSpec<T, E>(err: T -> Option<E>, s: seq<T>)
    ensures FirstSome(err, s).None? <==> forall x | x in s :: err(x).None?
    ensures FirstSome(err, s).Some? ==>
      exists i :: 0 <= i < |s| && FirstSome(err, s) == err(s[i]) && forall j :: 0 <= j < i ==> err(s[j]).None?
  {
    if s != [] {
      FirstSomeSpec(err, s[1..]);
      if err(s[0]).None? && FirstSome(err, s).Some? {
        var i :| 0 <= i < |s[1..]| && FirstSome(err, s[1..]) == err(s[1..][i]) &&
          forall j :: 0 <= j < i ==> err(s[1..][j]).None?;
        assert s[1..][i] == s[i + 1];
        assert forall j :: 0 <= j < i + 1 ==> err(s[j]).None? by {
          forall j | 0 <= j < i + 1 ensures err(s[j]).None? {
            if j > 0 { assert s[j] == s[1..][j - 1]; }
          }
        }
      }
      assert forall x | x in s[1..] :: x in s;
    }
  }

  /**
   * applyMap: Apply with the callback; the rewritten tree when something
   * changed, else the original, and the first recorded error.
   */
  ghost function ApplyMap(src: Op, dst: Op, n: Node): (r: (Node, Option<Err>))
  {
    var f := Callback(src, dst);
    var (nn, ok) := UastNode.Apply(n, f);
    (if ok then nn else n, FirstErr(src, dst, CallOrder(n, f)))
  }

  /** applyMap reports an error exactly when some callback invocation of Apply recorded one. */
  lemma {:induction false} ApplyMapError(src: Op, dst: Op, n: Node)
    ensures ApplyMap(src, dst, n).1.None? <==> forall x | x in UastNode.Calls(n, Callback(src, dst)) :: MapNode(src, dst, x).2.None?
  {
    var f := Callback(src, dst);
    var calls := CallOrder(n, f);
    CallOrderCalls(n, f);
    FirstSomeSpec(x => MapNode(src, dst, x).2, calls);
    SameElements(calls, UastNode.Calls(n, f));
    assert ApplyMap(src, dst, n).1 == FirstSome(x => MapNode(src, dst, x).2, calls);
  }

  lemma {:induction false} SameElements<T>(s: seq<T>, m: multiset<T>)
    requires multiset(s) == m
    ensures forall x :: x in s <==> x in m
  {
    assert forall x :: x in s <==> x in multiset(s);
  }

  /** When no node matches src, applyMap leaves the tree as it is. */
  lemma {:induction false} ApplyMapNoMatch(src: Op, dst: Op, n: Node)
    requires forall x :: !Check(src, Empty, x).ok
    ensures ApplyMap(src, dst, n).0 == n
  {
    var f := Callback(src, dst);
    if n != Null {
      UastNode.ApplyChanged(n, f);
    }
  }

  /**
   * A one-op mapping with a reversible op rebuilds every node it matches
   * as the same node: Check records what Construct needs.
   */
  lemma {:induction false} MapNodeIdentity(op: Op, x: Node, toks: set<(string, string)>)
    requires OpsProps.Reversible(op) && OpsProps.Covers(op, toks) && OpsProps.Fits(x, toks)
    requires Check(op, Empty, x).ok
    ensures MapNode(op, op, x) == (x, true, None)
  {
    OpsProps.CheckThenConstruct(op, Empty, x, Check(op, Empty, x).st, toks);
  }

  // ------------------------------------------------------------------- Do

  /** The loop of Do: every consecutive pair of steps, stopping at the first error. */
  ghost function DoSteps(steps: seq<Step>, n: Node): (r: (Node, Option<Err>))
    decreases |steps|
  {
    if |steps| < 2 then (n, None)
    else
      var (nn, err) := ApplyMap(steps[0].op, steps[1].op, n);
      if err.Some? then (nn, err) else DoSteps(steps[1..], nn)
  }

  /** Mapping.Do: fewer than two steps is ErrFewSteps, with the node returned unchanged. */
  ghost function Do(m: Mapping, n: Node): (r: (Node, Option<Err>))
    ensures |m.steps| <= 1 ==> r == (n, Some(FewSteps))
    ensures |m.steps| >= 2 ==> r == DoSteps(m.steps, n)
  {
    if |m.steps| <= 1 then (n, Some(FewSteps)) else DoSteps(m.steps, n)
  }

  /** Do of a two-step mapping is one applyMap. */
  lemma {:induction false} DoMap(name: string, src: Op, dst: Op, n: Node)
    ensures Do(Map(name, src, dst), n) == ApplyMap(src, dst, n)
  {
    var m := Map(name, src, dst);
    var r := ApplyMap(src, dst, n);
    assert Do(m, n) == DoSteps(m.steps, n);
    assert DoSteps(m.steps[1..], r.0) == (r.0, None);
  }
}
