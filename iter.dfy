// Tree iterators of the nodes package (uast/nodes/iter.go): pre-order,
// post-order, level-order and the children order, each proved against a
// reference traversal of the tree.
module NodeIter {
  import opened Nodes
  import opened Wrappers
  import Strings

  // ------------------------------------------------- reference traversals

  /** Depth-first pre-order: a node, then its children's subtrees left to right. */
  ghost function PreOrder(n: Node): seq<Node>
    decreases Size(n), 0
  {
    if n == Null then []
    else
      KidsSmaller(n);
      [n] + PreForest(Kids(n))
  }

  ghost function PreForest(s: seq<Node>): seq<Node>
    decreases SizeSeq(s), 1
  {
    if s == [] then [] else PreOrder(s[0]) + PreForest(s[1..])
  }

  /** Depth-first post-order: the children's subtrees left to right, then the node. */
  ghost function PostOrder(n: Node): seq<Node>
    decreases Size(n), 0
  {
    if n == Null then []
    else
      KidsSmaller(n);
      PostForest(Kids(n)) + [n]
  }

  ghost function PostForest(s: seq<Node>): seq<Node>
    decreases SizeSeq(s), 1
  {
    if s == [] then [] else PostOrder(s[0]) + PostForest(s[1..])
  }

  /** The next level of a breadth-first walk: all children of the level, in order. */
  ghost function NextLevel(level: seq<Node>): (r: seq<Node>)
    ensures SizeSeq(r) <= SizeSeq(level) - |level|
    decreases |level|
  {
    if level == [] then []
    else
      KidsSmaller(level[0]);
      SizeSeqAppend(Kids(level[0]), NextLevel(level[1..]));
      Kids(level[0]) + NextLevel(level[1..])
  }

  /** Breadth-first order: a whole level, then the walk from the next level. */
  ghost function Bfs(level: seq<Node>): seq<Node>
    decreases SizeSeq(level)
  {
    if level == [] then []
    else
      SizeSeqUpper(level);
      level + Bfs(NextLevel(level))
  }

  /** addUnfoldingArrays: arrays are flattened, objects kept, values dropped. */
  ghost function Unfold(n: Node): seq<Node>
    decreases Size(n), 0
  {
    match n
    case Arr(s) => UnfoldAll(s)
    case Obj(_) => [n]
    case _ => []
  }

  ghost function UnfoldAll(s: seq<Node>): seq<Node>
    decreases SizeSeq(s), 1
  {
    if s == [] then []
    else if s[0] == Null then UnfoldAll(s[1..])
    else Unfold(s[0]) + UnfoldAll(s[1..])
  }

  /** What the children iterator lists. */
  ghost function ChildrenList(n: Node): seq<Node>
  {
    UnfoldAll(Kids(n))
  }

  // ---------------------------------------------------- traversal facts

  lemma {:induction false} PreForestAppend(a: seq<Node>, b: seq<Node>)
    ensures PreForest(a + b) == PreForest(a) + PreForest(b)
    decreases |a|
  {
    if a == [] {
      assert a + b == b;
    } else {
      assert (a + b)[0] == a[0] && (a + b)[1..] == a[1..] + b;
      PreForestAppend(a[1..], b);
    }
  }

  lemma {:induction false} PostForestAppend(a: seq<Node>, b: seq<Node>)
    ensures PostForest(a + b) == PostForest(a) + PostForest(b)
    decreases |a|
  {
    if a == [] {
      assert a + b == b;
    } else {
      assert (a + b)[0] == a[0] && (a + b)[1..] == a[1..] + b;
      PostForestAppend(a[1..], b);
    }
  }

  lemma {:induction false} UnfoldAllAppend(a: seq<Node>, b: seq<Node>)
    ensures UnfoldAll(a + b) == UnfoldAll(a) + UnfoldAll(b)
    decreases |a|
  {
    if a == [] {
      assert a + b == b;
    } else {
      assert (a + b)[0] == a[0] && (a + b)[1..] == a[1..] + b;
      UnfoldAllAppend(a[1..], b);
    }
  }

  /** Nil children are never yielded by the pre-order walk. */
  lemma {:induction false} PreOrderNoNull(n: Node)
    ensures Null !in PreOrder(n)
    decreases Size(n), 0
  {
    if n != Null {
      KidsSmaller(n);
      PreForestNoNull(Kids(n));
    }
  }

  lemma {:induction false} PreForestNoNull(s: seq<Node>)
    ensures Null !in PreForest(s)
    decreases SizeSeq(s), 1
  {
    if s != [] {
      PreOrderNoNull(s[0]);
      PreForestNoNull(s[1..]);
    }
  }

  /** p[i] is followed in p by the rest of its own pre-order subtree. */
  ghost predicate PreBlock(p: seq<Node>, i: int)
    requires 0 <= i < |p|
  {
    StartsBlock(p, i, PreOrder)
  }

  /** p[i] is preceded in p by the rest of its own post-order subtree. */
  ghost predicate PostBlock(p: seq<Node>, i: int)
    requires 0 <= i < |p|
  {
    EndsBlock(p, i, PostOrder)
  }

  /** p[i] starts a run of p equal to f(p[i]). */
  ghost predicate StartsBlock<T>(p: seq<T>, i: int, f: T -> seq<T>)
    requires 0 <= i < |p|
  {
    var px := f(p[i]);
    i + |px| <= |p| && p[i..i + |px|] == px
  }

  /** p[i] ends a run of p equal to f(p[i]). */
  ghost predicate EndsBlock<T>(p: seq<T>, i: int, f: T -> seq<T>)
    requires 0 <= i < |p|
  {
    var px := f(p[i]);
    |px| <= i + 1 && p[i + 1 - |px|..i + 1] == px
  }

  lemma {:induction false} PreBlockLeft(h: seq<Node>, t: seq<Node>, i: int)
    requires 0 <= i < |h| && PreBlock(h, i)
    ensures PreBlock(h + t, i)
  {
    StartsLeft(h, t, i, PreOrder);
  }

  lemma {:induction false} PreBlockRight(h: seq<Node>, t: seq<Node>, k: int)
    requires |h| <= k < |h| + |t| && PreBlock(t, k - |h|)
    ensures PreBlock(h + t, k)
  {
    StartsRight(h, t, k, PreOrder);
  }

  lemma {:induction false} PostBlockLeft(h: seq<Node>, t: seq<Node>, i: int)
    requires 0 <= i < |h| && PostBlock(h, i)
    ensures PostBlock(h + t, i)
  {
    EndsLeft(h, t, i, PostOrder);
  }

  lemma {:induction false} PostBlockRight(h: seq<Node>, t: seq<Node>, k: int)
    requires |h| <= k < |h| + |t| && PostBlock(t, k - |h|)
    ensures PostBlock(h + t, k)
  {
    EndsRight(h, t, k, PostOrder);
  }

  // The four block lemmas above for any f: a block starting (or ending) at
  // position i of h, or of t, sits at the same place in h + t.

  lemma {:induction false} StartsLeft<T>(h: seq<T>, t: seq<T>, i: int, f: T -> seq<T>)
    requires 0 <= i < |h| && StartsBlock(h, i, f)
    ensures StartsBlock(h + t, i, f)
  {
    assert (h + t)[i] == h[i];
    SliceLeft(h, t, i, i + |f(h[i])|);
  }

  lemma {:induction false} StartsRight<T>(h: seq<T>, t: seq<T>, k: int, f: T -> seq<T>)
    requires |h| <= k < |h| + |t| && StartsBlock(t, k - |h|, f)
    ensures StartsBlock(h + t, k, f)
  {
    var i := k - |h|;
    assert (h + t)[k] == t[i];
    SliceRight(h, t, i, i + |f(t[i])|);
  }

  lemma {:induction false} EndsLeft<T>(h: seq<T>, t: seq<T>, i: int, f: T -> seq<T>)
    requires 0 <= i < |h| && EndsBlock(h, i, f)
    ensures EndsBlock(h + t, i, f)
  {
    assert (h + t)[i] == h[i];
    SliceLeft(h, t, i + 1 - |f(h[i])|, i + 1);
  }

  lemma {:induction false} EndsRight<T>(h: seq<T>, t: seq<T>, k: int, f: T -> seq<T>)
    requires |h| <= k < |h| + |t| && EndsBlock(t, k - |h|, f)
    ensures EndsBlock(h + t, k, f)
  {
    var i := k - |h|;
    assert (h + t)[k] == t[i];
    SliceRight(h, t, i + 1 - |f(t[i])|, i + 1);
  }

  lemma {:induction false} SliceLeft<T>(h: seq<T>, t: seq<T>, a: int, b: int)
    requires 0 <= a <= b <= |h|
    ensures (h + t)[a..b] == h[a..b]
  {
  }

  lemma {:induction false} SliceRight<T>(h: seq<T>, t: seq<T>, a: int, b: int)
    requires 0 <= a <= b <= |t|
    ensures (h + t)[|h| + a..|h| + b] == t[a..b]
  {
  }

  /**
   * In pre-order every node comes first in its own subtree, and the subtree
   * is listed contiguously after it: a parent precedes all its descendants.
   */
  lemma {:induction false} PreOrderSubtree(n: Node, i: int)
    requires 0 <= i < |PreOrder(n)|
    ensures PreBlock(PreOrder(n), i)
    decreases Size(n), 0
  {
    KidsSmaller(n);
    var f := PreForest(Kids(n));
    assert PreOrder(n) == [n] + f;
    if i > 0 {
      PreForestSubtree(Kids(n), i - 1);
      PreBlockRight([n], f, i);
    } else {
      assert PreOrder(n)[0] == n;
    }
  }

  lemma {:induction false} PreForestSubtree(s: seq<Node>, i: int)
    requires 0 <= i < |PreForest(s)|
    ensures PreBlock(PreForest(s), i)
    decreases SizeSeq(s), 1
  {
    var h := PreOrder(s[0]);
    var t := PreForest(s[1..]);
    assert PreForest(s) == h + t;
    if i < |h| {
      PreOrderSubtree(s[0], i);
      PreBlockLeft(h, t, i);
    } else {
      PreForestSubtree(s[1..], i - |h|);
      PreBlockRight(h, t, i);
    }
  }

  /**
   * In post-order every node comes last in its own subtree, and the subtree
   * is listed contiguously before it: every child precedes its parent.
   */
  lemma {:induction false} PostOrderSubtree(n: Node, i: int)
    requires 0 <= i < |PostOrder(n)|
    ensures PostBlock(PostOrder(n), i)
    decreases Size(n), 0
  {
    KidsSmaller(n);
    var f := PostForest(Kids(n));
    assert PostOrder(n) == f + [n];
    if i < |f| {
      PostForestSubtree(Kids(n), i);
      PostBlockLeft(f, [n], i);
    } else {
      var p := PostOrder(n);
      assert p[i] == n;
      assert p[i + 1 - |p|..i + 1] == p;
    }
  }

  lemma {:induction false} PostForestSubtree(s: seq<Node>, i: int)
    requires 0 <= i < |PostForest(s)|
    ensures PostBlock(PostForest(s), i)
    decreases SizeSeq(s), 1
  {
    var h := PostOrder(s[0]);
    var t := PostForest(s[1..]);
    assert PostForest(s) == h + t;
    if i < |h| {
      PostOrderSubtree(s[0], i);
      PostBlockLeft(h, t, i);
    } else {
      SizeSeqTail(s);
      PostForestTail(s[1..], h, t, i);
    }
  }

  /** A node of h + t that lies in t, the post-order walk of the forest rest, keeps its subtree block. */
  lemma {:induction false} PostForestTail(rest: seq<Node>, h: seq<Node>, t: seq<Node>, j: int)
    requires t == PostForest(rest) && |h| <= j < |h| + |t|
    ensures PostBlock(h + t, j)
    decreases SizeSeq(rest), 2
  {
    PostForestSubtree(rest, j - |h|);
    PostBlockRight(h, t, j);
  }

  /** Post-order lists the same nodes as pre-order, with the same multiplicities. */
  lemma {:induction false} PostOrderPermutesPreOrder(n: Node)
    ensures multiset(PostOrder(n)) == multiset(PreOrder(n))
    decreases Size(n), 0
  {
    if n != Null {
      KidsSmaller(n);
      PostForestPermutesPreForest(Kids(n));
    }
  }

  lemma {:induction false} PostForestPermutesPreForest(s: seq<Node>)
    ensures multiset(PostForest(s)) == multiset(PreForest(s))
    decreases SizeSeq(s), 1
  {
    if s != [] {
      PostOrderPermutesPreOrder(s[0]);
      PostForestPermutesPreForest(s[1..]);
    }
  }

  lemma {:induction false} PreForestLevel(level: seq<Node>)
    requires Null !in level
    ensures multiset(PreForest(level)) == multiset(level) + multiset(PreForest(NextLevel(level)))
    decreases |level|
  {
    if level != [] {
      PreForestLevel(level[1..]);
      PreForestLevelStep(level);
    }
  }

  lemma {:induction false} PreForestLevelStep(level: seq<Node>)
    requires level != [] && level[0] != Null
    requires multiset(PreForest(level[1..])) == multiset(level[1..]) + multiset(PreForest(NextLevel(level[1..])))
    ensures multiset(PreForest(level)) == multiset(level) + multiset(PreForest(NextLevel(level)))
  {
    var x, rest := level[0], level[1..];
    KidsSmaller(x);
    var a, b, c := PreForest(Kids(x)), PreForest(rest), PreForest(NextLevel(rest));
    assert PreForest(level) == [x] + a + b;
    assert NextLevel(level) == Kids(x) + NextLevel(rest);
    PreForestAppend(Kids(x), NextLevel(rest));
    MultisetLevelStep(level, x, rest, a, b, c, PreForest(level), PreForest(NextLevel(level)));
  }

  /** The multiset arithmetic of one step of PreForestLevel, on plain sequences. */
  lemma {:induction false} MultisetLevelStep<T>(level: seq<T>, x: T, rest: seq<T>, a: seq<T>, b: seq<T>, c: seq<T>, pl: seq<T>, pn: seq<T>)
    requires level != [] && x == level[0] && rest == level[1..]
    requires pl == [x] + a + b && pn == a + c
    requires multiset(b) == multiset(rest) + multiset(c)
    ensures multiset(pl) == multiset(level) + multiset(pn)
  {
    assert level == [x] + rest;
    calc {
      multiset(pl);
      multiset([x] + a) + multiset(b);
      multiset([x]) + multiset(a) + multiset(rest) + multiset(c);
      multiset([x] + rest) + multiset(a + c);
    }
  }

  /** Level order lists exactly the nodes of the pre-order walk of the same roots. */
  lemma {:induction false} BfsPermutesPreForest(level: seq<Node>)
    requires Null !in level
    ensures multiset(Bfs(level)) == multiset(PreForest(level))
    decreases SizeSeq(level)
  {
    if level != [] {
      SizeSeqUpper(level);
      NextLevelNoNull(level);
      BfsPermutesPreForest(NextLevel(level));
      PreForestLevel(level);
    }
  }

  lemma {:induction false} NextLevelNoNull(level: seq<Node>)
    ensures Null !in NextLevel(level)
    decreases |level|
  {
    if level != [] {
      NextLevelNoNull(level[1..]);
      KidsNoNull(level[0]);
    }
  }

  /** The children order yields only objects. */
  lemma {:induction false} UnfoldObjects(n: Node, i: int)
    requires 0 <= i < |Unfold(n)|
    ensures Unfold(n)[i].Obj?
    decreases Size(n), 0
  {
    match n
    case Arr(s) =>
      assert Size(n) == 1 + SizeSeq(s);
      UnfoldAllObjects(s, i);
    case Obj(_) =>
  }

  lemma {:induction false} UnfoldAllObjects(s: seq<Node>, i: int)
    requires 0 <= i < |UnfoldAll(s)|
    ensures UnfoldAll(s)[i].Obj?
    decreases SizeSeq(s), 1
  {
    if s[0] == Null {
      UnfoldAllObjects(s[1..], i);
    } else {
      var h := Unfold(s[0]);
      if i < |h| { UnfoldObjects(s[0], i); } else { UnfoldAllObjects(s[1..], i - |h|); }
    }
  }

  // -------------------------------------------------- child enumeration

  lemma {:induction false} NonNullValuesSnoc(m: map<string, Node>, keys: seq<string>, k: string)
    ensures NonNullValues(m, keys + [k])
      == NonNullValues(m, keys) + (if k !in m || m[k] == Null then [] else [m[k]])
    decreases |keys|
  {
    if keys == [] {
      assert keys + [k] == [k];
    } else {
      assert (keys + [k])[1..] == keys[1..] + [k];
      NonNullValuesSnoc(m, keys[1..], k);
    }
  }

  lemma {:induction false} NonNullValuesPrefix(m: map<string, Node>, keys: seq<string>, i: int)
    requires 0 <= i < |keys|
    ensures NonNullValues(m, keys[..i + 1])
      == NonNullValues(m, keys[..i]) + (if keys[i] !in m || m[keys[i]] == Null then [] else [m[keys[i]]])
  {
    assert keys[..i + 1] == keys[..i] + [keys[i]];
    NonNullValuesSnoc(m, keys[..i], keys[i]);
  }

  lemma {:induction false} NonNullSnoc(s: seq<Node>, x: Node)
    ensures NonNull(s + [x]) == NonNull(s) + (if x == Null then [] else [x])
    decreases |s|
  {
    if s == [] {
      assert s + [x] == [x];
    } else {
      assert (s + [x])[1..] == s[1..] + [x];
      NonNullSnoc(s[1..], x);
    }
  }

  /** eachChild on an object: the non-null values in sorted key order. */
  method ObjectChildren(m: map<string, Node>) returns (kids: seq<Node>)
    ensures kids == NonNullValues(m, Strings.SortedKeys(m.Keys))
  {
    var keys := Strings.SortedKeysOf(m);
    kids := [];
    var i := 0;
    while i < |keys|
      invariant 0 <= i <= |keys|
      invariant kids == NonNullValues(m, keys[..i])
    {
      assert keys[i] in keys;
      var v := m[keys[i]];
      if v != Null { kids := kids + [v]; }
      NonNullValuesPrefix(m, keys, i);
      i := i + 1;
    }
    assert keys[..|keys|] == keys;
  }

  /** eachChild on an array: the non-null elements in index order. */
  method ArrayChildren(s: seq<Node>) returns (kids: seq<Node>)
    ensures kids == NonNull(s)
  {
    kids := [];
    var i := 0;
    while i < |s|
      invariant 0 <= i <= |s|
      invariant kids == NonNull(s[..i])
    {
      if s[i] != Null { kids := kids + [s[i]]; }
      NonNullSnoc(s[..i], s[i]);
      assert s[..i + 1] == s[..i] + [s[i]];
      i := i + 1;
    }
    assert s[..|s|] == s;
  }

  /** eachChild: the non-null children, object keys in sorted order. */
  method EachChild(n: Node) returns (kids: seq<Node>)
    ensures kids == Kids(n)
  {
    match n {
      case Obj(m) => kids := ObjectChildren(m);
      case Arr(s) => kids := ArrayChildren(s);
      case _ => kids := [];
    }
  }

  /** eachChildRev on an object: the non-null values, last key first. */
  method ObjectChildrenRev(m: map<string, Node>) returns (kids: seq<Node>)
    ensures kids == Reverse(NonNullValues(m, Strings.SortedKeys(m.Keys)))
  {
    var keys := Strings.SortedKeysOf(m);
    kids := [];
    var i := |keys|;
    while i > 0
      invariant 0 <= i <= |keys|
      invariant kids == Reverse(NonNullValues(m, keys[i..]))
    {
      i := i - 1;
      var v := m[keys[i]];
      assert keys[i..][0] == keys[i] && keys[i..][1..] == keys[i + 1..];
      if v != Null {
        var rest := NonNullValues(m, keys[i + 1..]);
        assert ([v] + rest)[1..] == rest;
        kids := kids + [v];
      }
    }
  }

  /** eachChildRev on an array: the non-null elements, last index first. */
  method ArrayChildrenRev(s: seq<Node>) returns (kids: seq<Node>)
    ensures kids == Reverse(NonNull(s))
  {
    kids := [];
    var i := |s|;
    while i > 0
      invariant 0 <= i <= |s|
      invariant kids == Reverse(NonNull(s[i..]))
    {
      i := i - 1;
      assert s[i..][0] == s[i] && s[i..][1..] == s[i + 1..];
      if s[i] != Null {
        var rest := NonNull(s[i + 1..]);
        assert ([s[i]] + rest)[1..] == rest;
        kids := kids + [s[i]];
      }
    }
  }

  /** eachChildRev: the same children as eachChild, last to first. */
  method EachChildRev(n: Node) returns (kids: seq<Node>)
    ensures kids == Reverse(Kids(n))
  {
    match n {
      case Obj(m) => kids := ObjectChildrenRev(m);
      case Arr(s) => kids := ArrayChildrenRev(s);
      case _ => kids := [];
    }
  }

  lemma {:induction false} ReverseAppend<T>(a: seq<T>, b: seq<T>)
    ensures Reverse(a + b) == Reverse(b) + Reverse(a)
    decreases |a|
  {
    if a == [] {
      assert a + b == b;
    } else {
      assert (a + b)[0] == a[0] && (a + b)[1..] == a[1..] + b;
      ReverseAppend(a[1..], b);
    }
  }

  lemma {:induction false} ReverseReverse<T>(a: seq<T>)
    ensures Reverse(Reverse(a)) == a
    decreases |a|
  {
    if a != [] {
      ReverseAppend(Reverse(a[1..]), [a[0]]);
      ReverseReverse(a[1..]);
      assert Reverse([a[0]]) == [a[0]];
      assert a == [a[0]] + a[1..];
    }
  }

  // ----------------------------------------------------------- pre-order

  lemma {:induction false} NoNullReverse(s: seq<Node>)
    requires Null !in s
    ensures Null !in Reverse(s)
  {
    ReverseMultiset(s);
    assert Null !in multiset(s);
  }

  lemma {:induction false} ReverseMultiset<T>(s: seq<T>)
    ensures multiset(Reverse(s)) == multiset(s)
    decreases |s|
  {
    if s != [] {
      ReverseMultiset(s[1..]);
      assert s == [s[0]] + s[1..];
    }
  }

  lemma {:induction false} NoNullPrefix(s: seq<Node>, k: int)
    requires Null !in s && 0 <= k <= |s|
    ensures Null !in s[..k]
  {
    assert s == s[..k] + s[k..];
  }

  lemma {:induction false} ReverseSnoc<T>(s: seq<T>, x: T)
    ensures Reverse(s + [x]) == [x] + Reverse(s)
  {
    ReverseAppend(s, [x]);
    assert Reverse([x]) == [x];
  }

  /** Pushing the reversed children of cur puts their subtrees first in the stack's walk. */
  lemma {:induction false} PrePush(cur: Node, q: seq<Node>)
    ensures PreForest(Reverse(q + Reverse(Kids(cur)))) == PreForest(Kids(cur)) + PreForest(Reverse(q))
  {
    ReverseAppend(q, Reverse(Kids(cur)));
    ReverseReverse(Kids(cur));
    PreForestAppend(Kids(cur), Reverse(q));
  }

  lemma {:induction false} PreForestCons(x: Node, r: seq<Node>)
    ensures PreForest([x] + r) == PreOrder(x) + PreForest(r)
  {
    assert ([x] + r)[0] == x && ([x] + r)[1..] == r;
  }

  lemma {:induction false} PreOrderUnfold(x: Node)
    requires x != Null
    ensures PreOrder(x) == [x] + PreForest(Kids(x))
  {
  }

  /** Popping the top of the stack yields it, then its subtree, then the rest of the stack. */
  lemma {:induction false} PrePop(q: seq<Node>)
    requires q != [] && q[|q| - 1] != Null
    ensures var x := q[|q| - 1];
      PreForest(Reverse(q)) == [x] + PreForest(Kids(x)) + PreForest(Reverse(q[..|q| - 1]))
  {
    var x := q[|q| - 1];
    assert q == q[..|q| - 1] + [x];
    ReverseSnoc(q[..|q| - 1], x);
    PreForestCons(x, Reverse(q[..|q| - 1]));
    PreOrderUnfold(x);
  }

  lemma {:induction false} ConsParts<T>(x: T, a: seq<T>, b: seq<T>)
    ensures ([x] + a + b)[0] == x && ([x] + a + b)[1..] == a + b
  {
  }

  /**
   * One step of the pre-order iterator: after the children of cur are pushed
   * in reverse, the top of the stack is the next node of the walk and the
   * popped stack lists the rest.
   */
  lemma {:induction false} PreStep(cur: Node, q: seq<Node>)
    requires Null !in q
    ensures var q2 := q + Reverse(Kids(cur));
      var r0 := PreForest(Kids(cur)) + PreForest(Reverse(q));
      Null !in q2
      && (q2 == [] ==> r0 == [])
      && (q2 != [] ==>
            r0 != [] && r0[0] == q2[|q2| - 1] && Null !in q2[..|q2| - 1]
            && r0[1..] == PreForest(Kids(q2[|q2| - 1])) + PreForest(Reverse(q2[..|q2| - 1])))
  {
    var q2 := q + Reverse(Kids(cur));
    PrePush(cur, q);
    KidsNoNull(cur);
    NoNullReverse(Kids(cur));
    if q2 != [] {
      PreStepPop(q2, PreForest(Kids(cur)) + PreForest(Reverse(q)));
    }
  }

  /** Popping the top x of a non-empty stack q2: the walk r0 of the stack starts with x, then x's subtrees, then the rest. */
  lemma {:induction false} PreStepPop(q2: seq<Node>, r0: seq<Node>)
    requires q2 != [] && Null !in q2 && r0 == PreForest(Reverse(q2))
    ensures r0 != [] && r0[0] == q2[|q2| - 1] && Null !in q2[..|q2| - 1]
      && r0[1..] == PreForest(Kids(q2[|q2| - 1])) + PreForest(Reverse(q2[..|q2| - 1]))
  {
    var x := q2[|q2| - 1];
    PrePop(q2);
    ConsParts(x, PreForest(Kids(x)), PreForest(Reverse(q2[..|q2| - 1])));
    NoNullPrefix(q2, |q2| - 1);
  }

  class PreOrderIter {
    var cur: Node
    var q: seq<Node>

    ghost predicate Valid()
      reads this
    {
      Null !in q
    }

    /** The nodes that the following calls of Next will yield, in order. */
    ghost function Remaining(): seq<Node>
      reads this
    {
      PreForest(Kids(cur)) + PreForest(Reverse(q))
    }

    /** NewIterator(root, PreOrder): the stack holds only the root. */
    constructor (root: Node)
      requires root != Null
      ensures Valid() && cur == Null
      ensures Remaining() == PreOrder(root)
    {
      cur := Null;
      q := [root];
      new;
      assert Reverse(q) == [root];
      assert PreForest([root]) == PreOrder(root) + PreForest([]);
    }

    method Next() returns (ok: bool)
      requires Valid()
      modifies this
      ensures Valid()
      ensures ok == (old(Remaining()) != [])
      ensures ok ==> cur == old(Remaining())[0] && Remaining() == old(Remaining())[1..]
      ensures !ok ==> cur == Null && Remaining() == []
    {
      var kids := EachChildRev(cur);
      PreStep(cur, q);
      q := q + kids;
      if |q| == 0 {
        cur := Null;
        ok := false;
      } else {
        cur := q[|q| - 1];
        q := q[..|q| - 1];
        ok := true;
      }
    }

    function Node(): Node
      reads this
    {
      cur
    }
  }

  // ---------------------------------------------------------- post-order

  /** What a stack frame [n, ck, ..., cj] still yields: the subtrees cj..ck, then n. */
  ghost function FrameRem(f: seq<Node>): seq<Node>
    decreases |f|
  {
    if f == [] then []
    else if |f| == 1 then [f[0]]
    else PostOrder(f[|f| - 1]) + FrameRem(f[..|f| - 1])
  }

  /** What a stack of frames still yields, from the top frame down. */
  ghost function StackRem(s: seq<seq<Node>>): seq<Node>
    decreases |s|
  {
    if s == [] then [] else FrameRem(s[|s| - 1]) + StackRem(s[..|s| - 1])
  }

  function NonEmptyFrames(s: seq<seq<Node>>): nat
    decreases |s|
  {
    if s == [] then 0 else (if s[|s| - 1] == [] then 0 else 1) + NonEmptyFrames(s[..|s| - 1])
  }

  /** No frame holds a nil node. */
  ghost predicate FramesNoNull(s: seq<seq<Node>>)
    decreases |s|
  {
    s == [] || (Null !in s[|s| - 1] && FramesNoNull(s[..|s| - 1]))
  }

  lemma {:induction false} FramesSnoc(s: seq<seq<Node>>, f: seq<Node>)
    ensures FramesNoNull(s + [f]) <==> FramesNoNull(s) && Null !in f
  {
    assert (s + [f])[..|s|] == s;
  }

  lemma {:induction false} FramesAppend(a: seq<seq<Node>>, b: seq<seq<Node>>)
    ensures FramesNoNull(a + b) <==> FramesNoNull(a) && FramesNoNull(b)
    decreases |b|
  {
    if b == [] {
      assert a + b == a;
    } else {
      var b', f := b[..|b| - 1], b[|b| - 1];
      assert a + b == (a + b') + [f];
      assert b == b' + [f];
      FramesSnoc(a + b', f);
      FramesSnoc(b', f);
      FramesAppend(a, b');
    }
  }

  lemma {:induction false} StackRemSnoc(s: seq<seq<Node>>, f: seq<Node>)
    ensures StackRem(s + [f]) == FrameRem(f) + StackRem(s)
    ensures NonEmptyFrames(s + [f]) == (if f == [] then 0 else 1) + NonEmptyFrames(s)
  {
    assert (s + [f])[..|s|] == s;
  }

  lemma {:induction false} StackRemAppend(a: seq<seq<Node>>, b: seq<seq<Node>>)
    ensures StackRem(a + b) == StackRem(b) + StackRem(a)
    ensures NonEmptyFrames(a + b) == NonEmptyFrames(a) + NonEmptyFrames(b)
    decreases |b|
  {
    if b == [] {
      assert a + b == a;
    } else {
      var b', f := b[..|b| - 1], b[|b| - 1];
      assert a + b == (a + b') + [f];
      assert b == b' + [f];
      StackRemSnoc(a + b', f);
      StackRemSnoc(b', f);
      StackRemAppend(a, b');
      Assoc(FrameRem(f), StackRem(b'), StackRem(a));
    }
  }

  lemma {:induction false} StackRemCovers(s: seq<seq<Node>>)
    ensures |StackRem(s)| >= NonEmptyFrames(s)
    decreases |s|
  {
    if s != [] {
      StackRemCovers(s[..|s| - 1]);
      FrameRemNonEmpty(s[|s| - 1]);
    }
  }

  lemma {:induction false} FrameRemNonEmpty(f: seq<Node>)
    ensures f != [] ==> |FrameRem(f)| >= 1
    decreases |f|
  {
    if |f| >= 2 { FrameRemNonEmpty(f[..|f| - 1]); }
  }

  lemma {:induction false} FrameSingle(x: Node)
    ensures FrameRem([x]) == [x]
  {
  }

  /** A frame of two or more entries yields the subtree of its last entry first. */
  lemma {:induction false} FrameSplit(top: seq<Node>)
    requires |top| >= 2
    ensures FrameRem(top) == PostOrder(top[|top| - 1]) + FrameRem(top[..|top| - 1])
  {
  }

  /** The frame [n] + reversed children yields the children's subtrees in order, then n. */
  lemma {:induction false} FrameOfChildren(n: Node, r: seq<Node>)
    ensures FrameRem([n] + Reverse(r)) == PostForest(r) + [n]
    decreases |r|
  {
    if r == [] {
      assert [n] + Reverse(r) == [n];
    } else {
      var f := [n] + Reverse(r[1..]);
      assert Reverse(r) == Reverse(r[1..]) + [r[0]];
      assert [n] + Reverse(r) == f + [r[0]];
      assert (f + [r[0]])[..|f|] == f;
      FrameOfChildren(n, r[1..]);
      Assoc(PostOrder(r[0]), PostForest(r[1..]), [n]);
    }
  }

  /** The frame start leaves for a node with children, over the frames of its first child. */
  lemma {:induction false} StartInner(n: Node, above: seq<seq<Node>>)
    requires n != Null && Kids(n) != [] && StackRem(above) == PostOrder(Kids(n)[0])
    ensures var q := ([n] + Reverse(Kids(n)))[..|Kids(n)|];
      StackRem([q] + above) == PostOrder(n) && NonEmptyFrames([q] + above) == 1 + NonEmptyFrames(above)
  {
    var k := Kids(n);
    var q := ([n] + Reverse(k))[..|k|];
    FirstFrame(n, q);
    StackRemAppend([q], above);
    StackRemSnoc([], q);
    assert [] + [q] == [q];
    PostOrderInner(n);
  }

  /** The first frame of a node with children: the node, then its other children reversed; it yields their subtrees, then n. */
  lemma {:induction false} FirstFrame(n: Node, q: seq<Node>)
    requires Kids(n) != [] && q == ([n] + Reverse(Kids(n)))[..|Kids(n)|]
    ensures q != [] && FrameRem(q) == PostForest(Kids(n)[1..]) + [n]
  {
    var k := Kids(n);
    assert Reverse(k) == Reverse(k[1..]) + [k[0]];
    assert [n] + Reverse(k) == ([n] + Reverse(k[1..])) + [k[0]];
    assert q == [n] + Reverse(k[1..]);
    FrameOfChildren(n, k[1..]);
  }

  /** The post-order of a node with children: its first child's, then the rest's, then the node. */
  lemma {:induction false} PostOrderInner(n: Node)
    requires n != Null && Kids(n) != []
    ensures PostOrder(n) == PostOrder(Kids(n)[0]) + (PostForest(Kids(n)[1..]) + [n])
  {
    var k := Kids(n);
    KidsSmaller(n);
    assert PostForest(k) == PostOrder(k[0]) + PostForest(k[1..]);
    Assoc(PostOrder(k[0]), PostForest(k[1..]), [n]);
  }

  lemma {:induction false} StartLeaf(n: Node)
    requires n != Null && Kids(n) == []
    ensures StackRem([[n]]) == PostOrder(n) && NonEmptyFrames([[n]]) == 1
  {
    StackRemSnoc([], [n]);
    assert [] + [[n]] == [[n]];
    FrameSingle(n);
    KidsSmaller(n);
  }

  /** Replacing the frame at |pre| in pre + [x] + above. */
  lemma {:induction false} FrameUpdate(pre: seq<seq<Node>>, x: seq<Node>, above: seq<seq<Node>>, y: seq<Node>)
    requires FramesNoNull(pre + [x] + above) && Null !in y
    ensures var t := pre + [y] + above;
      (pre + [x] + above)[|pre| := y] == t && FramesNoNull(t)
      && t[..|pre|] == pre && t[|pre|..] == [y] + above
      && (above != [] ==> t[|t| - 1] == above[|above| - 1])
  {
    FramesAppend(pre + [x], above);
    FramesSnoc(pre, x);
    FramesSnoc(pre, y);
    FramesAppend(pre + [y], above);
  }

  /** Replacing the top frame. */
  lemma {:induction false} FrameSet(pre: seq<seq<Node>>, x: seq<Node>, y: seq<Node>)
    requires FramesNoNull(pre + [x]) && Null !in y
    ensures (pre + [x])[|pre| := y] == pre + [y] && FramesNoNull(pre + [y])
  {
    FramesSnoc(pre, x);
    FramesSnoc(pre, y);
  }

  lemma {:induction false} SplitAt<T>(s: seq<T>, k: int)
    requires 0 <= k <= |s|
    ensures s == s[..k] + s[k..]
  {
  }

  /** Pushing an empty frame. */
  lemma {:induction false} FramePush(s: seq<seq<Node>>)
    requires FramesNoNull(s)
    ensures FramesNoNull(s + [[]]) && (s + [[]])[..|s|] == s
  {
    FramesSnoc(s, []);
  }

  /** The first child is the last entry of [n] + eachChildRev(n), and is smaller than n. */
  lemma {:induction false} FirstChild(n: Node)
    requires Kids(n) != []
    ensures var q := [n] + Reverse(Kids(n)); q[|q| - 1] == Kids(n)[0]
    ensures Size(Kids(n)[0]) < Size(n) && Kids(n)[0] != Null
  {
    var k := Kids(n);
    assert k == [k[0]] + k[1..];
    ReverseAppend([k[0]], k[1..]);
    assert Reverse([k[0]]) == [k[0]];
    assert [n] + Reverse(k) == ([n] + Reverse(k[1..])) + [k[0]];
    KidsSmaller(n);
    SizeSeqElement(k, 0);
    KidsNoNull(n);
    assert k[0] in k;
  }

  /**
   * What start(n) leaves on a stack s0: s0 itself, then frames that yield
   * exactly the post-order of n, the top one holding a single leaf.
   */
  ghost predicate Started(s0: seq<seq<Node>>, s: seq<seq<Node>>, n: Node)
  {
    FramesNoNull(s) && |s| > |s0| && s[..|s0|] == s0
    && StackRem(s[|s0|..]) == PostOrder(n) && NonEmptyFrames(s[|s0|..]) >= 1
    && |s[|s| - 1]| == 1
  }

  /** start on a node with children, once the first child's frames are pushed. */
  lemma {:induction false} StartInnerStep(n: Node, s0: seq<seq<Node>>, sr: seq<seq<Node>>)
    requires n != Null && Kids(n) != [] && Started(s0 + [[]], sr, Kids(n)[0])
    ensures Started(s0, sr[|s0| := ([n] + Reverse(Kids(n)))[..|Kids(n)|]], n)
  {
    var above := sr[|s0| + 1..];
    assert sr == (s0 + [[]]) + above by { SplitAt(sr, |s0| + 1); }
    assert above != [] && above[|above| - 1] == sr[|sr| - 1];
    var q := ([n] + Reverse(Kids(n)))[..|Kids(n)|];
    StartInner(n, above);
    KidsNoNull(n);
    NoNullReverse(Kids(n));
    NoNullPrefix([n] + Reverse(Kids(n)), |Kids(n)|);
    FrameUpdate(s0, [], above, q);
  }

  /** start on a node without children. */
  lemma {:induction false} StartLeafStep(n: Node, s0: seq<seq<Node>>)
    requires n != Null && Kids(n) == [] && FramesNoNull(s0)
    ensures Started(s0, (s0 + [[]])[|s0| := [n]], n)
  {
    FramePush(s0);
    StartLeaf(n);
    FrameSet(s0, [], [n]);
    var t := s0 + [[n]];
    assert t[|s0|..] == [[n]];
  }

  /** An empty top frame is popped without changing what the stack yields. */
  lemma {:induction false} PopEmpty(s: seq<seq<Node>>)
    requires s != [] && s[|s| - 1] == [] && FramesNoNull(s)
    ensures var s' := s[..|s| - 1];
      StackRem(s') == StackRem(s) && NonEmptyFrames(s') == NonEmptyFrames(s) && FramesNoNull(s')
  {
    var s' := s[..|s| - 1];
    assert s == s' + [[]];
    StackRemSnoc(s', []);
    FramesSnoc(s', []);
  }

  /** Replacing a top frame of two or more entries by all but its last entry. */
  lemma {:induction false} DescendPre(s: seq<seq<Node>>)
    requires s != [] && |s[|s| - 1]| >= 2 && FramesNoNull(s)
    ensures var top := s[|s| - 1];
      s[|s| - 1 := top[..|top| - 1]] == s[..|s| - 1] + [top[..|top| - 1]]
      && FramesNoNull(s[|s| - 1 := top[..|top| - 1]]) && top[|top| - 1] != Null
  {
    var top := s[|s| - 1];
    assert s == s[..|s| - 1] + [top];
    FramesSnoc(s[..|s| - 1], top);
    assert top[|top| - 1] in top;
    NoNullPrefix(top, |top| - 1);
    FrameSet(s[..|s| - 1], top, top[..|top| - 1]);
  }

  /** After start on the last entry of the top frame, the stack yields the same nodes. */
  lemma {:induction false} DescendDone(pre: seq<seq<Node>>, top: seq<Node>, s: seq<seq<Node>>)
    requires |top| >= 2 && Started(pre + [top[..|top| - 1]], s, top[|top| - 1])
    ensures StackRem(s) == StackRem(pre + [top]) && NonEmptyFrames(s) > NonEmptyFrames(pre + [top])
    ensures FramesNoNull(s) && |s[|s| - 1]| <= 1
  {
    var s1 := pre + [top[..|top| - 1]];
    SplitAt(s, |s1|);
    PostDescend(pre, top, s[|s1|..]);
  }

  /** Descending into the last entry of the top frame keeps what the stack yields. */
  lemma {:induction false} PostDescend(pre: seq<seq<Node>>, top: seq<Node>, above: seq<seq<Node>>)
    requires |top| >= 2 && StackRem(above) == PostOrder(top[|top| - 1]) && NonEmptyFrames(above) >= 1
    ensures var t := pre + [top[..|top| - 1]] + above;
      StackRem(t) == StackRem(pre + [top]) && NonEmptyFrames(t) > NonEmptyFrames(pre + [top])
  {
    var rest := top[..|top| - 1];
    FrameSplit(top);
    StackRemAppend(pre + [rest], above);
    StackRemSnoc(pre, rest);
    StackRemSnoc(pre, top);
    Assoc(PostOrder(top[|top| - 1]), FrameRem(rest), StackRem(pre));
  }

  /** Yielding the single entry of the top frame. */
  lemma {:induction false} Yield(s: seq<seq<Node>>)
    requires s != [] && |s[|s| - 1]| == 1 && FramesNoNull(s)
    ensures var x := s[|s| - 1][0]; var s' := s[|s| - 1 := []];
      x != Null && FramesNoNull(s') && NonEmptyFrames(s') < NonEmptyFrames(s)
      && StackRem(s) != [] && StackRem(s)[0] == x && StackRem(s)[1..] == StackRem(s')
  {
    var pre, x := s[..|s| - 1], s[|s| - 1][0];
    assert s[|s| - 1] == [x];
    assert s == pre + [[x]];
    FramesSnoc(pre, [x]);
    StackRemSnoc(pre, [x]);
    StackRemSnoc(pre, []);
    FrameSingle(x);
    FrameSet(pre, [x], []);
    ConsParts(x, StackRem(pre), []);
    assert StackRem(pre) + [] == StackRem(pre);
  }

  class PostOrderIter {
    var cur: Node
    var s: seq<seq<Node>>

    ghost predicate Valid()
      reads this
    {
      FramesNoNull(s) && (s == [] || |s[|s| - 1]| <= 1)
    }

    ghost function Remaining(): seq<Node>
      reads this
    {
      StackRem(s)
    }

    /** NewIterator(root, PostOrder): start pushes the leftmost path of the root. */
    constructor (root: Node)
      requires root != Null
      ensures Valid() && Remaining() == PostOrder(root)
    {
      cur := Null;
      s := [];
      new;
      Start(root);
      assert s[0..] == s;
    }

    /** start: pushes the frames of the leftmost path below n. */
    method Start(n: Node)
      requires n != Null && FramesNoNull(s)
      modifies this
      ensures Started(old(s), s, n) && cur == old(cur)
      decreases Size(n)
    {
      ghost var s0 := s;
      var si := |s|;
      var kids := EachChildRev(n);
      var q := [n] + kids;
      FramePush(s);
      s := s + [[]];
      if |q| > 1 {
        FirstChild(n);
        Start(q[|q| - 1]);
        StartInnerStep(n, s0, s);
        q := q[..|q| - 1];
        s := s[si := q];
      } else {
        StartLeafStep(n, s0);
        s := s[si := q];
      }
    }

    /** Descending into the last entry of the top frame: start on it, keeping what the stack yields. */
    method Descend()
      requires FramesNoNull(s) && s != [] && |s[|s| - 1]| >= 2
      modifies this
      ensures FramesNoNull(s) && s != [] && |s[|s| - 1]| <= 1
      ensures StackRem(s) == old(StackRem(s)) && NonEmptyFrames(s) > old(NonEmptyFrames(s))
    {
      var l := |s| - 1;
      var top := s[l];
      var i := |top| - 1;
      var n := top[i];
      DescendPre(s);
      ghost var pre := s[..l];
      assert s == pre + [top];
      s := s[l := top[..i]];
      Start(n);
      DescendDone(pre, top, s);
    }

    method Next() returns (ok: bool)
      requires Valid()
      modifies this
      ensures Valid()
      ensures ok == (old(Remaining()) != [])
      ensures ok ==> cur == old(Remaining())[0] && Remaining() == old(Remaining())[1..]
      ensures !ok ==> Remaining() == []
    {
      var down := false;
      ghost var r0 := StackRem(s);
      while true
        invariant FramesNoNull(s)
        invariant down || s == [] || |s[|s| - 1]| <= 1
        invariant StackRem(s) == r0
        decreases |r0| - NonEmptyFrames(s), |s|
      {
        StackRemCovers(s);
        var l := |s|;
        if l == 0 {
          return false;
        }
        l := l - 1;
        var top := s[l];
        if |top| == 0 {
          DropTop();
          down := true;
          continue;
        }
        if down && |top| > 1 {
          down := false;
          Descend();
          continue;
        }
        YieldTop();
        return true;
      }
    }

    /** Popping an empty frame: the stack yields the same nodes. */
    method DropTop()
      requires FramesNoNull(s) && s != [] && s[|s| - 1] == []
      modifies this
      ensures FramesNoNull(s) && |s| == old(|s|) - 1
      ensures StackRem(s) == old(StackRem(s)) && NonEmptyFrames(s) == old(NonEmptyFrames(s))
    {
      PopEmpty(s);
      s := s[..|s| - 1];
    }

    /** Taking the one entry of the top frame: it is the next node, and the rest follows. */
    method YieldTop()
      requires FramesNoNull(s) && s != [] && |s[|s| - 1]| == 1
      modifies this
      ensures FramesNoNull(s) && s != [] && s[|s| - 1] == []
      ensures old(StackRem(s)) != [] && cur == old(StackRem(s))[0] && StackRem(s) == old(StackRem(s))[1..]
    {
      Yield(s);
      cur := s[|s| - 1][0];
      s := s[|s| - 1 := []];
    }

    function Node(): Node
      reads this
    {
      cur
    }
  }

  // --------------------------------------------------------- level order

  lemma {:induction false} LevelStep(level: seq<Node>, j: int)
    requires 0 <= j < |level|
    ensures NextLevel(level[j..]) == Kids(level[j]) + NextLevel(level[j + 1..])
  {
    assert level[j..][0] == level[j] && level[j..][1..] == level[j + 1..];
  }

  /** Moving one place along the current level. */
  lemma {:induction false} LevelWithin(level: seq<Node>, i: int, rest: seq<Node>)
    requires -1 <= i && i + 1 < |level|
    ensures (level[i + 1..] + rest)[0] == level[i + 1]
    ensures (level[i + 1..] + rest)[1..] == level[i + 2..] + rest
  {
    assert level[i + 1..] == [level[i + 1]] + level[i + 2..];
    ConsParts(level[i + 1], level[i + 2..], rest);
  }

  /** What a level-order iterator at position i of the level has still to list. */
  ghost function LevelRemaining(level: seq<Node>, i: int): seq<Node>
    requires |level| == 0 || -1 <= i < |level|
  {
    if |level| == 0 then [] else level[i + 1..] + Bfs(NextLevel(level))
  }

  /** Within a level, the next node is the one after i, and the rest follows it. */
  lemma {:induction false} LevelAdvance(level: seq<Node>, i: int)
    requires -1 <= i && i + 1 < |level|
    ensures LevelRemaining(level, i) != []
    ensures LevelRemaining(level, i)[0] == level[i + 1]
    ensures LevelRemaining(level, i + 1) == LevelRemaining(level, i)[1..]
  {
    LevelWithin(level, i, Bfs(NextLevel(level)));
  }

  /** At the end of a level, the next level holds what is left, and its first node comes next. */
  lemma {:induction false} LevelRefill(level: seq<Node>, i: int)
    requires Null !in level && i + 1 == |level|
    ensures var next := NextLevel(level);
      Null !in next
      && LevelRemaining(level, i) == Bfs(next)
      && (next == [] ==> Bfs(next) == [])
      && (next != [] ==> Bfs(next)[0] == next[0] && Bfs(next)[1..] == LevelRemaining(next, 0))
  {
    var next := NextLevel(level);
    NextLevelNoNull(level);
    assert level[i + 1..] == [];
    if next != [] {
      BfsHead(next);
    }
  }

  lemma {:induction false} BfsHead(level: seq<Node>)
    requires level != []
    ensures Bfs(level)[0] == level[0] && Bfs(level)[1..] == level[1..] + Bfs(NextLevel(level))
  {
    var rest := Bfs(NextLevel(level));
    assert Bfs(level) == level + rest;
    assert level == [level[0]] + level[1..];
    ConsParts(level[0], level[1..], rest);
  }

  /** The loop of the level-order iterator that collects the children of a whole level. */
  method LevelChildren(level: seq<Node>) returns (next: seq<Node>)
    ensures next == NextLevel(level)
  {
    next := [];
    var j := 0;
    while j < |level|
      invariant 0 <= j <= |level|
      invariant next + NextLevel(level[j..]) == NextLevel(level)
    {
      var kids := EachChild(level[j]);
      LevelStep(level, j);
      Assoc(next, kids, NextLevel(level[j + 1..]));
      next := next + kids;
      j := j + 1;
    }
    assert level[j..] == [];
    assert next + [] == next;
  }

  class LevelOrderIter {
    var level: seq<Node>
    var i: int

    ghost predicate Valid()
      reads this
    {
      Null !in level
      && (|level| == 0 || -1 <= i < |level|)
    }

    ghost function Remaining(): seq<Node>
      reads this
      requires Valid()
    {
      LevelRemaining(level, i)
    }

    /** NewIterator(root, LevelOrder): the level holds only the root, before its first element. */
    constructor (root: Node)
      requires root != Null
      ensures Valid() && Remaining() == Bfs([root])
    {
      level := [root];
      i := -1;
    }

    method Next() returns (ok: bool)
      requires Valid()
      modifies this
      ensures Valid()
      ensures ok == (old(Remaining()) != [])
      ensures ok ==> 0 <= i < |level| && level[i] == old(Remaining())[0]
      ensures ok ==> Remaining() == old(Remaining())[1..]
      ensures !ok ==> Remaining() == []
    {
      if |level| == 0 {
        return false;
      } else if i + 1 < |level| {
        LevelAdvance(level, i);
        i := i + 1;
        return true;
      }
      var next := LevelChildren(level);
      LevelRefill(level, i);
      i := 0;
      level := next;
      return |level| > 0;
    }

    function Node(): Node
      reads this
      requires 0 <= i
    {
      if i >= |level| then Null else level[i]
    }
  }

  // ------------------------------------------------------ children order

  /** fixedIter: lists a given slice, without recursion into its nodes. */
  class FixedIter {
    var nodes: seq<Node>
    var first: bool

    ghost function Remaining(): seq<Node>
      reads this
    {
      if first then nodes else if nodes == [] then [] else nodes[1..]
    }

    constructor (ns: seq<Node>)
      ensures Remaining() == ns && nodes == ns
    {
      nodes := ns;
      first := true;
    }

    method Next() returns (ok: bool)
      modifies this
      ensures ok == (old(Remaining()) != [])
      ensures ok ==> Node() == old(Remaining())[0] && Remaining() == old(Remaining())[1..]
      ensures !ok ==> Remaining() == []
    {
      if first {
        first := false;
        return |nodes| > 0;
      } else if |nodes| == 0 {
        return false;
      }
      nodes := nodes[1..];
      return |nodes| > 0;
    }

    function Node(): Node
      reads this
    {
      if |nodes| == 0 then Null else nodes[0]
    }
  }

  /** Unfolding one more element of a sequence appends what that element unfolds to. */
  lemma {:induction false} UnfoldAllSnoc(s: seq<Node>, i: int)
    requires 0 <= i < |s|
    ensures UnfoldAll(s[..i + 1]) == UnfoldAll(s[..i]) + Unfold(s[i])
  {
    TakeSnoc(s, i);
    UnfoldAllAppend(s[..i], [s[i]]);
    assert [s[i]][1..] == [];
  }

  /** addUnfoldingArrays. */
  method AddUnfoldingArrays(acc: seq<Node>, n: Node) returns (r: seq<Node>)
    ensures r == acc + Unfold(n)
    decreases Size(n), 0
  {
    match n {
      case Arr(s) => r := AddUnfoldingElems(acc, s);
      case Obj(_) => r := acc + [n];
      case _ => r := acc;
    }
  }

  /** The loop of addUnfoldingArrays over the elements of an array: nil elements add nothing. */
  method AddUnfoldingElems(acc: seq<Node>, s: seq<Node>) returns (r: seq<Node>)
    ensures r == acc + UnfoldAll(s)
    decreases SizeSeq(s), 1
  {
    r := acc;
    var i := 0;
    while i < |s|
      invariant 0 <= i <= |s|
      invariant r == acc + UnfoldAll(s[..i])
    {
      SizeSeqElement(s, i);
      UnfoldAllSnoc(s, i);
      if s[i] != Null {
        Assoc(acc, UnfoldAll(s[..i]), Unfold(s[i]));
        r := AddUnfoldingArrays(r, s[i]);
      } else {
        assert Unfold(s[i]) == [];
      }
      i := i + 1;
    }
    assert s[..|s|] == s;
  }

  /** newChildrenIterator. */
  method NewChildrenIterator(n: Node) returns (it: FixedIter)
    ensures fresh(it) && it.Remaining() == ChildrenList(n)
  {
    var kids := EachChild(n);
    var nodes: seq<Node> := [];
    var i := 0;
    while i < |kids|
      invariant 0 <= i <= |kids|
      invariant nodes == UnfoldAll(kids[..i])
    {
      UnfoldAllSnoc(kids, i);
      nodes := AddUnfoldingArrays(nodes, kids[i]);
      i := i + 1;
    }
    assert kids[..|kids|] == kids;
    it := new FixedIter(nodes);
  }

  // ------------------------------------------------------------ NewIterator

  datatype Order = IterAny | PreOrderKind | PostOrderKind | LevelOrderKind | ChildrenOrderKind | OtherOrder(code: int)

  datatype Iterator =
    | Empty
    | Pre(pre: PreOrderIter)
    | Post(post: PostOrderIter)
    | Level(level: LevelOrderIter)
    | Children(children: FixedIter)

  /** The nodes an iterator of the given order lists; None for an order NewIterator panics on. */
  ghost function Expected(root: Node, order: Order): Option<seq<Node>>
  {
    if root == Null then Some([])
    else match order
      case IterAny => Some(PreOrder(root))
      case PreOrderKind => Some(PreOrder(root))
      case PostOrderKind => Some(PostOrder(root))
      case LevelOrderKind => Some(Bfs([root]))
      case ChildrenOrderKind => Some(ChildrenList(root))
      case OtherOrder(_) => None
  }

  ghost function IterRemaining(it: Iterator): seq<Node>
    reads if it.Pre? then {it.pre} else {}, if it.Post? then {it.post} else {}
    reads if it.Level? then {it.level} else {}, if it.Children? then {it.children} else {}
  {
    match it
    case Empty => []
    case Pre(p) => p.Remaining()
    case Post(p) => p.Remaining()
    case Level(l) => if l.Valid() then l.Remaining() else []
    case Children(c) => c.Remaining()
  }

  /** NewIterator: a nil root gives the empty iterator and IterAny means pre-order. */
  method NewIterator(root: Node, order: Order) returns (r: Result<Iterator, string>)
    ensures Expected(root, order).None? <==> r.Err?
    ensures r.Ok? ==> IterRemaining(r.value) == Expected(root, order).value
    ensures r.Ok? && root == Null ==> r.value == Empty
  {
    if root == Null {
      return Ok(Empty);
    }
    var o := if order == IterAny then PreOrderKind else order;
    match o {
      case PreOrderKind =>
        var it := new PreOrderIter(root);
        return Ok(Pre(it));
      case PostOrderKind =>
        var it := new PostOrderIter(root);
        return Ok(Post(it));
      case LevelOrderKind =>
        var it := new LevelOrderIter(root);
        return Ok(Level(it));
      case ChildrenOrderKind =>
        var it := NewChildrenIterator(root);
        return Ok(Children(it));
      case IterAny =>
        assert false;
        return Err("unsupported iterator order");
      case OtherOrder(_) =>
        return Err("unsupported iterator order");
    }
  }
}
