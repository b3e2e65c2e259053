// The Go-side node store of libuast (uast/libuast/nodes_go.go): finished
// nodes and temporary objects and arrays under construction, each under a
// handle taken from one counter, and the operations the exported C
// functions perform on it. Arena is the store as a value, with one
// function per operation; GoNodes is the store as the Go code has it, an
// object whose methods are proved to move its fields as those functions say.
module LibuastGo {
  import opened Wrappers
  import opened Nodes
  import Strings

  /**
   * A goTmpNode: an object or array being filled in, or one whose content
   * Build has already taken (both of its slots are then nil).
   */
  datatype TmpNode = TmpObj(obj: map<string, Node>) | TmpArr(arr: seq<Node>) | TmpBuilt

  /** The panics the operations can raise. */
  datatype Panic =
    | NotAnArray        // SetValue on a temporary node that is not an array
    | NotAnObject       // SetKeyValue on a temporary node that is not an object
    | IndexOutOfRange   // SetValue past the end of the array
    | NotAnObjectNode   // KeyAt or ValueAt on a node that is neither object nor array

  /** A goNode: a registered handle together with its node. */
  datatype GoNode = GoNode(h: nat, n: Node)

  /** 0 is the nil handle. */
  const NilHandle: nat := 0

  datatype Arena = Arena(last: nat, nodes: map<nat, Node>, tmp: map<nat, TmpNode>)
  {
    /**
     * Every handle in use was handed out by next, so none is 0 and none is
     * above the counter; a temporary node still being filled is not also a
     * finished node.
     */
    predicate Valid()
    {
      (forall h :: h in nodes ==> 0 < h <= last) && (forall h :: h in tmp ==> 0 < h <= last) &&
      (forall h :: h in tmp && !tmp[h].TmpBuilt? ==> h !in nodes)
    }

    /** b differs from this arena only by entries under handles above this arena's counter. */
    predicate Keeps(b: Arena)
    {
      last <= b.last &&
      (forall g :: g in nodes ==> g in b.nodes && b.nodes[g] == nodes[g]) &&
      (forall g :: g in tmp ==> g in b.tmp && b.tmp[g] == tmp[g]) &&
      (forall g :: g in b.nodes && g <= last ==> g in nodes) &&
      (forall g :: g in b.tmp && g <= last ==> g in tmp)
    }

    /** next: the counter goes up by one and its new value is the handle; it is never 0 and never in use. */
    function Next(): (r: (Arena, nat))
      ensures r.1 == last + 1 && r.0.last == r.1 && r.1 != NilHandle
      ensures Valid() ==> r.1 !in nodes && r.1 !in tmp && r.0.Valid() && Keeps(r.0)
    {
      (Arena(last + 1, nodes, tmp), last + 1)
    }

    /** AsNode: the registered node under h; nil for an unknown handle or a nil node. */
    function AsNode(h: nat): (r: Option<GoNode>)
      ensures r.Some? <==> h in nodes && nodes[h] != Null
      ensures r.Some? ==> r.value == GoNode(h, nodes[h])
    {
      if h in nodes && nodes[h] != Null then Some(GoNode(h, nodes[h])) else None
    }

    /** AsTmpNode: the temporary node under h, nil for an unknown handle. */
    function AsTmpNode(h: nat): Option<TmpNode>
    {
      if h in tmp then Some(tmp[h]) else None
    }

    /** toHandle: nil is handle 0; any other node is registered under a fresh handle. */
    function ToHandle(n: Node): (r: (Arena, nat))
      ensures n == Null ==> r == (this, NilHandle)
      ensures n != Null ==> r.1 == last + 1 && r.0.AsNode(r.1) == Some(GoNode(r.1, n))
      ensures Valid() ==> r.0.Valid() && Keeps(r.0)
    {
      if n == Null then (this, NilHandle)
      else
        var (a, h) := Next();
        (a.(nodes := a.nodes[h := n]), h)
    }

    /** toNode: toHandle that also returns the goNode, nil for nil. */
    function ToNode(n: Node): (r: (Arena, Option<GoNode>))
      ensures n == Null <==> r.1.None?
      ensures r.1.Some? ==> r.1.value == GoNode(ToHandle(n).1, n) && r.0.AsNode(r.1.value.h) == r.1
      ensures r.0 == ToHandle(n).0
    {
      var (a, h) := ToHandle(n);
      (a, if n == Null then None else Some(GoNode(h, n)))
    }

    /** newTmp: a temporary node under a fresh handle. */
    function NewTmp(t: TmpNode): (r: (Arena, nat))
      ensures r.1 == last + 1 && r.0.AsTmpNode(r.1) == Some(t) && r.0.nodes == nodes
      ensures Valid() ==> r.0.Valid() && Keeps(r.0) && r.0.AsNode(r.1).None?
    {
      var (a, h) := Next();
      (a.(tmp := a.tmp[h := t]), h)
    }

    /** NewObject: an empty temporary object; the size is only a capacity hint. */
    function NewObject(sz: nat): (r: (Arena, nat))
      ensures r == NewTmp(TmpObj(map[]))
    {
      NewTmp(TmpObj(map[]))
    }

    /** NewArray: a temporary array of sz nil elements. */
    function NewArray(sz: nat): (r: (Arena, nat))
      ensures r.0.AsTmpNode(r.1).Some? && r.0.AsTmpNode(r.1).value.TmpArr?
      ensures var a := r.0.AsTmpNode(r.1).value.arr; |a| == sz && forall j :: 0 <= j < sz ==> a[j] == Null
      ensures r.1 == last + 1 && r.0.nodes == nodes && (Valid() ==> r.0.Valid() && Keeps(r.0))
    {
      var s := seq(sz, _ => Null);
      assert forall j | 0 <= j < sz :: s[j] == Null;
      NewTmp(TmpArr(s))
    }

    /**
     * uastKind: NODE_NULL when the handle resolves to no node, otherwise the
     * kind of the node (Kind lists the kinds in the order of the NODE_* constants).
     */
    function Kind(h: nat): (k: Kind)
      ensures k == KindNil <==> AsNode(h).None?
      ensures AsNode(h).Some? ==> k == KindOf(nodes[h])
    {
      match AsNode(h)
      case None => KindNil
      case Some(nd) => KindOf(nd.n)
    }

    /** uastSize: the number of fields or elements; 0 for nil and for values. */
    function Size(h: nat): (r: nat)
      ensures AsNode(h).None? ==> r == 0
      ensures AsNode(h).Some? && nodes[h].Obj? ==> r == |nodes[h].fields|
      ensures AsNode(h).Some? && nodes[h].Arr? ==> r == |nodes[h].elems|
      ensures AsNode(h).Some? && IsValue(nodes[h]) ==> r == 0
    {
      match AsNode(h)
      case None => 0
      case Some(nd) =>
        if nd.n.Obj? then |nd.n.fields| else if nd.n.Arr? then |nd.n.elems| else 0
    }

    /**
     * uastKeyAt: nil (a C NULL) for a handle with no node; the i-th key in
     * sorted order, or "" when i is out of range; a node that is not an
     * object fails the type assertion of cacheKeys.
     */
    ghost function KeyAt(h: nat, i: nat): (r: Result<Option<string>, Panic>)
      ensures AsNode(h).None? <==> r == Ok(None)
      ensures r.Err? <==> AsNode(h).Some? && !nodes[h].Obj?
      ensures AsNode(h).Some? && nodes[h].Obj? ==>
        var keys := Strings.SortedKeys(nodes[h].fields.Keys);
        r == Ok(Some(if i < |keys| then keys[i] else ""))
    {
      match AsNode(h)
      case None => Ok(None)
      case Some(nd) =>
        if !nd.n.Obj? then Err(NotAnObjectNode)
        else
          var keys := Strings.SortedKeys(nd.n.fields.Keys);
          Ok(Some(if i < |keys| then keys[i] else ""))
    }

    /** The i-th child of a node as ValueAt sees it: array element i, or the value of the i-th sorted key. */
    ghost function ChildAt(n: Node, i: nat): (r: Result<Node, Panic>)
      ensures n.Arr? ==> r == Ok(if i < |n.elems| then n.elems[i] else Null)
      ensures n.Obj? ==> r.Ok?
      ensures !n.Arr? && !n.Obj? ==> r == Err(NotAnObjectNode)
    {
      match n
      case Arr(s) => Ok(if i < |s| then s[i] else Null)
      case Obj(m) =>
        var keys := Strings.SortedKeys(m.Keys);
        Ok(if i < |keys| then m[keys[i]] else Null)
      case _ => Err(NotAnObjectNode)
    }

    /**
     * uastValueAt: 0 for a handle with no node and for an index out of
     * range; otherwise the child is registered under a fresh handle, every
     * time it is asked for.
     */
    ghost function ValueAt(h: nat, i: nat): (r: Result<(Arena, nat), Panic>)
      ensures AsNode(h).None? ==> r == Ok((this, NilHandle))
      ensures AsNode(h).Some? ==> r.Ok? == ChildAt(nodes[h], i).Ok?
      ensures AsNode(h).Some? && r.Ok? ==> r.value == ToHandle(ChildAt(nodes[h], i).value)
    {
      match AsNode(h)
      case None => Ok((this, NilHandle))
      case Some(nd) =>
        match ChildAt(nd.n, i)
        case Err(e) => Err(e)
        case Ok(c) => Ok(ToHandle(c))
    }

    /**
     * goTmpNode.SetValue with the value already resolved: a node that is
     * not an array panics; a nil value leaves the slot as it is; an index
     * past the end panics.
     */
    function PutElem(m: nat, i: nat, v: Option<Node>): (r: Result<Arena, Panic>)
      requires m in tmp
      ensures !tmp[m].TmpArr? <==> r == Err(NotAnArray)
      ensures tmp[m].TmpArr? && v.None? ==> r == Ok(this)
      ensures tmp[m].TmpArr? && v.Some? && i >= |tmp[m].arr| ==> r == Err(IndexOutOfRange)
      ensures r.Ok? ==> r.value.last == last && r.value.nodes == nodes && r.value.tmp.Keys == tmp.Keys
      ensures r.Ok? ==> forall g :: g in tmp && g != m ==> r.value.tmp[g] == tmp[g]
      ensures r.Ok? && v.Some? ==> r.value.tmp[m] == TmpArr(tmp[m].arr[i := v.value])
    {
      match tmp[m]
      case TmpArr(arr) =>
        if v.None? then Ok(this)
        else if i >= |arr| then Err(IndexOutOfRange)
        else Ok(this.(tmp := tmp[m := TmpArr(arr[i := v.value])]))
      case _ => Err(NotAnArray)
    }

    /** goTmpNode.SetKeyValue with the value already resolved: a node that is not an object panics; nil is stored as nil. */
    function PutKey(m: nat, k: string, v: Node): (r: Result<Arena, Panic>)
      requires m in tmp
      ensures !tmp[m].TmpObj? <==> r.Err?
      ensures r.Err? ==> r.error == NotAnObject
      ensures r.Ok? ==> r.value == this.(tmp := tmp[m := TmpObj(tmp[m].obj[k := v])])
    {
      match tmp[m]
      case TmpObj(o) => Ok(this.(tmp := tmp[m := TmpObj(o[k := v])]))
      case _ => Err(NotAnObject)
    }

    /** uastSetValue: nothing happens for a handle with no temporary node; the value handle goes through AsNode. */
    function SetValue(m: nat, i: nat, v: nat): (r: Result<Arena, Panic>)
      ensures m !in tmp ==> r == Ok(this)
      ensures m in tmp ==> r == PutElem(m, i, if AsNode(v).Some? then Some(nodes[v]) else None)
    {
      if m !in tmp then Ok(this)
      else PutElem(m, i, match AsNode(v) case Some(nd) => Some(nd.n) case None => None)
    }

    /** uastSetKeyValue: as SetValue, for objects; a value handle with no node is stored as nil. */
    function SetKeyValue(m: nat, k: string, v: nat): (r: Result<Arena, Panic>)
      ensures m !in tmp ==> r == Ok(this)
      ensures m in tmp ==> r == PutKey(m, k, if AsNode(v).Some? then nodes[v] else Null)
    {
      if m !in tmp then Ok(this)
      else PutKey(m, k, match AsNode(v) case Some(nd) => nd.n case None => Null)
    }

    /**
     * goTmpNode.Build as written: the content is registered as a node
     * through toNode, which takes a FRESH handle, and the temporary slots
     * are cleared; a node already built yields nil.
     */
    function Build(h: nat): (r: (Arena, Option<GoNode>))
      requires h in tmp
      ensures tmp[h].TmpBuilt? ==> r == (this, None)
      ensures tmp[h].TmpObj? ==> r.1 == Some(GoNode(last + 1, Obj(tmp[h].obj)))
      ensures tmp[h].TmpArr? ==> r.1 == Some(GoNode(last + 1, Arr(tmp[h].arr)))
      ensures !tmp[h].TmpBuilt? ==> r.0.AsTmpNode(h) == Some(TmpBuilt) && r.0.AsNode(last + 1) == r.1
    {
      match tmp[h]
      case TmpObj(o) =>
        var (a, nd) := ToNode(Obj(o));
        (a.(tmp := a.tmp[h := TmpBuilt]), nd)
      case TmpArr(s) =>
        var (a, nd) := ToNode(Arr(s));
        (a.(tmp := a.tmp[h := TmpBuilt]), nd)
      case TmpBuilt => (this, None)
    }

    /** Free: the finished nodes are dropped; the temporary ones stay. */
    function Free(): (r: Arena)
      ensures forall h :: r.AsNode(h).None?
      ensures r.tmp == tmp && r.last == last
    {
      this.(nodes := map[])
    }

    // ------------------------------------------------- corrected behaviour

    /**
     * The node a handle stands for once temporary nodes count as built: a
     * registered node, else the current content of a temporary object or
     * array, else nil.
     */
    function Resolve(h: nat): (r: Node)
      ensures AsNode(h).Some? ==> r == nodes[h]
      ensures AsNode(h).None? && h in tmp && tmp[h].TmpObj? ==> r == Obj(tmp[h].obj)
      ensures AsNode(h).None? && h in tmp && tmp[h].TmpArr? ==> r == Arr(tmp[h].arr)
      ensures AsNode(h).None? && (h !in tmp || tmp[h].TmpBuilt?) ==> r == Null
    {
      if AsNode(h).Some? then nodes[h]
      else if h in tmp then
        match tmp[h]
        case TmpObj(o) => Obj(o)
        case TmpArr(s) => Arr(s)
        case TmpBuilt => Null
      else Null
    }

    /** Build as the interface documents it: the node keeps the handle of the temporary node. */
    function BuildInPlace(h: nat): (r: (Arena, Option<GoNode>))
      requires h in tmp
      ensures tmp[h].TmpBuilt? ==> r == (this, None)
      ensures tmp[h].TmpObj? ==> r.1 == Some(GoNode(h, Obj(tmp[h].obj)))
      ensures tmp[h].TmpArr? ==> r.1 == Some(GoNode(h, Arr(tmp[h].arr)))
    {
      match tmp[h]
      case TmpBuilt => (this, None)
      case TmpObj(o) => (this.(nodes := nodes[h := Obj(o)], tmp := tmp[h := TmpBuilt]), Some(GoNode(h, Obj(o))))
      case TmpArr(s) => (this.(nodes := nodes[h := Arr(s)], tmp := tmp[h := TmpBuilt]), Some(GoNode(h, Arr(s))))
    }
  }

  /** The store of a fresh goNodes value. */
  const EmptyArena := Arena(0, map[], map[])

  // --------------------------------------------------------------- lemmas

  /** A registered node can be looked up by its handle until Free, and registering more nodes does not disturb it. */
  lemma {:induction false} ToHandleThenAsNode(a: Arena, n: Node, m: Node)
    requires a.Valid() && n != Null
    ensures var (b, h) := a.ToHandle(n); var (c, g) := b.ToHandle(m);
      h != NilHandle && c.AsNode(h) == Some(GoNode(h, n)) && (m != Null ==> g != h)
  {
  }

  /** A handle of a temporary node is not a node: AsNode of what NewObject and NewArray return is nil. */
  lemma {:induction false} TmpHandleIsNoNode(a: Arena, sz: nat)
    requires a.Valid()
    ensures a.NewObject(sz).0.AsNode(a.NewObject(sz).1).None?
    ensures a.NewArray(sz).0.AsNode(a.NewArray(sz).1).None?
    ensures a.NewObject(sz).0.Kind(a.NewObject(sz).1) == KindNil
  {
  }

  /** Every operation keeps the store valid and leaves what it had untouched except the temporary node it writes. */
  lemma {:induction false} SetKeepsValid(a: Arena, m: nat, i: nat, k: string, v: nat)
    requires a.Valid()
    ensures a.SetValue(m, i, v).Ok? ==> a.SetValue(m, i, v).value.Valid()
    ensures a.SetKeyValue(m, k, v).Ok? ==> a.SetKeyValue(m, k, v).value.Valid()
  {
  }

  /** Asking for the same child twice gives two different handles for the same node. */
  lemma {:induction false} ValueAtTwice(a: Arena, h: nat, i: nat)
    requires a.Valid()
    requires a.ValueAt(h, i).Ok? && a.ValueAt(h, i).value.1 != NilHandle
    ensures var (b, g1) := a.ValueAt(h, i).value;
      b.ValueAt(h, i).Ok? && b.ValueAt(h, i).value.1 == g1 + 1 &&
      b.ValueAt(h, i).value.0.AsNode(g1 + 1).value.n == b.ValueAt(h, i).value.0.AsNode(g1).value.n
  {
    var (b, g1) := a.ValueAt(h, i).value;
    assert b.AsNode(h) == a.AsNode(h);
  }

  /** Build as written hands the built node a new handle: the handle of the temporary node no longer leads to it. */
  lemma {:induction false} BuildMovesHandle(a: Arena, h: nat)
    requires a.Valid() && h in a.tmp && a.tmp[h].TmpObj?
    ensures var (b, nd) := a.Build(h); nd.Some? && nd.value.h != h && b.AsNode(h).None?
  {
  }

  /** Build in place keeps the handle: afterwards AsNode of it is the built node. */
  lemma {:induction false} BuildInPlaceKeepsHandle(a: Arena, h: nat)
    requires h in a.tmp && !a.tmp[h].TmpBuilt?
    ensures var (b, nd) := a.BuildInPlace(h); nd.Some? && nd.value.h == h && b.AsNode(h) == nd && b.AsTmpNode(h) == Some(TmpBuilt)
  {
  }

  lemma {:induction false} KeepsTrans(a: Arena, b: Arena, c: Arena)
    requires a.Keeps(b) && b.Keeps(c)
    ensures a.Keeps(c)
  {
  }

  /** Rewriting a temporary node made after a leaves what a had untouched. */
  lemma {:induction false} KeepsTmpAbove(a: Arena, b: Arena, m: nat, t: TmpNode)
    requires a.Valid() && a.Keeps(b) && m > a.last
    ensures a.Keeps(b.(tmp := b.tmp[m := t]))
  {
  }

  /** Rewriting a temporary node that is being filled with new content keeps the store valid. */
  lemma {:induction false} ValidTmpUpdate(b: Arena, m: nat, t: TmpNode)
    requires b.Valid() && m in b.tmp && !b.tmp[m].TmpBuilt? && !t.TmpBuilt?
    ensures b.(tmp := b.tmp[m := t]).Valid()
  {
  }

  // ------------------------------------------------------------ the class

  /** goNodes: the store, changed in place by its methods. */
  class GoNodes {
    var last: nat
    var nodes: map<nat, Node>
    var tmp: map<nat, TmpNode>

    function Contents(): Arena
      reads this
    {
      Arena(last, nodes, tmp)
    }

    constructor ()
      ensures Contents() == EmptyArena
    {
      last := 0;
      nodes := map[];
      tmp := map[];
    }

    method Next() returns (h: nat)
      modifies this
      ensures (Contents(), h) == old(Contents()).Next()
    {
      last := last + 1;
      h := last;
    }

    method Free()
      modifies this
      ensures Contents() == old(Contents()).Free()
    {
      nodes := map[];
    }

    method ToHandle(n: Node) returns (h: nat)
      modifies this
      ensures (Contents(), h) == old(Contents()).ToHandle(n)
    {
      if n == Null {
        return NilHandle;
      }
      h := Next();
      nodes := nodes[h := n];
    }

    method ToNode(n: Node) returns (nd: Option<GoNode>)
      modifies this
      ensures (Contents(), nd) == old(Contents()).ToNode(n)
    {
      if n == Null {
        return None;
      }
      var h := ToHandle(n);
      nd := Some(GoNode(h, n));
    }

    method NewTmp(t: TmpNode) returns (h: nat)
      modifies this
      ensures (Contents(), h) == old(Contents()).NewTmp(t)
    {
      h := Next();
      tmp := tmp[h := t];
    }

    method NewObject(sz: nat) returns (h: nat)
      modifies this
      ensures (Contents(), h) == old(Contents()).NewObject(sz)
    {
      h := NewTmp(TmpObj(map[]));
    }

    method NewArray(sz: nat) returns (h: nat)
      modifies this
      ensures (Contents(), h) == old(Contents()).NewArray(sz)
    {
      h := NewTmp(TmpArr(seq(sz, _ => Null)));
    }

    /** NewString, NewInt, NewUint, NewFloat and NewBool: the value registered through toNode; the C side gets its handle. */
    method NewValue(v: Node) returns (h: nat)
      requires IsValue(v)
      modifies this
      ensures (Contents(), h) == old(Contents()).ToHandle(v)
      ensures h != NilHandle
    {
      var nd := ToNode(v);
      h := nd.value.h;
    }

    /** uastSetValue with goTmpNode.SetValue; a panic leaves the store as it was. */
    method SetValue(m: nat, i: nat, v: nat) returns (p: Option<Panic>)
      modifies this
      ensures old(Contents()).SetValue(m, i, v).Ok? ==> p.None? && Contents() == old(Contents()).SetValue(m, i, v).value
      ensures old(Contents()).SetValue(m, i, v).Err? ==> p == Some(old(Contents()).SetValue(m, i, v).error) && Contents() == old(Contents())
    {
      if m !in tmp {
        return None;
      }
      var n := tmp[m];
      if !n.TmpArr? {
        return Some(NotAnArray);
      }
      if v in nodes && nodes[v] != Null {
        if i >= |n.arr| {
          return Some(IndexOutOfRange);
        }
        tmp := tmp[m := TmpArr(n.arr[i := nodes[v]])];
      }
      p := None;
    }

    /** uastSetKeyValue with goTmpNode.SetKeyValue. */
    method SetKeyValue(m: nat, k: string, v: nat) returns (p: Option<Panic>)
      modifies this
      ensures old(Contents()).SetKeyValue(m, k, v).Ok? ==> p.None? && Contents() == old(Contents()).SetKeyValue(m, k, v).value
      ensures old(Contents()).SetKeyValue(m, k, v).Err? ==> p == Some(NotAnObject) && Contents() == old(Contents())
    {
      if m !in tmp {
        return None;
      }
      var n := tmp[m];
      if !n.TmpObj? {
        return Some(NotAnObject);
      }
      if v in nodes && nodes[v] != Null {
        tmp := tmp[m := TmpObj(n.obj[k := nodes[v]])];
      } else {
        tmp := tmp[m := TmpObj(n.obj[k := Null])];
      }
      p := None;
    }

    /** goTmpNode.Build, as written. */
    method Build(h: nat) returns (nd: Option<GoNode>)
      requires h in tmp
      modifies this
      ensures (Contents(), nd) == old(Contents()).Build(h)
    {
      var n := tmp[h];
      if n.TmpObj? {
        nd := ToNode(Obj(n.obj));
        tmp := tmp[h := TmpBuilt];
      } else if n.TmpArr? {
        nd := ToNode(Arr(n.arr));
        tmp := tmp[h := TmpBuilt];
      } else {
        nd := None;
      }
    }

    /** uastKeyAt on goNode.KeyAt. */
    method KeyAt(h: nat, i: nat) returns (r: Result<Option<string>, Panic>)
      ensures r == Contents().KeyAt(h, i)
    {
      if !(h in nodes && nodes[h] != Null) {
        return Ok(None);
      }
      var n := nodes[h];
      if !n.Obj? {
        return Err(NotAnObjectNode);
      }
      var keys := Strings.SortedKeysOf(n.fields);
      if i < |keys| {
        r := Ok(Some(keys[i]));
      } else {
        r := Ok(Some(""));
      }
    }

    /** uastValueAt on goNode.ValueAt: the child is registered under a fresh handle. */
    method ValueAt(h: nat, i: nat) returns (r: Result<nat, Panic>)
      modifies this
      ensures old(Contents()).ValueAt(h, i).Ok? ==> r.Ok? && (Contents(), r.value) == old(Contents()).ValueAt(h, i).value
      ensures old(Contents()).ValueAt(h, i).Err? ==> r == Err(NotAnObjectNode) && Contents() == old(Contents())
    {
      if !(h in nodes && nodes[h] != Null) {
        return Ok(NilHandle);
      }
      var n := nodes[h];
      var child := Null;
      if n.Arr? {
        if i < |n.elems| {
          child := n.elems[i];
        }
      } else if n.Obj? {
        var keys := Strings.SortedKeysOf(n.fields);
        if i < |keys| {
          child := n.fields[keys[i]];
        }
      } else {
        return Err(NotAnObjectNode);
      }
      var g := ToHandle(child);
      r := Ok(g);
    }
  }
}
