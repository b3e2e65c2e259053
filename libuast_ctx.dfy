// Contexts and iterators of libuast: the package keeps every live context
// under its own handle, and each context keeps its iterators under handles
// of its own and the first error raised in it.
module LibuastCtx {
  import opened Wrappers
  import opened Nodes
  import LibuastGo
  import LibuastC

  /** The node implementation a context works on: the Go store or a client's nodes. */
  datatype Impl = GoImpl(g: LibuastGo.GoNodes) | CImpl(cl: LibuastC.Client)

  /** The error message of Error on a nil context. */
  const NilContextError: string := "uast context is nil"

  /** The package variables last and ctxes. */
  class Registry {
    var last: nat
    var ctxes: map<nat, Context>

    /** Every context is registered under its own handle, a handle handed out already. */
    ghost predicate Valid()
      reads this
    {
      forall k :: k in ctxes ==> 0 < k <= last && ctxes[k].h == k
    }

    constructor ()
      ensures last == 0 && ctxes == map[] && Valid()
    {
      last := 0;
      ctxes := map[];
    }

    /** newContext: a new context under the next handle, registered. */
    method NewContext(impl: Impl) returns (c: Context)
      requires Valid()
      modifies this
      ensures Valid() && fresh(c)
      ensures c.h == old(last) + 1 && last == c.h && c.h !in old(ctxes)
      ensures ctxes == old(ctxes)[c.h := c]
      ensures c.impl == impl && c.lasth == 0 && c.last.None? && c.iters == map[] && c.Valid()
    {
      last := last + 1;
      var h := last;
      c := new Context(h, impl);
      ctxes := ctxes[h := c];
    }

    /** getContext: the context registered under h, or nil. */
    function GetContext(h: nat): (c: Context?)
      reads this
      requires Valid()
      ensures c != null <==> h in ctxes
      ensures c != null ==> c == ctxes[h] && c.h == h && h != 0
    {
      if h in ctxes then ctxes[h] else null
    }
  }

  /** Context: a node implementation with its iterators and its first error. */
  class Context {
    var lasth: nat
    const h: nat
    const impl: Impl
    var last: Option<string>
    var iters: map<nat, Iterator>

    /** Every iterator belongs to this context and sits under its own handle. */
    ghost predicate Valid()
      reads this
    {
      forall k :: k in iters ==> 0 < k <= lasth && iters[k].h == k && iters[k].c == this
    }

    constructor (h: nat, impl: Impl)
      ensures this.h == h && this.impl == impl && lasth == 0 && last.None? && iters == map[] && Valid()
    {
      lasth := 0;
      this.h := h;
      this.impl := impl;
      last := None;
      iters := map[];
    }

    /** next: the next handle of this context; handles only grow. */
    method Next() returns (r: nat)
      modifies this
      ensures r == old(lasth) + 1 && lasth == r
      ensures last == old(last) && iters == old(iters)
    {
      lasth := lasth + 1;
      r := lasth;
    }

    /** setError: only the first error is kept. */
    method SetError(e: string)
      modifies this
      ensures old(last).None? ==> last == Some(e)
      ensures old(last).Some? ==> last == old(last)
      ensures lasth == old(lasth) && iters == old(iters)
    {
      if last.None? {
        last := Some(e);
      }
    }

    /** NewIterator: the enumeration bound to a new handle of this context. */
    method NewIterator(nodes: seq<Node>) returns (it: Iterator)
      requires Valid()
      modifies this
      ensures Valid() && fresh(it)
      ensures it.h == old(lasth) + 1 && it.h !in old(iters) && it.c == this && it.it == Some(nodes)
      ensures iters == old(iters)[it.h := it] && last == old(last)
    {
      var ih := Next();
      it := new Iterator(this, ih, nodes);
      iters := iters[ih := it];
    }

    /** AsIterator: the iterator under handle ih, or nil. */
    function AsIterator(ih: nat): (r: Iterator?)
      reads this
      requires Valid()
      ensures r != null <==> ih in iters
      ensures r != null ==> r.h == ih && r.c == this && ih != 0
    {
      if ih in iters then iters[ih] else null
    }
  }

  /** Iterator: what is left of an enumeration; None once closed. */
  class Iterator {
    const c: Context?
    const h: nat
    var it: Option<seq<Node>>

    constructor (c: Context?, h: nat, nodes: seq<Node>)
      ensures this.c == c && this.h == h && it == Some(nodes)
    {
      this.c := c;
      this.h := h;
      it := Some(nodes);
    }
  }

  /** Context.Handle: 0 for a nil context. */
  function ContextHandle(c: Context?): (h: nat)
    ensures c == null ==> h == 0
    ensures c != null ==> h == c.h
  {
    if c == null then 0 else c.h
  }

  /** Iterator.Handle: 0 for a nil iterator. */
  function IteratorHandle(it: Iterator?): (h: nat)
    ensures it == null ==> h == 0
    ensures it != null ==> h == it.h
  {
    if it == null then 0 else it.h
  }

  /** A registered context is never confused with nil: its handle leads back to it. */
  lemma {:induction false} ContextHandleRoundTrip(reg: Registry, c: Context?)
    requires reg.Valid()
    requires c != null && c.h in reg.ctxes && reg.ctxes[c.h] == c
    ensures ContextHandle(c) != 0 && reg.GetContext(ContextHandle(c)) == c
  {
  }

  /** An iterator of a context is found again by its handle, which is not 0. */
  lemma {:induction false} IteratorHandleRoundTrip(c: Context, it: Iterator?)
    requires c.Valid()
    requires it != null && it.h in c.iters && c.iters[it.h] == it
    ensures IteratorHandle(it) != 0 && c.AsIterator(IteratorHandle(it)) == it
  {
  }

  /** Context.Error: the first error of the context; a nil context is an error of its own. */
  function ContextError(c: Context?): (r: Option<string>)
    reads c
    ensures c == null ==> r == Some(NilContextError)
    ensures c != null ==> r == c.last
  {
    if c == null then Some(NilContextError) else c.last
  }

  /** free: deregister the context, free its nodes and drop its iterators. */
  method Free(reg: Registry, c: Context?)
    requires reg.Valid()
    modifies reg, if c != null then {c} else {}
    modifies if c != null && c.impl.GoImpl? then {c.impl.g} else {}
    ensures reg.Valid() && reg.last == old(reg.last)
    ensures c == null ==> reg.ctxes == old(reg.ctxes)
    ensures c != null ==> reg.ctxes == old(reg.ctxes) - {c.h} && c.iters == map[] && c.Valid()
    ensures c != null && c.impl.GoImpl? ==> c.impl.g.Contents() == old(c.impl.g.Contents()).Free()
  {
    if c == null {
      return;
    }
    reg.ctxes := reg.ctxes - {c.h};
    match c.impl {
      case GoImpl(g) => g.Free();
      case CImpl(_) =>
    }
    c.iters := map[];
  }

  /** Iterator.Next: the next node; nil for a nil, closed or exhausted iterator. */
  method IterNext(it: Iterator?) returns (n: Node)
    modifies if it != null then {it} else {}
    ensures it == null || old(it.it).None? || old(it.it) == Some([]) ==> n == Null
    ensures it != null ==> (old(it.it).None? || old(it.it) == Some([]) <==> it.it == old(it.it))
    ensures it != null && old(it.it).Some? && old(it.it) != Some([]) ==>
      n == old(it.it).value[0] && it.it == Some(old(it.it).value[1..])
  {
    if it == null || it.it.None? || it.it.value == [] {
      return Null;
    }
    n := it.it.value[0];
    it.it := Some(it.it.value[1..]);
  }

  /** Iterator.Close: the iterator leaves its context and yields nothing more. */
  method Close(it: Iterator?)
    requires it != null && it.c != null ==> it.c.Valid()
    modifies if it != null then {it} else {}
    modifies if it != null && it.c != null then {it.c} else {}
    ensures it != null && it.c != null ==>
      it.c.iters == old(it.c.iters) - {it.h} && it.it.None? && it.c.Valid() && it.c.AsIterator(it.h) == null
    ensures it != null && it.c != null ==> it.c.last == old(it.c.last) && it.c.lasth == old(it.c.lasth)
    ensures it != null && it.c == null ==> it.it == old(it.it)
  {
    if it == null || it.c == null {
      return;
    }
    it.c.iters := it.c.iters - {it.h};
    it.it := None;
  }
}
