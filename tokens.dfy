// The token positioner (uast/transformer/positioner/tokens.go): the token of
// a node is the slice of the source between its start and end byte offsets.
// TokenFromSource stores that slice under the token key of every matching
// node; VerifyTokenPositions checks that the stored tokens agree with it.
module Tokens {
  import opened Wrappers
  import opened Nodes
  import opened Strings
  import UastNode
  import Utf8

  /** A position as far as the positioner reads it: its byte offset and whether that offset is set. */
  datatype Pos = Pos(offset: nat, hasOffset: bool)

  /** The positions of a node (uast.PositionsOf): none at all, or an optional start and end. */
  datatype Positions = NoPositions | Positions(start: Option<Pos>, end: Option<Pos>)

  /** The errors the positioner reports. */
  datatype TokError =
    | StartAfterEnd(start: nat, end: nat)
    | OutOfBounds(end: nat, size: nat)
    | WrongToken(nodeType: string, stored: string, fromSource: string)

  /** tokenFilter: the source, the key the token lives under, and the accepted types (None: any type). */
  datatype Filter = Filter(source: string, tokenKey: string, types: Option<set<string>>)

  /** Reads the positions of an object; how they are stored is not part of this model. */
  type PosOf = map<string, Node> -> Positions

  const Two32: nat := 0x1_0000_0000

  /** newTokenFilter: the key defaults to @token, and an empty type list accepts every type. */
  function NewFilter(source: string, key: string, types: seq<string>): (f: Filter)
    ensures f.source == source && f.tokenKey != ""
    ensures key != "" ==> f.tokenKey == key
    ensures f.types.None? <==> |types| == 0
    ensures f.types.Some? ==> forall t :: t in f.types.value <==> t in types
  {
    Filter(source, if key == "" then UastNode.KeyToken else key,
           if |types| != 0 then Some(set t | t in types) else None)
  }

  /** tokenFilter.filterObj: an object that has the token key and, when types are given, one of those types. */
  function FilterObj(f: Filter, n: Node): (r: Option<map<string, Node>>)
    ensures r.Some? <==>
      n.Obj? && f.tokenKey in n.fields &&
      (f.types.Some? ==> UastNode.Type(n.fields) != "" && UastNode.Type(n.fields) in f.types.value)
    ensures r.Some? ==> r.value == n.fields
  {
    match n
    case Obj(m) =>
      if f.tokenKey !in m then None
      else if f.types.None? then Some(m)
      else if !(UastNode.KeyType in m && m[UastNode.KeyType].Str?) then None
      else if m[UastNode.KeyType].s == "" || m[UastNode.KeyType].s !in f.types.value then None
      else Some(m)
    case _ => None
  }

  /** Both ends are present and carry an offset. */
  predicate HasOffsets(p: Positions)
  {
    p.Positions? && p.start.Some? && p.end.Some? && p.start.value.hasOffset && p.end.value.hasOffset
  }

  /**
   * tokenFromPos: Ok(None) when the node has no usable offsets, an error when
   * the start is past the end or the end past the source, and the slice
   * otherwise. The source length is compared as a 32-bit unsigned value.
   */
  function TokenFromPos(f: Filter, p: Positions): (r: Result<Option<string>, TokError>)
    ensures r == Ok(None) <==> !HasOffsets(p)
    ensures r.Ok? && r.value.Some? ==>
      p.start.value.offset <= p.end.value.offset <= |f.source| &&
      r.value.value == f.source[p.start.value.offset..p.end.value.offset]
    ensures r.Err? ==> (HasOffsets(p) &&
      if p.start.value.offset > p.end.value.offset
      then r.error == StartAfterEnd(p.start.value.offset, p.end.value.offset)
      else p.end.value.offset > |f.source| % Two32 &&
           r.error == OutOfBounds(p.end.value.offset, |f.source| % Two32))
  {
    if !HasOffsets(p) then Ok(None)
    else
      var si := p.start.value.offset;
      var ei := p.end.value.offset;
      if si > ei then Err(StartAfterEnd(si, ei))
      else if ei > |f.source| % Two32 then Err(OutOfBounds(ei, |f.source| % Two32))
      else Ok(Some(f.source[si..ei]))
  }

  /**
   * tokenFromPos as Go runs it, on the UTF-8 bytes of the source: the
   * offsets are byte offsets and the bound is the byte length. The model's
   * filter holds the source as code points and TokenFromPos reads the offsets
   * as code-point indices; the lemmas below say where the two agree.
   */
  function TokenFromPosBytes(src: seq<Utf8.Byte>, p: Positions): (r: Result<Option<seq<Utf8.Byte>>, TokError>)
    ensures r == Ok(None) <==> !HasOffsets(p)
    ensures r.Ok? && r.value.Some? ==>
      p.start.value.offset <= p.end.value.offset <= |src| &&
      r.value.value == src[p.start.value.offset..p.end.value.offset]
    ensures r.Err? ==> (HasOffsets(p) &&
      if p.start.value.offset > p.end.value.offset
      then r.error == StartAfterEnd(p.start.value.offset, p.end.value.offset)
      else p.end.value.offset > |src| % Two32 && r.error == OutOfBounds(p.end.value.offset, |src| % Two32))
  {
    if !HasOffsets(p) then Ok(None)
    else
      var si := p.start.value.offset;
      var ei := p.end.value.offset;
      if si > ei then Err(StartAfterEnd(si, ei))
      else if ei > |src| % Two32 then Err(OutOfBounds(ei, |src| % Two32))
      else Ok(Some(src[si..ei]))
  }

  /** A result of TokenFromPos with the token taken to its UTF-8 bytes. */
  function EncodeToken(r: Result<Option<string>, TokError>): Result<Option<seq<Utf8.Byte>>, TokError>
  {
    match r
    case Ok(t) => if t.Some? then Ok(Some(Utf8.Encode(t.value))) else Ok(None)
    case Err(e) => Err(e)
  }

  /** On an ASCII source, code-point and byte offsets coincide: TokenFromPos gives what Go gives. */
  lemma {:induction false} TokenFromPosAscii(f: Filter, p: Positions)
    requires Utf8.Ascii(f.source)
    ensures TokenFromPosBytes(Utf8.Encode(f.source), p) == EncodeToken(TokenFromPos(f, p))
  {
    var src := f.source;
    Utf8.EncodeAscii(src);
    if HasOffsets(p) {
      var si := p.start.value.offset;
      var ei := p.end.value.offset;
      if si <= ei <= |src| % Two32 {
        var tok := src[si..ei];
        assert Utf8.Ascii(tok) by {
          forall k | 0 <= k < |tok| ensures tok[k] as int < 0x80 {
            assert tok[k] == src[si + k];
          }
        }
        Utf8.EncodeAscii(tok);
        assert Utf8.Encode(src)[si..ei] == Utf8.Encode(tok) by {
          forall k | 0 <= k < ei - si ensures Utf8.Encode(src)[si..ei][k] == Utf8.Encode(tok)[k] {
            assert tok[k] == src[si + k];
          }
        }
      }
    }
  }

  /**
   * On any source, offsets that are the byte lengths of two prefixes (as the
   * positional index computes them) give Go the bytes of the characters between.
   */
  lemma {:induction false} TokenFromPosAtBoundaries(f: Filter, p: Positions, i: nat, j: nat)
    requires HasOffsets(p) && i <= j <= |f.source| && |Utf8.Encode(f.source)| < Two32
    requires p.start.value.offset == |Utf8.Encode(f.source[..i])|
    requires p.end.value.offset == |Utf8.Encode(f.source[..j])|
    ensures TokenFromPosBytes(Utf8.Encode(f.source), p) == Ok(Some(Utf8.Encode(f.source[i..j])))
  {
    var s := f.source;
    assert s[..j] == s[..i] + s[i..j];
    assert s == s[..j] + s[j..];
    Utf8.EncodeAppend(s[..i], s[i..j]);
    Utf8.EncodeAppend(s[..j], s[j..]);
    var e := Utf8.Encode(s);
    assert e[|Utf8.Encode(s[..i])|..|Utf8.Encode(s[..j])|] == Utf8.Encode(s[i..j]);
  }

  /**
   * Where the text before the end offset is not ASCII the two differ: in "é=x"
   * the bytes 3 to 4 are "x" for Go, but past the three code points for the model.
   */
  lemma {:induction false} TokenFromPosNonAsciiDiffers(f: Filter, p: Positions)
    requires f.source == "\U{E9}=x" && p == Positions(Some(Pos(3, true)), Some(Pos(4, true)))
    ensures TokenFromPosBytes(Utf8.Encode(f.source), p) == Ok(Some(Utf8.Encode("x")))
    ensures TokenFromPos(f, p) == Err(OutOfBounds(4, 3))
  {
    assert Utf8.Encode(f.source) == [0xC3, 0xA9, 0x3D, 0x78] by {
      assert f.source[1..] == "=x" && "=x"[1..] == "x" && "x"[1..] == [];
    }
    assert Utf8.Encode("x") == [0x78] by {
      assert "x"[1..] == [];
    }
    assert Utf8.Encode(f.source)[3..4] == [0x78];
  }

  /**
   * For a source shorter than 2^32 the token is found exactly when the offsets
   * are set, ordered and inside the source.
   */
  lemma {:induction false} TokenFromPosInRange(f: Filter, p: Positions)
    requires |f.source| < Two32 && HasOffsets(p)
    ensures TokenFromPos(f, p).Ok? <==> p.start.value.offset <= p.end.value.offset <= |f.source|
    ensures TokenFromPos(f, p).Err? ==>
      (TokenFromPos(f, p).error.StartAfterEnd? <==> p.start.value.offset > p.end.value.offset)
  {
  }

  // ------------------------------------------------------------ TokenFromSource.Do

  /**
   * The walk of Do from node n on, given the error seen so far: the node with
   * its tokens set, and the first error. Once an error is seen every later
   * visit returns false, so nothing else changes. Objects are visited in
   * sorted key order. A token just stored is a string and visiting it does
   * nothing, so the rewrite of a matched object skips the token key.
   */
  ghost function Rewrite(f: Filter, pos: PosOf, n: Node, last: Option<TokError>): (Node, Option<TokError>)
    decreases n, 2, 0
  {
    if last.Some? then (n, last)
    else
      match FilterObj(f, n)
      case None => Descend(f, pos, n)
      case Some(m) =>
        match TokenFromPos(f, pos(m))
        case Err(e) => (n, Some(e))
        case Ok(None) => Descend(f, pos, n)
        case Ok(Some(t)) =>
          var (m', l) := RewriteFields(f, pos, m, SortedKeys(m.Keys), 0, Some(f.tokenKey), m[f.tokenKey := Str(t)], None);
          (Obj(m'), l)
  }

  /** The walk going on below n without an error so far. */
  ghost function Descend(f: Filter, pos: PosOf, n: Node): (Node, Option<TokError>)
    decreases n, 1, 0
  {
    match n
    case Obj(m) =>
      var (m', l) := RewriteFields(f, pos, m, SortedKeys(m.Keys), 0, None, m, None);
      (Obj(m'), l)
    case Arr(s) =>
      var (s', l) := RewriteElems(f, pos, s, 0, [], None);
      (Arr(s'), l)
    case _ => (n, None)
  }

  /** The walk over the fields keys[i..] of m, each rewritten field stored into acc. */
  ghost function RewriteFields(f: Filter, pos: PosOf, m: map<string, Node>, keys: seq<string>, i: nat,
                               skip: Option<string>, acc: map<string, Node>, last: Option<TokError>)
    : (map<string, Node>, Option<TokError>)
    requires i <= |keys| && forall k :: k in keys ==> k in m
    decreases Obj(m), 0, |keys| - i
  {
    if i == |keys| then (acc, last)
    else if skip == Some(keys[i]) then RewriteFields(f, pos, m, keys, i + 1, skip, acc, last)
    else
      var (v, l) := Rewrite(f, pos, m[keys[i]], last);
      RewriteFields(f, pos, m, keys, i + 1, skip, acc[keys[i] := v], l)
  }

  /** The walk over the elements s[i..], the rewritten elements appended to acc. */
  ghost function RewriteElems(f: Filter, pos: PosOf, s: seq<Node>, i: nat, acc: seq<Node>, last: Option<TokError>)
    : (seq<Node>, Option<TokError>)
    requires i <= |s|
    decreases Arr(s), 0, |s| - i
  {
    if i == |s| then (acc, last)
    else
      var (v, l) := Rewrite(f, pos, s[i], last);
      RewriteElems(f, pos, s, i + 1, acc + [v], l)
  }

  /** The callback of Do on one node, with the walk of its children done by the same method. */
  method RewriteNode(f: Filter, pos: PosOf, n: Node, last: Option<TokError>) returns (r: Node, err: Option<TokError>)
    ensures (r, err) == Rewrite(f, pos, n, last)
    decreases n, 2, 0
  {
    if last.Some? {
      return n, last;
    }
    var obj := FilterObj(f, n);
    if obj.None? {
      r, err := DescendNode(f, pos, n);
      return;
    }
    var m := obj.value;
    var tok := TokenFromPos(f, pos(m));
    if tok.Err? {
      return n, Some(tok.error);
    }
    if tok.value.None? {
      r, err := DescendNode(f, pos, n);
      return;
    }
    var keys := SortedKeysOf(m);
    var m';
    m', err := RewriteFieldsLoop(f, pos, m, keys, Some(f.tokenKey), m[f.tokenKey := Str(tok.value.value)]);
    r := Obj(m');
  }

  method DescendNode(f: Filter, pos: PosOf, n: Node) returns (r: Node, err: Option<TokError>)
    ensures (r, err) == Descend(f, pos, n)
    decreases n, 1, 0
  {
    match n {
      case Obj(m) =>
        var keys := SortedKeysOf(m);
        var m';
        m', err := RewriteFieldsLoop(f, pos, m, keys, None, m);
        r := Obj(m');
      case Arr(s) =>
        var acc: seq<Node> := [];
        err := None;
        for i := 0 to |s|
          invariant RewriteElems(f, pos, s, i, acc, err) == RewriteElems(f, pos, s, 0, [], None)
        {
          var v;
          v, err := RewriteNode(f, pos, s[i], err);
          acc := acc + [v];
        }
        r := Arr(acc);
      case _ =>
        r, err := n, None;
    }
  }

  method RewriteFieldsLoop(f: Filter, pos: PosOf, m: map<string, Node>, keys: seq<string>,
                           skip: Option<string>, acc0: map<string, Node>)
    returns (acc: map<string, Node>, err: Option<TokError>)
    requires forall k :: k in keys ==> k in m
    ensures (acc, err) == RewriteFields(f, pos, m, keys, 0, skip, acc0, None)
    decreases Obj(m), 0, |keys|
  {
    acc, err := acc0, None;
    for i := 0 to |keys|
      invariant RewriteFields(f, pos, m, keys, i, skip, acc, err) == RewriteFields(f, pos, m, keys, 0, skip, acc0, None)
    {
      if skip != Some(keys[i]) {
        var v;
        v, err := RewriteNode(f, pos, m[keys[i]], err);
        acc := acc[keys[i] := v];
      }
    }
  }

  /** TokenFromSource.Do: the tree with its tokens set, and the first error met. */
  method Do(source: string, key: string, types: seq<string>, pos: PosOf, root: Node) returns (r: Node, err: Option<TokError>)
    ensures (r, err) == Rewrite(NewFilter(source, key, types), pos, root, None)
  {
    r, err := RewriteNode(NewFilter(source, key, types), pos, root, None);
  }

  // --------------------------------------------------- VerifyToken.Verify

  /** The callback of Verify on one node: the error it reports, if any. */
  function Visit(f: Filter, pos: PosOf, n: Node): Option<TokError>
  {
    match FilterObj(f, n)
    case None => None
    case Some(m) =>
      if !m[f.tokenKey].Str? then None
      else
        match TokenFromPos(f, pos(m))
        case Err(e) => Some(e)
        case Ok(None) => None
        case Ok(Some(t)) =>
          if m[f.tokenKey].s != t then Some(WrongToken(UastNode.Type(m), m[f.tokenKey].s, t)) else None
  }

  /** The walk of Verify from n on, given the error seen so far: the first error. */
  ghost function Check(f: Filter, pos: PosOf, n: Node, last: Option<TokError>): (r: Option<TokError>)
    ensures last.Some? ==> r == last
    decreases n, 2, 0
  {
    if last.Some? then last
    else if Visit(f, pos, n).Some? then Visit(f, pos, n)
    else CheckKids(f, pos, n)
  }

  ghost function CheckKids(f: Filter, pos: PosOf, n: Node): Option<TokError>
    decreases n, 1, 0
  {
    match n
    case Obj(m) => CheckFields(f, pos, m, SortedKeys(m.Keys), 0, None)
    case Arr(s) => CheckElems(f, pos, s, 0, None)
    case _ => None
  }

  ghost function CheckFields(f: Filter, pos: PosOf, m: map<string, Node>, keys: seq<string>, i: nat, last: Option<TokError>)
    : (r: Option<TokError>)
    requires i <= |keys| && forall k :: k in keys ==> k in m
    ensures last.Some? ==> r == last
    decreases Obj(m), 0, |keys| - i
  {
    if i == |keys| then last
    else CheckFields(f, pos, m, keys, i + 1, Check(f, pos, m[keys[i]], last))
  }

  ghost function CheckElems(f: Filter, pos: PosOf, s: seq<Node>, i: nat, last: Option<TokError>): (r: Option<TokError>)
    requires i <= |s|
    ensures last.Some? ==> r == last
    decreases Arr(s), 0, |s| - i
  {
    if i == |s| then last
    else CheckElems(f, pos, s, i + 1, Check(f, pos, s[i], last))
  }

  method CheckNode(f: Filter, pos: PosOf, n: Node, last: Option<TokError>) returns (err: Option<TokError>)
    ensures err == Check(f, pos, n, last)
    decreases n, 2, 0
  {
    if last.Some? {
      return last;
    }
    err := Visit(f, pos, n);
    if err.Some? {
      return;
    }
    match n {
      case Obj(m) =>
        var keys := SortedKeysOf(m);
        for i := 0 to |keys|
          invariant CheckFields(f, pos, m, keys, i, err) == CheckFields(f, pos, m, keys, 0, None)
        {
          err := CheckNode(f, pos, m[keys[i]], err);
        }
      case Arr(s) =>
        for i := 0 to |s|
          invariant CheckElems(f, pos, s, i, err) == CheckElems(f, pos, s, 0, None)
        {
          err := CheckNode(f, pos, s[i], err);
        }
      case _ =>
    }
  }

  /** VerifyToken.Verify: the first node whose stored token disagrees with the source, or a position error. */
  method Verify(code: string, key: string, types: seq<string>, pos: PosOf, root: Node) returns (err: Option<TokError>)
    ensures err == Check(NewFilter(code, key, types), pos, root, None)
  {
    err := CheckNode(NewFilter(code, key, types), pos, root, None);
  }

  // ------------------------------------------------------------ properties

  /**
   * b is a with tokens set: the same shape and leaves, except that the token
   * key of an object kept by the filter may now hold a string.
   */
  ghost predicate Retokened(f: Filter, a: Node, b: Node)
    decreases a
  {
    match a
    case Obj(m) =>
      b.Obj? && b.fields.Keys == m.Keys &&
      forall k :: k in m ==> Retokened(f, m[k], b.fields[k]) || (k == f.tokenKey && FilterObj(f, a).Some? && b.fields[k].Str?)
    case Arr(s) =>
      b.Arr? && |b.elems| == |s| && forall i :: 0 <= i < |s| ==> Retokened(f, s[i], b.elems[i])
    case _ => b == a
  }

  /** What field k of m may become when the object Obj(m) is rewritten. */
  ghost predicate GoodField(f: Filter, m: map<string, Node>, k: string, v: Node)
    requires k in m
  {
    Retokened(f, m[k], v) || (k == f.tokenKey && FilterObj(f, Obj(m)).Some? && v.Str?)
  }

  lemma {:induction false} RetokenedRefl(f: Filter, n: Node)
    ensures Retokened(f, n, n)
    decreases n
  {
    match n {
      case Obj(m) =>
        forall k | k in m ensures Retokened(f, m[k], m[k]) {
          RetokenedRefl(f, m[k]);
        }
      case Arr(s) =>
        forall i | 0 <= i < |s| ensures Retokened(f, s[i], s[i]) {
          RetokenedRefl(f, s[i]);
        }
      case _ =>
    }
  }

  /** Do changes nothing but tokens: its result is its input retokened. */
  lemma {:induction false} RewriteShape(f: Filter, pos: PosOf, n: Node, last: Option<TokError>)
    ensures Retokened(f, n, Rewrite(f, pos, n, last).0)
    decreases n, 2, 0
  {
    if last.Some? {
      RetokenedRefl(f, n);
    } else {
      match FilterObj(f, n)
      case None => DescendShape(f, pos, n);
      case Some(m) =>
        match TokenFromPos(f, pos(m))
        case Err(e) => RetokenedRefl(f, n);
        case Ok(None) => DescendShape(f, pos, n);
        case Ok(Some(t)) =>
          var keys := SortedKeys(m.Keys);
          assert keys[0..] == keys;
          FieldsShape(f, pos, m, keys, 0, Some(f.tokenKey), m[f.tokenKey := Str(t)], None);
    }
  }

  lemma {:induction false} DescendShape(f: Filter, pos: PosOf, n: Node)
    ensures Retokened(f, n, Descend(f, pos, n).0)
    decreases n, 1, 0
  {
    match n {
      case Obj(m) =>
        var keys := SortedKeys(m.Keys);
        assert keys[0..] == keys;
        FieldsShape(f, pos, m, keys, 0, None, m, None);
      case Arr(s) =>
        ElemsShape(f, pos, s, 0, [], None);
      case _ =>
    }
  }

  lemma {:induction false} FieldsShape(f: Filter, pos: PosOf, m: map<string, Node>, keys: seq<string>, i: nat,
                                       skip: Option<string>, acc: map<string, Node>, last: Option<TokError>)
    requires i <= |keys| && forall k :: k in keys ==> k in m
    requires acc.Keys == m.Keys
    requires forall k :: k in m && k !in keys[i..] ==> GoodField(f, m, k, acc[k])
    requires skip.Some? ==> skip.value in m && GoodField(f, m, skip.value, acc[skip.value])
    ensures RewriteFields(f, pos, m, keys, i, skip, acc, last).0.Keys == m.Keys
    ensures forall k :: k in m ==> GoodField(f, m, k, RewriteFields(f, pos, m, keys, i, skip, acc, last).0[k])
    decreases Obj(m), 0, |keys| - i
  {
    if i < |keys| {
      assert keys[i..] == [keys[i]] + keys[i + 1..];
      if skip == Some(keys[i]) {
        FieldsShape(f, pos, m, keys, i + 1, skip, acc, last);
      } else {
        var (v, l) := Rewrite(f, pos, m[keys[i]], last);
        RewriteShape(f, pos, m[keys[i]], last);
        FieldsShape(f, pos, m, keys, i + 1, skip, acc[keys[i] := v], l);
      }
    }
  }

  lemma {:induction false} ElemsShape(f: Filter, pos: PosOf, s: seq<Node>, i: nat, acc: seq<Node>, last: Option<TokError>)
    requires i <= |s| && |acc| == i
    requires forall j :: 0 <= j < i ==> Retokened(f, s[j], acc[j])
    ensures |RewriteElems(f, pos, s, i, acc, last).0| == |s|
    ensures forall j :: 0 <= j < |s| ==> Retokened(f, s[j], RewriteElems(f, pos, s, i, acc, last).0[j])
    decreases Arr(s), 0, |s| - i
  {
    if i < |s| {
      var (v, l) := Rewrite(f, pos, s[i], last);
      RewriteShape(f, pos, s[i], last);
      ElemsShape(f, pos, s, i + 1, acc + [v], l);
    }
  }

  /** The filter keeps a node exactly when it keeps the node retokened, unless the token key is @type itself. */
  lemma {:induction false} FilterRetokened(f: Filter, a: Node, b: Node)
    requires f.tokenKey != UastNode.KeyType && Retokened(f, a, b)
    ensures FilterObj(f, a).Some? <==> FilterObj(f, b).Some?
  {
    if a.Obj? {
      var m, m' := a.fields, b.fields;
      if UastNode.KeyType in m {
        assert Retokened(f, m[UastNode.KeyType], m'[UastNode.KeyType]);
        match m[UastNode.KeyType] {
          case Obj(_) =>
          case Arr(_) =>
          case _ =>
        }
      }
      assert UastNode.Type(m) == UastNode.Type(m');
    }
  }

  /** A field the walk skips or does not reach keeps its value. */
  lemma {:induction false} FieldsKeep(f: Filter, pos: PosOf, m: map<string, Node>, keys: seq<string>, i: nat,
                                      skip: Option<string>, acc: map<string, Node>, last: Option<TokError>, k: string)
    requires i <= |keys| && forall k :: k in keys ==> k in m
    requires k in acc && (skip == Some(k) || k !in keys[i..])
    ensures k in RewriteFields(f, pos, m, keys, i, skip, acc, last).0
    ensures RewriteFields(f, pos, m, keys, i, skip, acc, last).0[k] == acc[k]
    decreases |keys| - i
  {
    if i < |keys| {
      assert keys[i..] == [keys[i]] + keys[i + 1..];
      if skip == Some(keys[i]) {
        FieldsKeep(f, pos, m, keys, i + 1, skip, acc, last, k);
      } else {
        var (v, l) := Rewrite(f, pos, m[keys[i]], last);
        FieldsKeep(f, pos, m, keys, i + 1, skip, acc[keys[i] := v], l, k);
      }
    }
  }

  /** A walk over fields that ends without an error met none in any field, and stored each field's rewrite. */
  lemma {:induction false} FieldsResult(f: Filter, pos: PosOf, m: map<string, Node>, keys: seq<string>, i: nat,
                                        skip: Option<string>, acc: map<string, Node>)
    requires i <= |keys| && forall k :: k in keys ==> k in m
    requires RewriteFields(f, pos, m, keys, i, skip, acc, None).1 == None
    ensures forall j :: i <= j < |keys| && skip != Some(keys[j]) ==>
      Rewrite(f, pos, m[keys[j]], None).1 == None &&
      keys[j] in RewriteFields(f, pos, m, keys, i, skip, acc, None).0 &&
      RewriteFields(f, pos, m, keys, i, skip, acc, None).0[keys[j]] == Rewrite(f, pos, m[keys[j]], None).0
    decreases |keys| - i
  {
    if i < |keys| {
      var r := RewriteFields(f, pos, m, keys, i, skip, acc, None).0;
      if skip == Some(keys[i]) {
        FieldsResult(f, pos, m, keys, i + 1, skip, acc);
      } else {
        var (v, l) := Rewrite(f, pos, m[keys[i]], None);
        if l.Some? {
          FieldsStick(f, pos, m, keys, i + 1, skip, acc[keys[i] := v], l);
        }
        FieldsResult(f, pos, m, keys, i + 1, skip, acc[keys[i] := v]);
        if keys[i] !in keys[i + 1..] {
          FieldsKeep(f, pos, m, keys, i + 1, skip, acc[keys[i] := v], None, keys[i]);
        } else {
          var j :| i + 1 <= j < |keys| && keys[j] == keys[i];
          assert keys[j] == keys[i + 1..][j - i - 1];
        }
      }
    }
  }

  /** Once an error is seen, the walk over fields keeps it. */
  lemma {:induction false} FieldsStick(f: Filter, pos: PosOf, m: map<string, Node>, keys: seq<string>, i: nat,
                                       skip: Option<string>, acc: map<string, Node>, last: Option<TokError>)
    requires i <= |keys| && forall k :: k in keys ==> k in m
    requires last.Some?
    ensures RewriteFields(f, pos, m, keys, i, skip, acc, last).1 == last
    decreases |keys| - i
  {
    if i < |keys| {
      if skip == Some(keys[i]) {
        FieldsStick(f, pos, m, keys, i + 1, skip, acc, last);
      } else {
        FieldsStick(f, pos, m, keys, i + 1, skip, acc[keys[i] := m[keys[i]]], last);
      }
    }
  }

  /** Once an error is seen, the walk over elements keeps it. */
  lemma {:induction false} ElemsStick(f: Filter, pos: PosOf, s: seq<Node>, i: nat, acc: seq<Node>, last: Option<TokError>)
    requires i <= |s| && last.Some?
    ensures RewriteElems(f, pos, s, i, acc, last).1 == last
    decreases |s| - i
  {
    if i < |s| {
      ElemsStick(f, pos, s, i + 1, acc + [s[i]], last);
    }
  }

  /** A walk over elements that ends without an error met none in any element, and appended each element's rewrite. */
  lemma {:induction false} ElemsResult(f: Filter, pos: PosOf, s: seq<Node>, i: nat, acc: seq<Node>)
    requires i <= |s| && |acc| == i
    requires RewriteElems(f, pos, s, i, acc, None).1 == None
    ensures |RewriteElems(f, pos, s, i, acc, None).0| == |s|
    ensures forall j :: i <= j < |s| ==>
      Rewrite(f, pos, s[j], None).1 == None && RewriteElems(f, pos, s, i, acc, None).0[j] == Rewrite(f, pos, s[j], None).0
    decreases |s| - i
  {
    if i < |s| {
      var (v, l) := Rewrite(f, pos, s[i], None);
      assert RewriteElems(f, pos, s, i, acc, None) == RewriteElems(f, pos, s, i + 1, acc + [v], l);
      if l.Some? {
        ElemsStick(f, pos, s, i + 1, acc + [v], l);
      } else {
        ElemsResult(f, pos, s, i + 1, acc + [v]);
        ElemsPrefix(f, pos, s, i + 1, acc + [v], None);
        var r := RewriteElems(f, pos, s, i + 1, acc + [v], None).0;
        assert r[i] == v by {
          assert r[..|acc + [v]|][i] == (acc + [v])[i];
        }
        forall j | i <= j < |s|
          ensures Rewrite(f, pos, s[j], None).1 == None && r[j] == Rewrite(f, pos, s[j], None).0
        {
        }
      }
    }
  }

  /** The walk over elements only appends. */
  lemma {:induction false} ElemsPrefix(f: Filter, pos: PosOf, s: seq<Node>, i: nat, acc: seq<Node>, last: Option<TokError>)
    requires i <= |s|
    ensures |acc| <= |RewriteElems(f, pos, s, i, acc, last).0| && RewriteElems(f, pos, s, i, acc, last).0[..|acc|] == acc
    decreases |s| - i
  {
    if i < |s| {
      var (v, l) := Rewrite(f, pos, s[i], last);
      ElemsPrefix(f, pos, s, i + 1, acc + [v], l);
      assert (acc + [v])[..|acc|] == acc;
    }
  }

  /** Every node of the tree passes what Verify tests: the reference for what Verify accepts. */
  ghost predicate Agrees(f: Filter, pos: PosOf, n: Node)
    decreases n, 1
  {
    Visit(f, pos, n).None? && KidsAgree(f, pos, n)
  }

  ghost predicate KidsAgree(f: Filter, pos: PosOf, n: Node)
    decreases n, 0
  {
    match n
    case Obj(m) => forall k :: k in m ==> Agrees(f, pos, m[k])
    case Arr(s) => forall i :: 0 <= i < |s| ==> Agrees(f, pos, s[i])
    case _ => true
  }

  /** The positions of an object do not depend on the tokens stored in it. */
  ghost predicate Stable(f: Filter, pos: PosOf)
  {
    forall a, b :: Retokened(f, Obj(a), Obj(b)) ==> pos(a) == pos(b)
  }

  /** Verify reports no error exactly when every node agrees with the source. */
  lemma {:induction false} CheckAgrees(f: Filter, pos: PosOf, n: Node)
    ensures Check(f, pos, n, None) == None <==> Agrees(f, pos, n)
    decreases n, 2
  {
    if Visit(f, pos, n).None? {
      CheckKidsAgrees(f, pos, n);
    }
  }

  lemma {:induction false} CheckKidsAgrees(f: Filter, pos: PosOf, n: Node)
    ensures CheckKids(f, pos, n) == None <==> KidsAgree(f, pos, n)
    decreases n, 1
  {
    match n {
      case Obj(m) =>
        var keys := SortedKeys(m.Keys);
        CheckFieldsNone(f, pos, m, keys, 0);
        forall k | k in m ensures Check(f, pos, m[k], None) == None <==> Agrees(f, pos, m[k]) {
          CheckAgrees(f, pos, m[k]);
        }
        if CheckKids(f, pos, n) == None {
          forall k | k in m ensures Agrees(f, pos, m[k]) {
            var j :| 0 <= j < |keys| && keys[j] == k;
          }
        }
      case Arr(s) =>
        CheckElemsNone(f, pos, s, 0);
        forall i | 0 <= i < |s| ensures Check(f, pos, s[i], None) == None <==> Agrees(f, pos, s[i]) {
          CheckAgrees(f, pos, s[i]);
        }
      case _ =>
    }
  }

  lemma {:induction false} CheckFieldsNone(f: Filter, pos: PosOf, m: map<string, Node>, keys: seq<string>, i: nat)
    requires i <= |keys| && forall k :: k in keys ==> k in m
    ensures CheckFields(f, pos, m, keys, i, None) == None <==>
      forall j :: i <= j < |keys| ==> Check(f, pos, m[keys[j]], None) == None
    decreases |keys| - i
  {
    if i < |keys| {
      CheckFieldsNone(f, pos, m, keys, i + 1);
    }
  }

  lemma {:induction false} CheckElemsNone(f: Filter, pos: PosOf, s: seq<Node>, i: nat)
    requires i <= |s|
    ensures CheckElems(f, pos, s, i, None) == None <==> forall j :: i <= j < |s| ==> Check(f, pos, s[j], None) == None
    decreases |s| - i
  {
    if i < |s| {
      CheckElemsNone(f, pos, s, i + 1);
    }
  }

  /** A tree Do rewrites without an error agrees with the source everywhere. */
  lemma {:induction false} RewriteAgrees(f: Filter, pos: PosOf, n: Node)
    requires f.tokenKey != UastNode.KeyType && Stable(f, pos)
    requires Rewrite(f, pos, n, None).1 == None
    ensures Agrees(f, pos, Rewrite(f, pos, n, None).0)
    decreases n, 2
  {
    var n' := Rewrite(f, pos, n, None).0;
    RewriteShape(f, pos, n, None);
    FilterRetokened(f, n, n');
    match FilterObj(f, n)
    case None =>
      DescendKidsAgree(f, pos, n);
    case Some(m) =>
      var m' := n'.fields;
      assert pos(m) == pos(m');
      match TokenFromPos(f, pos(m))
      case Ok(None) =>
        DescendKidsAgree(f, pos, n);
      case Ok(Some(t)) =>
        var r := RewriteFields(f, pos, m, SortedKeys(m.Keys), 0, Some(f.tokenKey), m[f.tokenKey := Str(t)], None);
        assert n' == Obj(r.0) && r.1 == None;
        assert r.0.Keys == m.Keys;
        TokenKidsAgree(f, pos, n, t);
  }

  /** The token case of Do: the token field and every rewritten field agree with the source. */
  lemma {:induction false} TokenKidsAgree(f: Filter, pos: PosOf, n: Node, t: string)
    requires f.tokenKey != UastNode.KeyType && Stable(f, pos) && n.Obj? && f.tokenKey in n.fields
    requires var r := RewriteFields(f, pos, n.fields, SortedKeys(n.fields.Keys), 0, Some(f.tokenKey), n.fields[f.tokenKey := Str(t)], None);
      r.1 == None && r.0.Keys == n.fields.Keys
    ensures var m' := RewriteFields(f, pos, n.fields, SortedKeys(n.fields.Keys), 0, Some(f.tokenKey), n.fields[f.tokenKey := Str(t)], None).0;
      f.tokenKey in m' && m'[f.tokenKey] == Str(t) && KidsAgree(f, pos, Obj(m'))
    decreases n, 1, 1
  {
    var m := n.fields;
    var keys := SortedKeys(m.Keys);
    var acc := m[f.tokenKey := Str(t)];
    var m' := RewriteFields(f, pos, m, keys, 0, Some(f.tokenKey), acc, None).0;
    FieldsKeep(f, pos, m, keys, 0, Some(f.tokenKey), acc, None, f.tokenKey);
    TokenFieldsAgree(f, pos, n, t);
    forall k | k in m' ensures Agrees(f, pos, m'[k]) {
      if k == f.tokenKey {
        assert m'[k] == Str(t);
      }
    }
  }

  /** The fields other than the token key that Do rewrites after setting the token agree with the source. */
  lemma {:induction false} TokenFieldsAgree(f: Filter, pos: PosOf, n: Node, t: string)
    requires f.tokenKey != UastNode.KeyType && Stable(f, pos) && n.Obj?
    requires var r := RewriteFields(f, pos, n.fields, SortedKeys(n.fields.Keys), 0, Some(f.tokenKey), n.fields[f.tokenKey := Str(t)], None);
      r.1 == None && r.0.Keys == n.fields.Keys
    ensures var m' := RewriteFields(f, pos, n.fields, SortedKeys(n.fields.Keys), 0, Some(f.tokenKey), n.fields[f.tokenKey := Str(t)], None).0;
      forall k :: k in m' && k != f.tokenKey ==> Agrees(f, pos, m'[k])
    decreases n, 1, 0
  {
    var m := n.fields;
    var keys := SortedKeys(m.Keys);
    var acc := m[f.tokenKey := Str(t)];
    var m' := RewriteFields(f, pos, m, keys, 0, Some(f.tokenKey), acc, None).0;
    FieldsResult(f, pos, m, keys, 0, Some(f.tokenKey), acc);
    forall k | k in m' && k != f.tokenKey ensures Agrees(f, pos, m'[k]) {
      assert k in keys;
      var j :| 0 <= j < |keys| && keys[j] == k;
      RewriteAgrees(f, pos, m[k]);
    }
  }

  lemma {:induction false} DescendKidsAgree(f: Filter, pos: PosOf, n: Node)
    requires f.tokenKey != UastNode.KeyType && Stable(f, pos)
    requires Descend(f, pos, n).1 == None
    ensures KidsAgree(f, pos, Descend(f, pos, n).0)
    decreases n, 1
  {
    match n {
      case Obj(m) =>
        var keys := SortedKeys(m.Keys);
        FieldsResult(f, pos, m, keys, 0, None, m);
        DescendShape(f, pos, n);
        var m' := Descend(f, pos, n).0.fields;
        forall k | k in m' ensures Agrees(f, pos, m'[k]) {
          var j :| 0 <= j < |keys| && keys[j] == k;
          RewriteAgrees(f, pos, m[k]);
        }
      case Arr(s) =>
        ElemsResult(f, pos, s, 0, []);
        var s' := Descend(f, pos, n).0.elems;
        forall j | 0 <= j < |s'| ensures Agrees(f, pos, s'[j]) {
          RewriteAgrees(f, pos, s[j]);
        }
      case _ =>
    }
  }

  /**
   * Verify accepts what Do produces: when Do meets no error, checking its
   * result against the same source, key and types reports none either.
   */
  lemma {:induction false} DoThenVerify(source: string, key: string, types: seq<string>, pos: PosOf, root: Node)
    requires key != UastNode.KeyType && Stable(NewFilter(source, key, types), pos)
    requires Rewrite(NewFilter(source, key, types), pos, root, None).1 == None
    ensures Check(NewFilter(source, key, types), pos, Rewrite(NewFilter(source, key, types), pos, root, None).0, None) == None
  {
    var f := NewFilter(source, key, types);
    RewriteAgrees(f, pos, root);
    CheckAgrees(f, pos, Rewrite(f, pos, root, None).0);
  }
}
