// The positional index of uast/transformer/positioner/positions.go: byte
// offsets to and from one-based line and column, and, when the index is
// built with Unicode support, byte offsets to and from rune (code point)
// offsets and UTF-16 code unit offsets. The index is built once by a loop
// over the input and is read-only afterwards, so it is a value here.
module Positions {
  import opened Wrappers
  import opened Utf8

  /** A run of runes of one UTF-8 size, with where it starts in runes, UTF-16 units and bytes. */
  datatype RuneSpan = RuneSpan(firstRuneInd: nat, firstUTF16Ind: nat, byteOff: nat,
                               runeSize8: nat, runeSize16: nat, numRunes: nat)

  /** Line starts, the spans (None when Unicode indexing is off) and the input size. */
  datatype Index = Index(offsetByLine: seq<nat>, spans: Option<seq<RuneSpan>>, size: nat)

  datatype PosError =
    | ByteOutOfBounds(offset: int, last: nat)
    | OffsetNotFound(offset: int)
    | LineOutOfBounds(line: int, maxLine: nat)
    | ColumnOutOfBounds(col: int, maxCol: int)
    | UnitOutOfBounds(utf16: bool, offset: int, last: nat)
    | NoUnicodeIndex
    | IndexPanic  // an index or slice out of range, or a division by zero, in Go

  // ------------------------------------------------------------ line starts

  /** Line 1 starts at 0 and every other line one byte after a '\n'. */
  function LineStarts(d: seq<Byte>): (r: seq<nat>)
    ensures |r| >= 1 && r[0] == 0
  {
    if d == [] then [0]
    else LineStarts(d[..|d| - 1]) + (if d[|d| - 1] == Newline then [|d|] else [])
  }

  predicate IsLineStart(d: seq<Byte>, x: int)
  {
    x == 0 || (1 <= x <= |d| && d[x - 1] == Newline)
  }

  predicate Increasing(s: seq<nat>)
  {
    forall i, j :: 0 <= i < j < |s| ==> s[i] < s[j]
  }

  /** The line starts are exactly the positions after a newline, plus 0, in increasing order. */
  lemma {:induction false} LineStartsSpec(d: seq<Byte>)
    ensures Increasing(LineStarts(d))
    ensures forall x :: x in LineStarts(d) <==> IsLineStart(d, x)
    ensures forall i :: 0 <= i < |LineStarts(d)| ==> LineStarts(d)[i] <= |d|
    decreases |d|
  {
    if d != [] {
      var init := d[..|d| - 1];
      LineStartsSpec(init);
      forall x ensures IsLineStart(d, x) <==> IsLineStart(init, x) || (x == |d| && d[|d| - 1] == Newline) {
        if 1 <= x <= |init| {
          assert d[x - 1] == init[x - 1];
        }
      }
    }
  }

  /** Bytes without a newline start no line. */
  lemma {:induction false} LineStartsQuiet(d: seq<Byte>, lo: int, hi: int)
    requires 0 <= lo <= hi <= |d|
    requires forall j :: lo <= j < hi ==> d[j] != Newline
    ensures LineStarts(d[..hi]) == LineStarts(d[..lo])
    decreases hi - lo
  {
    if lo < hi {
      LineStartsQuiet(d, lo, hi - 1);
      assert d[..hi][..hi - 1] == d[..hi - 1];
      assert d[..hi][hi - 1] == d[hi - 1];
    }
  }

  // ------------------------------------------------------------------ spans

  /** The spans of newIndexUnicode: a rune of the last span's size extends it, any other starts a new one. */
  function Spans(rs: seq<Rune>): seq<RuneSpan>
  {
    if rs == [] then []
    else
      var init := rs[..|rs| - 1];
      var r := rs[|rs| - 1];
      var sp := Spans(init);
      if sp != [] && sp[|sp| - 1].runeSize8 == r.size8
      then sp[..|sp| - 1] + [sp[|sp| - 1].(numRunes := sp[|sp| - 1].numRunes + 1)]
      else sp + [RuneSpan(|init|, U16Len(init), ByteLen(init), r.size8, Size16(r), 1)]
  }

  function End(s: RuneSpan): nat { s.firstRuneInd + s.numRunes }

  /** A span describes runes first.. of rs: where they start, and that they all have its sizes. */
  ghost predicate Fits(rs: seq<Rune>, s: RuneSpan)
  {
    && s.numRunes >= 1
    && End(s) <= |rs|
    && s.byteOff == ByteLen(rs[..s.firstRuneInd])
    && s.firstUTF16Ind == U16Len(rs[..s.firstRuneInd])
    && forall q :: s.firstRuneInd <= q < End(s) ==> rs[q].size8 == s.runeSize8 && Size16(rs[q]) == s.runeSize16
  }

  /** The spans cover the runes in order, one after the other, and neighbours differ in size. */
  ghost predicate Tiled(rs: seq<Rune>, sp: seq<RuneSpan>)
  {
    && (sp == [] <==> rs == [])
    && (sp != [] ==> sp[0].firstRuneInd == 0 && End(sp[|sp| - 1]) == |rs|)
    && (forall j :: 0 <= j < |sp| - 1 ==> sp[j + 1].firstRuneInd == End(sp[j]) && sp[j + 1].runeSize8 != sp[j].runeSize8)
    && (forall j :: 0 <= j < |sp| ==> Fits(rs, sp[j]))
  }

  lemma {:induction false} Size16OfWellFormed(r: Rune)
    requires WellFormed(r)
    ensures Size16(r) == if r.size8 == 4 then 2 else 1
  {
  }

  lemma {:induction false} FitsGrow(rs: seq<Rune>, r: Rune, s: RuneSpan)
    requires Fits(rs, s)
    ensures Fits(rs + [r], s)
  {
    assert (rs + [r])[..s.firstRuneInd] == rs[..s.firstRuneInd];
    forall q | s.firstRuneInd <= q < End(s) ensures (rs + [r])[q] == rs[q] {
    }
  }

  /** A rune of the last span's size extends that span. */
  lemma {:induction false} TiledExtend(rs: seq<Rune>, r: Rune, sp: seq<RuneSpan>)
    requires Tiled(rs, sp) && sp != [] && sp[|sp| - 1].runeSize8 == r.size8
    requires WellFormed(r) && WellFormed(rs[sp[|sp| - 1].firstRuneInd])
    ensures var last := sp[|sp| - 1];
      Tiled(rs + [r], sp[..|sp| - 1] + [last.(numRunes := last.numRunes + 1)])
  {
    var rs' := rs + [r];
    var last := sp[|sp| - 1];
    var last' := last.(numRunes := last.numRunes + 1);
    var sp' := sp[..|sp| - 1] + [last'];
    assert Fits(rs, last);
    Size16OfWellFormed(r);
    Size16OfWellFormed(rs[last.firstRuneInd]);
    assert rs'[..last.firstRuneInd] == rs[..last.firstRuneInd];
    assert Fits(rs', last') by {
      forall q | last'.firstRuneInd <= q < End(last')
        ensures rs'[q].size8 == last'.runeSize8 && Size16(rs'[q]) == last'.runeSize16
      {
        if q < |rs| {
          assert rs'[q] == rs[q];
        }
      }
    }
    forall j | 0 <= j < |sp'| ensures Fits(rs', sp'[j]) {
      if j < |sp| - 1 {
        assert sp'[j] == sp[j];
        FitsGrow(rs, r, sp[j]);
      }
    }
    forall j | 0 <= j < |sp'| - 1
      ensures sp'[j + 1].firstRuneInd == End(sp'[j]) && sp'[j + 1].runeSize8 != sp'[j].runeSize8
    {
      assert sp'[j] == sp[j];
    }
  }

  /** Every span still fits after one more rune, the new one included. */
  lemma {:induction false} AllFitGrow(rs: seq<Rune>, r: Rune, sp: seq<RuneSpan>, s: RuneSpan)
    requires forall j :: 0 <= j < |sp| ==> Fits(rs, sp[j])
    requires Fits(rs + [r], s)
    ensures forall j :: 0 <= j < |sp + [s]| ==> Fits(rs + [r], (sp + [s])[j])
  {
    forall j | 0 <= j < |sp + [s]| ensures Fits(rs + [r], (sp + [s])[j]) {
      if j < |sp| {
        assert (sp + [s])[j] == sp[j];
        FitsGrow(rs, r, sp[j]);
      }
    }
  }

  lemma {:induction false} FitsNew(rs: seq<Rune>, r: Rune)
    requires WellFormed(r)
    ensures Fits(rs + [r], RuneSpan(|rs|, U16Len(rs), ByteLen(rs), r.size8, Size16(r), 1))
  {
    assert (rs + [r])[..|rs|] == rs;
  }

  /** A rune of another size starts a new span where the last one ends. */
  lemma {:induction false} TiledNew(rs: seq<Rune>, r: Rune, sp: seq<RuneSpan>)
    requires Tiled(rs, sp) && (sp != [] ==> sp[|sp| - 1].runeSize8 != r.size8)
    requires WellFormed(r)
    ensures Tiled(rs + [r], sp + [RuneSpan(|rs|, U16Len(rs), ByteLen(rs), r.size8, Size16(r), 1)])
  {
    var rs' := rs + [r];
    var s := RuneSpan(|rs|, U16Len(rs), ByteLen(rs), r.size8, Size16(r), 1);
    var sp' := sp + [s];
    FitsNew(rs, r);
    AllFitGrow(rs, r, sp, s);
    forall j | 0 <= j < |sp'| - 1
      ensures sp'[j + 1].firstRuneInd == End(sp'[j]) && sp'[j + 1].runeSize8 != sp'[j].runeSize8
    {
      assert sp'[j] == sp[j];
    }
  }

  /** The spans newIndexUnicode builds tile the decoded runes. */
  lemma {:induction false} SpansTiled(rs: seq<Rune>)
    requires AllWellFormed(rs)
    ensures Tiled(rs, Spans(rs))
    decreases |rs|
  {
    if rs != [] {
      var init := rs[..|rs| - 1];
      var r := rs[|rs| - 1];
      assert AllWellFormed(init) by {
        forall q | 0 <= q < |init| ensures WellFormed(init[q]) {
          assert init[q] == rs[q];
        }
      }
      SpansTiled(init);
      var sp := Spans(init);
      assert rs == init + [r];
      if sp != [] && sp[|sp| - 1].runeSize8 == r.size8 {
        assert Fits(init, sp[|sp| - 1]);
        TiledExtend(init, r, sp);
      } else {
        TiledNew(init, r, sp);
      }
    }
  }

  /** Inside a span every rune adds the span's sizes. */
  lemma {:induction false} SpanOffsets(rs: seq<Rune>, s: RuneSpan, t: int)
    requires Fits(rs, s) && 0 <= t <= s.numRunes
    ensures ByteLen(rs[..s.firstRuneInd + t]) == s.byteOff + s.runeSize8 * t
    ensures U16Len(rs[..s.firstRuneInd + t]) == s.firstUTF16Ind + s.runeSize16 * t
    decreases t
  {
    if t > 0 {
      SpanOffsets(rs, s, t - 1);
      PrefixStep(rs, s.firstRuneInd + t - 1);
      assert s.runeSize8 * t == s.runeSize8 * (t - 1) + s.runeSize8;
      assert s.runeSize16 * t == s.runeSize16 * (t - 1) + s.runeSize16;
    }
  }

  /** A later span starts at or after the end of an earlier one. */
  lemma {:induction false} SpansOrdered(rs: seq<Rune>, sp: seq<RuneSpan>, a: int, b: int)
    requires Tiled(rs, sp) && 0 <= a < b < |sp|
    ensures End(sp[a]) <= sp[b].firstRuneInd
    decreases b - a
  {
    if a + 1 < b {
      SpansOrdered(rs, sp, a, b - 1);
      assert Fits(rs, sp[b - 1]);
    }
  }

  /** Every rune lies in exactly one span. */
  lemma {:induction false} Containing(rs: seq<Rune>, sp: seq<RuneSpan>, k: int) returns (j: nat)
    requires Tiled(rs, sp) && 0 <= k < |rs|
    ensures j < |sp| && sp[j].firstRuneInd <= k < End(sp[j])
  {
    j := 0;
    while j + 1 < |sp| && sp[j + 1].firstRuneInd <= k
      invariant j < |sp| && sp[j].firstRuneInd <= k
    {
      j := j + 1;
    }
  }

  /** The invariants stated on runeSpan: byteOff >= firstUTF16Ind >= firstRuneInd, runeSize8 >= runeSize16. */
  lemma {:induction false} SpanInvariants(data: seq<Byte>, s: RuneSpan)
    requires s in Spans(Runes(data))
    ensures s.byteOff >= s.firstUTF16Ind >= s.firstRuneInd
    ensures 4 >= s.runeSize8 >= s.runeSize16 >= 1 && s.numRunes >= 1
  {
    var rs := Runes(data);
    RunesCover(data);
    SpansTiled(rs);
    var j :| 0 <= j < |Spans(rs)| && Spans(rs)[j] == s;
    assert Fits(rs, s);
    var pre := rs[..s.firstRuneInd];
    assert AllWellFormed(pre) by {
      forall q | 0 <= q < |pre| ensures WellFormed(pre[q]) {
        assert pre[q] == rs[q];
      }
    }
    LengthsOrdered(pre);
    assert WellFormed(rs[s.firstRuneInd]);
  }

  // ----------------------------------------------------------------- search

  datatype SpanKey = RuneKey | UnitKey | ByteKey

  function KeyOf(s: RuneSpan, key: SpanKey): nat
  {
    match key
    case RuneKey => s.firstRuneInd
    case UnitKey => s.firstUTF16Ind
    case ByteKey => s.byteOff
  }

  /** sort.Search over the line starts: the first line starting after x. */
  function SearchLines(offs: seq<nat>, x: int): (i: nat)
    ensures i <= |offs|
    ensures forall j :: 0 <= j < i ==> offs[j] <= x
    ensures i < |offs| ==> x < offs[i]
  {
    SearchLinesFrom(offs, x, 0)
  }

  function SearchLinesFrom(offs: seq<nat>, x: int, lo: nat): (i: nat)
    requires lo <= |offs|
    requires forall j :: 0 <= j < lo ==> offs[j] <= x
    ensures lo <= i <= |offs|
    ensures forall j :: 0 <= j < i ==> offs[j] <= x
    ensures i < |offs| ==> x < offs[i]
    decreases |offs| - lo
  {
    if lo == |offs| || x < offs[lo] then lo else SearchLinesFrom(offs, x, lo + 1)
  }

  /** sort.Search over the spans by one of their starts: the first span starting after x. */
  function SearchSpans(sp: seq<RuneSpan>, key: SpanKey, x: int): (i: nat)
    ensures i <= |sp|
    ensures forall j :: 0 <= j < i ==> KeyOf(sp[j], key) <= x
    ensures i < |sp| ==> x < KeyOf(sp[i], key)
  {
    SearchSpansFrom(sp, key, x, 0)
  }

  function SearchSpansFrom(sp: seq<RuneSpan>, key: SpanKey, x: int, lo: nat): (i: nat)
    requires lo <= |sp|
    requires forall j :: 0 <= j < lo ==> KeyOf(sp[j], key) <= x
    ensures lo <= i <= |sp|
    ensures forall j :: 0 <= j < i ==> KeyOf(sp[j], key) <= x
    ensures i < |sp| ==> x < KeyOf(sp[i], key)
    decreases |sp| - lo
  {
    if lo == |sp| || x < KeyOf(sp[lo], key) then lo else SearchSpansFrom(sp, key, x, lo + 1)
  }

  /** The search result is pinned down by where the key first exceeds x. */
  lemma {:induction false} SearchSpansIs(sp: seq<RuneSpan>, key: SpanKey, x: int, m: nat)
    requires m <= |sp|
    requires forall j :: 0 <= j < m ==> KeyOf(sp[j], key) <= x
    requires m < |sp| ==> x < KeyOf(sp[m], key)
    ensures SearchSpans(sp, key, x) == m
  {
  }

  // ---------------------------------------------------------------- the index

  /** The index NewIndex builds without Unicode support. */
  function PlainIndex(data: seq<Byte>): Index
  {
    Index(LineStarts(data), None, |data|)
  }

  /** The index newIndexUnicode builds. */
  function UnicodeIndex(data: seq<Byte>): Index
  {
    Index(LineStarts(data), Some(Spans(Runes(data))), |data|)
  }

  /** NewIndex: one line start at 0 and one after each '\n'; a nil option set means no Unicode index. */
  method NewIndex(data: seq<Byte>, unicode: bool) returns (idx: Index)
    ensures idx == if unicode then UnicodeIndex(data) else PlainIndex(data)
  {
    if unicode {
      idx := NewIndexUnicode(data);
      return;
    }
    var offs: seq<nat> := [0];
    for i := 0 to |data|
      invariant offs == LineStarts(data[..i])
    {
      assert data[..i + 1][..i] == data[..i];
      if data[i] == Newline {
        offs := offs + [i + 1];
      }
    }
    assert data[..|data|] == data;
    idx := Index(offs, None, |data|);
  }

  /** The line starts after one more decoded rune. */
  lemma {:induction false} LinesStep(data: seq<Byte>, i: int, r: Rune)
    requires 0 <= i < |data| && r == DecodeRune(data[i..])
    ensures i + r.size8 <= |data|
    ensures r.code == Newline as nat ==> LineStarts(data[..i + r.size8]) == LineStarts(data[..i]) + [i + 1]
    ensures r.code != Newline as nat ==> LineStarts(data[..i + r.size8]) == LineStarts(data[..i])
  {
    if r.code == Newline as nat {
      assert data[..i + 1][..i] == data[..i];
    } else {
      forall j | i <= j < i + r.size8 ensures data[j] != Newline {
        assert data[j] == data[i..][j - i];
      }
      LineStartsQuiet(data, i, i + r.size8);
    }
  }

  /** The spans after one more rune, as the loop of newIndexUnicode builds them. */
  lemma {:induction false} SpansStep(done: seq<Rune>, r: Rune, spans: seq<RuneSpan>, cur: RuneSpan)
    requires WellFormed(r)
    requires cur.numRunes == 0 ==> done == [] && spans == [] && cur == RuneSpan(0, 0, 0, 1, 1, 0)
    requires cur.numRunes != 0 ==> spans + [cur] == Spans(done)
    requires cur.runeSize16 == if cur.runeSize8 == 4 then 2 else 1
    ensures var spans' := if r.size8 != cur.runeSize8 && cur.numRunes != 0 then spans + [cur] else spans;
      var cur0 := if r.size8 != cur.runeSize8 then RuneSpan(|done|, U16Len(done), ByteLen(done), r.size8, Size16(r), 0) else cur;
      spans' + [cur0.(numRunes := cur0.numRunes + 1)] == Spans(done + [r])
      && cur0.runeSize16 == Size16(r)
  {
    var rs := done + [r];
    assert rs[..|rs| - 1] == done;
    Size16OfWellFormed(r);
  }

  /** The decoded runes and their lengths after one more rune. */
  lemma {:induction false} RunesStep(data: seq<Byte>, i: int, done: seq<Rune>, r: Rune)
    requires 0 <= i < |data| && r == DecodeRune(data[i..])
    requires Runes(data) == done + Runes(data[i..])
    ensures i + r.size8 <= |data|
    ensures Runes(data) == (done + [r]) + Runes(data[i + r.size8..])
  {
    var rest := Runes(data[i + r.size8..]);
    assert data[i..][r.size8..] == data[i + r.size8..];
    assert Runes(data[i..]) == [r] + rest;
    assert done + ([r] + rest) == (done + [r]) + rest;
  }

  /** One rune into the spans: it extends the current span or closes it and opens a new one. */
  method AddRune(spans: seq<RuneSpan>, cur: RuneSpan, r: Rune, runes: nat, codePoints: nat, i: nat, ghost done: seq<Rune>)
    returns (spans': seq<RuneSpan>, cur': RuneSpan)
    requires WellFormed(r) && runes == |done| && codePoints == U16Len(done) && i == ByteLen(done)
    requires cur.numRunes == 0 ==> done == [] && spans == [] && cur == RuneSpan(0, 0, 0, 1, 1, 0)
    requires cur.numRunes != 0 ==> spans + [cur] == Spans(done)
    requires cur.runeSize16 == if cur.runeSize8 == 4 then 2 else 1
    ensures cur'.numRunes != 0 && spans' + [cur'] == Spans(done + [r])
    ensures cur'.runeSize16 == Size16(r) && cur'.runeSize8 == r.size8
  {
    SpansStep(done, r, spans, cur);
    spans', cur' := spans, cur;
    if r.size8 != cur.runeSize8 {
      if cur.numRunes != 0 {
        spans' := spans + [cur];
      }
      cur' := RuneSpan(runes, codePoints, i, r.size8, Size16(r), 0);
    }
    cur' := cur'.(numRunes := cur'.numRunes + 1);
  }

  /** newIndexUnicode: the line starts and the spans of the decoded input in one pass. */
  method NewIndexUnicode(data: seq<Byte>) returns (idx: Index)
    ensures idx == UnicodeIndex(data)
  {
    var offs: seq<nat> := [0];
    var spans: seq<RuneSpan> := [];
    var cur := RuneSpan(0, 0, 0, 1, 1, 0);
    var runes := 0;
    var codePoints := 0;
    var i := 0;
    ghost var done: seq<Rune> := [];
    while i < |data|
      invariant 0 <= i <= |data|
      invariant Runes(data) == done + Runes(data[i..])
      invariant ByteLen(done) == i && runes == |done| && codePoints == U16Len(done)
      invariant offs == LineStarts(data[..i])
      invariant cur.numRunes == 0 ==> done == [] && spans == [] && cur == RuneSpan(0, 0, 0, 1, 1, 0)
      invariant cur.numRunes != 0 ==> spans + [cur] == Spans(done)
      invariant cur.runeSize16 == if cur.runeSize8 == 4 then 2 else 1
      decreases |data| - i
    {
      var r := DecodeRune(data[i..]);
      LinesStep(data, i, r);
      RunesStep(data, i, done, r);
      LengthsSnoc(done, r);
      if r.code == Newline as nat {
        offs := offs + [i + 1];
      }
      spans, cur := AddRune(spans, cur, r, runes, codePoints, i, done);
      Size16OfWellFormed(r);
      runes := runes + 1;
      codePoints := codePoints + cur.runeSize16;
      done := done + [r];
      i := i + r.size8;
    }
    assert data[..|data|] == data;
    assert data[|data|..] == [];
    assert done == Runes(data) by {
      assert Runes(data[|data|..]) == [];
      assert done + [] == done;
    }
    if cur.numRunes != 0 {
      spans := spans + [cur];
    }
    idx := Index(offs, Some(spans), |data|);
  }

  // ---------------------------------------------------- line and column

  /** offsetToLine: the one-based line holding a byte offset. */
  function OffsetToLine(idx: Index, offset: int): Result<nat, PosError>
  {
    var line := SearchLines(idx.offsetByLine, offset);
    if line <= 0 || line > |idx.offsetByLine| then Err(OffsetNotFound(offset)) else Ok(line)
  }

  /** LineCol: one-based line and column of a byte offset; the end of the input is allowed. */
  function LineCol(idx: Index, offset: int): Result<(int, int), PosError>
  {
    if offset < 0 || offset > idx.size then Err(ByteOutOfBounds(offset, idx.size))
    else
      match OffsetToLine(idx, offset)
      case Err(e) => Err(e)
      case Ok(line) => Ok((line, offset - idx.offsetByLine[line - 1] + 1))
  }

  /** lineEnd: the last byte of a line, its newline included. */
  function LineEnd(idx: Index, line: int): int
    requires 1 <= line <= |idx.offsetByLine|
  {
    if line == |idx.offsetByLine| then idx.size as int - 1 else idx.offsetByLine[line] as int - 1
  }

  /** Offset: the byte offset of a one-based line and column. */
  function Offset(idx: Index, line: int, col: int): Result<int, PosError>
  {
    if line < 1 || line > |idx.offsetByLine| then Err(LineOutOfBounds(line, |idx.offsetByLine|))
    else
      var lineOffset := idx.offsetByLine[line - 1];
      var maxCol0 := LineEnd(idx, line) - lineOffset + 1;
      var maxCol := if maxCol0 == 0 && col == 1 then 1 else maxCol0;
      if col < 1 || (maxCol > 0 && col - 1 > maxCol) then Err(ColumnOutOfBounds(col, maxCol))
      else Ok(lineOffset + col - 1)
  }

  /** Offset with the column bound checked on empty last lines too. */
  function OffsetBounded(idx: Index, line: int, col: int): Result<int, PosError>
  {
    if line < 1 || line > |idx.offsetByLine| then Err(LineOutOfBounds(line, |idx.offsetByLine|))
    else
      var lineOffset := idx.offsetByLine[line - 1];
      var maxCol0 := LineEnd(idx, line) - lineOffset + 1;
      var maxCol := if maxCol0 == 0 && col == 1 then 1 else maxCol0;
      if col < 1 || col - 1 > maxCol then Err(ColumnOutOfBounds(col, maxCol))
      else Ok(lineOffset + col - 1)
  }

  /** The line and column fields of an index built over data. */
  ghost predicate LinesOf(idx: Index, data: seq<Byte>)
  {
    idx.offsetByLine == LineStarts(data) && idx.size == |data|
  }

  /** Offsets past either end are refused. */
  lemma {:induction false} LineColOutOfBounds(idx: Index, offset: int)
    requires offset < 0 || offset > idx.size
    ensures LineCol(idx, offset) == Err(ByteOutOfBounds(offset, idx.size))
  {
  }

  /**
   * For every offset up to the end of the input: the line is found, the
   * column counts the bytes since the last line start, and Offset and
   * its bounded form map line and column back to the offset.
   */
  lemma {:induction false} LineColRoundTrip(idx: Index, data: seq<Byte>, o: int)
    requires LinesOf(idx, data) && 0 <= o <= |data|
    ensures LineCol(idx, o).Ok?
    ensures var (l, c) := LineCol(idx, o).value;
      && 1 <= l <= |idx.offsetByLine| && c >= 1
      && IsLineStart(data, o - c + 1)
      && (forall x :: o - c + 1 < x <= o ==> !IsLineStart(data, x))
      && Offset(idx, l, c) == Ok(o)
      && OffsetBounded(idx, l, c) == Ok(o)
  {
    var offs := idx.offsetByLine;
    LineStartsSpec(data);
    var l := SearchLines(offs, o);
    var start := offs[l - 1];
    assert start in offs;
    forall m | 0 <= m < |offs| ensures offs[m] <= start || o < offs[m] {
      if m < l - 1 {
        assert offs[m] < offs[l - 1];
      } else if m >= l {
        assert offs[l] <= offs[m];
      }
    }
    forall x | start < x <= o ensures !IsLineStart(data, x) {
    }
  }

  /** On an empty input, line 1 column 1 is offset 0. */
  lemma {:induction false} EmptyFileOffset(idx: Index)
    requires LinesOf(idx, [])
    ensures Offset(idx, 1, 1) == Ok(0) && OffsetBounded(idx, 1, 1) == Ok(0)
  {
  }

  /** As written, Offset accepts any column on an empty last line: column 2 of an empty input is offset 1. */
  lemma {:induction false} OffsetPastEnd(idx: Index)
    requires LinesOf(idx, [])
    ensures Offset(idx, 1, 2) == Ok(1) && 1 > idx.size
    ensures OffsetBounded(idx, 1, 2).Err?
  {
  }

  /** With the bound checked on every line, an accepted line and column is never past the end. */
  lemma {:induction false} OffsetBoundedInRange(idx: Index, data: seq<Byte>, line: int, col: int)
    requires LinesOf(idx, data)
    requires OffsetBounded(idx, line, col).Ok?
    ensures 0 <= OffsetBounded(idx, line, col).value <= |data|
  {
    LineStartsSpec(data);
    if line < |idx.offsetByLine| {
      assert idx.offsetByLine[line - 1] < idx.offsetByLine[line];
    }
  }

  // -------------------------------------------------- Unicode offsets

  /** The end of the input in runes or UTF-16 units, read off the last span. */
  function LastUnit(sp: seq<RuneSpan>, utf16: bool): nat
  {
    if sp == [] then 0
    else
      var s := sp[|sp| - 1];
      if utf16 then s.firstUTF16Ind + s.numRunes * s.runeSize16 else s.firstRuneInd + s.numRunes
  }

  /** unicodeOffset: the byte offset of a rune offset or a UTF-16 unit offset; the end maps to the size. */
  function UnicodeOffset(idx: Index, offset: int, utf16: bool): Result<int, PosError>
  {
    if idx.spans.None? then Err(NoUnicodeIndex)
    else
      var sp := idx.spans.value;
      var last := LastUnit(sp, utf16);
      if offset < 0 || offset > last then Err(UnitOutOfBounds(utf16, offset, last))
      else if offset == last then Ok(idx.size)
      else
        var i := SearchSpans(sp, if utf16 then UnitKey else RuneKey, offset);
        if i == 0 then Err(IndexPanic)
        else
          var s := sp[i - 1];
          if !utf16 then Ok(s.byteOff + s.runeSize8 * (offset - s.firstRuneInd))
          else if s.runeSize16 == 0 then Err(IndexPanic)
          else Ok(s.byteOff + s.runeSize8 * ((offset - s.firstUTF16Ind) / s.runeSize16))
  }

  /** The span holding an in-range byte offset; None where Go would index before the first span. */
  function ByteSpan(sp: seq<RuneSpan>, offset: int): (r: Option<RuneSpan>)
    ensures r.Some? ==> r.value.byteOff <= offset
  {
    var i := SearchSpans(sp, ByteKey, offset);
    if i == 0 then None else Some(sp[i - 1])
  }

  /** toUnicodeOffset as written: in UTF-16 mode the bytes into the span are divided by the span's UTF-16 size. */
  function ToUnicodeOffsetAsWritten(idx: Index, offset: int, utf16: bool): Result<int, PosError>
  {
    if idx.spans.None? then Err(NoUnicodeIndex)
    else if offset < 0 || offset > idx.size then Err(ByteOutOfBounds(offset, idx.size))
    else if offset == idx.size then Ok(LastUnit(idx.spans.value, utf16))
    else
      match ByteSpan(idx.spans.value, offset)
      case None => Err(IndexPanic)
      case Some(s) =>
        if utf16 then
          if s.runeSize16 == 0 then Err(IndexPanic) else Ok(s.firstUTF16Ind + (offset - s.byteOff) / s.runeSize16)
        else if s.runeSize8 == 0 then Err(IndexPanic)
        else Ok(s.firstRuneInd + (offset - s.byteOff) / s.runeSize8)
  }

  /** toUnicodeOffset with the UTF-16 branch counting whole runes first, then their units. */
  function ToUnicodeOffset(idx: Index, offset: int, utf16: bool): Result<int, PosError>
  {
    if idx.spans.None? then Err(NoUnicodeIndex)
    else if offset < 0 || offset > idx.size then Err(ByteOutOfBounds(offset, idx.size))
    else if offset == idx.size then Ok(LastUnit(idx.spans.value, utf16))
    else
      match ByteSpan(idx.spans.value, offset)
      case None => Err(IndexPanic)
      case Some(s) =>
        if s.runeSize8 == 0 then Err(IndexPanic)
        else if utf16 then Ok(s.firstUTF16Ind + ((offset - s.byteOff) / s.runeSize8) * s.runeSize16)
        else Ok(s.firstRuneInd + (offset - s.byteOff) / s.runeSize8)
  }

  /** Rune offsets are computed the same way by both. */
  lemma {:induction false} ToRuneOffsetAgrees(idx: Index, offset: int)
    ensures ToUnicodeOffsetAsWritten(idx, offset, false) == ToUnicodeOffset(idx, offset, false)
  {
  }

  /** Whole runes of a span: a size of one to four bytes divides out exactly. */
  lemma {:induction false} MulDiv(a: nat, t: nat)
    requires 1 <= a <= 4
    ensures (a * t) / a == t
  {
    if a == 1 {
    } else if a == 2 {
    } else if a == 3 {
    } else {
    }
  }

  /** Without a Unicode index every Unicode lookup fails with errNoUnicodeIndex. */
  lemma {:induction false} NoUnicode(data: seq<Byte>, offset: int, utf16: bool)
    ensures UnicodeOffset(PlainIndex(data), offset, utf16) == Err(NoUnicodeIndex)
    ensures ToUnicodeOffsetAsWritten(PlainIndex(data), offset, utf16) == Err(NoUnicodeIndex)
    ensures ToUnicodeOffset(PlainIndex(data), offset, utf16) == Err(NoUnicodeIndex)
    ensures UnicodeLineColAsWritten(PlainIndex(data), offset, utf16) == Err(NoUnicodeIndex)
    ensures UnicodeLineCol(PlainIndex(data), offset, utf16) == Err(NoUnicodeIndex)
  {
  }

  /** The index over line starts offs and the spans of well-formed runes rs. */
  function SpanIndex(offs: seq<nat>, rs: seq<Rune>): Index
  {
    Index(offs, Some(Spans(rs)), ByteLen(rs))
  }

  /** The index of data is the index over its line starts and its decoded runes. */
  lemma {:induction false} UnicodeIndexIs(data: seq<Byte>)
    ensures UnicodeIndex(data) == SpanIndex(LineStarts(data), Runes(data))
    ensures AllWellFormed(Runes(data)) && ByteLen(Runes(data)) == |data|
  {
    RunesCover(data);
  }

  /** The last span fits and ends at the last rune. */
  lemma {:induction false} LastSpan(rs: seq<Rune>)
    requires AllWellFormed(rs) && rs != []
    ensures var sp := Spans(rs); sp != [] && Fits(rs, sp[|sp| - 1]) && End(sp[|sp| - 1]) == |rs|
  {
    SpansTiled(rs);
  }

  /** The last span ends at the rune count and at the unit count. */
  lemma {:induction false} SpanEnds(rs: seq<Rune>)
    requires AllWellFormed(rs)
    ensures LastUnit(Spans(rs), false) == |rs|
    ensures LastUnit(Spans(rs), true) == U16Len(rs)
  {
    if rs != [] {
      LastSpan(rs);
      var sp := Spans(rs);
      var s := sp[|sp| - 1];
      SpanOffsets(rs, s, s.numRunes);
      assert rs[..End(s)] == rs;
    }
  }

  /** Every span up to the one holding rune k starts, by every key, at or before rune k. */
  lemma {:induction false} KeysUpTo(rs: seq<Rune>, j: nat, k: int)
    requires AllWellFormed(rs) && Tiled(rs, Spans(rs)) && 0 <= k < |rs|
    requires j < |Spans(rs)| && Spans(rs)[j].firstRuneInd <= k
    ensures var sp := Spans(rs); forall i :: 0 <= i <= j ==>
      sp[i].firstRuneInd <= k && sp[i].firstUTF16Ind <= U16Len(rs[..k]) && sp[i].byteOff <= ByteLen(rs[..k])
  {
    var sp := Spans(rs);
    forall i | 0 <= i <= j
      ensures sp[i].firstRuneInd <= k && sp[i].firstUTF16Ind <= U16Len(rs[..k]) && sp[i].byteOff <= ByteLen(rs[..k])
    {
      if i < j {
        SpansOrdered(rs, sp, i, j);
      }
      assert Fits(rs, sp[i]);
      PrefixLengths(rs, sp[i].firstRuneInd, k);
    }
  }

  /** The span after the one holding rune k starts, by every key, after rune k. */
  lemma {:induction false} KeysAfter(rs: seq<Rune>, j: nat, k: int)
    requires AllWellFormed(rs) && Tiled(rs, Spans(rs)) && 0 <= k < |rs|
    requires j + 1 < |Spans(rs)| && k < End(Spans(rs)[j])
    ensures var s := Spans(rs)[j + 1];
      k < s.firstRuneInd && U16Len(rs[..k]) < s.firstUTF16Ind && ByteLen(rs[..k]) < s.byteOff
  {
    var sp := Spans(rs);
    assert Fits(rs, sp[j + 1]);
    PrefixLengths(rs, k + 1, End(sp[j]));
    PrefixStep(rs, k);
    assert WellFormed(rs[k]);
  }

  /** The span of rune k is the one before the first span starting past rune k, by every key. */
  lemma {:induction false} LocateRune(rs: seq<Rune>, k: int) returns (j: nat)
    requires AllWellFormed(rs) && 0 <= k < |rs|
    ensures var sp := Spans(rs);
      && j < |sp| && sp[j].firstRuneInd <= k < End(sp[j]) && Fits(rs, sp[j])
      && SearchSpans(sp, RuneKey, k) == j + 1
      && SearchSpans(sp, UnitKey, U16Len(rs[..k])) == j + 1
      && SearchSpans(sp, ByteKey, ByteLen(rs[..k])) == j + 1
  {
    var sp := Spans(rs);
    SpansTiled(rs);
    j := Containing(rs, sp, k);
    KeysUpTo(rs, j, k);
    if j + 1 < |sp| {
      KeysAfter(rs, j, k);
    }
    SearchSpansIs(sp, RuneKey, k, j + 1);
    SearchSpansIs(sp, UnitKey, U16Len(rs[..k]), j + 1);
    SearchSpansIs(sp, ByteKey, ByteLen(rs[..k]), j + 1);
  }

  /** Rune k lies t runes into span s, which every lookup by rune, unit or byte finds. */
  lemma {:induction false} SpanOfRune(rs: seq<Rune>, k: int) returns (s: RuneSpan, t: nat)
    requires AllWellFormed(rs) && 0 <= k < |rs|
    ensures var sp := Spans(rs);
      && t < s.numRunes && k == s.firstRuneInd + t
      && ByteSpan(sp, ByteLen(rs[..k])) == Some(s)
      && SearchSpans(sp, RuneKey, k) > 0 && sp[SearchSpans(sp, RuneKey, k) - 1] == s
      && SearchSpans(sp, UnitKey, U16Len(rs[..k])) > 0 && sp[SearchSpans(sp, UnitKey, U16Len(rs[..k])) - 1] == s
    ensures ByteLen(rs[..k]) == s.byteOff + s.runeSize8 * t
    ensures U16Len(rs[..k]) == s.firstUTF16Ind + s.runeSize16 * t
    ensures 1 <= s.runeSize8 <= 4 && 1 <= s.runeSize16 <= 2
    ensures ByteLen(rs[..k]) < ByteLen(rs) && U16Len(rs[..k]) < U16Len(rs)
  {
    var j := LocateRune(rs, k);
    s := Spans(rs)[j];
    t := k - s.firstRuneInd;
    SpanOffsets(rs, s, t);
    BeforeEnd(rs, k);
    assert WellFormed(rs[s.firstRuneInd]);
  }

  /** The byte length of the runes before k is less than that of all runes, and so is their unit count. */
  lemma {:induction false} BeforeEnd(rs: seq<Rune>, k: int)
    requires AllWellFormed(rs) && 0 <= k < |rs|
    ensures ByteLen(rs[..k]) < ByteLen(rs) && U16Len(rs[..k]) < U16Len(rs)
  {
    PrefixLengths(rs, k, |rs|);
    assert rs[..|rs|] == rs;
  }

  /** FromRuneOffset: rune k starts at the bytes of the runes before it; the end maps to the size. */
  lemma {:induction false} FromRuneOffset(offs: seq<nat>, rs: seq<Rune>, k: int)
    requires AllWellFormed(rs) && 0 <= k <= |rs|
    ensures UnicodeOffset(SpanIndex(offs, rs), k, false) == Ok(ByteLen(rs[..k]))
  {
    SpanEnds(rs);
    if k == |rs| {
      assert rs[..k] == rs;
    } else {
      var s, t := SpanOfRune(rs, k);
    }
  }

  /** FromUTF16Offset: the units before rune k map to the bytes before it. */
  lemma {:induction false} FromUTF16Offset(offs: seq<nat>, rs: seq<Rune>, k: int)
    requires AllWellFormed(rs) && 0 <= k <= |rs|
    ensures UnicodeOffset(SpanIndex(offs, rs), U16Len(rs[..k]), true) == Ok(ByteLen(rs[..k]))
  {
    SpanEnds(rs);
    if k == |rs| {
      assert rs[..k] == rs;
    } else {
      var s, t := SpanOfRune(rs, k);
      MulDiv(s.runeSize16, t);
    }
  }

  /** ToRuneOffset: the bytes before rune k map back to k. */
  lemma {:induction false} ToRuneOffsetInverse(offs: seq<nat>, rs: seq<Rune>, k: int)
    requires AllWellFormed(rs) && 0 <= k <= |rs|
    ensures ToUnicodeOffset(SpanIndex(offs, rs), ByteLen(rs[..k]), false) == Ok(k)
  {
    SpanEnds(rs);
    if k == |rs| {
      assert rs[..k] == rs;
    } else {
      var s, t := SpanOfRune(rs, k);
      MulDiv(s.runeSize8, t);
    }
  }

  /** The corrected ToUTF16Offset: the bytes before rune k map back to the units before it. */
  lemma {:induction false} ToUTF16OffsetInverse(offs: seq<nat>, rs: seq<Rune>, k: int)
    requires AllWellFormed(rs) && 0 <= k <= |rs|
    ensures ToUnicodeOffset(SpanIndex(offs, rs), ByteLen(rs[..k]), true) == Ok(U16Len(rs[..k]))
  {
    SpanEnds(rs);
    if k == |rs| {
      assert rs[..k] == rs;
    } else {
      var s, t := SpanOfRune(rs, k);
      MulDiv(s.runeSize8, t);
      assert (ByteLen(rs[..k]) - s.byteOff) / s.runeSize8 == t;
      assert t * s.runeSize16 == s.runeSize16 * t;
    }
  }

  /** As written, ToUTF16Offset of the second rune of "éé" is 2, although one UTF-16 unit precedes it. */
  lemma {:induction false} ToUTF16OffsetAsWrittenOvercounts(data: seq<Byte>)
    requires data == [0xC3, 0xA9, 0xC3, 0xA9]
    ensures Runes(data)[..1] == [Rune(0xE9, 2)] && ByteLen(Runes(data)[..1]) == 2 && U16Len(Runes(data)[..1]) == 1
    ensures ToUnicodeOffsetAsWritten(UnicodeIndex(data), 2, true) == Ok(2)
    ensures ToUnicodeOffset(UnicodeIndex(data), 2, true) == Ok(1)
  {
    var e := Rune(0xE9, 2);
    var tail := data[2..];
    assert tail == [0xC3, 0xA9];
    assert DecodeRune(tail) == e;
    assert tail[2..] == [];
    assert Runes(tail) == [e] + Runes([]);
    assert DecodeRune(data) == e;
    assert Runes(data) == [e] + Runes(tail);
    assert Runes(data) == [e, e];
    assert [e, e][..1] == [e];
    assert [e][..0] == [];
    assert Spans([e]) == [RuneSpan(0, 0, 0, 2, 1, 1)];
    assert [e, e][..1] == [e];
    assert Spans([e, e]) == [RuneSpan(0, 0, 0, 2, 1, 2)];
  }

  // ------------------------------------------------ Unicode line and column

  /** The columns the loop of toUnicodeLineCol adds up, span by span, from the first span it keeps. */
  function ColScan(spans: seq<RuneSpan>, rel: int, utf16: bool): int
  {
    if rel <= 0 || spans == [] then 0
    else
      var s := spans[0];
      var spanBytes := s.numRunes * s.runeSize8;
      if rel < spanBytes then
        var n := rel / s.runeSize8;
        (if utf16 then n * s.runeSize16 else n)
      else
        (if utf16 then s.numRunes * s.runeSize16 else s.numRunes) + ColScan(spans[1..], rel - spanBytes, utf16)
  }

  /** toUnicodeLineCol as written. */
  function UnicodeLineColAsWritten(idx: Index, offset: int, utf16: bool): Result<(int, int), PosError>
  {
    if idx.spans.None? then Err(NoUnicodeIndex)
    else if offset < 0 || offset > idx.size then Err(ByteOutOfBounds(offset, idx.size))
    else
      match OffsetToLine(idx, offset)
      case Err(e) => Err(e)
      case Ok(line) =>
        var sp := idx.spans.value;
        var lineStart := idx.offsetByLine[line - 1];
        var i := SearchSpans(sp, ByteKey, lineStart);
        if i == 0 then Err(IndexPanic)
        else
          var tail := sp[i - 1..];
          var e := SearchSpans(tail, ByteKey, offset);
          Ok((line, ColScan(tail[..e], offset - lineStart, utf16) + 1))
  }

  /** toUnicodeLineCol: the column loop over the spans between the line start and the offset. */
  method ToUnicodeLineColAsWritten(idx: Index, offset: int, utf16: bool) returns (r: Result<(int, int), PosError>)
    ensures r == UnicodeLineColAsWritten(idx, offset, utf16)
  {
    if idx.spans.None? {
      return Err(NoUnicodeIndex);
    }
    if offset < 0 || offset > idx.size {
      return Err(ByteOutOfBounds(offset, idx.size));
    }
    var lr := OffsetToLine(idx, offset);
    if lr.Err? {
      return Err(lr.error);
    }
    var line := lr.value;
    var spans := idx.spans.value;
    var lineStart := idx.offsetByLine[line - 1];
    var i := SearchSpans(spans, ByteKey, lineStart);
    if i == 0 {
      return Err(IndexPanic);
    }
    spans := spans[i - 1..];
    i := SearchSpans(spans, ByteKey, offset);
    spans := spans[..i];
    ghost var spans0 := spans;
    var rel := offset - lineStart;
    ghost var rel0 := rel;
    var col := 0;
    while rel > 0 && |spans| > 0
      invariant col + ColScan(spans, rel, utf16) == ColScan(spans0, rel0, utf16)
      decreases |spans|
    {
      var s := spans[0];
      spans := spans[1..];
      var n := s.numRunes;
      var spanBytes := n * s.runeSize8;
      if rel < spanBytes {
        n := rel / s.runeSize8;
        rel := 0;
      } else {
        rel := rel - spanBytes;
      }
      if utf16 {
        col := col + n * s.runeSize16;
      } else {
        col := col + n;
      }
    }
    col := col + 1;
    r := Ok((line, col));
  }

  /** toUnicodeLineCol counting the column as the units between the line start and the offset. */
  function UnicodeLineCol(idx: Index, offset: int, utf16: bool): Result<(int, int), PosError>
  {
    if idx.spans.None? then Err(NoUnicodeIndex)
    else if offset < 0 || offset > idx.size then Err(ByteOutOfBounds(offset, idx.size))
    else
      match OffsetToLine(idx, offset)
      case Err(e) => Err(e)
      case Ok(line) =>
        match ToUnicodeOffset(idx, offset, utf16)
        case Err(e) => Err(e)
        case Ok(u) =>
          match ToUnicodeOffset(idx, idx.offsetByLine[line - 1], utf16)
          case Err(e) => Err(e)
          case Ok(u0) => Ok((line, u - u0 + 1))
  }

  /** The line LineCol finds for an offset starts at the last line start at or before it. */
  lemma {:induction false} LineOfOffset(data: seq<Byte>, s0: int, o: int)
    requires 0 <= s0 <= o <= |data| && IsLineStart(data, s0)
    requires forall x :: s0 < x <= o ==> !IsLineStart(data, x)
    ensures var idx := Index(LineStarts(data), None, |data|);
      && LineCol(idx, o).Ok?
      && 1 <= LineCol(idx, o).value.0 <= |LineStarts(data)|
      && LineStarts(data)[LineCol(idx, o).value.0 - 1] == s0
  {
    var idx := Index(LineStarts(data), None, |data|);
    LineColRoundTrip(idx, data, o);
    var (l, c) := LineCol(idx, o).value;
    var start := o - c + 1;
    if start < s0 {
    } else if start > s0 {
    }
  }

  /** UnicodeLineCol from the line and the two unit offsets it subtracts. */
  lemma {:induction false} UnicodeLineColOf(idx: Index, o: int, l: nat, uk: int, uj: int, utf16: bool)
    requires idx.spans.Some? && 0 <= o <= idx.size && OffsetToLine(idx, o) == Ok(l)
    requires ToUnicodeOffset(idx, o, utf16) == Ok(uk)
    requires ToUnicodeOffset(idx, idx.offsetByLine[l - 1], utf16) == Ok(uj)
    ensures UnicodeLineCol(idx, o, utf16) == Ok((l, uk - uj + 1))
  {
  }

  /** The offset of rune k, read as a line and column, lies on the line LineOfOffset finds. */
  lemma {:induction false} RuneLine(data: seq<Byte>, rs: seq<Rune>, j: int, k: int) returns (l: nat)
    requires AllWellFormed(rs) && ByteLen(rs) == |data| && 0 <= j <= k <= |rs|
    requires IsLineStart(data, ByteLen(rs[..j]))
    requires forall x :: ByteLen(rs[..j]) < x <= ByteLen(rs[..k]) ==> !IsLineStart(data, x)
    ensures var idx := SpanIndex(LineStarts(data), rs); var o := ByteLen(rs[..k]);
      && 0 <= o <= idx.size && LineCol(idx, o).Ok? && LineCol(idx, o).value.0 == l
      && OffsetToLine(idx, o) == Ok(l) && 1 <= l <= |idx.offsetByLine|
      && idx.offsetByLine[l - 1] == ByteLen(rs[..j])
  {
    var offs := LineStarts(data);
    var o := ByteLen(rs[..k]);
    PrefixLengths(rs, j, k);
    PrefixLengths(rs, k, |rs|);
    assert rs[..|rs|] == rs;
    LineOfOffset(data, ByteLen(rs[..j]), o);
    assert LineCol(SpanIndex(offs, rs), o) == LineCol(Index(offs, None, |data|), o);
    l := LineCol(SpanIndex(offs, rs), o).value.0;
  }

  /**
   * For runes rs that decode data: when rune j starts the line that holds
   * rune k, the column of rune k is k - j + 1 in runes, or one more than
   * the UTF-16 units between them; the line is that of LineCol.
   */
  lemma {:induction false} UnicodeLineColCounts(data: seq<Byte>, rs: seq<Rune>, j: int, k: int, utf16: bool)
    requires AllWellFormed(rs) && ByteLen(rs) == |data| && 0 <= j <= k <= |rs|
    requires IsLineStart(data, ByteLen(rs[..j]))
    requires forall x :: ByteLen(rs[..j]) < x <= ByteLen(rs[..k]) ==> !IsLineStart(data, x)
    ensures var idx := SpanIndex(LineStarts(data), rs); var o := ByteLen(rs[..k]);
      && LineCol(idx, o).Ok?
      && UnicodeLineCol(idx, o, utf16)
         == Ok((LineCol(idx, o).value.0, if utf16 then U16Len(rs[..k]) - U16Len(rs[..j]) + 1 else k - j + 1))
  {
    var offs := LineStarts(data);
    var idx := SpanIndex(offs, rs);
    var o := ByteLen(rs[..k]);
    var l := RuneLine(data, rs, j, k);
    if utf16 {
      ToUTF16OffsetInverse(offs, rs, k);
      ToUTF16OffsetInverse(offs, rs, j);
      UnicodeLineColOf(idx, o, l, U16Len(rs[..k]), U16Len(rs[..j]), utf16);
    } else {
      ToRuneOffsetInverse(offs, rs, k);
      ToRuneOffsetInverse(offs, rs, j);
      UnicodeLineColOf(idx, o, l, k, j, utf16);
    }
  }

  /** "ab\ncé" decodes to four one-byte runes and a two-byte one. */
  lemma {:induction false} MiscountRunes(data: seq<Byte>)
    requires data == [97, 98, 10, 99, 0xC3, 0xA9]
    ensures Runes(data) == [Rune(97, 1), Rune(98, 1), Rune(10, 1), Rune(99, 1), Rune(0xE9, 2)]
  {
    var e := Rune(0xE9, 2);
    var d4 := data[4..];
    var d3 := data[3..];
    var d2 := data[2..];
    var d1 := data[1..];
    assert d4 == [0xC3, 0xA9] && d4[2..] == [];
    assert Runes(d4) == [e] + Runes([]);
    assert d3[1..] == d4 && DecodeRune(d3) == Rune(99, 1);
    assert Runes(d3) == [Rune(99, 1), e];
    assert d2[1..] == d3 && DecodeRune(d2) == Rune(10, 1);
    assert Runes(d2) == [Rune(10, 1), Rune(99, 1), e];
    assert d1[1..] == d2 && DecodeRune(d1) == Rune(98, 1);
    assert Runes(d1) == [Rune(98, 1), Rune(10, 1), Rune(99, 1), e];
    assert data[1..] == d1 && DecodeRune(data) == Rune(97, 1);
  }

  /** Four one-byte runes make one span. */
  lemma {:induction false} AsciiSpan(q: seq<Rune>)
    requires |q| == 4 && forall i :: 0 <= i < 4 ==> q[i].size8 == 1 && q[i].code < 0x80
    ensures Spans(q) == [RuneSpan(0, 0, 0, 1, 1, 4)]
    ensures ByteLen(q) == 4 && U16Len(q) == 4
  {
    assert [q[0]][..0] == [];
    assert Spans([q[0]]) == [RuneSpan(0, 0, 0, 1, 1, 1)];
    assert q[..2][..1] == [q[0]];
    assert Spans(q[..2]) == [RuneSpan(0, 0, 0, 1, 1, 2)];
    assert q[..3][..2] == q[..2];
    assert Spans(q[..3]) == [RuneSpan(0, 0, 0, 1, 1, 3)];
    assert q[..|q| - 1] == q[..3];
    LengthsSnoc(q[..3], q[3]);
    LengthsSnoc(q[..2], q[2]);
    LengthsSnoc([q[0]], q[1]);
    LengthsSnoc([], q[0]);
    assert [] + [q[0]] == [q[0]];
    assert [q[0]] + [q[1]] == q[..2];
    assert q[..2] + [q[2]] == q[..3];
    assert q[..3] + [q[3]] == q;
  }

  /** Its spans: the four one-byte runes, then the two-byte one. */
  lemma {:induction false} MiscountSpans(rs: seq<Rune>)
    requires rs == [Rune(97, 1), Rune(98, 1), Rune(10, 1), Rune(99, 1), Rune(0xE9, 2)]
    ensures Spans(rs) == [RuneSpan(0, 0, 0, 1, 1, 4), RuneSpan(4, 4, 4, 2, 1, 1)]
  {
    AsciiSpan(rs[..4]);
    assert rs[..|rs| - 1] == rs[..4];
  }

  /** Its lines start at 0 and 3. */
  lemma {:induction false} MiscountLines(data: seq<Byte>)
    requires data == [97, 98, 10, 99, 0xC3, 0xA9]
    ensures LineStarts(data) == [0, 3]
  {
    assert LineStarts(data[..1]) == [0] by {
      assert data[..1][..0] == [];
    }
    assert data[..2][..1] == data[..1];
    assert LineStarts(data[..2]) == [0];
    assert data[..3][..2] == data[..2];
    assert LineStarts(data[..3]) == [0, 3];
    assert data[..4][..3] == data[..3];
    assert LineStarts(data[..4]) == [0, 3];
    assert data[..5][..4] == data[..4];
    assert LineStarts(data[..5]) == [0, 3];
    assert data[..5] == data[..|data| - 1];
  }

  /** As written, column of the end of "ab\ncé" is 4: the bytes of the line are counted from the start of its span. */
  lemma {:induction false} UnicodeLineColAsWrittenMiscounts(data: seq<Byte>)
    requires data == [97, 98, 10, 99, 0xC3, 0xA9]
    ensures UnicodeLineColAsWritten(UnicodeIndex(data), 6, false) == Ok((2, 4))
    ensures UnicodeLineCol(UnicodeIndex(data), 6, false) == Ok((2, 3))
  {
    MiscountRunes(data);
    MiscountSpans(Runes(data));
    MiscountLines(data);
    var sp := [RuneSpan(0, 0, 0, 1, 1, 4), RuneSpan(4, 4, 4, 2, 1, 1)];
    assert UnicodeIndex(data) == Index([0, 3], Some(sp), 6);
    MiscountColumns(Index([0, 3], Some(sp), 6));
  }

  lemma {:induction false} MiscountColumns(idx: Index)
    requires idx == Index([0, 3], Some([RuneSpan(0, 0, 0, 1, 1, 4), RuneSpan(4, 4, 4, 2, 1, 1)]), 6)
    ensures UnicodeLineColAsWritten(idx, 6, false) == Ok((2, 4))
    ensures UnicodeLineCol(idx, 6, false) == Ok((2, 3))
  {
    var sp := idx.spans.value;
    MiscountLine(idx);
    SearchSpansIs(sp, ByteKey, 3, 1);
    SearchSpansIs(sp, ByteKey, 6, 2);
    assert sp[0..] == sp && sp[..2] == sp;
    assert ColScan(sp, 3, false) == 3;
  }

  lemma {:induction false} MiscountLine(idx: Index)
    requires idx == Index([0, 3], Some([RuneSpan(0, 0, 0, 1, 1, 4), RuneSpan(4, 4, 4, 2, 1, 1)]), 6)
    ensures OffsetToLine(idx, 6) == Ok(2) && OffsetToLine(idx, 3) == Ok(2)
  {
  }

  /** As written, toUnicodeLineCol on an empty input indexes before the first of no spans; corrected, it is line 1, column 1. */
  lemma {:induction false} UnicodeLineColAsWrittenEmpty(data: seq<Byte>, utf16: bool)
    requires data == []
    ensures UnicodeLineColAsWritten(UnicodeIndex(data), 0, utf16) == Err(IndexPanic)
    ensures UnicodeLineCol(UnicodeIndex(data), 0, utf16) == Ok((1, 1))
  {
  }
}
