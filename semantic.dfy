// Comment splitting of the semantic transformer (uast/transformer/semantic.go):
// a comment is taken apart into its start and end tokens, the run of tab
// characters after the start token (prefix), the run before the end token
// (suffix), the indentation common to every line after the first, and the
// text in between; Join puts the parts back together. Strings are modelled
// as sequences of runes.
module Semantic {
  import opened Wrappers
  import opened Strings

  // ------------------------------------------------------------ index helpers

  /** The first index of s whose rune satisfies f, or |s| when none does. */
  function FirstIndex(s: string, f: char -> bool): (r: nat)
    ensures r <= |s|
    ensures forall j :: 0 <= j < r ==> !f(s[j])
    ensures r < |s| ==> f(s[r])
    decreases |s|
  {
    if s == [] then 0 else if f(s[0]) then 0 else 1 + FirstIndex(s[1..], f)
  }

  /** The last index of s whose rune satisfies f, or -1 when none does. */
  function LastIndex(s: string, f: char -> bool): (r: int)
    ensures -1 <= r < |s|
    ensures forall j :: r < j < |s| ==> !f(s[j])
    ensures r >= 0 ==> f(s[r])
    decreases |s|
  {
    if s == [] then -1 else if f(s[|s| - 1]) then |s| - 1 else LastIndex(s[..|s| - 1], f)
  }

  /** firstIndexFunc. */
  method FirstIndexFunc(runes: string, f: char -> bool) returns (i: nat)
    ensures i == FirstIndex(runes, f)
  {
    i := 0;
    while i < |runes|
      invariant i <= |runes| && forall j :: 0 <= j < i ==> !f(runes[j])
    {
      if f(runes[i]) {
        return;
      }
      i := i + 1;
    }
  }

  /** lastIndexFunc: scans from the end. */
  method LastIndexFunc(runes: string, f: char -> bool) returns (j: int)
    ensures j == LastIndex(runes, f)
  {
    for i := 0 to |runes|
      invariant forall q :: |runes| - i <= q < |runes| ==> !f(runes[q])
    {
      j := |runes| - 1 - i;
      if f(runes[j]) {
        return;
      }
    }
    j := -1;
  }

  /** The longest common prefix of a and b. */
  function Common(a: string, b: string): (r: string)
    ensures HasPrefix(a, r) && HasPrefix(b, r)
    ensures |r| == |a| || |r| == |b| || a[|r|] != b[|r|]
    decreases |a|
  {
    if |a| == 0 || |b| == 0 || a[0] != b[0] then ""
    else [a[0]] + Common(a[1..], b[1..])
  }

  /** A common prefix that cannot be extended is the longest one. */
  lemma {:induction false} CommonIs(a: string, b: string, r: string)
    requires HasPrefix(a, r) && HasPrefix(b, r)
    requires |r| == |a| || |r| == |b| || a[|r|] != b[|r|]
    ensures r == Common(a, b)
    decreases |a|
  {
    if |r| > 0 {
      assert a[0] == r[0] == b[0];
      assert a[1..][..|r| - 1] == r[1..] && b[1..][..|r| - 1] == r[1..];
      CommonIs(a[1..], b[1..], r[1..]);
    }
  }

  /** commonPrefix does not depend on the order of its arguments. */
  lemma {:induction false} CommonSymmetric(a: string, b: string)
    ensures Common(a, b) == Common(b, a)
  {
    CommonIs(b, a, Common(a, b));
  }

  /** Every common prefix is a prefix of the longest one. */
  lemma {:induction false} CommonLongest(a: string, b: string, p: string)
    requires HasPrefix(a, p) && HasPrefix(b, p)
    ensures HasPrefix(Common(a, b), p)
  {
  }

  /** commonPrefix: the shorter argument goes first, then the scan stops at the first difference. */
  method CommonPrefix(a: string, b: string) returns (r: string)
    ensures r == Common(a, b)
    decreases if |b| < |a| then 1 else 0
  {
    if |b| < |a| {
      r := CommonPrefix(b, a);
      CommonSymmetric(b, a);
      return;
    }
    var i := 0;
    while i < |a| && a[i] == b[i]
      invariant i <= |a| && a[..i] == b[..i]
    {
      i := i + 1;
    }
    r := a[..i];
    CommonIs(a, b, r);
  }

  // ------------------------------------------------------------ comment parts

  /** isTabToken: white space, or a rune of the start or end token. */
  predicate IsTab(startToken: string, endToken: string, c: char)
  {
    IsSpace(c) || c in startToken || c in endToken
  }

  /** The notTab closure of Split. */
  function NotTab(startToken: string, endToken: string): char -> bool
  {
    c => !IsTab(startToken, endToken, c)
  }

  /** A sequence is its two sides of any cut. */
  lemma CutJoin(s: string, k: int)
    requires 0 <= k <= |s|
    ensures s[..k] + s[k..] == s
  {
  }

  /** The parts Split stores: text, prefix, suffix and indentation. */
  datatype Parts = Parts(text: string, prefix: string, suffix: string, indent: string)

  /** The leading run of tab runes of a line. */
  function TabRun(line: string, f: char -> bool): (r: string)
    ensures HasPrefix(line, r)
    ensures forall q :: 0 <= q < |r| ==> !f(r[q])
  {
    line[..FirstIndex(line, f)]
  }

  /** The indentation common to all the lines: the common prefix of their tab runs ("" for no lines). */
  function CommonIndent(lines: seq<string>, f: char -> bool): string
  {
    if |lines| == 0 then ""
    else if |lines| == 1 then TabRun(lines[0], f)
    else Common(CommonIndent(lines[..|lines| - 1], f), TabRun(lines[|lines| - 1], f))
  }

  /** The common indentation starts every line and is made of tab runes only. */
  lemma {:induction false} CommonIndentPrefix(lines: seq<string>, f: char -> bool, k: int)
    requires 0 <= k < |lines|
    ensures HasPrefix(lines[k], CommonIndent(lines, f))
    ensures forall q :: 0 <= q < |CommonIndent(lines, f)| ==> !f(CommonIndent(lines, f)[q])
    decreases |lines|
  {
    var c := CommonIndent(lines, f);
    if |lines| > 1 {
      var init := lines[..|lines| - 1];
      var last := TabRun(lines[|lines| - 1], f);
      if k < |lines| - 1 {
        CommonIndentPrefix(init, f, k);
        assert lines[k] == init[k];
      } else {
        CommonIndentPrefix(init, f, 0);
      }
      assert c == last[..|c|];
    }
  }

  /** Once the common indentation is empty it stays empty. */
  lemma {:induction false} CommonIndentEmpty(lines: seq<string>, f: char -> bool, i: nat)
    requires 1 <= i <= |lines| && CommonIndent(lines[..i], f) == ""
    ensures CommonIndent(lines, f) == ""
    decreases |lines| - i
  {
    if i < |lines| {
      assert lines[..i + 1][..i] == lines[..i];
      CommonIndentEmpty(lines, f, i + 1);
    } else {
      assert lines[..i] == lines;
    }
  }

  /** Every line with the indentation trimmed off. */
  function TrimAll(lines: seq<string>, indent: string): (r: seq<string>)
    ensures |r| == |lines|
  {
    seq(|lines|, k requires 0 <= k < |lines| => TrimPrefix(lines[k], indent))
  }

  /** Every line after the first with the indentation put back in front. */
  function Reindent(lines: seq<string>, indent: string): (r: seq<string>)
    ensures |r| == |lines|
  {
    seq(|lines|, k requires 0 <= k < |lines| => if k == 0 then lines[0] else indent + lines[k])
  }

  /** The indentation Split finds in a text: the common indentation of the lines after the first. */
  function Indentation(text: string, f: char -> bool): string
  {
    CommonIndent(Split(text, "\n")[1..], f)
  }

  /** The text with the indentation trimmed from every line, when there is one. */
  function Outdent(text: string, f: char -> bool): string
  {
    var tab := Indentation(text, f);
    if tab == "" then text else Join(TrimAll(Split(text, "\n"), tab), "\n")
  }

  /** The text with the indentation put back in front of every line after the first (the loop of Join). */
  function Indented(text: string, indent: string): string
  {
    if indent != "" then Join(Reindent(Split(text, "\n"), indent), "\n") else text
  }

  /**
   * The parts of the text between the tokens: the leading and trailing tab
   * runs become prefix and suffix, and the text between them is outdented.
   */
  function Arrange(startToken: string, endToken: string, body: string): Parts
  {
    ArrangeBy(body, NotTab(startToken, endToken))
  }

  /** Arrange for any choice of the runes that are not tabs: scan the tab runs, then outdent the text between them. */
  function ArrangeBy(body: string, f: char -> bool): Parts
  {
    var p := Scanned(body, f);
    p.(text := Outdent(p.text, f), indent := Indentation(p.text, f))
  }

  /** The leading tab run as prefix, the trailing one as suffix, the runes between them as text, and no indentation yet. */
  function Scanned(body: string, f: char -> bool): (p: Parts)
    ensures p.prefix + p.text + p.suffix == body && p.indent == ""
  {
    var i := FirstIndex(body, f);
    var rest := body[i..];
    var j := LastIndex(rest, f) + 1;
    assert body == body[..i] + rest[..j] + rest[j..];
    Parts(rest[..j], body[..i], rest[j..], "")
  }

  /** The text Split looks at: the comment, with leading white space dropped when trimming. */
  function Trimmed(doTrim: bool, s: string): string
  {
    if doTrim then TrimLeftSpace(s) else s
  }

  /**
   * commentElems.Split as written: it accepts any text that starts with the
   * start token and ends with the end token, even when the two overlap.
   */
  function SplitAsWritten(startToken: string, endToken: string, doTrim: bool, s: string): (r: Option<Parts>)
    ensures r.Some? <==> HasPrefix(Trimmed(doTrim, s), startToken) && HasSuffix(Trimmed(doTrim, s), endToken)
  {
    var t := Trimmed(doTrim, s);
    if !HasPrefix(t, startToken) || !HasSuffix(t, endToken) then None
    else Some(Arrange(startToken, endToken, TrimSuffix(TrimPrefix(t, startToken), endToken)))
  }

  /** commentElems.Split, with the start and end tokens required not to overlap. */
  function SplitComment(startToken: string, endToken: string, doTrim: bool, s: string): (r: Option<Parts>)
    ensures r.Some? <==>
      HasPrefix(Trimmed(doTrim, s), startToken) && HasSuffix(Trimmed(doTrim, s), endToken) &&
      |startToken| + |endToken| <= |Trimmed(doTrim, s)|
  {
    if |Trimmed(doTrim, s)| < |startToken| + |endToken| then None
    else SplitAsWritten(startToken, endToken, doTrim, s)
  }

  /** commentElems.Join: the tokens around prefix, reindented text and suffix. */
  function JoinParts(startToken: string, endToken: string, p: Parts): string
  {
    startToken + p.prefix + Indented(p.text, p.indent) + p.suffix + endToken
  }

  // ------------------------------------------------------------ round trip

  /** Trimming the indentation off and putting it back gives every line back. */
  lemma {:induction false} ReindentTrimAll(sub: seq<string>, tab: string)
    requires |sub| >= 1 && !HasPrefix(sub[0], tab)
    requires forall k :: 1 <= k < |sub| ==> HasPrefix(sub[k], tab)
    ensures Reindent(TrimAll(sub, tab), tab) == sub
  {
    var r := Reindent(TrimAll(sub, tab), tab);
    forall k | 0 <= k < |sub| ensures r[k] == sub[k] {
      if k > 0 {
        assert tab + TrimPrefix(sub[k], tab) == sub[k];
      }
    }
  }

  /** The trimmed lines contain no newline, since the split lines contain none. */
  lemma {:induction false} TrimAllNoNewline(text: string, tab: string)
    ensures forall k :: 0 <= k < |Split(text, "\n")| ==> '\n' !in TrimAll(Split(text, "\n"), tab)[k]
  {
    var sub := Split(text, "\n");
    forall k | 0 <= k < |sub| ensures '\n' !in TrimAll(sub, tab)[k] {
      SplitPartsFree(text, "\n", k);
      NotContainsChar(sub[k], '\n');
    }
  }

  /** The first line of a text that starts with a non-tab rune does not start with a non-empty run of tab runes. */
  lemma {:induction false} FirstLineNotIndented(text0: string, tab: string, f: char -> bool)
    requires |text0| > 0 && f(text0[0]) && !f('\n')
    requires |tab| > 0 && !f(tab[0])
    ensures !HasPrefix(Split(text0, "\n")[0], tab)
  {
    var i := IndexOf(text0, "\n");
    if i > 0 {
      assert Split(text0, "\n")[0] == text0[..i];
    }
  }

  /**
   * Outdenting and then reindenting as Join does gives the text back, for a
   * text that is empty or starts with a non-tab rune.
   */
  lemma {:induction false} OutdentRoundTrip(text0: string, f: char -> bool)
    requires text0 == "" || f(text0[0])
    requires !f('\n')
    ensures Indented(Outdent(text0, f), Indentation(text0, f)) == text0
  {
    var sub := Split(text0, "\n");
    var tab := Indentation(text0, f);
    if tab != "" {
      assert |sub| >= 2;
      CommonIndentPrefix(sub[1..], f, 0);
      FirstLineNotIndented(text0, tab, f);
      forall k | 1 <= k < |sub| ensures HasPrefix(sub[k], tab) {
        CommonIndentPrefix(sub[1..], f, k - 1);
        assert sub[1..][k - 1] == sub[k];
      }
      ReindentTrimAll(sub, tab);
      TrimAllNoNewline(text0, tab);
      SplitJoin(TrimAll(sub, tab), "\n");
      JoinSplit(text0, "\n");
    }
  }

  /** The text between the tab runs is empty or starts with a rune satisfying f. */
  lemma {:induction false} ScannedStarts(body: string, f: char -> bool)
    ensures Scanned(body, f).text == "" || f(Scanned(body, f).text[0])
  {
    var i := FirstIndex(body, f);
    var rest := body[i..];
    var j := LastIndex(rest, f) + 1;
    if j > 0 {
      assert rest[..j][0] == rest[0] == body[i];
    }
  }

  /** Join's reassembly undoes ArrangeBy when a newline never satisfies f. */
  lemma {:induction false} ArrangeByJoin(body: string, f: char -> bool, indented: string)
    requires !f('\n')
    requires indented == Indented(ArrangeBy(body, f).text, ArrangeBy(body, f).indent)
    ensures ArrangeBy(body, f).prefix + indented + ArrangeBy(body, f).suffix == body
  {
    ScannedStarts(body, f);
    OutdentRoundTrip(Scanned(body, f).text, f);
  }

  /** Join undoes Arrange: the tokens around the parts of a body give the body back. */
  lemma {:induction false} ArrangeJoin(startToken: string, endToken: string, body: string)
    ensures JoinParts(startToken, endToken, Arrange(startToken, endToken, body)) == startToken + body + endToken
  {
    var f := NotTab(startToken, endToken);
    var p := Arrange(startToken, endToken, body);
    NewlineIsTab(startToken, endToken);
    ArrangeByJoin(body, f, Indented(p.text, p.indent));
    ConcatMiddle(startToken, p.prefix, Indented(p.text, p.indent), p.suffix, endToken, body);
  }

  /** A newline is a tab rune of Split, whatever the tokens. */
  lemma {:induction false} NewlineIsTab(startToken: string, endToken: string)
    ensures !NotTab(startToken, endToken)('\n')
  {
    assert IsSpace('\n');
  }

  lemma {:induction false} ConcatMiddle<T>(a: seq<T>, b: seq<T>, c: seq<T>, d: seq<T>, e: seq<T>, m: seq<T>)
    requires b + c + d == m
    ensures a + b + c + d + e == a + m + e
  {
    assert a + b + c + d + e == a + (b + c + d) + e;
  }

  /**
   * Join after a successful Split gives the comment back (with its leading
   * white space dropped when Split trims).
   */
  lemma {:induction false} SplitThenJoin(startToken: string, endToken: string, doTrim: bool, s: string)
    requires SplitComment(startToken, endToken, doTrim, s).Some?
    ensures JoinParts(startToken, endToken, SplitComment(startToken, endToken, doTrim, s).value) == Trimmed(doTrim, s)
  {
    var t := Trimmed(doTrim, s);
    var body := TrimSuffix(TrimPrefix(t, startToken), endToken);
    BetweenTokens(t, startToken, endToken);
    ArrangeJoin(startToken, endToken, body);
  }

  /**
   * The round trip of Split as written: it holds whenever the comment is at
   * least as long as its two tokens together, so that they do not overlap.
   */
  lemma {:induction false} SplitAsWrittenThenJoin(startToken: string, endToken: string, doTrim: bool, s: string)
    requires SplitAsWritten(startToken, endToken, doTrim, s).Some?
    requires |startToken| + |endToken| <= |Trimmed(doTrim, s)|
    ensures JoinParts(startToken, endToken, SplitAsWritten(startToken, endToken, doTrim, s).value) == Trimmed(doTrim, s)
  {
    SplitThenJoin(startToken, endToken, doTrim, s);
  }

  /** A text with both tokens, not overlapping, is the start token, what Split keeps, and the end token. */
  lemma {:induction false} BetweenTokens(t: string, startToken: string, endToken: string)
    requires HasPrefix(t, startToken) && HasSuffix(t, endToken) && |startToken| + |endToken| <= |t|
    ensures t == startToken + TrimSuffix(TrimPrefix(t, startToken), endToken) + endToken
  {
    var t1 := TrimPrefix(t, startToken);
    assert t1 == t[|startToken|..];
    assert t1[|t1| - |endToken|..] == t[|t| - |endToken|..];
  }

  /**
   * The finding in Split as written: with the block-comment tokens, the
   * three-rune text below starts with the start token and ends with the end
   * token, the two sharing its middle rune; it splits into an empty text
   * with prefix "/", and Join then gives a five-rune text.
   */
  lemma {:induction false} SplitOverlapAsWritten(s: string, st: string, et: string)
    requires s == "/*/" && st == "/*" && et == "*/"
    ensures SplitAsWritten(st, et, false, s) == Some(Parts("", "/", "", ""))
    ensures JoinParts(st, et, SplitAsWritten(st, et, false, s).value) == "/*/*/" != s
  {
    OverlapBody(s, st, et);
    OverlapArrange(st, et);
    OverlapJoin(st, et);
  }

  /** The corrected Split rejects that text: it is shorter than the two tokens together. */
  lemma {:induction false} OverlapRejected(s: string, st: string, et: string)
    requires s == "/*/" && st == "/*" && et == "*/"
    ensures SplitComment(st, et, false, s) == None
  {
    assert Trimmed(false, s) == s;
  }

  lemma {:induction false} OverlapJoin(st: string, et: string)
    requires st == "/*" && et == "*/"
    ensures JoinParts(st, et, Parts("", "/", "", "")) == "/*/*/"
  {
    assert Indented("", "") == "";
  }

  lemma {:induction false} OverlapBody(s: string, st: string, et: string)
    requires s == "/*/" && st == "/*" && et == "*/"
    ensures SplitAsWritten(st, et, false, s) == Some(Arrange(st, et, "/"))
  {
    assert Trimmed(false, s) == s;
    assert HasPrefix(s, st) && HasSuffix(s, et);
    assert TrimPrefix(s, st) == "/";
    assert TrimSuffix("/", et) == "/";
  }

  lemma {:induction false} OverlapArrange(st: string, et: string)
    requires st == "/*" && et == "*/"
    ensures Arrange(st, et, "/") == Parts("", "/", "", "")
  {
    var f := NotTab(st, et);
    assert !f('/');
    assert FirstIndex("/", f) == 1;
    assert "/"[1..] == "" && "/"[..1] == "/";
    assert LastIndex("", f) == -1;
    assert Split("", "\n") == [""];
    assert Indentation("", f) == "";
    assert Outdent("", f) == "";
  }

  // ------------------------------------------------------------ commentElems

  /** The common-indentation loop of Split; it stops as soon as the indentation is empty. */
  method CommonTabs(lines: seq<string>, f: char -> bool) returns (tab: string)
    ensures tab == CommonIndent(lines, f)
  {
    tab := "";
    for i := 0 to |lines|
      invariant tab == CommonIndent(lines[..i], f)
      invariant i > 0 ==> tab != ""
    {
      var runes := lines[i];
      var j := FirstIndexFunc(runes, f);
      assert lines[..i + 1][..i] == lines[..i];
      if i == 0 {
        tab := runes[..j];
      } else {
        tab := CommonPrefix(tab, runes[..j]);
      }
      if |tab| == 0 {
        CommonIndentEmpty(lines, f, i + 1);
        return;
      }
    }
    assert lines[..|lines|] == lines;
  }

  /** The trimming loop of Split. */
  method TrimLines(sub: seq<string>, indent: string) returns (r: seq<string>)
    ensures r == TrimAll(sub, indent)
  {
    r := sub;
    for i := 0 to |r|
      invariant |r| == |sub|
      invariant forall k :: 0 <= k < |r| ==> r[k] == if k < i then TrimPrefix(sub[k], indent) else sub[k]
    {
      r := r[i := TrimPrefix(r[i], indent)];
    }
  }

  /**
   * The line loops of Split: the common indentation of the lines after the
   * first and the text with it trimmed from every line. When the
   * indentation turns out empty, after at least one line, Split returns at
   * once and leaves the text as it is.
   */
  method OutdentLines(text0: string, f: char -> bool) returns (indent: string, text: string)
    ensures indent == Indentation(text0, f) && text == Outdent(text0, f)
  {
    var sub := Strings.Split(text0, "\n");
    var tab := CommonTabs(sub[1..], f);
    if tab == "" && |sub| > 1 {
      return "", text0;
    }
    indent := tab;
    sub := TrimLines(sub, indent);
    text := Strings.Join(sub, "\n");
    if indent == "" {
      TrimAllNothing(Strings.Split(text0, "\n"));
      JoinSplit(text0, "\n");
    }
  }

  /** Trimming the empty indentation changes nothing. */
  lemma {:induction false} TrimAllNothing(sub: seq<string>)
    ensures TrimAll(sub, "") == sub
  {
    var r := TrimAll(sub, "");
    forall k | 0 <= k < |sub| ensures r[k] == sub[k] {
      assert HasPrefix(sub[k], "");
    }
  }

  /** A text Split accepts is arranged from what lies between its tokens. */
  lemma {:induction false} SplitAsWrittenIs(startToken: string, endToken: string, doTrim: bool, s: string, body: string)
    requires HasPrefix(Trimmed(doTrim, s), startToken) && HasSuffix(Trimmed(doTrim, s), endToken)
    requires body == TrimSuffix(TrimPrefix(Trimmed(doTrim, s), startToken), endToken)
    ensures SplitAsWritten(startToken, endToken, doTrim, s) == Some(Arrange(startToken, endToken, body))
  {
  }

  /** Arrange in terms of the prefix, text and suffix that the tab-run scans leave and the outdented text. */
  lemma {:induction false} ScannedIs(body: string, f: char -> bool, prefix: string, text1: string, text0: string, suffix: string)
    requires prefix == TabRun(body, f) && prefix + text1 == body
    requires text0 + suffix == text1 && text0 == text1[..LastIndex(text1, f) + 1]
    ensures Scanned(body, f) == Parts(text0, prefix, suffix, "")
  {
    assert text1 == body[|prefix|..];
    assert suffix == text1[|text0|..];
  }

  /** commentElems: the tokens, the parts Split finds and Join reassembles, and whether Split trims. */
  class CommentElems {
    const startToken: string
    const endToken: string
    var text: string
    var prefix: string
    var suffix: string
    var indent: string
    const doTrim: bool

    constructor(startToken: string, endToken: string, p: Parts, doTrim: bool)
      ensures this.startToken == startToken && this.endToken == endToken && this.doTrim == doTrim
      ensures Current() == p
    {
      this.startToken, this.endToken, this.doTrim := startToken, endToken, doTrim;
      text, prefix, suffix, indent := p.text, p.prefix, p.suffix, p.indent;
    }

    /** The parts the fields hold. */
    function Current(): Parts
      reads this
    {
      Parts(text, prefix, suffix, indent)
    }

    /** findPrefix: the leading runes failing f move from the text to the prefix. */
    method FindPrefix(f: char -> bool)
      modifies this
      ensures prefix == TabRun(old(text), f) && prefix + text == old(text)
      ensures suffix == old(suffix) && indent == old(indent)
    {
      var runes := text;
      var i := FirstIndexFunc(runes, f);
      prefix := runes[..i];
      text := runes[i..];
      assert runes == runes[..i] + runes[i..];
    }

    /** findSuffix: the trailing runes failing f move from the text to the suffix. */
    method FindSuffix(f: char -> bool)
      modifies this
      ensures text + suffix == old(text) && text == old(text)[..LastIndex(old(text), f) + 1]
      ensures prefix == old(prefix) && indent == old(indent)
    {
      var runes := text;
      var j := LastIndexFunc(runes, f);
      text, suffix := runes[..j + 1], runes[j + 1..];
      CutJoin(runes, j + 1);
    }

    /**
     * commentElems.Split: on success the fields hold the parts of s; a text
     * without both tokens leaves them as they were. As in the source, the
     * two tokens may overlap (see SplitOverlapAsWritten).
     */
    method Split(s: string) returns (ok: bool)
      modifies this
      ensures ok == SplitAsWritten(startToken, endToken, doTrim, s).Some?
      ensures ok ==> Current() == SplitAsWritten(startToken, endToken, doTrim, s).value
      ensures !ok ==> Current() == old(Current())
    {
      var t := s;
      if doTrim {
        t := TrimLeftSpace(t);
      }
      if !HasPrefix(t, startToken) || !HasSuffix(t, endToken) {
        return false;
      }
      t := TrimPrefix(t, startToken);
      t := TrimSuffix(t, endToken);
      SplitAsWrittenIs(startToken, endToken, doTrim, s, t);
      ArrangeBody(t, NotTab(startToken, endToken));
      return true;
    }

    /** The part of Split past the token checks: the fields take the parts of the text between the tokens. */
    method ArrangeBody(body: string, notTab: char -> bool)
      modifies this
      ensures Current() == ArrangeBy(body, notTab)
    {
      ScanTabs(body, notTab);
      indent, text := OutdentLines(text, notTab);
    }

    /** The tab runs of the body move to prefix and suffix, the text keeps the runes between them. */
    method ScanTabs(body: string, notTab: char -> bool)
      modifies this
      ensures Current() == Scanned(body, notTab)
    {
      text := body;
      indent := "";
      FindPrefix(notTab);
      ghost var text1 := text;
      FindSuffix(notTab);
      ScannedIs(body, notTab, prefix, text1, text, suffix);
    }

    /** commentElems.Join: the comment the parts stand for. */
    method Join() returns (s: string)
      ensures s == JoinParts(startToken, endToken, Current())
    {
      var t := text;
      if indent != "" {
        var sub := Strings.Split(t, "\n");
        ghost var lines := sub;
        for i := 0 to |sub|
          invariant |sub| == |lines|
          invariant forall k :: 0 <= k < |sub| ==> sub[k] == if 0 < k < i then indent + lines[k] else lines[k]
        {
          if i == 0 {
            continue;
          }
          sub := sub[i := indent + sub[i]];
        }
        assert sub == Reindent(lines, indent);
        t := Strings.Join(sub, "\n");
      }
      s := startToken + prefix + t + suffix + endToken;
    }
  }
}
