// String helpers the Go code takes from its standard library: string order
// (sort.Strings), prefix and suffix tests, splitting, joining and white-space
// trimming. Strings are sequences of code points, so the order compares code
// points; Go's byte-wise order on UTF-8 agrees with it for valid text.
module Strings {

  // ---------------------------------------------------------------- order

  /** Lexicographic order, as Go's `<` on strings. */
  predicate Less(a: string, b: string)
    decreases |a|
  {
    if |a| == 0 then |b| > 0
    else if |b| == 0 then false
    else if a[0] != b[0] then a[0] < b[0]
    else Less(a[1..], b[1..])
  }

  lemma {:induction false} LessIrreflexive(a: string)
    ensures !Less(a, a)
    decreases |a|
  {
    if |a| > 0 { LessIrreflexive(a[1..]); }
  }

  lemma {:induction false} LessTransitive(a: string, b: string, c: string)
    requires Less(a, b) && Less(b, c)
    ensures Less(a, c)
    decreases |a|
  {
    if |a| > 0 && a[0] == b[0] && b[0] == c[0] {
      LessTransitive(a[1..], b[1..], c[1..]);
    }
  }

  lemma {:induction false} LessTotal(a: string, b: string)
    requires a != b
    ensures Less(a, b) || Less(b, a)
    decreases |a|
  {
    if |a| > 0 && |b| > 0 && a[0] == b[0] {
      assert a == [a[0]] + a[1..] && b == [b[0]] + b[1..];
      LessTotal(a[1..], b[1..]);
    }
  }

  lemma {:induction false} LessAsymmetric(a: string, b: string)
    requires Less(a, b)
    ensures !Less(b, a)
  {
    if Less(b, a) { LessTransitive(a, b, a); LessIrreflexive(a); }
  }

  predicate LessEq(a: string, b: string) { a == b || Less(a, b) }

  /** Strictly increasing: sorted and without duplicates. */
  predicate StrictlySorted(s: seq<string>)
  {
    forall i, j :: 0 <= i < j < |s| ==> Less(s[i], s[j])
  }

  /** Non-decreasing, as the result of sort.Strings. */
  predicate Sorted(s: seq<string>)
  {
    forall i, j :: 0 <= i < j < |s| ==> LessEq(s[i], s[j])
  }

  lemma {:induction false} StrictlySortedDistinct(s: seq<string>, i: int, j: int)
    requires StrictlySorted(s) && 0 <= i < |s| && 0 <= j < |s| && i != j
    ensures s[i] != s[j]
  {
    if i < j { assert Less(s[i], s[j]); LessIrreflexive(s[i]); }
    else { assert Less(s[j], s[i]); LessIrreflexive(s[j]); }
  }

  lemma {:induction false} StrictlySortedCard(s: seq<string>)
    requires StrictlySorted(s)
    ensures |set x | x in s| == |s|
    decreases |s|
  {
    if |s| > 0 {
      var t := s[1..];
      StrictlySortedCard(t);
      assert (set x | x in s) == (set x | x in t) + {s[0]};
      if s[0] in t {
        var k :| 0 <= k < |t| && t[k] == s[0];
        StrictlySortedDistinct(s, 0, k + 1);
      }
    }
  }

  /** The least element of a non-empty set. */
  ghost function Min(ks: set<string>): (m: string)
    requires ks != {}
    ensures m in ks && forall k :: k in ks && k != m ==> Less(m, k)
  {
    MinExists(ks);
    var m :| m in ks && forall k :: k in ks && k != m ==> Less(m, k);
    m
  }

  lemma {:induction false} MinExists(ks: set<string>)
    requires ks != {}
    ensures exists m :: m in ks && forall k :: k in ks && k != m ==> Less(m, k)
    decreases |ks|
  {
    var x :| x in ks;
    if ks == {x} {
      assert forall k :: k in ks && k != x ==> Less(x, k);
    } else {
      var rest := ks - {x};
      MinExists(rest);
      var m :| m in rest && forall k :: k in rest && k != m ==> Less(m, k);
      MinStep(ks, x, m);
    }
  }

  /** The least of ks - {x} and x: one of them is least in ks. */
  lemma {:induction false} MinStep(ks: set<string>, x: string, m: string)
    requires x in ks && m in ks && m != x
    requires forall k :: k in ks && k != x && k != m ==> Less(m, k)
    ensures exists y :: y in ks && forall k :: k in ks && k != y ==> Less(y, k)
  {
    if Less(x, m) {
      forall k | k in ks && k != x ensures Less(x, k) {
        if k != m { LessTransitive(x, m, k); }
      }
    } else {
      LessTotal(x, m);
      assert forall k :: k in ks && k != m ==> Less(m, k);
    }
  }

  lemma {:induction false} LessAsymmetricAll()
    ensures forall a, b :: Less(a, b) ==> !Less(b, a)
  {
    forall a, b | Less(a, b) ensures !Less(b, a) {
      LessAsymmetric(a, b);
    }
  }

  /** The least element of a non-empty set, computed (the element is unique). */
  function Least(ks: set<string>): (m: string)
    requires ks != {}
    ensures m == Min(ks)
  {
    MinExists(ks);
    LessAsymmetricAll();
    var m :| m in ks && forall k :: k in ks && k != m ==> Less(m, k);
    m
  }

  /** The keys of a set in increasing order: what Object.Keys and sort.Strings produce. */
  ghost function SortedKeys(ks: set<string>): (r: seq<string>)
    ensures StrictlySorted(r) && |r| == |ks|
    ensures forall k :: k in r <==> k in ks
    decreases |ks|
  {
    if ks == {} then []
    else
      var m := Min(ks);
      var rest := SortedKeys(ks - {m});
      assert forall j :: 0 <= j < |rest| ==> Less(m, rest[j]) by {
        forall j | 0 <= j < |rest| ensures Less(m, rest[j]) { assert rest[j] in ks - {m}; }
      }
      [m] + rest
  }

  /** A strictly sorted sequence is determined by its set of elements. */
  lemma {:induction false} StrictlySortedUnique(a: seq<string>, b: seq<string>)
    requires StrictlySorted(a) && StrictlySorted(b)
    requires forall k :: k in a <==> k in b
    ensures a == b
    decreases |a|
  {
    assert |b| > 0 ==> b[0] in b;
    assert |a| > 0 ==> a[0] in a;
    if |a| > 0 && |b| > 0 {
      if a[0] != b[0] {
        assert b[0] in a;
        assert a[0] in b;
        var i :| 0 <= i < |a| && a[i] == b[0];
        var j :| 0 <= j < |b| && b[j] == a[0];
        assert i > 0 && j > 0;
        assert Less(a[0], a[i]) && Less(b[0], b[j]);
        LessAsymmetric(a[0], b[0]);
        assert false;
      }
      forall k ensures k in a[1..] <==> k in b[1..] {
        if k in a[1..] {
          var i :| 1 <= i < |a| && a[i] == k;
          StrictlySortedDistinct(a, 0, i);
          assert k in b;
          var j :| 0 <= j < |b| && b[j] == k;
          assert j != 0;
          assert b[j] == b[1..][j - 1];
        }
        if k in b[1..] {
          var j :| 1 <= j < |b| && b[j] == k;
          StrictlySortedDistinct(b, 0, j);
          assert k in a;
          var i :| 0 <= i < |a| && a[i] == k;
          assert i != 0;
          assert a[i] == a[1..][i - 1];
        }
      }
      StrictlySortedUnique(a[1..], b[1..]);
      assert a == [a[0]] + a[1..] && b == [b[0]] + b[1..];
    }
  }

  /** Inserts x into a strictly sorted sequence that does not contain it. */
  function Insert(s: seq<string>, x: string): (r: seq<string>)
    requires StrictlySorted(s) && x !in s
    ensures StrictlySorted(r) && |r| == |s| + 1
    ensures forall k :: k in r <==> k in s || k == x
    decreases |s|
  {
    if |s| == 0 then [x]
    else if Less(x, s[0]) then
      assert forall j :: 0 <= j < |s| ==> Less(x, s[j]) by {
        forall j | 0 <= j < |s| ensures Less(x, s[j]) { if j > 0 { LessTransitive(x, s[0], s[j]); } }
      }
      [x] + s
    else
      LessTotal(x, s[0]);
      var t := Insert(s[1..], x);
      assert forall j :: 0 <= j < |t| ==> Less(s[0], t[j]) by {
        forall j | 0 <= j < |t| ensures Less(s[0], t[j]) {
          if t[j] != x {
            assert t[j] in s[1..];
            var i :| 0 <= i < |s[1..]| && s[1..][i] == t[j];
            assert s[i + 1] == t[j];
          }
        }
      }
      [s[0]] + t
  }

  /** The keys of a map, after collecting them in map order and sorting: Object.Keys. */
  method SortedKeysOf<V>(m: map<string, V>) returns (keys: seq<string>)
    ensures keys == SortedKeys(m.Keys)
  {
    var rest := m.Keys;
    keys := [];
    while rest != {}
      invariant StrictlySorted(keys)
      invariant rest !! (set k | k in keys)
      invariant forall k :: k in m.Keys <==> k in keys || k in rest
      decreases |rest|
    {
      var k :| k in rest;
      keys := Insert(keys, k);
      rest := rest - {k};
    }
    StrictlySortedUnique(keys, SortedKeys(m.Keys));
  }

  // ------------------------------------------------------- prefix, suffix

  predicate HasPrefix(s: string, p: string) { |p| <= |s| && s[..|p|] == p }

  predicate HasSuffix(s: string, p: string) { |p| <= |s| && s[|s| - |p|..] == p }

  /** strings.TrimPrefix: drops p when s starts with it. */
  function TrimPrefix(s: string, p: string): (r: string)
    ensures HasPrefix(s, p) ==> p + r == s
    ensures !HasPrefix(s, p) ==> r == s
  {
    if HasPrefix(s, p) then
      assert s == s[..|p|] + s[|p|..];
      s[|p|..]
    else s
  }

  /** strings.TrimSuffix: drops p when s ends with it. */
  function TrimSuffix(s: string, p: string): (r: string)
    ensures HasSuffix(s, p) ==> r + p == s
    ensures !HasSuffix(s, p) ==> r == s
  {
    if HasSuffix(s, p) then
      assert s == s[..|s| - |p|] + s[|s| - |p|..];
      s[..|s| - |p|]
    else s
  }

  /** sub occurs in s at index i. */
  predicate OccursAt(s: string, sub: string, i: int)
  {
    0 <= i && i + |sub| <= |s| && s[i..i + |sub|] == sub
  }

  /** strings.Contains. */
  predicate Contains(s: string, sub: string)
  {
    exists i :: 0 <= i <= |s| && OccursAt(s, sub, i)
  }

  // -------------------------------------------------------------- spaces

  /** unicode.IsSpace: the Unicode White_Space property. */
  predicate IsSpace(c: char)
  {
    ('\t' <= c <= '\r') || c == ' ' || c == '\U{0085}' || c == '\U{00A0}' || c == '\U{1680}'
    || ('\U{2000}' <= c <= '\U{200A}') || c == '\U{2028}' || c == '\U{2029}' || c == '\U{202F}'
    || c == '\U{205F}' || c == '\U{3000}'
  }

  /** strings.TrimLeftFunc(s, unicode.IsSpace). */
  function TrimLeftSpace(s: string): (r: string)
    ensures HasSuffix(s, r)
    ensures |r| > 0 ==> !IsSpace(r[0])
    ensures forall i :: 0 <= i < |s| - |r| ==> IsSpace(s[i])
    decreases |s|
  {
    if |s| > 0 && IsSpace(s[0]) then TrimLeftSpace(s[1..]) else s
  }

  /** strings.TrimRightFunc(s, unicode.IsSpace). */
  function TrimRightSpace(s: string): (r: string)
    ensures HasPrefix(s, r)
    ensures |r| > 0 ==> !IsSpace(r[|r| - 1])
    ensures forall i :: |r| <= i < |s| ==> IsSpace(s[i])
    decreases |s|
  {
    if |s| > 0 && IsSpace(s[|s| - 1]) then TrimRightSpace(s[..|s| - 1]) else s
  }

  /** strings.TrimSpace. */
  function TrimSpace(s: string): (r: string)
    ensures |r| > 0 ==> !IsSpace(r[0]) && !IsSpace(r[|r| - 1])
    ensures |r| <= |s|
  {
    TrimRightSpace(TrimLeftSpace(s))
  }

  // --------------------------------------------------------- split, join

  lemma {:induction false} OccursAtTail(s: string, sep: string, i: int)
    requires |s| > 0 && 0 <= i
    ensures OccursAt(s, sep, i + 1) <==> OccursAt(s[1..], sep, i)
  {
    if i + 1 + |sep| <= |s| { assert s[i + 1..i + 1 + |sep|] == s[1..][i..i + |sep|]; }
  }

  /** The first index at which sep occurs in s, or -1 (strings.Index). */
  function IndexOf(s: string, sep: string): (r: int)
    ensures r == -1 || 0 <= r <= |s| - |sep|
    ensures r >= 0 ==> OccursAt(s, sep, r)
    ensures forall i :: 0 <= i && (r < 0 || i < r) ==> !OccursAt(s, sep, i)
    decreases |s|
  {
    if |s| < |sep| then -1
    else if s[..|sep|] == sep then 0
    else
      var r := IndexOf(s[1..], sep);
      assert !OccursAt(s, sep, 0);
      var r' := if r < 0 then -1 else r + 1;
      assert forall i :: 0 <= i && (r' < 0 || i < r') ==> !OccursAt(s, sep, i) by {
        forall i | 0 <= i && (r' < 0 || i < r') ensures !OccursAt(s, sep, i) {
          if i > 0 { OccursAtTail(s, sep, i - 1); }
        }
      }
      r'
  }

  /** strings.Split for a non-empty separator. */
  function Split(s: string, sep: string): (parts: seq<string>)
    requires |sep| > 0
    ensures |parts| >= 1
    decreases |s|
  {
    var i := IndexOf(s, sep);
    if i < 0 then [s]
    else [s[..i]] + Split(s[i + |sep|..], sep)
  }

  /** strings.Join. */
  function Join(parts: seq<string>, sep: string): string
  {
    if |parts| == 0 then ""
    else if |parts| == 1 then parts[0]
    else parts[0] + sep + Join(parts[1..], sep)
  }

  /** Splitting and joining on the same separator gives the text back. */
  lemma {:induction false} JoinSplit(s: string, sep: string)
    requires |sep| > 0
    ensures Join(Split(s, sep), sep) == s
    decreases |s|
  {
    var i := IndexOf(s, sep);
    if i >= 0 {
      var rest := s[i + |sep|..];
      var p := Split(rest, sep);
      assert Split(s, sep) == [s[..i]] + p;
      JoinSplit(rest, sep);
      JoinCons(s[..i], p, sep);
      assert s[i..i + |sep|] == sep;
      assert s == s[..i] + s[i..i + |sep|] + rest;
    }
  }

  lemma {:induction false} JoinCons(a: string, p: seq<string>, sep: string)
    requires |p| >= 1
    ensures Join([a] + p, sep) == a + sep + Join(p, sep)
  {
    assert ([a] + p)[1..] == p;
  }

  /**
   * Joining pieces that do not contain a one-character separator and
   * splitting the result again gives the pieces back.
   */
  lemma {:induction false} SplitJoin(parts: seq<string>, sep: string)
    requires |sep| == 1 && |parts| >= 1
    requires forall k :: 0 <= k < |parts| ==> sep[0] !in parts[k]
    ensures Split(Join(parts, sep), sep) == parts
    decreases |parts|
  {
    var s := Join(parts, sep);
    var r := IndexOf(s, sep);
    if |parts| > 1 {
      var p0 := parts[0];
      var rest := Join(parts[1..], sep);
      assert s == p0 + sep + rest;
      assert OccursAt(s, sep, |p0|) by {
        assert s[|p0|..|p0| + 1] == sep;
      }
      assert r == |p0|;
      assert s[r + |sep|..] == rest;
      assert s[..r] == p0;
      SplitJoin(parts[1..], sep);
    }
  }

  /** A string without the character c does not contain the one-character string [c]. */
  lemma {:induction false} NotContainsChar(s: string, c: char)
    requires !Contains(s, [c])
    ensures c !in s
  {
    if c in s {
      var q :| 0 <= q < |s| && s[q] == c;
      assert OccursAt(s, [c], q);
    }
  }

  /** No piece of a split contains the separator. */
  lemma {:induction false} SplitPartsFree(s: string, sep: string, k: int)
    requires |sep| > 0 && 0 <= k < |Split(s, sep)|
    ensures !Contains(Split(s, sep)[k], sep)
    decreases |s|
  {
    var i := IndexOf(s, sep);
    if i < 0 {
    } else if k == 0 {
      var p := s[..i];
      if Contains(p, sep) {
        var j :| 0 <= j <= |p| && OccursAt(p, sep, j);
        assert s[j..j + |sep|] == p[j..j + |sep|];
        assert OccursAt(s, sep, j);
      }
    } else {
      SplitPartsFree(s[i + |sep|..], sep, k - 1);
    }
  }
}
